/** NAND geometry: the derived sizes of `ssd_init_params` (ssd.c), physical page
    addresses, and the two orders in which the FTL walks through a line. */
module Geometry {

  // ----- Sizes -----

  datatype Config = Config(
    nandChannels: nat, plnsPerLun: nat, lunsPerNandCh: nat, blksPerPln: nat, blkSize: nat,
    flashPageSize: nat, oneshotPageSize: nat, lbaSize: nat)

  /** `struct ssdparams`, the fields that shape addresses. */
  datatype Params = Params(
    secsPerPg: nat, pgsz: nat,
    pgsPerFlashpg: nat, flashpgsPerBlk: nat, pgsPerOneshotpg: nat, oneshotpgsPerBlk: nat, pgsPerBlk: nat,
    blksPerPl: nat, plsPerLun: nat, lunsPerCh: nat, nchs: nat,
    pgsPerPl: nat, pgsPerLun: nat, pgsPerCh: nat, ttPgs: nat, ttLuns: nat, pgsPerLine: nat, ttLines: nat)

  function DivRoundUp(n: nat, d: nat): nat
    requires d > 0
  {
    (n + d - 1) / d
  }

  /** The least multiple that is enough. */
  lemma RoundedUp(n: nat, d: nat)
    requires d > 0
    ensures n <= DivRoundUp(n, d) * d
    ensures DivRoundUp(n, d) > 0 ==> (DivRoundUp(n, d) - 1) * d < n
  {
    var m := n + d - 1;
    assert m == (m / d) * d + m % d;
  }

  /** The asserts of `ssd_init_params` and the divisions it performs. */
  ghost predicate ConfigOk(c: Config, nparts: nat)
  {
    && nparts > 0 && c.nandChannels > 0 && c.nandChannels % nparts == 0
    && c.plnsPerLun > 0 && c.lunsPerNandCh > 0
    && (c.blksPerPln > 0 || c.blkSize > 0)
    && 0 < c.lbaSize && 4096 % c.lbaSize == 0
    && 0 < c.flashPageSize && 0 < c.oneshotPageSize
    && c.oneshotPageSize % 4096 == 0 && c.flashPageSize % 4096 == 0
    && c.oneshotPageSize % c.flashPageSize == 0
  }

  function Times(a: nat, b: nat): nat {
    a * b
  }

  function Quot(a: nat, b: nat): nat
    requires b > 0
  {
    a / b
  }

  function Rem(a: nat, b: nat): (r: nat)
    requires b > 0
    ensures r < b
  {
    a % b
  }

  /** `blk_size` and `blks_per_pl` of `ssd_init_params`: one is configured, the other
      follows from the capacity of one partition spread over `dies` planes. */
  function BlockShape(c: Config, cap: nat, dies: nat): (r: (nat, nat))
    requires (c.blksPerPln > 0 || c.blkSize > 0) && dies > 0
    ensures c.blksPerPln > 0 ==> r.1 == c.blksPerPln && r.0 * (r.1 * dies) >= cap
    ensures c.blksPerPln == 0 ==> r.0 == c.blkSize && r.1 * (r.0 * dies) >= cap
  {
    if c.blksPerPln > 0 then
      Positive(c.blksPerPln, dies);
      (DivRoundUp(cap, c.blksPerPln * dies), c.blksPerPln)
    else
      Positive(c.blkSize, dies);
      (c.blkSize, DivRoundUp(cap, c.blkSize * dies))
  }

  /** The page counts of `ssd_init_params` that follow from the block shape. */
  function Derive(c: Config, nchs: nat, blkSize: nat, blksPerPl: nat, pgsz: nat): Params
    requires pgsz > 0 && c.oneshotPageSize > 0 && c.flashPageSize > 0 && c.lbaSize > 0
  {
    var oneshotpgsPerBlk := DivRoundUp(blkSize, c.oneshotPageSize);
    var pgsPerOneshotpg := c.oneshotPageSize / pgsz;
    var pgsPerBlk := Times(pgsPerOneshotpg, oneshotpgsPerBlk);
    var pgsPerPl := Times(pgsPerBlk, blksPerPl);
    var pgsPerLun := Times(pgsPerPl, c.plnsPerLun);
    var pgsPerCh := Times(pgsPerLun, c.lunsPerNandCh);
    var ttLuns := Times(c.lunsPerNandCh, nchs);
    Params(4096 / c.lbaSize, pgsz,
      c.flashPageSize / pgsz, Times(c.oneshotPageSize / c.flashPageSize, oneshotpgsPerBlk),
      pgsPerOneshotpg, oneshotpgsPerBlk, pgsPerBlk,
      blksPerPl, c.plnsPerLun, c.lunsPerNandCh, nchs,
      pgsPerPl, pgsPerLun, pgsPerCh, Times(pgsPerCh, nchs),
      ttLuns, Times(ttLuns, pgsPerBlk), Times(blksPerPl, c.plnsPerLun))
  }

  function PageSize(c: Config): (n: nat)
    requires 0 < c.lbaSize && 4096 % c.lbaSize == 0
    ensures n == 4096
  {
    c.lbaSize * (4096 / c.lbaSize)
  }

  /** The planes of one partition that each carry a block of every line. */
  function Dies(c: Config, nparts: nat): (n: nat)
    requires ConfigOk(c, nparts)
    ensures n > 0
  {
    Factor(c.nandChannels, nparts);
    Positive(c.plnsPerLun, c.lunsPerNandCh);
    Positive(c.plnsPerLun * c.lunsPerNandCh, c.nandChannels / nparts);
    c.plnsPerLun * c.lunsPerNandCh * (c.nandChannels / nparts)
  }

  /** `ssd_init_params` on the page-shaping fields. */
  function InitParams(c: Config, capacity: nat, nparts: nat): Params
    requires ConfigOk(c, nparts)
  {
    var shape := BlockShape(c, capacity / nparts, Dies(c, nparts));
    Derive(c, c.nandChannels / nparts, shape.0, shape.1, PageSize(c))
  }

  /** What the FTL relies on: sizes that multiply up, one plane per LUN, and addresses
      that fit the bit fields of `struct ppa` and the `int` page counters. */
  ghost predicate Sound(g: Params)
  {
    && 0 < g.nchs <= 0x100 && 0 < g.lunsPerCh <= 0x100 && g.plsPerLun == 1
    && 0 < g.blksPerPl <= 0x1_0000 && 0 < g.pgsPerBlk <= 0x1_0000
    && 0 < g.pgsPerFlashpg && 0 < g.pgsPerOneshotpg
    && g.pgsPerBlk == g.pgsPerFlashpg * g.flashpgsPerBlk
    && g.pgsPerBlk == g.pgsPerOneshotpg * g.oneshotpgsPerBlk
    && g.pgsPerPl == g.pgsPerBlk * g.blksPerPl
    && g.pgsPerLun == g.pgsPerPl * g.plsPerLun
    && g.pgsPerCh == g.pgsPerLun * g.lunsPerCh
    && g.ttPgs == g.pgsPerCh * g.nchs
    && g.ttLuns == g.lunsPerCh * g.nchs
    && 0 < g.pgsPerLine == g.ttLuns * g.pgsPerBlk < 0x8000_0000
    && g.ttLines == g.blksPerPl
  }

  lemma Positive(a: nat, b: nat)
    requires a > 0 && b > 0
    ensures a * b > 0
  {
  }

  /** A positive multiple of `b` has a positive quotient. */
  lemma Factor(a: nat, b: nat)
    requires a > 0 && b > 0 && a % b == 0
    ensures a / b > 0 && a == b * (a / b)
  {
  }

  lemma Commute(a: nat, b: nat, c: nat)
    ensures a * (b * c) == (a * b) * c == (b * a) * c
  {
  }

  /** With O = F·k and F = 4096·f, the flash pages of a block hold as many pages as its
      one-shot pages. */
  lemma TwoTilings(oneshot: nat, flash: nat, n: nat)
    requires 0 < flash && 0 < oneshot && flash % 4096 == 0 && oneshot % flash == 0
    ensures (oneshot / 4096) * n == (flash / 4096) * ((oneshot / flash) * n)
    ensures oneshot / 4096 > 0 && flash / 4096 > 0
  {
    Factor(flash, 4096);
    Factor(oneshot, flash);
    var f, k := flash / 4096, oneshot / flash;
    assert oneshot == 4096 * (f * k);
    Positive(f, k);
    Commute(f, k, n);
  }

  /** Flash pages tile blocks exactly as one-shot pages do, whatever the capacity: every
      configuration that passes the asserts and fits the bit fields is sound. */
  lemma InitParamsIsSound(c: Config, capacity: nat, nparts: nat)
    requires ConfigOk(c, nparts) && c.plnsPerLun == 1 && capacity >= nparts
    ensures var g := InitParams(c, capacity, nparts);
            && g.nchs <= 0x100 && g.lunsPerCh <= 0x100 && g.blksPerPl <= 0x1_0000
            && g.pgsPerBlk <= 0x1_0000 && g.pgsPerLine < 0x8000_0000
            ==> Sound(g)
  {
    var g := InitParams(c, capacity, nparts);
    var shape := BlockShape(c, capacity / nparts, Dies(c, nparts));
    Factor(c.nandChannels, nparts);
    assert capacity / nparts > 0;
    assert shape.0 > 0 && shape.1 > 0;
    assert g.oneshotpgsPerBlk > 0;
    TwoTilings(c.oneshotPageSize, c.flashPageSize, g.oneshotpgsPerBlk);
    Positive(g.pgsPerOneshotpg, g.oneshotpgsPerBlk);
    Positive(g.lunsPerCh, g.nchs);
    Positive(g.ttLuns, g.pgsPerBlk);
  }

  /** The sizes are what was configured, and otherwise the least that hold the capacity: the smallest
      blocks, or the fewest, and the fewest one-shot pages to a block. */
  lemma SizesAreLeast(c: Config, capacity: nat, nparts: nat) returns (blkSize: nat)
    requires ConfigOk(c, nparts) && capacity >= nparts
    ensures var g := InitParams(c, capacity, nparts);
            && g.nchs * nparts == c.nandChannels && g.lunsPerCh == c.lunsPerNandCh && g.plsPerLun == c.plnsPerLun
            && g.pgsz == 4096 && g.secsPerPg * c.lbaSize == 4096
            && g.pgsPerFlashpg * 4096 == c.flashPageSize && g.pgsPerOneshotpg * 4096 == c.oneshotPageSize
    ensures var g := InitParams(c, capacity, nparts); var dies := g.plsPerLun * g.ttLuns; var cap := capacity / nparts;
            && cap <= blkSize * (g.blksPerPl * dies)
            && (if c.blksPerPln > 0 then g.blksPerPl == c.blksPerPln && (blkSize - 1) * (g.blksPerPl * dies) < cap
                else blkSize == c.blkSize && (g.blksPerPl - 1) * (blkSize * dies) < cap)
            && blkSize <= g.pgsPerBlk * 4096 < blkSize + c.oneshotPageSize
  {
    var g := InitParams(c, capacity, nparts);
    var dies, cap := Dies(c, nparts), capacity / nparts;
    var shape := BlockShape(c, cap, dies);
    blkSize := shape.0;
    Factor(c.nandChannels, nparts);
    Factor(c.oneshotPageSize, 4096);
    assert nparts * (capacity / nparts) + capacity % nparts == capacity;
    assert cap > 0;
    ShapeIsLeast(c, cap, dies);
    BlockIsLeast(c.oneshotPageSize, blkSize);
    assert dies == c.plnsPerLun * (c.lunsPerNandCh * (c.nandChannels / nparts));
    Commute(g.blksPerPl, blkSize, dies);
  }

  lemma ShapeIsLeast(c: Config, cap: nat, dies: nat)
    requires (c.blksPerPln > 0 || c.blkSize > 0) && dies > 0 && cap > 0
    ensures var s := BlockShape(c, cap, dies);
            && s.0 > 0 && s.1 > 0
            && (if c.blksPerPln > 0 then s.1 == c.blksPerPln && (s.0 - 1) * (s.1 * dies) < cap <= s.0 * (s.1 * dies)
                else s.0 == c.blkSize && (s.1 - 1) * (s.0 * dies) < cap <= s.1 * (s.0 * dies))
  {
    if c.blksPerPln > 0 {
      Positive(c.blksPerPln, dies);
      RoundedUp(cap, c.blksPerPln * dies);
    } else {
      Positive(c.blkSize, dies);
      RoundedUp(cap, c.blkSize * dies);
    }
  }

  lemma BlockIsLeast(oneshot: nat, size: nat)
    requires oneshot > 0 && oneshot % 4096 == 0 && size > 0
    ensures var n := DivRoundUp(size, oneshot); size <= Times(oneshot / 4096, n) * 4096 < size + oneshot
  {
    var n, f := DivRoundUp(size, oneshot), oneshot / 4096;
    RoundedUp(size, oneshot);
    Factor(oneshot, 4096);
    assert Times(f, n) * 4096 == n * oneshot;
  }

  /** The lines make up the drive. */
  lemma LinesMakeUpTheDrive(g: Params)
    requires Sound(g)
    ensures g.ttPgs == g.ttLines * g.pgsPerLine
  {
    var b, k, l, n := g.pgsPerBlk, g.blksPerPl, g.lunsPerCh, g.nchs;
    assert g.pgsPerLun == b * k;
    Regroup(b, k, l, n);
  }

  lemma Regroup(b: nat, k: nat, l: nat, n: nat)
    ensures ((b * k) * l) * n == k * ((l * n) * b)
  {
    Commute(b, k, l);
    assert (b * k) * l == k * (b * l);
    assert (k * (b * l)) * n == k * ((b * l) * n);
    assert (b * l) * n == b * (l * n);
  }

  // ----- Addresses -----

  /** `struct ppa`, its five bit fields. */
  datatype Ppa = Ppa(ch: nat, lun: nat, pl: nat, blk: nat, pg: nat)

  /** A NAND block: what is erased at once. */
  datatype Blk = Blk(ch: nat, lun: nat, blk: nat)

  function BlkOf(p: Ppa): Blk {
    Blk(p.ch, p.lun, p.blk)
  }

  /** `valid_ppa`. */
  predicate ValidPpa(g: Params, p: Ppa)
  {
    p.ch < g.nchs && p.lun < g.lunsPerCh && p.pl < g.plsPerLun && p.blk < g.blksPerPl && p.pg < g.pgsPerBlk
  }

  /** `ppa2pgidx`. */
  function PgIdx(g: Params, p: Ppa): nat
  {
    Times(p.ch, g.pgsPerCh) + Times(p.lun, g.pgsPerLun) + Times(p.pl, g.pgsPerPl)
    + Times(p.blk, g.pgsPerBlk) + p.pg
  }

  lemma LessTimes(a: nat, b: nat, k: nat)
    ensures a < b ==> a * k + k <= b * k
  {
    if a < b {
      assert (a + 1) * k <= b * k;
    }
  }

  /** One more digit of a mixed-radix number stays in range. */
  lemma DigitInRange(q: nat, n: nat, r: nat, k: nat)
    requires q < n && r < k
    ensures q * k + r < n * k
  {
    LessTimes(q, n, k);
  }

  /** Quotient and remainder determine each other. */
  lemma DigitsUnique(q1: nat, r1: nat, q2: nat, r2: nat, k: nat)
    requires r1 < k && r2 < k && q1 * k + r1 == q2 * k + r2
    ensures q1 == q2 && r1 == r2
  {
    LessTimes(q1, q2, k);
    LessTimes(q2, q1, k);
  }

  /** The assert in `ppa2pgidx` never fires on a valid address. */
  lemma PgIdxInRange(g: Params, p: Ppa)
    requires Sound(g) && ValidPpa(g, p)
    ensures PgIdx(g, p) < g.ttPgs
    ensures p.blk * g.pgsPerBlk + p.pg < g.pgsPerPl
    ensures p.lun * g.pgsPerLun + (p.blk * g.pgsPerBlk + p.pg) < g.pgsPerCh
  {
    DigitInRange(p.blk, g.blksPerPl, p.pg, g.pgsPerBlk);
    DigitInRange(p.lun, g.lunsPerCh, p.blk * g.pgsPerBlk + p.pg, g.pgsPerLun);
    DigitInRange(p.ch, g.nchs, p.lun * g.pgsPerLun + (p.blk * g.pgsPerBlk + p.pg), g.pgsPerCh);
  }

  /** `ppa2pgidx` never gives two pages the same index... */
  lemma PgIdxInjective(g: Params, p: Ppa, q: Ppa)
    requires Sound(g) && ValidPpa(g, p) && ValidPpa(g, q) && PgIdx(g, p) == PgIdx(g, q)
    ensures p == q
  {
    PgIdxInRange(g, p);
    PgIdxInRange(g, q);
    var bp, bq := p.blk * g.pgsPerBlk + p.pg, q.blk * g.pgsPerBlk + q.pg;
    var lp, lq := p.lun * g.pgsPerLun + bp, q.lun * g.pgsPerLun + bq;
    DigitsUnique(p.ch, lp, q.ch, lq, g.pgsPerCh);
    DigitsUnique(p.lun, bp, q.lun, bq, g.pgsPerLun);
    DigitsUnique(p.blk, p.pg, q.blk, q.pg, g.pgsPerBlk);
  }

  /** The address order: channel, LUN, block, page. */
  predicate Precedes(p: Ppa, q: Ppa)
  {
    || p.ch < q.ch
    || (p.ch == q.ch && p.lun < q.lun)
    || (p.ch == q.ch && p.lun == q.lun && p.blk < q.blk)
    || (p.ch == q.ch && p.lun == q.lun && p.blk == q.blk && p.pg < q.pg)
  }

  /** Pages are numbered in that order. */
  lemma PgIdxInOrder(g: Params, p: Ppa, q: Ppa)
    requires Sound(g) && ValidPpa(g, p) && ValidPpa(g, q) && Precedes(p, q)
    ensures PgIdx(g, p) < PgIdx(g, q)
  {
    PgIdxInRange(g, p);
    PgIdxInRange(g, q);
    LessTimes(p.ch, q.ch, g.pgsPerCh);
    LessTimes(p.lun, q.lun, g.pgsPerLun);
    LessTimes(p.blk, q.blk, g.pgsPerBlk);
  }

  lemma SizesPositive(g: Params)
    requires Sound(g)
    ensures g.pgsPerCh > 0 && g.pgsPerLun > 0 && g.pgsPerPl > 0
    ensures g.pgsPerLun == g.pgsPerPl
  {
    Positive(g.pgsPerBlk, g.blksPerPl);
    Positive(g.pgsPerLun, g.lunsPerCh);
  }

  /** The page with a given index. */
  function PpaAt(g: Params, i: nat): Ppa
    requires Sound(g)
  {
    SizesPositive(g);
    var inCh := Rem(i, g.pgsPerCh);
    var inLun := Rem(inCh, g.pgsPerLun);
    Ppa(Quot(i, g.pgsPerCh), Quot(inCh, g.pgsPerLun), 0, Quot(inLun, g.pgsPerBlk), Rem(inLun, g.pgsPerBlk))
  }

  lemma QuotientInRange(i: nat, n: nat, k: nat)
    requires k > 0 && i < n * k
    ensures i / k < n && i == (i / k) * k + i % k
  {
    LessTimes(n, i / k + 1, k);
  }

  /** ... and every index below `tt_pgs` belongs to a valid address. */
  lemma PgIdxOnto(g: Params, i: nat)
    requires Sound(g) && i < g.ttPgs
    ensures ValidPpa(g, PpaAt(g, i)) && PgIdx(g, PpaAt(g, i)) == i
  {
    SizesPositive(g);
    var inCh, inLun := i % g.pgsPerCh, i % g.pgsPerCh % g.pgsPerLun;
    QuotientInRange(i, g.nchs, g.pgsPerCh);
    QuotientInRange(inCh, g.lunsPerCh, g.pgsPerLun);
    QuotientInRange(inLun, g.blksPerPl, g.pgsPerBlk);
  }
}
