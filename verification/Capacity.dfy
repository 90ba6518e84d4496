/** From the configured capacity to the room the FTL needs: the sizes of `ssd_init_params`
    (ssd.c) and the over-provisioning of `conv_init_namespace` (conv_ftl.c). */
module Capacity {
  import opened Geometry
  import opened Traversal
  import opened FtlState
  import opened FtlInvariant
  import opened FtlSpace

  // ----- What the guard of conv_write leaves open -----

  lemma {:induction false} SumAtMost(line: seq<Counts>, n: nat, most: nat, u: nat, c: nat)
    requires n <= |line| && u < |line| && c < |line| && u != c
    requires forall b :: 0 <= b < |line| ==> line[b].vpc <= most
    requires line[u].vpc < most && line[c].vpc < most
    ensures SumVpc(line, n) <= n * most - (if u < n then 1 else 0) - (if c < n then 1 else 0)
  {
    if n > 0 {
      SumAtMost(line, n - 1, most, u, c);
      assert n * most == (n - 1) * most + most;
    }
  }

  /** Between two page writes both write pointers stand on a free page, so at most
      `tt_pgs` - 2 LPNs of a partition can ever be mapped, though the check of `conv_write` lets
      every local LPN below `tt_pgs` through. */
  lemma NotEveryGuardedLpnFits(g: Params, s: State)
    requires Sound(g) && Core(g, s, {}, {})
    ensures |MappedLpns(s.maptbl)| + 2 <= g.ttPgs == |s.maptbl|
  {
    hide Sound, Pages, Maps, Tally, Fill, Roles;
    LinesMakeUpTheDrive(g);
    CountersAddUp(g, s);
    HalfWritten(g, s, UserIo);
    HalfWritten(g, s, GcIo);
    var sizes := Tallied(g, s);
    forall b: nat | b < g.ttLines ensures s.line[b].vpc <= g.pgsPerLine { FreePagesOfLine(g, s, {}, {}, b); }
    SumAtMost(s.line, g.ttLines, g.pgsPerLine, s.uwp.blk, s.gwp.blk);
  }

  lemma Tallied(g: Params, s: State) returns (n: nat)
    requires Core(g, s, {}, {})
    ensures n == |s.line| == g.ttLines && s.uwp.blk < n && s.gwp.blk < n && s.uwp.blk != s.gwp.blk
  {
    n := |s.line|;
  }

  lemma HalfWritten(g: Params, s: State, io: IoType)
    requires Sound(g) && Core(g, s, {}, {})
    ensures WpFor(s, io).blk < |s.line| && s.line[WpFor(s, io).blk].vpc < g.pgsPerLine
  {
    hide Sound, Pages, Maps, Fill;
    PageUnderPointer(g, s, {}, {}, io);
    var b := WpFor(s, io).blk;
    assert PageAt(WpFor(s, io)) in LineWith(s.page, PgFree, b);
    FreePagesOfLine(g, s, {}, {}, b);
  }

  // ----- From the configured capacity to `Provisioned` -----

  /** `ns->size` in bytes: what is left of the capacity after over-provisioning. */
  function NamespaceSize(capacity: nat, pbaPcent: nat): nat
    requires pbaPcent > 0
  {
    capacity * 100 / pbaPcent
  }

  /** The local LPNs of one partition: the pages of the namespace, dealt out in turn. */
  function LocalLpns(capacity: nat, pbaPcent: nat, nparts: nat): nat
    requires pbaPcent > 0 && nparts > 0
  {
    DivRoundUp(DivRoundUp(NamespaceSize(capacity, pbaPcent), 4096), nparts)
  }

  /** The namespace is the largest that leaves `pbaPcent` percent of it as physical space, and every
      page of it is a local LPN below `LocalLpns`, the last of which some page needs. */
  lemma NamespaceInLpns(capacity: nat, pbaPcent: nat, nparts: nat, page: nat)
    requires pbaPcent > 0 && nparts > 0
    ensures var size := NamespaceSize(capacity, pbaPcent);
            && size * pbaPcent <= capacity * 100 < (size + 1) * pbaPcent
            && (page * 4096 < size ==> page / nparts < LocalLpns(capacity, pbaPcent, nparts))
            && (LocalLpns(capacity, pbaPcent, nparts) > 0 ==>
                  (LocalLpns(capacity, pbaPcent, nparts) - 1) * nparts * 4096 < size)
  {
    var size := NamespaceSize(capacity, pbaPcent);
    var pages, l := DivRoundUp(size, 4096), LocalLpns(capacity, pbaPcent, nparts);
    QuotRem(capacity * 100, pbaPcent);
    RoundedUp(size, 4096);
    RoundedUp(pages, nparts);
    if page * 4096 < size {
      QuotRem(page, nparts);
      LessTimes(l, page / nparts + 1, nparts);
    }
  }

  /** Rounding up keeps the whole capacity of a partition in its pages. */
  lemma PagesHoldTheCapacity(c: Config, capacity: nat, nparts: nat)
    requires ConfigOk(c, nparts) && c.plnsPerLun == 1 && Sound(InitParams(c, capacity, nparts))
    ensures capacity / nparts <= InitParams(c, capacity, nparts).ttPgs * 4096
  {
    var g := InitParams(c, capacity, nparts);
    var shape := BlockShape(c, capacity / nparts, Dies(c, nparts));
    var dies := Dies(c, nparts);
    BlockHoldsItsSize(c, shape.0);
    assert g.pgsPerBlk * 4096 >= shape.0;
    assert dies == g.ttLuns;
    LinesMakeUpTheDrive(g);
    SpreadOut(g.pgsPerBlk, shape.0, shape.1, dies);
    assert g.ttPgs == shape.1 * (dies * g.pgsPerBlk);
  }

  /** ... with little to spare: less than a one-shot page for each block, and where the block size is
      configured less than a block for each die. */
  lemma PagesExceedLittle(c: Config, capacity: nat, nparts: nat)
    requires ConfigOk(c, nparts) && c.plnsPerLun == 1 && Sound(InitParams(c, capacity, nparts)) && capacity >= nparts
    ensures var g := InitParams(c, capacity, nparts);
            g.ttPgs * 4096 < capacity / nparts + g.blksPerPl * g.ttLuns * c.oneshotPageSize
                             + (if c.blksPerPln > 0 then 0 else c.blkSize * g.ttLuns)
  {
    var g := InitParams(c, capacity, nparts);
    var blkSize := SizesAreLeast(c, capacity, nparts);
    hide ConfigOk, InitParams, Sound;
    assert g.blksPerPl > 0 && g.ttLuns > 0 && g.ttPgs == g.ttLines * g.pgsPerLine by { TotalsOf(g); }
    assert g.pgsPerLine == g.ttLuns * g.pgsPerBlk && g.ttLines == g.blksPerPl by { TotalsOf(g); }
    LittleToSpare(g.blksPerPl, g.ttLuns, g.pgsPerBlk, blkSize, c.oneshotPageSize, capacity / nparts, c.blksPerPln > 0);
  }

  lemma TotalsOf(g: Params)
    requires Sound(g)
    ensures g.blksPerPl > 0 && g.ttLuns > 0 && g.ttPgs == g.ttLines * g.pgsPerLine
    ensures g.pgsPerLine == g.ttLuns * g.pgsPerBlk && g.ttLines == g.blksPerPl
  {
    LinesMakeUpTheDrive(g);
    Positive(g.lunsPerCh, g.nchs);
  }

  lemma LittleToSpare(blks: nat, dies: nat, pages: nat, size: nat, oneshot: nat, cap: nat, fixed: bool)
    requires blks > 0 && dies > 0 && pages * 4096 < size + oneshot
    requires if fixed then (size - 1) * (blks * dies) < cap else (blks - 1) * (size * dies) < cap
    ensures (blks * (dies * pages)) * 4096 < cap + blks * dies * oneshot + (if fixed then 0 else size * dies)
  {
    var k := blks * dies;
    Positive(blks, dies);
    assert (blks * (dies * pages)) * 4096 == k * (pages * 4096);
    AtLeast(pages * 4096, size - 1 + oneshot, k);
    assert k * (size - 1 + oneshot) == (size - 1) * k + k * oneshot;
    if !fixed {
      assert (size - 1) * k == (blks - 1) * (size * dies) + size * dies - k;
    }
  }

  lemma BlockHoldsItsSize(c: Config, blkSize: nat)
    requires c.oneshotPageSize > 0 && c.oneshotPageSize % 4096 == 0
    ensures Times(c.oneshotPageSize / 4096, DivRoundUp(blkSize, c.oneshotPageSize)) * 4096 >= blkSize
  {
    var n := DivRoundUp(blkSize, c.oneshotPageSize);
    RoundedUp(blkSize, c.oneshotPageSize);
    Factor(c.oneshotPageSize, 4096);
    var f := c.oneshotPageSize / 4096;
    assert (f * n) * 4096 == n * (4096 * f);
  }

  lemma SpreadOut(pages: nat, size: nat, blks: nat, dies: nat)
    requires pages * 4096 >= size
    ensures (blks * (dies * pages)) * 4096 >= size * (blks * dies)
    ensures (blks * (dies * pages)) * 4096 >= blks * (size * dies)
  {
    AtLeast(size, pages * 4096, blks * dies);
    assert (blks * (dies * pages)) * 4096 == (pages * 4096) * (blks * dies);
    assert size * (blks * dies) == blks * (size * dies);
  }

  lemma AtLeast(a: nat, b: nat, k: nat)
    ensures a <= b ==> a * k <= b * k
  {
  }

  lemma StrictCancel(a: nat, b: int, k: nat)
    requires k * a < k * b
    ensures a < b
  {
    if b >= 0 { AtLeast(b, a, k); }
  }

  /** With `pbaPcent` percent of the namespace as physical space, a partition of `T` lines of `P`
      pages has the four spare lines the FTL needs as soon as
      `pbaPcent * ((T - 4) * P - 1) > 100 * T * P`. */
  lemma OverProvisioned(c: Config, capacity: nat, nparts: nat, pbaPcent: nat)
    requires ConfigOk(c, nparts) && c.plnsPerLun == 1 && Sound(InitParams(c, capacity, nparts))
    requires pbaPcent >= 100
    requires var g := InitParams(c, capacity, nparts);
             g.ttLines >= 5 && pbaPcent * ((g.ttLines - 4) * g.pgsPerLine - 1) > 100 * (g.ttLines * g.pgsPerLine)
    ensures Provisioned(InitParams(c, capacity, nparts), LocalLpns(capacity, pbaPcent, nparts))
  {
    var g := InitParams(c, capacity, nparts);
    hide Sound, ConfigOk, InitParams;
    LinesMakeUpTheDrive(g);
    PagesHoldTheCapacity(c, capacity, nparts);
    var l := LocalLpns(capacity, pbaPcent, nparts);
    LocalLpnsBound(capacity, pbaPcent, nparts, g.ttPgs);
    var room := (g.ttLines - 4) * g.pgsPerLine;
    if l > 0 { StrictCancel(l - 1, room - 1, pbaPcent); }
    LessTimes(g.ttLines - 4, g.ttLines, g.pgsPerLine);
  }

  lemma LocalLpnsBound(capacity: nat, pbaPcent: nat, nparts: nat, ttPgs: nat)
    requires pbaPcent > 0 && nparts > 0 && capacity / nparts <= ttPgs * 4096
    ensures var l := LocalLpns(capacity, pbaPcent, nparts); l == 0 || pbaPcent * (l - 1) <= 100 * ttPgs
  {
    var size := NamespaceSize(capacity, pbaPcent);
    var pages := DivRoundUp(size, 4096);
    var l := DivRoundUp(pages, nparts);
    if l > 0 {
      RoundedUp(pages, nparts);
      RoundedUp(size, 4096);
      NamespaceShare(capacity, pbaPcent);
      Combine(capacity, pbaPcent, nparts, ttPgs, size, pages, l);
    }
  }

  lemma NamespaceShare(capacity: nat, pbaPcent: nat)
    requires pbaPcent > 0
    ensures NamespaceSize(capacity, pbaPcent) * pbaPcent <= capacity * 100
  {
  }

  lemma Combine(capacity: nat, pbaPcent: nat, nparts: nat, ttPgs: nat, size: nat, pages: nat, l: nat)
    requires nparts > 0 && l > 0 && pages > 0 && capacity / nparts <= ttPgs * 4096
    requires (l - 1) * nparts < pages && (pages - 1) * 4096 < size && size * pbaPcent <= capacity * 100
    ensures pbaPcent * (l - 1) <= 100 * ttPgs
  {
    var a, x := l - 1, capacity / nparts;
    assert capacity < (x + 1) * nparts;
    assert a * nparts <= pages - 1;
    assert (a * nparts) * 4096 < size;
    AtLeast((a * nparts) * 4096, size, pbaPcent);
    assert ((a * nparts) * 4096) * pbaPcent <= capacity * 100;
    assert ((a * nparts) * 4096) * pbaPcent == (pbaPcent * a * 4096) * nparts;
    AtLeast(capacity, (x + 1) * nparts, 100);
    assert ((x + 1) * nparts) * 100 == ((x + 1) * 100) * nparts;
    Cancel(pbaPcent * a * 4096, (x + 1) * 100, nparts);
    assert pbaPcent * a * 4096 <= (ttPgs * 4096 + 1) * 100;
  }

  lemma Cancel(a: nat, b: nat, k: nat)
    requires k > 0 && a * k <= b * k
    ensures a <= b
  {
    LessTimes(b, a, k);
  }

  /** Seven percent over 8192 blocks a plane (the SAMSUNG_970PRO configuration) are enough, for
      every capacity. */
  lemma SevenPercentSuffice(c: Config, capacity: nat, nparts: nat)
    requires ConfigOk(c, nparts) && c.plnsPerLun == 1 && Sound(InitParams(c, capacity, nparts)) && c.blksPerPln == 8192
    ensures Provisioned(InitParams(c, capacity, nparts), LocalLpns(capacity, 107, nparts))
  {
    var g := InitParams(c, capacity, nparts);
    assert g.ttLines == 8192;
    OverProvisioned(c, capacity, nparts, 107);
  }

  /** The SAMSUNG_970PRO configuration with 64 GiB over four partitions: sizes the FTL can work
      with, enough spare lines, and a fresh drive that satisfies the whole invariant. */
  lemma Samsung970ProWorks()
    ensures var c := Config(8, 1, 2, 8192, 0, 32768, 32768, 512);
            var g := InitParams(c, 0x10_0000_0000, 4);
            && ConfigOk(c, 4) && Sound(g) && g.ttLines == 8192 && g.pgsPerLine == 512
            && Provisioned(g, LocalLpns(0x10_0000_0000, 107, 4))
            && Inv(g, LocalLpns(0x10_0000_0000, 107, 4), Fresh(g), Flow(g.pgsPerLine, g.pgsPerLine))
  {
    var c := Config(8, 1, 2, 8192, 0, 32768, 32768, 512);
    var g := InitParams(c, 0x10_0000_0000, 4);
    assert Dies(c, 4) == 4;
    assert BlockShape(c, 0x4_0000_0000, 4) == (524288, 8192);
    InitParamsIsSound(c, 0x10_0000_0000, 4);
    SevenPercentSuffice(c, 0x10_0000_0000, 4);
    FreshIsSound(g, LocalLpns(0x10_0000_0000, 107, 4));
  }
}
