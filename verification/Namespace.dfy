/** The conventional namespace (conv_ftl.c): LPNs striped over the partitions, the shared
    write buffer (ssd.c), and the host's write command. */
module Namespace {
  import opened Wrappers
  import opened IdLists
  import opened Geometry
  import opened Traversal
  import opened FtlState
  import opened FtlSpace
  import opened Provisioning
  import opened ConvFtl
  import opened ReadPath

  // ----- Arithmetic of the shared buffer -----

  function Sum(q: seq<nat>): nat
  {
    if q == [] then 0 else Sum(q[..|q| - 1]) + q[|q| - 1]
  }

  /** Pages waiting in each partition's current one-shot page. */
  function Waiting(pgs: seq<nat>, os: nat): nat
    requires os > 0
  {
    if pgs == [] then 0 else Waiting(pgs[..|pgs| - 1], os) + pgs[|pgs| - 1] % os
  }

  lemma {:induction false} WaitingUpdate(pgs: seq<nat>, os: nat, k: nat, x: nat)
    requires os > 0 && k < |pgs|
    ensures Waiting(pgs[k := x], os) + pgs[k] % os == Waiting(pgs, os) + x % os
  {
    var n := |pgs| - 1;
    if k == n {
      assert pgs[k := x][..n] == pgs[..n];
    } else {
      assert pgs[k := x][..n] == pgs[..n][k := x];
      WaitingUpdate(pgs[..n], os, k, x);
    }
  }

  lemma {:induction false} NothingWaits(pgs: seq<nat>, os: nat)
    requires os > 0 && forall i :: 0 <= i < |pgs| ==> pgs[i] == 0
    ensures Waiting(pgs, os) == 0
  {
    if pgs != [] {
      NothingWaits(pgs[..|pgs| - 1], os);
      QuotRemIs(0, 0, 0, os);
    }
  }

  lemma Distribute(k: nat, a: nat, b: nat)
    ensures k * (a + b) == k * a + Times(b, k)
  {
  }

  /** A written page waits for its one-shot page to fill; when it does, all of it is on its
      way to being released. */
  lemma AccountStep(pgs: seq<nat>, os: nat, k: nat, x: nat, pending: seq<nat>, pending': seq<nat>, pgsz: nat)
    requires os > 0 && k < |pgs| && x % os == (pgs[k] + 1) % os
    requires pending' == if pgs[k] % os == os - 1 then pending + [Times(os, pgsz)] else pending
    ensures Sum(pending') + pgsz * Waiting(pgs[k := x], os) == Sum(pending) + pgsz * Waiting(pgs, os) + pgsz
  {
    WaitingUpdate(pgs, os, k, x);
    StepPage(pgs[k], os);
    var w, w' := Waiting(pgs, os), Waiting(pgs[k := x], os);
    if pgs[k] % os == os - 1 {
      assert pending'[..|pending|] == pending;
      assert w' + os == w + 1;
      Distribute(pgsz, w', os);
      Distribute(pgsz, w, 1);
    } else {
      QuotRem(pgs[k], os);
      StaysInRow(pgs[k], os);
      assert w' == w + 1;
      Distribute(pgsz, w, 1);
    }
  }

  lemma StaysInRow(pg: nat, os: nat)
    requires os > 0 && pg % os != os - 1
    ensures (pg + 1) % os == pg % os + 1
  {
    QuotRem(pg, os);
    QuotRemIs(pg + 1, pg / os, pg % os + 1, os);
  }

  lemma Spread(a: nat, b: nat, s: nat)
    ensures a < b ==> Times(a, s) + s <= Times(b, s)
    ensures a <= b ==> Times(b - a + 1, s) == Times(b, s) - Times(a, s) + s
  {
    LessTimes(a, b, s);
  }

  /** From block `r` of page `a` to block `t` of page `b`, with `s` blocks to a page. */
  lemma PagesTouched(a: nat, r: nat, b: nat, t: nat, s: nat, nrLba: nat)
    requires r < s && t < s && nrLba > 0 && Times(b, s) + t + 1 == Times(a, s) + r + nrLba
    ensures a <= b && nrLba <= Times(b - a + 1, s)
    ensures nrLba == Times(b - a + 1, s) <==> r == 0 && t == s - 1
  {
    hide Times;
    Spread(b, a, s);
    Spread(a, b, s);
  }

  lemma PageAndBlock(x: nat, s: nat)
    requires s > 0
    ensures x == Times(x / s, s) + x % s && 0 <= x % s < s
  {
    QuotRem(x, s);
  }

  /** The block count of a request equals that of the pages it touches exactly when the
      request starts and ends on page boundaries. */
  lemma WholePages(slba: nat, nrLba: nat, s: nat)
    requires s > 0 && nrLba > 0
    ensures var n := (slba + nrLba - 1) / s - slba / s + 1;
            && n >= 1 && nrLba <= Times(n, s)
            && (nrLba == Times(n, s) <==> slba % s == 0 && (slba + nrLba) % s == 0)
  {
    hide Times;
    var last := slba + nrLba - 1;
    PageAndBlock(slba, s);
    PageAndBlock(last, s);
    PagesTouched(slba / s, slba % s, last / s, last % s, s, nrLba);
    NextBlock(last, s);
  }

  lemma NextBlock(x: nat, s: nat)
    requires s > 0
    ensures (x + 1) % s == 0 <==> x % s == s - 1
  {
    StepPage(x, s);
    if x % s == s - 1 {
      QuotRem(x, s);
      QuotRemIs(x + 1, x / s + 1, 0, s);
    }
  }

  /** Nothing has been written yet. */
  ghost predicate Blank(f: Ftl)
    reads f.Repr()
  {
    f.wp.pg == 0 && Shape(f.Abs()) && View(f.Abs()) == map[]
  }

  lemma StripeInRange(l: nat, last: nat, n: nat, hostLpns: nat)
    requires l <= last && InHost(last, n, hostLpns)
    ensures InHost(l, n, hostLpns)
  {
    QuotRem(l, n);
    QuotRem(last, n);
    LessTimes(last / n + 1, l / n, n);
    LessTimes(last / n, l / n, n);
  }

  /** A read or write of `nrLba` logical blocks from `slba` on. */
  datatype Command = Command(slba: nat, nrLba: nat)
  {
    /** The first and the last LPN it touches, and their number. */
    function First(g: Params): nat {
      if g.secsPerPg == 0 then 0 else slba / g.secsPerPg
    }

    function Last(g: Params): nat {
      if g.secsPerPg == 0 || nrLba == 0 then 0 else (slba + nrLba - 1) / g.secsPerPg
    }

    function Pages(g: Params): nat {
      if First(g) <= Last(g) then Last(g) - First(g) + 1 else 0
    }

    /** LPN `l` holds a block of the request. */
    ghost predicate Touches(g: Params, l: nat)
      requires g.secsPerPg > 0
    {
      exists b: nat :: slba <= b < slba + nrLba && Quot(b, g.secsPerPg) == l
    }

    function Bytes(secsz: nat): nat {
      Times(nrLba, secsz)
    }

    /** The guard of `conv_write` and `conv_read`. */
    predicate InDrive(g: Params, nrParts: nat) {
      nrParts > 0 && Last(g) / nrParts < g.ttPgs
    }

    /** What the host must respect: the buffer's size, and its own LPNs; a request past the
        whole drive is refused. */
    predicate WellFormed(g: Params, secsz: nat, size: nat, nrParts: nat, hostLpns: nat) {
      && nrLba > 0 && Bytes(secsz) <= size
      && (InHost(Last(g), nrParts, hostLpns) || !InDrive(g, nrParts))
    }
  }

  /** The LPNs from the first to the last are those that hold a block of the request. */
  lemma TouchedLpns(c: Command, g: Params, l: nat)
    requires g.secsPerPg > 0 && c.nrLba > 0
    ensures c.Touches(g, l) <==> c.First(g) <= l <= c.Last(g)
  {
    var s, end := g.secsPerPg, c.slba + c.nrLba - 1;
    if c.Touches(g, l) {
      var b: nat :| c.slba <= b < c.slba + c.nrLba && Quot(b, s) == l;
      LocalInRange(c.slba, b, s);
      LocalInRange(b, end, s);
    }
    if c.First(g) <= l <= c.Last(g) {
      var b := if l == c.First(g) then c.slba else l * s;
      QuotRem(c.slba, s);
      QuotRem(end, s);
      LessTimes(c.First(g), l, s);
      LessTimes(l, c.Last(g), s);
      QuotRemIs(l * s, l, 0, s);
      assert c.slba <= b < c.slba + c.nrLba && Quot(b, s) == l;
    }
  }

  /** The guard lets a request through if all of its blocks lie on LPNs of the partitions. */
  lemma InDriveIff(c: Command, g: Params, nrParts: nat)
    requires g.secsPerPg > 0 && c.nrLba > 0 && nrParts > 0
    ensures c.InDrive(g, nrParts) <==> forall l: nat :: c.Touches(g, l) ==> l < g.ttPgs * nrParts
  {
    FirstToLast(c, g);
    var last := c.Last(g);
    forall l: nat ensures c.Touches(g, l) <==> c.First(g) <= l <= last { TouchedLpns(c, g, l); }
    assert c.Touches(g, last);
    QuotRem(last, nrParts);
    LessTimes(last / nrParts, g.ttPgs, nrParts);
    LessTimes(g.ttPgs, last / nrParts + 1, nrParts);
  }

  /** The LPNs that hold a block of the request read as `data`, and no other LPN changes. */
  ghost predicate Rewritten(c: Command, g: Params, m: imap<nat, int>, m': imap<nat, int>, data: seq<int>)
    requires g.secsPerPg > 0
  {
    forall l: nat ::
      && (c.Touches(g, l) ==> l in m' && c.First(g) <= l < c.First(g) + |data| && m'[l] == data[l - c.First(g)])
      && (!c.Touches(g, l) ==> (l in m' <==> l in m) && (l in m ==> m'[l] == m[l]))
  }

  lemma OverwriteRewrites(c: Command, g: Params, m: imap<nat, int>, data: seq<int>)
    requires g.secsPerPg > 0 && c.nrLba > 0 && |data| == c.Pages(g)
    ensures Rewritten(c, g, m, Overwrite(m, c.First(g), data), data)
  {
    FirstToLast(c, g);
    forall l: nat ensures c.Touches(g, l) <==> c.First(g) <= l <= c.Last(g) { TouchedLpns(c, g, l); }
  }

  lemma FirstToLast(c: Command, g: Params)
    requires g.secsPerPg > 0 && c.nrLba > 0
    ensures c.First(g) <= c.Last(g) && c.Pages(g) >= 1
  {
    WholePages(c.slba, c.nrLba, g.secsPerPg);
  }

  /** The bytes taken from the buffer and the pages that will be given back balance if and only if
      the request starts and ends at a page boundary; otherwise more is given back. */
  lemma BufferBalance(c: Command, g: Params, secsz: nat)
    requires 0 < g.secsPerPg && 0 < secsz && g.pgsz == secsz * g.secsPerPg && c.nrLba > 0
    ensures c.Pages(g) > 0 && Times(c.Pages(g), g.pgsz) >= c.Bytes(secsz)
    ensures Times(c.Pages(g), g.pgsz) == c.Bytes(secsz) <==>
              c.slba % g.secsPerPg == 0 && (c.slba + c.nrLba) % g.secsPerPg == 0
  {
    WholePages(c.slba, c.nrLba, g.secsPerPg);
    ScaleUp(c.nrLba, Times(c.Pages(g), g.secsPerPg), secsz);
    Reorder(c.Pages(g), secsz, g.secsPerPg);
  }

  lemma Reorder(n: int, a: nat, b: nat)
    ensures n * (a * b) == (n * b) * a
  {
  }

  lemma ScaleUp(a: int, b: int, k: nat)
    requires a <= b && k > 0
    ensures a * k <= b * k && (a * k == b * k <==> a == b)
  {
  }

  /** A write of one 512-byte block takes 512 bytes and gives back a whole page. */
  lemma OneBlockDrift(g: Params)
    requires g.secsPerPg == 8 && g.pgsz == 4096
    ensures var c := Command(0, 1); Times(c.Pages(g), g.pgsz) == c.Bytes(512) + 3584
  {
    var c := Command(0, 1);
    assert c.First(g) == c.Last(g) == 0;
  }

  predicate InHost(lpn: nat, nrParts: nat, hostLpns: nat) {
    nrParts > 0 && lpn / nrParts < hostLpns
  }

  /** The LPNs from `start` on read as `data`, all others as in `m`. */
  ghost function Overwrite(m: imap<nat, int>, start: nat, data: seq<int>): imap<nat, int>
  {
    imap l: nat | l in m || start <= l < start + |data| :: if start <= l < start + |data| then data[l - start] else m[l]
  }

  lemma OverwriteNothing(m: imap<nat, int>, start: nat)
    ensures Overwrite(m, start, []) == m
  {
  }

  lemma OverwriteOneMore(m: imap<nat, int>, start: nat, data: seq<int>, x: int)
    ensures Overwrite(m, start, data + [x]) == Overwrite(m, start, data)[start + |data| := x]
  {
    var a, b := Overwrite(m, start, data + [x]), Overwrite(m, start, data)[start + |data| := x];
    forall l: nat ensures (l in a <==> l in b) && (l in a ==> a[l] == b[l]) {
      if start <= l < start + |data| { assert (data + [x])[l - start] == data[l - start]; }
    }
  }

  lemma OneMorePage(n: nat, pgsz: nat)
    ensures Times(0, pgsz) == 0
    ensures Times(n + 1, pgsz) == Times(n, pgsz) + pgsz
  {
  }

  /** A mapping table under the FTL invariant maps different LPNs to different pages. */
  lemma TableIsInjective(g: Params, s: State)
    requires Sound(g) && Core(g, s, {}, {})
    ensures Injective(g, s.maptbl) && |s.maptbl| == g.ttPgs
  {
    hide Sound, Pages, LinePages, Roles, Fill;
    forall i | 0 <= i < |s.maptbl| && s.maptbl[i].Some? ensures ValidPpa(g, s.maptbl[i].value) {
      assert s.maptbl[i].value in Live(s.page, {});
      PagesAreValid(g, s.maptbl[i].value);
    }
  }

  lemma ViewKeys(s: State, l: nat)
    requires Shape(s)
    ensures l in View(s) <==> l < |s.maptbl| && s.maptbl[l].Some?
  {
  }

  datatype HostStep = WriteStep(c: Command) | ReleaseStep

  // ----- The write buffer on its own -----

  /** The buffer as the host's requests see it: bytes unused, releases under way, and the pages
      waiting in each partition's current one-shot page. */
  datatype Buf = Buf(remaining: nat, pending: seq<nat>, waiting: seq<nat>)

  /** One page reaches partition `k`; the one that fills a one-shot page sets it free. */
  function PageIn(b: Buf, k: nat, os: nat, pgsz: nat): Buf
    requires k < |b.waiting|
  {
    if b.waiting[k] + 1 == os then b.(pending := b.pending + [Times(os, pgsz)], waiting := b.waiting[k := 0])
    else b.(waiting := b.waiting[k := b.waiting[k] + 1])
  }

  /** `n` pages from LPN `first` on, dealt out to the partitions in turn. */
  function PagesIn(b: Buf, first: nat, n: nat, os: nat, pgsz: nat): (r: Buf)
    requires |b.waiting| > 0
    ensures |r.waiting| == |b.waiting|
  {
    if n == 0 then b else PageIn(PagesIn(b, first, n - 1, os, pgsz), Rem(first + n - 1, |b.waiting|), os, pgsz)
  }

  lemma PagesInNext(b: Buf, first: nat, n: nat, os: nat, pgsz: nat)
    requires |b.waiting| > 0
    ensures PagesIn(b, first, 0, os, pgsz) == b
    ensures PagesIn(b, first, n + 1, os, pgsz)
            == PageIn(PagesIn(b, first, n, os, pgsz), Rem(first + n, |b.waiting|), os, pgsz)
  {
  }

  /** A write is accepted when it lies on the drive and the buffer has room for it. */
  predicate Accepts(b: Buf, g: Params, secsz: nat, s: HostStep) {
    s.WriteStep? && s.c.InDrive(g, |b.waiting|) && b.remaining >= s.c.Bytes(secsz)
  }

  function BufStep(b: Buf, g: Params, secsz: nat, s: HostStep): (r: Buf)
    requires |b.waiting| > 0
    ensures |r.waiting| == |b.waiting|
  {
    match s
    case WriteStep(c) =>
      if !Accepts(b, g, secsz, s) then b
      else PagesIn(b.(remaining := b.remaining - c.Bytes(secsz)), c.First(g), c.Pages(g), g.pgsPerOneshotpg, g.pgsz)
    case ReleaseStep =>
      if b.pending == [] then b
      else
        var n := |b.pending| - 1;
        b.(remaining := b.remaining + b.pending[n], pending := b.pending[..n])
  }

  lemma NothingToRelease(b: Buf, g: Params, secsz: nat)
    requires |b.waiting| > 0
    ensures !Accepts(b, g, secsz, ReleaseStep)
    ensures b.pending == [] ==> BufStep(b, g, secsz, ReleaseStep) == b
  {
  }

  /** The buffer after a sequence of steps from empty. */
  function BufAfter(g: Params, secsz: nat, nrParts: nat, size: nat, steps: seq<HostStep>): (r: Buf)
    requires nrParts > 0
    ensures |r.waiting| == nrParts
  {
    if steps == [] then Buf(size, [], seq(nrParts, i => 0))
    else
      var n := |steps| - 1;
      BufStep(BufAfter(g, secsz, nrParts, size, steps[..n]), g, secsz, steps[n])
  }

  lemma BufOneMore(g: Params, secsz: nat, nrParts: nat, size: nat, steps: seq<HostStep>, i: nat)
    requires nrParts > 0 && i < |steps|
    ensures BufAfter(g, secsz, nrParts, size, steps[..i + 1])
            == BufStep(BufAfter(g, secsz, nrParts, size, steps[..i]), g, secsz, steps[i])
  {
    assert steps[..i + 1][..i] == steps[..i];
  }

  function Waits(pgs: seq<nat>, os: nat): (w: seq<nat>)
    requires os > 0
    ensures |w| == |pgs| && forall i :: 0 <= i < |w| ==> w[i] == pgs[i] % os
  {
    seq(|pgs|, i requires 0 <= i < |pgs| => pgs[i] % os)
  }

  /** The pointer of one partition moves on by one page. */
  lemma WaitsStep(pgs: seq<nat>, os: nat, k: nat, x: nat, b: Buf, pending': seq<nat>, pgsz: nat)
    requires os > 0 && k < |pgs| && x % os == (pgs[k] + 1) % os && b.waiting == Waits(pgs, os)
    requires pending' == if pgs[k] % os == os - 1 then b.pending + [Times(os, pgsz)] else b.pending
    ensures Buf(b.remaining, pending', Waits(pgs[k := x], os)) == PageIn(b, k, os, pgsz)
  {
    StepPage(pgs[k], os);
    if pgs[k] % os != os - 1 {
      StaysInRow(pgs[k], os);
    } else {
      NextBlock(pgs[k], os);
    }
    hide Times;
    assert Waits(pgs[k := x], os) == PageIn(b, k, os, pgsz).waiting;
  }

  /** The request starts and ends on page boundaries. */
  predicate WholePagesOnly(s: HostStep, g: Params)
    requires g.secsPerPg > 0
  {
    s.WriteStep? ==> s.c.slba % g.secsPerPg == 0 && (s.c.slba + s.c.nrLba) % g.secsPerPg == 0
  }

  /** What a write command changes: the contents and the state of the buffer. */
  datatype Snapshot = Snapshot(contents: imap<nat, int>, accounted: int, buf: Buf)

  /** The first `n` pages of a write have reached the partitions. */
  ghost predicate WrittenSoFar(was: Snapshot, now: Snapshot, start: nat, data: seq<int>, n: int, g: Params)
  {
    && 0 <= n <= |data| && |was.buf.waiting| > 0 && |now.buf.waiting| == |was.buf.waiting|
    && now.contents == Overwrite(was.contents, start, data[..n])
    && now.accounted == was.accounted + Times(n, g.pgsz)
    && now.buf == PagesIn(was.buf, start, n, g.pgsPerOneshotpg, g.pgsz)
  }

  lemma WrittenNothing(was: Snapshot, start: nat, data: seq<int>, g: Params)
    requires |was.buf.waiting| > 0
    ensures WrittenSoFar(was, was, start, data, 0, g)
  {
    hide Overwrite, PageIn;
    OverwriteNothing(was.contents, start);
    OneMorePage(0, g.pgsz);
    assert data[..0] == [];
  }

  lemma WrittenOneMore(was: Snapshot, before: Snapshot, now: Snapshot, start: nat, data: seq<int>, n: nat, g: Params)
    requires WrittenSoFar(was, before, start, data, n, g) && n < |data|
    requires now.contents == before.contents[start + n := data[n]] && now.accounted == before.accounted + g.pgsz
    requires now.buf == PageIn(before.buf, Rem(start + n, |before.buf.waiting|), g.pgsPerOneshotpg, g.pgsz)
    ensures WrittenSoFar(was, now, start, data, n + 1, g)
  {
    hide Overwrite, PageIn, PagesIn, Times;
    OverwriteOneMore(was.contents, start, data[..n], data[n]);
    assert data[..n + 1] == data[..n] + [data[n]];
    OneMorePage(n, g.pgsz);
    PagesInNext(was.buf, start, n, g.pgsPerOneshotpg, g.pgsz);
  }

  lemma WrittenAll(was: Snapshot, now: Snapshot, start: nat, data: seq<int>, g: Params)
    requires WrittenSoFar(was, now, start, data, |data|, g)
    ensures now.contents == Overwrite(was.contents, start, data)
    ensures now.accounted == was.accounted + Times(|data|, g.pgsz)
    ensures |was.buf.waiting| > 0 && now.buf == PagesIn(was.buf, start, |data|, g.pgsPerOneshotpg, g.pgsz)
  {
    hide Overwrite, PagesIn, Times;
    assert data[..|data|] == data;
  }

  class Namespace {
    const g: Params
    const secsz: nat                 // bytes in a logical block
    const parts: seq<Ftl>
    const size: nat                  // the write buffer, in bytes
    var remaining: nat
    var pending: seq<nat>            // releases handed to the I/O workers

    ghost function Footprint(): set<object>
    {
      set i, o | 0 <= i < |parts| && o in parts[i].Repr() :: o
    }

    /** The partitions share nothing. */
    ghost predicate Separate()
    {
      && |parts| > 0 && 0 < g.secsPerPg && 0 < secsz && g.pgsz == secsz * g.secsPerPg && g.pgsPerOneshotpg > 0
      && (forall i :: 0 <= i < |parts| ==> parts[i].g == g && this !in parts[i].Repr())
      && (forall i, j :: 0 <= i < j < |parts| ==> parts[i].Repr() !! parts[j].Repr())
    }

    ghost predicate Valid(hostLpns: nat)
      reads Footprint()
    {
      Separate() && forall i :: 0 <= i < |parts| ==> parts[i].Valid(hostLpns)
    }

    /** What partition `k` reads at its local LPN `l`. */
    ghost function PartAt(k: nat, l: nat): Option<int>
      requires k < |parts|
      reads parts[k].Repr()
    {
      var s := parts[k].Abs();
      if Shape(s) && l in View(s) then Some(View(s)[l]) else None
    }

    /** What LPN `lpn` of the namespace reads as: LPNs are striped over the partitions. */
    ghost function At(lpn: nat): Option<int>
      requires |parts| > 0
      reads parts[lpn % |parts|].Repr()
    {
      PartAt(lpn % |parts|, lpn / |parts|)
    }

    /** The logical content of the namespace. */
    ghost function Contents(): imap<nat, int>
      requires Separate()
      reads Footprint()
    {
      imap l: nat | At(l).Some? :: At(l).value
    }

    ghost function Pgs(): (r: seq<nat>)
      reads parts
      ensures |r| == |parts|
    {
      seq(|parts|, i requires 0 <= i < |parts| reads parts => parts[i].wp.pg)
    }

    /** Where the bytes of the buffer are: unused, being released, or waiting for their
        one-shot page to fill. */
    ghost function Accounted(): int
      requires g.pgsPerOneshotpg > 0
      reads this, parts
    {
      remaining + Sum(pending) + g.pgsz * Waiting(Pgs(), g.pgsPerOneshotpg)
    }

    ghost function Buffer(): (b: Buf)
      requires g.pgsPerOneshotpg > 0
      reads this, parts
      ensures |b.waiting| == |parts|
    {
      Buf(remaining, pending, Waits(Pgs(), g.pgsPerOneshotpg))
    }

    /** `conv_init_namespace`: one fresh FTL for each partition, an empty write buffer. */
    constructor (g: Params, secsz: nat, nrParts: nat, size: nat, hostLpns: nat)
      requires Sound(g) && Provisioned(g, hostLpns) && nrParts > 0
      requires 0 < g.secsPerPg && 0 < secsz && g.pgsz == secsz * g.secsPerPg
      ensures Valid(hostLpns) && |parts| == nrParts && this.g == g && this.secsz == secsz && this.size == size
      ensures Contents() == imap[] && fresh(Footprint())
      ensures remaining == size && pending == [] && Accounted() == size
      ensures Buffer() == Buf(size, [], seq(nrParts, i => 0))
    {
      hide Sound, View, Shape, Ftl.Rep, Ftl.Abs, Ftl.Valid, Provisioned, Blank, Contents, Accounted;
      PlaneAndLines(g);
      var ps := NewParts(g, nrParts, hostLpns);
      this.g, this.secsz, this.size := g, secsz, size;
      parts := ps;
      remaining, pending := size, [];
      new;
      BlankIsEmpty();
    }

    lemma BlankIsEmpty()
      requires Separate() && forall i :: 0 <= i < |parts| ==> Blank(parts[i])
      ensures Contents() == imap[]
      ensures pending == [] ==> Accounted() == remaining
      ensures Waits(Pgs(), g.pgsPerOneshotpg) == seq(|parts|, i => 0)
    {
      hide View, Shape, Ftl.Rep, Ftl.Abs;
      NothingWaits(Pgs(), g.pgsPerOneshotpg);
    }

    static method NewParts(g: Params, nrParts: nat, hostLpns: nat) returns (ps: seq<Ftl>)
      requires Sound(g) && Provisioned(g, hostLpns)
      ensures |ps| == nrParts
      ensures forall i :: 0 <= i < nrParts ==> ps[i].g == g && ps[i].Valid(hostLpns) && fresh(ps[i].Repr()) && Blank(ps[i])
      ensures forall i, j :: 0 <= i < j < nrParts ==> ps[i].Repr() !! ps[j].Repr()
    {
      hide Sound, View, Shape, Ftl.Rep, Ftl.Abs, Ftl.Valid, Provisioned, Blank;
      ps := [];
      for n := 0 to nrParts
        invariant |ps| == n
        invariant forall i :: 0 <= i < n ==> ps[i].g == g && ps[i].Valid(hostLpns) && fresh(ps[i].Repr()) && Blank(ps[i])
        invariant forall i, j :: 0 <= i < j < n ==> ps[i].Repr() !! ps[j].Repr()
      {
        var f := NewPart(g, hostLpns);
        ps := ps + [f];
      }
    }

    static method NewPart(g: Params, hostLpns: nat) returns (f: Ftl)
      requires Sound(g) && Provisioned(g, hostLpns)
      ensures f.g == g && f.Valid(hostLpns) && fresh(f.Repr()) && Blank(f)
    {
      hide Sound, View, Shape, Ftl.Rep, Ftl.Valid;
      f := new Ftl(g);
      f.FreshIsValid(hostLpns);
    }

    /** `buffer_allocate`: all or nothing. */
    method BufferAllocate(bytes: nat) returns (granted: nat)
      requires bytes <= size
      modifies this`remaining
      ensures granted == (if old(remaining) < bytes then 0 else bytes)
      ensures remaining == old(remaining) - granted
    {
      granted := bytes;
      if remaining < granted {
        granted := 0;
      }
      remaining := remaining - granted;
    }

    /** An I/O worker completes a release: `buffer_release`. */
    method BufferRelease()
      requires pending != [] && g.pgsPerOneshotpg > 0
      modifies this`remaining, this`pending
      ensures Accounted() == old(Accounted())
      ensures remaining == old(remaining) + old(pending)[|old(pending)| - 1]
      ensures pending == old(pending)[..|old(pending)| - 1]
      ensures |parts| > 0 ==> Buffer() == BufStep(old(Buffer()), g, secsz, ReleaseStep)
    {
      var bytes := pending[|pending| - 1];
      pending := pending[..|pending| - 1];
      remaining := remaining + bytes;
    }

    /** A page write in one partition leaves the others alone. */
    method WriteTo(k: nat, local: nat, ghost data: int, hostLpns: nat)
      requires Valid(hostLpns) && k < |parts| && local < hostLpns
      modifies parts[k].Repr()
      ensures Valid(hostLpns)
      ensures forall j, l :: 0 <= j < |parts| && 0 <= l ==>
        PartAt(j, l) == if j == k && l == local then Some(data) else old(PartAt(j, l))
      ensures Pgs() == old(Pgs())[k := parts[k].wp.pg]
      ensures OnePageOn(g, old(parts[k].wp), parts[k].wp)
    {
      hide Sound, View, Shape, Ftl.Rep, Ftl.Abs, Ftl.Valid, Ftl.Now, OnePageOn, Turn, TurnCopies;
      label Before:
      parts[k].WritePage(local, data, hostLpns);
      forall j | 0 <= j < |parts| && j != k
        ensures parts[j].Valid(hostLpns) && parts[j].wp == old(parts[j].wp) && forall l :: 0 <= l ==> PartAt(j, l) == old(PartAt(j, l))
      {
        assert parts[j].Repr() !! parts[k].Repr();
        assert unchanged@Before(parts[j].Repr());
      }
    }

    /** One LPN of a write command goes to partition `lpn % nr_parts` as local LPN
        `lpn / nr_parts`. */
    method WriteStriped(lpn: nat, ghost data: int, hostLpns: nat)
      requires Valid(hostLpns) && InHost(lpn, |parts|, hostLpns)
      modifies parts[lpn % |parts|].Repr()
      ensures Valid(hostLpns)
      ensures Contents() == old(Contents())[lpn := data]
      ensures forall k, l :: 0 <= k < |parts| && 0 <= l ==>
                PartAt(k, l) == if k == lpn % |parts| && l == lpn / |parts| then Some(data) else old(PartAt(k, l))
      ensures var k := lpn % |parts|;
              Pgs() == old(Pgs())[k := parts[k].wp.pg] && OnePageOn(g, old(parts[k].wp), parts[k].wp)
    {
      hide Sound, Ftl.Rep, Ftl.Abs, Ftl.Valid, PartAt, OnePageOn;
      WriteTo(lpn % |parts|, lpn / |parts|, data, hostLpns);
      forall l: nat ensures l % |parts| == lpn % |parts| && l / |parts| == lpn / |parts| <==> l == lpn {
        if l % |parts| == lpn % |parts| && l / |parts| == lpn / |parts| { SamePage(l, lpn, |parts|); }
      }
      assert forall l: nat :: At(l) == if l == lpn then Some(data) else old(At(l));
    }

    /** The same with the write buffer: a filled one-shot page is handed to the I/O workers
        for release. */
    method WriteLpn(lpn: nat, ghost data: int, hostLpns: nat)
      requires Valid(hostLpns) && InHost(lpn, |parts|, hostLpns)
      modifies this`pending, Footprint()
      ensures Valid(hostLpns)
      ensures Contents() == old(Contents())[lpn := data]
      ensures Accounted() == old(Accounted()) + g.pgsz
      ensures Buffer() == PageIn(old(Buffer()), Rem(lpn, |parts|), g.pgsPerOneshotpg, g.pgsz)
    {
      hide Sound, Ftl.Rep, Ftl.Abs, Ftl.Valid, Waiting, Waits, PageIn, Sum, Ftl.GetNewPage, Contents;
      var os, k := g.pgsPerOneshotpg, lpn % |parts|;
      ghost var pgs, pending0, buf := Pgs(), pending, Buffer();
      var ppa := parts[k].GetNewPage(UserIo);
      UserPage(k);
      WriteStriped(lpn, data, hostLpns);
      label Written:
      if ppa.pg % os == os - 1 {
        pending := pending + [Times(os, g.pgsz)];
      }
      assert unchanged@Written(Footprint());
      AccountStep(pgs, os, k, parts[k].wp.pg, pending0, pending, g.pgsz);
      WaitsStep(pgs, os, k, parts[k].wp.pg, buf, pending, g.pgsz);
    }

    lemma UserPage(k: nat)
      requires k < |parts|
      ensures parts[k].GetNewPage(UserIo).pg == Pgs()[k]
    {
    }

    /** `conv_write`: refused without any effect when it runs past the drive or the buffer is
        short; otherwise every LPN it touches reads as the new content, no other does, and the
        buffer accounts for the touched pages. */
    method ConvWrite(c: Command, ghost data: seq<int>, hostLpns: nat) returns (ok: bool)
      requires Valid(hostLpns) && c.WellFormed(g, secsz, size, |parts|, hostLpns) && |data| == c.Pages(g)
      modifies this`remaining, this`pending, Footprint()
      ensures Valid(hostLpns)
      ensures ok <==> c.InDrive(g, |parts|) && old(remaining) >= c.Bytes(secsz)
      ensures ok == Accepts(old(Buffer()), g, secsz, WriteStep(c))
      ensures !ok ==> unchanged(this) && forall i :: 0 <= i < |parts| ==>
        parts[i].Abs() == old(parts[i].Abs()) && parts[i].writeCredits == old(parts[i].writeCredits)
      ensures !ok ==> Contents() == old(Contents()) && Accounted() == old(Accounted())
      ensures ok ==> Contents() == Overwrite(old(Contents()), c.First(g), data)
      ensures ok ==> Rewritten(c, g, old(Contents()), Contents(), data)
      ensures ok ==> Accounted() == old(Accounted()) - c.Bytes(secsz) + Times(|data|, g.pgsz)
      ensures Buffer() == BufStep(old(Buffer()), g, secsz, WriteStep(c))
    {
      hide Sound, Ftl.Rep, Ftl.Abs, Ftl.Valid, Contents, Waiting, Waits, PagesIn, Sum, Overwrite, Rewritten;
      FirstToLast(c, g);
      OverwriteRewrites(c, g, Contents(), data);
      if !c.InDrive(g, |parts|) {
        return false;
      }
      label Start:
      Positive(c.nrLba, secsz);
      var granted := BufferAllocate(c.Bytes(secsz));
      assert unchanged@Start(Footprint());
      if granted < c.Bytes(secsz) {
        return false;
      }
      WriteRange(c.First(g), c.Last(g), data, hostLpns);
      return true;
    }

    /** The write loop of `conv_write`. */
    method WriteRange(startLpn: nat, endLpn: nat, ghost data: seq<int>, hostLpns: nat)
      requires Valid(hostLpns) && startLpn + |data| == endLpn + 1
      requires InHost(endLpn, |parts|, hostLpns)
      modifies this`pending, Footprint()
      ensures Valid(hostLpns)
      ensures Contents() == Overwrite(old(Contents()), startLpn, data)
      ensures Accounted() == old(Accounted()) + Times(|data|, g.pgsz)
      ensures Buffer() == PagesIn(old(Buffer()), startLpn, |data|, g.pgsPerOneshotpg, g.pgsz)
    {
      hide Sound, Ftl.Rep, Ftl.Abs, Ftl.Valid, Accounted, Contents, Buffer, Overwrite, Times, Waiting, Waits, Sum;
      hide PageIn, PagesIn, Rem, InHost, WrittenSoFar;
      ghost var was := Snapshot(Contents(), Accounted(), Buffer());
      WrittenNothing(was, startLpn, data, g);
      for lpn := startLpn to endLpn + 1
        invariant Valid(hostLpns)
        invariant WrittenSoFar(was, Snapshot(Contents(), Accounted(), Buffer()), startLpn, data, lpn - startLpn, g)
      {
        StripeInRange(lpn, endLpn, |parts|, hostLpns);
        ghost var before := Snapshot(Contents(), Accounted(), Buffer());
        WriteLpn(lpn, data[lpn - startLpn], hostLpns);
        WrittenOneMore(was, before, Snapshot(Contents(), Accounted(), Buffer()), startLpn, data, lpn - startLpn, g);
      }
      WrittenAll(was, Snapshot(Contents(), Accounted(), Buffer()), startLpn, data, g);
    }

    /** The mapping tables of the partitions. */
    ghost predicate AreTables(tabs: seq<seq<Option<Ppa>>>)
      reads set k | 0 <= k < |parts| :: parts[k].maptbl
    {
      |tabs| == |parts| && forall k :: 0 <= k < |parts| ==> tabs[k] == parts[k].maptbl[..]
    }

    /** The mapped LPNs between `first` and `last`. */
    ghost function MappedBetween(first: nat, last: nat): set<nat>
      requires Separate()
      reads Footprint()
    {
      set l | l in Below(last + 1) && first <= l && l in Contents()
    }

    method Tables() returns (tabs: seq<seq<Option<Ppa>>>)
      requires Separate()
      ensures AreTables(tabs)
    {
      tabs := [];
      for k := 0 to |parts|
        invariant |tabs| == k && forall j :: 0 <= j < k ==> tabs[j] == parts[j].maptbl[..]
      {
        tabs := tabs + [parts[k].maptbl[..]];
      }
    }

    lemma TablesAreInjective(tabs: seq<seq<Option<Ppa>>>, hostLpns: nat)
      requires Valid(hostLpns) && AreTables(tabs)
      ensures forall k :: 0 <= k < |tabs| ==> Injective(g, tabs[k]) && |tabs[k]| == g.ttPgs
      ensures Sound(g)
    {
      hide Sound, Ftl.Rep, Ftl.Abs, Core;
      forall k | 0 <= k < |tabs| ensures Injective(g, tabs[k]) && |tabs[k]| == g.ttPgs {
        parts[k].RepIsSound();
        parts[k].AbsTables();
        TableIsInjective(g, parts[k].Abs());
        assert tabs[k] == parts[k].Abs().maptbl;
      }
      parts[0].RepIsSound();
    }

    /** The tables say which LPNs of the namespace are mapped. */
    lemma TablesSayWhatIsMapped(tabs: seq<seq<Option<Ppa>>>, hostLpns: nat, first: nat, last: nat)
      requires Valid(hostLpns) && AreTables(tabs)
      ensures MappedOnStripes(tabs, first, last, |tabs|) == MappedBetween(first, last)
    {
      hide Sound, Ftl.Valid, MappedOnStripes, MappedBetween;
      var a, b := MappedOnStripes(tabs, first, last, |tabs|), MappedBetween(first, last);
      forall l: nat ensures l in a <==> l in b { MappedInBoth(tabs, hostLpns, first, last, l); }
    }

    lemma MappedInBoth(tabs: seq<seq<Option<Ppa>>>, hostLpns: nat, first: nat, last: nat, l: nat)
      requires Valid(hostLpns) && AreTables(tabs)
      ensures l in MappedOnStripes(tabs, first, last, |tabs|) <==> l in MappedBetween(first, last)
    {
      hide Sound, Ftl.Valid, Ftl.Abs, Ftl.Rep, PartAt;
      TableSaysMapped(tabs, hostLpns, l);
      assert l in Contents() <==> At(l).Some?;
    }

    lemma TableSaysMapped(tabs: seq<seq<Option<Ppa>>>, hostLpns: nat, l: nat)
      requires Valid(hostLpns) && AreTables(tabs)
      ensures var k, i := Rem(l, |parts|), Quot(l, |parts|);
              At(l).Some? <==> i < |tabs[k]| && tabs[k][i].Some?
    {
      hide Sound, Ftl.Rep, Core, View;
      CoreHasShapeOf(Rem(l, |parts|), hostLpns);
      ViewKeys(parts[Rem(l, |parts|)].Abs(), Quot(l, |parts|));
    }

    lemma CoreHasShapeOf(k: nat, hostLpns: nat)
      requires Valid(hostLpns) && k < |parts|
      ensures Shape(parts[k].Abs())
    {
      hide Sound, Ftl.Rep, Ftl.Abs, Tally, Roles, Fill, Maps;
    }

    /** The page that the partition of LPN `l` maps it to is covered by a read that `conv_read`
        issued to that partition. */
    ghost predicate IsRead(first: nat, issued: seq<seq<NandRead>>, l: nat)
      requires |parts| > 0
      reads parts[Rem(l, |parts|)].maptbl
    {
      var n := |parts|;
      var maptbl := parts[Rem(l, n)].maptbl;
      && g.pgsPerFlashpg > 0 && first <= l && Rem(l - first, n) < |issued|
      && Quot(l, n) < maptbl.Length && maptbl[Quot(l, n)].Some?
      && Covered(g, issued[Rem(l - first, n)], maptbl[Quot(l, n)].value)
    }

    lemma TouchedAreBetween(c: Command)
      requires Separate() && c.nrLba > 0
      ensures forall l: nat :: l in MappedBetween(c.First(g), c.Last(g)) <==> l in Contents() && c.Touches(g, l)
    {
      hide Contents;
      forall l: nat ensures c.Touches(g, l) <==> c.First(g) <= l <= c.Last(g) { TouchedLpns(c, g, l); }
    }

    lemma TablesAreRead(tabs: seq<seq<Option<Ppa>>>, first: nat, issued: seq<seq<NandRead>>, l: nat)
      requires |parts| > 0 && AreTables(tabs) && g.pgsPerFlashpg > 0 && PageIsRead(g, tabs, first, issued, l)
      ensures IsRead(first, issued, l)
    {
      hide Covered;
    }

    /** The reads issued for the request, stripe by stripe, are one for each run of its pages in one
        flash page. */
    ghost predicate ReadsRuns(first: nat, last: nat, issued: seq<seq<NandRead>>)
      requires |parts| > 0
      reads set k | 0 <= k < |parts| :: parts[k].maptbl
    {
      var n := |parts|;
      && g.pgsPerFlashpg > 0 && first <= last && |issued| == (if last - first + 1 < n then last - first + 1 else n)
      && forall k: nat :: k < |issued| ==>
           issued[k] == Joined(g, StripePages(parts[Rem(first + k, n)].maptbl[..], first + k, last, n))
    }

    /** `conv_read`: refused past the drive; otherwise every mapped LPN with a block of the request is
        read from its partition, the bytes read are exactly one page for each, and each read is a
        whole run of pages in one flash page. */
    method ConvRead(c: Command, hostLpns: nat) returns (ok: bool, issued: seq<seq<NandRead>>)
      requires Valid(hostLpns) && c.nrLba > 0
      ensures ok <==> c.InDrive(g, |parts|)
      ensures ok ==> TotalOf(issued) == Times(|MappedBetween(c.First(g), c.Last(g))|, g.pgsz)
      ensures ok ==> forall i :: 0 <= i < |issued| ==> SizesFit(g, issued[i])
      ensures ok ==> forall l :: l in MappedBetween(c.First(g), c.Last(g)) ==> IsRead(c.First(g), issued, l)
      ensures ok ==> forall l: nat :: l in MappedBetween(c.First(g), c.Last(g)) <==> l in Contents() && c.Touches(g, l)
      ensures ok ==> ReadsRuns(c.First(g), c.Last(g), issued)
    {
      hide Sound, Ftl.Rep, Ftl.Abs, Ftl.Valid, Injective, MappedOnStripes, MappedBetween, TotalOf, IsRead, PageIsRead;
      hide Joined, StripePages, Contents;
      issued := [];
      if !c.InDrive(g, |parts|) {
        return false, issued;
      }
      FirstToLast(c, g);
      Positive(secsz, g.secsPerPg);
      label Start:
      var tabs := Tables();
      assert unchanged@Start(Footprint());
      TablesAreInjective(tabs, hostLpns);
      TablesSayWhatIsMapped(tabs, hostLpns, c.First(g), c.Last(g));
      ghost var mapped := MappedBetween(c.First(g), c.Last(g));
      TouchedAreBetween(c);
      issued := ReadAll(g, tabs, c.First(g), c.Last(g));
      forall l | l in mapped ensures IsRead(c.First(g), issued, l) { TablesAreRead(tabs, c.First(g), issued, l); }
      assert unchanged@Start(Footprint());
      return true, issued;
    }

    /** One step of the host: a write command, or a worker releasing what it finished. */
    method Perform(s: HostStep, ghost data: seq<int>, hostLpns: nat) returns (ok: bool)
      requires Valid(hostLpns)
      requires s.WriteStep? ==> s.c.WellFormed(g, secsz, size, |parts|, hostLpns) && |data| == s.c.Pages(g)
      modifies this`remaining, this`pending, Footprint()
      ensures Valid(hostLpns)
      ensures Contents()
              == if s.WriteStep? && ok then Overwrite(old(Contents()), s.c.First(g), data) else old(Contents())
      ensures s.WriteStep? && ok ==> Rewritten(s.c, g, old(Contents()), Contents(), data)
      ensures ok == Accepts(old(Buffer()), g, secsz, s) && Buffer() == BufStep(old(Buffer()), g, secsz, s)
      ensures Accounted() >= old(Accounted())
      ensures Accounted() == old(Accounted()) <==> (ok ==> WholePagesOnly(s, g))
    {
      hide Sound, Ftl.Rep, Ftl.Abs, Ftl.Valid, Contents, Accounted, Overwrite, Times, Waiting, Waits, PagesIn, Sum;
      hide BufStep, Accepts, Rewritten;
      label Start:
      ok := false;
      NothingToRelease(Buffer(), g, secsz);
      match s {
        case WriteStep(c) =>
          BufferBalance(c, g, secsz);
          ok := ConvWrite(c, data, hostLpns);
        case ReleaseStep =>
          if pending != [] {
            BufferRelease();
            assert unchanged@Start(Footprint());
          }
      }
    }
  }

  // ----- Runs -----

  /** What the namespace reads as after the steps: the accepted writes, one over the other. */
  ghost function Applied(g: Params, steps: seq<HostStep>, data: seq<seq<int>>, oks: seq<bool>): imap<nat, int>
    requires |steps| <= |data| && |steps| <= |oks|
  {
    if steps == [] then imap[]
    else
      var n := |steps| - 1;
      var m := Applied(g, steps[..n], data, oks);
      if steps[n].WriteStep? && oks[n] then Overwrite(m, steps[n].c.First(g), data[n]) else m
  }

  lemma {:induction false} AppliedPrefix(g: Params, steps: seq<HostStep>, data: seq<seq<int>>, oks: seq<bool>, ok: bool)
    requires |steps| <= |data| && |steps| <= |oks|
    ensures Applied(g, steps, data, oks + [ok]) == Applied(g, steps, data, oks)
  {
    if steps != [] {
      AppliedPrefix(g, steps[..|steps| - 1], data, oks, ok);
    }
  }

  lemma AppliedOneMore(g: Params, steps: seq<HostStep>, data: seq<seq<int>>, oks: seq<bool>, i: nat, ok: bool)
    requires i < |steps| <= |data| && |oks| == i
    ensures var m := Applied(g, steps[..i], data, oks);
            Applied(g, steps[..i + 1], data, oks + [ok])
            == if steps[i].WriteStep? && ok then Overwrite(m, steps[i].c.First(g), data[i]) else m
  {
    assert steps[..i + 1][..i] == steps[..i];
    AppliedPrefix(g, steps[..i], data, oks, ok);
  }

  /** LPN `l` holds a block of step `i`, an accepted write. */
  ghost predicate WritesTo(g: Params, steps: seq<HostStep>, oks: seq<bool>, i: nat, l: nat)
    requires g.secsPerPg > 0 && i < |steps| <= |oks|
  {
    steps[i].WriteStep? && oks[i] && steps[i].c.Touches(g, l)
  }

  /** An LPN reads as the last accepted write with a block on it left it. */
  lemma {:induction false} LastWriteWins(g: Params, steps: seq<HostStep>, data: seq<seq<int>>, oks: seq<bool>, l: nat, i: nat)
    requires g.secsPerPg > 0 && i < |steps| <= |data| && |steps| <= |oks|
    requires forall j :: 0 <= j < |steps| && steps[j].WriteStep? ==>
               steps[j].c.nrLba > 0 && |data[j]| == steps[j].c.Pages(g)
    requires WritesTo(g, steps, oks, i, l) && forall j: nat :: i < j < |steps| ==> !WritesTo(g, steps, oks, j, l)
    ensures l in Applied(g, steps, data, oks) && steps[i].c.First(g) <= l < steps[i].c.First(g) + |data[i]|
    ensures Applied(g, steps, data, oks)[l] == data[i][l - steps[i].c.First(g)]
    decreases |steps|
  {
    hide Overwrite;
    var n := |steps| - 1;
    var before := steps[..n];
    if i < n {
      forall j: nat | i < j < n ensures !WritesTo(g, before, oks, j, l) { assert !WritesTo(g, steps, oks, j, l); }
      LastWriteWins(g, before, data, oks, l, i);
      assert !WritesTo(g, steps, oks, n, l);
    }
    if steps[n].WriteStep? && oks[n] { OverwriteRewrites(steps[n].c, g, Applied(g, before, data, oks), data[n]); }
  }

  /** An LPN without such a write is not mapped. */
  lemma {:induction false} NeverWritten(g: Params, steps: seq<HostStep>, data: seq<seq<int>>, oks: seq<bool>, l: nat)
    requires g.secsPerPg > 0 && |steps| <= |data| && |steps| <= |oks|
    requires forall j :: 0 <= j < |steps| && steps[j].WriteStep? ==>
               steps[j].c.nrLba > 0 && |data[j]| == steps[j].c.Pages(g)
    requires forall j: nat :: j < |steps| ==> !WritesTo(g, steps, oks, j, l)
    ensures l !in Applied(g, steps, data, oks)
  {
    hide Overwrite;
    if steps != [] {
      var n := |steps| - 1;
      forall j: nat | j < n ensures !WritesTo(g, steps[..n], oks, j, l) { assert !WritesTo(g, steps, oks, j, l); }
      NeverWritten(g, steps[..n], data, oks, l);
      assert !WritesTo(g, steps, oks, n, l);
      if steps[n].WriteStep? && oks[n] { OverwriteRewrites(steps[n].c, g, Applied(g, steps[..n], data, oks), data[n]); }
    }
  }

  /** Every run of write commands and buffer releases from a fresh namespace: it reads as the
      accepted writes left it, and the bytes of the buffer are all accounted for exactly if every
      accepted write is made of whole pages. */
  method Run(g: Params, secsz: nat, nrParts: nat, size: nat, hostLpns: nat, steps: seq<HostStep>,
             ghost data: seq<seq<int>>)
    returns (ns: Namespace, oks: seq<bool>)
    requires Sound(g) && Provisioned(g, hostLpns) && nrParts > 0
    requires 0 < g.secsPerPg && 0 < secsz && g.pgsz == secsz * g.secsPerPg && |data| == |steps|
    requires forall i :: 0 <= i < |steps| && steps[i].WriteStep? ==>
               steps[i].c.WellFormed(g, secsz, size, nrParts, hostLpns) && |data[i]| == steps[i].c.Pages(g)
    ensures ns.g == g && ns.Valid(hostLpns) && |oks| == |steps| && g.pgsPerOneshotpg > 0
    ensures ns.Contents() == Applied(g, steps, data, oks)
    ensures ns.Buffer() == BufAfter(g, secsz, nrParts, size, steps)
    ensures forall i :: 0 <= i < |steps| ==>
              oks[i] == Accepts(BufAfter(g, secsz, nrParts, size, steps[..i]), g, secsz, steps[i])
    ensures ns.Accounted() >= size
    ensures ns.Accounted() == size <==> forall i :: 0 <= i < |steps| && oks[i] ==> WholePagesOnly(steps[i], g)
  {
    hide Sound, Provisioned, Ftl.Valid, Namespace.Contents, Namespace.Accounted, Namespace.Buffer, Applied, Overwrite;
    hide Times, BufStep, BufAfter, Accepts, WholePagesOnly;
    assert g.pgsPerOneshotpg > 0 by { PlaneAndLines(g); }
    ns := new Namespace(g, secsz, nrParts, size, hostLpns);
    oks := [];
    NothingApplied(g, secsz, nrParts, size, steps, data);
    for i := 0 to |steps|
      invariant fresh(ns) && fresh(ns.Footprint()) && |oks| == i
      invariant ns.Valid(hostLpns) && |ns.parts| == nrParts && ns.g == g && ns.secsz == secsz && ns.size == size
      invariant ns.Contents() == Applied(g, steps[..i], data, oks)
      invariant ns.Buffer() == BufAfter(g, secsz, nrParts, size, steps[..i])
      invariant forall j :: 0 <= j < i ==>
                  oks[j] == Accepts(BufAfter(g, secsz, nrParts, size, steps[..j]), g, secsz, steps[j])
      invariant ns.Accounted() >= size
      invariant ns.Accounted() == size <==> forall j :: 0 <= j < i && oks[j] ==> WholePagesOnly(steps[j], g)
    {
      BufOneMore(g, secsz, nrParts, size, steps, i);
      var ok := ns.Perform(steps[i], data[i], hostLpns);
      AppliedOneMore(g, steps, data, oks, i, ok);
      oks := oks + [ok];
    }
    assert steps[..|steps|] == steps;
  }

  lemma NothingApplied(g: Params, secsz: nat, nrParts: nat, size: nat, steps: seq<HostStep>, data: seq<seq<int>>)
    requires |data| == |steps| && nrParts > 0
    ensures BufAfter(g, secsz, nrParts, size, steps[..0]) == Buf(size, [], seq(nrParts, i => 0))
    ensures Applied(g, steps[..0], data, []) == imap[]
  {
  }
}
