/** One partition of the conventional FTL (conv_ftl.c), in place.  Every method is specified
    by the operation of `FtlState` it performs on the abstract state `Abs()`. */
module ConvFtl {
  import opened Wrappers
  import opened Geometry
  import opened Traversal
  import opened VictimQueue

  import opened FtlState
  import opened FtlInvariant
  import opened FtlGc
  import opened FtlSpace
  import opened Provisioning

  /** `rmap` is an array over page indices; the state reads it by address. */
  ghost function ByAddress(g: Params, r: seq<Option<nat>>): map<Ppa, Option<nat>>
  {
    map p | p in Pages(g) :: if PgIdx(g, p) < |r| then r[PgIdx(g, p)] else None
  }

  lemma ByAddressUpdate(g: Params, r: seq<Option<nat>>, p: Ppa, x: Option<nat>)
    requires Sound(g) && |r| == g.ttPgs && ValidPpa(g, p)
    ensures PgIdx(g, p) < |r| && p in Pages(g)
    ensures ByAddress(g, r[PgIdx(g, p) := x]) == ByAddress(g, r)[p := x]
  {
    hide Sound, PgIdx, Pages;
    PgIdxInRange(g, p);
    PagesAreValid(g, p);
    forall q | q in Pages(g) && q != p ensures PgIdx(g, q) != PgIdx(g, p) {
      PagesAreValid(g, q);
      if PgIdx(g, q) == PgIdx(g, p) { PgIdxInjective(g, q, p); }
    }
  }

  lemma ByAddressAt(g: Params, r: seq<Option<nat>>, p: Ppa)
    requires Sound(g) && |r| == g.ttPgs && ValidPpa(g, p)
    ensures PgIdx(g, p) < |r| && p in ByAddress(g, r) && ByAddress(g, r)[p] == r[PgIdx(g, p)]
  {
    hide Sound, PgIdx, Pages;
    PgIdxInRange(g, p);
    PagesAreValid(g, p);
  }

  ghost function CountsOf(ls: seq<Line>): (r: seq<Counts>)
    ensures |r| == |ls|
    ensures forall i :: 0 <= i < |ls| ==> r[i] == Counts(ls[i].ipc, ls[i].vpc)
  {
    seq(|ls|, i requires 0 <= i < |ls| => Counts(ls[i].ipc, ls[i].vpc))
  }

  lemma CountsOfUpdate(ls: seq<Line>, b: nat, l: Line)
    requires b < |ls|
    ensures CountsOf(ls[b := l]) == CountsOf(ls)[b := Counts(l.ipc, l.vpc)]
  {
  }

  lemma PositionsDoNotCount(was: seq<Line>, ls: seq<Line>, s: set<nat>)
    requires OnlyPositions(was, ls, s)
    ensures CountsOf(ls) == CountsOf(was)
  {
  }

  /** `ipc` is not part of the heap order. */
  lemma RecountIpc(d: seq<nat>, ls: seq<Line>, size: nat, elems: set<nat>, b: nat, ipc: int)
    requires IsHeap(d, ls, size, elems) && b < |ls|
    ensures IsHeap(d, ls[b := ls[b].(ipc := ipc)], size, elems)
  {
    var ls' := ls[b := ls[b].(ipc := ipc)];
    assert Pris(d, ls') == Pris(d, ls);
  }

  lemma QueuedHasPosition(d: seq<nat>, ls: seq<Line>, size: nat, elems: set<nat>, b: nat)
    requires IsHeap(d, ls, size, elems) && b < |ls| && ls[b].pos == 0
    ensures b !in elems
  {
  }

  lemma FullListFacts(g: Params, s: State, b: nat)
    requires Core(g, s, {}, {})
    ensures b in s.full ==> |Without(s.full, b)| == |s.full| - 1 && b !in s.victims
  {
    WithoutRemoves(s.full, b);
  }

  /** The parts that `conv_init_ftl` sets up make the fresh state. */
  lemma IsFresh(g: Params, m: seq<Option<Ppa>>, r: seq<Option<nat>>, ls: seq<Line>, free: seq<nat>)
    requires |m| == g.ttPgs && |ls| == g.ttLines && g.ttLines >= 2
    requires forall j :: 0 <= j < |m| ==> m[j] == None
    requires forall j :: 0 <= j < |r| ==> r[j] == None
    requires forall j :: 0 <= j < |ls| ==> ls[j] == Line(0, 0, 0)
    requires [0] + ([1] + free) == seq(g.ttLines, i => i)
    ensures State(m, ByAddress(g, r), map p | p in Pages(g) :: 0, ErasedPages(g), ErasedBlocks(g), CountsOf(ls),
                  free, [], {}, StartWp(0), StartWp(1)) == Fresh(g)
  {
    hide PgIdx, Pages;
    var all := seq(g.ttLines, i => i);
    assert |free| == g.ttLines - 2;
    forall i | 0 <= i < |free| ensures free[i] == i + 2 {
      assert free[i] == ([0] + ([1] + free))[i + 2] == all[i + 2];
    }
    assert free == seq(g.ttLines - 2, i => i + 2);
    assert m == seq(g.ttPgs, i => None);
    assert CountsOf(ls) == seq(g.ttLines, i => Counts(0, 0));
  }

  /** The pages of a line keep their status. */
  ghost predicate SameOnLine(g: Params, v: nat, was: map<Ppa, PgStatus>, page: map<Ppa, PgStatus>)
  {
    forall q :: q in LinePages(g, v) && q in was ==> q in page && page[q] == was[q]
  }

  lemma SameIsReflexive(g: Params, v: nat, page: map<Ppa, PgStatus>)
    ensures SameOnLine(g, v, page, page)
  {
  }

  lemma SameIsTransitive(g: Params, v: nat, a: map<Ppa, PgStatus>, b: map<Ppa, PgStatus>, c: map<Ppa, PgStatus>)
    requires SameOnLine(g, v, a, b) && SameOnLine(g, v, b, c)
    ensures SameOnLine(g, v, a, c)
  {
  }

  /** The blocks of line `v` before channel `ch`, LUN `lun` are erased. */
  ghost predicate ErasedUpTo(g: Params, page: map<Ppa, PgStatus>, v: nat, ch: nat, lun: nat)
  {
    forall p :: p in LinePages(g, v) && (p.ch < ch || (p.ch == ch && p.lun < lun)) ==> p in page && page[p] == PgFree
  }

  lemma NothingErased(g: Params, page: map<Ppa, PgStatus>, v: nat)
    ensures ErasedUpTo(g, page, v, 0, 0)
  {
  }

  lemma ErasedRow(g: Params, page: map<Ppa, PgStatus>, v: nat, ch: nat)
    ensures ErasedUpTo(g, page, v, ch, g.lunsPerCh) ==> ErasedUpTo(g, page, v, ch + 1, 0)
  {
  }

  lemma AllErased(g: Params, page: map<Ppa, PgStatus>, v: nat)
    requires ErasedUpTo(g, page, v, g.nchs, 0)
    ensures forall p :: p in LinePages(g, v) ==> p in page && page[p] == PgFree
  {
  }

  lemma StillErased(g: Params, was: map<Ppa, PgStatus>, page: map<Ppa, PgStatus>, v: nat, ch: nat, lun: nat)
    requires ErasedUpTo(g, was, v, ch, lun) && SameOnLine(g, v, was, page)
    ensures ErasedUpTo(g, page, v, ch, lun)
  {
  }

  /** Erasing the next block. */
  lemma ErasedOneMore(g: Params, s: State, v: nat, ch: nat, lun: nat)
    requires ErasedUpTo(g, s.page, v, ch, lun)
    requires forall p :: p in LinePages(g, v) ==> p in s.page
    ensures ErasedUpTo(g, Erase(g, s, Blk(ch, lun, v)).page, v, ch, lun + 1)
  {
  }

  lemma MidFacts(g: Params, s0: State, s: State, v: nat, done: set<Ppa>)
    requires Sound(g) && Mid(g, s0, s, v, done)
    ensures s.page.Keys == Pages(g) && v < g.ttLines && |s.line| == g.ttLines && v !in s.victims
    ensures forall p :: p in s.page ==> BlkOf(p) in s.block
  {
    hide Sound, Pages, LinePages, LineWith, Fill, Maps, BlkWith;
    VictimIsClosed(g, s0, v);
  }

  lemma EraseFacts(g: Params, s0: State, s: State, v: nat, done: set<Ppa>, k: Blk)
    requires Sound(g) && Mid(g, s0, s, v, done) && k.blk == v && k.ch < g.nchs && k.lun < g.lunsPerCh
    requires BlkPages(g, k) <= done
    ensures Mid(g, s0, Erase(g, s, k), v, done)
    ensures s.page.Keys == Pages(g) && v < g.blksPerPl && k in s.block
    ensures forall p :: p in LinePages(g, v) ==> p in s.page
  {
    hide Sound, Pages, LinePages, BlkPages, Mid, Erase;
    PlaneAndLines(g);
    MidFacts(g, s0, s, v, done);
    forall p | p in s.page && BlkOf(p) == k ensures p in done { BlkMember(g, s.page, k, p); }
    var x := Ppa(k.ch, k.lun, 0, v, 0);
    PagesAreValid(g, x);
    assert BlkOf(x) == k;
    GcErases(g, s0, s, v, done, k);
    forall p | p in LinePages(g, v) ensures p in s.page { LineMember(g, s.page, v, p); }
  }

  lemma SpentHasShape(g: Params, hostLpns: nat, s: State, flow: Flow)
    requires Spent(g, hostLpns, s, flow)
    ensures Shape(s)
  {
  }

  lemma MappedIsValid(g: Params, s: State, lpn: nat)
    requires Sound(g) && Core(g, s, {}, {}) && lpn < |s.maptbl| && s.maptbl[lpn].Some?
    ensures var p := s.maptbl[lpn].value; p in s.page && s.page[p] == PgValid && ValidPpa(g, p)
  {
    hide Sound, Pages, LinePages, LineWith, Roles, Fill;
    assert s.maptbl[lpn].value in Live(s.page, {});
    PagesAreValid(g, s.maptbl[lpn].value);
  }

  lemma EmptyHeap(d: seq<nat>, ls: seq<Line>, ls': seq<Line>, size: nat)
    requires IsHeap(d, ls, size, {}) && |ls'| == |ls|
    ensures IsHeap(d, ls', size, {})
  {
    NonEmpty(d, ls, size, {});
  }

  class Ftl {
    const g: Params
    const maptbl: array<Option<Ppa>>
    const rmap: array<Option<nat>>      // indexed by ppa2pgidx
    const lines: array<Line>
    const pq: Pqueue
    var page: map<Ppa, PgStatus>        // NAND page status, by address
    var block: map<Blk, Counts>         // NAND block counters, by address
    var freeLines: seq<nat>
    var fullLines: seq<nat>
    var freeLineCnt: nat
    var fullLineCnt: nat
    var victimLineCnt: nat
    var wp: Wp
    var gcWp: Wp
    var writeCredits: nat
    var creditsToRefill: nat
    ghost var stamp: map<Ppa, int>      // the content of each page
    ghost var userWrites: nat           // pages written for the host so far
    ghost var gcRuns: nat               // lines collected so far
    ghost var gcCopies: nat             // pages copied by collections so far
    ghost var refilled: nat             // write credits granted so far

    ghost function Repr(): set<object>
    {
      {this, maptbl, rmap, lines, pq, pq.d}
    }

    /** The representation: array sizes, a sound victim heap, list counters equal to list
        sizes, and `pos` set exactly for the lines in the heap. */
    ghost predicate Rep()
      reads this`freeLines, this`fullLines, this`freeLineCnt, this`fullLineCnt, this`victimLineCnt, lines, pq, pq.d
    {
      && Sound(g)
      && maptbl.Length == g.ttPgs && rmap.Length == g.ttPgs && lines.Length == g.ttLines
      && pq.lines == lines && pq.Valid()
      && (forall x :: 0 <= x < lines.Length && x !in pq.elems ==> lines[x].pos == 0)
      && freeLineCnt == |freeLines| && fullLineCnt == |fullLines| && victimLineCnt == |pq.elems|
    }

    ghost function Abs(): State
      reads this`page, this`block, this`stamp, this`freeLines, this`fullLines, this`wp, this`gcWp,
            maptbl, rmap, lines, pq
    {
      State(maptbl[..], ByAddress(g, rmap[..]), stamp, page, block, CountsOf(lines[..]),
            freeLines, fullLines, pq.elems, wp, gcWp)
    }

    /** `conv_init_ftl`: empty tables, every line free, then one line for each pointer. */
    constructor (g: Params)
      requires Sound(g) && g.ttLines >= 2
      ensures Rep() && this.g == g && fresh(Repr())
      ensures Abs() == Fresh(g)
      ensures writeCredits == creditsToRefill == g.pgsPerLine
      ensures Totals() == Ledger(0, 0, 0, 0)
    {
      hide Sound, PgIdx, Pages, IsHeap, Fresh, ByAddress, CountsOf, ErasedPages, ErasedBlocks;
      this.g := g;
      maptbl := new Option<Ppa>[g.ttPgs];
      rmap := new Option<nat>[g.ttPgs];
      var table := new Line[g.ttLines];
      lines := table;
      pq := new Pqueue(table);
      page := ErasedPages(g);
      block := ErasedBlocks(g);
      stamp := map p | p in Pages(g) :: 0;
      freeLines, fullLines := [], [];
      freeLineCnt, fullLineCnt, victimLineCnt := 0, 0, 0;
      wp, gcWp := StartWp(0), StartWp(0);
      writeCredits, creditsToRefill := g.pgsPerLine, g.pgsPerLine;
      userWrites, gcRuns, gcCopies, refilled := 0, 0, 0, 0;
      new;
      InitTables();
    }

    method InitTables()
      requires Sound(g) && g.ttLines >= 2
      requires maptbl.Length == g.ttPgs && rmap.Length == g.ttPgs && lines.Length == g.ttLines
      requires pq.lines == lines && pq.Valid() && pq.elems == {}
      requires freeLines == [] && fullLines == [] && freeLineCnt == fullLineCnt == victimLineCnt == 0
      requires page == ErasedPages(g) && block == ErasedBlocks(g) && stamp == map p | p in Pages(g) :: 0
      modifies this`freeLines, this`freeLineCnt, this`wp, this`gcWp, maptbl, rmap, lines
      ensures Rep() && Abs() == Fresh(g)
    {
      hide Sound, PgIdx, Pages, IsHeap, Fresh, ByAddress, CountsOf, ErasedPages, ErasedBlocks;
      InitMaptbl();
      InitRmap();
      label Allocated:
      InitLines();
      EmptyHeap(pq.d[..], old@Allocated(lines[..]), lines[..], pq.size);
      ghost var all := freeLines;
      PrepareWritePointer(UserIo);
      assert all == [0] + freeLines && freeLines[0] == all[1] == 1;
      PrepareWritePointer(GcIo);
      assert wp == StartWp(0) && gcWp == StartWp(1);
      IsFresh(g, maptbl[..], rmap[..], lines[..], freeLines);
    }

    /** `init_maptbl`. */
    method InitMaptbl()
      modifies maptbl
      ensures forall j :: 0 <= j < maptbl.Length ==> maptbl[j] == None
    {
      for i := 0 to maptbl.Length
        invariant forall j :: 0 <= j < i ==> maptbl[j] == None
      {
        maptbl[i] := None;
      }
    }

    /** `init_rmap`. */
    method InitRmap()
      modifies rmap
      ensures forall j :: 0 <= j < rmap.Length ==> rmap[j] == None
    {
      for i := 0 to rmap.Length
        invariant forall j :: 0 <= j < i ==> rmap[j] == None
      {
        rmap[i] := None;
      }
    }

    /** `init_lines`: every line is free, in the order of their ids. */
    method InitLines()
      requires freeLines == [] && freeLineCnt == 0
      modifies this`freeLines, this`freeLineCnt, lines
      ensures forall j :: 0 <= j < lines.Length ==> lines[j] == Line(0, 0, 0)
      ensures freeLines == seq(lines.Length, i => i) && freeLineCnt == lines.Length
    {
      for i := 0 to lines.Length
        invariant forall j :: 0 <= j < i ==> lines[j] == Line(0, 0, 0)
        invariant freeLines == seq(i, j => j) && freeLineCnt == i
      {
        lines[i] := Line(0, 0, 0);
        freeLines := freeLines + [i];
        freeLineCnt := freeLineCnt + 1;
      }
    }

    /** `get_next_free_line`: the head of the free list, or none. */
    method GetNextFreeLine() returns (r: Option<nat>)
      requires freeLineCnt == |freeLines|
      modifies this`freeLines, this`freeLineCnt
      ensures freeLineCnt == |freeLines|
      ensures r.None? <==> old(freeLines) == []
      ensures r.None? ==> freeLines == old(freeLines)
      ensures r.Some? ==> old(freeLines) == [r.value] + freeLines
    {
      if freeLines == [] {
        return None;
      }
      r := Some(freeLines[0]);
      freeLines := freeLines[1..];
      freeLineCnt := freeLineCnt - 1;
    }

    /** `prepare_write_pointer`; a line must be free. */
    method PrepareWritePointer(io: IoType)
      requires freeLineCnt == |freeLines| && freeLines != []
      modifies this`freeLines, this`freeLineCnt, this`wp, this`gcWp
      ensures freeLineCnt == |freeLines| && old(freeLines) == [old(freeLines)[0]] + freeLines
      ensures io == UserIo ==> wp == StartWp(old(freeLines)[0]) && gcWp == old(gcWp)
      ensures io == GcIo ==> gcWp == StartWp(old(freeLines)[0]) && wp == old(wp)
    {
      var curline := GetNextFreeLine();
      assert curline.Some?;
      if io == UserIo {
        wp := StartWp(curline.value);
      } else {
        gcWp := StartWp(curline.value);
      }
    }

    ghost function Totals(): Ledger
      reads this
    {
      Ledger(userWrites, gcRuns, gcCopies, refilled)
    }

    /** The invariant at every page boundary, for a host that uses LPNs below `hostLpns`. */
    ghost predicate Valid(hostLpns: nat)
      reads Repr()
    {
      && Rep() && Provisioned(g, hostLpns)
      && Inv(g, hostLpns, Abs(), Flow(writeCredits, creditsToRefill))
      && Balanced(g, hostLpns, writeCredits, Totals())
    }

    /** `get_new_page`. */
    function GetNewPage(io: IoType): (p: Ppa)
      reads Repr()
      ensures p == PageAt(WpFor(Abs(), io))
    {
      PageAt(if io == UserIo then wp else gcWp)
    }

    /** `set_rmap_ent`. */
    method SetRmap(lpn: Option<nat>, p: Ppa)
      requires Rep() && ValidPpa(g, p)
      modifies rmap
      ensures Rep()
      ensures Abs() == old(Abs()).(rmap := old(Abs()).rmap[p := lpn])
    {
      hide Sound, PgIdx, Pages, IsHeap;
      ByAddressUpdate(g, rmap[..], p, lpn);
      ghost var r := rmap[..];
      rmap[PgIdx(g, p)] := lpn;
      assert rmap[..] == r[PgIdx(g, p) := lpn];
    }

    /** `set_maptbl_ent`; its assert holds. */
    method SetMaptbl(lpn: nat, p: Ppa)
      requires Rep() && lpn < |Abs().maptbl|
      modifies maptbl
      ensures Rep()
      ensures Abs() == old(Abs()).(maptbl := old(Abs()).maptbl[lpn := Some(p)])
    {
      hide Sound, PgIdx, Pages, IsHeap;
      assert lpn < g.ttPgs;
      maptbl[lpn] := Some(p);
    }

    /** `mark_page_valid`. */
    method MarkPageValid(p: Ppa)
      requires Rep() && p in Abs().page && BlkOf(p) in Abs().block && p.blk < |Abs().line|
      requires Abs().page[p] == PgFree
      requires 0 <= Abs().block[BlkOf(p)].vpc < g.pgsPerBlk && 0 <= Abs().line[p.blk].vpc < g.pgsPerLine
      requires p.blk !in Abs().victims
      modifies this`page, this`block, lines
      ensures Rep()
      ensures var s := old(Abs()); var k, l := s.block[BlkOf(p)], s.line[p.blk];
              Abs() == s.(page := s.page[p := PgValid], block := s.block[BlkOf(p) := Counts(k.ipc, k.vpc + 1)],
                          line := s.line[p.blk := Counts(l.ipc, l.vpc + 1)])
    {
      hide Sound, PgIdx, Pages;
      page := page[p := PgValid];
      var blk := block[BlkOf(p)];
      block := block[BlkOf(p) := blk.(vpc := blk.vpc + 1)];
      ghost var ls := lines[..];
      var line := lines[p.blk];
      CountsOfUpdate(ls, p.blk, line.(vpc := line.vpc + 1));
      Bystander(pq.d[..], ls, pq.size, pq.elems, p.blk, line.(vpc := line.vpc + 1));
      lines[p.blk] := line.(vpc := line.vpc + 1);
      assert lines[..] == ls[p.blk := line.(vpc := line.vpc + 1)];
    }

    /** The counter part of `mark_page_invalid`: the line's `ipc`, and its `vpc` through the
        heap if it is queued. */
    method CountInvalid(b: nat)
      requires Rep() && b < lines.Length
      requires 0 <= lines[b].ipc < g.pgsPerLine && 0 < lines[b].vpc <= g.pgsPerLine
      modifies lines, pq.d
      ensures Rep() && pq.elems == old(pq.elems)
      ensures Abs() == old(Abs()).(line := CountsOf(old(lines[..]))[b := Counts(old(lines[b]).ipc + 1, old(lines[b]).vpc - 1)])
    {
      hide Sound, PgIdx, Pages, IsHeap;
      ghost var ls := lines[..];
      var line := lines[b];
      CountsOfUpdate(ls, b, line.(ipc := line.ipc + 1));
      RecountIpc(pq.d[..], ls, pq.size, pq.elems, b, line.ipc + 1);
      lines[b] := line.(ipc := line.ipc + 1);
      ghost var ls1 := lines[..];
      assert ls1 == ls[b := line.(ipc := line.ipc + 1)];
      if line.pos != 0 {
        assert b in pq.elems;
        pq.ChangePriority(line.vpc - 1, b);
        CountsOfUpdate(ls1, b, ls1[b].(vpc := line.vpc - 1));
        PositionsDoNotCount(ls1[b := ls1[b].(vpc := line.vpc - 1)], lines[..], pq.elems);
      } else {
        QueuedHasPosition(pq.d[..], ls, pq.size, pq.elems, b);
        CountsOfUpdate(ls1, b, ls1[b].(vpc := line.vpc - 1));
        Bystander(pq.d[..], ls1, pq.size, pq.elems, b, ls1[b].(vpc := line.vpc - 1));
        lines[b] := lines[b].(vpc := lines[b].vpc - 1);
        assert lines[..] == ls1[b := ls1[b].(vpc := line.vpc - 1)];
      }
    }

    /** A closed line enters the victim heap. */
    method QueueVictim(b: nat)
      requires Rep() && b < lines.Length && b !in pq.elems
      modifies this`victimLineCnt, pq, pq.d, lines
      ensures Rep() && pq.elems == old(pq.elems) + {b}
      ensures Abs() == old(Abs()).(victims := old(Abs()).victims + {b})
    {
      hide Sound, PgIdx, Pages, IsHeap;
      pq.Insert(b);
      PositionsDoNotCount(old(lines[..]), lines[..], pq.elems);
      victimLineCnt := victimLineCnt + 1;
    }

    /** The NAND part of `mark_page_invalid`. */
    method RetirePage(p: Ppa)
      requires Rep() && p in page && BlkOf(p) in block
      requires 0 <= block[BlkOf(p)].ipc < g.pgsPerBlk && 0 < block[BlkOf(p)].vpc <= g.pgsPerBlk
      modifies this`page, this`block
      ensures Rep()
      ensures var s := old(Abs()); var k := s.block[BlkOf(p)];
              Abs() == s.(page := s.page[p := PgInvalid], block := s.block[BlkOf(p) := Counts(k.ipc + 1, k.vpc - 1)])
    {
      hide Sound, IsHeap, ByAddress;
      page := page[p := PgInvalid];
      var blk := block[BlkOf(p)];
      block := block[BlkOf(p) := Counts(blk.ipc + 1, blk.vpc - 1)];
    }

    /** A line that was full goes from the full list to the victim heap. */
    method FullToVictim(b: nat)
      requires Rep() && b < lines.Length && b !in pq.elems && |Without(fullLines, b)| == |fullLines| - 1
      modifies this`fullLines, this`fullLineCnt, this`victimLineCnt, lines, pq, pq.d
      ensures Rep()
      ensures var s := old(Abs()); Abs() == s.(full := Without(s.full, b), victims := s.victims + {b})
    {
      hide Sound, IsHeap, ByAddress;
      fullLines := Without(fullLines, b);
      fullLineCnt := fullLineCnt - 1;
      QueueVictim(b);
    }

    /** `mark_page_invalid`; its asserts hold. */
    method MarkPageInvalid(p: Ppa)
      requires Rep() && Core(g, Abs(), {}, {}) && p in page && page[p] == PgValid
      modifies this`page, this`block, this`fullLines, this`fullLineCnt, this`victimLineCnt, lines, pq, pq.d
      ensures Rep()
      ensures p.blk < |old(Abs()).line| && BlkOf(p) in old(block)
      ensures Abs() == Invalidate(g, old(Abs()), p).(rmap := old(Abs()).rmap)
    {
      hide Sound, IsHeap, Core, ByAddress;
      InvalidateAsserts(g, Abs(), p);
      FullListFacts(g, Abs(), p.blk);
      RetirePage(p);
      var wasFull := lines[p.blk].vpc == g.pgsPerLine;
      assert wasFull ==> lines[p.blk].ipc == 0;
      CountInvalid(p.blk);
      if wasFull {
        FullToVictim(p.blk);
      }
    }

    /** The pointer arithmetic of `advance_write_pointer`: none when the line is used up.
        Its bounds checks hold. */
    method StepPointer(w: Wp) returns (r: Option<Wp>)
      requires Sound(g) && ValidWp(g, w)
      ensures r == NextWp(g, w)
    {
      var os := g.pgsPerOneshotpg;
      StepPage(w.pg, os);
      var n := w;
      assert n.pg < g.pgsPerBlk;
      n := n.(pg := n.pg + 1);
      if n.pg % os != 0 {
        return Some(n);
      }
      n := n.(pg := n.pg - os);
      assert n.ch < g.nchs;
      n := n.(ch := n.ch + 1);
      if n.ch != g.nchs {
        return Some(n);
      }
      n := n.(ch := 0);
      assert n.lun < g.lunsPerCh;
      n := n.(lun := n.lun + 1);
      if n.lun != g.lunsPerCh {
        return Some(n);
      }
      n := n.(lun := 0);
      n := n.(pg := n.pg + os);
      if n.pg != g.pgsPerBlk {
        return Some(n);
      }
      return None;
    }

    /** The pointer arithmetic of `advance_write_pointer`, and the line turnover when the
        line is used up.  Its asserts hold, and a line must be free when one is needed. */
    method AdvanceWritePointer(io: IoType)
      requires Rep() && CanWrite(g, Abs(), io) && ValidWp(g, WpFor(Abs(), io))
      requires var w := WpFor(Abs(), io);
               NextWp(g, w).None? ==>
                 && w.blk !in Abs().victims && 0 <= Abs().line[w.blk].vpc && 0 <= Abs().line[w.blk].ipc
                 && Abs().line[w.blk].ipc + Abs().line[w.blk].vpc == g.pgsPerLine
      modifies this`wp, this`gcWp, this`freeLines, this`freeLineCnt, this`fullLines, this`fullLineCnt,
               this`victimLineCnt, lines, pq, pq.d
      ensures Rep()
      ensures Abs() == Advance(g, old(Abs()), io)
    {
      hide Sound, PgIdx, Pages, IsHeap, ByAddress, NextWp;
      var w := if io == UserIo then wp else gcWp;
      var next := StepPointer(w);
      if next.Some? {
        if io == UserIo { wp := next.value; } else { gcWp := next.value; }
        return;
      }
      CloseLine(w.blk);
      TakeLine(io);
    }

    /** The used-up line goes to the full list or the victim heap; the asserts hold. */
    method CloseLine(b: nat)
      requires Rep() && b < |Abs().line| && b !in Abs().victims
      requires 0 <= Abs().line[b].vpc && 0 <= Abs().line[b].ipc && Abs().line[b].ipc + Abs().line[b].vpc == g.pgsPerLine
      modifies this`fullLines, this`fullLineCnt, this`victimLineCnt, lines, pq, pq.d
      ensures Rep()
      ensures var s := old(Abs());
              Abs() == if s.line[b].vpc == g.pgsPerLine then s.(full := s.full + [b]) else s.(victims := s.victims + {b})
    {
      hide Sound, IsHeap, ByAddress;
      if lines[b].vpc == g.pgsPerLine {
        assert lines[b].ipc == 0;
        fullLines := fullLines + [b];
        fullLineCnt := fullLineCnt + 1;
      } else {
        assert 0 <= lines[b].vpc < g.pgsPerLine;
        assert lines[b].ipc > 0;
        QueueVictim(b);
      }
    }

    /** The pointer moves to the first free line. */
    method TakeLine(io: IoType)
      requires Rep() && Abs().free != []
      modifies this`wp, this`gcWp, this`freeLines, this`freeLineCnt
      ensures Rep()
      ensures var s := old(Abs()); Abs() == SetWp(s.(free := s.free[1..]), io, StartWp(s.free[0]))
    {
      hide Sound, IsHeap, ByAddress;
      var curline := GetNextFreeLine();
      assert curline.Some?;
      if io == UserIo { wp := StartWp(curline.value); } else { gcWp := StartWp(curline.value); }
    }

    lemma RepCounts()
      requires Rep()
      ensures Sound(g) && freeLineCnt == |Abs().free|
    {
    }

    lemma RepIsSound()
      requires Rep()
      ensures Sound(g)
    {
    }

    lemma LineCounts(v: nat)
      requires Rep() && v < |Abs().line|
      ensures v < lines.Length && lines[v].ipc == Abs().line[v].ipc
    {
    }

    /** The content of a page, as the model tracks it. */
    ghost method PutContent(p: Ppa, data: int)
      requires Rep()
      modifies this`stamp
      ensures Rep()
      ensures Abs() == old(Abs()).(stamp := old(Abs()).stamp[p := data])
    {
      stamp := stamp[p := data];
    }

    /** Maps an LPN to a free page and marks the page valid. */
    method MapPage(io: IoType, lpn: nat, ghost data: int)
      requires Rep() && lpn < |Abs().maptbl|
      requires var s := Abs(); var p := PageAt(WpFor(s, io));
        && ValidPpa(g, p) && p in s.page && s.page[p] == PgFree && BlkOf(p) in s.block && p.blk < |s.line|
        && 0 <= s.block[BlkOf(p)].vpc < g.pgsPerBlk && 0 <= s.line[p.blk].vpc < g.pgsPerLine && p.blk !in s.victims
      modifies this`page, this`block, this`stamp, maptbl, rmap, lines
      ensures Rep()
      ensures Abs() == Program(old(Abs()), io, lpn, data)
    {
      hide Sound, Rep, Abs;
      ghost var s := Abs();
      var p := GetNewPage(io);
      SetMaptbl(lpn, p);
      SetRmap(Some(lpn), p);
      MarkPageValid(p);
      PutContent(p, data);
    }

    /** The steps that a user write and a collection's copy share: map the LPN to the page
        under the pointer, mark the page valid, and move the pointer on. */
    method ProgramPage(io: IoType, lpn: nat, ghost data: int, ghost hole: set<nat>, ghost moved: set<Ppa>)
      requires Rep() && lpn < |Abs().maptbl| && CanWrite(g, Abs(), io)
      requires Core(g, Unmap(Abs(), lpn), hole, moved)
      modifies this`page, this`block, this`stamp, this`wp, this`gcWp, this`freeLines, this`freeLineCnt,
               this`fullLines, this`fullLineCnt, this`victimLineCnt, maptbl, rmap, lines, pq, pq.d
      ensures Rep()
      ensures CanWrite(g, old(Abs()), io) && Abs() == Write(g, old(Abs()), io, lpn, data)
    {
      RepIsSound();
      hide Sound, Core, NextWp, Rep, Abs, Program, Advance, Write, CanWrite, Unmap;
      WriteHalves(g, Abs(), hole, moved, io, lpn, data);
      MapPage(io, lpn, data);
      AdvanceWritePointer(io);
    }

    // ----- Garbage collection -----

    /** `select_victim_line`: a line with the fewest valid pages, unless collection is not
        forced and even that line is more than an eighth valid. */
    method SelectVictimLine(force: bool) returns (r: Option<nat>)
      requires Rep()
      modifies this`victimLineCnt, pq, pq.d, lines
      ensures Rep()
      ensures var s := old(Abs());
              && (r.None? <==> NothingToCollect(g, s, force))
              && (r.Some? ==> LeastVictim(s, r.value))
              && Abs() == if r.Some? then s.(victims := s.victims - {r.value}) else s
    {
      hide Sound, IsHeap, ByAddress, Pages;
      r := pq.Peek();
      if r.None? {
        return;
      }
      var v := r.value;
      assert LeastVictim(Abs(), v);
      if !force && lines[v].vpc > g.pgsPerLine / 8 {
        return None;
      }
      ghost var was := lines[..];
      var head := pq.Pop();
      assert head == Some(v);
      ghost var ls := lines[..];
      PositionsDoNotCount(was, ls, old(pq.elems));
      Bystander(pq.d[..], ls, pq.size, pq.elems, v, ls[v].(pos := 0));
      CountsOfUpdate(ls, v, ls[v].(pos := 0));
      lines[v] := lines[v].(pos := 0);
      assert lines[..] == ls[v := ls[v].(pos := 0)];
      victimLineCnt := victimLineCnt - 1;
    }

    /** `mark_block_free`, for a block whose pages have all been scanned. */
    method MarkBlockFree(k: Blk)
      requires Rep() && page.Keys == Pages(g)
      requires k.ch < g.nchs && k.lun < g.lunsPerCh && k.blk < g.blksPerPl
      modifies this`page, this`block
      ensures Rep()
      ensures Abs() == Erase(g, old(Abs()), k)
    {
      hide Sound, IsHeap, ByAddress, Pages;
      ghost var was := page;
      PlaneAndLines(g);
      forall p | p in was ensures p.pl == 0 && p.pg < g.pgsPerBlk { PagesAreValid(g, p); }
      for i := 0 to g.pgsPerBlk
        invariant page.Keys == was.Keys && block == old(block)
        invariant forall p :: p in was ==> page[p] == if BlkOf(p) == k && p.pg < i then PgFree else was[p]
      {
        var p := Ppa(k.ch, k.lun, 0, k.blk, i);
        PagesAreValid(g, p);
        page := page[p := PgFree];
      }
      block := block[k := Counts(0, 0)];
      assert page == Erase(g, old(Abs()), k).page;
    }

    /** `mark_line_free`. */
    method MarkLineFree(b: nat)
      requires Rep() && b < lines.Length && b !in pq.elems
      modifies this`freeLines, this`freeLineCnt, lines
      ensures Rep()
      ensures Abs() == FreeLine(old(Abs()), b)
    {
      hide Sound, IsHeap, ByAddress, Pages;
      ghost var ls := lines[..];
      var l := ls[b].(ipc := 0, vpc := 0);
      Bystander(pq.d[..], ls, pq.size, pq.elems, b, l);
      CountsOfUpdate(ls, b, l);
      lines[b] := lines[b].(ipc := 0, vpc := 0);
      assert lines[..] == ls[b := l];
      freeLines := freeLines + [b];
      freeLineCnt := freeLineCnt + 1;
    }

    /** A collection of `v` that began in `s0` has scanned the pages `done` and copied the
        valid ones among them. */
    ghost predicate Collecting(s0: State, v: nat, done: set<Ppa>, copies0: nat)
      reads Repr()
    {
      && Rep()
      && Mid(g, s0, Abs(), v, done)
      && gcCopies == copies0 + |LineWith(s0.page, PgValid, v) * done|
    }

    /** `gc_write_page`; its assert holds and a page to write is there. */
    method GcWritePage(p: Ppa, ghost s0: State, ghost v: nat, ghost done: set<Ppa>, ghost copies0: nat)
      requires Collecting(s0, v, done, copies0)
      requires p in LinePages(g, v) - done && p in page && page[p] == PgValid
      modifies this`page, this`block, this`stamp, this`wp, this`gcWp, this`freeLines, this`freeLineCnt,
               this`fullLines, this`fullLineCnt, this`victimLineCnt, this`gcCopies, maptbl, rmap, lines, pq, pq.d
      ensures Collecting(s0, v, done + {p}, copies0)
      ensures SameOnLine(g, v, old(page), page)
    {
      hide Sound, Core, PgIdx, Pages, LinePages, IsHeap, ByAddress, Mid, LineWith, Write, CanWrite;
      GcCopyPlan(g, s0, Abs(), v, done, p);
      AddressOf(p);
      var lpn := rmap[PgIdx(g, p)];
      assert lpn.Some? && lpn.value < g.ttPgs;
      ProgramPage(GcIo, lpn.value, stamp[p], {v}, done + {p});
      gcCopies := gcCopies + 1;
    }

    lemma AddressOf(p: Ppa)
      requires Rep() && p in LinePages(g, p.blk) && p.blk < g.ttLines
      ensures PgIdx(g, p) < rmap.Length && p in Abs().rmap && Abs().rmap[p] == rmap[PgIdx(g, p)]
    {
      hide Sound, PgIdx, Pages, LinePages;
      PagesAreValid(g, p);
      ByAddressAt(g, rmap[..], p);
    }

    /** The unscanned pages of the victim are not free. */
    lemma UnscannedPages(s0: State, v: nat, done: set<Ppa>, copies0: nat)
      requires Collecting(s0, v, done, copies0)
      ensures forall p :: p in LinePages(g, v) - done ==> p in page && page[p] != PgFree
    {
      hide Sound, Core, Pages, LinePages;
      VictimIsClosed(g, s0, v);
    }

    lemma CollectingIsSound(s0: State, v: nat, done: set<Ppa>, copies0: nat)
      requires Collecting(s0, v, done, copies0)
      ensures Sound(g)
    {
    }

    lemma Skip(s0: State, v: nat, done: set<Ppa>, copies0: nat, extra: set<Ppa>)
      requires Collecting(s0, v, done, copies0) && extra <= LinePages(g, v)
      requires forall p :: p in extra - done ==> p in page && page[p] != PgValid
      ensures Collecting(s0, v, done + extra, copies0)
    {
      hide Sound, Core, Pages, LinePages, Mid, LineWith;
      GcSkips(g, s0, Abs(), v, done, extra);
      SkipsNothingValid(g, s0, Abs(), v, done, extra);
    }

    /** First loop of `clean_one_flashpg`: how many pages are valid; its assert holds. */
    static method CountValid(g: Params, pages: map<Ppa, PgStatus>, fp: nat, ch: nat, lun: nat,
                             v: nat) returns (cnt: nat)
      requires Sound(g) && fp < g.flashpgsPerBlk && ch < g.nchs && lun < g.lunsPerCh
      requires forall p :: p in LinePages(g, v) - Scanned(g, v, fp, ch, lun) ==> p in pages && pages[p] != PgFree
      ensures var f := FlashPrefix(g, v, fp, ch, lun, g.pgsPerFlashpg);
              && f <= LinePages(g, v)
              && (cnt == 0 <==> forall p :: p in f ==> p in pages && pages[p] != PgValid)
    {
      PlaneAndLines(g);
      hide Sound, LinePages, Scanned, FlashPrefix, FlashPgAt;
      ScanStarts(g, v, fp, ch, lun);
      cnt := 0;
      for i := 0 to g.pgsPerFlashpg
        invariant FlashPrefix(g, v, fp, ch, lun, i) <= LinePages(g, v)
        invariant cnt == 0 <==> forall p :: p in FlashPrefix(g, v, fp, ch, lun, i) ==> p in pages && pages[p] != PgValid
      {
        FlashPrefixGrows(g, v, fp, ch, lun, i);
        var p := FlashPgAt(g, v, fp, ch, lun, i);
        assert pages[p] != PgFree;
        if pages[p] == PgValid {
          cnt := cnt + 1;
        }
      }
    }

    /** `clean_one_flashpg`: the valid pages of one flash page of the victim are copied. */
    method CleanOneFlashpg(fp: nat, ch: nat, lun: nat, ghost s0: State, v: nat, ghost copies0: nat)
      requires fp < g.flashpgsPerBlk && ch < g.nchs && lun < g.lunsPerCh && g.pgsPerFlashpg > 0
      requires Collecting(s0, v, Scanned(g, v, fp, ch, lun), copies0)
      modifies this`page, this`block, this`stamp, this`wp, this`gcWp, this`freeLines, this`freeLineCnt,
               this`fullLines, this`fullLineCnt, this`victimLineCnt, this`gcCopies, maptbl, rmap, lines, pq, pq.d
      ensures Collecting(s0, v, Scanned(g, v, fp, ch, lun + 1), copies0)
      ensures SameOnLine(g, v, old(page), page)
    {
      hide Sound, LinePages, LineWith, Scanned, FlashPrefix, Rep, Abs, Collecting, SameOnLine;
      ghost var scanned := Scanned(g, v, fp, ch, lun);
      CollectingIsSound(s0, v, scanned, copies0);
      UnscannedPages(s0, v, scanned, copies0);
      label Counting:
      var cnt := CountValid(g, page, fp, ch, lun, v);
      assert unchanged@Counting(Repr());
      assert Collecting(s0, v, scanned, copies0);
      ScanNextLun(g, v, fp, ch, lun);
      if cnt <= 0 {
        SameIsReflexive(g, v, page);
        Skip(s0, v, scanned, copies0, FlashPrefix(g, v, fp, ch, lun, g.pgsPerFlashpg));
        return;
      }
      CopyValid(fp, ch, lun, s0, v, copies0);
    }

    /** Second loop of `clean_one_flashpg`: the valid pages are copied. */
    method CopyValid(fp: nat, ch: nat, lun: nat, ghost s0: State, v: nat, ghost copies0: nat)
      requires fp < g.flashpgsPerBlk && ch < g.nchs && lun < g.lunsPerCh && g.pgsPerFlashpg > 0
      requires Collecting(s0, v, Scanned(g, v, fp, ch, lun), copies0)
      modifies this`page, this`block, this`stamp, this`wp, this`gcWp, this`freeLines, this`freeLineCnt,
               this`fullLines, this`fullLineCnt, this`victimLineCnt, this`gcCopies, maptbl, rmap, lines, pq, pq.d
      ensures Collecting(s0, v, Scanned(g, v, fp, ch, lun) + FlashPrefix(g, v, fp, ch, lun, g.pgsPerFlashpg), copies0)
      ensures SameOnLine(g, v, old(page), page)
    {
      hide *;
      ghost var scanned := Scanned(g, v, fp, ch, lun);
      CollectingIsSound(s0, v, scanned, copies0);
      SameIsReflexive(g, v, page);
      ScanStarts(g, v, fp, ch, lun);
      assert scanned + FlashPrefix(g, v, fp, ch, lun, 0) == scanned;
      for i := 0 to g.pgsPerFlashpg
        invariant Collecting(s0, v, scanned + FlashPrefix(g, v, fp, ch, lun, i), copies0)
        invariant SameOnLine(g, v, old(page), page)
      {
        FlashPrefixGrows(g, v, fp, ch, lun, i);
        var p := FlashPgAt(g, v, fp, ch, lun, i);
        ghost var done, was := scanned + FlashPrefix(g, v, fp, ch, lun, i), page;
        UnscannedPages(s0, v, done, copies0);
        assert done + {p} == scanned + FlashPrefix(g, v, fp, ch, lun, i + 1);
        if page[p] == PgValid {
          GcWritePage(p, s0, v, done, copies0);
          SameIsTransitive(g, v, old(page), was, page);
        } else {
          Skip(s0, v, done, copies0, {p});
        }
      }
    }

    /** One step of the loops of `do_gc`: clean a flash page and, on the last row, erase the
        block it completes. */
    method CleanAndErase(fp: nat, ch: nat, lun: nat, ghost s0: State, v: nat, ghost copies0: nat)
      requires fp < g.flashpgsPerBlk && ch < g.nchs && lun < g.lunsPerCh && g.pgsPerFlashpg > 0
      requires Collecting(s0, v, Scanned(g, v, fp, ch, lun), copies0)
      requires fp + 1 == g.flashpgsPerBlk ==> ErasedUpTo(g, page, v, ch, lun)
      modifies this`page, this`block, this`stamp, this`wp, this`gcWp, this`freeLines, this`freeLineCnt,
               this`fullLines, this`fullLineCnt, this`victimLineCnt, this`gcCopies, maptbl, rmap, lines, pq, pq.d
      ensures Collecting(s0, v, Scanned(g, v, fp, ch, lun + 1), copies0)
      ensures fp + 1 == g.flashpgsPerBlk ==> ErasedUpTo(g, page, v, ch, lun + 1)
    {
      hide Sound, LinePages, LineWith, Scanned, Rep, Abs, Collecting, SameOnLine, ErasedUpTo;
      ghost var was := page;
      CleanOneFlashpg(fp, ch, lun, s0, v, copies0);
      if fp + 1 == g.flashpgsPerBlk {
        StillErased(g, was, page, v, ch, lun);
        EraseOne(fp, ch, lun, s0, v, copies0);
      }
    }

    /** Erasing the block under the loop indices of the last row. */
    method EraseOne(ghost fp: nat, ch: nat, lun: nat, ghost s0: State, v: nat, ghost copies0: nat)
      requires fp + 1 == g.flashpgsPerBlk && ch < g.nchs && lun < g.lunsPerCh && g.pgsPerFlashpg > 0
      requires Collecting(s0, v, Scanned(g, v, fp, ch, lun + 1), copies0)
      requires ErasedUpTo(g, page, v, ch, lun)
      modifies this`page, this`block
      ensures Collecting(s0, v, Scanned(g, v, fp, ch, lun + 1), copies0)
      ensures ErasedUpTo(g, page, v, ch, lun + 1)
    {
      hide Sound, LinePages, BlkPages, LineWith, Scanned, ErasedUpTo, Mid, Erase, Pages, IsHeap, ByAddress;
      ghost var done, k := Scanned(g, v, fp, ch, lun + 1), Blk(ch, lun, v);
      BlockScannedBeforeErase(g, v, fp, ch, lun);
      EraseFacts(g, s0, Abs(), v, done, k);
      ErasedOneMore(g, Abs(), v, ch, lun);
      MarkBlockFree(Blk(ch, lun, v));
    }

    /** The scan loops of `do_gc`: every valid page of the victim is copied and every block
        of it is erased. */
    method CleanLine(ghost s0: State, v: nat, ghost copies0: nat)
      requires Collecting(s0, v, {}, copies0) && 0 < g.pgsPerFlashpg && 0 < g.flashpgsPerBlk
      modifies this`page, this`block, this`stamp, this`wp, this`gcWp, this`freeLines, this`freeLineCnt,
               this`fullLines, this`fullLineCnt, this`victimLineCnt, this`gcCopies, maptbl, rmap, lines, pq, pq.d
      ensures Collecting(s0, v, Scanned(g, v, g.flashpgsPerBlk, 0, 0), copies0)
      ensures ErasedUpTo(g, page, v, g.nchs, 0)
    {
      hide *;
      NothingErased(g, page, v);
      ScanStarts(g, v, 0, 0, 0);
      for fp := 0 to g.flashpgsPerBlk
        invariant Collecting(s0, v, Scanned(g, v, fp, 0, 0), copies0)
        invariant ErasedUpTo(g, page, v, if fp == g.flashpgsPerBlk then g.nchs else 0, 0)
      {
        for ch := 0 to g.nchs
          invariant Collecting(s0, v, Scanned(g, v, fp, ch, 0), copies0)
          invariant fp + 1 == g.flashpgsPerBlk ==> ErasedUpTo(g, page, v, ch, 0)
        {
          for lun := 0 to g.lunsPerCh
            invariant Collecting(s0, v, Scanned(g, v, fp, ch, lun), copies0)
            invariant fp + 1 == g.flashpgsPerBlk ==> ErasedUpTo(g, page, v, ch, lun)
          {
            CleanAndErase(fp, ch, lun, s0, v, copies0);
          }
          ScanNextRow(g, v, fp, ch);
          ErasedRow(g, page, v, ch);
        }
        NothingErased(g, page, v);
        ScanNextRow(g, v, fp, g.nchs);
      }
    }

    /** The victim, scanned and erased, joins the free list. */
    method FinishLine(ghost s0: State, v: nat, ghost copies0: nat)
      requires g.pgsPerFlashpg > 0 && Collecting(s0, v, Scanned(g, v, g.flashpgsPerBlk, 0, 0), copies0)
      requires ErasedUpTo(g, page, v, g.nchs, 0) && LeastVictim(s0, v)
      modifies this`freeLines, this`freeLineCnt, lines
      ensures Rep() && Core(g, Abs(), {}, {})
      ensures v < |s0.line| && Collected(g, s0, Abs(), v, s0.line[v].ipc, gcCopies - copies0)
    {
      hide Sound, Core, LinePages, LineWith, Mid, Collected, IsHeap, ByAddress, ErasedUpTo, Scanned;
      ScanCoversLine(g, v);
      AllErased(g, page, v);
      MidFacts(g, s0, Abs(), v, LinePages(g, v));
      GcAchieves(g, s0, Abs(), v);
      MarkLineFree(v);
    }

    /** The victim leaves the heap, and its invalid pages become the next refill. */
    method BeginLine(force: bool) returns (victim: Option<nat>)
      requires Rep() && Core(g, Abs(), {}, {}) && Collectable(g, Abs(), force)
      modifies this`victimLineCnt, this`creditsToRefill, pq, pq.d, lines
      ensures victim.None? <==> NothingToCollect(g, old(Abs()), force)
      ensures victim.None? ==> Rep() && Abs() == old(Abs()) && creditsToRefill == old(creditsToRefill)
      ensures victim.Some? ==>
        && Collecting(old(Abs()), victim.value, {}, gcCopies) && LeastVictim(old(Abs()), victim.value)
        && creditsToRefill == old(Abs()).line[victim.value].ipc
    {
      hide Sound, Core, LineWith, Mid, NothingToCollect, LeastVictim, Collectable, Rep, Abs;
      RepIsSound();
      ghost var s0 := Abs();
      victim := SelectVictimLine(force);
      if victim.Some? {
        CollectionBegins(g, s0, victim.value, force);
        LineCounts(victim.value);
        creditsToRefill := lines[victim.value].ipc;
      }
    }

    /** `do_gc`: collects the emptiest victim `v`, if there is one worth collecting. */
    method DoGc(force: bool) returns (ok: bool, ghost v: nat)
      requires Rep() && Core(g, Abs(), {}, {}) && Collectable(g, Abs(), force)
      modifies this`page, this`block, this`stamp, this`wp, this`gcWp, this`freeLines, this`freeLineCnt,
               this`fullLines, this`fullLineCnt, this`victimLineCnt, this`gcCopies, this`creditsToRefill,
               maptbl, rmap, lines, pq, pq.d
      ensures Rep() && Core(g, Abs(), {}, {})
      ensures !ok <==> NothingToCollect(g, old(Abs()), force)
      ensures !ok ==> Abs() == old(Abs()) && creditsToRefill == old(creditsToRefill) && gcCopies == old(gcCopies)
      ensures ok ==> Collected(g, old(Abs()), Abs(), v, creditsToRefill, gcCopies - old(gcCopies))
    {
      hide Sound, Core, LinePages, LineWith, Mid, Collected, Rep, Abs, ErasedUpTo, Scanned, NothingToCollect;
      hide Collecting, LeastVictim, Collectable;
      RepIsSound();
      PlaneAndLines(g);
      ghost var s0, copies0 := Abs(), gcCopies;
      var victim := BeginLine(force);
      if victim.None? {
        return false, 0;
      }
      CleanLine(s0, victim.value, copies0);
      FinishLine(s0, victim.value, copies0);
      return true, victim.value;
    }

    // ----- Flow control and the host's page write -----

    ghost function Now(): Drive
      reads this`page, this`block, this`stamp, this`freeLines, this`fullLines, this`wp, this`gcWp,
            this`writeCredits, this`creditsToRefill, maptbl, rmap, lines, pq
    {
      Drive(Abs(), Flow(writeCredits, creditsToRefill))
    }

    /** `should_gc_high`. */
    predicate ShouldGcHigh()
      reads this
    {
      freeLineCnt <= GC_THRES_LINES_HIGH
    }

    /** `consume_write_credit`, on a 32-bit unsigned counter. */
    method ConsumeWriteCredit()
      modifies this`writeCredits
      ensures old(writeCredits) > 0 ==> writeCredits == old(writeCredits) - 1
      ensures old(writeCredits) == 0 ==> writeCredits == 0xFFFF_FFFF
    {
      writeCredits := if writeCredits == 0 then 0xFFFF_FFFF else writeCredits - 1;
    }

    /** `foreground_gc`, with the credits used up: when free lines are scarce a victim is
        always found.  The refill that follows is backed by free pages. */
    method ForegroundGc(hostLpns: nat)
      requires Rep() && Provisioned(g, hostLpns) && Spent(g, hostLpns, Abs(), Flow(0, creditsToRefill))
      requires Balanced(g, hostLpns, 0, Totals())
      modifies this`page, this`block, this`stamp, this`wp, this`gcWp, this`freeLines, this`freeLineCnt,
               this`fullLines, this`fullLineCnt, this`victimLineCnt, this`gcCopies, this`gcRuns, this`creditsToRefill,
               maptbl, rmap, lines, pq, pq.d
      ensures Rep() && Inv(g, hostLpns, Abs(), Flow(creditsToRefill, creditsToRefill))
      ensures Balanced(g, hostLpns, creditsToRefill, Totals().(refilled := refilled + creditsToRefill))
      ensures Shape(old(Abs())) && Shape(Abs()) && View(Abs()) == View(old(Abs())) && Abs().uwp == old(Abs().uwp)
      ensures gcRuns == old(gcRuns) + (if old(ShouldGcHigh()) then 1 else 0)
      ensures var flow, d := Flow(0, old(creditsToRefill)), Drive(Abs(), Flow(creditsToRefill, creditsToRefill));
              Refilled(g, old(Abs()), flow, d) && gcCopies == old(gcCopies) + RefillCopies(g, old(Abs()), flow, d)
    {
      hide Sound, Core, Spent, Provisioned, NothingToCollect, Collectable, Collected, View, Balanced, Inv, Rep, Abs, Shape;
      hide Refilled, RefillCopies;
      RepCounts();
      ghost var s, r, copies0 := Abs(), creditsToRefill, gcCopies;
      SpentHasShape(g, hostLpns, s, Flow(0, r));
      if ShouldGcHigh() {
        CollectionIsPossible(g, hostLpns, s, r);
        var ok, v := DoGc(true);
        assert ok;
        RefillAfterCollection(g, hostLpns, s, r, Abs(), v, creditsToRefill, gcCopies - copies0);
        BalancedAfterCollection(g, hostLpns, old(Totals()), creditsToRefill, gcCopies - copies0);
        gcRuns := gcRuns + 1;
        CollectedRefills(g, s, r, Abs(), v, creditsToRefill, gcCopies - copies0);
      } else {
        RefillWithoutCollection(g, hostLpns, s, r);
        EnoughLinesRefill(g, s, r);
        BalancedAfterRefill(g, hostLpns, Totals(), r);
      }
    }

    /** `check_and_refill_write_credit`. */
    method CheckAndRefillWriteCredit(hostLpns: nat)
      requires Rep() && Provisioned(g, hostLpns) && Spent(g, hostLpns, Abs(), Flow(writeCredits, creditsToRefill))
      requires Balanced(g, hostLpns, writeCredits, Totals())
      modifies this`page, this`block, this`stamp, this`wp, this`gcWp, this`freeLines, this`freeLineCnt,
               this`fullLines, this`fullLineCnt, this`victimLineCnt, this`gcCopies, this`gcRuns, this`creditsToRefill,
               this`writeCredits, this`refilled, maptbl, rmap, lines, pq, pq.d
      ensures Valid(hostLpns)
      ensures Shape(old(Abs())) && Shape(Abs()) && View(Abs()) == View(old(Abs())) && Abs().uwp == old(Abs().uwp)
      ensures gcRuns == old(gcRuns) + (if old(writeCredits) == 0 && old(ShouldGcHigh()) then 1 else 0)
      ensures var flow := Flow(old(writeCredits), old(creditsToRefill));
              Refilled(g, old(Abs()), flow, Now()) && gcCopies == old(gcCopies) + RefillCopies(g, old(Abs()), flow, Now())
    {
      hide Sound, Core, Reserve, Provisioned, View, Balanced, Rep, Abs, Shape;
      SpentHasShape(g, hostLpns, Abs(), Flow(writeCredits, creditsToRefill));
      RepCounts();
      PlaneAndLines(g);
      if writeCredits <= 0 {
        ForegroundGc(hostLpns);
        writeCredits := (writeCredits + creditsToRefill) % 0x1_0000_0000;
        refilled := refilled + creditsToRefill;
      }
    }

    /** The old copy of an LPN, if there is one, becomes invalid and forgets the LPN. */
    method Supersede(lpn: nat)
      requires Rep() && Core(g, Abs(), {}, {}) && lpn < maptbl.Length
      modifies this`page, this`block, this`fullLines, this`fullLineCnt, this`victimLineCnt, rmap, lines, pq, pq.d
      ensures Rep()
      ensures old(maptbl[lpn]).Some? ==> old(maptbl[lpn]).value.blk < |old(Abs()).line| && BlkOf(old(maptbl[lpn]).value) in old(block)
      ensures Abs() == Superseded(g, old(Abs()), lpn)
    {
      hide Sound, Core, Rep, PgIdx, Pages;
      RepCounts();
      SupersededFacts(g, Abs(), lpn);
      var ppa := maptbl[lpn];
      if ppa.Some? {
        MappedIsValid(g, Abs(), lpn);
        MarkPageInvalid(ppa.value);
        SetRmap(None, ppa.value);
      }
    }

    /** The page write itself, before flow control. */
    method StorePage(lpn: nat, ghost data: int, hostLpns: nat)
      requires Valid(hostLpns) && lpn < hostLpns
      modifies this`page, this`block, this`stamp, this`wp, this`gcWp, this`freeLines, this`freeLineCnt,
               this`fullLines, this`fullLineCnt, this`victimLineCnt, maptbl, rmap, lines, pq, pq.d
      ensures Rep() && old(writeCredits) > 0
      ensures Spent(g, hostLpns, Abs(), Flow(old(writeCredits) - 1, creditsToRefill))
      ensures Shape(old(Abs())) && Shape(Abs()) && View(Abs()) == View(old(Abs()))[lpn := data]
      ensures g.pgsPerOneshotpg > 0 && OnePageOn(g, old(Abs().uwp), Abs().uwp)
      ensures CanStore(g, old(Abs()), lpn) && Abs() == Stored(g, old(Abs()), lpn, data)
    {
      hide Sound, Core, Reserve, View, Rep, Abs, Shape, Write, Superseded, CanWrite, Spent, Inv, Provisioned, Unmap;
      RepCounts();
      UserWriteSpends(g, hostLpns, Abs(), Flow(writeCredits, creditsToRefill), lpn, data);
      AbsTables();
      Supersede(lpn);
      ProgramPage(UserIo, lpn, data, {}, {});
    }

    lemma AbsTables()
      ensures Abs().uwp == wp && Abs().gwp == gcWp
      ensures |Abs().maptbl| == maptbl.Length && forall i :: 0 <= i < maptbl.Length ==> Abs().maptbl[i] == maptbl[i]
    {
    }

    /** One iteration of the write loop of `conv_write`: the LPN reads as the new content,
        every other LPN reads as before, and the invariant holds again. */
    method WritePage(lpn: nat, ghost data: int, hostLpns: nat)
      requires Valid(hostLpns) && lpn < hostLpns
      modifies Repr()
      ensures Valid(hostLpns)
      ensures Shape(old(Abs())) && Shape(Abs()) && View(Abs()) == View(old(Abs()))[lpn := data]
      ensures userWrites == old(userWrites) + 1
      ensures g.pgsPerOneshotpg > 0 && OnePageOn(g, old(wp), wp)
      ensures Turn(g, old(Now()), lpn, data, Now())
      ensures gcCopies == old(gcCopies) + TurnCopies(g, old(Now()), lpn, data, Now())
    {
      hide Sound, Core, Reserve, View, Rep, Abs, Shape, Spent, Inv, Provisioned, Balanced, OnePageOn, Refilled;
      hide RefillCopies;
      hide CanStore, Stored;
      AbsTables();
      StorePage(lpn, data, hostLpns);
      ghost var l := Totals();
      userWrites := userWrites + 1;
      ConsumeWriteCredit();
      BalancedAfterWrite(g, hostLpns, old(writeCredits), l);
      CheckAndRefillWriteCredit(hostLpns);
      AbsTables();
    }

    lemma WriteCostIsBounded(hostLpns: nat)
      requires Valid(hostLpns)
      ensures g.ttLines >= 5
      ensures gcCopies * (g.pgsPerLine - MaxCopies(g, hostLpns)) <= MaxCopies(g, hostLpns) * userWrites
    {
      hide Sound, Rep, Abs, Core;
      WriteAmplification(g, hostLpns, writeCredits, Totals());
    }

    /** A fresh drive satisfies the invariant. */
    lemma FreshIsValid(hostLpns: nat)
      requires Rep() && Provisioned(g, hostLpns) && Abs() == Fresh(g)
      requires writeCredits == creditsToRefill == g.pgsPerLine && Totals() == Ledger(0, 0, 0, 0)
      ensures Valid(hostLpns) && Shape(Abs()) && View(Abs()) == map[]
    {
      hide Sound, Rep, Abs, Inv, View, Shape;
      RepCounts();
      FreshIsSound(g, hostLpns);
      MaxCopiesBelowLine(g, hostLpns);
    }
  }

  // ----- Every run -----

  /** What the host should read after a sequence of page writes: the last content of each LPN. */
  ghost function Replay(lpns: seq<nat>, data: seq<int>): map<nat, int>
    requires |lpns| == |data|
  {
    if lpns == [] then map[]
    else Replay(lpns[..|lpns| - 1], data[..|lpns| - 1])[lpns[|lpns| - 1] := data[|lpns| - 1]]
  }

  /** Whatever pages the host writes, from a fresh drive on, no step fails: the drive never
      runs out of free lines and every LPN reads as last written.  The states are those of a run,
      turn by turn; the pages copied are those of its collections, and within the bound on the cost
      of every run. */
  method Run(g: Params, hostLpns: nat, lpns: seq<nat>, ghost data: seq<int>) returns (f: Ftl, ghost ds: seq<Drive>)
    requires Sound(g) && Provisioned(g, hostLpns) && |lpns| == |data|
    requires forall i :: 0 <= i < |lpns| ==> lpns[i] < hostLpns
    ensures f.g == g && f.Valid(hostLpns) && Shape(f.Abs()) && View(f.Abs()) == Replay(lpns, data)
    ensures IsRun(g, hostLpns, lpns, data, ds) && f.Now() == ds[|lpns|]
    ensures f.userWrites == |lpns| && f.gcCopies == Copies(g, hostLpns, lpns, data, ds)
    ensures f.gcCopies * (g.pgsPerLine - MaxCopies(g, hostLpns)) <= MaxCopies(g, hostLpns) * |lpns|
  {
    hide Sound, View, Shape, Turn, TurnCopies, IsRun, Copies, MaxCopies, Ftl.Rep, Ftl.Abs, Ftl.Valid;
    f := new Ftl(g);
    f.FreshIsValid(hostLpns);
    EmptyRun(g, hostLpns);
    ds := [f.Now()];
    for i := 0 to |lpns|
      invariant f.g == g && f.Valid(hostLpns) && fresh(f.Repr()) && f.userWrites == i
      invariant Shape(f.Abs()) && View(f.Abs()) == Replay(lpns[..i], data[..i])
      invariant |ds| == i + 1 && ds[i] == f.Now() && IsRun(g, hostLpns, lpns[..i], data[..i], ds)
      invariant f.gcCopies == Copies(g, hostLpns, lpns[..i], data[..i], ds)
    {
      assert lpns[..i + 1][..i] == lpns[..i] && data[..i + 1][..i] == data[..i];
      assert lpns[..i + 1] == lpns[..i] + [lpns[i]] && data[..i + 1] == data[..i] + [data[i]];
      f.WritePage(lpns[i], data[i], hostLpns);
      OneMoreTurn(g, hostLpns, lpns[..i], data[..i], ds, lpns[i], data[i], f.Now());
      ds := ds + [f.Now()];
    }
    assert lpns[..|lpns|] == lpns && data[..|lpns|] == data;
    CopiesAreBounded(g, hostLpns, lpns, data, ds);
  }
}
