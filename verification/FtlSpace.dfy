/** Why the FTL never runs out of free lines, and how much garbage collection costs. */
module FtlSpace {
  import opened Wrappers
  import opened IdLists
  import opened Geometry
  import opened Traversal
  import opened FtlState
  import opened FtlInvariant
  import opened FtlGc

  // ----- Valid pages, counted line by line and LPN by LPN -----

  ghost function MappedLpns(maptbl: seq<Option<Ppa>>): set<nat>
  {
    set lpn | 0 <= lpn < |maptbl| && maptbl[lpn].Some?
  }

  /** There are as many live pages as mapped LPNs. */
  lemma {:induction false} LivePagesAreMappedLpns(maptbl: seq<Option<Ppa>>, rmap: map<Ppa, Option<nat>>, live: set<Ppa>)
    requires Maps(maptbl, rmap, live)
    ensures |live| == |MappedLpns(maptbl)|
    decreases |live|
  {
    if live == {} {
      assert MappedLpns(maptbl) == {};
    } else {
      var p :| p in live;
      var lpn := rmap[p].value;
      MapsDrop(maptbl, rmap, live, lpn);
      LivePagesAreMappedLpns(maptbl[lpn := None], rmap, live - {p});
      assert MappedLpns(maptbl[lpn := None]) == MappedLpns(maptbl) - {lpn};
    }
  }

  function SumVpc(line: seq<Counts>, n: nat): int
    requires n <= |line|
  {
    if n == 0 then 0 else SumVpc(line, n - 1) + line[n - 1].vpc
  }

  ghost function ValidBelow(page: map<Ppa, PgStatus>, n: nat): set<Ppa>
  {
    set p | p in page && page[p] == PgValid && p.blk < n
  }

  lemma {:induction false} ValidPagesBelow(page: map<Ppa, PgStatus>, line: seq<Counts>, n: nat)
    requires n <= |line|
    requires forall b :: 0 <= b < |line| ==> line[b].vpc == |LineWith(page, PgValid, b)|
    ensures |ValidBelow(page, n)| == SumVpc(line, n)
  {
    if n == 0 {
      assert ValidBelow(page, 0) == {};
    } else {
      ValidPagesBelow(page, line, n - 1);
      assert ValidBelow(page, n) == ValidBelow(page, n - 1) + LineWith(page, PgValid, n - 1);
      assert ValidBelow(page, n - 1) !! LineWith(page, PgValid, n - 1);
    }
  }

  /** The line counters add up to the number of mapped LPNs. */
  lemma CountersAddUp(g: Params, s: State)
    requires Sound(g) && Core(g, s, {}, {})
    ensures SumVpc(s.line, |s.line|) == |MappedLpns(s.maptbl)|
  {
    hide Sound, Pages, Roles, Fill, Maps;
    LivePagesAreMappedLpns(s.maptbl, s.rmap, Live(s.page, {}));
    ValidPagesBelow(s.page, s.line, |s.line|);
    PlaneAndLines(g);
    forall p | p in s.page ensures p.blk < |s.line| { PagesAreValid(g, p); }
    assert ValidBelow(s.page, |s.line|) == Live(s.page, {});
  }

  // ----- How many lines are closed -----

  ghost function Closed(s: State): set<nat> {
    Elems(s.full) + s.victims
  }

  ghost function Elems(q: seq<nat>): (r: set<nat>)
    ensures forall b :: b in r <==> b in q
  {
    set b | b in q
  }

  lemma {:induction false} NoDupSize(q: seq<nat>)
    requires NoDup(q)
    ensures |Elems(q)| == |q|
  {
    if q == [] {
      assert Elems(q) == {};
    } else {
      NoDupSize(q[1..]);
      assert forall b :: b in q <==> b == q[0] || b in q[1..];
      assert Elems(q) == {q[0]} + Elems(q[1..]);
      assert q[0] !in q[1..];
    }
  }

  /** Free list, closed lines and the two lines being written make up the drive. */
  lemma ClosedLines(g: Params, s: State)
    requires Roles(g, s.free, s.full, s.victims, s.uwp.blk, s.gwp.blk, {})
    ensures |Closed(s)| + |s.free| + 2 == g.ttLines
  {
    NoDupSize(s.free);
    hide Roles, Closed;
    var free, all, closed, two := Elems(s.free), Below(g.ttLines), Closed(s), {s.uwp.blk, s.gwp.blk};
    forall b: nat
      ensures b in all <==> b in free + closed + two
      ensures !(b in free && b in closed) && !(b in free && b in two) && !(b in closed && b in two)
    {
      OneRole(g, s, b);
    }
    OneRole(g, s, s.uwp.blk);
    assert all == free + closed + two;
    ThreeParts(free, closed, two);
  }

  lemma OneRole(g: Params, s: State, b: nat)
    requires Roles(g, s.free, s.full, s.victims, s.uwp.blk, s.gwp.blk, {})
    ensures b < g.ttLines <==> b in s.free || b in Closed(s) || b == s.uwp.blk || b == s.gwp.blk
    ensures !(b in s.free && b in Closed(s)) && s.uwp.blk != s.gwp.blk
    ensures b == s.uwp.blk || b == s.gwp.blk ==> b !in s.free && b !in Closed(s)
  {
  }

  lemma ThreeParts(a: set<nat>, b: set<nat>, c: set<nat>)
    requires a !! b && a !! c && b !! c
    ensures |a + b + c| == |a| + |b| + |c|
  {
    assert (a + b) !! c;
  }

  lemma {:induction false} SumAtLeast(line: seq<Counts>, n: nat, c: set<nat>, m: int)
    requires n <= |line| && m >= 0
    requires forall b :: 0 <= b < n ==> line[b].vpc >= 0
    requires forall b :: b in c ==> b < n && line[b].vpc >= m
    ensures SumVpc(line, n) >= m * |c|
  {
    if n == 0 {
      assert c == {};
    } else if n - 1 in c {
      SumAtLeast(line, n - 1, c - {n - 1}, m);
      assert m * |c| == m * |c - {n - 1}| + m;
    } else {
      SumAtLeast(line, n - 1, c, m);
    }
  }

  /** The emptiest closed line holds at most an even share of the mapped pages. */
  lemma EmptiestClosedLine(g: Params, s: State, m: int)
    requires Sound(g) && Core(g, s, {}, {}) && 0 <= m <= g.pgsPerLine
    requires forall b :: b in s.victims ==> b < |s.line| && m <= s.line[b].vpc
    ensures m * (g.ttLines - 2 - |s.free|) <= |MappedLpns(s.maptbl)|
  {
    hide Sound, Pages, LinePages, Filled, Maps, LineWith, BlkWith;
    CountersAddUp(g, s);
    ClosedLines(g, s);
    forall b | 0 <= b < |s.line| ensures s.line[b].vpc >= 0 { FreePagesOfLine(g, s, {}, {}, b); }
    SumAtLeast(s.line, |s.line|, Closed(s), m);
  }

  // ----- Flow control -----

  /** The host addresses LPNs below `hostLpns` only. */
  ghost predicate InHostRange(s: State, hostLpns: nat)
  {
    forall lpn :: 0 <= lpn < |s.maptbl| && s.maptbl[lpn].Some? ==> lpn < hostLpns
  }

  /** Enough over-provisioning: four lines more than the host's LPNs can fill. */
  ghost predicate Provisioned(g: Params, hostLpns: nat)
  {
    g.ttLines >= 5 && hostLpns < (g.ttLines - 4) * g.pgsPerLine
  }

  lemma HostRangeFits(g: Params, hostLpns: nat)
    requires Sound(g) && Provisioned(g, hostLpns)
    ensures hostLpns < g.ttPgs
  {
    LinesMakeUpTheDrive(g);
    LessTimes(g.ttLines - 4, g.ttLines, g.pgsPerLine);
  }

  /** The largest number of valid pages a victim can have: an even share of the host's LPNs. */
  function MaxCopies(g: Params, hostLpns: nat): nat
    requires g.ttLines >= 5
  {
    Quot(hostLpns, g.ttLines - 4)
  }

  /** An even share, rounded down. */
  lemma MaxCopiesIsShare(g: Params, hostLpns: nat)
    requires g.ttLines >= 5
    ensures MaxCopies(g, hostLpns) * (g.ttLines - 4) <= hostLpns < (MaxCopies(g, hostLpns) + 1) * (g.ttLines - 4)
  {
    QuotRem(hostLpns, g.ttLines - 4);
  }

  lemma MaxCopiesBelowLine(g: Params, hostLpns: nat)
    requires Provisioned(g, hostLpns)
    ensures MaxCopies(g, hostLpns) < g.pgsPerLine
  {
    QuotBound(hostLpns, g.ttLines - 4, g.pgsPerLine);
  }

  lemma AtMostMaxCopies(g: Params, hostLpns: nat, m: nat)
    requires Provisioned(g, hostLpns) && m * (g.ttLines - 4) <= hostLpns
    ensures m <= MaxCopies(g, hostLpns)
  {
    var k := g.ttLines - 4;
    QuotRem(hostLpns, k);
    LessTimes(hostLpns / k + 1, m + 1, k);
    assert (m + 1) * k == m * k + k;
  }

  /** `write_flow_control`. */
  datatype Flow = Flow(credits: nat, refill: nat)

  /** The invariant at every page boundary: the tables agree, and every credit is backed by
      a writable page beyond the two lines and two pages kept in reserve. */
  ghost predicate Inv(g: Params, hostLpns: nat, s: State, flow: Flow)
  {
    && Core(g, s, {}, {})
    && InHostRange(s, hostLpns)
    && 1 <= flow.credits <= g.pgsPerLine && 1 <= flow.refill <= g.pgsPerLine
    && Reserve(g, s, flow.credits)
  }

  /** The state between a page write and the flow-control check: the credit is spent and
      none may be left. */
  ghost predicate Spent(g: Params, hostLpns: nat, s: State, flow: Flow)
  {
    && Core(g, s, {}, {})
    && InHostRange(s, hostLpns)
    && flow.credits < g.pgsPerLine && 1 <= flow.refill <= g.pgsPerLine
    && Reserve(g, s, flow.credits)
  }

  ghost predicate Reserve(g: Params, s: State, credits: nat)
  {
    && s.uwp.blk < |s.line| && s.gwp.blk < |s.line|
    && Space(g, s) - credits >= 2 * g.pgsPerLine + 2
  }

  lemma MappedWithinHostRange(s: State, hostLpns: nat)
    requires InHostRange(s, hostLpns)
    ensures |MappedLpns(s.maptbl)| <= hostLpns
  {
    SubsetSize(MappedLpns(s.maptbl), Below(hostLpns));
  }

  /** With the reserve in place there is a free line whenever a pointer may need one. */
  lemma ReserveHoldsFreeLine(g: Params, s: State, credits: nat)
    requires Sound(g) && Core(g, s, {}, {}) && Reserve(g, s, credits)
    ensures s.free != []
    ensures |s.free| <= 2 || Space(g, s) >= 3 * g.pgsPerLine + 2
  {
    hide Sound, Core;
    LeftBounds(g, s, {}, {}, UserIo);
    LeftBounds(g, s, {}, {}, GcIo);
    LessTimes(2, |s.free|, g.pgsPerLine);
  }

  /** A line that `pqueue_peek` may return: no queued line has fewer valid pages. */
  ghost predicate LeastVictim(s: State, v: nat)
  {
    && v in s.victims && v < |s.line|
    && (forall b :: b in s.victims ==> b < |s.line| && s.line[v].vpc <= s.line[b].vpc)
  }

  /** `select_victim_line` declines: nothing is queued, or collection is not forced and even
      the emptiest queued line is more than an eighth valid. */
  ghost predicate NothingToCollect(g: Params, s: State, force: bool)
  {
    s.victims == {} || (!force && forall v: nat :: LeastVictim(s, v) ==> s.line[v].vpc > g.pgsPerLine / 8)
  }

  /** A collection that is not forced takes place if at most an eighth of the emptiest queued line is
      valid, a forced one whenever a line is queued. */
  lemma WorthCollecting(g: Params, s: State, v: nat)
    requires LeastVictim(s, v)
    ensures !NothingToCollect(g, s, false) <==> s.line[v].vpc * 8 <= g.pgsPerLine
    ensures !NothingToCollect(g, s, true)
  {
    forall u: nat | LeastVictim(s, u) ensures s.line[u].vpc == s.line[v].vpc {}
  }

  /** A collection can go through: there is nothing to collect, or room for any line that may be
      chosen. */
  ghost predicate Collectable(g: Params, s: State, force: bool)
  {
    NothingToCollect(g, s, force) || forall v: nat :: LeastVictim(s, v) ==> RoomFor(g, s, v)
  }

  /** What holds when the victim has left the heap and nothing is scanned yet. */
  lemma CollectionBegins(g: Params, s: State, v: nat, force: bool)
    requires Sound(g) && Core(g, s, {}, {}) && Collectable(g, s, force)
    requires LeastVictim(s, v) && !NothingToCollect(g, s, force)
    ensures v < |s.line| && s.line[v].ipc >= 0
    ensures Mid(g, s, s.(victims := s.victims - {v}), v, {}) && LineWith(s.page, PgValid, v) * {} == {}
  {
    hide Sound, Core, LinePages, Mid, NothingToCollect;
    GcBegins(g, s, v);
    VictimIsClosed(g, s, v);
  }

  /** When the credits are used up and free lines are scarce, a collection can be started. */
  lemma CollectionIsPossible(g: Params, hostLpns: nat, s: State, refill: nat)
    requires Sound(g) && Provisioned(g, hostLpns) && Spent(g, hostLpns, s, Flow(0, refill)) && |s.free| <= 2
    ensures Collectable(g, s, true) && !NothingToCollect(g, s, true) && Core(g, s, {}, {})
  {
    hide Sound, Core;
    ReserveHoldsFreeLine(g, s, 0);
    CollectionPaysOff(g, hostLpns, s, 0);
    forall v: nat | LeastVictim(s, v) ensures RoomFor(g, s, v) { FreeLineIsRoom(g, s, v); }
  }

  /** When collection is due (`should_gc_high`) there is a victim, and the emptiest one has
      at most `MaxCopies` valid pages, hence at least one invalid page. */
  lemma CollectionPaysOff(g: Params, hostLpns: nat, s: State, v: nat)
    requires Sound(g) && Provisioned(g, hostLpns) && Core(g, s, {}, {}) && InHostRange(s, hostLpns)
    requires |s.free| <= 2
    ensures s.victims != {}
    ensures LeastVictim(s, v) ==>
      0 <= s.line[v].vpc <= MaxCopies(g, hostLpns) < g.pgsPerLine && s.line[v].ipc == g.pgsPerLine - s.line[v].vpc
  {
    hide Sound, Core;
    MappedWithinHostRange(s, hostLpns);
    MaxCopiesBelowLine(g, hostLpns);
    PlaneAndLines(g);
    if s.victims == {} {
      EmptiestClosedLine(g, s, g.pgsPerLine);
      ShareBound(g.pgsPerLine, g.ttLines - 4, g.ttLines - 2 - |s.free|, hostLpns);
    }
    if LeastVictim(s, v) {
      VictimIsClosed(g, s, v);
      EmptiestClosedLine(g, s, s.line[v].vpc);
      ShareBound(s.line[v].vpc, g.ttLines - 4, g.ttLines - 2 - |s.free|, hostLpns);
      AtMostMaxCopies(g, hostLpns, s.line[v].vpc);
    }
  }

  lemma ShareBound(m: nat, k: nat, n: nat, l: nat)
    requires k <= n && m * n <= l
    ensures m * k <= l
  {
    assert m * k <= m * n;
  }

  // ----- One user page write, up to the flow-control check -----

  /** The state after `mark_page_invalid` on the old copy, if the LPN has one. */
  ghost function Superseded(g: Params, s: State, lpn: nat): State
    requires lpn < |s.maptbl|
    requires s.maptbl[lpn].Some? ==> s.maptbl[lpn].value.blk < |s.line| && BlkOf(s.maptbl[lpn].value) in s.block
  {
    match s.maptbl[lpn]
    case Some(p) => Invalidate(g, s, p)
    case None => s
  }

  /** Invalidating a page takes no space. */
  lemma InvalidateTakesNoSpace(g: Params, s: State, p: Ppa)
    requires p.blk < |s.line| && BlkOf(p) in s.block && s.gwp.blk < |s.line| && s.uwp.blk < |s.line|
    ensures Space(g, Invalidate(g, s, p)) == Space(g, s)
  {
  }

  lemma SupersededFacts(g: Params, s: State, lpn: nat)
    requires Sound(g) && Core(g, s, {}, {}) && lpn < |s.maptbl|
    ensures s.maptbl[lpn].Some? ==>
      var p := s.maptbl[lpn].value;
      p.blk < |s.line| && BlkOf(p) in s.block && p in s.page && s.page[p] == PgValid
    ensures var u := Superseded(g, s, lpn);
            && u.maptbl == s.maptbl && u.free == s.free && u.uwp == s.uwp && u.gwp == s.gwp && |u.line| == |s.line|
            && Core(g, Unmap(u, lpn), {}, {})
            && Shape(s) && Shape(Unmap(u, lpn)) && View(Unmap(u, lpn)) == View(s) - {lpn}
            && s.uwp.blk < |s.line| && s.gwp.blk < |s.line| && Space(g, u) == Space(g, s)
  {
    hide Sound, Tally, Roles, Fill, Maps, View;
    PageUnderPointer(g, s, {}, {}, UserIo);
    PageUnderPointer(g, s, {}, {}, GcIo);
    if s.maptbl[lpn].Some? {
      InvalidateKeepsCore(g, s, lpn);
      InvalidateTakesNoSpace(g, s, s.maptbl[lpn].value);
    } else {
      assert s.maptbl[lpn := None] == s.maptbl;
      assert Unmap(s, lpn) == s;
    }
    ForgetsOne(s, Unmap(Superseded(g, s, lpn), lpn), lpn);
  }

  lemma ForgetsOne(s: State, t: State, lpn: nat)
    requires Shape(s) && Shape(t) && lpn < |s.maptbl|
    requires t.maptbl == s.maptbl[lpn := None] && t.stamp == s.stamp
    ensures View(t) == View(s) - {lpn}
  {
  }

  /** The body of the write loop before flow control: the LPN reads as the new data, every
      other LPN as before, the tables agree, and one page of the reserve has been used. */
  lemma UserWriteKeepsCore(g: Params, hostLpns: nat, s: State, credits: nat, lpn: nat, data: int)
    requires Sound(g) && Core(g, s, {}, {}) && InHostRange(s, hostLpns) && Reserve(g, s, credits)
    requires lpn < hostLpns && lpn < |s.maptbl| && credits > 0
    ensures s.maptbl[lpn].Some? ==> s.maptbl[lpn].value.blk < |s.line| && BlkOf(s.maptbl[lpn].value) in s.block
    ensures CanWrite(g, Superseded(g, s, lpn), UserIo)
    ensures var t := Write(g, Superseded(g, s, lpn), UserIo, lpn, data);
            && Core(g, t, {}, {}) && InHostRange(t, hostLpns) && Reserve(g, t, credits - 1)
            && Shape(s) && Shape(t) && View(t) == View(s)[lpn := data]
  {
    hide Sound, Core, View, NextWp, CanWrite;
    SupersededFacts(g, s, lpn);
    var u := Superseded(g, s, lpn);
    ReserveHoldsFreeLine(g, s, credits);
    PlaneAndLines(g);
    WriteKeepsCore(g, Unmap(u, lpn), {}, {}, UserIo, lpn, data);
    CanWriteAnyway(g, u, lpn);
    WriteForgetsOldMapping(g, u, UserIo, lpn, data);
    ProgramTakesOnePage(g, Unmap(u, lpn), {}, {}, UserIo, lpn, data);
    var t := Write(g, u, UserIo, lpn, data);
    CoreHasShape(g, t, {}, {});
    PageUnderPointer(g, t, {}, {}, GcIo);
    WriteFrame(g, u, UserIo, lpn, data);
    TwoLines(g, Unmap(u, lpn), {}, {});
    assert View(s) - {lpn} == View(s) - {lpn};
    assert View(t) == (View(s) - {lpn})[lpn := data];
    assert (View(s) - {lpn})[lpn := data] == View(s)[lpn := data];
  }

  lemma TwoLines(g: Params, s: State, hole: set<nat>, moved: set<Ppa>)
    requires Core(g, s, hole, moved)
    ensures s.uwp.blk != s.gwp.blk
  {
  }

  lemma CanWriteAnyway(g: Params, u: State, lpn: nat)
    requires lpn < |u.maptbl| && CanWrite(g, Unmap(u, lpn), UserIo)
    ensures CanWrite(g, u, UserIo)
  {
    hide NextWp;
  }

  /** A user write leaves the collector's pointer alone and maps one LPN. */
  lemma WriteFrame(g: Params, u: State, io: IoType, lpn: nat, data: int)
    requires lpn < |u.maptbl| && CanWrite(g, u, io)
    ensures var t := Write(g, u, io, lpn, data);
            && t.maptbl == u.maptbl[lpn := Some(PageAt(WpFor(u, io)))]
            && (io == UserIo ==> t.gwp == u.gwp) && (io == GcIo ==> t.uwp == u.uwp)
  {
    hide NextWp;
  }

  /** The page write spends one credit and keeps everything else of the invariant. */
  lemma UserWriteSpends(g: Params, hostLpns: nat, s: State, flow: Flow, lpn: nat, data: int)
    requires Sound(g) && Provisioned(g, hostLpns) && Inv(g, hostLpns, s, flow) && lpn < hostLpns
    ensures lpn < |s.maptbl| == g.ttPgs && Core(g, s, {}, {}) && flow.credits > 0
    ensures g.pgsPerOneshotpg > 0
    ensures s.maptbl[lpn].Some? ==> s.maptbl[lpn].value.blk < |s.line| && BlkOf(s.maptbl[lpn].value) in s.block
    ensures var u := Superseded(g, s, lpn);
            |u.maptbl| == |s.maptbl| && CanWrite(g, u, UserIo) && Core(g, Unmap(u, lpn), {}, {})
    ensures var t := Write(g, Superseded(g, s, lpn), UserIo, lpn, data);
            && Spent(g, hostLpns, t, Flow(flow.credits - 1, flow.refill))
            && Shape(s) && Shape(t) && View(t) == View(s)[lpn := data]
            && OnePageOn(g, s.uwp, t.uwp)
  {
    hide Sound, View, Write, Superseded, CanWrite, Reserve, Unmap, Shape, Tally, Roles, Fill, Maps;
    PlaneAndLines(g);
    HostRangeFits(g, hostLpns);
    SupersededFacts(g, s, lpn);
    UserWriteKeepsCore(g, hostLpns, s, flow.credits, lpn, data);
    PageUnderPointer(g, s, {}, {}, UserIo);
    UserPointerMovesOn(g, Superseded(g, s, lpn), lpn, data);
  }

  lemma UserPointerMovesOn(g: Params, u: State, lpn: nat, data: int)
    requires Sound(g) && lpn < |u.maptbl| && CanWrite(g, u, UserIo) && ValidWp(g, u.uwp)
    ensures g.pgsPerOneshotpg > 0 && OnePageOn(g, u.uwp, Write(g, u, UserIo, lpn, data).uwp)
  {
    hide Sound;
    var os, w := g.pgsPerOneshotpg, u.uwp;
    StepPage(w.pg, os);
    QuotRemIs(0, 0, 0, os);
    if (w.pg + 1) % os == 0 {
      WholeRow(w.pg + 1, os);
    }
  }

  lemma WholeRow(pg: nat, os: nat)
    requires os > 0 && pg % os == 0 && pg >= os
    ensures (pg - os) % os == 0 && (pg - os + os) % os == 0
  {
    QuotRem(pg, os);
    assert (pg / os - 1) * os == pg / os * os - os;
    QuotRemIs(pg - os, pg / os - 1, 0, os);
  }

  // ----- Refilling the credits -----

  /** `gc_thres_lines_high` of `conv_init_params`. */
  const GC_THRES_LINES_HIGH: nat := 2

  lemma SameMapping(s: State, t: State, hostLpns: nat)
    requires Shape(s) && Shape(t) && View(t) == View(s) && InHostRange(s, hostLpns)
    ensures InHostRange(t, hostLpns)
  {
    forall lpn | 0 <= lpn < |t.maptbl| && t.maptbl[lpn].Some? ensures lpn < hostLpns {
      assert lpn in View(t);
    }
  }

  /** Three free lines or more: the old refill is still backed by pages. */
  lemma RefillWithoutCollection(g: Params, hostLpns: nat, s: State, refill: nat)
    requires Sound(g) && Spent(g, hostLpns, s, Flow(0, refill)) && |s.free| > GC_THRES_LINES_HIGH
    ensures Inv(g, hostLpns, s, Flow(refill, refill))
  {
    hide Sound, Core;
    ReserveHoldsFreeLine(g, s, 0);
  }

  /** A collection pays for the refill it grants: the reserve is as large as before. */
  lemma RefillAfterCollection(g: Params, hostLpns: nat, s: State, oldRefill: nat, t: State, v: nat, refill: nat,
                              copies: int)
    requires Sound(g) && Provisioned(g, hostLpns)
    requires Spent(g, hostLpns, s, Flow(0, oldRefill)) && |s.free| <= GC_THRES_LINES_HIGH
    requires Core(g, t, {}, {}) && Collected(g, s, t, v, refill, copies)
    ensures Inv(g, hostLpns, t, Flow(refill, refill))
    ensures 0 <= copies <= MaxCopies(g, hostLpns) && refill >= g.pgsPerLine - MaxCopies(g, hostLpns)
    ensures Shape(s) && Shape(t) && View(t) == View(s) && t.uwp == s.uwp
  {
    hide Sound, Core, View, LinePages;
    assert LeastVictim(s, v);
    CollectionPaysOff(g, hostLpns, s, v);
    SameMapping(s, t, hostLpns);
  }

  // ----- Write amplification -----

  /** Totals since the drive was set up. */
  datatype Ledger = Ledger(userWrites: nat, gcRuns: nat, gcCopies: nat, refilled: nat)

  /** Credits account for every user write; each collection copied at most `MaxCopies` pages
      and granted the rest of a line. */
  ghost predicate Balanced(g: Params, hostLpns: nat, credits: nat, l: Ledger)
  {
    && g.ttLines >= 5 && MaxCopies(g, hostLpns) < g.pgsPerLine
    && credits + l.userWrites == g.pgsPerLine + l.refilled
    && l.gcRuns * (g.pgsPerLine - MaxCopies(g, hostLpns)) <= l.refilled
    && l.gcCopies <= MaxCopies(g, hostLpns) * l.gcRuns
  }

  /** Over any run: copies : user writes is at most V : P - V, where V is the largest number
      of valid pages a victim can have. */
  lemma WriteAmplification(g: Params, hostLpns: nat, credits: nat, l: Ledger)
    requires Balanced(g, hostLpns, credits, l) && credits <= g.pgsPerLine
    ensures l.gcCopies * (g.pgsPerLine - MaxCopies(g, hostLpns)) <= MaxCopies(g, hostLpns) * l.userWrites
  {
    var v := MaxCopies(g, hostLpns);
    var k := g.pgsPerLine - v;
    ScaleUp(l.gcCopies, v * l.gcRuns, k);
    assert (v * l.gcRuns) * k == v * (l.gcRuns * k) by { Commute(v, l.gcRuns, k); }
    ScaleUp(l.gcRuns * k, l.userWrites, v);
  }

  lemma ScaleUp(a: nat, b: nat, k: nat)
    requires a <= b
    ensures a * k <= b * k && k * a <= k * b
  {
  }

  lemma BalancedAfterWrite(g: Params, hostLpns: nat, credits: nat, l: Ledger)
    requires Balanced(g, hostLpns, credits, l) && credits > 0
    ensures Balanced(g, hostLpns, credits - 1, l.(userWrites := l.userWrites + 1))
  {
  }

  lemma BalancedAfterRefill(g: Params, hostLpns: nat, l: Ledger, refill: nat)
    requires Balanced(g, hostLpns, 0, l)
    ensures Balanced(g, hostLpns, refill, l.(refilled := l.refilled + refill))
  {
  }

  lemma BalancedAfterCollection(g: Params, hostLpns: nat, l: Ledger, refill: nat, copies: nat)
    requires Balanced(g, hostLpns, 0, l) && copies <= MaxCopies(g, hostLpns)
    requires refill >= g.pgsPerLine - MaxCopies(g, hostLpns)
    ensures Balanced(g, hostLpns, refill,
              Ledger(l.userWrites, l.gcRuns + 1, l.gcCopies + copies, l.refilled + refill))
  {
    var v := MaxCopies(g, hostLpns);
    assert (l.gcRuns + 1) * (g.pgsPerLine - v) == l.gcRuns * (g.pgsPerLine - v) + (g.pgsPerLine - v);
    assert v * (l.gcRuns + 1) == v * l.gcRuns + v;
  }

  // ----- The empty drive -----

  /** `ssd_init`: every page is free and no block counts any page. */
  function ErasedPages(g: Params): map<Ppa, PgStatus> {
    map p | p in Pages(g) :: PgFree
  }

  function ErasedBlocks(g: Params): map<Blk, Counts> {
    map p | p in Pages(g) :: BlkOf(p) := Counts(0, 0)
  }

  /** The state `conv_init_ftl` builds: line 0 for the user, line 1 for collection. */
  ghost function Fresh(g: Params): State
    requires g.ttLines >= 2
  {
    State(seq(g.ttPgs, i => None), map p | p in Pages(g) :: None, map p | p in Pages(g) :: 0,
        ErasedPages(g), ErasedBlocks(g), seq(g.ttLines, i => Counts(0, 0)),
        seq(g.ttLines - 2, i => i + 2), [], {}, StartWp(0), StartWp(1))
  }

  lemma FreshCounts(g: Params)
    requires Sound(g) && g.ttLines >= 2
    ensures var s := Fresh(g); Tally(g, s.page, s.block, s.line, {}) && Live(s.page, {}) == {}
  {
    hide Sound, Pages;
    var s := Fresh(g);
    assert forall st, b :: st != PgFree ==> LineWith(s.page, st, b) == {};
    assert forall st, k :: st != PgFree ==> BlkWith(s.page, st, k) == {};
  }

  lemma FreshRoles(g: Params)
    requires g.ttLines >= 2
    ensures var s := Fresh(g); Roles(g, s.free, s.full, s.victims, 0, 1, {})
    ensures forall b :: b in Fresh(g).free <==> 2 <= b < g.ttLines
  {
    hide Pages;
    var s := Fresh(g);
    forall b: nat | 2 <= b < g.ttLines ensures b in s.free { assert s.free[b - 2] == b; }
  }

  lemma FreshFill(g: Params)
    requires Sound(g) && g.ttLines >= 2
    ensures Fill(g, Fresh(g))
  {
    hide Sound, Pages, LinePages, Filled;
    var s := Fresh(g);
    PlaneAndLines(g);
    StartFilled(g, 0);
    StartFilled(g, 1);
    FreshRoles(g);
    forall b: nat | b < g.ttLines ensures LineWith(s.page, PgFree, b) == LinePages(g, b) {
      forall p ensures p in LinePages(g, b) <==> p in LineWith(s.page, PgFree, b) { LineMember(g, s.page, b, p); }
    }
  }

  lemma FreshIsSound(g: Params, hostLpns: nat)
    requires Sound(g) && Provisioned(g, hostLpns)
    ensures Inv(g, hostLpns, Fresh(g), Flow(g.pgsPerLine, g.pgsPerLine))
    ensures Shape(Fresh(g)) && View(Fresh(g)) == map[]
  {
    hide Sound, Pages, Tally, Fill, Roles;
    PlaneAndLines(g);
    FreshCounts(g);
    FreshRoles(g);
    FreshFill(g);
    LessTimes(2, g.ttLines - 2, g.pgsPerLine);
    assert 3 * g.pgsPerLine <= (g.ttLines - 2) * g.pgsPerLine;
  }
}
