/** Every primitive operation of the FTL keeps the invariant `Core`. */
module FtlInvariant {
  import opened Wrappers
  import opened IdLists
  import opened Geometry
  import opened Traversal
  import opened FtlState

  // ----- Lists of lines -----

  lemma {:induction false} WithoutRemoves(q: seq<nat>, x: nat)
    requires NoDup(q)
    ensures NoDup(Without(q, x))
    ensures forall y :: y in Without(q, x) <==> y in q && y != x
    ensures |Without(q, x)| == |q| - (if x in q then 1 else 0)
  {
    if q != [] {
      var r := q[1..];
      assert forall y :: y in q <==> y == q[0] || y in r;
      assert q[0] !in r;
      WithoutRemoves(r, x);
      if q[0] != x {
        var w := Without(r, x);
        assert Without(q, x) == [q[0]] + w;
        assert forall y :: y in [q[0]] + w <==> y == q[0] || y in w;
      }
    }
  }

  // ----- Consequences of the invariant -----

  /** The page under a write pointer is free, valid and not in a line being collected. */
  lemma PageUnderPointer(g: Params, s: State, hole: set<nat>, moved: set<Ppa>, io: IoType)
    requires Sound(g) && Core(g, s, hole, moved)
    ensures var w := WpFor(s, io); var p := PageAt(w);
            && ValidWp(g, w) && ValidPpa(g, p) && p in s.page && s.page[p] == PgFree
            && w.blk < |s.line| && w.blk !in hole && BlkOf(p) in s.block
  {
    hide Pages, LinePages, Filled;
    AdvanceFills(g, WpFor(s, io));
    assert PageAt(WpFor(s, io)) in LineWith(s.page, PgFree, WpFor(s, io).blk);
    PagesAreValid(g, PageAt(WpFor(s, io)));
  }

  /** Of a line outside `hole`, the pages that are neither valid nor invalid are free. */
  lemma FreePagesOfLine(g: Params, s: State, hole: set<nat>, moved: set<Ppa>, b: nat)
    requires Sound(g) && Core(g, s, hole, moved) && b < g.ttLines && b !in hole
    ensures s.line[b].ipc >= 0 && s.line[b].vpc >= 0
    ensures s.line[b].ipc + s.line[b].vpc + |LineWith(s.page, PgFree, b)| == g.pgsPerLine
  {
    hide Sound, Pages;
    LineSplits(g, s.page, b);
  }

  /** A line all of whose pages are valid is in the full list. */
  lemma FullLineIsListed(g: Params, s: State, hole: set<nat>, moved: set<Ppa>, b: nat)
    requires Sound(g) && Core(g, s, hole, moved) && b < g.ttLines && b !in hole && s.line[b].vpc == g.pgsPerLine
    ensures b in s.full && s.line[b].ipc == 0
  {
    hide Sound, Pages, LinePages, Filled, Tally;
    FreePagesOfLine(g, s, hole, moved, b);
    PageUnderPointer(g, s, hole, moved, UserIo);
    PageUnderPointer(g, s, hole, moved, GcIo);
    assert LineWith(s.page, PgFree, b) == {};
    if b == s.uwp.blk { assert PageAt(s.uwp) in LineWith(s.page, PgFree, b); }
    if b == s.gwp.blk { assert PageAt(s.gwp) in LineWith(s.page, PgFree, b); }
    PlaneAndLines(g);
    LineSize(g, b);
  }

  /** What the asserts of `mark_page_invalid` check. */
  lemma InvalidateAsserts(g: Params, s: State, p: Ppa)
    requires Sound(g) && Core(g, s, {}, {}) && p in s.page && s.page[p] == PgValid
    ensures p.blk < |s.line| && BlkOf(p) in s.block
    ensures 0 <= s.block[BlkOf(p)].ipc < g.pgsPerBlk && 0 < s.block[BlkOf(p)].vpc <= g.pgsPerBlk
    ensures 0 <= s.line[p.blk].ipc < g.pgsPerLine && 0 < s.line[p.blk].vpc <= g.pgsPerLine
    ensures s.line[p.blk].vpc == g.pgsPerLine ==> s.line[p.blk].ipc == 0 && p.blk in s.full
    ensures p.blk in s.victims ==> s.line[p.blk].vpc < g.pgsPerLine
  {
    hide Sound, Pages, LinePages, Filled;
    PagesAreValid(g, p);
    PlaneAndLines(g);
    FreePagesOfLine(g, s, {}, {}, p.blk);
    BlkSplits(g, s.page, BlkOf(p));
    assert p in LineWith(s.page, PgValid, p.blk);
    assert p in BlkWith(s.page, PgValid, BlkOf(p));
    if s.line[p.blk].vpc == g.pgsPerLine { FullLineIsListed(g, s, {}, {}, p.blk); }
  }

  // ----- Invalidating the old copy of an LPN -----

  lemma InvalidateKeepsRoles(g: Params, s: State, p: Ppa)
    requires Sound(g) && Core(g, s, {}, {}) && p in s.page && s.page[p] == PgValid
    requires p.blk < |s.line| && BlkOf(p) in s.block
    ensures var t := Invalidate(g, s, p); Roles(g, t.free, t.full, t.victims, t.uwp.blk, t.gwp.blk, {})
  {
    hide Sound, Pages, LinePages, Filled, Tally, Maps, Fill;
    InvalidateAsserts(g, s, p);
    WithoutRemoves(s.full, p.blk);
  }

  lemma InvalidateKeepsFill(g: Params, s: State, p: Ppa)
    requires Sound(g) && Core(g, s, {}, {}) && p in s.page && s.page[p] == PgValid
    requires p.blk < |s.line| && BlkOf(p) in s.block
    ensures Fill(g, Invalidate(g, s, p))
  {
    hide Sound, Pages, LinePages, Filled, Tally, Maps, LineWith, NextWp;
    InvalidateAsserts(g, s, p);
    WithoutRemoves(s.full, p.blk);
    var t := Invalidate(g, s, p);
    forall b ensures LineWith(t.page, PgFree, b) == LineWith(s.page, PgFree, b) {
      LineWithUpdate(s.page, p, PgInvalid, PgFree, b);
      NotFree(s.page, p, b);
    }
  }

  lemma NotFree(page: map<Ppa, PgStatus>, p: Ppa, b: nat)
    requires p in page && page[p] != PgFree
    ensures p !in LineWith(page, PgFree, b)
    ensures LineWith(page, PgFree, b) - {p} == LineWith(page, PgFree, b)
  {
  }

  /** An LPN and its page leave the mapping together. */
  lemma MapsDrop(maptbl: seq<Option<Ppa>>, rmap: map<Ppa, Option<nat>>, live: set<Ppa>, lpn: nat)
    requires Maps(maptbl, rmap, live) && lpn < |maptbl| && maptbl[lpn].Some?
    ensures var p := maptbl[lpn].value;
            && p in live
            && Maps(maptbl[lpn := None], rmap, live - {p})
            && Maps(maptbl[lpn := None], rmap[p := None], live - {p})
  {
  }

  /** An LPN and a page join the mapping together. */
  lemma MapsAdd(maptbl: seq<Option<Ppa>>, rmap: map<Ppa, Option<nat>>, live: set<Ppa>, lpn: nat, p: Ppa)
    requires Maps(maptbl, rmap, live) && lpn < |maptbl| && maptbl[lpn].None? && p !in live
    ensures Maps(maptbl[lpn := Some(p)], rmap[p := Some(lpn)], live + {p})
  {
  }

  /** Overwriting, first half: the old copy becomes invalid and, were the LPN unmapped
      at this point, every table would agree. */
  lemma InvalidateKeepsCore(g: Params, s: State, lpn: nat)
    requires Sound(g) && Core(g, s, {}, {}) && lpn < |s.maptbl| && s.maptbl[lpn].Some?
    ensures var p := s.maptbl[lpn].value;
            && p.blk < |s.line| && BlkOf(p) in s.block && p in s.page && s.page[p] == PgValid
            && Core(g, Unmap(Invalidate(g, s, p), lpn), {}, {})
  {
    hide Sound, Pages, LinePages, Filled, Fill, Roles, Maps, Tally, LineWith;
    MapsDrop(s.maptbl, s.rmap, Live(s.page, {}), lpn);
    var p := s.maptbl[lpn].value;
    InvalidateAsserts(g, s, p);
    InvalidateKeepsRoles(g, s, p);
    InvalidateKeepsFill(g, s, p);
    var t := Unmap(Invalidate(g, s, p), lpn);
    TallyStep(g, s.page, s.block, s.line, {}, p, PgInvalid);
    SameFill(g, Invalidate(g, s, p), t);
    assert Live(t.page, {}) == Live(s.page, {}) - {p};
  }

  /** `Fill` does not look at the mapping tables. */
  lemma SameFill(g: Params, s: State, t: State)
    requires Fill(g, s)
    requires t == s.(maptbl := t.maptbl, rmap := t.rmap, stamp := t.stamp, block := t.block)
    ensures Fill(g, t)
  {
    hide LinePages, Filled, LineWith;
  }

  // ----- Writing the page under a pointer, and moving the pointer on -----

  /** After programming, the pointer's line has one free page less; other lines keep theirs. */
  lemma ProgramFreePages(g: Params, s: State, hole: set<nat>, moved: set<Ppa>, io: IoType, lpn: nat, data: int)
    requires Sound(g) && Core(g, s, hole, moved) && lpn < |s.maptbl|
    requires WpFor(s, io).blk < |s.line| && BlkOf(PageAt(WpFor(s, io))) in s.block
    ensures var w := WpFor(s, io); var t := Program(s, io, lpn, data);
            && (forall b :: b != w.blk ==> LineWith(t.page, PgFree, b) == LineWith(s.page, PgFree, b))
            && LineWith(t.page, PgFree, w.blk) == LinePages(g, w.blk) - (Filled(g, w) + {PageAt(w)})
            && Tally(g, t.page, t.block, t.line, hole)
            && 0 <= t.line[w.blk].ipc && t.line[w.blk].vpc <= g.pgsPerLine
  {
    hide Sound, Pages, LinePages, Filled, Tally, Maps, LineWith;
    PageUnderPointer(g, s, hole, moved, io);
    var w, t := WpFor(s, io), Program(s, io, lpn, data);
    var p := PageAt(w);
    forall b ensures LineWith(t.page, PgFree, b) ==
                     if b == w.blk then LineWith(s.page, PgFree, b) - {p} else LineWith(s.page, PgFree, b)
    {
      LineWithUpdate(s.page, p, PgValid, PgFree, b);
    }
    TallyStep(g, s.page, s.block, s.line, hole, p, PgValid);
    LineCountBound(g, t.page, t.block, t.line, hole, w.blk);
  }

  lemma LineCountBound(g: Params, page: map<Ppa, PgStatus>, block: map<Blk, Counts>, line: seq<Counts>,
                       hole: set<nat>, b: nat)
    requires Sound(g) && Tally(g, page, block, line, hole) && b < g.ttLines && b !in hole
    ensures 0 <= line[b].ipc && 0 <= line[b].vpc
    ensures line[b].ipc + line[b].vpc + |LineWith(page, PgFree, b)| == g.pgsPerLine
  {
    hide Sound, Pages;
    LineSplits(g, page, b);
  }

  lemma StepKeepsFill(g: Params, s: State, hole: set<nat>, moved: set<Ppa>, io: IoType, lpn: nat, data: int)
    requires Sound(g) && Core(g, s, hole, moved) && lpn < |s.maptbl|
    requires WpFor(s, io).blk < |s.line| && BlkOf(PageAt(WpFor(s, io))) in s.block
    requires NextWp(g, WpFor(s, io)).Some?
    ensures Fill(g, Advance(g, Program(s, io, lpn, data), io))
  {
    hide Sound, Pages, LinePages, Filled, Tally, Maps, LineWith, NextWp;
    var w, t := WpFor(s, io), Program(s, io, lpn, data);
    ProgramFreePages(g, s, hole, moved, io, lpn, data);
    AdvanceFills(g, w);
  }

  lemma TurnKeepsRoles(g: Params, s: State, t: State, hole: set<nat>, io: IoType)
    requires Roles(g, s.free, s.full, s.victims, s.uwp.blk, s.gwp.blk, hole) && s.free != []
    requires var b := WpFor(s, io).blk;
      || t == SetWp(s.(full := s.full + [b], free := s.free[1..]), io, StartWp(s.free[0]))
      || t == SetWp(s.(victims := s.victims + {b}, free := s.free[1..]), io, StartWp(s.free[0]))
    ensures Roles(g, t.free, t.full, t.victims, t.uwp.blk, t.gwp.blk, hole)
  {
    var f := s.free[0];
    assert f in s.free;
    assert forall b :: b in s.free <==> b == f || b in t.free;
    assert f !in t.free;
  }

  /** In `t` the last page of the line has been written; otherwise it is as `s`. */
  lemma TurnFills(g: Params, s: State, t: State, hole: set<nat>, io: IoType)
    requires Fill(g, s) && Roles(g, s.free, s.full, s.victims, s.uwp.blk, s.gwp.blk, hole) && s.free != []
    requires t.free == s.free && t.full == s.full && t.victims == s.victims && t.uwp == s.uwp && t.gwp == s.gwp
    requires |t.line| == |s.line| && forall b :: 0 <= b < |s.line| && b != WpFor(s, io).blk ==> t.line[b] == s.line[b]
    requires forall b :: b != WpFor(s, io).blk ==> LineWith(t.page, PgFree, b) == LineWith(s.page, PgFree, b)
    requires LineWith(t.page, PgFree, WpFor(s, io).blk) == {} && t.line[WpFor(s, io).blk].vpc <= g.pgsPerLine
    requires NextWp(g, WpFor(s, io)).None?
    requires ValidWp(g, StartWp(s.free[0])) && Filled(g, StartWp(s.free[0])) == {}
    ensures Fill(g, Advance(g, t, io))
  {
    hide LinePages, Filled, LineWith, NextWp, ValidWp;
    var r := Advance(g, t, io);
    assert s.free[0] in s.free;
    assert forall b :: b in r.free ==> b in s.free;
    assert forall b :: b in r.full ==> b in s.full || b == WpFor(s, io).blk;
  }

  lemma TurnKeepsFill(g: Params, s: State, hole: set<nat>, moved: set<Ppa>, io: IoType, lpn: nat, data: int)
    requires Sound(g) && Core(g, s, hole, moved) && lpn < |s.maptbl|
    requires WpFor(s, io).blk < |s.line| && BlkOf(PageAt(WpFor(s, io))) in s.block
    requires NextWp(g, WpFor(s, io)).None? && s.free != []
    ensures Fill(g, Advance(g, Program(s, io, lpn, data), io))
  {
    hide Sound, Pages, LinePages, Filled, Tally, Maps, LineWith, NextWp, ValidWp, Advance;
    var w, t := WpFor(s, io), Program(s, io, lpn, data);
    ProgramFreePages(g, s, hole, moved, io, lpn, data);
    AdvanceFills(g, w);
    assert s.free[0] in s.free;
    PlaneAndLines(g);
    StartFilled(g, s.free[0]);
    assert LineWith(t.page, PgFree, w.blk) == {};
    TurnFills(g, s, t, hole, io);
  }

  /** Programming maps the LPN to the page under the pointer, and nothing else. */
  lemma ProgramMaps(g: Params, s: State, hole: set<nat>, moved: set<Ppa>, io: IoType, lpn: nat, data: int)
    requires Sound(g) && Core(g, s, hole, moved) && lpn < |s.maptbl| && s.maptbl[lpn].None?
    requires WpFor(s, io).blk < |s.line| && BlkOf(PageAt(WpFor(s, io))) in s.block
    requires forall p :: p in moved ==> p.blk in hole
    ensures var t := Program(s, io, lpn, data);
            && Shape(t) && Maps(t.maptbl, t.rmap, Live(t.page, moved)) && View(t) == View(s)[lpn := data]
  {
    hide Sound, Pages, LinePages, Filled, Tally, LineWith, NextWp, ValidWp, Fill, Roles, Maps;
    PageUnderPointer(g, s, hole, moved, io);
    var t := Program(s, io, lpn, data);
    var p := PageAt(WpFor(s, io));
    assert p !in Live(s.page, moved);
    MapsAdd(s.maptbl, s.rmap, Live(s.page, moved), lpn, p);
    assert Live(t.page, moved) == Live(s.page, moved) + {p};
    ReadsAfter(s.maptbl, s.stamp, s.rmap, Live(s.page, moved), lpn, p, data);
  }

  lemma ReadsAfter(maptbl: seq<Option<Ppa>>, stamp: map<Ppa, int>, rmap: map<Ppa, Option<nat>>, live: set<Ppa>,
                   lpn: nat, p: Ppa, data: int)
    requires Covers(stamp, maptbl) && lpn < |maptbl| && Maps(maptbl, rmap, live) && p !in live
    ensures Covers(stamp[p := data], maptbl[lpn := Some(p)])
    ensures Reads(maptbl[lpn := Some(p)], stamp[p := data]) == Reads(maptbl, stamp)[lpn := data]
  {
  }

  /** Writing, second half: programming the page under the pointer for an unmapped LPN and
      advancing the pointer keeps every table in agreement, also in the middle of a
      garbage collection. */
  lemma WriteKeepsCore(g: Params, s: State, hole: set<nat>, moved: set<Ppa>, io: IoType, lpn: nat, data: int)
    requires Sound(g) && Core(g, s, hole, moved) && lpn < |s.maptbl| && s.maptbl[lpn].None?
    requires NextWp.requires(g, WpFor(s, io)) && (NextWp(g, WpFor(s, io)).None? ==> s.free != [])
    requires forall p :: p in moved ==> p.blk in hole
    ensures CanWrite(g, s, io)
    ensures Core(g, Write(g, s, io, lpn, data), hole, moved)
    ensures View(Write(g, s, io, lpn, data)) == View(s)[lpn := data]
    ensures forall q :: q in s.page && q.blk != WpFor(s, io).blk ==> Write(g, s, io, lpn, data).page[q] == s.page[q]
  {
    hide Sound, Pages, LinePages, Filled, Tally, LineWith, NextWp, ValidWp, Fill, Roles, Maps, Live;
    PlaneAndLines(g);
    PageUnderPointer(g, s, hole, moved, io);
    var t := Program(s, io, lpn, data);
    var r := Advance(g, t, io);
    ProgramFreePages(g, s, hole, moved, io, lpn, data);
    ProgramMaps(g, s, hole, moved, io, lpn, data);
    if NextWp(g, WpFor(s, io)).Some? {
      StepKeepsFill(g, s, hole, moved, io, lpn, data);
      AdvanceFills(g, WpFor(s, io));
    } else {
      TurnKeepsFill(g, s, hole, moved, io, lpn, data);
      TurnKeepsRoles(g, t, r, hole, io);
    }
    assert View(r) == View(t);
  }
}
