/** Garbage collection of one victim line (`do_gc`, conv_ftl.c), as steps on the value. */
module FtlGc {
  import opened Wrappers
  import opened IdLists
  import opened Geometry
  import opened Traversal
  import opened FtlState
  import opened FtlInvariant

  // ----- Space -----

  /** Pages of a line that have not been written since its last erase. */
  function Left(g: Params, s: State, b: nat): int
    requires b < |s.line|
  {
    g.pgsPerLine - s.line[b].ipc - s.line[b].vpc
  }

  /** Pages that garbage collection can write: the free lines and the rest of the GC line. */
  ghost function Room(g: Params, s: State): int
    requires s.gwp.blk < |s.line|
  {
    Times(|s.free|, g.pgsPerLine) + Left(g, s, s.gwp.blk)
  }

  /** All the pages that can be written before the next erase. */
  ghost function Space(g: Params, s: State): int
    requires s.gwp.blk < |s.line| && s.uwp.blk < |s.line|
  {
    Room(g, s) + Left(g, s, s.uwp.blk)
  }

  /** The write pointers' lines always have a page left, and never more than a line. */
  lemma LeftBounds(g: Params, s: State, hole: set<nat>, moved: set<Ppa>, io: IoType)
    requires Sound(g) && Core(g, s, hole, moved)
    ensures WpFor(s, io).blk < |s.line| && 1 <= Left(g, s, WpFor(s, io).blk) <= g.pgsPerLine
    ensures NextWp.requires(g, WpFor(s, io))
    ensures NextWp(g, WpFor(s, io)).None? ==> Left(g, s, WpFor(s, io).blk) == 1
  {
    hide Sound, Pages, LinePages, Filled, Maps, NextWp;
    var w := WpFor(s, io);
    PlaneAndLines(g);
    PageUnderPointer(g, s, hole, moved, io);
    FreePagesOfLine(g, s, hole, moved, w.blk);
    AdvanceFills(g, w);
    var f := LineWith(s.page, PgFree, w.blk);
    assert PageAt(w) in f;
    SubsetSize({PageAt(w)}, f);
    if NextWp(g, w).None? {
      assert f == {PageAt(w)};
    }
  }

  /** What the asserts of `mark_page_valid` and `advance_write_pointer` check. */
  lemma WriteAsserts(g: Params, s: State, hole: set<nat>, moved: set<Ppa>, io: IoType)
    requires Sound(g) && Core(g, s, hole, moved)
    ensures var w := WpFor(s, io); var p := PageAt(w);
            && ValidWp(g, w) && ValidPpa(g, p) && p in s.page && s.page[p] == PgFree
            && BlkOf(p) in s.block && p.blk < |s.line| && w.blk !in s.victims
            && 0 <= s.block[BlkOf(p)].vpc < g.pgsPerBlk
            && 0 <= s.line[p.blk].vpc < g.pgsPerLine && 0 <= s.line[p.blk].ipc
            && g.pgsPerOneshotpg > 0
            && (NextWp(g, w).None? ==> s.line[w.blk].ipc + s.line[w.blk].vpc + 1 == g.pgsPerLine)
  {
    hide Sound, Pages, LinePages, Filled, Maps, NextWp;
    var p := PageAt(WpFor(s, io));
    PlaneAndLines(g);
    PageUnderPointer(g, s, hole, moved, io);
    LeftBounds(g, s, hole, moved, io);
    FreePagesOfLine(g, s, hole, moved, p.blk);
    BlkSplits(g, s.page, BlkOf(p));
    assert p in BlkWith(s.page, PgFree, BlkOf(p));
  }

  /** The two halves of a page write meet: what the first needs holds, and after it what the
      second needs. */
  lemma WriteHalves(g: Params, s: State, hole: set<nat>, moved: set<Ppa>, io: IoType, lpn: nat, data: int)
    requires Sound(g) && lpn < |s.maptbl| && CanWrite(g, s, io) && Core(g, Unmap(s, lpn), hole, moved)
    ensures var p := PageAt(WpFor(s, io));
            && ValidPpa(g, p) && p in s.page && s.page[p] == PgFree && BlkOf(p) in s.block && p.blk < |s.line|
            && 0 <= s.block[BlkOf(p)].vpc < g.pgsPerBlk && 0 <= s.line[p.blk].vpc < g.pgsPerLine && p.blk !in s.victims
    ensures var t := Program(s, io, lpn, data); var w := WpFor(t, io);
            && CanWrite(g, t, io) && ValidWp(g, w) && Write(g, s, io, lpn, data) == Advance(g, t, io)
            && (NextWp(g, w).None? ==>
                  && w.blk !in t.victims && 0 <= t.line[w.blk].vpc && 0 <= t.line[w.blk].ipc
                  && t.line[w.blk].ipc + t.line[w.blk].vpc == g.pgsPerLine)
  {
    hide Sound, Core, NextWp;
    WriteAsserts(g, Unmap(s, lpn), hole, moved, io);
  }

  /** A free line counts no pages, valid or invalid. */
  lemma FreeLineIsEmpty(g: Params, s: State, hole: set<nat>, moved: set<Ppa>, b: nat)
    requires Sound(g) && Core(g, s, hole, moved) && b in s.free
    ensures b < |s.line| && s.line[b] == Counts(0, 0) && Left(g, s, b) == g.pgsPerLine
    ensures b != s.uwp.blk && b != s.gwp.blk
  {
    hide Sound, Pages, LinePages, Filled, Maps;
    FreePagesOfLine(g, s, hole, moved, b);
    LineSize(g, b);
  }

  /** One page is written: one page less of space, whether or not the line turns over. */
  lemma ProgramTakesOnePage(g: Params, s: State, hole: set<nat>, moved: set<Ppa>, io: IoType, lpn: nat, data: int)
    requires Sound(g) && Core(g, s, hole, moved) && lpn < |s.maptbl|
    requires CanWrite(g, s, io)
    ensures var t := Write(g, s, io, lpn, data);
            && WpFor(t, io).blk < |t.line|
            && Times(|t.free|, g.pgsPerLine) + Left(g, t, WpFor(t, io).blk)
               == Times(|s.free|, g.pgsPerLine) + Left(g, s, WpFor(s, io).blk) - 1
            && (forall b :: 0 <= b < |s.line| && b != WpFor(s, io).blk ==> t.line[b] == s.line[b])
  {
    hide Sound, Core, NextWp;
    var w := WpFor(s, io);
    LeftBounds(g, s, hole, moved, io);
    if NextWp(g, w).Some? {
      assert NextWp(g, w).value.blk == w.blk by {
        PageUnderPointer(g, s, hole, moved, io);
        AdvanceFills(g, w);
      }
    } else {
      FreeLineIsEmpty(g, s, hole, moved, s.free[0]);
      assert |s.free| * g.pgsPerLine == (|s.free| - 1) * g.pgsPerLine + g.pgsPerLine;
    }
  }

  // ----- A collection in progress -----

  /** The collection of the victim `v` can begin in `s0`. */
  ghost predicate Begun(g: Params, s0: State, v: nat)
  {
    Core(g, s0, {}, {}) && v in s0.victims
  }

  /** The valid pages of `v` fit into the rest of the GC line and the free lines, with a page to
      spare for the pointer to stand on. */
  ghost predicate RoomFor(g: Params, s: State, v: nat)
  {
    s.gwp.blk < |s.line| && v < |s.line| && Room(g, s) > s.line[v].vpc
  }

  /** One free line is room enough for any victim. */
  lemma FreeLineIsRoom(g: Params, s: State, v: nat)
    requires Sound(g) && Core(g, s, {}, {}) && v in s.victims && s.free != []
    ensures RoomFor(g, s, v)
  {
    hide Sound, Core;
    VictimIsClosed(g, s, v);
    LeftBounds(g, s, {}, {}, GcIo);
    LessTimes(0, |s.free|, g.pgsPerLine);
  }

  /** What the collection leaves alone: all that the host reads, the user's write pointer,
      and the part of the victim that has not been scanned. */
  ghost predicate LeftAlone(g: Params, s0: State, s: State, v: nat, done: set<Ppa>)
  {
    && Shape(s0) && Shape(s) && View(s) == View(s0)
    && s.uwp == s0.uwp && s.uwp.blk < |s.line| && |s.line| == |s0.line| && v < |s.line|
    && s.line[s.uwp.blk] == s0.line[s.uwp.blk] && s.line[v] == s0.line[v] && Suffix(s.free, s0.free)
    && (forall p :: p in LinePages(g, v) - done ==> p in s.page && p in s0.page && s.page[p] == s0.page[p])
  }

  /** Every page copied so far has used exactly one page of room. */
  ghost predicate RoomUsed(g: Params, s0: State, s: State, v: nat, done: set<Ppa>)
  {
    && s0.gwp.blk < |s0.line| && s.gwp.blk < |s.line|
    && Room(g, s) == Room(g, s0) - |LineWith(s0.page, PgValid, v) * done|
    && Room(g, s0) > |LineWith(s0.page, PgValid, v)|
  }

  /** The collection that began in `s0` with the victim `v` has scanned the pages `done`. */
  ghost predicate Mid(g: Params, s0: State, s: State, v: nat, done: set<Ppa>)
  {
    && Begun(g, s0, v)
    && done <= LinePages(g, v)
    && Core(g, s, {v}, done)
    && LeftAlone(g, s0, s, v, done)
    && RoomUsed(g, s0, s, v, done)
  }

  /** The pages of the victim still to be copied. */
  lemma StillToCopy(s0: State, v: nat, done: set<Ppa>, p: Ppa)
    requires p in s0.page && p.blk == v && p !in done && s0.page[p] == PgValid
    ensures var valid := LineWith(s0.page, PgValid, v);
            |valid * (done + {p})| == |valid * done| + 1 && |valid * done| < |valid|
  {
    var valid := LineWith(s0.page, PgValid, v);
    assert valid * (done + {p}) == valid * done + {p};
    MoreRoom(valid * done, valid, p);
  }

  /** `select_victim_line` takes the victim out of the heap. */
  lemma TakeVictimKeepsCore(g: Params, s: State, v: nat)
    requires Core(g, s, {}, {}) && v in s.victims
    ensures Core(g, s.(victims := s.victims - {v}), {v}, {})
  {
    hide Pages, LinePages, Filled, Maps, LineWith, BlkWith, Live;
  }

  /** A victim is a closed line that is not entirely valid. */
  lemma VictimIsClosed(g: Params, s: State, v: nat)
    requires Sound(g) && Core(g, s, {}, {}) && v in s.victims
    ensures v < |s.line| == g.ttLines && v != s.uwp.blk && v != s.gwp.blk && v !in s.free && v !in s.full
    ensures s.line[v].vpc == |LineWith(s.page, PgValid, v)| < g.pgsPerLine
    ensures s.line[v].ipc + s.line[v].vpc == g.pgsPerLine
    ensures forall p :: p in LinePages(g, v) <==> p in s.page && p.blk == v
    ensures forall p :: p in LinePages(g, v) ==> p in s.page && s.page[p] != PgFree
  {
    hide Sound, Pages, LinePages, Filled, Maps;
    FreePagesOfLine(g, s, {}, {}, v);
    forall p ensures p in LinePages(g, v) <==> p in s.page && p.blk == v { LineMember(g, s.page, v, p); }
    forall p | p in LinePages(g, v) ensures s.page[p] != PgFree {
      assert p !in LineWith(s.page, PgFree, v);
    }
  }

  lemma GcBegins(g: Params, s: State, v: nat)
    requires Sound(g) && Core(g, s, {}, {}) && v in s.victims && RoomFor(g, s, v)
    ensures Mid(g, s, s.(victims := s.victims - {v}), v, {})
  {
    hide Sound, Pages, LinePages, Filled, Maps, BlkWith, Live, Tally, Roles, Fill;
    TakeVictimKeepsCore(g, s, v);
    VictimIsClosed(g, s, v);
    LeftBounds(g, s, {}, {}, GcIo);
    LeftBounds(g, s, {}, {}, UserIo);
    assert LineWith(s.page, PgValid, v) * {} == {};
  }

  /** The invariant depends on the scanned pages only through the live ones. */
  lemma SameLive(g: Params, s: State, hole: set<nat>, moved: set<Ppa>, moved': set<Ppa>)
    requires Core(g, s, hole, moved) && Live(s.page, moved) == Live(s.page, moved')
    ensures Core(g, s, hole, moved')
  {
    hide Maps, Tally, Roles, Fill;
  }

  /** Scanning pages that hold nothing valid. */
  lemma GcSkips(g: Params, s0: State, s: State, v: nat, done: set<Ppa>, extra: set<Ppa>)
    requires Sound(g) && Mid(g, s0, s, v, done) && extra <= LinePages(g, v)
    requires forall p :: p in extra - done ==> p in s.page && s.page[p] != PgValid
    ensures Mid(g, s0, s, v, done + extra)
  {
    hide Sound, LinePages, Core, Room, View, LineWith;
    assert Live(s.page, done + extra) == Live(s.page, done);
    SameLive(g, s, {v}, done, done + extra);
    VictimIsClosed(g, s0, v);
    SkipsNothingValid(g, s0, s, v, done, extra);
  }

  /** Skipped pages were not to be copied. */
  lemma SkipsNothingValid(g: Params, s0: State, s: State, v: nat, done: set<Ppa>, extra: set<Ppa>)
    requires Mid(g, s0, s, v, done) && extra <= LinePages(g, v)
    requires forall p :: p in extra - done ==> p in s.page && s.page[p] != PgValid
    ensures LineWith(s0.page, PgValid, v) * (done + extra) == LineWith(s0.page, PgValid, v) * done
  {
    hide LinePages, Core, Room, View, LineWith;
    forall p | p in extra - done ensures p !in LineWith(s0.page, PgValid, v) { NotValid(s0.page, p, v); }
  }

  lemma NotValid(page: map<Ppa, PgStatus>, p: Ppa, b: nat)
    requires p in page && page[p] != PgValid
    ensures p !in LineWith(page, PgValid, b)
  {
  }

  /** The reverse map names the LPN of page `p`. */
  ghost predicate MappedBack(s: State, p: Ppa) {
    p in s.rmap && s.rmap[p].Some? && s.rmap[p].value < |s.maptbl| && p in s.stamp
  }

  /** While a collection runs, an unscanned valid page is mapped both ways. */
  lemma UnscannedIsMapped(g: Params, s0: State, s: State, v: nat, done: set<Ppa>, p: Ppa)
    requires Mid(g, s0, s, v, done) && p in LinePages(g, v) - done && p in s.page && s.page[p] == PgValid
    ensures MappedBack(s, p) && s.maptbl[s.rmap[p].value] == Some(p)
  {
    hide Sound, Pages, LinePages, Filled, Tally, Roles, Fill;
    assert p in Live(s.page, done);
  }

  /** Picking a page up: were its LPN unmapped now, the tables would agree without it. */
  lemma PickUpKeepsCore(g: Params, s: State, hole: set<nat>, moved: set<Ppa>, lpn: nat, p: Ppa)
    requires Core(g, s, hole, moved) && lpn < |s.maptbl| && s.maptbl[lpn] == Some(p)
    ensures Core(g, Unmap(s, lpn), hole, moved + {p})
  {
    hide Tally, Roles, Fill, Maps;
    MapsDrop(s.maptbl, s.rmap, Live(s.page, moved), lpn);
    assert Live(s.page, moved + {p}) == Live(s.page, moved) - {p};
    assert Fill(g, Unmap(s, lpn)) by { SameFill(g, s, Unmap(s, lpn)); }
  }

  /** A collection never needs a free line that is not there. */
  lemma GcHasRoom(g: Params, s0: State, s: State, v: nat, done: set<Ppa>, p: Ppa)
    requires Sound(g) && Mid(g, s0, s, v, done) && p in LinePages(g, v) - done && p in s.page && s.page[p] == PgValid
    ensures CanWrite(g, s, GcIo)
  {
    hide Sound, Pages, LinePages, Filled, Tally, Roles, Fill, Maps, NextWp, LineWith;
    PlaneAndLines(g);
    PageUnderPointer(g, s, {v}, done, GcIo);
    LeftBounds(g, s, {v}, done, GcIo);
    VictimIsClosed(g, s0, v);
    StillToCopy(s0, v, done, p);
    assert Room(g, s) >= 2;
  }

  /** Writing for an LPN does not depend on what the LPN was mapped to. */
  lemma WriteForgetsOldMapping(g: Params, s: State, io: IoType, lpn: nat, data: int)
    requires lpn < |s.maptbl| && CanWrite(g, s, io)
    ensures CanWrite(g, Unmap(s, lpn), io)
    ensures Write(g, Unmap(s, lpn), io, lpn, data) == Write(g, s, io, lpn, data)
  {
    hide NextWp;
    assert s.maptbl[lpn := None][lpn := Some(PageAt(WpFor(s, io)))] == s.maptbl[lpn := Some(PageAt(WpFor(s, io)))];
  }

  /** Forgetting an LPN and then giving it its old content is no change. */
  lemma SameContent(s: State, lpn: nat, p: Ppa)
    requires Shape(s) && lpn < |s.maptbl| && s.maptbl[lpn] == Some(p) && p in s.stamp
    ensures Shape(Unmap(s, lpn)) && View(Unmap(s, lpn)) == View(s) - {lpn}
    ensures View(Unmap(s, lpn))[lpn := s.stamp[p]] == View(s)
  {
    assert View(s)[lpn] == s.stamp[p];
  }

  /** The copy's effect on the tables and on what the host reads. */
  lemma GcCopyKeepsCore(g: Params, s: State, v: nat, done: set<Ppa>, p: Ppa)
    requires Sound(g) && Core(g, s, {v}, done) && CanWrite(g, s, GcIo)
    requires forall q :: q in done + {p} ==> q.blk == v
    requires MappedBack(s, p) && s.maptbl[s.rmap[p].value] == Some(p)
    ensures var t := Write(g, s, GcIo, s.rmap[p].value, s.stamp[p]);
            && Core(g, t, {v}, done + {p}) && Shape(s) && Shape(t) && View(t) == View(s)
            && (forall q :: q in s.page && q.blk == v ==> q in t.page && t.page[q] == s.page[q])
  {
    hide Sound, Write, View, Unmap, NextWp, CanWrite;
    var lpn, data := s.rmap[p].value, s.stamp[p];
    PickUpKeepsCore(g, s, {v}, done, lpn, p);
    WriteForgetsOldMapping(g, s, GcIo, lpn, data);
    CoreHasShape(g, s, {v}, done);
    SameContent(s, lpn, p);
    UnmapFrame(s, lpn);
    PageUnderPointer(g, s, {v}, done, GcIo);
    CanWriteTurns(g, s);
    hide Core;
    WriteKeepsCore(g, Unmap(s, lpn), {v}, done + {p}, GcIo, lpn, data);
    CoreHasShape(g, Write(g, s, GcIo, lpn, data), {v}, done + {p});
  }

  lemma CanWriteTurns(g: Params, s: State)
    requires CanWrite(g, s, GcIo)
    ensures g.pgsPerOneshotpg > 0 && (NextWp(g, s.gwp).None? ==> s.free != [])
  {
  }

  /** `gc_write_page`: copying one valid page of the victim. */
  lemma GcCopies(g: Params, s0: State, s: State, v: nat, done: set<Ppa>, p: Ppa)
    requires Sound(g) && Mid(g, s0, s, v, done) && CanWrite(g, s, GcIo)
    requires p in LinePages(g, v) - done && p in s.page && s.page[p] == PgValid && MappedBack(s, p)
    ensures var t := Write(g, s, GcIo, s.rmap[p].value, s.stamp[p]);
            && Mid(g, s0, t, v, done + {p})
            && (forall q :: q in LinePages(g, v) && q in s.page ==> q in t.page && t.page[q] == s.page[q])
  {
    hide Sound, LinePages, Core, Write, LineWith, View, Room, MappedBack, Shape, CanWrite;
    UnscannedIsMapped(g, s0, s, v, done, p);
    VictimIsClosed(g, s0, v);
    GcCopyKeepsCore(g, s, v, done, p);
    GcWriteRoom(g, s0, s, v, done, p);
    StillToCopy(s0, v, done, p);
    GcWriteFrame(g, s0, s, v, done, p);
    SuffixOfSuffix(s.free, s0.free);
  }

  /** Everything that `gc_write_page` relies on and achieves, in one place. */
  lemma GcCopyPlan(g: Params, s0: State, s: State, v: nat, done: set<Ppa>, p: Ppa)
    requires Sound(g) && Mid(g, s0, s, v, done) && p in LinePages(g, v) - done && p in s.page && s.page[p] == PgValid
    ensures MappedBack(s, p) && CanWrite(g, s, GcIo) && p.blk == v && v < g.ttLines && |s.maptbl| == g.ttPgs
    ensures Core(g, Unmap(s, s.rmap[p].value), {v}, done + {p})
    ensures var t := Write(g, s, GcIo, s.rmap[p].value, s.stamp[p]);
            && Mid(g, s0, t, v, done + {p})
            && (forall q :: q in LinePages(g, v) && q in s.page ==> q in t.page && t.page[q] == s.page[q])
    ensures |LineWith(s0.page, PgValid, v) * (done + {p})| == |LineWith(s0.page, PgValid, v) * done| + 1
  {
    hide Sound, Pages, LinePages, LineWith, Tally, Roles, Fill, Maps, Write, CanWrite;
    UnscannedIsMapped(g, s0, s, v, done, p);
    GcHasRoom(g, s0, s, v, done, p);
    GcCopies(g, s0, s, v, done, p);
    VictimIsClosed(g, s0, v);
    StillToCopy(s0, v, done, p);
    PickUpKeepsCore(g, s, {v}, done, s.rmap[p].value, p);
  }

  lemma CoreHasShape(g: Params, s: State, hole: set<nat>, moved: set<Ppa>)
    requires Core(g, s, hole, moved)
    ensures Shape(s)
  {
  }

  lemma UnmapFrame(s: State, lpn: nat)
    requires lpn < |s.maptbl|
    ensures Unmap(s, lpn) == s.(maptbl := s.maptbl[lpn := None])
  {
  }

  lemma GcWriteRoom(g: Params, s0: State, s: State, v: nat, done: set<Ppa>, p: Ppa)
    requires Sound(g) && Mid(g, s0, s, v, done) && CanWrite(g, s, GcIo)
    requires MappedBack(s, p)
    ensures var t := Write(g, s, GcIo, s.rmap[p].value, s.stamp[p]);
            s.gwp.blk < |s.line| && t.gwp.blk < |t.line| && Room(g, t) == Room(g, s) - 1
  {
    hide Sound, LinePages, Core, Write, LineWith, View;
    ProgramTakesOnePage(g, s, {v}, done, GcIo, s.rmap[p].value, s.stamp[p]);
  }

  lemma GcWriteFrame(g: Params, s0: State, s: State, v: nat, done: set<Ppa>, p: Ppa)
    requires Sound(g) && Mid(g, s0, s, v, done) && CanWrite(g, s, GcIo)
    requires MappedBack(s, p)
    ensures var t := Write(g, s, GcIo, s.rmap[p].value, s.stamp[p]);
            && t.uwp == s.uwp && |t.line| == |s.line| && s.uwp.blk < |s.line| && v < |s.line|
            && t.line[t.uwp.blk] == s.line[s.uwp.blk] && t.line[v] == s.line[v]
            && t.page.Keys == s.page.Keys + {PageAt(s.gwp)}
            && (t.free == s.free || (s.free != [] && t.free == s.free[1..]))
  {
    hide Sound, LinePages, LineWith, View, Tally, Fill, Maps;
    ProgramTakesOnePage(g, s, {v}, done, GcIo, s.rmap[p].value, s.stamp[p]);
  }

  // ----- Erasing -----

  lemma EraseFrame(g: Params, s: State, k: Blk)
    ensures var t := Erase(g, s, k); t.page.Keys == s.page.Keys
    ensures forall p :: p in s.page ==> Erase(g, s, k).page[p] == if BlkOf(p) == k then PgFree else s.page[p]
    ensures forall st, b :: b != k.blk ==> LineWith(Erase(g, s, k).page, st, b) == LineWith(s.page, st, b)
    ensures forall st, j :: j != k ==> BlkWith(Erase(g, s, k).page, st, j) == BlkWith(s.page, st, j)
    ensures forall st :: st != PgFree ==> BlkWith(Erase(g, s, k).page, st, k) == {}
  {
  }

  /** `mark_block_free` on a block whose pages have all been scanned. */
  lemma EraseKeepsCore(g: Params, s: State, v: nat, done: set<Ppa>, k: Blk)
    requires Sound(g) && Core(g, s, {v}, done) && k.blk == v && k in s.block
    requires forall p :: p in s.page && BlkOf(p) == k ==> p in done
    ensures Core(g, Erase(g, s, k), {v}, done)
    ensures Shape(s) && Shape(Erase(g, s, k)) && View(Erase(g, s, k)) == View(s)
  {
    hide Sound, Pages, LinePages, Filled, Maps, Roles, View, LineWith, BlkWith, Erase;
    var t := Erase(g, s, k);
    EraseFrame(g, s, k);
    assert t == s.(page := t.page, block := s.block[k := Counts(0, 0)]) by { EraseIs(g, s, k); }
    assert Live(t.page, done) == Live(s.page, done);
    assert Fill(g, t) by { EraseKeepsFill(g, s, t, v); }
    assert View(t) == View(s) by { SameView(s, t); }
  }

  lemma EraseIs(g: Params, s: State, k: Blk)
    ensures Erase(g, s, k) == s.(page := Erase(g, s, k).page, block := s.block[k := Counts(0, 0)])
  {
  }

  lemma SameView(s: State, t: State)
    requires Shape(s) && Shape(t) && t.maptbl == s.maptbl && t.stamp == s.stamp
    ensures View(t) == View(s)
  {
  }

  lemma EraseKeepsFill(g: Params, s: State, t: State, v: nat)
    requires Fill(g, s) && Roles(g, s.free, s.full, s.victims, s.uwp.blk, s.gwp.blk, {v})
    requires t == s.(page := t.page, block := t.block)
    requires forall b :: b != v ==> LineWith(t.page, PgFree, b) == LineWith(s.page, PgFree, b)
    ensures Fill(g, t)
  {
    hide LinePages, Filled, LineWith, ValidWp;
  }

  lemma GcErases(g: Params, s0: State, s: State, v: nat, done: set<Ppa>, k: Blk)
    requires Sound(g) && Mid(g, s0, s, v, done) && k.blk == v && k in s.block
    requires forall p :: p in s.page && BlkOf(p) == k ==> p in done
    ensures var t := Erase(g, s, k);
            && Mid(g, s0, t, v, done)
            && t.page.Keys == s.page.Keys && t.block.Keys == s.block.Keys
            && (forall p :: p in s.page ==> t.page[p] == if BlkOf(p) == k then PgFree else s.page[p])
  {
    hide Sound, LinePages, Core, LineWith, View, Shape, Erase, BlkWith, Room;
    EraseKeepsCore(g, s, v, done, k);
    EraseFrame(g, s, k);
    EraseIs(g, s, k);
    SameRoom(g, s, Erase(g, s, k));
  }

  lemma SameRoom(g: Params, s: State, t: State)
    requires t.line == s.line && t.free == s.free && t.gwp == s.gwp && s.gwp.blk < |s.line|
    ensures Room(g, t) == Room(g, s)
  {
  }

  // ----- The end of a collection -----

  /** `mark_line_free` on a victim all of whose pages are free again. */
  lemma FreeLineKeepsCore(g: Params, s: State, v: nat, done: set<Ppa>)
    requires Sound(g) && Core(g, s, {v}, done) && v < |s.line|
    requires forall p :: p in s.page && p.blk == v ==> s.page[p] == PgFree
    requires forall p :: p in done ==> p.blk == v
    ensures Core(g, FreeLine(s, v), {}, {})
  {
    hide Sound, Pages, LinePages, Filled, Maps, BlkWith, Fill, Roles;
    var t := FreeLine(s, v);
    assert Live(s.page, done) == Live(s.page, {});
    assert LineWith(s.page, PgValid, v) == {} && LineWith(s.page, PgInvalid, v) == {};
    FreeLineKeepsRoles(g, s, t, v);
    FreeLineKeepsFill(g, s, t, v);
  }

  lemma FreeLineKeepsRoles(g: Params, s: State, t: State, v: nat)
    requires Roles(g, s.free, s.full, s.victims, s.uwp.blk, s.gwp.blk, {v})
    requires t == s.(line := t.line, free := s.free + [v])
    ensures Roles(g, t.free, t.full, t.victims, t.uwp.blk, t.gwp.blk, {})
  {
    assert forall b :: b in t.free <==> b in s.free || b == v;
  }

  lemma FreeLineKeepsFill(g: Params, s: State, t: State, v: nat)
    requires Sound(g) && s.page.Keys == Pages(g) && v < |s.line|
    requires Fill(g, s) && Roles(g, s.free, s.full, s.victims, s.uwp.blk, s.gwp.blk, {v})
    requires forall p :: p in s.page && p.blk == v ==> s.page[p] == PgFree
    requires t == FreeLine(s, v)
    ensures Fill(g, t)
  {
    hide Sound, Pages, LinePages, Filled, ValidWp;
    assert forall b :: b in t.free <==> b in s.free || b == v;
    assert LineWith(s.page, PgFree, v) == LinePages(g, v) by {
      hide Roles;
      forall p ensures p in LinePages(g, v) <==> p in LineWith(s.page, PgFree, v) { LineMember(g, s.page, v, p); }
    }
    hide LineWith;
  }

  /** A finished collection: the host sees no change, the victim is free, and the space has
      grown by exactly the victim's invalid pages. */
  lemma GcEnds(g: Params, s0: State, s: State, v: nat)
    requires Sound(g) && Mid(g, s0, s, v, LinePages(g, v))
    requires forall p :: p in s.page && p.blk == v ==> s.page[p] == PgFree
    ensures v < |s.line| && v < |s0.line|
    ensures var t := FreeLine(s, v);
            && Core(g, t, {}, {}) && Shape(s0) && Shape(t) && View(t) == View(s0)
            && t.uwp.blk < |t.line| && t.gwp.blk < |t.line| && s0.uwp.blk < |s0.line| && s0.gwp.blk < |s0.line|
            && Space(g, t) == Space(g, s0) + s0.line[v].ipc
            && t.line[v] == Counts(0, 0) && t.free == s.free + [v] && Suffix(s.free, s0.free)
  {
    hide Sound, Pages, Filled, Core, LineWith, View, Shape;
    VictimIsClosed(g, s0, v);
    FreeLineKeepsCore(g, s, v, LinePages(g, v));
    CoreHasShape(g, s, {v}, LinePages(g, v));
    CoreHasShape(g, FreeLine(s, v), {}, {});
    SameView(s, FreeLine(s, v));
    assert LineWith(s0.page, PgValid, v) * LinePages(g, v) == LineWith(s0.page, PgValid, v) by { ValidInLine(s0.page, v, LinePages(g, v)); }
    PageUnderPointer(g, s, {v}, LinePages(g, v), GcIo);
    PageUnderPointer(g, s, {v}, LinePages(g, v), UserIo);
    assert (|s.free| + 1) * g.pgsPerLine == |s.free| * g.pgsPerLine + g.pgsPerLine;
  }

  /** What a collection of `v` has achieved: the host reads what it read before, the victim
      was a line with the fewest valid pages, those have been copied, and the space has grown
      by its invalid pages, which is also the next refill of write credits.  Lines are taken from the
      head of the free list, and the victim has joined it at the end. */
  ghost predicate Collected(g: Params, s0: State, t: State, v: nat, refill: int, copies: int)
  {
    && v in s0.victims && v < |s0.line| == |t.line|
    && (forall b :: b in s0.victims ==> b < |s0.line| && s0.line[v].vpc <= s0.line[b].vpc)
    && s0.line[v].ipc + s0.line[v].vpc == g.pgsPerLine
    && copies == s0.line[v].vpc && refill == s0.line[v].ipc
    && Shape(s0) && Shape(t) && View(t) == View(s0)
    && (forall p :: p in LinePages(g, v) ==> p in t.page && t.page[p] == PgFree)
    && (forall lpn :: 0 <= lpn < |t.maptbl| && t.maptbl[lpn].Some? ==> t.maptbl[lpn].value.blk != v)
    && t.free != [] && t.free[|t.free| - 1] == v && Suffix(t.free[..|t.free| - 1], s0.free) && t.line[v] == Counts(0, 0)
    && s0.uwp.blk < |s0.line| && s0.gwp.blk < |s0.line| && t.uwp.blk < |t.line| && t.gwp.blk < |t.line|
    && t.uwp == s0.uwp && Space(g, t) == Space(g, s0) + s0.line[v].ipc
  }

  lemma ValidInLine(page: map<Ppa, PgStatus>, v: nat, pages: set<Ppa>)
    requires forall p :: p in page && p.blk == v ==> p in pages
    ensures LineWith(page, PgValid, v) * pages == LineWith(page, PgValid, v)
  {
  }

  /** The collection as a whole. */
  lemma GcAchieves(g: Params, s0: State, s: State, v: nat)
    requires Sound(g) && Mid(g, s0, s, v, LinePages(g, v))
    requires forall b :: b in s0.victims ==> b < |s0.line| && v < |s0.line| && s0.line[v].vpc <= s0.line[b].vpc
    requires forall p :: p in LinePages(g, v) ==> p in s.page && s.page[p] == PgFree
    ensures v < |s.line| && v < |s0.line|
    ensures Core(g, FreeLine(s, v), {}, {})
    ensures Collected(g, s0, FreeLine(s, v), v, s0.line[v].ipc, |LineWith(s0.page, PgValid, v) * LinePages(g, v)|)
  {
    hide Sound, Pages, LinePages, Filled, LineWith, View, Shape, Tally, Roles, Fill, Space;
    VictimIsClosed(g, s0, v);
    forall p | p in s.page && p.blk == v ensures s.page[p] == PgFree { SamePages(g, s0, s, v, p); }
    GcEnds(g, s0, s, v);
    ValidInLine(s0.page, v, LinePages(g, v));
    var t := FreeLine(s, v);
    assert t.free[..|t.free| - 1] == s.free;
    forall lpn | 0 <= lpn < |t.maptbl| && t.maptbl[lpn].Some? ensures t.maptbl[lpn].value.blk != v {
      var p := t.maptbl[lpn].value;
      assert p in Live(t.page, {});
      if p.blk == v { SamePages(g, s0, s, v, p); }
    }
  }

  lemma SamePages(g: Params, s0: State, s: State, v: nat, p: Ppa)
    requires Sound(g) && Mid(g, s0, s, v, LinePages(g, v)) && p in s.page && p.blk == v
    ensures p in LinePages(g, v)
  {
    hide Sound, Pages, LinePages, Filled, LineWith, View, Roles, Fill, Maps;
    LineMember(g, s.page, v, p);
  }
}
