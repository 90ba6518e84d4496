/** One partition of the page-mapping FTL (conv_ftl.c) as a value, the effect of each of
    its primitive operations, and the invariant that ties all its tables together. */
module FtlState {
  import opened Wrappers
  import opened IdLists
  import opened Geometry
  import opened Traversal

  datatype PgStatus = PgFree | PgInvalid | PgValid

  /** `ipc` and `vpc` of a block or a line. */
  datatype Counts = Counts(ipc: int, vpc: int)

  datatype IoType = UserIo | GcIo

  /** The tables of `struct conv_ftl` and the NAND state they describe.  `stamp` stands for
      the content of each physical page. */
  datatype State = State(
    maptbl: seq<Option<Ppa>>, rmap: map<Ppa, Option<nat>>, stamp: map<Ppa, int>,
    page: map<Ppa, PgStatus>, block: map<Blk, Counts>, line: seq<Counts>,
    free: seq<nat>, full: seq<nat>, victims: set<nat>,
    uwp: Wp, gwp: Wp)

  function WpFor(s: State, io: IoType): Wp {
    if io == UserIo then s.uwp else s.gwp
  }

  // ----- What the FTL is for -----

  /** The logical view: what each LPN reads as. */
  ghost function View(s: State): map<nat, int>
    requires Shape(s)
  {
    Reads(s.maptbl, s.stamp)
  }

  ghost function Reads(maptbl: seq<Option<Ppa>>, stamp: map<Ppa, int>): map<nat, int>
    requires Covers(stamp, maptbl)
  {
    map lpn | 0 <= lpn < |maptbl| && maptbl[lpn].Some? :: stamp[maptbl[lpn].value]
  }

  ghost predicate Covers(stamp: map<Ppa, int>, maptbl: seq<Option<Ppa>>)
  {
    forall lpn :: 0 <= lpn < |maptbl| && maptbl[lpn].Some? ==> maptbl[lpn].value in stamp
  }

  ghost predicate Shape(s: State)
  {
    s.rmap.Keys == s.page.Keys && s.stamp.Keys == s.page.Keys && Covers(s.stamp, s.maptbl)
  }

  // ----- The invariant, table by table -----

  ghost function LineWith(page: map<Ppa, PgStatus>, st: PgStatus, b: nat): set<Ppa>
  {
    set p | p in page && p.blk == b && page[p] == st
  }

  ghost function BlkWith(page: map<Ppa, PgStatus>, st: PgStatus, k: Blk): set<Ppa>
  {
    set p | p in page && BlkOf(p) == k && page[p] == st
  }

  /** The pages in use: valid, and not yet copied out by a running collection. */
  ghost function Live(page: map<Ppa, PgStatus>, moved: set<Ppa>): set<Ppa>
  {
    set p | p in page && page[p] == PgValid && p !in moved
  }

  /** Line and block counters equal the number of pages with that status; lines in `hole`
      are being collected and their counters are stale. */
  ghost predicate Tally(g: Params, page: map<Ppa, PgStatus>, block: map<Blk, Counts>, line: seq<Counts>, hole: set<nat>)
  {
    && page.Keys == Pages(g) && |line| == g.ttLines
    && (forall p :: p in page ==> BlkOf(p) in block)
    && (forall b :: 0 <= b < |line| && b !in hole ==>
          line[b] == Counts(|LineWith(page, PgInvalid, b)|, |LineWith(page, PgValid, b)|))
    && (forall k :: k in block ==>
          block[k] == Counts(|BlkWith(page, PgInvalid, k)|, |BlkWith(page, PgValid, k)|))
  }

  /** Every line is in exactly one place: free list, full list, victim heap, under the user
      or the GC write pointer, or in `hole`. */
  ghost predicate Roles(g: Params, free: seq<nat>, full: seq<nat>, victims: set<nat>, u: nat, c: nat, hole: set<nat>)
  {
    && NoDup(free) && NoDup(full)
    && (forall b :: b in free ==> b < g.ttLines && b !in full && b !in victims && b != u && b != c && b !in hole)
    && (forall b :: b in full ==> b < g.ttLines && b !in victims && b != u && b != c && b !in hole)
    && (forall b :: b in victims ==> b < g.ttLines && b != u && b != c && b !in hole)
    && (forall b :: b in hole ==> b < g.ttLines)
    && u < g.ttLines && c < g.ttLines && u != c && u !in hole && c !in hole
    && (forall b :: 0 <= b < g.ttLines ==> b in free || b in full || b in victims || b == u || b == c || b in hole)
  }

  /** A line's free pages: all of a free line, none of a closed line, and those the write
      pointer has not passed of a line being written.  A closed line is in the full list
      exactly when all of its pages are valid. */
  ghost predicate Fill(g: Params, s: State)
  {
    && 0 < g.pgsPerOneshotpg && |s.line| == g.ttLines
    && (forall b :: b in s.free ==> LineWith(s.page, PgFree, b) == LinePages(g, b))
    && (forall b :: b in s.full || b in s.victims ==> LineWith(s.page, PgFree, b) == {})
    && ValidWp(g, s.uwp) && LineWith(s.page, PgFree, s.uwp.blk) == LinePages(g, s.uwp.blk) - Filled(g, s.uwp)
    && ValidWp(g, s.gwp) && LineWith(s.page, PgFree, s.gwp.blk) == LinePages(g, s.gwp.blk) - Filled(g, s.gwp)
    && (forall b :: b in s.full && b < |s.line| ==> s.line[b].vpc == g.pgsPerLine)
    && (forall b :: b in s.victims && b < |s.line| ==> s.line[b].vpc < g.pgsPerLine)
  }

  /** `maptbl` and `rmap` are inverse bijections between the mapped LPNs and the live pages. */
  ghost predicate Maps(maptbl: seq<Option<Ppa>>, rmap: map<Ppa, Option<nat>>, live: set<Ppa>)
  {
    && (forall lpn :: 0 <= lpn < |maptbl| && maptbl[lpn].Some? ==>
          var p := maptbl[lpn].value;
          p in live && p in rmap && rmap[p] == Some(lpn))
    && (forall p :: p in live ==>
          p in rmap && rmap[p].Some? && rmap[p].value < |maptbl| && maptbl[rmap[p].value] == Some(p))
  }

  /** The whole invariant.  `hole` holds the line being collected, if any, and `moved` the
      pages of it that have been scanned. */
  ghost predicate Core(g: Params, s: State, hole: set<nat>, moved: set<Ppa>)
  {
    && |s.maptbl| == g.ttPgs
    && Shape(s)
    && Tally(g, s.page, s.block, s.line, hole)
    && Roles(g, s.free, s.full, s.victims, s.uwp.blk, s.gwp.blk, hole)
    && Fill(g, s)
    && Maps(s.maptbl, s.rmap, Live(s.page, moved))
  }

  // ----- The primitive operations -----

  function Without(q: seq<nat>, x: nat): seq<nat>
  {
    if q == [] then [] else if q[0] == x then q[1..] else [q[0]] + Without(q[1..], x)
  }

  /** `mark_page_invalid` and the `rmap` reset after it. */
  ghost function Invalidate(g: Params, s: State, p: Ppa): State
    requires p.blk < |s.line| && BlkOf(p) in s.block
  {
    var l, k := s.line[p.blk], s.block[BlkOf(p)];
    var wasFull := l.vpc == g.pgsPerLine;
    s.(page := s.page[p := PgInvalid],
       block := s.block[BlkOf(p) := Counts(k.ipc + 1, k.vpc - 1)],
       line := s.line[p.blk := Counts(l.ipc + 1, l.vpc - 1)],
       full := if wasFull then Without(s.full, p.blk) else s.full,
       victims := if wasFull then s.victims + {p.blk} else s.victims,
       rmap := s.rmap[p := None])
  }

  /** An LPN loses its mapping; between two writes to it this never shows. */
  ghost function Unmap(s: State, lpn: nat): State
    requires lpn < |s.maptbl|
  {
    s.(maptbl := s.maptbl[lpn := None])
  }

  /** `set_maptbl_ent`, `set_rmap_ent` and `mark_page_valid` on the page under the pointer. */
  ghost function Program(s: State, io: IoType, lpn: nat, data: int): State
    requires lpn < |s.maptbl| && WpFor(s, io).blk < |s.line| && BlkOf(PageAt(WpFor(s, io))) in s.block
  {
    var p := PageAt(WpFor(s, io));
    var l, k := s.line[p.blk], s.block[BlkOf(p)];
    s.(maptbl := s.maptbl[lpn := Some(p)], rmap := s.rmap[p := Some(lpn)], stamp := s.stamp[p := data],
       page := s.page[p := PgValid],
       block := s.block[BlkOf(p) := Counts(k.ipc, k.vpc + 1)],
       line := s.line[p.blk := Counts(l.ipc, l.vpc + 1)])
  }

  ghost function SetWp(s: State, io: IoType, w: Wp): State {
    if io == UserIo then s.(uwp := w) else s.(gwp := w)
  }

  /** `advance_write_pointer`: a used-up line goes to the full list or the victim heap and
      the first free line takes its place. */
  ghost function Advance(g: Params, s: State, io: IoType): State
    requires g.pgsPerOneshotpg > 0 && WpFor(s, io).blk < |s.line|
    requires NextWp(g, WpFor(s, io)).None? ==> s.free != []
  {
    var w := WpFor(s, io);
    match NextWp(g, w)
    case Some(w') => SetWp(s, io, w')
    case None =>
      var isFull := s.line[w.blk].vpc == g.pgsPerLine;
      SetWp(s.(full := if isFull then s.full + [w.blk] else s.full,
               victims := if isFull then s.victims else s.victims + {w.blk},
               free := s.free[1..]),
            io, StartWp(s.free[0]))
  }

  /** The page under the pointer can be written and the pointer moved on. */
  ghost predicate CanWrite(g: Params, s: State, io: IoType)
  {
    && g.pgsPerOneshotpg > 0
    && WpFor(s, io).blk < |s.line| && BlkOf(PageAt(WpFor(s, io))) in s.block
    && (NextWp(g, WpFor(s, io)).None? ==> s.free != [])
  }

  /** Writing one page: what a user write and a collection's copy have in common. */
  ghost function Write(g: Params, s: State, io: IoType, lpn: nat, data: int): State
    requires lpn < |s.maptbl| && CanWrite(g, s, io)
  {
    Advance(g, Program(s, io, lpn, data), io)
  }

  /** The user's pointer moves by one page within its one-shot page, or to the start of one. */
  ghost predicate OnePageOn(g: Params, w: Wp, w': Wp)
    requires g.pgsPerOneshotpg > 0
  {
    w'.pg % g.pgsPerOneshotpg == (w.pg + 1) % g.pgsPerOneshotpg
  }

  /** `mark_block_free`. */
  ghost function Erase(g: Params, s: State, k: Blk): State
  {
    s.(page := map p | p in s.page :: if BlkOf(p) == k then PgFree else s.page[p],
       block := s.block[k := Counts(0, 0)])
  }

  /** `mark_line_free`. */
  ghost function FreeLine(s: State, b: nat): State
    requires b < |s.line|
  {
    s.(line := s.line[b := Counts(0, 0)], free := s.free + [b])
  }

  // ----- Counting pages by status -----

  lemma LineWithUpdate(page: map<Ppa, PgStatus>, p: Ppa, st: PgStatus, t: PgStatus, b: nat)
    requires p in page
    ensures LineWith(page[p := st], t, b) ==
      if p.blk != b then LineWith(page, t, b)
      else if t == st then LineWith(page, t, b) + {p} else LineWith(page, t, b) - {p}
  {
  }

  lemma BlkWithUpdate(page: map<Ppa, PgStatus>, p: Ppa, st: PgStatus, t: PgStatus, k: Blk)
    requires p in page
    ensures BlkWith(page[p := st], t, k) ==
      if BlkOf(p) != k then BlkWith(page, t, k)
      else if t == st then BlkWith(page, t, k) + {p} else BlkWith(page, t, k) - {p}
  {
  }

  /** One page changes status: its line and its block count one less and one more. */
  lemma TallyStep(g: Params, page: map<Ppa, PgStatus>, block: map<Blk, Counts>, line: seq<Counts>, hole: set<nat>,
                  p: Ppa, st: PgStatus)
    requires Tally(g, page, block, line, hole)
    requires p in page && page[p] != st && p.blk < |line| && p.blk !in hole
    ensures Tally(g, page[p := st], block[BlkOf(p) := Recount(block[BlkOf(p)], page[p], st)],
                  line[p.blk := Recount(line[p.blk], page[p], st)], hole)
  {
    hide Pages, LineWith, BlkWith;
    var page' := page[p := st];
    assert page'.Keys == page.Keys;
    forall b | 0 <= b < |line| && b !in hole
      ensures Counts(|LineWith(page', PgInvalid, b)|, |LineWith(page', PgValid, b)|) ==
              if b == p.blk then Recount(line[b], page[p], st) else line[b]
    {
      LineCountStep(page, p, st, PgInvalid, b);
      LineCountStep(page, p, st, PgValid, b);
    }
    forall k | k in block
      ensures Counts(|BlkWith(page', PgInvalid, k)|, |BlkWith(page', PgValid, k)|) ==
              if k == BlkOf(p) then Recount(block[k], page[p], st) else block[k]
    {
      BlkCountStep(page, p, st, PgInvalid, k);
      BlkCountStep(page, p, st, PgValid, k);
    }
  }

  lemma LineCountStep(page: map<Ppa, PgStatus>, p: Ppa, st: PgStatus, t: PgStatus, b: nat)
    requires p in page && page[p] != st
    ensures |LineWith(page[p := st], t, b)| ==
      |LineWith(page, t, b)| + (if p.blk != b then 0 else if t == st then 1 else if t == page[p] then -1 else 0)
  {
    LineWithUpdate(page, p, st, t, b);
  }

  lemma BlkCountStep(page: map<Ppa, PgStatus>, p: Ppa, st: PgStatus, t: PgStatus, k: Blk)
    requires p in page && page[p] != st
    ensures |BlkWith(page[p := st], t, k)| ==
      |BlkWith(page, t, k)| + (if BlkOf(p) != k then 0 else if t == st then 1 else if t == page[p] then -1 else 0)
  {
    BlkWithUpdate(page, p, st, t, k);
  }

  /** The counters after one page moves from status `was` to status `st`. */
  function Recount(c: Counts, was: PgStatus, st: PgStatus): Counts {
    Counts(c.ipc + (if st == PgInvalid then 1 else 0) - (if was == PgInvalid then 1 else 0),
           c.vpc + (if st == PgValid then 1 else 0) - (if was == PgValid then 1 else 0))
  }

  /** The page addresses of the drive are its valid addresses. */
  lemma PagesAreValid(g: Params, p: Ppa)
    requires Sound(g)
    ensures p in Pages(g) <==> ValidPpa(g, p)
    ensures p.blk < g.ttLines ==> (p in LinePages(g, p.blk) <==> ValidPpa(g, p))
    ensures p.ch < g.nchs && p.lun < g.lunsPerCh && p.blk < g.ttLines ==>
      (p in BlkPages(g, BlkOf(p)) <==> ValidPpa(g, p))
  {
    hide Sound;
    assert g.plsPerLun == 1 && g.ttLines == g.blksPerPl by { assert Sound(g); PlaneAndLines(g); }
  }

  lemma PlaneAndLines(g: Params)
    requires Sound(g)
    ensures g.plsPerLun == 1 && g.ttLines == g.blksPerPl
    ensures 0 < g.pgsPerLine < 0x8000_0000 && 0 < g.pgsPerOneshotpg && 0 < g.pgsPerFlashpg && 0 < g.pgsPerBlk
    ensures 0 < g.flashpgsPerBlk
  {
  }

  /** Free, invalid and valid pages make up a line. */
  lemma LineSplits(g: Params, page: map<Ppa, PgStatus>, b: nat)
    requires Sound(g) && page.Keys == Pages(g) && b < g.ttLines
    ensures |LineWith(page, PgFree, b)| + |LineWith(page, PgInvalid, b)| + |LineWith(page, PgValid, b)| == g.pgsPerLine
  {
    hide Sound, Pages, LinePages;
    LineSize(g, b);
    var f, i, v := LineWith(page, PgFree, b), LineWith(page, PgInvalid, b), LineWith(page, PgValid, b);
    assert LinePages(g, b) == f + i + v by {
      forall p ensures p in LinePages(g, b) <==> p in f + i + v { LineMember(g, page, b, p); }
    }
    assert f !! i && (f + i) !! v;
  }

  lemma LineMember(g: Params, page: map<Ppa, PgStatus>, b: nat, p: Ppa)
    requires Sound(g) && page.Keys == Pages(g) && b < g.ttLines
    ensures p in LinePages(g, b) <==> p in page && p.blk == b
  {
    PagesAreValid(g, p);
  }

  lemma BlkSplits(g: Params, page: map<Ppa, PgStatus>, k: Blk)
    requires Sound(g) && page.Keys == Pages(g) && k.ch < g.nchs && k.lun < g.lunsPerCh && k.blk < g.blksPerPl
    ensures |BlkWith(page, PgFree, k)| + |BlkWith(page, PgInvalid, k)| + |BlkWith(page, PgValid, k)| == g.pgsPerBlk
  {
    hide Sound, Pages, BlkPages;
    BlkSize(g, k);
    var f, i, v := BlkWith(page, PgFree, k), BlkWith(page, PgInvalid, k), BlkWith(page, PgValid, k);
    assert BlkPages(g, k) == f + i + v by {
      forall p ensures p in BlkPages(g, k) <==> p in f + i + v { BlkMember(g, page, k, p); }
    }
    assert f !! i && (f + i) !! v;
  }

  lemma BlkMember(g: Params, page: map<Ppa, PgStatus>, k: Blk, p: Ppa)
    requires Sound(g) && page.Keys == Pages(g) && k.ch < g.nchs && k.lun < g.lunsPerCh && k.blk < g.blksPerPl
    ensures p in BlkPages(g, k) <==> p in page && BlkOf(p) == k
  {
    PagesAreValid(g, p);
  }
}
