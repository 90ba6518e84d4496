/** The two walks through a line: the write pointer (conv_ftl.c, `advance_write_pointer`)
    fills it one-shot page by one-shot page across channels and LUNs, and the garbage
    collector (`do_gc`) scans it flash page by flash page. */
module Traversal {
  import opened Wrappers
  import opened IdLists
  import opened Geometry

  /** `struct write_pointer`; `curline` is the line whose id is `blk`. */
  datatype Wp = Wp(ch: nat, lun: nat, pg: nat, blk: nat, pl: nat)

  predicate ValidWp(g: Params, w: Wp)
  {
    w.ch < g.nchs && w.lun < g.lunsPerCh && w.pl == 0 && w.blk < g.blksPerPl && w.pg < g.pgsPerBlk
  }

  /** `get_new_page`. */
  function PageAt(w: Wp): Ppa {
    Ppa(w.ch, w.lun, w.pl, w.blk, w.pg)
  }

  /** `prepare_write_pointer` for the line `b`. */
  function StartWp(b: nat): Wp {
    Wp(0, 0, 0, b, 0)
  }

  /** The pointer arithmetic of `advance_write_pointer`; None when the line is used up. */
  function NextWp(g: Params, w: Wp): Option<Wp>
    requires g.pgsPerOneshotpg > 0
  {
    var os := g.pgsPerOneshotpg;
    if (w.pg + 1) % os != 0 then Some(w.(pg := w.pg + 1))
    else
      StepPage(w.pg, os);
      var pg := w.pg + 1 - os;
      if w.ch + 1 != g.nchs then Some(w.(ch := w.ch + 1, pg := pg))
      else if w.lun + 1 != g.lunsPerCh then Some(w.(ch := 0, lun := w.lun + 1, pg := pg))
      else if pg + os != g.pgsPerBlk then Some(w.(ch := 0, lun := 0, pg := pg + os))
      else None
  }

  // ----- Lines and blocks as sets of pages -----

  ghost function LinePages(g: Params, b: nat): set<Ppa>
  {
    set ch, lun, pg | 0 <= ch < g.nchs && 0 <= lun < g.lunsPerCh && 0 <= pg < g.pgsPerBlk :: Ppa(ch, lun, 0, b, pg)
  }

  ghost function BlkPages(g: Params, k: Blk): set<Ppa>
  {
    set pg | 0 <= pg < g.pgsPerBlk :: Ppa(k.ch, k.lun, 0, k.blk, pg)
  }

  function Pages(g: Params): set<Ppa>
  {
    set ch, lun, b, pg | 0 <= ch < g.nchs && 0 <= lun < g.lunsPerCh && 0 <= b < g.blksPerPl && 0 <= pg < g.pgsPerBlk
      :: Ppa(ch, lun, 0, b, pg)
  }

  lemma {:induction false} BlkPagesPrefix(k: Blk, n: nat)
    ensures |set pg | 0 <= pg < n :: Ppa(k.ch, k.lun, 0, k.blk, pg)| == n
  {
    var s := set pg | 0 <= pg < n :: Ppa(k.ch, k.lun, 0, k.blk, pg);
    if n == 0 {
      assert s == {};
    } else {
      var r := set pg | 0 <= pg < n - 1 :: Ppa(k.ch, k.lun, 0, k.blk, pg);
      BlkPagesPrefix(k, n - 1);
      assert s == r + {Ppa(k.ch, k.lun, 0, k.blk, n - 1)};
    }
  }

  lemma BlkSize(g: Params, k: Blk)
    ensures |BlkPages(g, k)| == g.pgsPerBlk
  {
    BlkPagesPrefix(k, g.pgsPerBlk);
  }

  ghost function LunRow(g: Params, b: nat, ch: nat, n: nat): set<Ppa>
  {
    set lun, pg | 0 <= lun < n && 0 <= pg < g.pgsPerBlk :: Ppa(ch, lun, 0, b, pg)
  }

  ghost function ChRows(g: Params, b: nat, n: nat): set<Ppa>
  {
    set ch, lun, pg | 0 <= ch < n && 0 <= lun < g.lunsPerCh && 0 <= pg < g.pgsPerBlk :: Ppa(ch, lun, 0, b, pg)
  }

  lemma LunRowGrows(g: Params, b: nat, ch: nat, n: nat)
    ensures LunRow(g, b, ch, 0) == {}
    ensures LunRow(g, b, ch, n + 1) == LunRow(g, b, ch, n) + BlkPages(g, Blk(ch, n, b))
    ensures LunRow(g, b, ch, n) !! BlkPages(g, Blk(ch, n, b))
  {
  }

  lemma {:induction false} LunRowSize(g: Params, b: nat, ch: nat, n: nat)
    ensures |LunRow(g, b, ch, n)| == n * g.pgsPerBlk
  {
    hide LunRow, BlkPages;
    if n == 0 {
      LunRowGrows(g, b, ch, 0);
    } else {
      LunRowSize(g, b, ch, n - 1);
      LunRowGrows(g, b, ch, n - 1);
      BlkSize(g, Blk(ch, n - 1, b));
    }
  }

  lemma ChRowsGrow(g: Params, b: nat, n: nat)
    ensures ChRows(g, b, 0) == {}
    ensures ChRows(g, b, n + 1) == ChRows(g, b, n) + LunRow(g, b, n, g.lunsPerCh)
    ensures ChRows(g, b, n) !! LunRow(g, b, n, g.lunsPerCh)
  {
  }

  lemma {:induction false} ChRowsSize(g: Params, b: nat, n: nat)
    ensures |ChRows(g, b, n)| == n * (g.lunsPerCh * g.pgsPerBlk)
  {
    hide ChRows, LunRow;
    if n == 0 {
      ChRowsGrow(g, b, 0);
    } else {
      ChRowsSize(g, b, n - 1);
      ChRowsGrow(g, b, n - 1);
      LunRowSize(g, b, n - 1, g.lunsPerCh);
    }
  }

  /** A line really holds `pgs_per_line` pages. */
  lemma LineSize(g: Params, b: nat)
    requires Sound(g)
    ensures |LinePages(g, b)| == g.pgsPerLine
  {
    ChRowsSize(g, b, g.nchs);
    assert LinePages(g, b) == ChRows(g, b, g.nchs);
    Commute(g.nchs, g.lunsPerCh, g.pgsPerBlk);
  }

  // ----- Quotients and remainders by a variable -----

  lemma QuotRem(x: nat, k: nat)
    requires k > 0
    ensures x == (x / k) * k + x % k && 0 <= x % k < k
  {
  }

  lemma QuotRemIs(x: nat, q: nat, r: nat, k: nat)
    requires x == q * k + r && r < k
    ensures x / k == q && x % k == r
  {
    QuotRem(x, k);
    DigitsUnique(x / k, x % k, q, r, k);
  }

  lemma StepInside(q: nat, r: nat, pg: nat, os: nat)
    requires pg == q * os + r && r + 1 < os
    ensures (pg + 1) / os == q && (pg + 1) % os == r + 1
  {
    QuotRemIs(pg + 1, q, r + 1, os);
  }

  lemma StepOver(q: nat, pg: nat, os: nat)
    requires os > 0 && pg == q * os + (os - 1)
    ensures pg + 1 >= os && (pg + 1 - os) / os == q && (pg + 1 - os) % os == 0
    ensures (pg + 1) / os == q + 1 && (pg + 1) % os == 0
  {
    assert (q + 1) * os == q * os + os;
    QuotRemIs(pg + 1, q + 1, 0, os);
    QuotRemIs(pg + 1 - os, q, 0, os);
  }

  /** Stepping to the next page stays in the one-shot page or starts the next one. */
  lemma StepPage(pg: nat, os: nat)
    requires os > 0
    ensures (pg + 1) % os != 0 ==> (pg + 1) / os == pg / os && (pg + 1) % os == pg % os + 1
    ensures (pg + 1) % os == 0 ==>
      && pg % os == os - 1 && pg + 1 >= os
      && (pg + 1 - os) / os == pg / os && (pg + 1 - os) % os == 0
      && (pg + 1) / os == pg / os + 1
  {
    QuotRem(pg, os);
    var q, r := pg / os, pg % os;
    if r + 1 < os {
      StepInside(q, r, pg, os);
    } else {
      StepOver(q, pg, os);
    }
  }

  /** Two pages with the same quotient and remainder are the same. */
  lemma SamePage(p: nat, q: nat, k: nat)
    requires k > 0 && p / k == q / k && p % k == q % k
    ensures p == q
  {
    QuotRem(p, k);
    QuotRem(q, k);
  }

  lemma QuotBound(pg: nat, k: nat, n: nat)
    requires k > 0 && pg < k * n
    ensures pg / k < n
  {
    QuotRem(pg, k);
    LessTimes(n, pg / k + 1, k);
  }

  /** The row ends at the block's end exactly when it is the last one. */
  lemma LastRow(pg: nat, os: nat, n: nat)
    requires os > 0 && pg < os * n && (pg + 1) % os == 0
    ensures pg + 1 == os * n <==> pg / os + 1 == n
  {
    StepPage(pg, os);
    var q := pg / os + 1;
    QuotRem(pg + 1, os);
    LessTimes(q, n, os);
    LessTimes(n, q, os);
  }

  // ----- The write pointer's order -----

  /** A place in the walk: the one-shot page row, then the LUN, then the channel, then
      the page inside the one-shot page. */
  datatype Place = Place(row: nat, lun: nat, ch: nat, off: nat)

  predicate Earlier(a: Place, b: Place)
  {
    || a.row < b.row
    || (a.row == b.row && a.lun < b.lun)
    || (a.row == b.row && a.lun == b.lun && a.ch < b.ch)
    || (a.row == b.row && a.lun == b.lun && a.ch == b.ch && a.off < b.off)
  }

  function PlaceOf(g: Params, p: Ppa): Place
    requires g.pgsPerOneshotpg > 0
  {
    Place(p.pg / g.pgsPerOneshotpg, p.lun, p.ch, p.pg % g.pgsPerOneshotpg)
  }

  predicate InWalk(g: Params, q: Place)
  {
    q.row < g.oneshotpgsPerBlk && q.lun < g.lunsPerCh && q.ch < g.nchs && q.off < g.pgsPerOneshotpg
  }

  function NextPlace(g: Params, q: Place): Option<Place>
  {
    if q.off + 1 != g.pgsPerOneshotpg then Some(q.(off := q.off + 1))
    else if q.ch + 1 != g.nchs then Some(q.(ch := q.ch + 1, off := 0))
    else if q.lun + 1 != g.lunsPerCh then Some(q.(lun := q.lun + 1, ch := 0, off := 0))
    else if q.row + 1 != g.oneshotpgsPerBlk then Some(Place(q.row + 1, 0, 0, 0))
    else None
  }

  /** The next place is the successor in the order; the last place is the greatest. */
  lemma NextPlaceIsSuccessor(g: Params, q: Place, x: Place)
    requires InWalk(g, q) && InWalk(g, x)
    ensures NextPlace(g, q).Some? ==> InWalk(g, NextPlace(g, q).value)
    ensures NextPlace(g, q).Some? ==> (Earlier(x, NextPlace(g, q).value) <==> Earlier(x, q) || x == q)
    ensures NextPlace(g, q).None? ==> Earlier(x, q) || x == q
  {
  }

  lemma PlaceInWalk(g: Params, p: Ppa)
    requires Sound(g) && p.ch < g.nchs && p.lun < g.lunsPerCh && p.pg < g.pgsPerBlk
    ensures InWalk(g, PlaceOf(g, p))
  {
    QuotBound(p.pg, g.pgsPerOneshotpg, g.oneshotpgsPerBlk);
  }

  /** The pointer arithmetic walks along the places. */
  lemma NextWpWalks(g: Params, w: Wp)
    requires Sound(g) && ValidWp(g, w)
    ensures NextWp(g, w).Some? <==> NextPlace(g, PlaceOf(g, PageAt(w))).Some?
    ensures NextWp(g, w).Some? ==>
      var w' := NextWp(g, w).value;
      && ValidWp(g, w') && w'.blk == w.blk
      && PlaceOf(g, PageAt(w')) == NextPlace(g, PlaceOf(g, PageAt(w))).value
  {
    var os := g.pgsPerOneshotpg;
    StepPage(w.pg, os);
    if (w.pg + 1) % os == 0 {
      LastRow(w.pg, os, g.oneshotpgsPerBlk);
    } else {
      NotLast(w.pg, os, g.oneshotpgsPerBlk);
    }
  }

  lemma NotLast(pg: nat, os: nat, n: nat)
    requires os > 0 && pg < os * n && (pg + 1) % os != 0
    ensures pg + 1 < os * n
  {
    if pg + 1 == os * n {
      QuotRemIs(pg + 1, n, 0, os);
    }
  }

  /** Page `p` comes before the page under `w`, within a line. */
  ghost predicate Before(g: Params, p: Ppa, w: Wp)
    requires g.pgsPerOneshotpg > 0
  {
    Earlier(PlaceOf(g, p), PlaceOf(g, PageAt(w)))
  }

  /** The pages of the line that the pointer has passed. */
  ghost function Filled(g: Params, w: Wp): set<Ppa>
    requires g.pgsPerOneshotpg > 0
  {
    set p | p in LinePages(g, w.blk) && Before(g, p, w)
  }

  /** One advance passes exactly the page under the pointer. */
  lemma NextPasses(g: Params, w: Wp, p: Ppa)
    requires Sound(g) && ValidWp(g, w) && p in LinePages(g, w.blk)
    ensures NextWp(g, w).Some? ==> (Before(g, p, NextWp(g, w).value) <==> Before(g, p, w) || p == PageAt(w))
    ensures NextWp(g, w).None? ==> Before(g, p, w) || p == PageAt(w)
  {
    NextWpWalks(g, w);
    PlaceInWalk(g, p);
    PlaceInWalk(g, PageAt(w));
    NextPlaceIsSuccessor(g, PlaceOf(g, PageAt(w)), PlaceOf(g, p));
    if PlaceOf(g, p) == PlaceOf(g, PageAt(w)) {
      SamePage(p.pg, w.pg, g.pgsPerOneshotpg);
    }
  }

  /** The pointer starts with nothing passed. */
  lemma StartFilled(g: Params, b: nat)
    requires Sound(g) && b < g.blksPerPl
    ensures ValidWp(g, StartWp(b)) && Filled(g, StartWp(b)) == {}
  {
    QuotRemIs(0, 0, 0, g.pgsPerOneshotpg);
  }

  /** Advancing adds the page under the pointer to the passed ones; when the line is used
      up every page of it has been passed. */
  lemma AdvanceFills(g: Params, w: Wp)
    requires Sound(g) && ValidWp(g, w)
    ensures PageAt(w) in LinePages(g, w.blk) && PageAt(w) !in Filled(g, w)
    ensures NextWp(g, w).Some? ==>
      var w' := NextWp(g, w).value;
      ValidWp(g, w') && w'.blk == w.blk && Filled(g, w') == Filled(g, w) + {PageAt(w)}
    ensures NextWp(g, w).None? ==> LinePages(g, w.blk) == Filled(g, w) + {PageAt(w)}
  {
    NextWpWalks(g, w);
    forall p | p in LinePages(g, w.blk)
      ensures NextWp(g, w).Some? ==> (Before(g, p, NextWp(g, w).value) <==> Before(g, p, w) || p == PageAt(w))
      ensures NextWp(g, w).None? ==> Before(g, p, w) || p == PageAt(w)
    {
      NextPasses(g, w, p);
    }
  }

  /** The pointer after `k` advances from the start of line `b`, while the line lasts. */
  ghost function WpAfter(g: Params, b: nat, k: nat): Option<Wp>
    requires g.pgsPerOneshotpg > 0
  {
    if k == 0 then Some(StartWp(b))
    else
      var w := WpAfter(g, b, k - 1);
      if w.None? then None else NextWp(g, w.value)
  }

  /** The write pointer visits every page of a line exactly once: after `k` advances it has
      passed `k` pages, and it runs out of the line after exactly `pgs_per_line`. */
  lemma {:induction false} VisitsEveryPageOnce(g: Params, b: nat, k: nat)
    requires Sound(g) && b < g.blksPerPl && k <= g.pgsPerLine
    ensures WpAfter(g, b, k).Some? <==> k < g.pgsPerLine
    ensures k < g.pgsPerLine ==>
      var w := WpAfter(g, b, k).value;
      && ValidWp(g, w) && w.blk == b && |Filled(g, w)| == k
      && PageAt(w) in LinePages(g, b) - Filled(g, w)
  {
    LineSize(g, b);
    if k == 0 {
      StartFilled(g, b);
      AdvanceFills(g, StartWp(b));
    } else {
      VisitsEveryPageOnce(g, b, k - 1);
      var w := WpAfter(g, b, k - 1).value;
      AdvanceFills(g, w);
      var passed := Filled(g, w) + {PageAt(w)};
      assert |passed| == k;
      if NextWp(g, w).Some? {
        var w' := NextWp(g, w).value;
        AdvanceFills(g, w');
        MoreRoom(passed, LinePages(g, b), PageAt(w'));
      }
    }
  }

  lemma MoreRoom<T>(s: set<T>, t: set<T>, x: T)
    requires s <= t && x in t && x !in s
    ensures |s| < |t|
  {
    SubsetSize(s + {x}, t);
  }

  /** Which page comes when: page number `k` of the walk has the number that its place spells with the
      digits row, LUN, channel and page of the one-shot page. */
  lemma {:induction false} PageNumber(g: Params, b: nat, k: nat)
    requires Sound(g) && b < g.blksPerPl && k < g.pgsPerLine
    ensures WpAfter(g, b, k).Some?
    ensures var p, os := PageAt(WpAfter(g, b, k).value), g.pgsPerOneshotpg;
            && p.blk == b && p.ch < g.nchs && p.lun < g.lunsPerCh && p.pg < g.pgsPerBlk
            && k == ((p.pg / os * g.lunsPerCh + p.lun) * g.nchs + p.ch) * os + p.pg % os
  {
    hide Filled, LinePages, NextWp;
    VisitsEveryPageOnce(g, b, k);
    if k == 0 {
      QuotRemIs(0, 0, 0, g.pgsPerOneshotpg);
    } else {
      PageNumber(g, b, k - 1);
      VisitsEveryPageOnce(g, b, k - 1);
      NumberAfter(g, WpAfter(g, b, k - 1).value);
    }
  }

  lemma NumberAfter(g: Params, w: Wp)
    requires Sound(g) && ValidWp(g, w) && NextWp(g, w).Some?
    ensures var p, q, os := PageAt(w), PageAt(NextWp(g, w).value), g.pgsPerOneshotpg;
            ((q.pg / os * g.lunsPerCh + q.lun) * g.nchs + q.ch) * os + q.pg % os
            == ((p.pg / os * g.lunsPerCh + p.lun) * g.nchs + p.ch) * os + p.pg % os + 1
  {
    NextWpWalks(g, w);
    hide Sound, NextWp;
    NumberStep(g, PlaceOf(g, PageAt(w)));
  }

  lemma NumberStep(g: Params, q: Place)
    requires NextPlace(g, q).Some?
    ensures var r := NextPlace(g, q).value;
            && q.lun < g.lunsPerCh && q.ch < g.nchs && q.off < g.pgsPerOneshotpg ==>
            ((r.row * g.lunsPerCh + r.lun) * g.nchs + r.ch) * g.pgsPerOneshotpg + r.off
            == ((q.row * g.lunsPerCh + q.lun) * g.nchs + q.ch) * g.pgsPerOneshotpg + q.off + 1
  {
  }

  // ----- The garbage collector's order -----

  /** Page `p` has been scanned once the loops of `do_gc` stand at flash page `fp`,
      channel `ch`, LUN `lun`. */
  ghost predicate ScannedBefore(g: Params, p: Ppa, fp: nat, ch: nat, lun: nat)
    requires g.pgsPerFlashpg > 0
  {
    var q := p.pg / g.pgsPerFlashpg;
    q < fp || (q == fp && (p.ch < ch || (p.ch == ch && p.lun < lun)))
  }

  ghost function Scanned(g: Params, b: nat, fp: nat, ch: nat, lun: nat): set<Ppa>
    requires g.pgsPerFlashpg > 0
  {
    set p | p in LinePages(g, b) && ScannedBefore(g, p, fp, ch, lun)
  }

  /** The first `i` pages of one flash page. */
  ghost function FlashPrefix(g: Params, b: nat, fp: nat, ch: nat, lun: nat, i: nat): set<Ppa>
    requires g.pgsPerFlashpg > 0
  {
    set p | p in LinePages(g, b) && p.ch == ch && p.lun == lun
            && p.pg / g.pgsPerFlashpg == fp && p.pg % g.pgsPerFlashpg < i
  }

  /** `ppa.g.pg` while `clean_one_flashpg` is at its `i`-th page. */
  function FlashPgAt(g: Params, b: nat, fp: nat, ch: nat, lun: nat, i: nat): Ppa
  {
    Ppa(ch, lun, 0, b, Times(fp, g.pgsPerFlashpg) + i)
  }

  lemma FlashPrefixGrows(g: Params, b: nat, fp: nat, ch: nat, lun: nat, i: nat)
    requires Sound(g) && fp < g.flashpgsPerBlk && ch < g.nchs && lun < g.lunsPerCh && i < g.pgsPerFlashpg
    ensures FlashPgAt(g, b, fp, ch, lun, i) in LinePages(g, b)
    ensures FlashPgAt(g, b, fp, ch, lun, i) !in Scanned(g, b, fp, ch, lun) + FlashPrefix(g, b, fp, ch, lun, i)
    ensures FlashPrefix(g, b, fp, ch, lun, i + 1) ==
            FlashPrefix(g, b, fp, ch, lun, i) + {FlashPgAt(g, b, fp, ch, lun, i)}
  {
    var F := g.pgsPerFlashpg;
    var x := FlashPgAt(g, b, fp, ch, lun, i);
    QuotRemIs(x.pg, fp, i, F);
    DigitInRange(fp, g.flashpgsPerBlk, i, F);
    forall p | p in LinePages(g, b) && p.pg / F == fp && p.pg % F == i ensures p.pg == x.pg {
      SamePage(p.pg, x.pg, F);
    }
  }

  /** The scan's bookkeeping at the loop heads of `do_gc` and `clean_one_flashpg`. */
  lemma ScanStarts(g: Params, b: nat, fp: nat, ch: nat, lun: nat)
    requires g.pgsPerFlashpg > 0
    ensures Scanned(g, b, 0, 0, 0) == {}
    ensures FlashPrefix(g, b, fp, ch, lun, 0) == {}
  {
  }

  lemma ScanNextLun(g: Params, b: nat, fp: nat, ch: nat, lun: nat)
    requires g.pgsPerFlashpg > 0
    ensures Scanned(g, b, fp, ch, lun + 1) ==
            Scanned(g, b, fp, ch, lun) + FlashPrefix(g, b, fp, ch, lun, g.pgsPerFlashpg)
  {
  }

  lemma ScanNextRow(g: Params, b: nat, fp: nat, ch: nat)
    requires g.pgsPerFlashpg > 0
    ensures Scanned(g, b, fp, ch + 1, 0) == Scanned(g, b, fp, ch, g.lunsPerCh)
    ensures Scanned(g, b, fp + 1, 0, 0) == Scanned(g, b, fp, g.nchs, 0)
  {
  }

  /** The garbage collector scans every page of the victim. */
  lemma ScanCoversLine(g: Params, b: nat)
    requires Sound(g)
    ensures Scanned(g, b, g.flashpgsPerBlk, 0, 0) == LinePages(g, b)
  {
    forall p | p in LinePages(g, b) ensures p.pg / g.pgsPerFlashpg < g.flashpgsPerBlk {
      QuotBound(p.pg, g.pgsPerFlashpg, g.flashpgsPerBlk);
    }
  }

  /** A block is erased only after all of its pages have been scanned. */
  lemma BlockScannedBeforeErase(g: Params, b: nat, fp: nat, ch: nat, lun: nat)
    requires Sound(g) && fp + 1 == g.flashpgsPerBlk && ch < g.nchs && lun < g.lunsPerCh
    ensures BlkPages(g, Blk(ch, lun, b)) <= Scanned(g, b, fp, ch, lun + 1)
  {
    forall p | p in BlkPages(g, Blk(ch, lun, b)) ensures p in Scanned(g, b, fp, ch, lun + 1) {
      QuotBound(p.pg, g.pgsPerFlashpg, g.flashpgsPerBlk);
    }
  }
}
