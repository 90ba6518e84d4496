/** The read loop of `conv_read` (conv_ftl.c): one stripe of LPNs is looked up in a mapping
    table and neighbouring pages of the same flash page are read together. */
module ReadPath {
  import opened Wrappers
  import opened IdLists
  import opened Geometry
  import opened Traversal

  /** One `ssd_advance_nand` call of the read path: `size` bytes at `ppa`. */
  datatype NandRead = NandRead(ppa: Ppa, size: nat)

  /** `is_same_flash_page`. */
  predicate SameFlashPage(g: Params, p: Ppa, q: Ppa)
    requires g.pgsPerFlashpg > 0
  {
    && p.blk == q.blk && p.pl == q.pl && p.lun == q.lun && p.ch == q.ch
    && p.pg / g.pgsPerFlashpg == q.pg / g.pgsPerFlashpg
  }

  function TotalSize(rs: seq<NandRead>): nat
  {
    if rs == [] then 0 else TotalSize(rs[..|rs| - 1]) + rs[|rs| - 1].size
  }

  ghost predicate OnStripe(first: nat, n: nat, l: nat)
    requires n > 0
  {
    first <= l && (l - first) % n == 0
  }

  /** The LPNs from `first` up to (not including) `end` in steps of `n`. */
  ghost function Stripe(first: nat, end: nat, n: nat): set<nat>
    requires n > 0
  {
    set l | 0 <= l < end && OnStripe(first, n, l)
  }

  /** Those of them that are mapped in the partition's table. */
  ghost function MappedIn(maptbl: seq<Option<Ppa>>, lpns: set<nat>, n: nat): set<nat>
    requires n > 0
  {
    set l | l in lpns && Quot(l, n) < |maptbl| && maptbl[Quot(l, n)].Some?
  }

  /** What the FTL invariant says about a mapping table: entries are valid addresses, and no
      two LPNs share a page. */
  ghost predicate Injective(g: Params, maptbl: seq<Option<Ppa>>)
  {
    && (forall i :: 0 <= i < |maptbl| && maptbl[i].Some? ==> ValidPpa(g, maptbl[i].value))
    && (forall i, j :: 0 <= i < j < |maptbl| && maptbl[i].Some? && maptbl[j].Some? ==>
          maptbl[i].value != maptbl[j].value)
  }

  /** A flash page holds `pgs_per_flashpg` pages. */
  lemma {:induction false} FlashPrefixSize(g: Params, b: nat, fp: nat, ch: nat, lun: nat, i: nat)
    requires Sound(g) && fp < g.flashpgsPerBlk && ch < g.nchs && lun < g.lunsPerCh && i <= g.pgsPerFlashpg
    ensures |FlashPrefix(g, b, fp, ch, lun, i)| == i
  {
    if i == 0 {
      ScanStarts(g, b, fp, ch, lun);
    } else {
      FlashPrefixSize(g, b, fp, ch, lun, i - 1);
      FlashPrefixGrows(g, b, fp, ch, lun, i - 1);
    }
  }

  /** Distinct pages of one flash page: at most `pgs_per_flashpg` of them. */
  lemma GroupFits(g: Params, grp: set<Ppa>, p: Ppa)
    requires Sound(g) && ValidPpa(g, p)
    requires forall q :: q in grp ==> ValidPpa(g, q) && SameFlashPage(g, q, p)
    ensures |grp| <= g.pgsPerFlashpg
  {
    var fp := p.pg / g.pgsPerFlashpg;
    QuotBound(p.pg, g.pgsPerFlashpg, g.flashpgsPerBlk);
    FlashPrefixSize(g, p.blk, fp, p.ch, p.lun, g.pgsPerFlashpg);
    forall q | q in grp ensures q in FlashPrefix(g, p.blk, fp, p.ch, p.lun, g.pgsPerFlashpg) {
      QuotRem(q.pg, g.pgsPerFlashpg);
      assert q.pl == 0;
    }
    SubsetSize(grp, FlashPrefix(g, p.blk, fp, p.ch, p.lun, g.pgsPerFlashpg));
  }

  /** The pages that share a flash page with a valid one are as many as a flash page holds. */
  lemma FlashPageIsWhole(g: Params, p: Ppa)
    requires Sound(g) && ValidPpa(g, p)
    ensures g.pgsPerFlashpg > 0
    ensures var grp := set q | q in LinePages(g, p.blk) && SameFlashPage(g, q, p); |grp| == g.pgsPerFlashpg && p in grp
  {
    var fp := p.pg / g.pgsPerFlashpg;
    var grp := set q | q in LinePages(g, p.blk) && SameFlashPage(g, q, p);
    hide Sound, LinePages, SameFlashPage, FlashPrefix;
    PlaneSizes(g);
    FlashPageOf(g, p, p);
    FlashPrefixSize(g, p.blk, fp, p.ch, p.lun, g.pgsPerFlashpg);
    forall q ensures q in grp <==> q in FlashPrefix(g, p.blk, fp, p.ch, p.lun, g.pgsPerFlashpg) { FlashPageOf(g, p, q); }
    assert grp == FlashPrefix(g, p.blk, fp, p.ch, p.lun, g.pgsPerFlashpg);
  }

  lemma FlashPageOf(g: Params, p: Ppa, q: Ppa)
    requires Sound(g) && ValidPpa(g, p)
    ensures g.pgsPerFlashpg > 0 && p.pg / g.pgsPerFlashpg < g.flashpgsPerBlk && p in LinePages(g, p.blk)
    ensures p.ch < g.nchs && p.lun < g.lunsPerCh && SameFlashPage(g, p, p)
    ensures q in LinePages(g, p.blk) && SameFlashPage(g, q, p) <==>
              q in FlashPrefix(g, p.blk, p.pg / g.pgsPerFlashpg, p.ch, p.lun, g.pgsPerFlashpg)
  {
    QuotBound(p.pg, g.pgsPerFlashpg, g.flashpgsPerBlk);
    QuotRem(q.pg, g.pgsPerFlashpg);
  }

  // ----- Which reads are issued: one for each run of pages in one flash page -----

  /** The reads for `pages` in this order: a page in the flash page of the read before it joins
      that read, any other begins a new one. */
  function Joined(g: Params, pages: seq<Ppa>): (rs: seq<NandRead>)
    requires g.pgsPerFlashpg > 0
    ensures rs == [] <==> pages == []
  {
    if pages == [] then []
    else
      var n := |pages| - 1;
      var rs, p := Joined(g, pages[..n]), pages[n];
      if n > 0 && SameFlashPage(g, p, rs[|rs| - 1].ppa) then
        rs[|rs| - 1 := NandRead(rs[|rs| - 1].ppa, rs[|rs| - 1].size + g.pgsz)]
      else rs + [NandRead(p, g.pgsz)]
  }

  /** The reads are the maximal runs: read `i` begins at the page `starts[i]`, takes all the pages
      up to where the next one begins, all in one flash page, and the next is in another. */
  ghost predicate AreRuns(g: Params, pages: seq<Ppa>, rs: seq<NandRead>, starts: seq<nat>)
    requires g.pgsPerFlashpg > 0
  {
    && |starts| == |rs| + 1 && starts[0] == 0 && starts[|rs|] == |pages|
    && (forall i :: 0 <= i < |rs| ==> IsRun(g, pages, rs[i], starts[i], starts[i + 1]))
    && (forall i :: 0 < i < |rs| ==> !SameFlashPage(g, rs[i].ppa, rs[i - 1].ppa))
  }

  ghost predicate IsRun(g: Params, pages: seq<Ppa>, r: NandRead, a: nat, b: nat)
    requires g.pgsPerFlashpg > 0
  {
    && a < b <= |pages| && r == NandRead(pages[a], Times(b - a, g.pgsz))
    && forall k :: a <= k < b ==> SameFlashPage(g, pages[k], pages[a])
  }

  lemma {:induction false} JoinedAreRuns(g: Params, pages: seq<Ppa>) returns (starts: seq<nat>)
    requires g.pgsPerFlashpg > 0
    ensures AreRuns(g, pages, Joined(g, pages), starts)
  {
    hide SameFlashPage, Times, IsRun;
    if pages == [] {
      starts := [0];
    } else {
      var n := |pages| - 1;
      var before := JoinedAreRuns(g, pages[..n]);
      var rs, rs', m := Joined(g, pages[..n]), Joined(g, pages), |Joined(g, pages[..n])|;
      forall i | 0 <= i < m ensures IsRun(g, pages, rs[i], before[i], before[i + 1]) {
        RunOfLonger(g, pages, n, rs[i], before[i], before[i + 1]);
      }
      if n > 0 && SameFlashPage(g, pages[n], rs[m - 1].ppa) {
        starts := before[m := n + 1];
        RunGrows(g, pages, rs[m - 1], before[m - 1], n);
        forall i | 0 <= i < m ensures IsRun(g, pages, rs'[i], starts[i], starts[i + 1]) {
          assert i < m - 1 ==> IsRun(g, pages, rs[i], before[i], before[i + 1]);
        }
      } else {
        starts := before + [n + 1];
        RunOfOne(g, pages, n);
        forall i | 0 <= i < m + 1 ensures IsRun(g, pages, rs'[i], starts[i], starts[i + 1]) {
          assert i < m ==> IsRun(g, pages, rs[i], before[i], before[i + 1]);
        }
      }
    }
  }

  lemma RunOfLonger(g: Params, pages: seq<Ppa>, n: nat, r: NandRead, a: nat, b: nat)
    requires g.pgsPerFlashpg > 0 && n <= |pages| && IsRun(g, pages[..n], r, a, b)
    ensures IsRun(g, pages, r, a, b)
  {
    hide SameFlashPage, Times;
    assert pages[a] == pages[..n][a];
    forall k | a <= k < b ensures SameFlashPage(g, pages[k], pages[a]) { assert pages[k] == pages[..n][k]; }
  }

  lemma RunGrows(g: Params, pages: seq<Ppa>, r: NandRead, a: nat, b: nat)
    requires g.pgsPerFlashpg > 0 && b < |pages| && IsRun(g, pages, r, a, b) && SameFlashPage(g, pages[b], r.ppa)
    ensures IsRun(g, pages, NandRead(r.ppa, r.size + g.pgsz), a, b + 1)
  {
    hide SameFlashPage, Times;
    OneMore(b - a, g.pgsz);
  }

  lemma RunOfOne(g: Params, pages: seq<Ppa>, a: nat)
    requires g.pgsPerFlashpg > 0 && a < |pages|
    ensures IsRun(g, pages, NandRead(pages[a], g.pgsz), a, a + 1)
  {
  }

  /** The LPNs of a stripe in the order of the loop. */
  function StripeLpns(l: nat, last: nat, n: nat): seq<nat>
    requires n > 0
    decreases if l <= last then last - l + 1 else 0
  {
    if l > last then [] else [l] + StripeLpns(l + n, last, n)
  }

  /** They are the LPNs of the stripe, each `n` above the one before. */
  lemma {:induction false} StripeInOrder(l: nat, last: nat, n: nat, x: nat)
    requires n > 0
    ensures x in StripeLpns(l, last, n) <==> x in Stripe(l, last + 1, n)
    ensures var ls := StripeLpns(l, last, n); forall i :: 0 <= i < |ls| ==> ls[i] == l + Times(i, n)
    decreases if l <= last then last - l + 1 else 0
  {
    if l <= last {
      StripeInOrder(l + n, last, n, x);
      var ls, rest := StripeLpns(l, last, n), StripeLpns(l + n, last, n);
      forall i | 0 <= i < |ls| ensures ls[i] == l + Times(i, n) {
        if i > 0 { OneMore(i - 1, n); assert ls[i] == rest[i - 1]; }
      }
      StripeStep(l, n, x);
    }
  }

  lemma StripeStep(l: nat, n: nat, x: nat)
    requires n > 0
    ensures OnStripe(l, n, x) <==> x == l || OnStripe(l + n, n, x)
  {
    if x >= l + n {
      ResidueStep(x - l, n);
      assert x - l - n == x - (l + n);
    } else if x >= l {
      QuotRemIs(x - l, 0, x - l, n);
    }
  }

  lemma ResidueStep(d: nat, n: nat)
    requires n > 0 && d >= n
    ensures (d - n) % n == d % n
  {
    QuotRem(d, n);
    assert (d / n - 1) * n == d / n * n - n;
    QuotRemIs(d - n, d / n - 1, d % n, n);
  }

  /** The mapped pages of these LPNs, in their order. */
  function PagesOf(maptbl: seq<Option<Ppa>>, lpns: seq<nat>, n: nat): seq<Ppa>
    requires n > 0
  {
    if lpns == [] then [] else PageOf(maptbl, Quot(lpns[0], n)) + PagesOf(maptbl, lpns[1..], n)
  }

  function PageOf(maptbl: seq<Option<Ppa>>, i: nat): seq<Ppa> {
    if i < |maptbl| && maptbl[i].Some? then [maptbl[i].value] else []
  }

  /** What becomes of each LPN by itself, one after the other. */
  lemma {:induction false} PagesOfSplits(maptbl: seq<Option<Ppa>>, a: seq<nat>, b: seq<nat>, n: nat)
    requires n > 0
    ensures PagesOf(maptbl, a + b, n) == PagesOf(maptbl, a, n) + PagesOf(maptbl, b, n)
  {
    if a == [] {
      assert a + b == b;
    } else {
      PagesOfSplits(maptbl, a[1..], b, n);
      assert (a + b)[1..] == a[1..] + b;
    }
  }

  lemma PagesOfOne(maptbl: seq<Option<Ppa>>, l: nat, n: nat)
    requires n > 0
    ensures Quot(l, n) < |maptbl| && maptbl[Quot(l, n)].Some? ==> PagesOf(maptbl, [l], n) == [maptbl[Quot(l, n)].value]
    ensures !(Quot(l, n) < |maptbl| && maptbl[Quot(l, n)].Some?) ==> PagesOf(maptbl, [l], n) == []
  {
  }

  function StripePages(maptbl: seq<Option<Ppa>>, l: nat, last: nat, n: nat): seq<Ppa>
    requires n > 0
  {
    PagesOf(maptbl, StripeLpns(l, last, n), n)
  }

  /** Page `p` is read by one of the issued reads. */
  ghost predicate Covered(g: Params, issued: seq<NandRead>, p: Ppa)
    requires g.pgsPerFlashpg > 0
  {
    exists i :: 0 <= i < |issued| && SameFlashPage(g, p, issued[i].ppa)
  }

  /** Every issued read is at most one flash page at a valid address. */
  ghost predicate SizesFit(g: Params, issued: seq<NandRead>)
  {
    forall i :: 0 <= i < |issued| ==>
      0 < issued[i].size <= Times(g.pgsPerFlashpg, g.pgsz) && ValidPpa(g, issued[i].ppa)
  }

  lemma OneMore(k: nat, pgsz: nat)
    ensures Times(k + 1, pgsz) == Times(k, pgsz) + pgsz
  {
  }

  lemma SizeBetween(k: nat, n: nat, pgsz: nat)
    requires 0 < k <= n && pgsz > 0
    ensures 0 < Times(k, pgsz) <= Times(n, pgsz)
  {
  }

  // ----- What these reads amount to -----

  lemma StripePagesStep(maptbl: seq<Option<Ppa>>, l: nat, last: nat, n: nat)
    requires n > 0
    ensures StripePages(maptbl, l, last, n)
            == if l > last then [] else PageOf(maptbl, Quot(l, n)) + StripePages(maptbl, l + n, last, n)
  {
    hide Quot, PageOf;
    if l <= last { assert StripeLpns(l, last, n)[1..] == StripeLpns(l + n, last, n); }
  }

  lemma StripeShrinks(l: nat, last: nat, n: nat)
    requires n > 0
    ensures l <= last ==> Stripe(l, last + 1, n) == {l} + Stripe(l + n, last + 1, n) && l !in Stripe(l + n, last + 1, n)
    ensures l > last ==> Stripe(l, last + 1, n) == {}
  {
    if l <= last {
      var a, b := Stripe(l, last + 1, n), {l} + Stripe(l + n, last + 1, n);
      forall x: nat ensures x in a <==> x in b { StripeStep(l, n, x); }
    }
  }

  lemma QuotApart(l: nat, n: nat)
    requires n > 0
    ensures Quot(l + n, n) == Quot(l, n) + 1
  {
    QuotRem(l, n);
    assert (l / n + 1) * n == l / n * n + n;
    QuotRemIs(l + n, l / n + 1, l % n, n);
  }

  /** Page `p` belongs to a table entry from `i` on. */
  ghost predicate EntryFrom(maptbl: seq<Option<Ppa>>, i: nat, p: Ppa)
  {
    exists j :: i <= j < |maptbl| && maptbl[j] == Some(p)
  }

  lemma MappedShrinks(maptbl: seq<Option<Ppa>>, l: nat, last: nat, n: nat)
    requires n > 0
    ensures var mapped, rest := MappedIn(maptbl, Stripe(l, last + 1, n), n), MappedIn(maptbl, Stripe(l + n, last + 1, n), n);
            && (l > last ==> mapped == {})
            && (l <= last && PageOf(maptbl, Quot(l, n)) == [] ==> mapped == rest)
            && (l <= last && PageOf(maptbl, Quot(l, n)) != [] ==> mapped == {l} + rest && l !in rest)
  {
    hide Quot, Stripe;
    StripeShrinks(l, last, n);
    var mapped, rest := MappedIn(maptbl, Stripe(l, last + 1, n), n), MappedIn(maptbl, Stripe(l + n, last + 1, n), n);
    if l > last {
      assert mapped == {};
    } else if PageOf(maptbl, Quot(l, n)) == [] {
      assert mapped == rest;
    } else {
      assert mapped == {l} + rest;
    }
  }

  lemma EntriesAreApart(g: Params, maptbl: seq<Option<Ppa>>, i: nat, p: Ppa)
    requires Injective(g, maptbl) && i < |maptbl| && maptbl[i] == Some(p)
    ensures !EntryFrom(maptbl, i + 1, p) && EntryFrom(maptbl, i, p)
  {
  }

  lemma EntryFromEarlier(maptbl: seq<Option<Ppa>>, i: nat, p: Ppa)
    requires EntryFrom(maptbl, i + 1, p)
    ensures EntryFrom(maptbl, i, p)
  {
  }

  /** Different pages, of table entries from `i` on. */
  ghost predicate Apart(maptbl: seq<Option<Ppa>>, i: nat, pages: seq<Ppa>)
  {
    && (forall p :: p in pages ==> EntryFrom(maptbl, i, p))
    && (forall i, j :: 0 <= i < j < |pages| ==> pages[i] != pages[j])
  }

  lemma ApartFromEarlier(g: Params, maptbl: seq<Option<Ppa>>, i: nat, pages: seq<Ppa>)
    requires Injective(g, maptbl) && Apart(maptbl, i + 1, pages)
    ensures Apart(maptbl, i, PageOf(maptbl, i) + pages)
  {
    hide EntryFrom, Injective;
    forall p | p in pages ensures EntryFrom(maptbl, i, p) { EntryFromEarlier(maptbl, i, p); }
    if PageOf(maptbl, i) != [] { EntriesAreApart(g, maptbl, i, maptbl[i].value); }
  }

  /** The pages of a stripe are those of its mapped LPNs, each once. */
  lemma {:induction false} StripePagesAre(g: Params, maptbl: seq<Option<Ppa>>, l: nat, last: nat, n: nat)
    requires n > 0 && Injective(g, maptbl)
    ensures var pages, mapped := StripePages(maptbl, l, last, n), MappedIn(maptbl, Stripe(l, last + 1, n), n);
            && |pages| == |mapped| && Apart(maptbl, Quot(l, n), pages)
            && (forall x :: x in mapped ==> maptbl[Quot(x, n)].value in pages)
    decreases if l <= last then last - l + 1 else 0
  {
    hide Quot, Stripe, Injective, StripePages, Apart;
    StripePagesStep(maptbl, l, last, n);
    MappedShrinks(maptbl, l, last, n);
    if l <= last {
      StripePagesAre(g, maptbl, l + n, last, n);
      QuotApart(l, n);
      ApartFromEarlier(g, maptbl, Quot(l, n), StripePages(maptbl, l + n, last, n));
    } else {
      NoneApart(maptbl, Quot(l, n));
    }
  }

  lemma NoneApart(maptbl: seq<Option<Ppa>>, i: nat)
    ensures Apart(maptbl, i, [])
  {
  }

  lemma ApartAreValid(g: Params, maptbl: seq<Option<Ppa>>, i: nat, pages: seq<Ppa>)
    requires Injective(g, maptbl) && Apart(maptbl, i, pages)
    ensures forall p :: p in pages ==> ValidPpa(g, p)
    ensures forall i, j :: 0 <= i < j < |pages| ==> pages[i] != pages[j]
  {
    hide ValidPpa;
    forall p | p in pages ensures ValidPpa(g, p) {
      assert EntryFrom(maptbl, i, p);
      var j :| i <= j < |maptbl| && maptbl[j] == Some(p);
    }
  }

  lemma {:induction false} JoinedTotal(g: Params, pages: seq<Ppa>)
    requires g.pgsPerFlashpg > 0
    ensures TotalSize(Joined(g, pages)) == Times(|pages|, g.pgsz)
  {
    hide SameFlashPage;
    OneMore(0, g.pgsz);
    if pages != [] {
      var n := |pages| - 1;
      JoinedTotal(g, pages[..n]);
      OneMore(n, g.pgsz);
      var rs, rs' := Joined(g, pages[..n]), Joined(g, pages);
      assert rs'[..|rs'| - 1] == if |rs'| == |rs| then rs[..|rs| - 1] else rs;
    }
  }

  lemma RunFits(g: Params, pages: seq<Ppa>, r: NandRead, a: nat, b: nat)
    requires Sound(g) && g.pgsz > 0 && g.pgsPerFlashpg > 0 && IsRun(g, pages, r, a, b)
    requires forall i, j :: 0 <= i < j < |pages| ==> pages[i] != pages[j]
    requires forall p :: p in pages ==> ValidPpa(g, p)
    ensures 0 < r.size <= Times(g.pgsPerFlashpg, g.pgsz) && ValidPpa(g, r.ppa)
  {
    hide Sound, SameFlashPage, Times, ValidPpa;
    SeqSetSize(pages[a..b]);
    var grp := set q | q in pages[a..b];
    GroupFits(g, grp, pages[a]);
    SizeBetween(b - a, g.pgsPerFlashpg, g.pgsz);
  }

  lemma {:induction false} SeqSetSize(s: seq<Ppa>)
    requires forall i, j :: 0 <= i < j < |s| ==> s[i] != s[j]
    ensures |set q | q in s| == |s|
  {
    if s == [] {
      assert (set q | q in s) == {};
    } else {
      var n := |s| - 1;
      SeqSetSize(s[..n]);
      assert (set q | q in s) == (set q | q in s[..n]) + {s[n]} by {
        forall q | q in s ensures q in s[..n] || q == s[n] { var i :| 0 <= i < |s| && s[i] == q; assert i < n ==> s[..n][i] == q; }
      }
    }
  }

  /** One page of bytes for each mapped LPN, each read within a flash page, and each page read. */
  lemma ReadsOfStripe(g: Params, maptbl: seq<Option<Ppa>>, first: nat, last: nat, n: nat)
    requires Sound(g) && g.pgsz > 0 && Injective(g, maptbl) && n > 0
    ensures g.pgsPerFlashpg > 0
    ensures var rs, mapped := Joined(g, StripePages(maptbl, first, last, n)), MappedIn(maptbl, Stripe(first, last + 1, n), n);
            && SizesFit(g, rs) && TotalSize(rs) == Times(|mapped|, g.pgsz)
            && forall l :: l in mapped ==> Covered(g, rs, maptbl[Quot(l, n)].value)
  {
    hide Sound, Quot, Times, TotalSize, Joined, StripePages, SameFlashPage, IsRun, ValidPpa;
    PlaneSizes(g);
    StripePagesAre(g, maptbl, first, last, n);
    ApartAreValid(g, maptbl, Quot(first, n), StripePages(maptbl, first, last, n));
    var pages := StripePages(maptbl, first, last, n);
    var rs := Joined(g, pages);
    JoinedTotal(g, pages);
    var starts := JoinedAreRuns(g, pages);
    forall i | 0 <= i < |rs| ensures 0 < rs[i].size <= Times(g.pgsPerFlashpg, g.pgsz) && ValidPpa(g, rs[i].ppa) {
      RunFits(g, pages, rs[i], starts[i], starts[i + 1]);
    }
    forall k: nat | k < |pages| ensures Covered(g, rs, pages[k]) { PageInRun(g, pages, rs, starts, k, |rs|); }
  }

  lemma {:induction false} PageInRun(g: Params, pages: seq<Ppa>, rs: seq<NandRead>, starts: seq<nat>, k: nat, m: nat)
    requires g.pgsPerFlashpg > 0 && AreRuns(g, pages, rs, starts) && m <= |rs| && k < starts[m] && k < |pages|
    ensures Covered(g, rs, pages[k])
  {
    hide SameFlashPage, Times;
    if m > 0 {
      assert IsRun(g, pages, rs[m - 1], starts[m - 1], starts[m - 1 + 1]);
      if k < starts[m - 1] { PageInRun(g, pages, rs, starts, k, m - 1); }
    }
  }

  lemma TakePage(maptbl: seq<Option<Ppa>>, l: nat, last: nat, n: nat, pages: seq<Ppa>, all: seq<Ppa>)
    requires n > 0 && l <= last && Quot(l, n) < |maptbl| && all == pages + StripePages(maptbl, l, last, n)
    ensures maptbl[Quot(l, n)].None? ==> all == pages + StripePages(maptbl, l + n, last, n)
    ensures maptbl[Quot(l, n)].Some? ==> all == (pages + [maptbl[Quot(l, n)].value]) + StripePages(maptbl, l + n, last, n)
  {
    hide Quot, StripePages;
    StripePagesStep(maptbl, l, last, n);
  }

  /** The read being gathered: none before the first mapped page. */
  ghost predicate Gathering(g: Params, pages: seq<Ppa>, issued: seq<NandRead>, size: nat, prev: Option<Ppa>)
    requires g.pgsPerFlashpg > 0
  {
    if size > 0 then prev.Some? && Joined(g, pages) == issued + [NandRead(prev.value, size)]
    else pages == [] && issued == []
  }

  lemma GatherOne(g: Params, pages: seq<Ppa>, issued: seq<NandRead>, size: nat, prev: Option<Ppa>, p: Ppa)
    requires g.pgsPerFlashpg > 0 && g.pgsz > 0 && Gathering(g, pages, issued, size, prev)
    requires size == 0 && prev.Some? ==> prev.value == p
    ensures prev.Some? && SameFlashPage(g, p, prev.value) ==> Gathering(g, pages + [p], issued, size + g.pgsz, prev)
    ensures !(prev.Some? && SameFlashPage(g, p, prev.value)) ==>
              && (size == 0 ==> Gathering(g, pages + [p], issued, g.pgsz, Some(p)))
              && (size > 0 ==> prev.Some? && Gathering(g, pages + [p], issued + [NandRead(prev.value, size)], g.pgsz, Some(p)))
  {
    hide SameFlashPage;
    assert (pages + [p])[..|pages|] == pages;
    if size > 0 {
      var rs := Joined(g, pages);
      assert rs[|rs| - 1 := NandRead(prev.value, size + g.pgsz)] == issued + [NandRead(prev.value, size + g.pgsz)];
    }
  }

  /** The inner loop of `conv_read`: one read for each run of pages of the stripe in one flash page.
      So every mapped LPN is read by exactly its share of the issued bytes, and no read is larger
      than a flash page. */
  method ReadStripe(g: Params, maptbl: seq<Option<Ppa>>, first: nat, last: nat, n: nat) returns (issued: seq<NandRead>)
    requires Sound(g) && g.pgsz > 0 && Injective(g, maptbl) && n > 0 && first <= last
    requires Quot(last, n) < |maptbl|
    ensures g.pgsPerFlashpg > 0 && issued == Joined(g, StripePages(maptbl, first, last, n))
    ensures SizesFit(g, issued)
    ensures TotalSize(issued) == Times(|MappedIn(maptbl, Stripe(first, last + 1, n), n)|, g.pgsz)
    ensures forall l :: l in MappedIn(maptbl, Stripe(first, last + 1, n), n) ==>
      Covered(g, issued, maptbl[Quot(l, n)].value)
  {
    hide Sound, Quot, SizesFit, Covered, TotalSize, Stripe, Injective, MappedIn, SameFlashPage, Joined, StripePages;
    hide ValidPpa, Times, Gathering;
    assert g.pgsPerFlashpg > 0 by { PlaneSizes(g); }
    LocalInRange(first, last, n);
    var prev := maptbl[Quot(first, n)];
    var lpn, xferSize: nat := first, 0;
    issued := [];
    ghost var pages: seq<Ppa> := [];
    ghost var all := StripePages(maptbl, first, last, n);
    GatheringEnds(g, [], [], 0, prev);
    while lpn <= last
      invariant lpn <= last + n && all == pages + StripePages(maptbl, lpn, last, n)
      invariant Gathering(g, pages, issued, xferSize, prev)
      invariant xferSize == 0 && prev.Some? ==> lpn == first && prev == maptbl[Quot(first, n)]
      decreases last + n - lpn
    {
      LocalInRange(lpn, last, n);
      TakePage(maptbl, lpn, last, n, pages, all);
      var cur := maptbl[Quot(lpn, n)];
      if cur.Some? { EntryIsValid(g, maptbl, Quot(lpn, n)); }
      if cur.None? || !ValidPpa(g, cur.value) {
      } else if prev.Some? && SameFlashPage(g, cur.value, prev.value) {
        GatherOne(g, pages, issued, xferSize, prev, cur.value);
        pages := pages + [cur.value];
        xferSize := xferSize + g.pgsz;
      } else {
        GatherOne(g, pages, issued, xferSize, prev, cur.value);
        GatheringEnds(g, pages, issued, xferSize, prev);
        pages := pages + [cur.value];
        if xferSize > 0 {
          issued := issued + [NandRead(prev.value, xferSize)];
        }
        xferSize := g.pgsz;
        prev := cur;
      }
      lpn := lpn + n;
    }
    StripePagesStep(maptbl, lpn, last, n);
    assert all == pages;
    GatheringEnds(g, pages, issued, xferSize, prev);
    if xferSize > 0 {
      issued := issued + [NandRead(prev.value, xferSize)];
    }
    ReadsOfStripe(g, maptbl, first, last, n);
  }

  lemma GatheringEnds(g: Params, pages: seq<Ppa>, issued: seq<NandRead>, size: nat, prev: Option<Ppa>)
    requires g.pgsPerFlashpg > 0
    ensures Gathering(g, pages, issued, size, prev) ==>
              && (size > 0 ==> prev.Some?)
              && Joined(g, pages) == issued + if size > 0 then [NandRead(prev.value, size)] else []
    ensures Gathering(g, [], [], 0, prev)
  {
  }

  lemma EntryIsValid(g: Params, maptbl: seq<Option<Ppa>>, i: nat)
    requires Injective(g, maptbl) && i < |maptbl| && maptbl[i].Some?
    ensures ValidPpa(g, maptbl[i].value)
  {
  }

  lemma PlaneSizes(g: Params)
    requires Sound(g)
    ensures g.pgsPerFlashpg > 0
  {
  }

  lemma LocalInRange(l: nat, last: nat, n: nat)
    requires n > 0 && l <= last
    ensures Quot(l, n) <= Quot(last, n)
  {
    QuotRem(l, n);
    QuotRem(last, n);
    LessTimes(last / n, l / n, n);
  }

  // ----- All partitions -----

  /** The mapped LPNs from `first` to `last` whose distance from `first` leaves a remainder
      below `i`: those on the first `i` stripes. */
  ghost function MappedOnStripes(tabs: seq<seq<Option<Ppa>>>, first: nat, last: nat, i: nat): set<nat>
    requires |tabs| > 0
  {
    set l | 0 <= l < last + 1 && MappedAt(tabs, first, i, l)
  }

  ghost predicate MappedAt(tabs: seq<seq<Option<Ppa>>>, first: nat, i: nat, l: nat)
    requires |tabs| > 0
  {
    && first <= l && Rem(l - first, |tabs|) < i
    && Quot(l, |tabs|) < |tabs[Rem(l, |tabs|)]| && tabs[Rem(l, |tabs|)][Quot(l, |tabs|)].Some?
  }

  lemma ResidueShift(d: nat, i: nat, n: nat)
    requires i < n
    ensures d >= i ==> ((d - i) % n == 0 <==> d % n == i)
    ensures d < i ==> d % n != i
  {
    if d < i {
      QuotRemIs(d, 0, d, n);
    } else if (d - i) % n == 0 {
      QuotRem(d - i, n);
      QuotRemIs(d, (d - i) / n, i, n);
    } else if d % n == i {
      QuotRem(d, n);
      QuotRemIs(d - i, d / n, 0, n);
    }
  }

  lemma SameResidue(a: nat, b: nat, n: nat)
    requires n > 0 && a <= b && (b - a) % n == 0
    ensures b % n == a % n
  {
    QuotRem(b - a, n);
    QuotRem(a, n);
    assert ((b - a) / n + a / n) * n == (b - a) / n * n + a / n * n;
    QuotRemIs(b, (b - a) / n + a / n, a % n, n);
  }

  /** Stripe `i` is exactly the LPNs of that remainder, all in one partition. */
  lemma StripeIsResidue(first: nat, n: nat, i: nat, l: nat)
    requires n > 0 && i < n
    ensures OnStripe(first + i, n, l) <==> first <= l && Rem(l - first, n) == i
    ensures OnStripe(first + i, n, l) ==> Rem(l, n) == Rem(first + i, n)
  {
    if first <= l {
      ResidueShift(l - first, i, n);
      assert l - first - i == l - (first + i);
    }
    if OnStripe(first + i, n, l) {
      SameResidue(first + i, l, n);
    }
  }

  lemma OneMoreStripe(tabs: seq<seq<Option<Ppa>>>, first: nat, last: nat, i: nat)
    requires i < |tabs|
    ensures var m := MappedIn(tabs[Rem(first + i, |tabs|)], Stripe(first + i, last + 1, |tabs|), |tabs|);
            && MappedOnStripes(tabs, first, last, i + 1) == MappedOnStripes(tabs, first, last, i) + m
            && MappedOnStripes(tabs, first, last, i) !! m
  {
    var m := MappedIn(tabs[Rem(first + i, |tabs|)], Stripe(first + i, last + 1, |tabs|), |tabs|);
    var a, b := MappedOnStripes(tabs, first, last, i), MappedOnStripes(tabs, first, last, i + 1);
    forall l ensures (l in b <==> l in a || l in m) && !(l in a && l in m) {
      if l >= 0 { OneMoreStripeAt(tabs, first, last, i, l); }
    }
  }

  lemma OneMoreStripeAt(tabs: seq<seq<Option<Ppa>>>, first: nat, last: nat, i: nat, l: nat)
    requires i < |tabs|
    ensures var m := MappedIn(tabs[Rem(first + i, |tabs|)], Stripe(first + i, last + 1, |tabs|), |tabs|);
            var a, b := MappedOnStripes(tabs, first, last, i), MappedOnStripes(tabs, first, last, i + 1);
            (l in b <==> l in a || l in m) && !(l in a && l in m)
  {
    hide OnStripe;
    StripeIsResidue(first, |tabs|, i, l);
  }

  /** When the stripes run out, every LPN of the request has been visited, once: the stripes taken
      include the one it lies on, and it lies on no other. */
  lemma VisitedOnce(first: nat, last: nat, n: nat, i: nat, l: nat, j: nat)
    requires n > 0 && i <= n && (i == n || first + i > last) && first <= l <= last && j < n
    ensures l in Stripe(first + j, last + 1, n) <==> j == Rem(l - first, n)
    ensures Rem(l - first, n) < i
  {
    hide OnStripe;
    StripeIsResidue(first, n, j, l);
    if i < n { QuotRemIs(l - first, 0, l - first, n); }
  }

  /** So no mapped LPN of the request is missed. */
  lemma StripesCover(tabs: seq<seq<Option<Ppa>>>, first: nat, last: nat, i: nat)
    requires |tabs| > 0 && i <= |tabs| && (i == |tabs| || first + i > last)
    ensures MappedOnStripes(tabs, first, last, i) == MappedOnStripes(tabs, first, last, |tabs|)
  {
    var a, b := MappedOnStripes(tabs, first, last, i), MappedOnStripes(tabs, first, last, |tabs|);
    forall l ensures l in a <==> l in b {
      if first <= l <= last { VisitedOnce(first, last, |tabs|, i, l, 0); }
    }
  }

  /** The reads issued, partition by partition. */
  function TotalOf(rss: seq<seq<NandRead>>): nat
  {
    if rss == [] then 0 else TotalOf(rss[..|rss| - 1]) + TotalSize(rss[|rss| - 1])
  }

  lemma OneMoreTotal(rss: seq<seq<NandRead>>, rs: seq<NandRead>)
    ensures TotalOf([]) == 0 && TotalOf(rss + [rs]) == TotalOf(rss) + TotalSize(rs)
  {
    assert (rss + [rs])[..|rss|] == rss;
  }

  /** The reads of stripe `k`: one for each run of its pages in one flash page. */
  function StripeReads(g: Params, tabs: seq<seq<Option<Ppa>>>, first: nat, last: nat, k: nat): seq<NandRead>
    requires |tabs| > 0 && g.pgsPerFlashpg > 0
  {
    Joined(g, StripePages(tabs[Rem(first + k, |tabs|)], first + k, last, |tabs|))
  }

  /** The page of LPN `l`, in its partition, is covered by a read that its stripe issued. */
  ghost predicate PageIsRead(g: Params, tabs: seq<seq<Option<Ppa>>>, first: nat, issued: seq<seq<NandRead>>, l: nat)
    requires |tabs| > 0 && g.pgsPerFlashpg > 0
  {
    var n := |tabs|;
    && first <= l && Rem(l - first, n) < |issued| && Quot(l, n) < |tabs[Rem(l, n)]| && tabs[Rem(l, n)][Quot(l, n)].Some?
    && Covered(g, issued[Rem(l - first, n)], tabs[Rem(l, n)][Quot(l, n)].value)
  }

  lemma OneMoreStripeRead(g: Params, tabs: seq<seq<Option<Ppa>>>, first: nat, last: nat,
                          issued: seq<seq<NandRead>>, rs: seq<NandRead>, l: nat)
    requires |issued| < |tabs| && g.pgsPerFlashpg > 0
    requires l in MappedOnStripes(tabs, first, last, |issued|) ==> PageIsRead(g, tabs, first, issued, l)
    requires var i, n := |issued|, |tabs|;
             forall k :: k in MappedIn(tabs[Rem(first + i, n)], Stripe(first + i, last + 1, n), n) ==>
               Covered(g, rs, tabs[Rem(first + i, n)][Quot(k, n)].value)
    requires l in MappedOnStripes(tabs, first, last, |issued| + 1)
    ensures PageIsRead(g, tabs, first, issued + [rs], l)
  {
    hide OnStripe, Covered;
    StripeIsResidue(first, |tabs|, |issued|, l);
    OneMoreStripeAt(tabs, first, last, |issued|, l);
  }

  /** `conv_read` over the partitions' mapping tables: every mapped LPN of the request is read,
      from the partition that holds it, the bytes issued are exactly one page for each, and each
      read is at most one flash page. */
  method ReadAll(g: Params, tabs: seq<seq<Option<Ppa>>>, first: nat, last: nat) returns (issued: seq<seq<NandRead>>)
    requires Sound(g) && g.pgsz > 0 && |tabs| > 0 && first <= last
    requires forall k :: 0 <= k < |tabs| ==> Injective(g, tabs[k]) && Quot(last, |tabs|) < |tabs[k]|
    ensures TotalOf(issued) == Times(|MappedOnStripes(tabs, first, last, |tabs|)|, g.pgsz)
    ensures forall i :: 0 <= i < |issued| ==> SizesFit(g, issued[i])
    ensures g.pgsPerFlashpg > 0
    ensures forall l :: l in MappedOnStripes(tabs, first, last, |tabs|) ==> PageIsRead(g, tabs, first, issued, l)
    ensures |issued| == if last - first + 1 < |tabs| then last - first + 1 else |tabs|
    ensures forall k: nat :: k < |issued| ==> issued[k] == StripeReads(g, tabs, first, last, k)
  {
    hide Sound, Quot, Rem, SizesFit, Stripe, Injective, MappedIn, MappedOnStripes, Times, Covered, PageIsRead;
    hide Joined, StripePages, TotalOf, TotalSize;
    assert g.pgsPerFlashpg > 0 by { PlaneSizes(g); }
    var i, startLpn := 0, first;
    issued := [];
    NoStripes(tabs, first, last, g.pgsz);
    OneMoreTotal([], []);
    while i < |tabs| && startLpn <= last
      invariant i <= |tabs| && startLpn == first + i <= last + 1 && |issued| == i
      invariant forall l :: l in MappedOnStripes(tabs, first, last, i) ==> PageIsRead(g, tabs, first, issued, l)
      invariant TotalOf(issued) == Times(|MappedOnStripes(tabs, first, last, i)|, g.pgsz)
      invariant forall i :: 0 <= i < |issued| ==> SizesFit(g, issued[i])
      invariant forall k: nat :: k < |issued| ==> issued[k] == StripeReads(g, tabs, first, last, k)
    {
      var rs := ReadStripe(g, tabs[Rem(startLpn, |tabs|)], startLpn, last, |tabs|);
      OneMoreStripe(tabs, first, last, i);
      ghost var a := |MappedOnStripes(tabs, first, last, i)|;
      SplitBytes(a, |MappedOnStripes(tabs, first, last, i + 1)| - a, g.pgsz);
      OneMoreTotal(issued, rs);
      forall l | l in MappedOnStripes(tabs, first, last, i + 1) ensures PageIsRead(g, tabs, first, issued + [rs], l) {
        OneMoreStripeRead(g, tabs, first, last, issued, rs, l);
      }
      issued := issued + [rs];
      i, startLpn := i + 1, startLpn + 1;
    }
    StripesCover(tabs, first, last, i);
  }

  lemma NoStripes(tabs: seq<seq<Option<Ppa>>>, first: nat, last: nat, pgsz: nat)
    requires |tabs| > 0
    ensures Times(|MappedOnStripes(tabs, first, last, 0)|, pgsz) == 0
    ensures MappedOnStripes(tabs, first, last, 0) == {}
  {
    assert MappedOnStripes(tabs, first, last, 0) == {};
  }

  lemma SplitBytes(a: nat, b: nat, pgsz: nat)
    ensures Times(a + b, pgsz) == Times(a, pgsz) + Times(b, pgsz)
  {
  }
}
