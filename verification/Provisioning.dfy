/** Runs of one partition as a value, page write by page write, and exactly how many spare lines
    they need (conv_ftl.c, the write loop of `conv_write` with its flow control). */
module Provisioning {
  import opened IdLists
  import opened Geometry
  import opened Traversal
  import opened FtlState
  import opened FtlInvariant
  import opened FtlGc
  import opened FtlSpace

  /** A partition between two page writes. */
  datatype Drive = Drive(s: State, flow: Flow)

  /** The page under the user's pointer can be written for `lpn` and the pointer moved on.  If it
      cannot, `get_next_free_line` has no line to give and its caller follows a null pointer. */
  ghost predicate CanStore(g: Params, s: State, lpn: nat)
  {
    && lpn < |s.maptbl|
    && (s.maptbl[lpn].Some? ==> s.maptbl[lpn].value.blk < |s.line| && BlkOf(s.maptbl[lpn].value) in s.block)
    && CanWrite(g, Superseded(g, s, lpn), UserIo)
  }

  /** The page write itself, before flow control. */
  ghost function Stored(g: Params, s: State, lpn: nat, data: int): State
    requires CanStore(g, s, lpn)
  {
    Write(g, Superseded(g, s, lpn), UserIo, lpn, data)
  }

  /** `check_and_refill_write_credit`, for any outcome of the collection it may start.  The
      refill is granted also when there was nothing to collect. */
  ghost predicate Refilled(g: Params, s: State, flow: Flow, d: Drive)
  {
    if flow.credits > 0 then d == Drive(s, flow)
    else if |s.free| > GC_THRES_LINES_HIGH || NothingToCollect(g, s, true) then
      d == Drive(s, Flow(flow.refill, flow.refill))
    else
      && Core(g, d.s, {}, {}) && d.flow.credits == d.flow.refill
      && exists v: nat :: v < |s.line| && Collected(g, s, d.s, v, d.flow.refill, s.line[v].vpc)
  }

  /** One iteration of the write loop. */
  ghost predicate Turn(g: Params, d: Drive, lpn: nat, data: int, d': Drive)
  {
    && d.flow.credits > 0 && CanStore(g, d.s, lpn)
    && Refilled(g, Stored(g, d.s, lpn, data), d.flow.(credits := d.flow.credits - 1), d')
  }

  /** The pages that a collection after the write copies: the refill it grants is what the victim
      had not valid. */
  ghost function RefillCopies(g: Params, s: State, flow: Flow, d: Drive): int {
    if flow.credits == 0 && |s.free| <= GC_THRES_LINES_HIGH && !NothingToCollect(g, s, true) then
      g.pgsPerLine - d.flow.refill
    else 0
  }

  ghost function TurnCopies(g: Params, d: Drive, lpn: nat, data: int, d': Drive): int
    requires CanStore(g, d.s, lpn) && d.flow.credits > 0
  {
    RefillCopies(g, Stored(g, d.s, lpn, data), d.flow.(credits := d.flow.credits - 1), d')
  }

  /** They are the valid pages of a least valid victim. */
  lemma CopiesAreTheVictims(g: Params, s: State, flow: Flow, d: Drive) returns (v: nat)
    requires Refilled(g, s, flow, d) && flow.credits == 0
    requires |s.free| <= GC_THRES_LINES_HIGH && !NothingToCollect(g, s, true)
    ensures LeastVictim(s, v) && RefillCopies(g, s, flow, d) == s.line[v].vpc
  {
    hide Core, LinePages, View, Shape;
    v :| v < |s.line| && Collected(g, s, d.s, v, d.flow.refill, s.line[v].vpc);
  }

  /** The credits are used up and free lines are scarce, but there is nothing to collect. */
  ghost predicate Starved(g: Params, s: State, credits: nat)
  {
    credits == 0 && |s.free| <= GC_THRES_LINES_HIGH && NothingToCollect(g, s, true)
  }

  /** The page can be written, and the collection that may be due after it finds a victim. */
  ghost predicate Works(g: Params, d: Drive, lpn: nat, data: int)
  {
    && d.flow.credits > 0 && CanStore(g, d.s, lpn)
    && !Starved(g, Stored(g, d.s, lpn, data), d.flow.credits - 1)
  }

  /** The states of a run from the empty drive, for a host of `hostLpns` LPNs. */
  ghost predicate IsRun(g: Params, hostLpns: nat, lpns: seq<nat>, data: seq<int>, ds: seq<Drive>)
    requires g.ttLines >= 2
  {
    && |data| == |lpns| && |ds| == |lpns| + 1
    && ds[0] == Drive(Fresh(g), Flow(g.pgsPerLine, g.pgsPerLine))
    && (forall i :: 0 <= i < |lpns| ==> lpns[i] < hostLpns)
    && (forall i :: 0 <= i < |lpns| ==> Turn(g, ds[i], lpns[i], data[i], ds[i + 1]))
  }

  lemma PrefixIsRun(g: Params, hostLpns: nat, lpns: seq<nat>, data: seq<int>, ds: seq<Drive>, n: nat)
    requires g.ttLines >= 2 && IsRun(g, hostLpns, lpns, data, ds) && n <= |lpns|
    ensures |data| == |lpns| && |ds| == |lpns| + 1 && IsRun(g, hostLpns, lpns[..n], data[..n], ds[..n + 1])
    ensures n < |lpns| ==> lpns[n] < hostLpns && Turn(g, ds[n], lpns[n], data[n], ds[n + 1])
  {
    hide Turn;
    forall i | 0 <= i < n ensures Turn(g, ds[..n + 1][i], lpns[..n][i], data[..n][i], ds[..n + 1][i + 1]) {
      assert Turn(g, ds[i], lpns[i], data[i], ds[i + 1]);
    }
  }

  /** The pages copied by the collections of a run. */
  ghost function Copies(g: Params, hostLpns: nat, lpns: seq<nat>, data: seq<int>, ds: seq<Drive>): int
    requires g.ttLines >= 2 && IsRun(g, hostLpns, lpns, data, ds)
  {
    if lpns == [] then 0
    else
      var n := |lpns| - 1;
      PrefixIsRun(g, hostLpns, lpns, data, ds, n);
      Copies(g, hostLpns, lpns[..n], data[..n], ds[..n + 1]) + TurnCopies(g, ds[n], lpns[n], data[n], ds[n + 1])
  }

  lemma EmptyRun(g: Params, hostLpns: nat)
    requires g.ttLines >= 2
    ensures var ds := [Drive(Fresh(g), Flow(g.pgsPerLine, g.pgsPerLine))];
            IsRun(g, hostLpns, [], [], ds) && Copies(g, hostLpns, [], [], ds) == 0
  {
    hide Fresh;
  }

  lemma OneMoreTurn(g: Params, hostLpns: nat, lpns: seq<nat>, data: seq<int>, ds: seq<Drive>, lpn: nat, x: int, d: Drive)
    requires g.ttLines >= 2 && IsRun(g, hostLpns, lpns, data, ds) && lpn < hostLpns && Turn(g, ds[|lpns|], lpn, x, d)
    ensures IsRun(g, hostLpns, lpns + [lpn], data + [x], ds + [d])
    ensures Copies(g, hostLpns, lpns + [lpn], data + [x], ds + [d])
            == Copies(g, hostLpns, lpns, data, ds) + TurnCopies(g, ds[|lpns|], lpn, x, d)
  {
    hide CanStore, Refilled, TurnCopies;
    var n, ls, xs, es := |lpns|, lpns + [lpn], data + [x], ds + [d];
    forall j | 0 <= j < n + 1 ensures Turn(g, es[j], ls[j], xs[j], es[j + 1]) {
      assert j < n ==> Turn(g, ds[j], lpns[j], data[j], ds[j + 1]);
    }
    assert ls[..n] == lpns && xs[..n] == data && es[..n + 1] == ds;
  }

  /** Whatever such a host has written so far, each next page write works. */
  ghost predicate AlwaysWorks(g: Params, hostLpns: nat)
    requires g.ttLines >= 2
  {
    forall lpns: seq<nat>, data: seq<int>, ds: seq<Drive>, lpn: nat, x: int ::
      IsRun(g, hostLpns, lpns, data, ds) && lpn < hostLpns && lpn < g.ttPgs ==> Works(g, ds[|lpns|], lpn, x)
  }

  // ----- Enough spare lines: every run works -----

  lemma ProvisionedWorks(g: Params, hostLpns: nat, d: Drive, lpn: nat, data: int)
    requires Sound(g) && Provisioned(g, hostLpns) && Inv(g, hostLpns, d.s, d.flow) && lpn < hostLpns
    ensures Works(g, d, lpn, data)
    ensures Spent(g, hostLpns, Stored(g, d.s, lpn, data), d.flow.(credits := d.flow.credits - 1))
  {
    hide Sound, Core, Superseded, Write, CanWrite, Unmap, NothingToCollect, Reserve, View, Shape;
    UserWriteSpends(g, hostLpns, d.s, d.flow, lpn, data);
    var t := Stored(g, d.s, lpn, data);
    if d.flow.credits == 1 && |t.free| <= GC_THRES_LINES_HIGH {
      CollectionIsPossible(g, hostLpns, t, d.flow.refill);
    }
  }

  lemma TurnKeepsInv(g: Params, hostLpns: nat, d: Drive, lpn: nat, data: int, d': Drive)
    requires Sound(g) && Provisioned(g, hostLpns) && Inv(g, hostLpns, d.s, d.flow) && lpn < hostLpns
    requires Turn(g, d, lpn, data, d')
    ensures Inv(g, hostLpns, d'.s, d'.flow)
  {
    hide Sound, Core, CanStore, Stored, NothingToCollect, Reserve, Collected;
    ProvisionedWorks(g, hostLpns, d, lpn, data);
    var t, refill := Stored(g, d.s, lpn, data), d.flow.refill;
    if d.flow.credits > 1 {
    } else if |t.free| > GC_THRES_LINES_HIGH {
      RefillWithoutCollection(g, hostLpns, t, refill);
    } else {
      var v: nat :| v < |t.line| && Collected(g, t, d'.s, v, d'.flow.refill, t.line[v].vpc);
      RefillAfterCollection(g, hostLpns, t, refill, d'.s, v, d'.flow.refill, t.line[v].vpc);
    }
  }

  lemma {:induction false} RunKeepsInv(g: Params, hostLpns: nat, lpns: seq<nat>, data: seq<int>, ds: seq<Drive>, n: nat)
    requires Sound(g) && Provisioned(g, hostLpns) && IsRun(g, hostLpns, lpns, data, ds) && n <= |lpns|
    ensures |ds| == |lpns| + 1 && Inv(g, hostLpns, ds[n].s, ds[n].flow)
  {
    hide Sound, Inv, Turn;
    if n == 0 {
      FreshIsSound(g, hostLpns);
    } else {
      RunKeepsInv(g, hostLpns, lpns, data, ds, n - 1);
      assert Turn(g, ds[n - 1], lpns[n - 1], data[n - 1], ds[n - 1 + 1]);
      TurnKeepsInv(g, hostLpns, ds[n - 1], lpns[n - 1], data[n - 1], ds[n]);
    }
  }

  lemma StoredIsFifo(g: Params, s: State, lpn: nat, data: int)
    requires CanStore(g, s, lpn)
    ensures var t := Stored(g, s, lpn, data);
            || (t.uwp.blk == s.uwp.blk && t.free == s.free)
            || (s.free != [] && t.uwp.blk == s.free[0] && t.free == s.free[1..])
  {
  }

  /** Lines are used in turn: the user's pointer takes the line at the head of the free list, lines
      leave the list at its head only, and a collected line joins at its end. */
  lemma TurnIsFifo(g: Params, d: Drive, lpn: nat, data: int, d': Drive)
    requires Turn(g, d, lpn, data, d')
    ensures d'.s.uwp.blk == d.s.uwp.blk || (d.s.free != [] && d'.s.uwp.blk == d.s.free[0])
    ensures Suffix(d'.s.free, d.s.free) || (d'.s.free != [] && Suffix(d'.s.free[..|d'.s.free| - 1], d.s.free))
  {
    hide Core, View, Shape, LinePages, Space, CanStore, Stored, NothingToCollect, Suffix;
    var t := Stored(g, d.s, lpn, data);
    StoredIsFifo(g, d.s, lpn, data);
    SuffixOfSuffix(d.s.free, d.s.free);
    if d'.s != t {
      var v: nat :| v < |t.line| && Collected(g, t, d'.s, v, d'.flow.refill, t.line[v].vpc);
      SuffixJoins(d'.s.free[..|d'.s.free| - 1], t.free, d.s.free);
    }
  }

  lemma SuffixJoins(a: seq<nat>, b: seq<nat>, c: seq<nat>)
    requires Suffix(a, b) && Suffix(b, c)
    ensures Suffix(a, c)
  {
  }

  // ----- What collections cost -----

  lemma TurnIsBalanced(g: Params, hostLpns: nat, d: Drive, lpn: nat, data: int, d': Drive, l: Ledger) returns (l': Ledger)
    requires Sound(g) && Provisioned(g, hostLpns) && Inv(g, hostLpns, d.s, d.flow) && lpn < hostLpns
    requires Turn(g, d, lpn, data, d') && Balanced(g, hostLpns, d.flow.credits, l)
    ensures Balanced(g, hostLpns, d'.flow.credits, l') && l'.userWrites == l.userWrites + 1
    ensures l'.gcCopies == l.gcCopies + TurnCopies(g, d, lpn, data, d')
  {
    hide Sound, Core, CanStore, Stored, NothingToCollect, Reserve, Collected, Balanced;
    ProvisionedWorks(g, hostLpns, d, lpn, data);
    var t, refill := Stored(g, d.s, lpn, data), d.flow.refill;
    BalancedAfterWrite(g, hostLpns, d.flow.credits, l);
    l' := l.(userWrites := l.userWrites + 1);
    if d.flow.credits > 1 {
    } else if |t.free| > GC_THRES_LINES_HIGH {
      BalancedAfterRefill(g, hostLpns, l', refill);
      l' := l'.(refilled := l'.refilled + refill);
    } else {
      var v: nat :| v < |t.line| && Collected(g, t, d'.s, v, d'.flow.refill, t.line[v].vpc);
      RefillAfterCollection(g, hostLpns, t, refill, d'.s, v, d'.flow.refill, t.line[v].vpc);
      CollectedSplits(g, t, d'.s, v, d'.flow.refill);
      BalancedAfterCollection(g, hostLpns, l', d'.flow.refill, t.line[v].vpc);
      l' := Ledger(l'.userWrites, l'.gcRuns + 1, l'.gcCopies + t.line[v].vpc, l'.refilled + d'.flow.refill);
    }
  }

  lemma CollectedSplits(g: Params, s: State, t: State, v: nat, refill: int)
    requires v < |s.line| && Collected(g, s, t, v, refill, s.line[v].vpc)
    ensures s.line[v].vpc == g.pgsPerLine - refill
  {
  }

  lemma {:induction false} RunIsBalanced(g: Params, hostLpns: nat, lpns: seq<nat>, data: seq<int>, ds: seq<Drive>)
    returns (l: Ledger)
    requires Sound(g) && Provisioned(g, hostLpns) && IsRun(g, hostLpns, lpns, data, ds)
    ensures |ds| == |lpns| + 1 && Balanced(g, hostLpns, ds[|lpns|].flow.credits, l)
    ensures l.userWrites == |lpns| && l.gcCopies == Copies(g, hostLpns, lpns, data, ds)
    decreases |lpns|
  {
    hide Sound, Inv, Turn, TurnCopies, Balanced, MaxCopies;
    if lpns == [] {
      l := Ledger(0, 0, 0, 0);
      NothingSpent(g, hostLpns);
    } else {
      var n := |lpns| - 1;
      PrefixIsRun(g, hostLpns, lpns, data, ds, n);
      var before := RunIsBalanced(g, hostLpns, lpns[..n], data[..n], ds[..n + 1]);
      RunKeepsInv(g, hostLpns, lpns, data, ds, n);
      l := TurnIsBalanced(g, hostLpns, ds[n], lpns[n], data[n], ds[n + 1], before);
    }
  }

  lemma NothingSpent(g: Params, hostLpns: nat)
    requires Provisioned(g, hostLpns)
    ensures Balanced(g, hostLpns, g.pgsPerLine, Ledger(0, 0, 0, 0))
  {
    MaxCopiesBelowLine(g, hostLpns);
  }

  /** Over every run: the pages copied by collections are to the pages written by the host at most
      as V to P - V, where V is the largest number of valid pages a victim can have. */
  lemma CopiesAreBounded(g: Params, hostLpns: nat, lpns: seq<nat>, data: seq<int>, ds: seq<Drive>)
    requires Sound(g) && Provisioned(g, hostLpns) && IsRun(g, hostLpns, lpns, data, ds)
    ensures var copies, v := Copies(g, hostLpns, lpns, data, ds), MaxCopies(g, hostLpns);
            0 <= copies && copies * (g.pgsPerLine - v) <= v * |lpns|
  {
    hide Sound, Turn, Copies, Balanced, MaxCopies;
    var l := RunIsBalanced(g, hostLpns, lpns, data, ds);
    RunKeepsInv(g, hostLpns, lpns, data, ds, |lpns|);
    WriteAmplification(g, hostLpns, ds[|lpns|].flow.credits, l);
  }

  /** A collection that went through is a refill. */
  lemma CollectedRefills(g: Params, s: State, oldRefill: nat, t: State, v: nat, refill: nat, copies: int)
    requires |s.free| <= GC_THRES_LINES_HIGH && !NothingToCollect(g, s, true)
    requires Core(g, t, {}, {}) && Collected(g, s, t, v, refill, copies)
    ensures Refilled(g, s, Flow(0, oldRefill), Drive(t, Flow(refill, refill)))
    ensures RefillCopies(g, s, Flow(0, oldRefill), Drive(t, Flow(refill, refill))) == copies
  {
    hide Core, View, Shape, LinePages;
  }

  lemma EnoughLinesRefill(g: Params, s: State, refill: nat)
    requires |s.free| > GC_THRES_LINES_HIGH
    ensures Refilled(g, s, Flow(0, refill), Drive(s, Flow(refill, refill)))
    ensures RefillCopies(g, s, Flow(0, refill), Drive(s, Flow(refill, refill))) == 0
  {
  }

  // ----- The run that fills the drive: LPN 0, 1, 2, ... once each -----

  /** After `i` of these writes nothing is invalid, the GC line is empty, and the credits have
      been refilled by a line's worth each time. */
  ghost predicate Filling(g: Params, d: Drive, i: nat)
  {
    && g.pgsPerLine > 0 && Core(g, d.s, {}, {})
    && (forall p :: p in d.s.page ==> d.s.page[p] != PgInvalid)
    && (forall lpn :: 0 <= lpn < |d.s.maptbl| ==> (d.s.maptbl[lpn].Some? <==> lpn < i))
    && d.s.uwp.blk < |d.s.line| && d.s.gwp.blk < |d.s.line| && d.s.line[d.s.gwp.blk] == Counts(0, 0)
    && Space(g, d.s) == g.ttLines * g.pgsPerLine - i
    && d.flow.refill == g.pgsPerLine && d.flow.credits + i % g.pgsPerLine == g.pgsPerLine
  }

  lemma VictimHasInvalidPage(g: Params, s: State, b: nat)
    requires Sound(g) && Core(g, s, {}, {}) && b in s.victims
    ensures exists p :: p in s.page && s.page[p] == PgInvalid
  {
    hide Sound, Pages, LinePages, Filled, Maps;
    VictimIsClosed(g, s, b);
    var p :| p in LineWith(s.page, PgInvalid, b);
  }

  /** Where nothing is invalid there is nothing to collect. */
  lemma NothingInvalid(g: Params, s: State)
    requires Sound(g) && Core(g, s, {}, {}) && forall p :: p in s.page ==> s.page[p] != PgInvalid
    ensures NothingToCollect(g, s, true)
  {
    hide Sound, Core;
    if b: nat :| b in s.victims {
      VictimHasInvalidPage(g, s, b);
    }
  }

  /** The free lines and the rest of the user's line hold what is left, a line less. */
  lemma FillingRoom(g: Params, d: Drive, i: nat)
    requires Sound(g) && Filling(g, d, i)
    ensures |d.s.free| * g.pgsPerLine + Left(g, d.s, d.s.uwp.blk) == (g.ttLines - 1) * g.pgsPerLine - i
    ensures 1 <= Left(g, d.s, d.s.uwp.blk) <= g.pgsPerLine
    ensures NextWp.requires(g, d.s.uwp)
    ensures NextWp(g, d.s.uwp).None? ==> Left(g, d.s, d.s.uwp.blk) == 1
  {
    hide Sound, Core, NextWp;
    LeftBounds(g, d.s, {}, {}, UserIo);
    assert (g.ttLines - 1) * g.pgsPerLine == g.ttLines * g.pgsPerLine - g.pgsPerLine;
  }

  lemma FillingCanStore(g: Params, d: Drive, i: nat)
    requires Sound(g) && Filling(g, d, i) && i + 1 < (g.ttLines - 1) * g.pgsPerLine
    ensures i < |d.s.maptbl| == g.ttPgs && d.s.maptbl[i].None? && CanStore(g, d.s, i)
  {
    hide Sound, NextWp, Tally, Roles, Fill, Maps;
    FillingRoom(g, d, i);
    LinesMakeUpTheDrive(g);
    PageUnderPointer(g, d.s, {}, {}, UserIo);
    PlaneAndLines(g);
    LessTimes(g.ttLines - 1, g.ttLines, g.pgsPerLine);
  }

  lemma FillingStores(g: Params, d: Drive, i: nat)
    requires Sound(g) && Filling(g, d, i) && i + 1 < (g.ttLines - 1) * g.pgsPerLine
    ensures CanStore(g, d.s, i)
    ensures var t := Stored(g, d.s, i, 0);
            && Core(g, t, {}, {})
            && (forall p :: p in t.page ==> t.page[p] != PgInvalid)
            && (forall lpn :: 0 <= lpn < |t.maptbl| ==> (t.maptbl[lpn].Some? <==> lpn < i + 1))
            && t.uwp.blk < |t.line| && t.gwp.blk < |t.line| && t.line[t.gwp.blk] == Counts(0, 0)
            && Space(g, t) == g.ttLines * g.pgsPerLine - (i + 1)
  {
    hide Sound, Core, NextWp, View;
    var s := d.s;
    FillingCanStore(g, d, i);
    PageUnderPointer(g, s, {}, {}, UserIo);
    TwoLines(g, s, {}, {});
    WriteKeepsCore(g, s, {}, {}, UserIo, i, 0);
    ProgramTakesOnePage(g, s, {}, {}, UserIo, i, 0);
    WriteFrame(g, s, UserIo, i, 0);
    FillingPages(s, g, i);
  }

  lemma FillingPages(s: State, g: Params, i: nat)
    requires i < |s.maptbl| && CanWrite(g, s, UserIo) && forall p :: p in s.page ==> s.page[p] != PgInvalid
    ensures forall p :: p in Write(g, s, UserIo, i, 0).page ==> Write(g, s, UserIo, i, 0).page[p] != PgInvalid
    ensures |Write(g, s, UserIo, i, 0).line| == |s.line|
  {
    hide NextWp;
  }

  /** A write of the next LPN, with the refill that may follow: no collection takes place. */
  lemma FillStep(g: Params, d: Drive, i: nat) returns (d': Drive)
    requires Sound(g) && Filling(g, d, i) && i + 1 < (g.ttLines - 1) * g.pgsPerLine
    ensures Turn(g, d, i, 0, d') && Filling(g, d', i + 1)
    ensures (i + 1) % g.pgsPerLine == 0 ==> d.flow.credits == 1
    ensures CanStore(g, d.s, i) && d'.s == Stored(g, d.s, i, 0) && NothingToCollect(g, d'.s, true)
  {
    hide Sound, Core, CanStore, Stored, NothingToCollect;
    FillingStores(g, d, i);
    var t, p := Stored(g, d.s, i, 0), g.pgsPerLine;
    NothingInvalid(g, t);
    StepPage(i, p);
    d' := Drive(t, Flow(if (i + 1) % p == 0 then p else d.flow.credits - 1, p));
  }

  lemma FreshIsFilling(g: Params)
    requires Sound(g) && g.ttLines >= 2
    ensures Filling(g, Drive(Fresh(g), Flow(g.pgsPerLine, g.pgsPerLine)), 0)
  {
    hide Sound, Pages, Tally, Fill, Roles;
    PlaneAndLines(g);
    FreshCounts(g);
    FreshRoles(g);
    FreshFill(g);
    QuotRemIs(0, 0, 0, g.pgsPerLine);
    assert (g.ttLines - 2) * g.pgsPerLine == g.ttLines * g.pgsPerLine - 2 * g.pgsPerLine;
  }

  /** The run goes on until one page less than all lines but one are written. */
  lemma {:induction false} FillUp(g: Params, hostLpns: nat, i: nat) returns (lpns: seq<nat>, data: seq<int>, ds: seq<Drive>)
    requires Sound(g) && g.ttLines >= 2 && i < (g.ttLines - 1) * g.pgsPerLine && i <= hostLpns
    ensures IsRun(g, hostLpns, lpns, data, ds) && |lpns| == i && |ds| == i + 1 && Filling(g, ds[i], i)
  {
    hide Sound, Filling, Turn, IsRun, Fresh;
    if i == 0 {
      lpns, data, ds := [], [], [Drive(Fresh(g), Flow(g.pgsPerLine, g.pgsPerLine))];
      EmptyRun(g, hostLpns);
      FreshIsFilling(g);
    } else {
      var l, x, s := FillUp(g, hostLpns, i - 1);
      var d := FillStep(g, s[i - 1], i - 1);
      OneMoreTurn(g, hostLpns, l, x, s, i - 1, 0, d);
      lpns, data, ds := l + [i - 1], x + [0], s + [d];
    }
  }

  /** When the lines but four are full of valid pages, the credits are used up, two free lines
      are left, and there is nothing to collect. */
  lemma FillingStarves(g: Params, d: Drive, i: nat)
    requires Sound(g) && Filling(g, d, i) && g.ttLines >= 5 && i + 1 == (g.ttLines - 4) * g.pgsPerLine
    ensures !Works(g, d, i, 0)
  {
    hide Sound, Core, CanStore, Stored, NothingToCollect;
    PlaneAndLines(g);
    LessTimes(g.ttLines - 4, g.ttLines - 1, g.pgsPerLine);
    QuotRemIs(i + 1, g.ttLines - 4, 0, g.pgsPerLine);
    var d' := FillStep(g, d, i);
    FillingRoom(g, d', i + 1);
    assert (g.ttLines - 1) * g.pgsPerLine - (i + 1) == 3 * g.pgsPerLine;
    LessTimes(2, |d'.s.free|, g.pgsPerLine);
  }

  lemma ProvisionedAlwaysWorks(g: Params, hostLpns: nat)
    requires Sound(g) && Provisioned(g, hostLpns)
    ensures AlwaysWorks(g, hostLpns)
  {
    hide Sound, Works, IsRun, Inv;
    forall lpns: seq<nat>, data: seq<int>, ds: seq<Drive>, lpn: nat, x: int
      | IsRun(g, hostLpns, lpns, data, ds) && lpn < hostLpns && lpn < g.ttPgs
      ensures |ds| == |lpns| + 1 && Works(g, ds[|lpns|], lpn, x)
    {
      RunKeepsInv(g, hostLpns, lpns, data, ds, |lpns|);
      ProvisionedWorks(g, hostLpns, ds[|lpns|], lpn, x);
    }
  }

  /** `Provisioned` is what the FTL needs and no more: from the empty drive on, every page write
      of every run works, with a victim whenever a collection is due, if and only if the host's
      LPNs fill less than the lines but four. */
  lemma WorksIffProvisioned(g: Params, hostLpns: nat)
    requires Sound(g) && g.ttLines >= 5
    ensures AlwaysWorks(g, hostLpns) <==> Provisioned(g, hostLpns)
  {
    hide Sound, Works, IsRun, Inv, Filling;
    var n := (g.ttLines - 4) * g.pgsPerLine;
    if hostLpns < n {
      ProvisionedAlwaysWorks(g, hostLpns);
    } else {
      PlaneAndLines(g);
      LinesMakeUpTheDrive(g);
      LessTimes(0, g.ttLines - 4, g.pgsPerLine);
      LessTimes(g.ttLines - 4, g.ttLines - 1, g.pgsPerLine);
      LessTimes(g.ttLines - 1, g.ttLines, g.pgsPerLine);
      var lpns, data, ds := FillUp(g, hostLpns, n - 1);
      FillingStarves(g, ds[n - 1], n - 1);
    }
  }

  lemma LastPageEndsLine(g: Params, s: State)
    requires Sound(g) && Core(g, s, {}, {}) && s.uwp.blk < |s.line| && Left(g, s, s.uwp.blk) == 1
    ensures NextWp.requires(g, s.uwp) && NextWp(g, s.uwp).None?
  {
    hide Sound, Pages, LinePages, Filled, Maps, NextWp;
    var w := s.uwp;
    PlaneAndLines(g);
    PageUnderPointer(g, s, {}, {}, UserIo);
    FreePagesOfLine(g, s, {}, {}, w.blk);
    AdvanceFills(g, w);
    if NextWp(g, w).Some? {
      AdvanceFills(g, NextWp(g, w).value);
      var f := LineWith(s.page, PgFree, w.blk);
      SubsetSize({PageAt(w), PageAt(NextWp(g, w).value)}, f);
    }
  }

  // ----- And on to the end: LPN 0 over and over -----

  /** After `k` further writes of LPN 0 no line is free and the user's line has `k` pages less. */
  ghost predicate Packed(g: Params, d: Drive, k: nat)
  {
    && k < g.pgsPerLine && Core(g, d.s, {}, {}) && d.s.uwp.blk < |d.s.line|
    && Times(|d.s.free|, g.pgsPerLine) + Left(g, d.s, d.s.uwp.blk) == g.pgsPerLine - k
    && d.flow.credits == g.pgsPerLine - k
  }

  lemma FilledIsPacked(g: Params, d: Drive, i: nat)
    requires Sound(g) && Filling(g, d, i) && i == (g.ttLines - 2) * g.pgsPerLine
    ensures Packed(g, d, 0)
  {
    hide Sound, Core;
    FillingRoom(g, d, i);
    assert (g.ttLines - 1) * g.pgsPerLine - i == g.pgsPerLine;
    QuotRemIs(i, g.ttLines - 2, 0, g.pgsPerLine);
  }

  lemma SupersededLeft(g: Params, s: State, lpn: nat)
    requires lpn < |s.maptbl| && s.uwp.blk < |s.line|
    requires s.maptbl[lpn].Some? ==> s.maptbl[lpn].value.blk < |s.line| && BlkOf(s.maptbl[lpn].value) in s.block
    ensures var u := Superseded(g, s, lpn);
            u.uwp == s.uwp && u.free == s.free && |u.line| == |s.line| && Left(g, u, s.uwp.blk) == Left(g, s, s.uwp.blk)
  {
  }

  lemma TableSize(g: Params, s: State)
    requires Core(g, s, {}, {})
    ensures |s.maptbl| == g.ttPgs
  {
  }

  lemma PackStep(g: Params, d: Drive, k: nat) returns (d': Drive)
    requires Sound(g) && Packed(g, d, k) && k + 1 < g.pgsPerLine && 0 < g.ttPgs
    ensures Turn(g, d, 0, 0, d') && Packed(g, d', k + 1)
  {
    hide Sound, Core, NextWp, View, Write, Superseded, Unmap;
    var s := d.s;
    TableSize(g, s);
    SupersededFacts(g, s, 0);
    SupersededLeft(g, s, 0);
    var u := Superseded(g, s, 0);
    LeftBounds(g, s, {}, {}, UserIo);
    PageUnderPointer(g, Unmap(u, 0), {}, {}, UserIo);
    UnmapKeepsLines(u, 0);
    WriteKeepsCore(g, Unmap(u, 0), {}, {}, UserIo, 0, 0);
    WriteForgetsOldMapping(g, u, UserIo, 0, 0);
    ProgramTakesOnePage(g, Unmap(u, 0), {}, {}, UserIo, 0, 0);
    d' := Drive(Stored(g, s, 0, 0), d.flow.(credits := d.flow.credits - 1));
  }

  lemma UnmapKeepsLines(u: State, lpn: nat)
    requires lpn < |u.maptbl|
    ensures var n := Unmap(u, lpn); n.free == u.free && n.uwp == u.uwp && n.line == u.line && n.block == u.block
    ensures |Unmap(u, lpn).maptbl| == |u.maptbl| && Unmap(u, lpn).maptbl[lpn].None?
  {
  }

  lemma PackedIsStuck(g: Params, d: Drive, lpn: nat)
    requires Sound(g) && Packed(g, d, g.pgsPerLine - 1)
    ensures !CanStore(g, d.s, lpn)
  {
    hide Sound, Core, NextWp;
    LeftBounds(g, d.s, {}, {}, UserIo);
    LessTimes(0, |d.s.free|, g.pgsPerLine);
    LastPageEndsLine(g, d.s);
  }

  lemma {:induction false} PackUp(g: Params, hostLpns: nat, k: nat)
    returns (lpns: seq<nat>, data: seq<int>, ds: seq<Drive>)
    requires Sound(g) && g.ttLines >= 2 && k < g.pgsPerLine && 0 < hostLpns && (g.ttLines - 2) * g.pgsPerLine <= hostLpns
    ensures IsRun(g, hostLpns, lpns, data, ds)
    ensures |lpns| == (g.ttLines - 2) * g.pgsPerLine + k && |ds| == |lpns| + 1 && Packed(g, ds[|lpns|], k)
    decreases k
  {
    hide Sound, Filling, Turn, Packed, IsRun;
    if k == 0 {
      var i := (g.ttLines - 2) * g.pgsPerLine;
      LessTimes(g.ttLines - 2, g.ttLines - 1, g.pgsPerLine);
      lpns, data, ds := FillUp(g, hostLpns, i);
      FilledIsPacked(g, ds[i], i);
    } else {
      var l, x, s := PackUp(g, hostLpns, k - 1);
      LinesMakeUpTheDrive(g);
      LessTimes(0, g.ttLines, g.pgsPerLine);
      var d := PackStep(g, s[|l|], k - 1);
      OneMoreTurn(g, hostLpns, l, x, s, 0, 0, d);
      lpns, data, ds := l + [0], x + [0], s + [d];
    }
  }

  /** The check of `conv_write` lets every local LPN below `tt_pgs` through, and that is too many:
      a host of as many LPNs as all lines but two can hold reaches a state in which no page can be
      written any more. */
  lemma TooManyLpnsGetStuck(g: Params, hostLpns: nat) returns (lpns: seq<nat>, data: seq<int>, ds: seq<Drive>)
    requires Sound(g) && g.ttLines >= 2 && 0 < hostLpns && hostLpns >= (g.ttLines - 2) * g.pgsPerLine
    ensures IsRun(g, hostLpns, lpns, data, ds) && |lpns| + 1 == (g.ttLines - 1) * g.pgsPerLine
    ensures forall lpn: nat :: !CanStore(g, ds[|lpns|].s, lpn)
  {
    hide Sound, Packed, CanStore;
    PlaneAndLines(g);
    lpns, data, ds := PackUp(g, hostLpns, g.pgsPerLine - 1);
    forall lpn: nat ensures !CanStore(g, ds[|lpns|].s, lpn) { PackedIsStuck(g, ds[|lpns|], lpn); }
    assert (g.ttLines - 1) * g.pgsPerLine == (g.ttLines - 2) * g.pgsPerLine + g.pgsPerLine;
  }
}
