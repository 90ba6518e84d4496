/** The channel credit model (channel_model.c): a ring of credit counters, one per time
    slot, stands for an unbounded table of slots that all start out full. */
module ChannelModel {

  const NR_CREDIT_ENTRIES: nat := 98304
  const UNIT_TIME_INTERVAL: nat := 4000
  const UNIT_XFER_SIZE: nat := 128
  const UNIT_XFER_CREDITS: nat := 1

  function Min(a: nat, b: nat): nat {
    if a <= b then a else b
  }

  function Slot(time: nat): nat {
    time / UNIT_TIME_INTERVAL
  }

  /** Truncation to `uint32_t`. */
  function U32(x: int): nat {
    x % 0x1_0000_0000
  }

  // ----- Taking credits from a row of slots -----

  datatype Drained = Drained(row: seq<nat>, last: nat, unmet: nat)

  /** Credits are taken from slot `k` on, each slot as far as it goes, until the request is
      met or the row ends. */
  function Drain(w: seq<nat>, k: nat, rem: nat): (r: Drained)
    requires k < |w|
    ensures |r.row| == |w| && k <= r.last < |w|
    decreases |w| - k
  {
    var take := Min(rem, w[k]);
    var w1, rem1 := w[k := w[k] - take], rem - take;
    if rem1 > 0 && k + 1 < |w| then Drain(w1, k + 1, rem1) else Drained(w1, k, rem1)
  }

  function Sum(w: seq<nat>, a: nat, b: nat): nat
    requires a <= b <= |w|
    decreases b
  {
    if a == b then 0 else Sum(w, a, b - 1) + w[b - 1]
  }

  lemma {:induction false} SumSplit(w: seq<nat>, a: nat, b: nat, c: nat)
    requires a <= b <= c <= |w|
    ensures Sum(w, a, c) == Sum(w, a, b) + Sum(w, b, c)
    decreases c
  {
    if b < c {
      SumSplit(w, a, b, c - 1);
    }
  }

  lemma {:induction false} SumSame(w: seq<nat>, v: seq<nat>, a: nat, b: nat)
    requires a <= b <= |w| == |v| && forall i :: a <= i < b ==> w[i] == v[i]
    ensures Sum(w, a, b) == Sum(v, a, b)
    decreases b
  {
    if a < b {
      SumSame(w, v, a, b - 1);
    }
  }

  lemma SumHead(w: seq<nat>, v: seq<nat>, a: nat, b: nat)
    requires a < b <= |w| == |v| && forall i :: a < i < b ==> w[i] == v[i]
    ensures Sum(w, a, b) == w[a] + Sum(v, a + 1, b)
  {
    SumSplit(w, a, a + 1, b);
    SumSame(w, v, a + 1, b);
  }

  /** The slots before the last one are emptied, those after it and those before the request
      are untouched, and no slot gives more than it has. */
  lemma {:induction false} DrainShape(w: seq<nat>, k: nat, rem: nat)
    requires k < |w|
    ensures var d := Drain(w, k, rem);
            && (forall i :: 0 <= i < |w| ==> d.row[i] <= w[i])
            && (forall i :: 0 <= i < k || d.last < i < |w| ==> d.row[i] == w[i])
            && (forall i :: k <= i < d.last ==> d.row[i] == 0)
            && (d.unmet > 0 ==> d.last == |w| - 1 && d.row[d.last] == 0)
    decreases |w| - k
  {
    var take := Min(rem, w[k]);
    if rem - take > 0 && k + 1 < |w| {
      DrainShape(w[k := w[k] - take], k + 1, rem - take);
    }
  }

  lemma SumOne(w: seq<nat>, k: nat)
    requires k < |w|
    ensures Sum(w, k, k + 1) == w[k] && Sum(w, k, k) == 0
  {
  }

  /** Exactly the met part of the request is taken, and the last slot is the first at which
      the slots hold enough. */
  lemma {:induction false} DrainSums(w: seq<nat>, k: nat, rem: nat)
    requires k < |w|
    ensures var d := Drain(w, k, rem);
            && Sum(w, k, d.last + 1) + d.unmet == Sum(d.row, k, d.last + 1) + rem
            && (k < d.last ==> Sum(w, k, d.last) < rem)
    decreases |w| - k
  {
    hide Sum;
    var take := Min(rem, w[k]);
    var d := Drain(w, k, rem);
    SumOne(w, k);
    SumOne(d.row, k);
    if rem - take > 0 && k + 1 < |w| {
      var w1 := w[k := w[k] - take];
      DrainSums(w1, k + 1, rem - take);
      DrainShape(w1, k + 1, rem - take);
      SumHead(w, w1, k, d.last + 1);
      SumHead(d.row, d.row, k, d.last + 1);
      SumHead(w, w1, k, d.last);
    }
  }

  lemma {:induction false} SumOfZeros(w: seq<nat>, a: nat, b: nat)
    requires a <= b <= |w| && forall i :: a <= i < b ==> w[i] == 0
    ensures Sum(w, a, b) == 0
    decreases b
  {
    if a < b {
      SumOfZeros(w, a, b - 1);
    }
  }

  /** Earliest fit: the request is met in slot `last`, and no earlier slot would do; or the
      whole rest of the row holds less than the request. */
  lemma DrainIsEarliestFit(w: seq<nat>, k: nat, rem: nat)
    requires k < |w|
    ensures var d := Drain(w, k, rem);
            && (d.unmet == 0 ==> rem <= Sum(w, k, d.last + 1) && (k < d.last ==> Sum(w, k, d.last) < rem))
            && (d.unmet > 0 ==> d.last == |w| - 1 && Sum(w, k, |w|) < rem)
            && Sum(w, k, d.last + 1) - Sum(d.row, k, d.last + 1) == rem - d.unmet
  {
    DrainSums(w, k, rem);
    DrainShape(w, k, rem);
    var d := Drain(w, k, rem);
    if d.unmet > 0 { SumOfZeros(d.row, k, d.last + 1); }
  }

  /** The slot that `Drain` ends in is the only one that can be the earliest fit. */
  lemma EarliestFitIsUnique(w: seq<nat>, k: nat, rem: nat, e: nat)
    requires k < |w| && k <= e < |w| && rem <= Sum(w, k, e + 1) && (k < e ==> Sum(w, k, e) < rem)
    ensures Drain(w, k, rem).last == e && Drain(w, k, rem).unmet == 0
  {
    DrainIsEarliestFit(w, k, rem);
    var d := Drain(w, k, rem);
    var f := d.last;
    if d.unmet > 0 {
      SumSplit(w, k, e + 1, f + 1);
    } else if f < e {
      SumSplit(w, k, f + 1, e);
    } else if e < f {
      SumSplit(w, k, e + 1, f);
    }
  }

  // ----- The ring as a window on the table of slots -----

  /** Array index of the slot `k` places after the head. */
  function At(head: nat, k: nat): nat
  {
    if head + k < NR_CREDIT_ENTRIES then head + k else head + k - NR_CREDIT_ENTRIES
  }

  lemma AtIsModular(head: nat, k: nat)
    requires head < NR_CREDIT_ENTRIES && k <= NR_CREDIT_ENTRIES
    ensures At(head, k) == (head + k) % NR_CREDIT_ENTRIES
  {
  }

  function Window(a: seq<nat>, head: nat): (w: seq<nat>)
    requires |a| == NR_CREDIT_ENTRIES && head < NR_CREDIT_ENTRIES
    ensures |w| == NR_CREDIT_ENTRIES
    ensures forall k :: 0 <= k < |w| ==> w[k] == a[At(head, k)]
  {
    seq(NR_CREDIT_ENTRIES, k requires 0 <= k < NR_CREDIT_ENTRIES => a[At(head, k)])
  }

  /** Credits left in slot `s` of the unbounded table: a slot nobody used is full. */
  function Get(t: map<nat, nat>, max: nat, s: nat): nat
  {
    if s in t then t[s] else max
  }

  /** The slots from `cur` on, as many as the ring holds. */
  function Row(t: map<nat, nat>, max: nat, cur: nat): (w: seq<nat>)
    ensures |w| == NR_CREDIT_ENTRIES
    ensures forall k :: 0 <= k < |w| ==> w[k] == Get(t, max, cur + k)
  {
    seq<nat>(NR_CREDIT_ENTRIES, (k: nat) => Get(t, max, cur + k))
  }

  /** The ring agrees with the table from slot `cur` on, and beyond `validLen` slots the
      table is full. */
  ghost predicate Agrees(a: seq<nat>, head: nat, validLen: nat, t: map<nat, nat>, max: nat, cur: nat)
  {
    && |a| == NR_CREDIT_ENTRIES && head < NR_CREDIT_ENTRIES && validLen <= NR_CREDIT_ENTRIES
    && Window(a, head) == Row(t, max, cur)
    && FullFrom(t, max, cur + validLen)
  }

  ghost predicate FullFrom(t: map<nat, nat>, max: nat, s0: nat)
  {
    forall s: nat :: s0 <= s ==> Get(t, max, s) == max
  }

  /** Moving the head `offs` slots on after refilling the slots passed. */
  function Shift(w: seq<nat>, offs: nat, max: nat): (v: seq<nat>)
    requires offs <= |w|
    ensures |v| == |w| && forall k :: 0 <= k < |w| ==> v[k] == if k + offs < |w| then w[k + offs] else max
  {
    w[offs..] + seq(offs, i => max)
  }

  lemma RefillIsShift(a: seq<nat>, a': seq<nat>, head: nat, offs: nat, max: nat)
    requires |a| == |a'| == NR_CREDIT_ENTRIES && head < NR_CREDIT_ENTRIES && offs <= NR_CREDIT_ENTRIES
    requires forall i :: 0 <= i < |a| ==>
      a'[i] == if (head <= i < head + offs) || (i + NR_CREDIT_ENTRIES < head + offs) then max else a[i]
    ensures Window(a', (head + offs) % NR_CREDIT_ENTRIES) == Shift(Window(a, head), offs, max)
  {
    var h' := (head + offs) % NR_CREDIT_ENTRIES;
    AtIsModular(head, offs);
    forall k | 0 <= k < NR_CREDIT_ENTRIES
      ensures a'[At(h', k)] == if k + offs < NR_CREDIT_ENTRIES then a[At(head, k + offs)] else max
    {
    }
  }

  /** The clock has moved `gap` slots on.  When the 32-bit offset sees the whole gap, or at
      least as much of it as the ring remembers, the ring still agrees with the table. */
  lemma ShiftAgrees(w: seq<nat>, validLen: nat, t: map<nat, nat>, max: nat, cur: nat, gap: nat)
    requires |w| == NR_CREDIT_ENTRIES && validLen <= |w| && w == Row(t, max, cur)
    requires FullFrom(t, max, cur + validLen)
    ensures Shift(w, Min(gap, validLen), max) == Row(t, max, cur + gap)
    ensures FullFrom(t, max, cur + gap + (validLen - Min(gap, validLen)))
  {
  }

  /** The offset of `chmodel_request` is computed in 32 bits.  Where that truncates it, the
      ring agrees with the table exactly if the slots it failed to pass were full anyway. */
  lemma TruncatedGap(w: seq<nat>, validLen: nat, t: map<nat, nat>, max: nat, cur: nat, gap: nat)
    requires |w| == NR_CREDIT_ENTRIES && validLen <= |w| && w == Row(t, max, cur)
    requires FullFrom(t, max, cur + validLen)
    requires U32(gap) < validLen <= gap
    ensures Shift(w, Min(U32(gap), validLen), max) == Row(t, max, cur + gap) <==>
            forall k :: U32(gap) <= k < validLen ==> w[k] == max
  {
    var offs := U32(gap);
    var v, r := Shift(w, offs, max), Row(t, max, cur + gap);
    assert forall k :: 0 <= k < |r| ==> r[k] == max;
    if v == r {
      forall k | offs <= k < validLen ensures w[k] == max {
        assert v[k - offs] == w[k];
      }
    } else {
      var k :| 0 <= k < |v| && v[k] != r[k];
      assert w[k + offs] != max;
      assert k + offs < validLen;
    }
  }

  /** Idle for exactly 2^32 slots with one used slot: the ring forgets to refill it. */
  lemma TruncatedGapExample()
    ensures var t := map[0 := 0]; var w := Row(t, 26, 0);
            Shift(w, Min(U32(0x1_0000_0000), 1), 26) != Row(t, 26, 0x1_0000_0000)
  {
    var t := map[0 := 0];
    var w := Row(t, 26, 0);
    TruncatedGap(w, 1, t, 26, 0, 0x1_0000_0000);
    assert w[0] == 0;
  }

  // ----- Taking credits from the table -----

  datatype Served = Served(table: map<nat, nat>, last: nat, unmet: nat)

  /** Credits are taken from the table, slot by slot from `s` on, up to the horizon. */
  function Serve(t: map<nat, nat>, max: nat, s: nat, rem: nat, horizon: nat): (r: Served)
    requires s < horizon
    ensures s <= r.last < horizon
    decreases horizon - s
  {
    var take := Min(rem, Get(t, max, s));
    var t1, rem1 := t[s := Get(t, max, s) - take], rem - take;
    if rem1 > 0 && s + 1 < horizon then Serve(t1, max, s + 1, rem1, horizon) else Served(t1, s, rem1)
  }

  /** A request that is met does not depend on the horizon: it is served from the unbounded
      table. */
  lemma {:induction false} HorizonDoesNotMatter(t: map<nat, nat>, max: nat, s: nat, rem: nat, horizon: nat,
                                                further: nat)
    requires s < horizon <= further && Serve(t, max, s, rem, horizon).unmet == 0
    ensures Serve(t, max, s, rem, further) == Serve(t, max, s, rem, horizon)
    decreases horizon - s
  {
    var take := Min(rem, Get(t, max, s));
    if rem - take > 0 {
      if s + 1 < horizon {
        HorizonDoesNotMatter(t[s := Get(t, max, s) - take], max, s + 1, rem - take, horizon, further);
      }
    }
  }

  lemma RowUpdate(t: map<nat, nat>, max: nat, cur: nat, k: nat, v: nat)
    requires k < NR_CREDIT_ENTRIES
    ensures Row(t[cur + k := v], max, cur) == Row(t, max, cur)[k := v]
    ensures forall s: nat :: s != cur + k ==> Get(t[cur + k := v], max, s) == Get(t, max, s)
  {
  }

  /** Taking credits from the ring's window is taking them from the table. */
  lemma {:induction false} DrainIsServe(t: map<nat, nat>, max: nat, cur: nat, k: nat, rem: nat)
    requires k < NR_CREDIT_ENTRIES
    ensures var d, u := Drain(Row(t, max, cur), k, rem), Serve(t, max, cur + k, rem, cur + NR_CREDIT_ENTRIES);
            && d.row == Row(u.table, max, cur) && u.last == cur + d.last && u.unmet == d.unmet
            && (forall s: nat :: !(cur + k <= s <= u.last) ==> Get(u.table, max, s) == Get(t, max, s))
    decreases NR_CREDIT_ENTRIES - k
  {
    hide Row, Get;
    var w := Row(t, max, cur);
    var take := Min(rem, w[k]);
    var t1 := t[cur + k := w[k] - take];
    RowUpdate(t, max, cur, k, w[k] - take);
    if rem - take > 0 && k + 1 < NR_CREDIT_ENTRIES {
      DrainIsServe(t1, max, cur, k + 1, rem - take);
    }
  }

  /** Credits left in the slots from `a` up to `b`. */
  function TableSum(t: map<nat, nat>, max: nat, a: nat, b: nat): nat
    decreases b
  {
    if a >= b then 0 else TableSum(t, max, a, b - 1) + Get(t, max, b - 1)
  }

  lemma {:induction false} RowSum(t: map<nat, nat>, max: nat, cur: nat, a: nat, b: nat)
    requires a <= b <= NR_CREDIT_ENTRIES
    ensures Sum(Row(t, max, cur), a, b) == TableSum(t, max, cur + a, cur + b)
    decreases b
  {
    hide Row, Get;
    if a < b {
      RowSum(t, max, cur, a, b - 1);
    }
  }

  /** Earliest fit in the table: a request for `rem` credits at slot `s` is met in the first slot
      by which the slots from `s` on hold enough, exactly what it asks for is taken, and nothing
      outside those slots changes. */
  lemma ServeIsEarliestFit(t: map<nat, nat>, max: nat, cur: nat, k: nat, rem: nat)
    requires k < NR_CREDIT_ENTRIES
    ensures var s := cur + k;
            var u := Serve(t, max, s, rem, cur + NR_CREDIT_ENTRIES);
            && (u.unmet == 0 ==> rem <= TableSum(t, max, s, u.last + 1) && (s < u.last ==> TableSum(t, max, s, u.last) < rem))
            && (u.unmet > 0 ==> TableSum(t, max, s, cur + NR_CREDIT_ENTRIES) < rem)
            && TableSum(t, max, s, u.last + 1) - TableSum(u.table, max, s, u.last + 1) == rem - u.unmet
            && (forall x: nat :: !(s <= x <= u.last) ==> Get(u.table, max, x) == Get(t, max, x))
  {
    hide Drain, Serve, Row, Sum, TableSum, Get;
    var w := Row(t, max, cur);
    DrainIsServe(t, max, cur, k, rem);
    DrainIsEarliestFit(w, k, rem);
    var d, u := Drain(w, k, rem), Serve(t, max, cur + k, rem, cur + NR_CREDIT_ENTRIES);
    RowSum(t, max, cur, k, d.last + 1);
    RowSum(t, max, cur, k, d.last);
    RowSum(t, max, cur, k, NR_CREDIT_ENTRIES);
    RowSum(u.table, max, cur, k, d.last + 1);
  }

  lemma {:induction false} ServeKeepsBound(t: map<nat, nat>, max: nat, s: nat, rem: nat, horizon: nat)
    requires s < horizon && forall x :: x in t ==> t[x] <= max
    ensures forall x :: x in Serve(t, max, s, rem, horizon).table ==> Serve(t, max, s, rem, horizon).table[x] <= max
    decreases horizon - s
  {
    var take := Min(rem, Get(t, max, s));
    if rem - take > 0 && s + 1 < horizon {
      ServeKeepsBound(t[s := Get(t, max, s) - take], max, s + 1, rem - take, horizon);
    }
  }

  // ----- Latency -----

  lemma {:induction false} SumOfFull(w: seq<nat>, a: nat, b: nat, max: nat)
    requires a <= b <= |w| && forall i :: a <= i < b ==> w[i] == max
    ensures Sum(w, a, b) == (b - a) * max
    decreases b
  {
    if a < b {
      SumOfFull(w, a, b - 1, max);
      assert (b - a) * max == (b - 1 - a) * max + max;
    }
  }

  /** The latency reported beyond the pure transfer time: slots waited, less the slots that
      the transfer takes at full bandwidth anyway. */
  function ExtraDelay(delay: nat, rem: nat, max: nat): nat
    requires max > 0
  {
    if delay > rem / max then delay - rem / max else 0
  }

  /** On a channel that is idle from the request on there is no extra delay. */
  lemma IdleHasNoExtraDelay(w: seq<nat>, k: nat, rem: nat, max: nat)
    requires k < |w| && max > 0 && forall i :: k <= i < |w| ==> w[i] == max
    ensures ExtraDelay(Drain(w, k, rem).last - k, rem, max) == 0
  {
    DrainSums(w, k, rem);
    var n := Drain(w, k, rem).last - k;
    SumOfFull(w, k, k + n, max);
    if n > 0 {
      QuotientAtLeast(n, rem, max);
    }
  }

  lemma ScaleDown(a: nat, b: nat, k: nat)
    requires k > 0
    ensures a >= b ==> a * k >= b * k
  {
  }

  lemma QuotientAtLeast(n: nat, rem: nat, max: nat)
    requires max > 0 && n * max <= rem
    ensures n <= rem / max
  {
    assert rem == max * (rem / max) + rem % max;
    ScaleDown(n, rem / max + 1, max);
  }

  // ----- The ring -----

  function Quotient(a: nat, k: nat): (q: nat)
    requires k > 0
    ensures q * k <= a < (q + 1) * k
  {
    assert a == k * (a / k) + a % k;
    a / k
  }

  /** `BANDWIDTH_TO_TX_TIME`: the nanoseconds that one unit takes at `mbps` MiB a second. */
  function TxTime(mbps: nat): nat
    requires mbps > 0
  {
    Quotient(UNIT_XFER_SIZE * 1_000_000_000, mbps * 0x10_0000)
  }

  /** At that bandwidth 128 bytes take at least as long, and less than a nanosecond longer. */
  lemma TxTimeFits(mbps: nat)
    requires mbps > 0
    ensures TxTime(mbps) * (mbps * 0x10_0000) <= 128_000_000_000 < (TxTime(mbps) + 1) * (mbps * 0x10_0000)
  {
  }

  /** `BANDWIDTH_TO_MAX_CREDITS`: the whole units that pass in one slot. */
  function MaxCredits(mbps: nat): (credits: nat)
    ensures credits * UNIT_XFER_SIZE * 1_000_000_000 <= mbps * 0x10_0000 * UNIT_TIME_INTERVAL
    ensures mbps * 0x10_0000 * UNIT_TIME_INTERVAL < (credits + 1) * UNIT_XFER_SIZE * 1_000_000_000
  {
    mbps * 0x10_0000 * UNIT_TIME_INTERVAL / 1_000_000_000 / UNIT_XFER_SIZE * UNIT_XFER_CREDITS
  }

  /** `DIV_ROUND_UP(length, UNIT_XFER_SIZE)` in a 32-bit variable. */
  function Units(length: nat): nat {
    U32((length + UNIT_XFER_SIZE - 1) / UNIT_XFER_SIZE)
  }

  class Channel {
    var curTime: nat
    var head: nat
    var validLen: nat
    var maxCredits: nat
    var commandCredits: nat
    var xferLat: nat
    const avail: array<nat>
    ghost var table: map<nat, nat>   // credits left in the slots that have been used

    ghost predicate Shape()
      reads this, avail
    {
      && avail.Length == NR_CREDIT_ENTRIES && head < NR_CREDIT_ENTRIES && validLen <= NR_CREDIT_ENTRIES
      && 1 <= maxCredits <= 0xFF
    }

    /** The ring stands for the table of slots from the current one on. */
    ghost predicate Refines()
      requires Shape()
      reads this, avail
    {
      && Agrees(avail[..], head, validLen, table, maxCredits, Slot(curTime))
      && forall s :: s in table ==> table[s] <= maxCredits
    }

    /** `chmodel_init`; the ring bytes hold the credits only if they fit in 8 bits. */
    constructor (bandwidth: nat)
      requires bandwidth > 0
      ensures fresh(avail)
      ensures commandCredits == 0 && curTime == 0 && validLen == 0 && table == map[]
      ensures maxCredits == MaxCredits(bandwidth) && xferLat == TxTime(bandwidth)
      ensures 1 <= maxCredits <= 0xFF ==> Shape() && Refines()
    {
      curTime, head, validLen, commandCredits := 0, 0, 0, 0;
      maxCredits := MaxCredits(bandwidth);
      xferLat := TxTime(bandwidth);
      avail := new nat[NR_CREDIT_ENTRIES];
      table := map[];
      new;
      Memset(0, NR_CREDIT_ENTRIES);
    }

    /** `MEMSET(&avail_credits[start], max_credits, len)`, byte by byte. */
    method Memset(start: nat, len: nat)
      requires start + len <= avail.Length
      modifies avail
      ensures forall i :: 0 <= i < avail.Length ==>
        avail[i] == if start <= i < start + len then maxCredits % 0x100 else old(avail[i])
    {
      for j := 0 to len
        invariant forall i :: 0 <= i < avail.Length ==>
          avail[i] == if start <= i < start + j then maxCredits % 0x100 else old(avail[i])
      {
        avail[start + j] := maxCredits % 0x100;
      }
    }

    /** The entries that the head passes over become full again, in two parts at the wrap. */
    method ClearBehind(offs: nat)
      requires Shape() && offs <= NR_CREDIT_ENTRIES
      modifies avail
      ensures forall i :: 0 <= i < NR_CREDIT_ENTRIES ==>
                avail[i] == if (head <= i < head + offs) || (i + NR_CREDIT_ENTRIES < head + offs) then maxCredits else old(avail[i])
    {
      if head + offs >= NR_CREDIT_ENTRIES {
        Memset(head, NR_CREDIT_ENTRIES - head);
        Memset(0, offs - (NR_CREDIT_ENTRIES - head));
      } else {
        Memset(head, offs);
      }
    }

    /** The first part of `chmodel_request`: the head moves to the slot of the clock, and the
        slots it passes are refilled. */
    method MoveHead(clock: nat)
      requires Shape() && clock >= curTime
      modifies this`head, this`validLen, this`curTime, avail
      ensures Shape() && curTime == clock
      ensures var offs := Min(U32(Slot(clock) - old(Slot(curTime))), old(validLen));
              && validLen == old(validLen) - offs
              && Window(avail[..], head) == Shift(old(Window(avail[..], head)), offs, maxCredits)
    {
      hide Window, Shift, U32;
      ghost var a := avail[..];
      var offs := U32(Slot(clock) - Slot(curTime));
      offs := if offs < validLen then offs else validLen;
      ClearBehind(offs);
      RefillIsShift(a, avail[..], head, offs, maxCredits);
      head := (head + offs) % NR_CREDIT_ENTRIES;
      curTime := clock;
      validLen := validLen - offs;
    }

    /** The loop of `chmodel_request`: credits are taken slot by slot, from `offs` slots after
        the head on, until the request is met or the next slot would be the head again. */
    method DrainRing(offs: nat, rem0: nat) returns (pos: nat, delay: nat, ghost last: nat)
      requires Shape() && offs < NR_CREDIT_ENTRIES
      modifies avail
      ensures var d := Drain(old(Window(avail[..], head)), offs, rem0);
              && Window(avail[..], head) == d.row && last == d.last && delay == last - offs
      ensures last < NR_CREDIT_ENTRIES && pos == At(head, last)
    {
      hide Window, Drain;
      pos := (head + offs) % NR_CREDIT_ENTRIES;
      AtIsModular(head, offs);
      var rem := rem0;
      delay, last := 0, offs;
      ghost var d := Drain(Window(avail[..], head), offs, rem0);
      while true
        invariant offs <= last < NR_CREDIT_ENTRIES && pos == At(head, last) && delay == last - offs
        invariant Drain(Window(avail[..], head), last, rem) == d
        decreases NR_CREDIT_ENTRIES - last
      {
        ghost var a := avail[..];
        DrainStep(Window(a, head), last, rem);
        WindowAt(a, head, last);
        var consumed := Min(rem, avail[pos]);
        WindowUpdate(a, head, last, avail[pos] - consumed);
        avail[pos] := avail[pos] - consumed;
        assert avail[..] == a[pos := a[pos] - consumed];
        rem := rem - consumed;
        if rem == 0 {
          break;
        }
        var nextPos := (pos + 1) % NR_CREDIT_ENTRIES;
        if nextPos == head {
          break;
        }
        delay := delay + 1;
        pos := nextPos;
        last := last + 1;
      }
    }

    /** The second part of `chmodel_request`: taking the credits and extending the valid part
        of the ring over the slots used. */
    method TakeCredits(offs: nat, rem0: nat) returns (delay: nat)
      requires Shape() && offs < NR_CREDIT_ENTRIES
      modifies this`validLen, avail
      ensures Shape()
      ensures var d := Drain(old(Window(avail[..], head)), offs, rem0);
              && Window(avail[..], head) == d.row && delay == d.last - offs
              && validLen == if d.last + 1 > old(validLen) then d.last + 1 else old(validLen)
    {
      hide Window, Drain;
      var pos: nat;
      ghost var last: nat;
      pos, delay, last := DrainRing(offs, rem0);
      var validLength := if pos >= head then pos - head + 1 else NR_CREDIT_ENTRIES - (head - pos - 1);
      assert validLength == last + 1;
      if validLength > validLen {
        validLen := validLength;
      }
    }

    /** Moving the head keeps the ring in agreement with the table, if the offset sees the gap. */
    method AdvanceClock(clock: nat)
      requires Shape() && clock >= curTime
      modifies this`head, this`validLen, this`curTime, avail
      ensures Shape() && curTime == clock
      ensures old(Refines()) && SeesGap(old(curTime), clock, old(validLen)) ==> Refines()
    {
      hide Window, Row, FullFrom, Shift;
      ghost var sane := Refines() && SeesGap(curTime, clock, validLen);
      ghost var w, v, cur := Window(avail[..], head), validLen, Slot(curTime);
      MoveHead(clock);
      if sane {
        ShiftAgrees(w, v, table, maxCredits, cur, Slot(clock) - cur);
      }
    }

    /** Taking credits from the ring serves the request from the table. */
    method ServeFromRing(offs: nat, rem: nat) returns (delay: nat)
      requires Shape() && offs < NR_CREDIT_ENTRIES
      modifies this`validLen, this`table, avail
      ensures Shape()
      ensures old(Refines()) ==>
        var u := Serve(old(table), maxCredits, Slot(curTime) + offs, rem, Slot(curTime) + NR_CREDIT_ENTRIES);
        Refines() && table == u.table && delay == u.last - (Slot(curTime) + offs)
      ensures !old(Refines()) ==> table == old(table)
    {
      hide Window, Drain, Serve, Row, FullFrom;
      ghost var sane := Refines();
      ghost var w, v := Window(avail[..], head), validLen;
      delay := TakeCredits(offs, rem);
      if sane {
        TakenAgrees(w, v, table, maxCredits, Slot(curTime), offs, rem);
        table := Serve(table, maxCredits, Slot(curTime) + offs, rem, Slot(curTime) + NR_CREDIT_ENTRIES).table;
      }
    }

    /** `chmodel_request` at clock time `clock`.  As long as the 32-bit offsets do not lose
        slots that matter, the ring serves the request exactly as the unbounded table would:
        from the request's slot on, in the earliest slots that hold enough credits. */
    method Request(clock: nat, requestTime: nat, length: nat) returns (t: nat)
      requires Shape() && clock >= curTime
      modifies this`head, this`validLen, this`curTime, this`table, avail
      ensures Shape() && curTime == clock
      ensures old(Refines()) && SeesGap(old(curTime), clock, old(validLen)) && Near(clock, requestTime) ==>
        && Refines()
        && (if OutsideRing(clock, requestTime) then t == requestTime && table == old(table)
            else
              var rem := U32(Units(length) * UNIT_XFER_CREDITS + commandCredits);
              var u := Serve(old(table), maxCredits, Slot(requestTime), rem, Slot(clock) + NR_CREDIT_ENTRIES);
              && table == u.table
              && t == Finish(requestTime, xferLat, Units(length), u.last - Slot(requestTime), rem, maxCredits))
    {
      hide Serve, Refines, Units, Finish;
      AdvanceClock(clock);
      if requestTime < clock {
        return requestTime;
      }
      SlotGrows(clock, requestTime);
      var offs := U32(Slot(requestTime) - Slot(clock));
      if offs >= NR_CREDIT_ENTRIES {
        return requestTime;
      }
      var units := Units(length);
      var rem := U32(units * UNIT_XFER_CREDITS + commandCredits);
      var delay := ServeFromRing(offs, rem);
      return Finish(requestTime, xferLat, units, delay, rem, maxCredits);
    }
  }

  /** The 32-bit offset sees as much of the gap as the ring remembers. */
  predicate SeesGap(curTime: nat, clock: nat, validLen: nat) {
    var gap := Slot(clock) - Slot(curTime);
    gap >= 0 && Min(U32(gap), validLen) == Min(gap, validLen)
  }

  predicate Near(clock: nat, requestTime: nat) {
    requestTime >= clock ==> Slot(requestTime) - Slot(clock) < 0x1_0000_0000
  }

  /** Requests in the past, or further ahead than the ring reaches, are not modelled. */
  predicate OutsideRing(clock: nat, requestTime: nat) {
    requestTime < clock || Slot(requestTime) - Slot(clock) >= NR_CREDIT_ENTRIES
  }

  /** The completion time: the transfer time is a 32-bit product, the sum a 64-bit one. */
  function Finish(requestTime: nat, xferLat: nat, units: nat, delay: nat, rem: nat, max: nat): nat
    requires max > 0
  {
    (requestTime + U32(xferLat * units) + ExtraDelay(delay, rem, max) * UNIT_TIME_INTERVAL) % 0x1_0000_0000_0000_0000
  }

  lemma SlotGrows(a: nat, b: nat)
    requires a <= b
    ensures Slot(a) <= Slot(b)
  {
  }

  /** After taking credits the ring agrees with the table the request was served from. */
  lemma TakenAgrees(w: seq<nat>, validLen: nat, t: map<nat, nat>, max: nat, cur: nat, offs: nat, rem: nat)
    requires |w| == NR_CREDIT_ENTRIES && w == Row(t, max, cur) && offs < NR_CREDIT_ENTRIES
    requires FullFrom(t, max, cur + validLen)
    requires forall s :: s in t ==> t[s] <= max
    ensures var d, u := Drain(w, offs, rem), Serve(t, max, cur + offs, rem, cur + NR_CREDIT_ENTRIES);
            && d.row == Row(u.table, max, cur) && u.last == cur + d.last
            && FullFrom(u.table, max, cur + (if d.last + 1 > validLen then d.last + 1 else validLen))
            && (forall s :: s in u.table ==> u.table[s] <= max)
  {
    hide Drain, Serve, Row;
    DrainIsServe(t, max, cur, offs, rem);
    ServeKeepsBound(t, max, cur + offs, rem, cur + NR_CREDIT_ENTRIES);
  }

  lemma WindowAt(a: seq<nat>, head: nat, k: nat)
    requires |a| == NR_CREDIT_ENTRIES && head < NR_CREDIT_ENTRIES && k < NR_CREDIT_ENTRIES
    ensures Window(a, head)[k] == a[At(head, k)]
  {
  }

  lemma WindowUpdate(a: seq<nat>, head: nat, k: nat, x: nat)
    requires |a| == NR_CREDIT_ENTRIES && head < NR_CREDIT_ENTRIES && k < NR_CREDIT_ENTRIES
    ensures Window(a[At(head, k) := x], head) == Window(a, head)[k := x]
  {
  }

  lemma DrainStep(w: seq<nat>, k: nat, rem: nat)
    requires k < |w|
    ensures var take := Min(rem, w[k]); var w1, rem1 := w[k := w[k] - take], rem - take;
            Drain(w, k, rem) == if rem1 > 0 && k + 1 < |w| then Drain(w1, k + 1, rem1) else Drained(w1, k, rem1)
  {
  }

  // ----- Runs -----

  datatype Req = Req(clock: nat, requestTime: nat, length: nat)

  /** A request served from the table: the table after it, and its completion time. */
  function TableStep(t: map<nat, nat>, max: nat, xferLat: nat, r: Req): (map<nat, nat>, nat)
    requires max > 0
  {
    if OutsideRing(r.clock, r.requestTime) then (t, r.requestTime)
    else
      var rem := U32(Units(r.length) * UNIT_XFER_CREDITS);
      SlotGrows(r.clock, r.requestTime);
      var u := Serve(t, max, Slot(r.requestTime), rem, Slot(r.clock) + NR_CREDIT_ENTRIES);
      (u.table, Finish(r.requestTime, xferLat, Units(r.length), u.last - Slot(r.requestTime), rem, max))
  }

  /** A request whose slot and all later ones are untouched takes its transfer time and no more. */
  lemma IdleRequest(t: map<nat, nat>, max: nat, xferLat: nat, r: Req)
    requires max > 0 && r.clock <= r.requestTime && r.requestTime / 4000 < r.clock / 4000 + 98304
    requires FullFrom(t, max, r.requestTime / 4000)
    ensures TableStep(t, max, xferLat, r).1
            == (r.requestTime + U32(xferLat * Units(r.length))) % 0x1_0000_0000_0000_0000
  {
    hide Drain, Serve, U32, Units;
    SlotGrows(r.clock, r.requestTime);
    var cur, k, rem := Slot(r.clock), Slot(r.requestTime) - Slot(r.clock), U32(Units(r.length) * UNIT_XFER_CREDITS);
    DrainIsServe(t, max, cur, k, rem);
    IdleHasNoExtraDelay(Row(t, max, cur), k, rem, max);
  }

  /** When a request that is met in slot `e` is done: `e` is the first slot by which the slots from
      its own on hold enough, and for each slot that it lies beyond those which the credits alone
      would take, the request ends a slot later than its transfer time. */
  lemma ContendedRequest(t: map<nat, nat>, max: nat, xferLat: nat, r: Req, e: nat)
    requires max > 0 && r.clock <= r.requestTime && r.requestTime / 4000 < r.clock / 4000 + 98304
    requires r.requestTime / 4000 <= e < r.clock / 4000 + NR_CREDIT_ENTRIES
    requires var rem, s := U32(Units(r.length) * UNIT_XFER_CREDITS), r.requestTime / 4000;
             rem <= TableSum(t, max, s, e + 1) && (s < e ==> TableSum(t, max, s, e) < rem)
    ensures var rem, s := U32(Units(r.length) * UNIT_XFER_CREDITS), r.requestTime / 4000;
            var late := if e > s + rem / max then e - s - rem / max else 0;
            TableStep(t, max, xferLat, r).1
            == (r.requestTime + U32(xferLat * Units(r.length)) + late * 4000) % 0x1_0000_0000_0000_0000
  {
    hide Drain, Serve, U32, Units, Sum, TableSum, Row;
    SlotGrows(r.clock, r.requestTime);
    var cur, k, rem := Slot(r.clock), Slot(r.requestTime) - Slot(r.clock), U32(Units(r.length) * UNIT_XFER_CREDITS);
    RowSum(t, max, cur, k, e - cur + 1);
    RowSum(t, max, cur, k, e - cur);
    EarliestFitIsUnique(Row(t, max, cur), k, rem, e - cur);
    DrainIsServe(t, max, cur, k, rem);
  }

  /** A request for which the ring holds too little runs to its last slot. */
  lemma UnmetRequest(t: map<nat, nat>, max: nat, xferLat: nat, r: Req)
    requires max > 0 && r.clock <= r.requestTime && r.requestTime / 4000 < r.clock / 4000 + 98304
    requires TableSum(t, max, r.requestTime / 4000, r.clock / 4000 + NR_CREDIT_ENTRIES)
             < U32(Units(r.length) * UNIT_XFER_CREDITS)
    ensures var rem, s := U32(Units(r.length) * UNIT_XFER_CREDITS), r.requestTime / 4000;
            var e := r.clock / 4000 + NR_CREDIT_ENTRIES - 1;
            var late := if e > s + rem / max then e - s - rem / max else 0;
            TableStep(t, max, xferLat, r).1
            == (r.requestTime + U32(xferLat * Units(r.length)) + late * 4000) % 0x1_0000_0000_0000_0000
  {
    hide Drain, Serve, U32, Units, Sum, TableSum, Row;
    SlotGrows(r.clock, r.requestTime);
    var cur, k, rem := Slot(r.clock), Slot(r.requestTime) - Slot(r.clock), U32(Units(r.length) * UNIT_XFER_CREDITS);
    RowSum(t, max, cur, k, NR_CREDIT_ENTRIES);
    var d := Drain(Row(t, max, cur), k, rem);
    RowSum(t, max, cur, k, d.last + 1);
    DrainIsEarliestFit(Row(t, max, cur), k, rem);
    SumGrows(Row(t, max, cur), k, d.last + 1, NR_CREDIT_ENTRIES);
    DrainIsServe(t, max, cur, k, rem);
  }

  lemma SumGrows(w: seq<nat>, a: nat, b: nat, c: nat)
    requires a <= b <= c <= |w|
    ensures Sum(w, a, b) <= Sum(w, a, c)
  {
    SumSplit(w, a, b, c);
  }

  lemma {:induction false} NothingLeft(t: map<nat, nat>, max: nat, a: nat, b: nat)
    requires a <= b && forall s :: a <= s < b ==> Get(t, max, s) == 0
    ensures TableSum(t, max, a, b) == 0
    decreases b
  {
    if a < b { NothingLeft(t, max, a, b - 1); }
  }

  /** With `k` slots used up before a full one, a request for less than a slot's worth ends `k`
      slots later than on an idle channel. */
  lemma WaitsForSlots(t: map<nat, nat>, max: nat, xferLat: nat, r: Req, k: nat)
    requires max > 0 && r.clock <= r.requestTime && r.requestTime / 4000 < r.clock / 4000 + 98304
    requires 0 < U32(Units(r.length) * UNIT_XFER_CREDITS) < max
    requires var s := r.requestTime / 4000;
             && s + k < r.clock / 4000 + NR_CREDIT_ENTRIES && Get(t, max, s + k) == max
             && forall x :: s <= x < s + k ==> Get(t, max, x) == 0
    ensures TableStep(t, max, xferLat, r).1
            == (r.requestTime + U32(xferLat * Units(r.length)) + k * 4000) % 0x1_0000_0000_0000_0000
  {
    hide Drain, Serve, U32, Units, Get;
    var rem, s := U32(Units(r.length) * UNIT_XFER_CREDITS), Slot(r.requestTime);
    NothingLeft(t, max, s, s + k);
    assert rem / max == 0;
    hide TableStep;
    ContendedRequest(t, max, xferLat, r, s + k);
  }

  /** The units cover the length, with less than one to spare, below the 32-bit limit. */
  lemma UnitsCover(length: nat)
    requires length <= 0xFFFF_FFFF * UNIT_XFER_SIZE
    ensures Units(length) * UNIT_XFER_SIZE >= length > (Units(length) - 1) * UNIT_XFER_SIZE
  {
  }

  lemma RatesAt800()
    ensures MaxCredits(800) == 26 && TxTime(800) == 152
  {
    hide TxTime;
    TxTimeFits(800);
  }

  /** At 800 MiB/s the first 3328 bytes use up a slot; 128 bytes more, asked for at the same time,
      wait for the next one. */
  lemma SecondRequestWaits()
    ensures MaxCredits(800) == 26 && TxTime(800) == 152
    ensures TableStep(map[], 26, 152, Req(0, 0, 3328)) == (map[0 := 0], 3952)
    ensures TableStep(map[0 := 0], 26, 152, Req(0, 0, 128)).1 == 4152
  {
    hide MaxCredits, TxTime, Serve, TableSum;
    RatesAt800();
    assert Units(3328) == 26;
    ServedInOneSlot(map[], 26, 0, 26, NR_CREDIT_ENTRIES);
    SecondOfTwo();
  }

  lemma ServedInOneSlot(t: map<nat, nat>, max: nat, s: nat, rem: nat, horizon: nat)
    requires s < horizon && rem <= Get(t, max, s)
    ensures Serve(t, max, s, rem, horizon) == Served(t[s := Get(t, max, s) - rem], s, 0)
  {
  }

  lemma SecondOfTwo()
    ensures TableStep(map[0 := 0], 26, 152, Req(0, 0, 128)).1 == 4152
  {
    hide Serve, TableSum, TableStep;
    assert Units(128) == 1;
    WaitsForSlots(map[0 := 0], 26, 152, Req(0, 0, 128), 1);
  }

  function TableAfter(max: nat, xferLat: nat, reqs: seq<Req>): map<nat, nat>
    requires max > 0
  {
    if reqs == [] then map[]
    else TableStep(TableAfter(max, xferLat, reqs[..|reqs| - 1]), max, xferLat, reqs[|reqs| - 1]).0
  }

  /** The clock does not go back, and neither jumps by 2^32 slots nor lies that far behind. */
  ghost predicate Steady(reqs: seq<Req>)
  {
    && (forall i :: 0 <= i < |reqs| ==> Near(reqs[i].clock, reqs[i].requestTime))
    && (forall i :: 0 < i < |reqs| ==>
          reqs[i - 1].clock <= reqs[i].clock && Slot(reqs[i].clock) - Slot(reqs[i - 1].clock) < 0x1_0000_0000)
  }

  lemma NothingServed(max: nat, xferLat: nat, reqs: seq<Req>)
    requires max > 0
    ensures TableAfter(max, xferLat, reqs[..0]) == map[] && reqs[..|reqs|] == reqs
  {
  }

  lemma OneMoreServed(max: nat, xferLat: nat, reqs: seq<Req>, i: nat)
    requires max > 0 && i < |reqs|
    ensures TableAfter(max, xferLat, reqs[..i + 1]) == TableStep(TableAfter(max, xferLat, reqs[..i]), max, xferLat, reqs[i]).0
  {
    assert reqs[..i + 1][..i] == reqs[..i];
  }

  lemma GapIsSeen(reqs: seq<Req>, i: nat, curTime: nat, validLen: nat)
    requires Steady(reqs) && i < |reqs|
    requires if i == 0 then curTime == validLen == 0 else curTime == reqs[i - 1].clock
    ensures curTime <= reqs[i].clock && SeesGap(curTime, reqs[i].clock, validLen)
  {
    SlotGrows(curTime, reqs[i].clock);
  }

  /** Over every run from `chmodel_init` the ring answers as the unbounded table would, with the
      credits and the transfer time of its bandwidth. */
  method Run(bandwidth: nat, reqs: seq<Req>) returns (ch: Channel, times: seq<nat>)
    requires bandwidth > 0 && Steady(reqs)
    requires 1 <= MaxCredits(bandwidth) <= 0xFF
    ensures ch.Shape() && ch.Refines() && ch.maxCredits == MaxCredits(bandwidth) && ch.xferLat == TxTime(bandwidth)
    ensures ch.table == TableAfter(MaxCredits(bandwidth), TxTime(bandwidth), reqs)
    ensures |times| == |reqs|
    ensures forall i :: 0 <= i < |reqs| ==>
              var max, lat := MaxCredits(bandwidth), TxTime(bandwidth);
              times[i] == TableStep(TableAfter(max, lat, reqs[..i]), max, lat, reqs[i]).1
  {
    hide Channel.Refines, Serve, Finish, Units, U32, Slot, TableAfter, MaxCredits, TxTime;
    ch := new Channel(bandwidth);
    var max, lat := ch.maxCredits, ch.xferLat;
    NothingServed(max, lat, reqs);
    times := [];
    for i := 0 to |reqs|
      invariant fresh(ch) && fresh(ch.avail) && ch.Shape() && ch.Refines() && ch.commandCredits == 0
      invariant ch.maxCredits == max && ch.xferLat == lat
      invariant i == 0 ==> ch.curTime == ch.validLen == 0
      invariant i > 0 ==> ch.curTime == reqs[i - 1].clock
      invariant ch.table == TableAfter(max, lat, reqs[..i])
      invariant |times| == i
      invariant forall j :: 0 <= j < i ==> times[j] == TableStep(TableAfter(max, lat, reqs[..j]), max, lat, reqs[j]).1
    {
      var r := reqs[i];
      OneMoreServed(max, lat, reqs, i);
      GapIsSeen(reqs, i, ch.curTime, ch.validLen);
      var t := ch.Request(r.clock, r.requestTime, r.length);
      times := times + [t];
    }
  }
}
