/** The work queue of one I/O worker (io.c): two index-linked lists in one array.  The
    dispatcher inserts and reclaims entries while the worker copies and completes them; the
    operations below are the interleaved steps. */
module IoQueue {
  import opened IdLists
  import opened Wrappers

  /** `(unsigned int)-1`, the end of a list. */
  const NONE: nat := 0xFFFF_FFFF

  /** `struct nvmev_io_work`, as far as the lists and the life of a request go. */
  datatype Work = Work(target: nat, isCompleted: bool, isCopied: bool, isInternal: bool, next: nat, prev: nat)

  function Max(a: nat, b: nat): nat {
    if a >= b then a else b
  }

  // ----- Lists of entries -----

  ghost predicate InRange(q: seq<Work>, l: seq<nat>)
  {
    forall i :: 0 <= i < |l| ==> l[i] < |q|
  }

  /** The entry at position `i` of the list, or the end mark when there is none. */
  function At(l: seq<nat>, i: int): nat {
    if 0 <= i < |l| then l[i] else NONE
  }

  /** `next` leads along `l` and ends it. */
  ghost predicate Chain(q: seq<Work>, l: seq<nat>)
    requires InRange(q, l)
  {
    forall i :: 0 <= i < |l| ==> q[l[i]].next == At(l, i + 1)
  }

  /** `prev` is the inverse of `next` along `l`. */
  ghost predicate BackChain(q: seq<Work>, l: seq<nat>)
    requires InRange(q, l)
  {
    forall i :: 0 <= i < |l| ==> q[l[i]].prev == At(l, i - 1)
  }

  /** The two lists share no entry and leave out none but those of `out`. */
  ghost predicate Partition(n: nat, io: seq<nat>, free: seq<nat>, out: set<nat>)
  {
    && NoDup(io) && NoDup(free)
    && (forall e :: e in io ==> e !in free && e !in out)
    && (forall e :: e in free ==> e !in out)
    && (forall e: nat :: e < n ==> e in io || e in free || e in out)
  }

  /** The order of the list: by target time, as far as it still lies ahead. */
  ghost predicate Sorted(q: seq<Work>, io: seq<nat>, latest: nat)
    requires InRange(q, io)
  {
    forall i, j :: 0 <= i < j < |io| ==> Max(q[io[i]].target, latest) <= Max(q[io[j]].target, latest)
  }

  /** Recycled entries, which are completed, come after the entries never used. */
  ghost predicate RecycledLast(q: seq<Work>, free: seq<nat>)
    requires InRange(q, free)
  {
    forall i, j :: 0 <= i < j < |free| && q[free[i]].isCompleted ==> q[free[j]].isCompleted
  }

  /** Time moving on keeps the order. */
  lemma LaterStaysSorted(q: seq<Work>, io: seq<nat>, latest: nat, now: nat)
    requires InRange(q, io) && Sorted(q, io, latest) && latest <= now
    ensures Sorted(q, io, now)
  {
    forall i, j | 0 <= i < j < |io| ensures Max(q[io[i]].target, now) <= Max(q[io[j]].target, now) {
      assert Max(q[io[i]].target, latest) <= Max(q[io[j]].target, latest);
    }
  }

  /** `l` with `e` put in at position `p`. */
  function InsertAt(l: seq<nat>, p: nat, e: nat): (m: seq<nat>)
    requires p <= |l|
    ensures |m| == |l| + 1 && m[p] == e
    ensures forall i :: 0 <= i < p ==> m[i] == l[i]
    ensures forall i :: p < i < |m| ==> m[i] == l[i - 1]
  {
    l[..p] + [e] + l[p..]
  }

  lemma InsertAtMembers(l: seq<nat>, p: nat, e: nat)
    requires p <= |l|
    ensures forall x :: x in InsertAt(l, p, e) <==> x == e || x in l
    ensures NoDup(l) && e !in l ==> NoDup(InsertAt(l, p, e))
  {
    var m := InsertAt(l, p, e);
    assert l == l[..p] + l[p..];
    forall i, j | 0 <= i < j < |m| && NoDup(l) && e !in l ensures m[i] != m[j] {
      var a, b := if i < p then i else i - 1, if j < p then j else j - 1;
      assert i != p ==> m[i] == l[a];
      assert j != p ==> m[j] == l[b];
    }
  }

  /** Inserting behind everything that is due earlier, or due already, keeps the order. */
  lemma InsertKeepsSorted(q: seq<Work>, io: seq<nat>, latest: nat, p: nat, e: nat)
    requires InRange(q, io) && Sorted(q, io, latest) && p <= |io| && e < |q|
    requires forall i :: p <= i < |io| ==> q[io[i]].target > latest && q[io[i]].target > q[e].target
    requires p > 0 ==> q[io[p - 1]].target <= latest || q[io[p - 1]].target <= q[e].target
    ensures InRange(q, InsertAt(io, p, e)) && Sorted(q, InsertAt(io, p, e), latest)
  {
    hide InsertAt;
    var m := InsertAt(io, p, e);
    forall i, j | 0 <= i < j < |m| ensures Max(q[m[i]].target, latest) <= Max(q[m[j]].target, latest) {
      if i == p {
        assert m[j] == io[j - 1];
      } else if j == p {
        assert m[i] == io[i];
        if i < p - 1 { assert Max(q[io[i]].target, latest) <= Max(q[io[p - 1]].target, latest); }
      } else {
        var a, b := if i < p then i else i - 1, if j < p then j else j - 1;
        assert m[i] == io[a] && m[j] == io[b];
      }
    }
  }

  /** The links that change when `e` goes in at position `p`. */
  ghost predicate Relinked(q: seq<Work>, q': seq<Work>, io: seq<nat>, p: nat, e: nat)
    requires p <= |io|
  {
    && |q'| == |q|
    && (forall x :: 0 <= x < |q| ==>
          && q'[x].next == (if x == e then At(io, p) else if p > 0 && x == io[p - 1] then e else q[x].next)
          && q'[x].prev == (if x == e then At(io, p - 1) else if p < |io| && x == io[p] then e else q[x].prev)
          && q'[x].(next := q[x].next, prev := q[x].prev) == q[x])
  }

  lemma InsertNext(q: seq<Work>, q': seq<Work>, io: seq<nat>, p: nat, e: nat)
    requires InRange(q, io) && NoDup(io) && Chain(q, io) && p <= |io| && e < |q| && e !in io
    requires Relinked(q, q', io, p, e)
    ensures InRange(q', InsertAt(io, p, e)) && Chain(q', InsertAt(io, p, e))
  {
    hide InsertAt, Relinked;
    var m := InsertAt(io, p, e);
    forall i: nat | i < |m| ensures m[i] < |q'| && q'[m[i]].next == At(m, i + 1) { InsertNextAt(q, q', io, p, e, i); }
  }

  lemma InsertNextAt(q: seq<Work>, q': seq<Work>, io: seq<nat>, p: nat, e: nat, i: nat)
    requires InRange(q, io) && NoDup(io) && Chain(q, io) && p <= |io| && e < |q| && e !in io && i <= |io|
    requires Relinked(q, q', io, p, e)
    ensures var m := InsertAt(io, p, e); m[i] < |q'| && q'[m[i]].next == At(m, i + 1)
  {
    hide InsertAt, Chain, NoDup;
    var m := InsertAt(io, p, e);
    if i < p {
      OwnNext(q, io, i);
      if i < p - 1 { Apart(io, i, p - 1); }
    } else if i > p {
      OwnNext(q, io, i - 1);
      if p > 0 { Apart(io, p - 1, i - 1); }
    }
  }

  lemma OwnNext(q: seq<Work>, l: seq<nat>, i: nat)
    requires InRange(q, l) && Chain(q, l) && i < |l|
    ensures q[l[i]].next == At(l, i + 1) && l[i] in l
  {
  }

  lemma InsertPrev(q: seq<Work>, q': seq<Work>, io: seq<nat>, p: nat, e: nat)
    requires InRange(q, io) && NoDup(io) && BackChain(q, io) && p <= |io| && e < |q| && e !in io
    requires Relinked(q, q', io, p, e)
    ensures InRange(q', InsertAt(io, p, e)) && BackChain(q', InsertAt(io, p, e))
  {
    hide InsertAt;
    var m := InsertAt(io, p, e);
    forall i: nat | i < |m| ensures m[i] < |q'| && q'[m[i]].prev == At(m, i - 1) { InsertPrevAt(q, q', io, p, e, i); }
  }

  lemma InsertPrevAt(q: seq<Work>, q': seq<Work>, io: seq<nat>, p: nat, e: nat, i: nat)
    requires InRange(q, io) && NoDup(io) && BackChain(q, io) && p <= |io| && e < |q| && e !in io && i <= |io|
    requires Relinked(q, q', io, p, e)
    ensures var m := InsertAt(io, p, e); m[i] < |q'| && q'[m[i]].prev == At(m, i - 1)
  {
    hide InsertAt, BackChain, NoDup;
    var m := InsertAt(io, p, e);
    if i < p {
      OwnPlace(q, io, i);
      if p < |io| { Apart(io, i, p); }
    } else if i > p {
      OwnPlace(q, io, i - 1);
      if i > p + 1 { Apart(io, p, i - 1); }
    }
  }

  lemma OwnPlace(q: seq<Work>, io: seq<nat>, i: nat)
    requires InRange(q, io) && BackChain(q, io) && i < |io|
    ensures q[io[i]].prev == At(io, i - 1) && io[i] in io
  {
  }

  lemma Apart(io: seq<nat>, i: nat, j: nat)
    requires NoDup(io) && i < j < |io|
    ensures io[i] != io[j]
  {
  }

  // ----- Both lists together -----

  /** The list heads and tails of `struct nvmev_io_worker`. */
  datatype Ends = Ends(freeSeq: nat, freeSeqEnd: nat, ioSeq: nat, ioSeqEnd: nat)

  /** The lists `io` and `free` are linked through `q`, share no entry and hold all but those
      of `out`; the free list is never empty.  An empty `io` leaves its tail index stale. */
  ghost predicate Lists(q: seq<Work>, io: seq<nat>, free: seq<nat>, out: set<nat>, h: Ends)
  {
    && 0 < |q| <= NONE
    && InRange(q, io) && InRange(q, free)
    && Partition(|q|, io, free, out)
    && Chain(q, io) && BackChain(q, io) && Chain(q, free)
    && |free| > 0 && h.freeSeq == free[0] && h.freeSeqEnd == free[|free| - 1]
    && h.ioSeq == At(io, 0) && (io != [] ==> h.ioSeqEnd == io[|io| - 1])
  }

  /** The test for a last free entry is exact, and taking another one leaves the lists linked. */
  lemma TakeFree(q: seq<Work>, io: seq<nat>, free: seq<nat>, h: Ends)
    requires Lists(q, io, free, {}, h)
    ensures h.freeSeq < |q| && (q[h.freeSeq].next >= |q| <==> |free| == 1)
    ensures |free| > 1 ==> Lists(q, io, free[1..], {h.freeSeq}, h.(freeSeq := q[h.freeSeq].next))
  {
    hide BackChain;
    var e := free[0];
    assert q[e].next == At(free, 1);
    if |free| > 1 {
      var rest := free[1..];
      assert free == [e] + rest;
      assert InRange(q, rest) && Chain(q, rest) by {
        forall i | 0 <= i < |rest| ensures rest[i] < |q| && q[rest[i]].next == At(rest, i + 1) {
          assert rest[i] == free[i + 1];
        }
      }
      assert e !in rest;
    }
  }

  /** An entry on neither list can be filled in freely. */
  lemma FillEntry(q: seq<Work>, io: seq<nat>, free: seq<nat>, e: nat, h: Ends, w: Work)
    requires Lists(q, io, free, {e}, h) && e < |q|
    ensures Lists(q[e := w], io, free, {e}, h)
  {
    assert e !in io && e !in free;
  }

  /** Linking the entry that was taken restores the partition. */
  lemma LinkEntry(q: seq<Work>, q': seq<Work>, io: seq<nat>, free: seq<nat>, p: nat, e: nat, h: Ends)
    requires Lists(q, io, free, {e}, h) && p <= |io| && e < |q| && Relinked(q, q', io, p, e)
    ensures Lists(q', InsertAt(io, p, e), free, {},
                  h.(ioSeq := if p == 0 then e else h.ioSeq, ioSeqEnd := if p == |io| then e else h.ioSeqEnd))
  {
    hide InsertAt, Chain, BackChain;
    InsertNext(q, q', io, p, e);
    InsertPrev(q, q', io, p, e);
    InsertAtMembers(io, p, e);
    LinkLeavesFree(q, q', io, free, p, e, h);
    var m := InsertAt(io, p, e);
    assert m[0] == if p == 0 then e else io[0];
    assert m[|m| - 1] == if p == |io| then e else io[|io| - 1];
    assert Partition(|q|, m, free, {}) by { hide NoDup, Relinked; }
  }

  lemma LinkLeavesFree(q: seq<Work>, q': seq<Work>, io: seq<nat>, free: seq<nat>, p: nat, e: nat, h: Ends)
    requires Lists(q, io, free, {e}, h) && p <= |io| && e < |q| && Relinked(q, q', io, p, e)
    ensures InRange(q', free) && Chain(q', free)
  {
    hide BackChain;
    forall i | 0 <= i < |free| ensures free[i] < |q'| && q'[free[i]].next == At(free, i + 1) {
      assert free[i] in free;
      if p > 0 { assert io[p - 1] in io; }
    }
  }

  /** The links that change when the first `k` listed entries move to the end of the free list. */
  ghost predicate Spliced(q: seq<Work>, q': seq<Work>, io: seq<nat>, free: seq<nat>, k: nat)
    requires 0 < k <= |io| && free != []
  {
    && |q'| == |q|
    && (forall x :: 0 <= x < |q| ==>
          && q'[x].next == (if x == io[k - 1] then NONE else if x == free[|free| - 1] then io[0] else q[x].next)
          && (x in io[k..] ==> q'[x].prev == if x == io[k] then NONE else q[x].prev)
          && q'[x].(next := q[x].next, prev := q[x].prev) == q[x])
  }

  lemma SpliceKeepsLists(q: seq<Work>, q': seq<Work>, io: seq<nat>, free: seq<nat>, k: nat, h: Ends)
    requires Lists(q, io, free, {}, h) && 0 < k <= |io| && Spliced(q, q', io, free, k)
    ensures Lists(q', io[k..], free + io[..k], {}, h.(ioSeq := At(io, k), freeSeqEnd := io[k - 1]))
  {
    SpliceParts(q, io, free, k, h);
    SpliceIo(q, q', io, free, k, h);
    SpliceFree(q, q', io, free, k, h);
  }

  lemma SpliceParts(q: seq<Work>, io: seq<nat>, free: seq<nat>, k: nat, h: Ends)
    requires Lists(q, io, free, {}, h) && k <= |io|
    ensures Partition(|q|, io[k..], free + io[..k], {})
  {
    hide Chain, BackChain;
    var rest, gone := io[k..], io[..k];
    assert io == gone + rest;
    forall e | e in rest ensures e !in gone {
      var j :| 0 <= j < |rest| && rest[j] == e;
      assert e == io[k + j];
    }
    var m := free + gone;
    forall i, j | 0 <= i < j < |m| ensures m[i] != m[j] {
      if i < |free| <= j { assert m[i] in free && m[j] in gone && m[j] in io; }
    }
  }

  lemma SpliceIo(q: seq<Work>, q': seq<Work>, io: seq<nat>, free: seq<nat>, k: nat, h: Ends)
    requires Lists(q, io, free, {}, h) && 0 < k <= |io| && Spliced(q, q', io, free, k)
    ensures InRange(q', io[k..]) && Chain(q', io[k..]) && BackChain(q', io[k..])
  {
    var rest := io[k..];
    forall i | 0 <= i < |rest|
      ensures rest[i] < |q'| && q'[rest[i]].next == At(rest, i + 1) && q'[rest[i]].prev == At(rest, i - 1)
    {
      assert rest[i] == io[k + i] && rest[i] in rest;
      assert io[k - 1] != io[k + i];
      assert io[k + i] in io && free[|free| - 1] in free;
      assert q[io[k + i]].next == At(io, k + i + 1);
      assert q[io[k + i]].prev == At(io, k + i - 1);
    }
  }

  lemma SpliceFree(q: seq<Work>, q': seq<Work>, io: seq<nat>, free: seq<nat>, k: nat, h: Ends)
    requires Lists(q, io, free, {}, h) && 0 < k <= |io| && Spliced(q, q', io, free, k)
    ensures InRange(q', free + io[..k]) && Chain(q', free + io[..k])
  {
    hide Lists, Spliced;
    var m := free + io[..k];
    forall i: nat | i < |m| ensures m[i] < |q'| && q'[m[i]].next == At(m, i + 1) {
      if i < |free| {
        SplicedFreeNext(q, q', io, free, k, h, i);
      } else {
        SplicedIoNext(q, q', io, free, k, h, i - |free|);
      }
    }
  }

  /** An entry that was free leads on as before, and the last of them to the first one moved. */
  lemma SplicedFreeNext(q: seq<Work>, q': seq<Work>, io: seq<nat>, free: seq<nat>, k: nat, h: Ends, i: nat)
    requires Lists(q, io, free, {}, h) && 0 < k <= |io| && Spliced(q, q', io, free, k) && i < |free|
    ensures free[i] < |q'| && q'[free[i]].next == At(free + io[..k], i + 1)
  {
    hide Chain, BackChain, NoDup;
    OwnNext(q, free, i);
    assert io[k - 1] in io;
    if i < |free| - 1 { Apart(free, i, |free| - 1); }
  }

  /** A moved entry leads on as before, and the last of them ends the list. */
  lemma SplicedIoNext(q: seq<Work>, q': seq<Work>, io: seq<nat>, free: seq<nat>, k: nat, h: Ends, i: nat)
    requires Lists(q, io, free, {}, h) && i < k <= |io| && Spliced(q, q', io, free, k)
    ensures io[i] < |q'| && q'[io[i]].next == At(free + io[..k], |free| + i + 1)
  {
    hide Chain, BackChain, NoDup;
    OwnNext(q, io, i);
    assert free[|free| - 1] in free;
    if i < k - 1 { Apart(io, i, k - 1); }
  }

  /** The initial chain: every entry is free, in the order of the array. */
  function Upto(n: nat): (l: seq<nat>)
    ensures |l| == n && forall i :: 0 <= i < n ==> l[i] == i
  {
    seq(n, (i: nat) => i)
  }

  lemma FreshLists(q: seq<Work>, h: Ends)
    requires 0 < |q| <= NONE && h == Ends(0, |q| - 1, NONE, NONE)
    requires forall i :: 0 <= i < |q| ==> q[i].next == if i + 1 < |q| then i + 1 else NONE
    ensures Lists(q, [], Upto(|q|), {}, h)
  {
    var l := Upto(|q|);
    forall e: nat | e < |q| ensures e in l { assert l[e] == e; }
  }

  // ----- The life of a request -----

  /** What has happened to an accepted request so far. */
  datatype Request = Request(target: nat, isInternal: bool, copied: bool, doneAt: Option<nat>, recycled: bool)

  /** The entry holds the state of the request. */
  ghost predicate Mirrors(w: Work, r: Request) {
    w.target == r.target && w.isInternal == r.isInternal && w.isCopied == r.copied && w.isCompleted == r.doneAt.Some?
  }

  /** The listed entries hold the requests not yet recycled, one each: `owner` leads from the
      entry to the request and `slot` back. */
  ghost predicate Known(q: seq<Work>, io: seq<nat>, owner: seq<nat>, slot: seq<nat>, log: seq<Request>)
  {
    && |owner| == |q| && |slot| == |log|
    && (forall e :: e in io ==> e < |q| && owner[e] < |log|)
    && (forall e :: e in io ==> slot[owner[e]] == e && !log[owner[e]].recycled && Mirrors(q[e], log[owner[e]]))
    && (forall id :: 0 <= id < |log| && !log[id].recycled ==> slot[id] in io && owner[slot[id]] == id)
  }

  /** Completed only after the copy and not before the target; recycled only after completion. */
  ghost predicate Proper(r: Request, latest: nat)
  {
    && (r.doneAt.Some? ==> r.copied && r.target <= r.doneAt.value <= latest)
    && (r.recycled ==> r.doneAt.Some?)
  }

  ghost predicate AllProper(log: seq<Request>, latest: nat)
  {
    forall id :: 0 <= id < |log| ==> Proper(log[id], latest)
  }

  /** The completions posted so far: one for each completed request. */
  ghost predicate Posted(completions: seq<nat>, log: seq<Request>)
  {
    NoDup(completions) && forall id: nat :: id in completions <==> id < |log| && log[id].doneAt.Some?
  }

  /** The worker stands on a listed entry, on one recycled under it, or at the end. */
  ghost predicate On(q: seq<Work>, io: seq<nat>, free: seq<nat>, curr: nat)
  {
    curr == NONE || curr in io || (curr in free && curr < |q| && q[curr].isCompleted)
  }

  /** Following `next` from there stays there, even off a recycled entry. */
  lemma AdvanceStaysOn(q: seq<Work>, io: seq<nat>, free: seq<nat>, h: Ends, curr: nat)
    requires Lists(q, io, free, {}, h) && RecycledLast(q, free) && On(q, io, free, curr) && curr != NONE
    ensures curr < |q| && On(q, io, free, q[curr].next)
  {
    hide BackChain, NoDup;
    if curr in io {
      var i :| 0 <= i < |io| && io[i] == curr;
      assert q[curr].next == At(io, i + 1);
    } else {
      var i :| 0 <= i < |free| && free[i] == curr;
      assert q[curr].next == At(free, i + 1);
    }
  }

  /** A new request becomes known when its entry is linked. */
  lemma EnqueueIsKnown(q: seq<Work>, q': seq<Work>, io: seq<nat>, io': seq<nat>, owner: seq<nat>, slot: seq<nat>,
                       log: seq<Request>, e: nat, r: Request)
    requires Known(q, io, owner, slot, log) && |q'| == |q| && e < |q| && e !in io
    requires forall x :: x in io' <==> x == e || x in io
    requires forall x :: x in io ==> x < |q| && SameRequest(q[x], q'[x])
    requires Mirrors(q'[e], r) && !r.recycled
    ensures Known(q', io', owner[e := |log|], slot + [e], log + [r])
  {
  }

  /** Only the links differ. */
  ghost predicate SameRequest(w: Work, w': Work) {
    w'.(next := w.next, prev := w.prev) == w
  }

  /** What one visit of the worker makes of a request that is not completed. */
  function Visited(r: Request, now: nat): Request {
    r.(copied := true, doneAt := if r.target <= now then Some(now) else r.doneAt)
  }

  lemma VisitIsKnown(q: seq<Work>, io: seq<nat>, owner: seq<nat>, slot: seq<nat>, log: seq<Request>, e: nat, w: Work,
                     now: nat)
    requires Known(q, io, owner, slot, log) && e in io && !q[e].isCompleted
    requires w == q[e].(isCopied := true, isCompleted := q[e].target <= now)
    ensures Known(q[e := w], io, owner, slot, log[owner[e] := Visited(log[owner[e]], now)])
  {
  }

  /** The requests of the reclaimed entries. */
  function Recycle(log: seq<Request>, slot: seq<nat>, gone: seq<nat>): (l: seq<Request>)
    requires |slot| == |log|
    ensures |l| == |log|
    ensures forall id :: 0 <= id < |log| ==> l[id] == log[id].(recycled := log[id].recycled || slot[id] in gone)
  {
    seq(|log|, (id: nat) requires id < |log| => log[id].(recycled := log[id].recycled || slot[id] in gone))
  }

  lemma ReclaimIsKnown(q: seq<Work>, q': seq<Work>, io: seq<nat>, k: nat, owner: seq<nat>, slot: seq<nat>,
                       log: seq<Request>)
    requires Known(q, io, owner, slot, log) && k <= |io| && NoDup(io) && |q'| == |q|
    requires forall x :: x in io ==> x < |q| && SameRequest(q[x], q'[x])
    ensures Known(q', io[k..], owner, slot, Recycle(log, slot, io[..k]))
  {
    var gone, rest := io[..k], io[k..];
    assert io == gone + rest;
    forall e | e in rest ensures e !in gone && e in io {
      var j :| 0 <= j < |rest| && rest[j] == e;
      assert e == io[k + j];
    }
  }

  /** A request never goes back: its target stays, and so do its copy, its completion with the
      time of it, and its recycling. */
  ghost predicate Progress(log: seq<Request>, log': seq<Request>)
  {
    && |log| <= |log'|
    && (forall id :: 0 <= id < |log| ==>
          && log'[id].target == log[id].target && log'[id].isInternal == log[id].isInternal
          && (log[id].copied ==> log'[id].copied)
          && (log[id].doneAt.Some? ==> log'[id].doneAt == log[id].doneAt)
          && (log[id].recycled ==> log'[id].recycled))
  }

  /** From position `p` on everything is due later than now and later than `target`. */
  ghost predicate DueLater(q: seq<Work>, io: seq<nat>, latest: nat, target: nat, p: nat)
    requires InRange(q, io)
  {
    forall i :: p <= i < |io| ==> q[io[i]].target > latest && q[io[i]].target > target
  }

  /** And what stands before `p` is not. */
  ghost predicate BelongsAt(q: seq<Work>, io: seq<nat>, latest: nat, target: nat, p: nat)
    requires InRange(q, io) && p <= |io|
  {
    && DueLater(q, io, latest, target, p)
    && (p > 0 ==> q[io[p - 1]].target <= latest || q[io[p - 1]].target <= target)
  }

  /** Of requests due at the same time the one that came first stands first. */
  lemma EqualTargetsInTurn(q: seq<Work>, io: seq<nat>, latest: nat, target: nat, p: nat, i: nat)
    requires InRange(q, io) && p <= |io| && BelongsAt(q, io, latest, target, p) && i < |io| && q[io[i]].target == target
    ensures i < p
  {
  }

  lemma AtIsEntry(q: seq<Work>, io: seq<nat>, i: int)
    requires InRange(q, io) && |q| <= NONE && BackChain(q, io) && -1 <= i < |io|
    ensures At(io, i) == NONE <==> i == -1
    ensures i >= 0 ==> At(io, i) == io[i] < |q| && q[io[i]].prev == At(io, i - 1)
  {
  }

  lemma IsRelinked(q: seq<Work>, q': seq<Work>, io: seq<nat>, p: nat, e: nat)
    requires p <= |io| && e < |q| == |q'| && (p > 0 ==> io[p - 1] < |q| && io[p - 1] != e)
    requires (p < |io| ==> io[p] < |q| && io[p] != e) && (0 < p < |io| ==> io[p - 1] != io[p])
    requires q'[e] == q[e].(next := At(io, p), prev := At(io, p - 1))
    requires p > 0 ==> q'[io[p - 1]] == q[io[p - 1]].(next := e)
    requires p < |io| ==> q'[io[p]] == q[io[p]].(prev := e)
    requires forall x :: 0 <= x < |q| && x != e && (p > 0 ==> x != io[p - 1]) && (p < |io| ==> x != io[p]) ==> q'[x] == q[x]
    ensures Relinked(q, q', io, p, e)
  {
    forall x | 0 <= x < |q|
      ensures q'[x].next == (if x == e then At(io, p) else if p > 0 && x == io[p - 1] then e else q[x].next)
      ensures q'[x].prev == (if x == e then At(io, p - 1) else if p < |io| && x == io[p] then e else q[x].prev)
      ensures q'[x].(next := q[x].next, prev := q[x].prev) == q[x]
    {
      hide At;
    }
  }

  lemma FillKeepsOrder(q: seq<Work>, io: seq<nat>, free: seq<nat>, e: nat, h: Ends, latest: nat, w: Work)
    requires Lists(q, io, free, {e}, h) && e < |q| && Sorted(q, io, latest) && RecycledLast(q, free)
    ensures InRange(q[e := w], io) && Sorted(q[e := w], io, latest)
    ensures InRange(q[e := w], free) && RecycledLast(q[e := w], free)
    ensures InRange(q, io)
    ensures forall t, p :: 0 <= p <= |io| && BelongsAt(q[e := w], io, latest, t, p) ==> BelongsAt(q, io, latest, t, p)
  {
    hide Chain, BackChain;
    forall i | 0 <= i < |io| ensures io[i] != e { assert io[i] in io; }
    forall i | 0 <= i < |free| ensures free[i] != e { assert free[i] in free; }
  }

  /** Accepting a request: it is known from now on, and the worker keeps its place. */
  lemma EnqueueKeepsLife(q: seq<Work>, q1: seq<Work>, q': seq<Work>, io: seq<nat>, free: seq<nat>, io': seq<nat>,
                         owner: seq<nat>, slot: seq<nat>, log: seq<Request>, completions: seq<nat>, e: nat, p: nat,
                         r: Request, latest: nat, curr: nat, h: Ends)
    requires Lists(q, io, free, {}, h) && |free| > 1 && e == free[0] && Known(q, io, owner, slot, log)
    requires AllProper(log, latest) && Posted(completions, log) && On(q, io, free, curr)
    requires e < |q| == |q1| && q1 == q[e := Work(r.target, false, r.copied, r.isInternal, NONE, NONE)]
    requires p <= |io| && io' == InsertAt(io, p, e) && Relinked(q1, q', io, p, e)
    requires r.doneAt == None && !r.recycled
    ensures |owner| == |q| && Known(q', io', owner[e := |log|], slot + [e], log + [r])
    ensures AllProper(log + [r], latest) && Posted(completions, log + [r]) && On(q', io', free[1..], curr)
  {
    hide InsertAt, Chain, BackChain, NoDup;
    InsertAtMembers(io, p, e);
    assert e in free;
    forall x | x in io ensures x < |q| && SameRequest(q[x], q'[x]) { assert x != e; }
    EnqueueIsKnown(q, q', io, io', owner, slot, log, e, r);
    assert free == [e] + free[1..];
    forall id | 0 <= id < |log + [r]| ensures Proper((log + [r])[id], latest) {}
    assert curr in free && curr != e ==> curr in free[1..];
  }

  ghost predicate AllCompleted(q: seq<Work>, io: seq<nat>, k: nat)
    requires InRange(q, io) && k <= |io|
  {
    forall i :: 0 <= i < k ==> q[io[i]].isCompleted
  }

  /** For a listed entry the three tests before reclaiming come down to the first. */
  lemma ListedEntry(q: seq<Work>, io: seq<nat>, free: seq<nat>, owner: seq<nat>, slot: seq<nat>, log: seq<Request>,
                    latest: nat, h: Ends, i: nat)
    requires Lists(q, io, free, {}, h) && Known(q, io, owner, slot, log) && AllProper(log, latest) && i <= |io|
    ensures i == |io| <==> At(io, i) == NONE
    ensures h.ioSeq == At(io, 0) && |q| <= NONE && InRange(q, io)
    ensures i < |io| ==> At(io, i) == io[i] < |q| && q[io[i]].next == At(io, i + 1)
    ensures i < |io| && q[io[i]].isCompleted ==> q[io[i]].isCopied && q[io[i]].target <= latest
  {
    hide BackChain, Partition;
    if i < |io| {
      assert io[i] in io;
      assert Proper(log[owner[io[i]]], latest);
    }
  }

  lemma ListRange(q: seq<Work>, io: seq<nat>, free: seq<nat>, h: Ends)
    requires Lists(q, io, free, {}, h)
    ensures InRange(q, io) && forall i :: 0 <= i < |io| ==> io[i] < |q|
  {
    hide Chain, BackChain, Partition;
  }

  lemma SpliceEnds(q: seq<Work>, io: seq<nat>, free: seq<nat>, h: Ends, k: nat)
    requires Lists(q, io, free, {}, h) && 0 < k <= |io|
    ensures free != [] && h.freeSeqEnd == free[|free| - 1] < |q| && h.freeSeqEnd !in io
    ensures io[0] < |q| && io[k - 1] < |q| && q[io[k - 1]].next == At(io, k) && io[0] !in io[k..]
    ensures io[k - 1] !in io[k..]
    ensures k < |io| ==> At(io, k) == io[k] < |q| && At(io, k) != NONE
    ensures k == |io| ==> At(io, k) == NONE
  {
    hide BackChain;
    assert free[|free| - 1] in free;
    forall j | 0 <= j < |io[k..]| ensures io[0] != io[k..][j] && io[k - 1] != io[k..][j] {
      assert io[k..][j] == io[k + j];
    }
  }

  lemma IsSpliced(q: seq<Work>, q1: seq<Work>, q': seq<Work>, io: seq<nat>, free: seq<nat>, k: nat)
    requires 0 < k <= |io| && free != [] && |q1| == |q| == |q'|
    requires io[0] !in io[k..] && io[k - 1] !in io[k..]
    requires k < |io| ==> io[k] < |q| && q1 == q[io[k] := q[io[k]].(prev := NONE)]
    requires k == |io| ==> q1 == q
    requires free[|free| - 1] !in io && free[|free| - 1] < |q| && io[0] < |q| && io[k - 1] < |q|
    requires forall x :: 0 <= x < |q| ==>
               q'[x] == q1[x].(next := if x == io[k - 1] then NONE else if x == free[|free| - 1] then io[0] else q1[x].next,
                               prev := if x == io[0] then free[|free| - 1] else q1[x].prev)
    ensures Spliced(q, q', io, free, k)
  {
    forall x | 0 <= x < |q| && x in io[k..] ensures q'[x].prev == if x == io[k] then NONE else q[x].prev {}
  }

  lemma SpliceKeepsOrder(q: seq<Work>, q': seq<Work>, io: seq<nat>, free: seq<nat>, k: nat, latest: nat)
    requires InRange(q, io) && InRange(q, free) && k <= |io| && |q'| == |q|
    requires Sorted(q, io, latest) && RecycledLast(q, free) && AllCompleted(q, io, k)
    requires forall x :: 0 <= x < |q| ==> SameRequest(q[x], q'[x])
    ensures InRange(q', io[k..]) && Sorted(q', io[k..], latest)
    ensures InRange(q', free + io[..k]) && RecycledLast(q', free + io[..k])
  {
    var rest, all := io[k..], free + io[..k];
    forall i | 0 <= i < |rest| ensures rest[i] < |q| && q'[rest[i]].target == q[io[k + i]].target {}
    forall i | 0 <= i < |all|
      ensures all[i] < |q| && q'[all[i]].isCompleted == q[if i < |free| then free[i] else io[i - |free|]].isCompleted
    {}
  }

  lemma RecycleIsProper(q: seq<Work>, io: seq<nat>, k: nat, owner: seq<nat>, slot: seq<nat>, log: seq<Request>,
                        completions: seq<nat>, latest: nat)
    requires Known(q, io, owner, slot, log) && k <= |io| && InRange(q, io) && AllCompleted(q, io, k)
    requires AllProper(log, latest) && Posted(completions, log)
    ensures AllProper(Recycle(log, slot, io[..k]), latest) && Posted(completions, Recycle(log, slot, io[..k]))
  {
    hide Recycle;
    var log' := Recycle(log, slot, io[..k]);
    forall id | 0 <= id < |log| ensures Proper(log'[id], latest) {
      assert Proper(log[id], latest);
      if slot[id] in io[..k] && !log[id].recycled {
        var i :| 0 <= i < k && io[i] == slot[id];
      }
    }
  }

  /** What `Reclaim` does to entries and list ends when the first `k` are finished. */
  ghost predicate Reclaimed(q: seq<Work>, q': seq<Work>, io: seq<nat>, free: seq<nat>, k: nat, h: Ends, h': Ends)
  {
    && k <= |io|
    && (k == 0 ==> q' == q && h' == h)
    && (k > 0 ==> free != [] && Spliced(q, q', io, free, k) && h' == h.(ioSeq := At(io, k), freeSeqEnd := io[k - 1]))
  }

  lemma ReclaimKeepsLists(q: seq<Work>, q': seq<Work>, io: seq<nat>, free: seq<nat>, k: nat, h: Ends, h': Ends)
    requires Lists(q, io, free, {}, h) && Reclaimed(q, q', io, free, k, h, h')
    ensures Lists(q', io[k..], free + io[..k], {}, h')
    ensures InRange(q, io) && InRange(q, free) && |q'| == |q| && NoDup(io)
    ensures forall x :: 0 <= x < |q| ==> SameRequest(q[x], q'[x])
    ensures forall e :: e in io ==> e < |q|
  {
    hide Chain, BackChain, NoDup;
    if k > 0 {
      SpliceKeepsLists(q, q', io, free, k, h);
    } else {
      assert io[k..] == io && free + io[..k] == free;
    }
    forall e | e in io ensures e < |q| { InTable(q, io, e); }
  }

  lemma ReclaimKeepsLife(q: seq<Work>, q': seq<Work>, io: seq<nat>, free: seq<nat>, owner: seq<nat>, slot: seq<nat>,
                         log: seq<Request>, completions: seq<nat>, k: nat, latest: nat, curr: nat, h: Ends, h': Ends)
    requires Lists(q, io, free, {}, h) && Sorted(q, io, latest) && RecycledLast(q, free)
    requires Known(q, io, owner, slot, log) && AllProper(log, latest) && Posted(completions, log)
    requires On(q, io, free, curr)
    requires Reclaimed(q, q', io, free, k, h, h') && AllCompleted(q, io, k)
    ensures Lists(q', io[k..], free + io[..k], {}, h')
    ensures Sorted(q', io[k..], latest) && RecycledLast(q', free + io[..k])
    ensures |slot| == |log| && Known(q', io[k..], owner, slot, Recycle(log, slot, io[..k]))
    ensures AllProper(Recycle(log, slot, io[..k]), latest) && Posted(completions, Recycle(log, slot, io[..k]))
    ensures On(q', io[k..], free + io[..k], curr)
    ensures k < |io| ==> q'[io[k]].isCompleted == q[io[k]].isCompleted
  {
    hide Lists, Chain, BackChain, Recycle, Sorted, RecycledLast, AllProper, Posted, AllCompleted, NoDup, Spliced, On;
    ReclaimKeepsLists(q, q', io, free, k, h, h');
    SpliceKeepsOrder(q, q', io, free, k, latest);
    ReclaimIsKnown(q, q', io, k, owner, slot, log);
    RecycleIsProper(q, io, k, owner, slot, log, completions, latest);
    ReclaimStaysOn(q, q', io, free, k, curr);
  }

  lemma ReclaimStaysOn(q: seq<Work>, q': seq<Work>, io: seq<nat>, free: seq<nat>, k: nat, curr: nat)
    requires InRange(q, io) && k <= |io| && AllCompleted(q, io, k) && On(q, io, free, curr) && |q'| == |q|
    requires forall x :: 0 <= x < |q| ==> SameRequest(q[x], q'[x])
    ensures On(q', io[k..], free + io[..k], curr)
  {
    assert io == io[..k] + io[k..];
    if curr in io && curr !in io[k..] {
      var i :| 0 <= i < k && io[i] == curr;
      assert curr in io[..k];
    }
  }

  lemma InTable(q: seq<Work>, l: seq<nat>, e: nat)
    requires InRange(q, l) && e in l
    ensures e < |q|
  {
  }

  lemma FreshLife(q: seq<Work>, owner: seq<nat>, free: seq<nat>)
    requires |owner| == |q| && InRange(q, free) && forall i :: 0 <= i < |q| ==> !q[i].isCompleted
    ensures Sorted(q, [], 0) && RecycledLast(q, free)
    ensures Known(q, [], owner, [], []) && AllProper([], 0) && Posted([], []) && On(q, [], free, NONE)
  {
  }

  lemma Standing(q: seq<Work>, io: seq<nat>, free: seq<nat>, owner: seq<nat>, slot: seq<nat>, log: seq<Request>,
                 h: Ends, e: nat)
    requires Lists(q, io, free, {}, h) && Known(q, io, owner, slot, log) && On(q, io, free, e) && e != NONE
    ensures InRange(q, io) && e < |q| && (!q[e].isCompleted ==> e in io)
    ensures e in io ==> |owner| == |q| && owner[e] < |log| && Mirrors(q[e], log[owner[e]])
  {
    hide Chain, BackChain, Partition;
  }

  lemma LaterKeepsAll(q: seq<Work>, io: seq<nat>, log: seq<Request>, latest: nat, now: nat)
    requires InRange(q, io) && Sorted(q, io, latest) && AllProper(log, latest) && latest <= now
    ensures Sorted(q, io, now) && AllProper(log, now)
  {
    LaterStaysSorted(q, io, latest, now);
    forall id | 0 <= id < |log| ensures Proper(log[id], now) { assert Proper(log[id], latest); }
  }

  lemma FlagsKeepLists(q: seq<Work>, io: seq<nat>, free: seq<nat>, h: Ends, latest: nat, e: nat, w: Work)
    requires Lists(q, io, free, {}, h) && Sorted(q, io, latest) && RecycledLast(q, free) && e in io && e < |q|
    requires w == q[e].(isCopied := w.isCopied, isCompleted := w.isCompleted)
    ensures Lists(q[e := w], io, free, {}, h) && Sorted(q[e := w], io, latest) && RecycledLast(q[e := w], free)
  {
    var q' := q[e := w];
    forall x | 0 <= x < |q|
      ensures q'[x].next == q[x].next && q'[x].prev == q[x].prev && q'[x].target == q[x].target {}
    forall i | 0 <= i < |free| ensures free[i] < |q| && q'[free[i]] == q[free[i]] { assert free[i] in free; }
  }

  lemma VisitPosts(log: seq<Request>, completions: seq<nat>, id: nat, now: nat, latest: nat)
    requires id < |log| && log[id].doneAt == None && !log[id].recycled
    requires AllProper(log, now) && Posted(completions, log)
    ensures AllProper(log[id := Visited(log[id], now)], now)
    ensures Posted(if log[id].target <= now then completions + [id] else completions, log[id := Visited(log[id], now)])
  {
    var log' := log[id := Visited(log[id], now)];
    forall x | 0 <= x < |log'| ensures Proper(log'[x], now) { assert Proper(log[x], now); }
    assert id !in completions;
  }

  lemma VisitKeepsAll(q: seq<Work>, io: seq<nat>, free: seq<nat>, owner: seq<nat>, slot: seq<nat>, log: seq<Request>,
                      completions: seq<nat>, h: Ends, e: nat, now: nat)
    requires Lists(q, io, free, {}, h) && Sorted(q, io, now) && RecycledLast(q, free)
    requires Known(q, io, owner, slot, log) && AllProper(log, now) && Posted(completions, log)
    requires e in io && e < |q| && !q[e].isCompleted
    ensures var q' := q[e := q[e].(isCopied := true, isCompleted := q[e].target <= now)];
            && Lists(q', io, free, {}, h) && Sorted(q', io, now) && RecycledLast(q', free) && On(q', io, free, e)
            && |owner| == |q| && owner[e] < |log| && log[owner[e]].target == q[e].target
            && Known(q', io, owner, slot, log[owner[e] := Visited(log[owner[e]], now)])
    ensures |owner| == |q| && owner[e] < |log| && AllProper(log[owner[e] := Visited(log[owner[e]], now)], now)
    ensures Posted(if q[e].target <= now then completions + [owner[e]] else completions,
                   log[owner[e] := Visited(log[owner[e]], now)])
  {
    hide Lists, Sorted, RecycledLast, AllProper, Posted;
    var w := q[e].(isCopied := true, isCompleted := q[e].target <= now);
    FlagsKeepLists(q, io, free, h, now, e, w);
    VisitIsKnown(q, io, owner, slot, log, e, w, now);
    VisitPosts(log, completions, owner[e], now, now);
  }

  // ----- Runs of the worker -----

  lemma ProgressIsReflexive(log: seq<Request>)
    ensures Progress(log, log)
  {
  }

  /** A step of the dispatcher or of the worker.  At the end of the list a visit starts the next
      pass. */
  datatype Event = Submit(target: nat, isInternal: bool) | ReclaimCompleted | WorkerVisit(elapsed: nat) | WorkerAdvance

  /** What came of it. */
  datatype Outcome = Accepted | Dropped | Recycled(nr: nat) | Started | Looked(completed: bool) | Advanced | Idle

  /** The state of a worker with its queue. */
  datatype Snapshot = Snapshot(
    q: seq<Work>, io: seq<nat>, free: seq<nat>, owner: seq<nat>, slot: seq<nat>, log: seq<Request>,
    completions: seq<nat>, latest: nat, curr: nat, h: Ends)

  /** The invariant of a worker, as a value. */
  ghost predicate Intact(s: Snapshot)
  {
    && Lists(s.q, s.io, s.free, {}, s.h) && Sorted(s.q, s.io, s.latest) && RecycledLast(s.q, s.free)
    && Known(s.q, s.io, s.owner, s.slot, s.log) && AllProper(s.log, s.latest) && Posted(s.completions, s.log)
    && On(s.q, s.io, s.free, s.curr)
  }

  /** One step, exactly. */
  ghost predicate Happens(s: Snapshot, e: Event, o: Outcome, s': Snapshot)
    requires Intact(s) && Intact(s')
  {
    match e
    case Submit(target, isInternal) =>
      if |s.free| > 1 then
        && o == Accepted && Listed(s, target, s'.io)
        && s'.free == s.free[1..] && s'.slot == s.slot + [s.free[0]]
        && s'.log == s.log + [Request(target, isInternal, isInternal, None, false)]
        && s'.completions == s.completions && s'.latest == s.latest && s'.curr == s.curr
      else o == Dropped && s' == s
    case ReclaimCompleted =>
      && o.Recycled? && o.nr <= |s.io| && AllCompleted(s.q, s.io, o.nr)
      && (o.nr < |s.io| ==> !s.q[s.io[o.nr]].isCompleted)
      && s'.io == s.io[o.nr..] && s'.free == s.free + s.io[..o.nr] && s'.slot == s.slot
      && s'.log == Recycle(s.log, s.slot, s.io[..o.nr])
      && s'.completions == s.completions && s'.latest == s.latest && s'.curr == s.curr
    case WorkerVisit(elapsed) =>
      if s.curr == NONE then o == Started && s' == s.(curr := At(s.io, 0))
      else o.Looked? && SeenBy(s, s.latest + elapsed, o.completed, s')
    case WorkerAdvance =>
      if s.curr == NONE then o == Idle && s' == s
      else o == Advanced && s.curr < |s.q| && s' == s.(curr := s.q[s.curr].next)
  }

  /** The first free entry goes in behind all that is due already or not later. */
  ghost predicate Listed(s: Snapshot, target: nat, io': seq<nat>)
    requires Intact(s)
  {
    exists p :: 0 <= p <= |s.io| && BelongsAt(s.q, s.io, s.latest, target, p) && io' == InsertAt(s.io, p, s.free[0])
  }

  /** The worker has looked at its entry at time `now`. */
  ghost predicate SeenBy(s: Snapshot, now: nat, completed: bool, s': Snapshot)
    requires Intact(s) && s.curr != NONE
  {
    && s'.io == s.io && s'.free == s.free && s'.owner == s.owner && s'.slot == s.slot && s'.h == s.h
    && s'.curr == s.curr && s'.latest == now && s.curr < |s.q|
    && if s.q[s.curr].isCompleted then !completed && s'.log == s.log && s'.completions == s.completions
       else
         && s.curr in s.io
         && var id := s.owner[s.curr];
            && s'.log == s.log[id := Visited(s.log[id], now)] && (completed <==> s.log[id].target <= now)
            && s'.completions == if completed then s.completions + [id] else s.completions
  }

  /** What a request was when it came in. */
  function Labels(log: seq<Request>): (l: seq<(nat, bool)>)
    ensures |l| == |log| && forall i :: 0 <= i < |log| ==> l[i] == (log[i].target, log[i].isInternal)
  {
    seq(|log|, i requires 0 <= i < |log| => (log[i].target, log[i].isInternal))
  }

  /** The requests accepted, in the order of the events. */
  function Submitted(events: seq<Event>, outcomes: seq<Outcome>): seq<(nat, bool)>
    requires |events| == |outcomes|
  {
    if events == [] then []
    else
      var n := |events| - 1;
      var before := Submitted(events[..n], outcomes[..n]);
      if events[n].Submit? && outcomes[n] == Accepted then before + [(events[n].target, events[n].isInternal)] else before
  }

  /** The time that went by at the visits that took place. */
  function Elapsed(events: seq<Event>, outcomes: seq<Outcome>): nat
    requires |events| == |outcomes|
  {
    if events == [] then 0
    else
      var n := |events| - 1;
      Elapsed(events[..n], outcomes[..n]) + if events[n].WorkerVisit? && outcomes[n].Looked? then events[n].elapsed else 0
  }

  lemma OneMoreEvent(events: seq<Event>, outcomes: seq<Outcome>, i: nat, o: Outcome)
    requires i < |events| && |outcomes| == i
    ensures Submitted(events[..i + 1], outcomes + [o])
            == Submitted(events[..i], outcomes)
               + (if events[i].Submit? && o == Accepted then [(events[i].target, events[i].isInternal)] else [])
    ensures Elapsed(events[..i + 1], outcomes + [o])
            == Elapsed(events[..i], outcomes) + (if events[i].WorkerVisit? && o.Looked? then events[i].elapsed else 0)
  {
    assert events[..i + 1][..i] == events[..i] && (outcomes + [o])[..i] == outcomes;
  }

  /** What a step does to the log, the clock and the completions. */
  lemma StepInWords(s: Snapshot, e: Event, o: Outcome, s': Snapshot)
    requires Intact(s) && Intact(s') && Happens(s, e, o, s')
    ensures Progress(s.log, s'.log) && s.completions <= s'.completions
    ensures Labels(s'.log) == Labels(s.log) + (if e.Submit? && o == Accepted then [(e.target, e.isInternal)] else [])
    ensures s'.latest == s.latest + (if e.WorkerVisit? && o.Looked? then e.elapsed else 0)
  {
    hide Lists, Sorted, RecycledLast, On, AllProper, Posted, AllCompleted, Listed, At;
    if e.WorkerVisit? && s.curr != NONE && !s.q[s.curr].isCompleted {
      assert Mirrors(s.q[s.curr], s.log[s.owner[s.curr]]);
    }
  }

  /** A request changes by a visit, which copies it and completes it at the time of the visit if it is
      due, or by being recycled. */
  lemma RequestChanges(s: Snapshot, e: Event, o: Outcome, s': Snapshot, id: nat)
    requires Intact(s) && Intact(s') && Happens(s, e, o, s') && id < |s.log|
    ensures id < |s'.log|
    ensures s'.log[id] != s.log[id] ==>
              var r, due := s.log[id], s.log[id].target <= s'.latest;
              || (e.ReclaimCompleted? && s'.log[id] == r.(recycled := true))
              || (e.WorkerVisit? && s'.log[id] == r.(copied := true, doneAt := if due then Some(s'.latest) else None))
  {
    hide Lists, Sorted, RecycledLast, On, AllProper, Posted, AllCompleted, Listed, At;
    if e.WorkerVisit? && s.curr != NONE && !s.q[s.curr].isCompleted {
      assert Mirrors(s.q[s.curr], s.log[s.owner[s.curr]]);
    }
  }

  lemma ProgressIsTransitive(a: seq<Request>, b: seq<Request>, c: seq<Request>)
    requires Progress(a, b) && Progress(b, c)
    ensures Progress(a, c)
  {
    forall id | 0 <= id < |a|
      ensures c[id].target == a[id].target && c[id].isInternal == a[id].isInternal
      ensures a[id].copied ==> c[id].copied
      ensures a[id].doneAt.Some? ==> c[id].doneAt == a[id].doneAt
      ensures a[id].recycled ==> c[id].recycled
    {
      assert b[id].target == a[id].target;
    }
  }

  lemma RecycleIsProgress(log: seq<Request>, slot: seq<nat>, gone: seq<nat>)
    requires |slot| == |log|
    ensures Progress(log, Recycle(log, slot, gone))
  {
  }

  /** The clock of one pass does not go back. */
  ghost predicate Clock(readings: seq<nat>, latest: nat)
  {
    && readings != [] && latest <= readings[0]
    && forall i, j :: 0 <= i <= j < |readings| ==> readings[i] <= readings[j]
  }

  /** The first `n` listed requests are copied, and completed as far as they were due at `t`. */
  ghost predicate Served(log: seq<Request>, owner: seq<nat>, io: seq<nat>, n: nat, t: nat)
  {
    && n <= |io|
    && forall i :: 0 <= i < n ==>
         io[i] < |owner| && owner[io[i]] < |log|
         && log[owner[io[i]]].copied && (log[owner[io[i]]].target <= t ==> log[owner[io[i]]].doneAt.Some?)
  }

  lemma NoneServed(log: seq<Request>, owner: seq<nat>, io: seq<nat>, t: nat)
    ensures Served(log, owner, io, 0, t)
  {
  }

  lemma AtListed(q: seq<Work>, io: seq<nat>, free: seq<nat>, owner: seq<nat>, slot: seq<nat>, log: seq<Request>,
                 latest: nat, h: Ends, i: nat)
    requires Lists(q, io, free, {}, h) && Known(q, io, owner, slot, log) && AllProper(log, latest) && i <= |io|
    ensures |owner| == |q| && |slot| == |log| && InRange(q, io)
    ensures i == |io| <==> At(io, i) == NONE
    ensures i < |io| ==> At(io, i) == io[i] < |q| && q[io[i]].next == At(io, i + 1)
  {
    ListedEntry(q, io, free, owner, slot, log, latest, h, i);
  }

  /** A visit serves the entry it stands on and leaves the others as they are. */
  lemma OneMoreServed(q: seq<Work>, io: seq<nat>, free: seq<nat>, owner: seq<nat>, slot: seq<nat>, log: seq<Request>,
                      latest: nat, h: Ends, log': seq<Request>, i: nat, t: nat, now: nat)
    requires Lists(q, io, free, {}, h) && Known(q, io, owner, slot, log) && AllProper(log, latest)
    requires i < |io| && Served(log, owner, io, i, t) && t <= now
    requires io[i] < |q| && (q[io[i]].isCompleted ==> log' == log)
    requires !q[io[i]].isCompleted ==>
               io[i] < |owner| && owner[io[i]] < |log| && log' == log[owner[io[i]] := Visited(log[owner[io[i]]], now)]
    ensures Served(log', owner, io, i + 1, t) && Progress(log, log')
  {
    hide Lists;
    assert io[i] in io;
    assert Proper(log[owner[io[i]]], latest);
    forall j | 0 <= j < i ensures io[j] in io {}
  }

  /** Up to time `t` the listed requests fall due in the order of the list. */
  ghost predicate DueFirst(log: seq<Request>, owner: seq<nat>, io: seq<nat>, t: nat)
  {
    && (forall i :: 0 <= i < |io| ==> io[i] < |owner| && owner[io[i]] < |log|)
    && (forall i, j :: 0 <= i < j < |io| && log[owner[io[j]]].target <= t ==> log[owner[io[i]]].target <= t)
  }

  lemma SortedIsDueFirst(q: seq<Work>, io: seq<nat>, free: seq<nat>, owner: seq<nat>, slot: seq<nat>, log: seq<Request>,
                         latest: nat, h: Ends, t: nat)
    requires Lists(q, io, free, {}, h) && Sorted(q, io, latest) && Known(q, io, owner, slot, log) && latest <= t
    ensures DueFirst(log, owner, io, t)
  {
    hide Chain, BackChain, Partition;
    LaterStaysSorted(q, io, latest, t);
    forall i | 0 <= i < |io| ensures io[i] in io {}
  }

  lemma TurnRecycles(q: seq<Work>, io: seq<nat>, owner: seq<nat>, slot: seq<nat>, log0: seq<Request>,
                     log1: seq<Request>,
                     log: seq<Request>, k: nat, t: nat)
    requires DueFirst(log0, owner, io, t) && |log0| == |log1| == |log| == |slot| && Progress(log0, log1) && k <= |io|
    requires Served(log1, owner, io, |io|, t) && log == Recycle(log1, slot, io[..k])
    requires Known(q, io[k..], owner, slot, log)
    requires k < |io| ==> io[k] < |q| && !q[io[k]].isCompleted
    ensures forall id :: 0 <= id < |log| && log[id].target <= t ==> log[id].recycled
  {
    hide Recycle;
    var rest := io[k..];
    if k < |io| {
      assert rest[0] == io[k] && io[k] in rest;
      assert log1[owner[io[k]]].target > t;
    }
    forall id | 0 <= id < |log| && !log[id].recycled ensures log[id].target > t {
      var j :| 0 <= j < |rest| && rest[j] == slot[id];
      assert rest[j] == io[k + j];
      assert log1[owner[io[k + j]]].target == log0[owner[io[k + j]]].target;
    }
  }

  lemma LifeInWords(log: seq<Request>, completions: seq<nat>, latest: nat)
    requires AllProper(log, latest) && Posted(completions, log)
    ensures NoDup(completions) && forall id: nat :: id in completions <==> id < |log| && log[id].doneAt.Some?
    ensures forall id :: 0 <= id < |log| && log[id].doneAt.Some? ==> log[id].copied && log[id].target <= log[id].doneAt.value
    ensures forall id :: 0 <= id < |log| && log[id].recycled ==> log[id].doneAt.Some?
  {
    forall id | 0 <= id < |log| ensures Proper(log[id], latest) {}
  }

  lemma NothingHappened(events: seq<Event>)
    ensures Submitted(events[..0], []) == [] && Elapsed(events[..0], []) == 0
    ensures events[..|events|] == events
  {
  }

  lemma FirstRelinked(q: seq<Work>, e: nat)
    requires e < |q| && q[e].next == NONE && q[e].prev == NONE
    ensures Relinked(q, q, [], 0, e)
  {
  }

  /** The three cases of a place in the list. */
  lemma NeighboursAt(q: seq<Work>, io: seq<nat>, free: seq<nat>, e: nat, h: Ends, p: nat)
    requires Lists(q, io, free, {e}, h) && io != [] && p <= |io|
    ensures p == 0 <==> At(io, p - 1) == NONE
    ensures p == 0 ==> h.ioSeq == io[0] < |q| && io[0] != e
    ensures p > 0 ==> At(io, p - 1) == io[p - 1] < |q| && io[p - 1] != e && q[io[p - 1]].next == At(io, p)
    ensures p == |io| <==> At(io, p) == NONE
    ensures p < |io| ==> At(io, p) == io[p] < |q| && io[p] != e
    ensures 0 < p < |io| ==> io[p] != io[p - 1]
  {
    hide BackChain;
    if p > 0 { assert io[p - 1] in io; }
    if p < |io| { assert io[p] in io; }
  }

  /** The order looks at targets and flags only. */
  lemma RelinkKeepsOrder(q: seq<Work>, q': seq<Work>, io: seq<nat>, free: seq<nat>, latest: nat, p: nat, e: nat)
    requires p <= |io| && Relinked(q, q', io, p, e)
    requires InRange(q, InsertAt(io, p, e)) && InRange(q, free)
    ensures Sorted(q, InsertAt(io, p, e), latest) ==> Sorted(q', InsertAt(io, p, e), latest)
    ensures RecycledLast(q, free) ==> RecycledLast(q', free)
  {
    hide InsertAt;
    forall x | 0 <= x < |q| ensures q'[x].target == q[x].target && q'[x].isCompleted == q[x].isCompleted {}
  }

  // ----- The worker and its dispatcher -----

  /** `struct nvmev_io_worker` with the loop variable of its thread.  The ghost fields name the
      two lists and follow each request from acceptance to recycling. */
  class Worker {
    const queue: array<Work>
    var freeSeq: nat
    var freeSeqEnd: nat
    var ioSeq: nat
    var ioSeqEnd: nat
    var latestNsecs: nat
    var curr: nat

    ghost var io: seq<nat>
    ghost var free: seq<nat>
    ghost var owner: seq<nat>
    ghost var slot: seq<nat>
    ghost var log: seq<Request>
    ghost var completions: seq<nat>

    function Heads(): Ends
      reads this
    {
      Ends(freeSeq, freeSeqEnd, ioSeq, ioSeqEnd)
    }

    ghost function Now(): Snapshot
      reads this, queue
    {
      Snapshot(queue[..], io, free, owner, slot, log, completions, latestNsecs, curr, Heads())
    }

    ghost predicate Linked(out: set<nat>)
      reads this, queue
    {
      && Lists(queue[..], io, free, out, Heads())
      && Sorted(queue[..], io, latestNsecs) && RecycledLast(queue[..], free)
    }

    ghost predicate Valid()
      reads this, queue
    {
      && Linked({})
      && Known(queue[..], io, owner, slot, log) && AllProper(log, latestNsecs) && Posted(completions, log)
      && On(queue[..], io, free, curr)
    }

    constructor (nrMaxParallelIo: nat)
      requires 0 < nrMaxParallelIo <= NONE
      ensures Valid() && fresh(queue) && queue.Length == nrMaxParallelIo
      ensures io == [] && |free| == nrMaxParallelIo && log == [] && completions == [] && latestNsecs == 0
      ensures curr == NONE
    {
      var n := nrMaxParallelIo;
      hide Lists, Sorted, RecycledLast, Known, AllProper, Posted, On, Upto;
      queue := new Work[n](_ => Work(0, false, false, false, 0, 0));
      freeSeq, freeSeqEnd, ioSeq, ioSeqEnd := 0, n - 1, NONE, NONE;
      latestNsecs, curr := 0, NONE;
      io, free, owner, slot, log, completions := [], Upto(n), seq(n, _ => 0), [], [], [];
      new;
      for i := 0 to n
        modifies queue
        invariant forall x :: 0 <= x < i ==> queue[x].next == x + 1
        invariant forall x :: 0 <= x < n ==> !queue[x].isCompleted
      {
        queue[i] := queue[i].(next := i + 1, prev := if i > 0 then i - 1 else NONE);
      }
      queue[n - 1] := queue[n - 1].(next := NONE);
      FreshLists(queue[..], Heads());
      FreshLife(queue[..], owner, Upto(n));
    }

    /** `__allocate_work_queue_entry`: the head of the free list, unless it is the last one. */
    method AllocateWorkQueueEntry() returns (entry: Option<nat>)
      requires Linked({})
      modifies this`freeSeq, this`free
      ensures entry.Some? <==> |old(free)| > 1
      ensures entry.None? ==> free == old(free) && freeSeq == old(freeSeq) && Linked({})
      ensures entry.Some? ==> entry.value == old(free)[0] < queue.Length && free == old(free)[1..] && Linked({entry.value})
    {
      hide Chain, BackChain, Partition, Sorted;
      TakeFree(queue[..], io, free, Heads());
      var e := freeSeq;
      if queue[e].next >= queue.Length {
        return None;
      }
      freeSeq := queue[e].next;
      free := free[1..];
      return Some(e);
    }

    /** The search of `__insert_req_sorted`: from the tail to the last entry that is due
        already or not due later. */
    method FindPlace(nsecsTarget: nat) returns (prev: nat, ghost p: nat)
      requires InRange(queue[..], io) && BackChain(queue[..], io) && |queue[..]| <= NONE
      requires io != [] && ioSeqEnd == io[|io| - 1]
      ensures p <= |io| && prev == At(io, p - 1) && BelongsAt(queue[..], io, latestNsecs, nsecsTarget, p)
    {
      hide BackChain, InRange;
      ghost var q := queue[..];
      prev, p := ioSeqEnd, |io|;
      while prev != NONE
        invariant p <= |io| && prev == At(io, p - 1) && DueLater(q, io, latestNsecs, nsecsTarget, p)
        decreases p
      {
        AtIsEntry(q, io, p - 1);
        if queue[prev].target <= latestNsecs || queue[prev].target <= nsecsTarget {
          break;
        }
        prev := queue[prev].prev;
        p := p - 1;
      }
      AtIsEntry(q, io, p - 1);
    }

    /** The relinking of `__insert_req_sorted`, behind `prev`: at the head, at the tail, between. */
    method LinkBehind(entry: nat, prev: nat, ghost p: nat)
      requires Lists(queue[..], io, free, {entry}, Heads()) && io != [] && entry < queue.Length
      requires queue[entry].next == NONE && queue[entry].prev == NONE
      requires p <= |io| && prev == At(io, p - 1)
      modifies this`ioSeq, this`ioSeqEnd, queue
      ensures Relinked(old(queue[..]), queue[..], io, p, entry)
      ensures ioSeq == if p == 0 then entry else old(ioSeq)
      ensures ioSeqEnd == if p == |io| then entry else old(ioSeqEnd)
    {
      hide Lists, At, Relinked;
      ghost var q := queue[..];
      NeighboursAt(q, io, free, entry, Heads(), p);
      ghost var front, back := At(io, p - 1), At(io, p);
      ghost var w := q[entry].(next := back, prev := front);
      if prev == NONE {
        queue[ioSeq] := queue[ioSeq].(prev := entry);
        queue[entry] := queue[entry].(next := ioSeq);
        ioSeq := entry;
        assert queue[..] == q[back := q[back].(prev := entry)][entry := w];
      } else if queue[prev].next == NONE {
        queue[entry] := queue[entry].(prev := prev);
        ioSeqEnd := entry;
        queue[prev] := queue[prev].(next := entry);
        assert queue[..] == q[entry := w][front := q[front].(next := entry)];
      } else {
        queue[entry] := queue[entry].(prev := prev);
        queue[entry] := queue[entry].(next := queue[prev].next);
        queue[queue[entry].next] := queue[queue[entry].next].(prev := entry);
        queue[prev] := queue[prev].(next := entry);
        assert queue[..] == q[entry := w][back := q[back].(prev := entry)][front := q[front].(next := entry)];
      }
      IsRelinked(q, queue[..], io, p, entry);
    }

    /** `__insert_req_sorted`. */
    method InsertReqSorted(entry: nat, nsecsTarget: nat) returns (ghost p: nat)
      requires Linked({entry}) && entry < queue.Length
      requires queue[entry].target == nsecsTarget && queue[entry].next == NONE && queue[entry].prev == NONE
      modifies this`ioSeq, this`ioSeqEnd, this`io, queue
      ensures p <= |old(io)| && io == InsertAt(old(io), p, entry)
      ensures BelongsAt(old(queue[..]), old(io), latestNsecs, nsecsTarget, p)
      ensures Relinked(old(queue[..]), queue[..], old(io), p, entry)
      ensures Linked({})
    {
      hide Chain, Partition, BackChain, InsertAt, Sorted, RecycledLast, Relinked;
      ghost var q := queue[..];
      var prev := NONE;
      p := 0;
      if ioSeq == NONE {
        assert io == [];
        ioSeq, ioSeqEnd := entry, entry;
        assert Relinked(q, queue[..], io, p, entry) by { FirstRelinked(q, entry); }
      } else {
        prev, p := FindPlace(nsecsTarget);
        LinkBehind(entry, prev, p);
      }
      LinkEntry(q, queue[..], io, free, p, entry, old(Heads()));
      InsertKeepsSorted(q, io, latestNsecs, p, entry);
      RelinkKeepsOrder(q, queue[..], io, free, latestNsecs, p, entry);
      io := InsertAt(io, p, entry);
    }

    /** `__enqueue_io_req`, and `schedule_internal_operation` for a request that needs no copy.
        With one free entry left the request is dropped and nothing changes. */
    method Enqueue(nsecsTarget: nat, isInternal: bool) returns (accepted: bool, ghost p: nat)
      requires Valid()
      modifies this`freeSeq, this`ioSeq, this`ioSeqEnd, this`io, this`free, this`owner, this`slot, this`log, queue
      ensures Valid()
      ensures accepted <==> |old(free)| > 1
      ensures !accepted ==> Now() == old(Now())
      ensures accepted ==> log == old(log) + [Request(nsecsTarget, isInternal, isInternal, None, false)]
      ensures accepted ==> free == old(free)[1..] && slot == old(slot) + [old(free)[0]]
      ensures accepted ==> InRange(old(queue[..]), old(io)) && p <= |old(io)|
      ensures accepted ==> BelongsAt(old(queue[..]), old(io), latestNsecs, nsecsTarget, p)
      ensures accepted ==> io == InsertAt(old(io), p, old(free)[0])
    {
      hide Lists, Sorted, RecycledLast, Known, AllProper, Posted, On, Relinked, InsertAt, At, InRange, SameRequest;
      hide BelongsAt;
      ghost var q0, on := queue[..], curr;
      var taken := AllocateWorkQueueEntry();
      if taken.None? {
        return false, 0;
      }
      var e := taken.value;
      var w := Work(nsecsTarget, false, isInternal, isInternal, NONE, NONE);
      queue[e] := w;
      ghost var q1 := queue[..];
      assert q1 == q0[e := w];
      FillEntry(q0, io, free, e, Heads(), w);
      FillKeepsOrder(q0, io, free, e, Heads(), latestNsecs, w);
      p := InsertReqSorted(e, nsecsTarget);
      ghost var r := Request(nsecsTarget, isInternal, isInternal, None, false);
      EnqueueKeepsLife(q0, q1, queue[..], old(io), old(free), io, owner, slot, log, completions, e, p, r, latestNsecs, on, old(Heads()));
      owner, slot, log := owner[e := |log|], slot + [e], log + [r];
      accepted := true;
    }

    /** The scan of `__reclaim_completed_reqs`: how many entries at the front are finished. */
    method CountReclaimable() returns (nrReclaimed: nat, lastEntry: nat)
      requires Valid()
      ensures nrReclaimed <= |io| && (nrReclaimed == 0 <==> lastEntry == NONE)
      ensures nrReclaimed > 0 ==> lastEntry == io[nrReclaimed - 1] && ioSeq == io[0]
      ensures AllCompleted(queue[..], io, nrReclaimed)
      ensures nrReclaimed < |io| ==> !queue[..][io[nrReclaimed]].isCompleted
    {
      hide Lists, Known, AllProper, Sorted, RecycledLast, Posted, On, At;
      ghost var q := queue[..];
      var c := ioSeq;
      nrReclaimed, lastEntry := 0, NONE;
      ListedEntry(q, io, free, owner, slot, log, latestNsecs, Heads(), 0);
      while c != NONE
        invariant nrReclaimed <= |io| && c == At(io, nrReclaimed)
        invariant lastEntry == if nrReclaimed == 0 then NONE else io[nrReclaimed - 1]
        invariant AllCompleted(q, io, nrReclaimed)
        decreases |io| - nrReclaimed
      {
        ListedEntry(q, io, free, owner, slot, log, latestNsecs, Heads(), nrReclaimed);
        if queue[c].isCompleted && queue[c].isCopied && queue[c].target <= latestNsecs {
          lastEntry := c;
          c := queue[c].next;
          nrReclaimed := nrReclaimed + 1;
        } else {
          break;
        }
      }
      ListedEntry(q, io, free, owner, slot, log, latestNsecs, Heads(), nrReclaimed);
    }

    /** The relinking of `__reclaim_completed_reqs`. */
    method Splice(firstEntry: nat, lastEntry: nat, ghost k: nat)
      requires Lists(queue[..], io, free, {}, Heads()) && 0 < k <= |io| && firstEntry == io[0] && lastEntry == io[k - 1]
      modifies this`ioSeq, this`freeSeqEnd, queue
      ensures free != [] && Spliced(old(queue[..]), queue[..], io, free, k)
      ensures ioSeq == At(io, k) && freeSeqEnd == lastEntry
    {
      hide Lists, At, Spliced;
      ghost var q := queue[..];
      SpliceEnds(q, io, free, Heads(), k);
      ghost var next, tail := At(io, k), freeSeqEnd;
      ioSeq := queue[lastEntry].next;
      if queue[lastEntry].next != NONE {
        queue[queue[lastEntry].next] := queue[queue[lastEntry].next].(prev := NONE);
      }
      ghost var q1 := queue[..];
      assert q1 == if next == NONE then q else q[next := q[next].(prev := NONE)];
      queue[lastEntry] := queue[lastEntry].(next := NONE);
      queue[firstEntry] := queue[firstEntry].(prev := freeSeqEnd);
      queue[freeSeqEnd] := queue[freeSeqEnd].(next := firstEntry);
      freeSeqEnd := lastEntry;
      IsSpliced(q, q1, queue[..], io, free, k);
    }

    /** `__reclaim_completed_reqs` for this worker: all completed entries at the front of the
        list, and no others, go to the end of the free list. */
    method Reclaim() returns (nrReclaimed: nat)
      requires Valid()
      modifies this`ioSeq, this`freeSeqEnd, this`io, this`free, this`log, queue
      ensures Valid()
      ensures nrReclaimed <= |old(io)| && io == old(io)[nrReclaimed..] && free == old(free) + old(io)[..nrReclaimed]
      ensures InRange(old(queue[..]), old(io)) && AllCompleted(old(queue[..]), old(io), nrReclaimed)
      ensures nrReclaimed < |old(io)| ==> !old(queue[..])[old(io)[nrReclaimed]].isCompleted
      ensures |slot| == |log| == |old(log)|
      ensures log == Recycle(old(log), slot, old(io)[..nrReclaimed])
      ensures io != [] ==> !queue[..][io[0]].isCompleted
    {
      hide Lists, Sorted, RecycledLast, Known, AllProper, Posted, On, Spliced, AllCompleted, At, Recycle;
      ghost var q, h := queue[..], Heads();
      ListRange(q, io, free, h);
      var firstEntry, lastEntry := ioSeq, NONE;
      nrReclaimed, lastEntry := CountReclaimable();
      if lastEntry != NONE {
        Splice(firstEntry, lastEntry, nrReclaimed);
      }
      ReclaimKeepsLife(q, queue[..], io, free, owner, slot, log, completions, nrReclaimed, latestNsecs, curr, h, Heads());
      log := Recycle(log, slot, io[..nrReclaimed]);
      io, free := io[nrReclaimed..], free + io[..nrReclaimed];
    }

    /** The worker starts a pass at the head of the list. */
    method StartPass()
      requires Valid() && curr == NONE
      modifies this`curr
      ensures Valid() && curr == At(io, 0)
    {
      hide Chain, BackChain, Partition, Sorted, RecycledLast, Known, AllProper, Posted;
      curr := ioSeq;
    }

    /** One visit of the worker, at time `now`: it copies the request if that is still to be done
        and completes it once its target is reached.  A completed entry is passed over. */
    method Visit(now: nat) returns (completed: bool)
      requires Valid() && curr != NONE && latestNsecs <= now
      modifies this`latestNsecs, this`log, this`completions, queue
      ensures Valid() && latestNsecs == now && curr < queue.Length
      ensures old(queue[..][curr].isCompleted) ==> !completed && log == old(log)
      ensures old(!queue[..][curr].isCompleted) ==> curr in io && owner[curr] < |old(log)|
      ensures old(!queue[..][curr].isCompleted) ==> log == old(log)[owner[curr] := Visited(old(log)[owner[curr]], now)]
      ensures old(!queue[..][curr].isCompleted) ==> (completed <==> old(log)[owner[curr]].target <= now)
      ensures completions == if completed then old(completions) + [owner[curr]] else old(completions)
    {
      hide Lists, Sorted, RecycledLast, Known, AllProper, Posted, On;
      ghost var q, on := queue[..], curr;
      Standing(q, io, free, owner, slot, log, Heads(), curr);
      LaterKeepsAll(q, io, log, latestNsecs, now);
      latestNsecs := now;
      completed := false;
      if queue[curr].isCompleted {
        return;
      }
      if !queue[curr].isCopied {
        queue[curr] := queue[curr].(isCopied := true);
      }
      if queue[curr].target <= now {
        queue[curr] := queue[curr].(isCompleted := true);
        completed := true;
      }
      assert queue[..] == q[on := q[on].(isCopied := true, isCompleted := q[on].target <= now)];
      VisitKeepsAll(q, io, free, owner, slot, log, completions, Heads(), on, now);
      completions := if completed then completions + [owner[curr]] else completions;
      log := log[owner[curr] := Visited(log[owner[curr]], now)];
    }

    /** `curr = w->next`. */
    method Advance()
      requires Valid() && curr != NONE
      modifies this`curr
      ensures Valid() && old(curr) < queue.Length && curr == queue[..][old(curr)].next
    {
      hide Lists, Sorted, RecycledLast, Known, AllProper, Posted, On;
      AdvanceStaysOn(queue[..], io, free, Heads(), curr);
      curr := queue[curr].next;
    }

    /** One pass of the worker over its list, `readings[i]` being the clock at visit `i`: every
        listed request is copied, and completed if it was due when the pass began. */
    method Pass(readings: seq<nat>)
      requires Valid() && curr == NONE && Clock(readings, latestNsecs) && |readings| >= |io|
      modifies this`curr, this`latestNsecs, this`log, this`completions, queue
      ensures Valid() && curr == NONE && |log| == |old(log)|
      ensures Served(log, owner, io, |io|, readings[0]) && Progress(old(log), log)
    {
      hide Lists, Sorted, RecycledLast, Known, AllProper, Posted, On, Served, Progress;
      StartPass();
      var i := 0;
      ProgressIsReflexive(log);
      assert Served(log, owner, io, 0, readings[0]) by { NoneServed(log, owner, io, readings[0]); }
      while curr != NONE
        invariant Valid() && i <= |io| && curr == At(io, i) && |log| == |old(log)|
        invariant i < |readings| ==> latestNsecs <= readings[i]
        invariant Served(log, owner, io, i, readings[0]) && Progress(old(log), log)
        decreases |io| - i
      {
        AtListed(queue[..], io, free, owner, slot, log, latestNsecs, Heads(), i);
        ghost var q0, log0, latest0 := queue[..], log, latestNsecs;
        ghost var h0 := Heads();
        var completed := Visit(readings[i]);
        OneMoreServed(q0, io, free, owner, slot, log0, latest0, h0, log, i, readings[0], readings[i]);
        ProgressIsTransitive(old(log), log0, log);
        AtListed(queue[..], io, free, owner, slot, log, latestNsecs, Heads(), i);
        Advance();
        i := i + 1;
      }
      AtListed(queue[..], io, free, owner, slot, log, latestNsecs, Heads(), i);
    }

    /** A pass followed by a reclaim: whatever was due when the pass began is recycled. */
    method Turn(readings: seq<nat>)
      requires Valid() && curr == NONE && Clock(readings, latestNsecs) && |readings| >= |io|
      modifies this, queue
      ensures Valid() && |log| == |old(log)| && Progress(old(log), log)
      ensures forall id :: 0 <= id < |log| && log[id].target <= readings[0] ==> log[id].recycled
    {
      hide Lists, Sorted, RecycledLast, Known, AllProper, Posted, On, Served, Progress, Recycle;
      ghost var io0, t := io, readings[0];
      SortedIsDueFirst(queue[..], io, free, owner, slot, log, latestNsecs, Heads(), t);
      Pass(readings);
      ghost var log1 := log;
      AtListed(queue[..], io, free, owner, slot, log, latestNsecs, Heads(), 0);
      var k := Reclaim();
      assert k < |io0| ==> io[0] == io0[k];
      AtListed(queue[..], io, free, owner, slot, log, latestNsecs, Heads(), 0);
      RecycleIsProgress(log1, slot, io0[..k]);
      ProgressIsTransitive(old(log), log1, log);
      TurnRecycles(queue[..], io0, owner, slot, old(log), log1, log, k, t);
    }

    /** One step of the dispatcher or of the worker. */
    method Perform(e: Event) returns (o: Outcome)
      requires Valid()
      modifies this, queue
      ensures Valid() && Intact(old(Now())) && Intact(Now()) && Happens(old(Now()), e, o, Now())
    {
      hide Lists, Sorted, RecycledLast, Known, AllProper, Posted, On, Recycle, Visited, InsertAt, BelongsAt, AllCompleted;
      ghost var s := Now();
      match e {
        case Submit(target, isInternal) =>
          var accepted, p := Enqueue(target, isInternal);
          o := if accepted then Accepted else Dropped;
          assert accepted ==> Listed(s, target, Now().io);
        case ReclaimCompleted =>
          var nr := Reclaim();
          o := Recycled(nr);
        case WorkerVisit(elapsed) =>
          if curr == NONE {
            StartPass();
            o := Started;
          } else {
            var completed := Visit(latestNsecs + elapsed);
            o := Looked(completed);
          }
        case WorkerAdvance =>
          if curr == NONE {
            o := Idle;
          } else {
            Advance();
            o := Advanced;
          }
      }
    }

    /** Every interleaving of dispatcher and worker steps: each step does exactly what it should, so
        the log grows by the accepted requests in their order and the clock by the visits made; no
        request is taken back, each is completed at most once, only after its copy and not before
        its target, and recycled only then. */
    method Run(events: seq<Event>) returns (outcomes: seq<Outcome>, ghost states: seq<Snapshot>)
      requires Valid()
      modifies this, queue
      ensures Valid() && |outcomes| == |events| && |states| == |events| + 1
      ensures states[0] == old(Now()) && states[|events|] == Now()
      ensures forall i :: 0 <= i <= |events| ==> Intact(states[i])
      ensures forall i :: 0 <= i < |events| ==> Happens(states[i], events[i], outcomes[i], states[i + 1])
      ensures Labels(log) == old(Labels(log)) + Submitted(events, outcomes)
      ensures latestNsecs == old(latestNsecs) + Elapsed(events, outcomes)
      ensures Progress(old(log), log) && old(completions) <= completions
      ensures NoDup(completions) && forall id: nat :: id in completions <==> id < |log| && log[id].doneAt.Some?
      ensures forall id :: 0 <= id < |log| && log[id].doneAt.Some? ==>
                log[id].copied && log[id].target <= log[id].doneAt.value
      ensures forall id :: 0 <= id < |log| && log[id].recycled ==> log[id].doneAt.Some?
    {
      hide Lists, Sorted, RecycledLast, Known, AllProper, Posted, On, Progress, Happens, Labels, Submitted, Elapsed;
      ProgressIsReflexive(log);
      outcomes, states := [], [Now()];
      NothingHappened(events);
      for i := 0 to |events|
        invariant Valid() && |outcomes| == i && |states| == i + 1 && states[0] == old(Now()) && states[i] == Now()
        invariant forall j :: 0 <= j <= i ==> Intact(states[j])
        invariant forall j :: 0 <= j < i ==> Happens(states[j], events[j], outcomes[j], states[j + 1])
        invariant Labels(log) == old(Labels(log)) + Submitted(events[..i], outcomes)
        invariant latestNsecs == old(latestNsecs) + Elapsed(events[..i], outcomes)
        invariant Progress(old(log), log) && old(completions) <= completions
      {
        ghost var s := Now();
        var o := Perform(events[i]);
        StepInWords(s, events[i], o, Now());
        OneMoreEvent(events, outcomes, i, o);
        ProgressIsTransitive(old(log), s.log, log);
        outcomes, states := outcomes + [o], states + [Now()];
      }
      LifeInWords(log, completions, latestNsecs);
    }
  }
}
