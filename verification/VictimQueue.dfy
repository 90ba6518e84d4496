/** The indexed binary min-heap of victim lines (pqueue/pqueue.c) over the line
    table it is keyed on.  An element is a line id; the callbacks of the original
    read and write the `vpc` and `pos` fields of that line in place. */
module VictimQueue {
  import opened Wrappers

  /** One entry of the line table: `struct line` of conv_ftl.h without its list links. */
  datatype Line = Line(ipc: int, vpc: int, pos: nat)

  /** The heap order, ignoring every edge that touches slot `hole`. */
  ghost predicate Ordered(p: seq<int>, size: nat, hole: nat)
  {
    && size <= |p|
    && (forall j :: 2 <= j < size && j != hole && j / 2 != hole ==> p[j / 2] <= p[j])
  }

  /** The heap order on the priorities stored in slots 1..size-1. */
  ghost predicate HeapOrder(pri: seq<int>, size: nat)
  {
    Ordered(pri, size, 0)
  }

  /** In a heap the root carries a least priority. */
  lemma {:induction false} RootIsLeast(pri: seq<int>, size: nat, j: nat)
    requires HeapOrder(pri, size)
    requires 1 <= j < size
    ensures pri[1] <= pri[j]
  {
    if j == 1 {
    } else {
      RootIsLeast(pri, size, j / 2);
    }
  }

  /** `subtree_is_valid`: the recursive audit of the heap order below one slot. */
  predicate SubtreeIsValid(pri: seq<int>, size: nat, pos: nat)
    requires 1 <= pos && size <= |pri|
    decreases |pri| - pos
  {
    && (2 * pos < size ==> !(pri[pos] > pri[2 * pos]) && SubtreeIsValid(pri, size, 2 * pos))
    && (2 * pos + 1 < size ==> !(pri[pos] > pri[2 * pos + 1]) && SubtreeIsValid(pri, size, 2 * pos + 1))
  }

  /** `j` is a slot of the subtree rooted at `pos`. */
  ghost predicate Below(pos: nat, j: nat)
    requires 1 <= pos
  {
    j == pos || (j > pos && Below(pos, j / 2))
  }

  lemma {:induction false} BelowChild(pos: nat, j: nat)
    requires 1 <= pos
    ensures Below(pos, j) <==> j == pos || Below(2 * pos, j) || Below(2 * pos + 1, j)
    decreases j
  {
    if j > pos {
      BelowChild(pos, j / 2);
      if j == 2 * pos || j == 2 * pos + 1 {
        assert Below(pos, j / 2);
      }
    }
  }

  lemma {:induction false} EverySlotIsBelowRoot(j: nat)
    requires 1 <= j
    ensures Below(1, j)
  {
    if j > 1 {
      EverySlotIsBelowRoot(j / 2);
    }
  }

  /** The recursive audit of a subtree sees exactly the order violations inside it. */
  lemma {:induction false} SubtreeAuditIsExact(pri: seq<int>, size: nat, pos: nat)
    requires 1 <= pos && size <= |pri|
    ensures SubtreeIsValid(pri, size, pos) <==>
            forall j :: 2 <= j < size && j != pos && Below(pos, j) ==> pri[j / 2] <= pri[j]
    decreases |pri| - pos
  {
    var l, r := 2 * pos, 2 * pos + 1;
    forall j: nat ensures Below(pos, j) <==> j == pos || Below(l, j) || Below(r, j) {
      BelowChild(pos, j);
    }
    if l < size { SubtreeAuditIsExact(pri, size, l); assert Below(l, l); assert l / 2 == pos; }
    if r < size { SubtreeAuditIsExact(pri, size, r); assert Below(r, r); assert r / 2 == pos; }
  }

  /** `pqueue_is_valid` returns true exactly when the heap order holds. */
  lemma AuditIsExact(pri: seq<int>, size: nat)
    requires size <= |pri|
    ensures SubtreeIsValid(pri, size, 1) <==> HeapOrder(pri, size)
  {
    SubtreeAuditIsExact(pri, size, 1);
    forall j: nat | 1 <= j ensures Below(1, j) { EverySlotIsBelowRoot(j); }
  }

  // ----- The heap on values: slots `d`, line table `ls`, queued lines `elems` -----

  /** `getpri` slot by slot. */
  ghost function Pris(d: seq<nat>, ls: seq<Line>): (p: seq<int>)
    ensures |p| == |d|
    ensures forall i :: 0 <= i < |d| && d[i] < |ls| ==> p[i] == ls[d[i]].vpc
  {
    seq(|d|, i requires 0 <= i < |d| => if d[i] < |ls| then ls[d[i]].vpc else 0)
  }

  /** Slots and positions are inverse between 1..size-1 and `elems`, except that slot
      `hole` is being refilled and the line `m` is on its way. */
  ghost predicate Indexed(d: seq<nat>, ls: seq<Line>, size: nat, elems: set<nat>, hole: nat, m: nat)
  {
    && 1 <= size <= |d|
    && (forall i :: 1 <= i < size && i != hole ==>
          d[i] in elems && d[i] < |ls| && ls[d[i]].pos == i && d[i] != m)
    && (forall x :: x in elems ==> x < |ls|)
    && (forall x :: x in elems && x != m ==>
          1 <= ls[x].pos < size && ls[x].pos != hole && d[ls[x].pos] == x)
  }

  /** The parent of `hole` is at most every child of `hole`. */
  ghost predicate Bridged(p: seq<int>, size: nat, hole: nat)
  {
    && size <= |p|
    && (forall j :: 2 <= j < size && j / 2 == hole && hole >= 2 ==> p[hole / 2] <= p[j])
  }

  /** The priority `pri` is at most that of every child of `hole`. */
  ghost predicate AboveChildren(p: seq<int>, size: nat, hole: nat, pri: int)
  {
    && size <= |p|
    && (forall j :: 2 <= j < size && j / 2 == hole ==> pri <= p[j])
  }

  /** The parent of `hole` is at most `pri`. */
  ghost predicate UnderParent(p: seq<int>, hole: nat, pri: int)
  {
    2 <= hole < |p| ==> p[hole / 2] <= pri
  }

  /** `c` is the child of least priority of slot `i`, or 0 when `i` is a leaf. */
  ghost predicate LeastChild(p: seq<int>, size: nat, i: nat, c: nat)
  {
    && size <= |p|
    && (c == 0 <==> 2 * i >= size)
    && (c != 0 ==> c < size && c / 2 == i && forall j :: 2 <= j < size && j / 2 == i ==> p[c] <= p[j])
  }

  ghost predicate IsHeap(d: seq<nat>, ls: seq<Line>, size: nat, elems: set<nat>)
  {
    && Indexed(d, ls, size, elems, 0, |ls|)
    && HeapOrder(Pris(d, ls), size)
  }

  /** Every line keeps its page counts; lines outside `s` keep their position too. */
  ghost predicate OnlyPositions(was: seq<Line>, ls: seq<Line>, s: set<nat>)
  {
    && |ls| == |was|
    && (forall x :: 0 <= x < |ls| ==> ls[x].vpc == was[x].vpc && ls[x].ipc == was[x].ipc)
    && (forall x :: 0 <= x < |ls| && x !in s ==> ls[x].pos == was[x].pos)
  }

  /** The whole state of a sift: the line `m` travels, slot `hole` is to be filled. */
  ghost predicate Sifting(d: seq<nat>, ls: seq<Line>, size: nat, elems: set<nat>, hole: nat, m: nat)
  {
    && 1 <= hole < size && m in elems && m < |ls|
    && Indexed(d, ls, size, elems, hole, m)
    && Ordered(Pris(d, ls), size, hole)
    && Bridged(Pris(d, ls), size, hole)
  }

  /** Writing line `x` into slot `i` changes the priorities at that slot only. */
  lemma PrisAfterMove(d: seq<nat>, ls: seq<Line>, i: nat, x: nat, pos: nat)
    requires i < |d| && x < |ls|
    ensures Pris(d[i := x], ls[x := ls[x].(pos := pos)]) == Pris(d, ls)[i := ls[x].vpc]
  {
  }

  /** Moving the line of slot `from` into the hole `i` makes `from` the hole. */
  lemma MoveKeepsIndex(d: seq<nat>, ls: seq<Line>, size: nat, elems: set<nat>, i: nat, from: nat, m: nat)
    requires 1 <= i < size && 1 <= from < size && i != from
    requires Indexed(d, ls, size, elems, i, m) && m < |ls|
    ensures Indexed(d[i := d[from]], ls[d[from] := ls[d[from]].(pos := i)], size, elems, from, m)
    ensures OnlyPositions(ls, ls[d[from] := ls[d[from]].(pos := i)], elems)
  {
  }

  /** `bubble_up`, one turn: pulling the parent of the hole down. */
  lemma PullDown(d: seq<nat>, ls: seq<Line>, size: nat, elems: set<nat>, i: nat, m: nat)
    requires 2 <= i && Sifting(d, ls, size, elems, i, m) && ls[d[i / 2]].vpc > ls[m].vpc
    requires AboveChildren(Pris(d, ls), size, i, ls[m].vpc)
    ensures var x := d[i / 2]; var d', ls' := d[i := x], ls[x := ls[x].(pos := i)];
            && Sifting(d', ls', size, elems, i / 2, m)
            && AboveChildren(Pris(d', ls'), size, i / 2, ls[m].vpc)
            && OnlyPositions(ls, ls', elems)
  {
    MoveKeepsIndex(d, ls, size, elems, i, i / 2, m);
    PrisAfterMove(d, ls, i, d[i / 2], i);
    var p, q, k := Pris(d, ls), Pris(d, ls)[i := ls[d[i / 2]].vpc], i / 2;
    forall j | 2 <= j < size && j / 2 == k
      ensures ls[m].vpc <= q[j] && (k >= 2 ==> q[k / 2] <= q[j])
    {
      assert p[k] <= q[j];
    }
  }

  /** `percolate_down`, one turn: pulling the lesser child `c` of the hole up. */
  lemma PullUp(d: seq<nat>, ls: seq<Line>, size: nat, elems: set<nat>, i: nat, m: nat, c: nat)
    requires Sifting(d, ls, size, elems, i, m) && 2 <= c < size && c / 2 == i && ls[d[c]].vpc < ls[m].vpc
    requires UnderParent(Pris(d, ls), i, ls[m].vpc)
    requires LeastChild(Pris(d, ls), size, i, c)
    ensures var x := d[c]; var d', ls' := d[i := x], ls[x := ls[x].(pos := i)];
            && Sifting(d', ls', size, elems, c, m)
            && UnderParent(Pris(d', ls'), c, ls[m].vpc)
            && OnlyPositions(ls, ls', elems)
  {
    MoveKeepsIndex(d, ls, size, elems, i, c, m);
    PrisAfterMove(d, ls, i, d[c], i);
    var p, q := Pris(d, ls), Pris(d, ls)[i := ls[d[c]].vpc];
    forall j | 2 <= j < size && j / 2 == c ensures q[i] <= q[j] { assert p[c] <= p[j]; }
    forall j | 2 <= j < size && j != c && j / 2 != c ensures q[j / 2] <= q[j] {
      if j == i { } else if j / 2 == i { } else { assert p[j / 2] <= p[j]; }
    }
  }

  /** Dropping the travelling line into the hole. */
  lemma Settle(d: seq<nat>, ls: seq<Line>, size: nat, elems: set<nat>, i: nat, m: nat)
    requires Sifting(d, ls, size, elems, i, m)
    requires UnderParent(Pris(d, ls), i, ls[m].vpc)
    requires AboveChildren(Pris(d, ls), size, i, ls[m].vpc)
    ensures IsHeap(d[i := m], ls[m := ls[m].(pos := i)], size, elems)
    ensures OnlyPositions(ls, ls[m := ls[m].(pos := i)], elems)
  {
    PrisAfterMove(d, ls, i, m, i);
    SettleOrder(Pris(d, ls), size, i, ls[m].vpc);
    SettleIndex(d, ls, size, elems, i, m);
  }

  lemma SettleIndex(d: seq<nat>, ls: seq<Line>, size: nat, elems: set<nat>, i: nat, m: nat)
    requires 1 <= i < size && m in elems && m < |ls| && Indexed(d, ls, size, elems, i, m)
    ensures Indexed(d[i := m], ls[m := ls[m].(pos := i)], size, elems, 0, |ls|)
  {
  }

  lemma SettleOrder(p: seq<int>, size: nat, i: nat, pri: int)
    requires 1 <= i < size && Ordered(p, size, i) && UnderParent(p, i, pri) && AboveChildren(p, size, i, pri)
    ensures Ordered(p[i := pri], size, 0)
  {
    var q := p[i := pri];
    forall j | 2 <= j < size ensures q[j / 2] <= q[j] {
      if j == i { } else if j / 2 == i { } else { assert p[j / 2] <= p[j]; }
    }
  }

  /** During a sift every other slot holds a line. */
  lemma SlotsAreLines(d: seq<nat>, ls: seq<Line>, size: nat, elems: set<nat>, hole: nat, m: nat)
    requires Sifting(d, ls, size, elems, hole, m)
    ensures 1 <= hole < size <= |d| && m < |ls|
    ensures forall j :: 1 <= j < size && j != hole ==>
      d[j] in elems && d[j] < |ls| && Pris(d, ls)[j] == ls[d[j]].vpc
  {
  }

  /** A heap becomes a sift when the line of one slot is picked up. */
  lemma PickUp(d: seq<nat>, ls: seq<Line>, size: nat, elems: set<nat>, i: nat)
    requires IsHeap(d, ls, size, elems) && 1 <= i < size
    ensures Sifting(d, ls, size, elems, i, d[i])
    ensures AboveChildren(Pris(d, ls), size, i, ls[d[i]].vpc) && UnderParent(Pris(d, ls), i, ls[d[i]].vpc)
  {
    var p := Pris(d, ls);
    forall j | 2 <= j < size && j / 2 == i && i >= 2 ensures p[i / 2] <= p[j] {
      assert p[i / 2] <= p[i] <= p[j];
    }
  }

  /** Changing the priority of the picked-up line disturbs no other line. */
  lemma Rekey(d: seq<nat>, ls: seq<Line>, size: nat, elems: set<nat>, hole: nat, m: nat, l: Line)
    requires Sifting(d, ls, size, elems, hole, m) && l.pos == ls[m].pos
    ensures Sifting(d, ls[m := l], size, elems, hole, m)
    ensures forall j :: 1 <= j < size && j != hole ==> Pris(d, ls[m := l])[j] == Pris(d, ls)[j]
  {
    var p, q := Pris(d, ls), Pris(d, ls[m := l]);
    assert forall j :: 1 <= j < size && j != hole ==> q[j] == p[j];
  }

  /** `pqueue_insert`: the new line travels from the fresh last slot. */
  lemma Enter(d: seq<nat>, ls: seq<Line>, size: nat, elems: set<nat>, m: nat)
    requires IsHeap(d, ls, size, elems) && size < |d| && m < |ls| && m !in elems
    ensures Sifting(d[size := m], ls, size + 1, elems + {m}, size, m)
    ensures AboveChildren(Pris(d[size := m], ls), size + 1, size, ls[m].vpc)
  {
    var p, q := Pris(d, ls), Pris(d[size := m], ls);
    assert forall j :: 1 <= j < size ==> q[j] == p[j];
    forall j | 2 <= j < size ensures q[j / 2] <= q[j] { assert p[j / 2] <= p[j]; }
  }

  /** Taking a line out of slot `i`: the last line travels from there. */
  lemma Leave(d: seq<nat>, ls: seq<Line>, size: nat, elems: set<nat>, i: nat)
    requires IsHeap(d, ls, size, elems) && 1 <= i < size
    ensures i < size - 1 ==> Sifting(d[i := d[size - 1]], ls, size - 1, elems - {d[i]}, i, d[size - 1])
    ensures i == size - 1 ==> IsHeap(d, ls, size - 1, elems - {d[i]})
    ensures forall j :: 1 <= j < size - 1 && j != i ==> Pris(d[i := d[size - 1]], ls)[j] == Pris(d, ls)[j]
  {
    var e := d[i := d[size - 1]];
    var p, q := Pris(d, ls), Pris(e, ls);
    assert forall j :: 1 <= j < size - 1 && j != i ==> q[j] == p[j];
    OrderWithoutLast(p, q, size, i);
    LeaveIndex(d, ls, size, elems, i);
  }

  lemma LeaveIndex(d: seq<nat>, ls: seq<Line>, size: nat, elems: set<nat>, i: nat)
    requires Indexed(d, ls, size, elems, 0, |ls|) && 1 <= i < size
    ensures i < size - 1 ==> Indexed(d[i := d[size - 1]], ls, size - 1, elems - {d[i]}, i, d[size - 1])
    ensures i < size - 1 ==> d[size - 1] in elems - {d[i]}
    ensures i == size - 1 ==> Indexed(d, ls, size - 1, elems - {d[i]}, 0, |ls|)
  {
  }

  lemma OrderWithoutLast(p: seq<int>, q: seq<int>, size: nat, i: nat)
    requires Ordered(p, size, 0) && 1 <= i < size && |q| == |p|
    requires forall j :: 1 <= j < size - 1 && j != i ==> q[j] == p[j]
    ensures Ordered(q, size - 1, i) && (i == size - 1 ==> Ordered(q, size - 1, 0))
    ensures i < size - 1 ==> Bridged(q, size - 1, i)
    ensures i < size - 1 ==> AboveChildren(q, size - 1, i, p[i]) && UnderParent(q, i, p[i])
  {
    forall j | 2 <= j < size - 1 && j != i && j / 2 != i ensures q[j / 2] <= q[j] { assert p[j / 2] <= p[j]; }
    forall j | 2 <= j < size - 1 && j / 2 == i ensures p[i] <= q[j] && (i >= 2 ==> q[i / 2] <= q[j]) {
      assert p[j / 2] <= p[j];
      assert i >= 2 ==> p[i / 2] <= p[i];
    }
  }

  /** The priorities around a vacated slot still bracket the line that left. */
  lemma LeaveBracket(d: seq<nat>, ls: seq<Line>, size: nat, elems: set<nat>, i: nat)
    requires IsHeap(d, ls, size, elems) && 1 <= i < size - 1
    ensures var q, pri := Pris(d[i := d[size - 1]], ls), ls[d[i]].vpc;
            AboveChildren(q, size - 1, i, pri) && UnderParent(q, i, pri)
  {
    Leave(d, ls, size, elems, i);
    OrderWithoutLast(Pris(d, ls), Pris(d[i := d[size - 1]], ls), size, i);
  }

  /** A line outside the heap may change its position. */
  lemma Bystander(d: seq<nat>, ls: seq<Line>, size: nat, elems: set<nat>, m: nat, l: Line)
    requires IsHeap(d, ls, size, elems) && m < |ls| && m !in elems
    ensures IsHeap(d, ls[m := l], size, elems)
  {
    var p, q := Pris(d, ls), Pris(d, ls[m := l]);
    assert forall j :: 1 <= j < size ==> q[j] == p[j];
    forall j | 2 <= j < size ensures q[j / 2] <= q[j] { assert p[j / 2] <= p[j]; }
  }

  lemma ChildIsSlot(p: seq<int>, size: nat, i: nat, c: nat)
    requires LeastChild(p, size, i, c) && 1 <= i
    ensures c != 0 ==> i < c < size && c / 2 == i
  {
  }

  lemma NothingMoved(ls: seq<Line>, s: set<nat>)
    ensures OnlyPositions(ls, ls, s)
  {
  }

  lemma StillOnlyPositions(a: seq<Line>, b: seq<Line>, c: seq<Line>, s: set<nat>)
    requires OnlyPositions(a, b, s) && OnlyPositions(b, c, s)
    ensures OnlyPositions(a, c, s)
  {
  }

  lemma MoreMayMove(a: seq<Line>, b: seq<Line>, s: set<nat>, t: set<nat>)
    requires OnlyPositions(a, b, s)
    ensures OnlyPositions(a, b, s + t) && OnlyPositions(a, b, t + s)
  {
  }

  lemma SiftHole(d: seq<nat>, ls: seq<Line>, size: nat, elems: set<nat>, i: nat, m: nat)
    requires Sifting(d, ls, size, elems, i, m)
    ensures size <= |d| && m in elems && m < |ls|
  {
  }

  /** A queued line sits in the slot its position names. */
  lemma PositionOf(d: seq<nat>, ls: seq<Line>, size: nat, elems: set<nat>, x: nat)
    requires IsHeap(d, ls, size, elems) && x in elems
    ensures x < |ls| && 1 <= ls[x].pos < size <= |d| && d[ls[x].pos] == x
  {
  }

  /** The heap is empty exactly when no line is queued. */
  lemma NonEmpty(d: seq<nat>, ls: seq<Line>, size: nat, elems: set<nat>)
    requires IsHeap(d, ls, size, elems)
    ensures 1 <= size && (elems == {} <==> size == 1)
    ensures size > 1 ==> d[1] in elems && d[1] < |ls|
  {
    assert size > 1 ==> d[1] in elems;
  }

  /** The line at the root has a least page count among the queued lines. */
  lemma LeastLine(d: seq<nat>, ls: seq<Line>, size: nat, elems: set<nat>)
    requires IsHeap(d, ls, size, elems) && size > 1
    ensures d[1] in elems && d[1] < |ls|
    ensures forall x :: x in elems ==> x < |ls| && ls[d[1]].vpc <= ls[x].vpc
  {
    forall x | x in elems ensures x < |ls| && ls[d[1]].vpc <= ls[x].vpc {
      RootIsLeast(Pris(d, ls), size, ls[x].pos);
    }
  }

  /** If the least child is not below `pri`, no child is. */
  lemma NoLesserChild(p: seq<int>, size: nat, i: nat, c: nat, pri: int)
    requires LeastChild(p, size, i, c) && (c != 0 ==> pri <= p[c])
    ensures AboveChildren(p, size, i, pri)
  {
  }

  /** A bracket around slot `i` survives lowering (upper part) or raising (lower part) the key. */
  lemma Loosen(p: seq<int>, p': seq<int>, size: nat, i: nat, oldPri: int, newPri: int)
    requires 1 <= i < size <= |p| == |p'|
    requires forall j :: 1 <= j < size && j != i ==> p'[j] == p[j]
    requires AboveChildren(p, size, i, oldPri) && UnderParent(p, i, oldPri)
    ensures newPri <= oldPri ==> AboveChildren(p', size, i, newPri)
    ensures oldPri <= newPri ==> UnderParent(p', i, newPri)
  {
  }

  /** There are as many queued lines as used slots. */
  lemma {:induction false} QueueSize(d: seq<nat>, ls: seq<Line>, size: nat, elems: set<nat>)
    requires Indexed(d, ls, size, elems, 0, |ls|)
    ensures |elems| == size - 1
  {
    if size == 1 {
      assert elems == {};
    } else {
      LeaveIndex(d, ls, size, elems, size - 1);
      QueueSize(d, ls, size - 1, elems - {d[size - 1]});
    }
  }

  lemma {:induction false} BoundedSize(s: set<nat>, n: nat)
    requires forall x :: x in s ==> x < n
    ensures |s| <= n
  {
    if n > 0 {
      BoundedSize(s - {n - 1}, n - 1);
      assert s <= (s - {n - 1}) + {n - 1};
    } else {
      assert s == {};
    }
  }

  /** With one slot per line there is always a slot for a line that is not queued. */
  lemma RoomForOneMore(d: seq<nat>, ls: seq<Line>, size: nat, elems: set<nat>, x: nat)
    requires IsHeap(d, ls, size, elems) && |d| == |ls| + 1 && x < |ls| && x !in elems
    ensures size < |d|
  {
    QueueSize(d, ls, size, elems);
    BoundedSize(elems + {x}, |ls|);
  }

  class Pqueue {
    const lines: array<Line>   // the shared line table
    const d: array<nat>        // slots 1..size-1 hold the heap, slot 0 is unused
    var size: nat              // one more than the number of queued lines
    ghost var elems: set<nat>  // the queued lines

    ghost predicate Valid()
      reads this, lines, d
    {
      && d.Length == lines.Length + 1
      && IsHeap(d[..], lines[..], size, elems)
    }

    /** `pqueue_init`, with room for one slot per line. */
    constructor (lines: array<Line>)
      ensures Valid() && this.lines == lines && fresh(d) && elems == {}
    {
      this.lines := lines;
      d := new nat[lines.Length + 1];
      size := 1;
      elems := {};
    }

    /** Stores the line `x` in slot `i`, telling the line its new position. */
    method Place(x: nat, i: nat)
      requires x < lines.Length && i < d.Length
      modifies d, lines
      ensures d[..] == old(d[..])[i := x]
      ensures lines[..] == old(lines[..])[x := old(lines[x]).(pos := i)]
    {
      d[i] := x;
      lines[x] := lines[x].(pos := i);
    }

    /** `bubble_up`: the line in slot `i0` may be smaller than its ancestors. */
    method BubbleUp(i0: nat)
      requires d.Length == lines.Length + 1 && i0 < d.Length
      requires Sifting(d[..], lines[..], size, elems, i0, d[i0])
      requires AboveChildren(Pris(d[..], lines[..]), size, i0, lines[d[i0]].vpc)
      modifies d, lines
      ensures Valid() && OnlyPositions(old(lines[..]), lines[..], elems)
    {
      hide Indexed, Ordered, Bridged, AboveChildren, Pris, IsHeap;
      var i: nat := i0;
      var moving := d[i];
      var pri := lines[moving].vpc;
      var parent := i / 2;
      SlotsAreLines(d[..], lines[..], size, elems, i, moving);
      while i > 1 && lines[d[parent]].vpc > pri
        invariant parent == i / 2
        invariant i > 1 ==> d[parent] < lines.Length && lines[d[parent]].vpc == Pris(d[..], lines[..])[parent]
        invariant Sifting(d[..], lines[..], size, elems, i, moving)
        invariant AboveChildren(Pris(d[..], lines[..]), size, i, pri)
        invariant lines[moving].vpc == pri
        invariant OnlyPositions(old(lines[..]), lines[..], elems)
      {
        PullDown(d[..], lines[..], size, elems, i, moving);
        Place(d[parent], i);
        i := parent;
        parent := i / 2;
        SlotsAreLines(d[..], lines[..], size, elems, i, moving);
      }
      Settle(d[..], lines[..], size, elems, i, moving);
      Place(moving, i);
    }

    /** `maxchild`: the child of least priority, or 0 for a leaf. */
    method MaxChild(i: nat) returns (c: nat)
      requires 1 <= i && size <= d.Length
      requires forall j :: 1 <= j < size && j != i ==> d[j] < lines.Length
      ensures LeastChild(Pris(d[..], lines[..]), size, i, c)
    {
      c := 2 * i;
      if c >= size {
        return 0;
      }
      if c + 1 < size && lines[d[c]].vpc > lines[d[c + 1]].vpc {
        c := c + 1;
      }
      assert forall j :: 2 <= j < size && j / 2 == i ==> j == 2 * i || j == 2 * i + 1;
    }

    /** `percolate_down`: the line in slot `i0` may be larger than its descendants.  The
        slot may also lie just past the heap, when the last line has been taken out. */
    method PercolateDown(i0: nat)
      requires d.Length == lines.Length + 1 && 1 <= i0 < d.Length && i0 <= size
      requires i0 < size ==>
        && Sifting(d[..], lines[..], size, elems, i0, d[i0])
        && UnderParent(Pris(d[..], lines[..]), i0, lines[d[i0]].vpc)
      requires i0 == size ==> Valid() && d[i0] < lines.Length && d[i0] !in elems
      modifies d, lines
      ensures Valid() && OnlyPositions(old(lines[..]), lines[..], elems + {old(d[i0])})
    {
      hide Indexed, Ordered, Bridged, AboveChildren, UnderParent, LeastChild, Pris, IsHeap, OnlyPositions;
      if i0 == size {
        JustPast(i0);
        MoreMayMove(old(lines[..]), lines[..], {old(d[i0])}, elems);
        return;
      }
      var i: nat := i0;
      var moving := d[i];
      var pri := lines[moving].vpc;
      NothingMoved(lines[..], elems);
      SlotsAreLines(d[..], lines[..], size, elems, i, moving);
      var child: nat := MaxChild(i);
      ChildIsSlot(Pris(d[..], lines[..]), size, i, child);
      while child != 0 && pri > lines[d[child]].vpc
        invariant 0 <= i && 0 <= child
        invariant Sifting(d[..], lines[..], size, elems, i, moving)
        invariant UnderParent(Pris(d[..], lines[..]), i, pri)
        invariant lines[moving].vpc == pri
        invariant LeastChild(Pris(d[..], lines[..]), size, i, child)
        invariant child != 0 ==> i < child < size && child / 2 == i
        invariant child != 0 ==> d[child] < lines.Length && lines[d[child]].vpc == Pris(d[..], lines[..])[child]
        invariant OnlyPositions(old(lines[..]), lines[..], elems)
        decreases size - i
      {
        ghost var ls := lines[..];
        PullUp(d[..], ls, size, elems, i, moving, child);
        Place(d[child], i);
        StillOnlyPositions(old(lines[..]), ls, lines[..], elems);
        i := child;
        SlotsAreLines(d[..], lines[..], size, elems, i, moving);
        child := MaxChild(i);
        ChildIsSlot(Pris(d[..], lines[..]), size, i, child);
      }
      NoLesserChild(Pris(d[..], lines[..]), size, i, child, pri);
      ghost var ls := lines[..];
      Settle(d[..], ls, size, elems, i, moving);
      Place(moving, i);
      StillOnlyPositions(old(lines[..]), ls, lines[..], elems);
      MoreMayMove(old(lines[..]), lines[..], elems, {moving});
    }

    /** `percolate_down` on the slot just past the heap only rewrites that slot. */
    method JustPast(i: nat)
      requires Valid() && i < d.Length && i == size && d[i] < lines.Length && d[i] !in elems
      modifies d, lines
      ensures Valid() && OnlyPositions(old(lines[..]), lines[..], {old(d[i])})
    {
      var moving := d[i];
      ghost var d0, ls0 := d[..], lines[..];
      Bystander(d0, ls0, size, elems, moving, ls0[moving].(pos := i));
      Place(moving, i);
      assert d[..] == d0;
    }

    /** `pqueue_insert`. */
    method Insert(x: nat)
      requires Valid() && x < lines.Length && x !in elems
      modifies this`size, this`elems, d, lines
      ensures Valid() && elems == old(elems) + {x}
      ensures OnlyPositions(old(lines[..]), lines[..], elems)
    {
      RoomForOneMore(d[..], lines[..], size, elems, x);
      Enter(d[..], lines[..], size, elems, x);
      ghost var d0 := d[..];
      var i := size;
      size := size + 1;
      elems := elems + {x};
      d[i] := x;
      assert d[..] == d0[i := x];
      BubbleUp(i);
    }

    /** `pqueue_change_priority`: the key of a queued line changes in place, up or down. */
    method ChangePriority(newPri: int, x: nat)
      requires Valid() && x in elems
      modifies d, lines
      ensures Valid() && x < lines.Length
      ensures OnlyPositions(old(lines[..])[x := old(lines[x]).(vpc := newPri)], lines[..], elems)
    {
      hide Ordered, Bridged, AboveChildren, UnderParent, Pris;
      ghost var d0, ls0 := d[..], lines[..];
      assert x < lines.Length;
      var oldPri := lines[x].vpc;
      lines[x] := lines[x].(vpc := newPri);
      var posn := lines[x].pos;
      PickUp(d0, ls0, size, elems, posn);
      Rekey(d0, ls0, size, elems, posn, x, ls0[x].(vpc := newPri));
      assert lines[..] == ls0[x := ls0[x].(vpc := newPri)];
      Loosen(Pris(d0, ls0), Pris(d0, lines[..]), size, posn, oldPri, newPri);
      if oldPri > newPri {
        BubbleUp(posn);
      } else {
        PercolateDown(posn);
      }
    }

    /** The last line of the heap moves into the slot of the line `x`, which leaves. */
    method Vacate(posn: nat, ghost x: nat)
      requires Valid() && 1 <= posn < size && d[posn] == x
      modifies this`size, this`elems, d
      ensures size == old(size) - 1 && elems == old(elems) - {x} && x in old(elems)
      ensures posn <= size < d.Length == lines.Length + 1 && x < lines.Length
      ensures posn == size ==> Valid() && d[posn] == x
      ensures posn < size ==>
        && Sifting(d[..], lines[..], size, elems, posn, d[posn])
        && AboveChildren(Pris(d[..], lines[..]), size, posn, lines[x].vpc)
        && UnderParent(Pris(d[..], lines[..]), posn, lines[x].vpc)
    {
      hide Ordered, Bridged, AboveChildren, UnderParent, Pris, Sifting;
      ghost var d0 := d[..];
      Leave(d0, lines[..], size, elems, posn);
      if posn < size - 1 {
        LeaveBracket(d0, lines[..], size, elems, posn);
      }
      size := size - 1;
      d[posn] := d[size];
      elems := elems - {x};
      assert d[..] == d0[posn := d0[size]];
      assert posn == size ==> d[..] == d0;
    }

    /** `pqueue_remove`: any queued line, by its position; its priority key stays. */
    method Remove(x: nat)
      requires Valid() && x in elems
      modifies this`size, this`elems, d, lines
      ensures Valid() && elems == old(elems) - {x}
      ensures OnlyPositions(old(lines[..]), lines[..], old(elems))
    {
      hide Ordered, Bridged, AboveChildren, UnderParent, Pris, Indexed;
      PositionOf(d[..], lines[..], size, elems, x);
      var posn := lines[x].pos;
      Vacate(posn, x);
      if posn < size {
        SiftHole(d[..], lines[..], size, elems, posn, d[posn]);
        Loosen(Pris(d[..], lines[..]), Pris(d[..], lines[..]), size, posn, lines[x].vpc, lines[d[posn]].vpc);
      }
      if lines[x].vpc > lines[d[posn]].vpc {
        BubbleUp(posn);
      } else {
        PercolateDown(posn);
      }
    }

    /** `pqueue_pop`: a queued line of least priority leaves, its stale position with it; none from
        an empty heap. */
    method Pop() returns (r: Option<nat>)
      requires Valid()
      modifies this`size, this`elems, d, lines
      ensures Valid() && (r.None? <==> old(elems) == {})
      ensures r.None? ==> elems == {} && size == old(size) && d[..] == old(d[..]) && lines[..] == old(lines[..])
      ensures r.Some? ==> r.value in old(elems) && elems == old(elems) - {r.value}
      ensures r.Some? ==> r.value < lines.Length && d.Length > 1 && r.value == old(d[..])[1]
      ensures r.Some? ==> forall x :: x in old(elems) ==>
                x < lines.Length && old(lines[..])[r.value].vpc <= old(lines[..])[x].vpc
      ensures OnlyPositions(old(lines[..]), lines[..], old(elems))
    {
      hide Ordered, Bridged, AboveChildren, Pris, Indexed;
      NonEmpty(d[..], lines[..], size, elems);
      if size == 1 {
        return None;
      }
      LeastLine(d[..], lines[..], size, elems);
      var head := d[1];
      Vacate(1, head);
      if 1 < size {
        SiftHole(d[..], lines[..], size, elems, 1, d[1]);
      }
      PercolateDown(1);
      return Some(head);
    }

    /** `pqueue_peek`: a queued line of least priority, or none. */
    method Peek() returns (r: Option<nat>)
      requires Valid()
      ensures r.None? <==> elems == {}
      ensures r.Some? ==> r.value in elems && r.value < lines.Length && d.Length > 1 && r.value == d[1]
      ensures r.Some? ==> forall x :: x in elems ==> x < lines.Length && lines[r.value].vpc <= lines[x].vpc
    {
      NonEmpty(d[..], lines[..], size, elems);
      if size == 1 {
        return None;
      }
      LeastLine(d[..], lines[..], size, elems);
      return Some(d[1]);
    }
  }
}
