/** Lists and sets of ids: of lines, of queue entries, of slots. */
module IdLists {
  /** No id stands in the list twice. */
  ghost predicate NoDup(l: seq<nat>)
  {
    forall i, j :: 0 <= i < j < |l| ==> l[i] != l[j]
  }

  /** What is left of a queue when some of its head has been taken. */
  ghost predicate Suffix(q: seq<nat>, all: seq<nat>)
  {
    |q| <= |all| && q == all[|all| - |q|..]
  }

  lemma SuffixOfSuffix(q: seq<nat>, all: seq<nat>)
    ensures Suffix(all, all)
    ensures q != [] && Suffix(q, all) ==> Suffix(q[1..], all)
  {
  }

  /** The numbers below `n`. */
  ghost function Below(n: nat): (r: set<nat>)
    ensures |r| == n && forall b: nat :: b in r <==> b < n
  {
    if n == 0 then {} else Below(n - 1) + {n - 1}
  }

  lemma {:induction false} SubsetSize<T>(s: set<T>, t: set<T>)
    requires s <= t
    ensures |s| <= |t|
  {
    assert t == s + (t - s);
  }
}
