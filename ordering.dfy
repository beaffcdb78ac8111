/** What a comparator passed to vec_sort_ may be assumed to satisfy, and
    what "sorted" means for its output. */
module Ordering {
  import opened VecTypes

  /** Swapping the arguments flips the answer (inf <-> sup, eq stays). */
  ghost predicate Antisymmetric<T(!new)>(cmp: (T, T) -> CmpState) {
    forall x, y :: cmp(y, x) == cmp(x, y).Flip()
  }

  /** "Compares <= 0" is transitive. */
  ghost predicate Transitive<T(!new)>(cmp: (T, T) -> CmpState) {
    forall x, y, z :: cmp(x, y) != Sup && cmp(y, z) != Sup ==> cmp(x, z) != Sup
  }

  /** A comparator describing a total preorder. */
  ghost predicate TotalPreorder<T(!new)>(cmp: (T, T) -> CmpState) {
    Antisymmetric(cmp) && Transitive(cmp)
  }

  /** No adjacent pair compares `sup`. */
  ghost predicate SortedBy<T>(s: seq<T>, cmp: (T, T) -> CmpState) {
    forall i, j :: 0 <= i && j == i + 1 && j < |s| ==> cmp(s[i], s[j]) != Sup
  }

  /** No pair, adjacent or not, is out of order. */
  ghost predicate OrderedBy<T>(s: seq<T>, cmp: (T, T) -> CmpState) {
    forall i, j :: 0 <= i < j < |s| ==> cmp(s[i], s[j]) != Sup
  }

  /** Every element of `s` compares `<= 0` against `p`. */
  ghost predicate AllNotAbove<T>(s: seq<T>, p: T, cmp: (T, T) -> CmpState) {
    forall k :: 0 <= k < |s| ==> cmp(s[k], p) != Sup
  }

  /** Every element of `s` compares `sup` against `p`. */
  ghost predicate AllAbove<T>(s: seq<T>, p: T, cmp: (T, T) -> CmpState) {
    forall k :: 0 <= k < |s| ==> cmp(s[k], p) == Sup
  }

  /** For a transitive comparator, adjacent order is order of every pair. */
  lemma {:induction false} SortedIsOrdered<T(!new)>(s: seq<T>, cmp: (T, T) -> CmpState)
    requires Transitive(cmp) && SortedBy(s, cmp)
    ensures OrderedBy(s, cmp)
  {
    if |s| > 1 {
      SortedIsOrdered(s[1..], cmp);
      forall j | 1 < j < |s|
        ensures cmp(s[0], s[j]) != Sup
      {
        assert cmp(s[0], s[1]) != Sup;
        assert cmp(s[1..][0], s[1..][j - 1]) != Sup;
      }
    }
  }

  /** A rearrangement keeps a bound that held of every element. */
  lemma PermutationKeepsBounds<T>(s: seq<T>, t: seq<T>, p: T, cmp: (T, T) -> CmpState)
    requires multiset(s) == multiset(t)
    ensures AllNotAbove(s, p, cmp) ==> AllNotAbove(t, p, cmp)
    ensures AllAbove(s, p, cmp) ==> AllAbove(t, p, cmp)
  {
    forall k | 0 <= k < |t|
      ensures exists m :: 0 <= m < |s| && s[m] == t[k]
    {
      assert t[k] in multiset(t);
      assert t[k] in s;
    }
  }

  /** Two sorted runs around a pivot, everything left of it `<= 0` and
      everything right of it `sup`, form a sorted run. */
  lemma SortedAroundPivot<T(!new)>(l: seq<T>, p: T, r: seq<T>, cmp: (T, T) -> CmpState)
    requires Antisymmetric(cmp)
    requires SortedBy(l, cmp) && SortedBy(r, cmp)
    requires AllNotAbove(l, p, cmp) && AllAbove(r, p, cmp)
    ensures SortedBy(l + [p] + r, cmp)
  {
    var s := l + [p] + r;
    forall i, j | 0 <= i && j == i + 1 && j < |s|
      ensures cmp(s[i], s[j]) != Sup
    {
      if j < |l| {
        assert cmp(l[i], l[j]) != Sup;
      } else if j == |l| {
        assert cmp(l[i], p) != Sup;
      } else if i == |l| {
        assert cmp(r[0], p) == Sup;
        assert cmp(p, r[0]) == cmp(r[0], p).Flip();
      } else {
        assert cmp(r[i - |l| - 1], r[j - |l| - 1]) != Sup;
      }
    }
  }

  /** The head of a sorted run compares `<= 0` against each of its elements. */
  lemma SortedHeadIsLeast<T(!new)>(a: seq<T>, x: T, cmp: (T, T) -> CmpState)
    requires TotalPreorder(cmp) && SortedBy(a, cmp)
    requires x in multiset(a)
    ensures cmp(a[0], x) != Sup
  {
    SortedIsOrdered(a, cmp);
    var m :| 0 <= m < |a| && a[m] == x;
    if m > 0 {
      assert cmp(a[0], a[m]) != Sup;
    } else {
      assert cmp(x, x) == cmp(x, x).Flip();
    }
  }

  /** Dropping the head of a sorted run leaves a sorted run. */
  lemma SortedTail<T>(a: seq<T>, cmp: (T, T) -> CmpState)
    requires a != [] && SortedBy(a, cmp)
    ensures SortedBy(a[1..], cmp)
  {
    forall i, j | 0 <= i && j == i + 1 && j < |a| - 1
      ensures cmp(a[1..][i], a[1..][j]) != Sup
    {
      assert cmp(a[i + 1], a[j + 1]) != Sup;
    }
  }

  /** Rearrangements with the same head have rearranged tails. */
  lemma SameHeadTails<T>(a: seq<T>, b: seq<T>)
    requires a != [] && b != [] && a[0] == b[0] && multiset(a) == multiset(b)
    ensures multiset(a[1..]) == multiset(b[1..])
  {
    assert a == [a[0]] + a[1..] && b == [b[0]] + b[1..];
    assert multiset(a) == multiset{a[0]} + multiset(a[1..]);
    assert multiset(b) == multiset{b[0]} + multiset(b[1..]);
    assert multiset(a[1..]) == multiset(a) - multiset{a[0]} == multiset(b) - multiset{b[0]} == multiset(b[1..]);
  }

  /** Under a total order whose `eq` means equality, a sorted rearrangement
      is unique. */
  lemma {:induction false} SortedPermutationsEqual<T(!new)>(a: seq<T>, b: seq<T>, cmp: (T, T) -> CmpState)
    requires TotalPreorder(cmp)
    requires forall x, y :: cmp(x, y) == Eq ==> x == y
    requires SortedBy(a, cmp) && SortedBy(b, cmp)
    requires multiset(a) == multiset(b)
    ensures a == b
  {
    if a != [] {
      assert |b| == |multiset(b)| == |multiset(a)| == |a|;
      assert a[0] in multiset(a) && b[0] in multiset(b);
      SortedHeadIsLeast(a, b[0], cmp);
      SortedHeadIsLeast(b, a[0], cmp);
      assert cmp(a[0], b[0]) == cmp(b[0], a[0]).Flip();
      assert a[0] == b[0];
      SameHeadTails(a, b);
      SortedTail(a, cmp);
      SortedTail(b, cmp);
      SortedPermutationsEqual(a[1..], b[1..], cmp);
      assert a == [a[0]] + a[1..] && b == [b[0]] + b[1..];
    }
  }
}
