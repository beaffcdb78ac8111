/** The static quick_sort of vector.c: an in-place quick sort of the
    segment `a[lo .. lo + n)` with the last element as pivot and Lomuto
    partitioning. The segment base `lo` stands for the `dest` pointer the
    C code advances when it recurses into the right part. */
module QuickSort {
  import opened VecTypes
  import opened Ordering

  /** `s` and `t` agree before `lo` and from `hi` on. */
  ghost predicate SameOutside<T>(s: seq<T>, t: seq<T>, lo: nat, hi: nat) {
    && |s| == |t| && lo <= hi <= |s|
    && forall k :: 0 <= k < |s| && (k < lo || hi <= k) ==> s[k] == t[k]
  }

  /** Agreeing outside `[lo, hi)` is transitive and survives widening the
      range. */
  lemma SameOutsideTrans<T>(s: seq<T>, t: seq<T>, u: seq<T>, lo: nat, hi: nat, lo': nat, hi': nat)
    requires SameOutside(s, t, lo, hi) && SameOutside(t, u, lo', hi')
    requires lo' <= lo && hi <= hi'
    ensures SameOutside(s, u, lo', hi')
  {
  }

  /** A sequence's multiset is the sum of those of its three parts around
      `[lo, hi)`. */
  lemma ThreeParts<T>(s: seq<T>, lo: nat, hi: nat)
    requires lo <= hi <= |s|
    ensures multiset(s) == multiset(s[..lo]) + multiset(s[lo..hi]) + multiset(s[hi..])
  {
    assert s == s[..lo] + s[lo..hi] + s[hi..];
  }

  /** Sequences agreeing outside `[lo, hi)` share the parts before and
      after it. */
  lemma SameOutsideParts<T>(s: seq<T>, t: seq<T>, lo: nat, hi: nat)
    requires SameOutside(s, t, lo, hi)
    ensures s[..lo] == t[..lo] && s[hi..] == t[hi..]
  {
    assert forall k :: 0 <= k < lo ==> s[..lo][k] == t[..lo][k];
    assert forall k :: 0 <= k < |s| - hi ==> s[hi..][k] == t[hi..][k];
  }

  /** A rearrangement of a whole sequence that leaves everything outside
      `[lo, hi)` in place rearranges `[lo, hi)`. */
  lemma SegmentPermutation<T>(s: seq<T>, t: seq<T>, lo: nat, hi: nat)
    requires SameOutside(s, t, lo, hi) && multiset(s) == multiset(t)
    ensures multiset(s[lo..hi]) == multiset(t[lo..hi])
  {
    SameOutsideParts(s, t, lo, hi);
    var before, after := multiset(s[..lo]), multiset(s[hi..]);
    ThreeParts(s, lo, hi);
    ThreeParts(t, lo, hi);
    assert multiset(s[lo..hi]) == multiset(s) - before - after;
    assert multiset(t[lo..hi]) == multiset(t) - before - after;
  }

  /** Exchanging two positions of a sequence keeps its multiset. */
  lemma SwappedSamePermutation<T>(s: seq<T>, i: nat, j: nat)
    requires i < |s| && j < |s|
    ensures multiset(s[i := s[j]][j := s[i]]) == multiset(s)
  {
    if i != j {
      var t := s[i := s[j]];
      assert multiset(t) == multiset(s) - multiset{s[i]} + multiset{s[j]};
      assert t[j] == s[j];
    }
  }

  /** Exchanges `a[x]` and `a[y]`, both inside the segment `[lo, hi)`. */
  method Swap<T>(a: array<T>, lo: nat, hi: nat, x: nat, y: nat)
    requires lo <= x < hi && lo <= y < hi && hi <= a.Length
    modifies a
    ensures a[x] == old(a[y]) && a[y] == old(a[x])
    ensures forall k :: 0 <= k < a.Length && k != x && k != y ==> a[k] == old(a[k])
    ensures multiset(a[..]) == multiset(old(a[..]))
  {
    ghost var before := a[..];
    ghost var swapped := before[x := before[y]][y := before[x]];
    SwappedSamePermutation(before, x, y);
    var t := a[x];
    a[x] := a[y];
    a[y] := t;
    assert a[..] == swapped;
  }

  /** One pass of the scanning loop at offset `j`: the element there joins
      the prefix of elements comparing `<= 0` to the pivot (by a swap with
      the first element comparing `sup`), or is left where it is. */
  method ScanStep<T>(a: array<T>, lo: nat, n: nat, cmp: (T, T) -> CmpState, pivot: T, i: nat, j: nat) returns (i': nat)
    requires i <= j < n - 1 && lo + n <= a.Length
    requires a[lo + n - 1] == pivot
    requires forall k :: lo <= k < lo + i ==> cmp(a[k], pivot) != Sup
    requires forall k :: lo + i <= k < lo + j ==> cmp(a[k], pivot) == Sup
    modifies a
    ensures i' <= j + 1
    ensures a[lo + n - 1] == pivot
    ensures forall k :: lo <= k < lo + i' ==> cmp(a[k], pivot) != Sup
    ensures forall k :: lo + i' <= k < lo + j + 1 ==> cmp(a[k], pivot) == Sup
    ensures SameOutside(a[..], old(a[..]), lo, lo + n)
    ensures multiset(a[..]) == multiset(old(a[..]))
  {
    i' := i;
    if cmp(a[lo + j], pivot).Value() <= 0 {
      if i != j {
        Swap(a, lo, lo + n, lo + i, lo + j);
      }
      i' := i + 1;
    }
  }

  /** The scanning loop of a Lomuto partition: with the pivot kept in the
      last slot, it moves every element comparing `<= 0` to the pivot into
      the prefix `[lo, lo + i)`, leaving `[lo + i, lo + n - 1)` to the
      elements comparing `sup`. */
  method LomutoScan<T>(a: array<T>, lo: nat, n: nat, cmp: (T, T) -> CmpState) returns (i: nat)
    requires 2 <= n && lo + n <= a.Length
    modifies a
    ensures i <= n - 1
    ensures SameOutside(a[..], old(a[..]), lo, lo + n)
    ensures multiset(a[..]) == multiset(old(a[..]))
    ensures a[lo + n - 1] == old(a[lo + n - 1])
    ensures forall k :: lo <= k < lo + i ==> cmp(a[k], a[lo + n - 1]) != Sup
    ensures forall k :: lo + i <= k < lo + n - 1 ==> cmp(a[k], a[lo + n - 1]) == Sup
  {
    var pivot := a[lo + n - 1];
    i := 0;
    var j := 0;
    while j < n - 1
      invariant 0 <= i <= j <= n - 1
      invariant a[lo + n - 1] == pivot
      invariant forall k :: lo <= k < lo + i ==> cmp(a[k], pivot) != Sup
      invariant forall k :: lo + i <= k < lo + j ==> cmp(a[k], pivot) == Sup
      invariant SameOutside(a[..], old(a[..]), lo, lo + n)
      invariant multiset(a[..]) == multiset(old(a[..]))
    {
      ghost var pre := a[..];
      i := ScanStep(a, lo, n, cmp, pivot, i, j);
      SameOutsideTrans(a[..], pre, old(a[..]), lo, lo + n, lo, lo + n);
      j := j + 1;
    }
  }

  /** One Lomuto partition of `a[lo .. lo + n)` around its last element:
      after the scan the pivot is swapped to offset `i`, so everything
      before it compares `<= 0` to it and everything after it `sup`. */
  method Partition<T>(a: array<T>, lo: nat, n: nat, cmp: (T, T) -> CmpState) returns (i: nat)
    requires 2 <= n && lo + n <= a.Length
    modifies a
    ensures i < n
    ensures SameOutside(a[..], old(a[..]), lo, lo + n)
    ensures multiset(a[..]) == multiset(old(a[..]))
    ensures a[lo + i] == old(a[lo + n - 1])
    ensures AllNotAbove(a[lo..lo + i], a[lo + i], cmp)
    ensures AllAbove(a[lo + i + 1..lo + n], a[lo + i], cmp)
  {
    i := LomutoScan(a, lo, n, cmp);
    ghost var scanned, pivot := a[..], a[lo + n - 1];
    assert pivot == old(a[lo + n - 1]);
    if i != n - 1 {
      Swap(a, lo, lo + n, lo + i, lo + n - 1);
    }
    assert a[lo + i] == pivot;
    ghost var before, after := a[lo..lo + i], a[lo + i + 1..lo + n];
    assert AllNotAbove(before, pivot, cmp) by {
      forall k | 0 <= k < |before|
        ensures cmp(before[k], pivot) != Sup
      {
        assert before[k] == scanned[lo + k];
      }
    }
    assert AllAbove(after, pivot, cmp) by {
      forall k | 0 <= k < |after|
        ensures cmp(after[k], pivot) == Sup
      {
        if lo + i + 1 + k == lo + n - 1 {
          assert after[k] == scanned[lo + i];
        } else {
          assert after[k] == scanned[lo + i + 1 + k];
        }
      }
    }
  }

  /** The step that closes a quick sort: rearranging each side of a
      partition keeps the whole a rearrangement and, when both sides come
      out sorted, makes the whole sorted. */
  lemma JoinSortedParts<T(!new)>(left: seq<T>, p: T, right: seq<T>, left': seq<T>, right': seq<T>, cmp: (T, T) -> CmpState)
    requires multiset(left') == multiset(left) && multiset(right') == multiset(right)
    requires AllNotAbove(left, p, cmp) && AllAbove(right, p, cmp)
    requires Antisymmetric(cmp) ==> SortedBy(left', cmp) && SortedBy(right', cmp)
    ensures multiset(left' + [p] + right') == multiset(left + [p] + right)
    ensures Antisymmetric(cmp) ==> SortedBy(left' + [p] + right', cmp)
  {
    PermutationKeepsBounds(left, left', p, cmp);
    PermutationKeepsBounds(right, right', p, cmp);
    if Antisymmetric(cmp) {
      SortedAroundPivot(left', p, right', cmp);
    }
  }

  /** The contents half of one quick sort call, on snapshots of the
      array: `s1` after partitioning the segment `[lo, lo + n)` around
      offset `i`, `s2` after sorting the part before the pivot, `s3` after
      sorting the part after it. The segment of `s3` is then a sorted
      rearrangement of the segment of `s1`. */
  lemma QuickSortJoin<T(!new)>(s1: seq<T>, s2: seq<T>, s3: seq<T>, lo: nat, n: nat, i: nat, cmp: (T, T) -> CmpState)
    requires i < n && lo + n <= |s1|
    requires AllNotAbove(s1[lo..lo + i], s1[lo + i], cmp) && AllAbove(s1[lo + i + 1..lo + n], s1[lo + i], cmp)
    requires SameOutside(s2, s1, lo, lo + i) && multiset(s2[lo..lo + i]) == multiset(s1[lo..lo + i])
    requires Antisymmetric(cmp) ==> SortedBy(s2[lo..lo + i], cmp)
    requires SameOutside(s3, s2, lo + i + 1, lo + n) && multiset(s3[lo + i + 1..lo + n]) == multiset(s2[lo + i + 1..lo + n])
    requires Antisymmetric(cmp) ==> SortedBy(s3[lo + i + 1..lo + n], cmp)
    ensures multiset(s3[lo..lo + n]) == multiset(s1[lo..lo + n])
    ensures Antisymmetric(cmp) ==> SortedBy(s3[lo..lo + n], cmp)
  {
    var p, left, right := s1[lo + i], s1[lo..lo + i], s1[lo + i + 1..lo + n];
    assert s1[lo..lo + n] == left + [p] + right;
    assert s2[lo + i + 1..lo + n] == right;
    var left', right' := s2[lo..lo + i], s3[lo + i + 1..lo + n];
    assert s3[lo..lo + i] == left';
    assert s3[lo..lo + n] == left' + [p] + right';
    JoinSortedParts(left, p, right, left', right', cmp);
  }

  /** QuickSortJoin stated with whole-sequence rearrangements, as the
      recursive calls deliver them: the whole of `s3` is then a
      rearrangement of `s1`, and its segment is sorted. */
  lemma QuickSortStep<T(!new)>(s1: seq<T>, s2: seq<T>, s3: seq<T>, lo: nat, n: nat, i: nat, cmp: (T, T) -> CmpState)
    requires i < n && lo + n <= |s1|
    requires AllNotAbove(s1[lo..lo + i], s1[lo + i], cmp) && AllAbove(s1[lo + i + 1..lo + n], s1[lo + i], cmp)
    requires SameOutside(s2, s1, lo, lo + i) && multiset(s2) == multiset(s1)
    requires Antisymmetric(cmp) ==> SortedBy(s2[lo..lo + i], cmp)
    requires SameOutside(s3, s2, lo + i + 1, lo + n) && multiset(s3) == multiset(s2)
    requires Antisymmetric(cmp) ==> SortedBy(s3[lo + i + 1..lo + n], cmp)
    ensures SameOutside(s3, s1, lo, lo + n) && multiset(s3) == multiset(s1)
    ensures Antisymmetric(cmp) ==> SortedBy(s3[lo..lo + n], cmp)
  {
    SegmentPermutation(s2, s1, lo, lo + i);
    SegmentPermutation(s3, s2, lo + i + 1, lo + n);
    QuickSortJoin(s1, s2, s3, lo, n, i, cmp);
    SameOutsideTrans(s3, s2, s1, lo + i + 1, lo + n, lo, lo + n);
  }

  /** Sorts `a[lo .. lo + n)` in place: the array becomes a rearrangement
      of itself, nothing outside the segment changes, and for a comparator
      that flips under argument exchange no adjacent pair of the segment
      compares `sup`. */
  method QuickSort<T(!new)>(a: array<T>, lo: nat, n: nat, cmp: (T, T) -> CmpState)
    requires lo + n <= a.Length
    modifies a
    ensures SameOutside(a[..], old(a[..]), lo, lo + n)
    ensures multiset(a[..]) == multiset(old(a[..]))
    ensures Antisymmetric(cmp) ==> SortedBy(a[lo..lo + n], cmp)
    decreases n
  {
    if n < 2 {
      return;
    }
    var i := Partition(a, lo, n, cmp);
    ghost var s1 := a[..];
    QuickSort(a, lo, i, cmp);
    ghost var s2 := a[..];
    QuickSort(a, lo + i + 1, n - i - 1, cmp);
    QuickSortStep(s1, s2, a[..], lo, n, i, cmp);
    SameOutsideTrans(a[..], s1, old(a[..]), lo, lo + n, lo, lo + n);
  }
}
