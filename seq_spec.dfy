/** Value-level definitions of what the vector operations do to the live
    contents `array[0 .. length)`, and the facts relating them. */
module SeqSpec {

  /** `s` with `x` placed at position `i`, the elements from `i` on moved
      one place right (vec_insert_). */
  function Inserted<T>(s: seq<T>, i: nat, x: T): (r: seq<T>)
    requires i <= |s|
    ensures |r| == |s| + 1
    ensures r[i] == x
    ensures forall k :: 0 <= k < i ==> r[k] == s[k]
    ensures forall k :: i < k < |r| ==> r[k] == s[k - 1]
  {
    s[..i] + [x] + s[i..]
  }

  /** `s` without position `i`, the elements after it moved one place left
      (vec_remove_). */
  function Removed<T>(s: seq<T>, i: nat): (r: seq<T>)
    requires i < |s|
    ensures |r| == |s| - 1
    ensures forall k :: 0 <= k < i ==> r[k] == s[k]
    ensures forall k :: i <= k < |r| ==> r[k] == s[k + 1]
  {
    s[..i] + s[i + 1..]
  }

  /** Removing what was just inserted gives the original contents back. */
  lemma InsertThenRemove<T>(s: seq<T>, i: nat, x: T)
    requires i <= |s|
    ensures Removed(Inserted(s, i, x), i) == s
  {
    var r := Removed(Inserted(s, i, x), i);
    assert forall k :: 0 <= k < |s| ==> r[k] == s[k];
  }

  /** Putting a removed element back where it was restores the contents. */
  lemma RemoveThenInsert<T>(s: seq<T>, i: nat)
    requires i < |s|
    ensures Inserted(Removed(s, i), i, s[i]) == s
  {
    var r := Inserted(Removed(s, i), i, s[i]);
    assert forall k :: 0 <= k < |s| ==> r[k] == s[k];
  }

  /** Push is insertion at the end, and pop (removal of the last element)
      undoes it, handing back the pushed value. */
  lemma PushPopDuality<T>(s: seq<T>, x: T)
    ensures Inserted(s, |s|, x) == s + [x]
    ensures (s + [x])[|s|] == x && Removed(s + [x], |s|) == s
  {
    assert Removed(s + [x], |s|) == (s + [x])[..|s|];
  }

  /** `s` in reverse index order. */
  function Reversed<T>(s: seq<T>): (r: seq<T>)
    ensures |r| == |s|
  {
    if s == [] then [] else Reversed(s[1..]) + [s[0]]
  }

  /** The k-th element of the reversal is the k-th element from the end. */
  lemma {:induction false} ReversedAt<T>(s: seq<T>, k: nat)
    requires k < |s|
    ensures Reversed(s)[k] == s[|s| - 1 - k]
  {
    if k < |s| - 1 {
      ReversedAt(s[1..], k);
    }
  }

  /** Reversing twice gives back the original order. */
  lemma {:induction false} ReversedInvolution<T>(s: seq<T>)
    ensures Reversed(Reversed(s)) == s
  {
    var r := Reversed(s);
    forall k | 0 <= k < |s|
      ensures Reversed(r)[k] == s[k]
    {
      ReversedAt(r, k);
      ReversedAt(s, |s| - 1 - k);
    }
  }

  /** Reversing a range that starts one slot earlier appends that slot's
      element at the end. */
  lemma ReversedExtendLeft<T>(s: seq<T>, i: nat, j: nat)
    requires i < j <= |s|
    ensures Reversed(s[i..j]) == Reversed(s[i + 1..j]) + [s[i]]
  {
    assert s[i..j][1..] == s[i + 1..j];
  }

  /** The elements vec_subvec copies: `s[b .. e)` when `b <= e`, and
      `s[b], s[b - 1], ..., s[e]` (inclusive of `e`) when `b > e`. */
  function Slice<T>(s: seq<T>, b: nat, e: nat): (r: seq<T>)
    requires b < |s| && e <= |s|
    ensures |r| == if b <= e then e - b else b - e + 1
  {
    if b <= e then s[b..e] else Reversed(s[e..b + 1])
  }

  /** Element `k` of a slice: counted up from `b` in the forward case and
      down from `b` in the descending case. */
  lemma SliceAt<T>(s: seq<T>, b: nat, e: nat, k: nat)
    requires b < |s| && e <= |s|
    requires k < |Slice(s, b, e)|
    ensures b <= e ==> b + k < e && Slice(s, b, e)[k] == s[b + k]
    ensures b > e ==> e <= b - k && Slice(s, b, e)[k] == s[b - k]
  {
    if b > e {
      ReversedAt(s[e..b + 1], k);
    }
  }

  /** A descending slice from the last element down to 0 is the reversal
      of the whole sequence, and a forward slice over everything is the
      sequence itself. */
  lemma SliceWhole<T>(s: seq<T>)
    requires s != []
    ensures Slice(s, 0, |s|) == s
    ensures |s| > 1 ==> Slice(s, |s| - 1, 0) == Reversed(s)
  {
    assert s[0..|s|] == s;
  }

  /** `f` applied to every element, in order (vec_map_). */
  function MapSeq<T, U>(s: seq<T>, f: T -> U): (r: seq<U>)
    ensures |r| == |s|
    ensures forall k :: 0 <= k < |s| ==> r[k] == f(s[k])
  {
    if s == [] then [] else [f(s[0])] + MapSeq(s[1..], f)
  }
}
