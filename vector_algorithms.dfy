/** The derived algorithms of vector.c: map, reverse, subvec and sort. Each
    builds a new vector with in_vec_init, in_vec_get and in_vec_push
    (here Init, Get and Push) and leaves the source untouched; the source
    is not in any frame, so it cannot change. The allocation of the output
    vector may fail, and so may the one realloc these algorithms can reach,
    on the last push of the descending subvec branches; the element copies
    made by get are taken to succeed. */
module VectorAlgorithms {
  import opened VecTypes
  import opened SeqSpec
  import opened Ordering
  import opened VectorCore
  import QuickSort

  /** vec_map_: a new vector of `outElemSize`-wide elements holding
      `f(source[i])` at each index `i`, sized for the source's length. */
  method Map<T(0), U(0)>(outElemSize: nat, v: Vector?<T>, f: T -> U, allocOk: bool) returns (out: Vector?<U>, err: VecErr)
    requires v != null ==> v.Valid()
    ensures v == null || v.buf == null ==> out == null && err == NullVecErr
    ensures v != null && v.buf != null && !allocOk ==> out == null && err == AllocErr
    ensures v != null && v.buf != null && allocOk ==>
      err == NoErr && out != null && fresh(out) && fresh(out.buf) && out.Valid() && out.buf != null &&
      out.elemSize == outElemSize && out.capacity == (if v.length == 0 then DefaultCapacity else v.length) &&
      out.Contents() == MapSeq(v.Contents(), f)
  {
    if v == null || v.buf == null {
      return null, NullVecErr;
    }
    out, err := Init(outElemSize, v.length, allocOk);
    if err != NoErr {
      return null, err;
    }
    ghost var s := v.Contents();
    var i := 0;
    while i < v.length
      invariant 0 <= i <= v.length
      invariant out != null && fresh(out) && fresh(out.buf)
      invariant out.Valid() && out.buf != null && out.elemSize == outElemSize
      invariant out.capacity == if v.length == 0 then DefaultCapacity else v.length
      invariant out.Contents() == MapSeq(s[..i], f)
    {
      var x;
      x, err := Get(v, i, true);
      err := Push(out, f(x.value), true);
      assert s[..i + 1] == s[..i] + [s[i]];
      i := i + 1;
    }
    assert s[..i] == s;
    err := NoErr;
  }

  /** vec_reverse: a new vector holding the source's elements in reverse
      index order; an empty source gives an empty vector. */
  method Reverse<T(0)>(v: Vector?<T>, allocOk: bool) returns (out: Vector?<T>, err: VecErr)
    requires v != null ==> v.Valid()
    ensures v == null || v.buf == null ==> out == null && err == NullVecErr
    ensures v != null && v.buf != null && !allocOk ==> out == null && err == AllocErr
    ensures v != null && v.buf != null && allocOk ==>
      err == NoErr && out != null && fresh(out) && fresh(out.buf) && out.Valid() && out.buf != null &&
      out.elemSize == v.elemSize && out.capacity == (if v.length == 0 then DefaultCapacity else v.length) &&
      out.Contents() == Reversed(v.Contents())
  {
    if v == null || v.buf == null {
      return null, NullVecErr;
    }
    if v.length == 0 {
      out, err := Init(v.elemSize, v.length, allocOk);
      return;
    }
    out, err := Init(v.elemSize, v.length, allocOk);
    if err != NoErr {
      return null, err;
    }
    ghost var s := v.Contents();
    var i := v.length - 1;
    var x;
    while i > 0
      invariant 0 <= i < v.length
      invariant out != null && fresh(out) && fresh(out.buf)
      invariant out.Valid() && out.buf != null && out.elemSize == v.elemSize
      invariant out.capacity == v.length
      invariant out.Contents() == Reversed(s[i + 1..])
    {
      x, err := Get(v, i, true);
      err := Push(out, x.value, true);
      ReversedExtendLeft(s, i, |s|);
      i := i - 1;
    }
    x, err := Get(v, 0, true);
    err := Push(out, x.value, true);
    ReversedExtendLeft(s, 0, |s|);
    assert s[0..] == s;
    err := NoErr;
  }

  /** The precondition shared by the three copy loops of vec_subvec: `out`
      is a fresh, empty vector distinct from the source `v`. */
  ghost predicate CopyTarget<T(0)>(v: Vector<T>, out: Vector<T>)
    reads v, out
  {
    && v.Valid() && v.buf != null
    && out.Valid() && out.buf != null && out.length == 0
    && out != v && out.buf != v.buf
  }

  /** The `special_reversed_subvec` block of vec_subvec: pushes `source[b]`
      down to `source[1]`, then `source[0]`. The output starts with `b`
      slots, so only the last push reallocates; when that realloc fails the
      output is left without a buffer and with its capacity doubled. */
  method CopyDescendingToZero<T(0)>(v: Vector<T>, out: Vector<T>, b: nat, reallocOk: bool) returns (err: VecErr)
    requires CopyTarget(v, out) && 0 < b < v.length && out.capacity == b
    modifies out, out.buf
    ensures out.Valid() && out.elemSize == old(out.elemSize) && out.capacity == 2 * b
    ensures out.buf == old(out.buf) || out.buf == null || fresh(out.buf)
    ensures reallocOk ==> err == NoErr && out.buf != null && out.Contents() == Reversed(v.Contents()[0..b + 1])
    ensures !reallocOk ==> err == ReallocErr && out.buf == null && out.length == b
  {
    ghost var s := v.Contents();
    var x;
    var i := b;
    while i > 0
      invariant 0 <= i <= b
      invariant out.Valid() && out.buf != null && out.elemSize == old(out.elemSize)
      invariant out.buf == old(out.buf) || fresh(out.buf)
      invariant out.capacity == b
      invariant out.Contents() == Reversed(s[i + 1..b + 1])
    {
      x, err := Get(v, i, true);
      err := Push(out, x.value, true);
      ReversedExtendLeft(s, i, b + 1);
      i := i - 1;
    }
    x, err := Get(v, 0, true);
    err := Push(out, x.value, reallocOk);
    if reallocOk {
      ReversedExtendLeft(s, 0, b + 1);
    }
  }

  /** The `reversed_subvec` block of vec_subvec: pushes `source[b]` down to
      `source[e]` inclusive, stopping at the first push that fails. The
      output starts with `b - e` slots, so only the last push reallocates;
      when that realloc fails the output is left without a buffer and with
      its capacity doubled. */
  method CopyDescending<T(0)>(v: Vector<T>, out: Vector<T>, b: nat, e: nat, reallocOk: bool) returns (err: VecErr)
    requires CopyTarget(v, out) && 0 < e < b < v.length && out.capacity == b - e
    modifies out, out.buf
    ensures out.Valid() && out.elemSize == old(out.elemSize) && out.capacity == 2 * (b - e)
    ensures out.buf == old(out.buf) || out.buf == null || fresh(out.buf)
    ensures reallocOk ==> err == NoErr && out.buf != null && out.Contents() == Reversed(v.Contents()[e..b + 1])
    ensures !reallocOk ==> err == ReallocErr && out.buf == null && out.length == b - e
  {
    ghost var s := v.Contents();
    var x;
    err := NoErr;
    var i: int := b;
    while i >= e
      invariant e - 1 <= i <= b
      invariant out.Valid() && out.buf != null && out.elemSize == old(out.elemSize)
      invariant out.buf == old(out.buf) || fresh(out.buf)
      invariant out.capacity == if i >= e then b - e else 2 * (b - e)
      invariant out.Contents() == Reversed(s[i + 1..b + 1])
      invariant i < e ==> reallocOk
      invariant err == NoErr
    {
      x, err := Get(v, i, true);
      err := Push(out, x.value, reallocOk);
      if err != NoErr {
        return;
      }
      ReversedExtendLeft(s, i, b + 1);
      i := i - 1;
    }
  }

  /** The `actual_subvec` block of vec_subvec: pushes `source[b .. e)` in
      index order into an output with room for all of them. */
  method CopyForward<T(0)>(v: Vector<T>, out: Vector<T>, b: nat, e: nat) returns (err: VecErr)
    requires CopyTarget(v, out) && b <= e <= v.length && e - b <= out.capacity
    modifies out, out.buf
    ensures out.Valid() && out.buf != null && out.elemSize == old(out.elemSize)
    ensures out.buf == old(out.buf) || fresh(out.buf)
    ensures err == NoErr && out.capacity == old(out.capacity)
    ensures out.Contents() == v.Contents()[b..e]
  {
    ghost var s := v.Contents();
    var x;
    err := NoErr;
    var i := b;
    while i < e
      invariant b <= i <= e
      invariant out.Valid() && out.buf != null && out.elemSize == old(out.elemSize)
      invariant out.buf == old(out.buf) || fresh(out.buf)
      invariant out.capacity == old(out.capacity)
      invariant out.Contents() == s[b..i]
      invariant err == NoErr
    {
      x, err := Get(v, i, true);
      assert out.length == i - b < out.capacity;
      err := Push(out, x.value, true);
      assert s[b..i + 1] == s[b..i] + [s[i]];
      i := i + 1;
    }
  }

  /** vec_subvec: IllegalAccessErr unless `e <= length` and `b < length`.
      Otherwise a new vector: `source[b .. e)` when `b <= e` (empty when
      `b == e`), and `source[b], source[b - 1], ..., source[e]` when
      `b > e`. The output is created with `|e - b|` slots (10 for 0); the
      descending copy pushes one element more than that and so doubles
      the capacity on its last push. If that realloc fails, the output is
      destroyed, and destroying a vector without a buffer answers
      NullVecErr. */
  method Subvec<T(0)>(v: Vector?<T>, b: nat, e: nat, allocOk: bool, reallocOk: bool) returns (out: Vector?<T>, err: VecErr)
    requires v != null ==> v.Valid()
    ensures v == null || v.buf == null ==> out == null && err == NullVecErr
    ensures v != null && v.buf != null && (e > v.length || b >= v.length) ==> out == null && err == IllegalAccessErr
    ensures v != null && v.buf != null && e <= v.length && b < v.length && !allocOk ==> out == null && err == AllocErr
    ensures v != null && v.buf != null && e <= v.length && b < v.length && allocOk && b > e && !reallocOk ==>
      out == null && err == NullVecErr
    ensures v != null && v.buf != null && e <= v.length && b < v.length && allocOk && (b <= e || reallocOk) ==>
      err == NoErr && out != null && fresh(out) && fresh(out.buf) && out.Valid() && out.buf != null &&
      out.elemSize == v.elemSize &&
      out.capacity == (if b > e then 2 * (b - e) else if b == e then DefaultCapacity else e - b) &&
      out.Contents() == Slice(v.Contents(), b, e)
  {
    if v == null || v.buf == null {
      return null, NullVecErr;
    }
    if e > v.length || b >= v.length {
      return null, IllegalAccessErr;
    }
    out, err := Init(v.elemSize, if e > b then e - b else b - e, allocOk);
    if err != NoErr {
      return null, err;
    }
    if b > e && e == 0 {
      err := CopyDescendingToZero(v, out, b, reallocOk);
    } else if b > e {
      err := CopyDescending(v, out, b, e, reallocOk);
    } else {
      err := CopyForward(v, out, b, e);
    }
    if err != NoErr {
      err := Destroy(out);
      return null, err;
    }
  }

  /** vec_sort_: a new vector with the source's elements rearranged by the
      quick sort. For a comparator that flips under argument exchange, no
      adjacent pair of the result compares `sup`. */
  method Sort<T(0, !new)>(v: Vector?<T>, cmp: (T, T) -> CmpState, allocOk: bool) returns (out: Vector?<T>, err: VecErr)
    requires v != null ==> v.Valid()
    ensures v == null || v.buf == null ==> out == null && err == NullVecErr
    ensures v != null && v.buf != null && !allocOk ==> out == null && err == AllocErr
    ensures v != null && v.buf != null && allocOk ==>
      err == NoErr && out != null && fresh(out) && fresh(out.buf) && out.Valid() && out.buf != null &&
      out.elemSize == v.elemSize && out.capacity == (if v.length == 0 then DefaultCapacity else v.length) &&
      multiset(out.Contents()) == multiset(v.Contents()) &&
      (Antisymmetric(cmp) ==> SortedBy(out.Contents(), cmp))
  {
    if v == null || v.buf == null {
      return null, NullVecErr;
    }
    out, err := Init(v.elemSize, v.length, allocOk);
    if err != NoErr {
      return null, err;
    }
    if v.length == 0 {
      return;
    }
    // memcpy of the live elements; the copy fills the fresh buffer,
    // since `capacity == length` here
    var a := out.buf;
    ghost var src := v.Contents();
    forall k | 0 <= k < v.length {
      a[k] := v.buf[k];
    }
    assert a[..] == src;
    out.length := v.length;
    QuickSort.QuickSort(a, 0, a.Length, cmp);
    assert a[0..a.Length] == a[..] == out.Contents();
    assert v.Contents() == src;
    assert multiset(out.Contents()) == multiset(src);
    err := NoErr;
  }
}
