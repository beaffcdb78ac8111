/** The vector record of vector.c (struct vector), its buffer engine
    (init, destroy, len, cap, push) and the indexed mutators (get, first,
    last, insert, remove, pop).

    Every operation of the C interface takes a handle that may be NULL;
    here that is a `Vector?<T>`, and `null` takes the `null_vec_err`
    branches. The buffer pointer is `buf`; it is `null` exactly in the
    state a failed realloc leaves behind. The outcome of a malloc or
    realloc the C code checks is a boolean parameter (`allocOk`,
    `reallocOk`). */
module VectorCore {
  import opened VecTypes
  import opened SeqSpec

  /** Capacity of a new vector whose caller asked for 0 slots. */
  const DefaultCapacity: nat := 10

  /** The largest u64, which `length - 1` wraps to when `length` is 0. */
  const U64Max: nat := 0xFFFF_FFFF_FFFF_FFFF

  /** struct vector. Elements are values of `T` instead of `elemSize`-byte
      slots; `elemSize` is kept as the record's own metadata. */
  class Vector<T(0)> {
    var buf: array?<T>
    var length: nat
    var capacity: nat
    var elemSize: nat

    /** The record invariant every operation keeps, also after a failed
        realloc: `length <= capacity`, the capacity is never 0, and a
        buffer that is there has `capacity` slots. */
    ghost predicate Valid()
      reads this
      ensures Valid() && buf != null ==> length <= buf.Length
    {
      && length <= capacity
      && 0 < capacity
      && (buf != null ==> buf.Length == capacity)
    }

    /** The live elements, `array[0 .. length)`. */
    ghost function Contents(): (s: seq<T>)
      reads this, buf
      requires Valid() && buf != null
      ensures |s| == length
    {
      buf[..length]
    }

    /** The record and buffer mallocs of vec_init_ both succeeding. The C
        code never writes `length`; a new vector is taken to be empty, as
        its callers do. */
    constructor (elemSize: nat, capacity: nat)
      requires 0 < capacity
      ensures Valid() && buf != null && fresh(buf)
      ensures this.elemSize == elemSize && this.capacity == capacity
      ensures Contents() == []
    {
      this.buf := new T[capacity];
      this.length := 0;
      this.capacity := capacity;
      this.elemSize := elemSize;
    }
  }

  /** vec_init_ (and its copy in_vec_init): capacity `defCapa`, or 10 when
      `defCapa` is 0; AllocErr and no vector when an allocation fails. */
  method Init<T(0)>(elemSize: nat, defCapa: nat, allocOk: bool) returns (v: Vector?<T>, err: VecErr)
    ensures allocOk <==> v != null
    ensures !allocOk ==> err == AllocErr
    ensures allocOk ==> err == NoErr && fresh(v) && fresh(v.buf)
    ensures allocOk ==> v.Valid() && v.buf != null && v.Contents() == [] && v.elemSize == elemSize
    ensures allocOk ==> v.capacity == if defCapa == 0 then DefaultCapacity else defCapa
  {
    if !allocOk {
      return null, AllocErr;
    }
    v := new Vector(elemSize, if defCapa != 0 then defCapa else DefaultCapacity);
    err := NoErr;
  }

  /** The result code of vec_destroy: NullVecErr for a missing handle or a
      missing buffer, NoErr otherwise. Releasing the memory is not
      modelled. */
  method Destroy<T(0)>(v: Vector?<T>) returns (err: VecErr)
    ensures err == NoErr <==> v != null && v.buf != null
    ensures err != NoErr ==> err == NullVecErr
  {
    if v == null {
      return NullVecErr;
    }
    if v.buf == null {
      return NullVecErr;
    }
    err := NoErr;
  }

  /** vec_len: the number of live elements; 0 and NullVecErr without a
      handle. A missing buffer is not checked. */
  method Len<T(0)>(v: Vector?<T>) returns (n: nat, err: VecErr)
    requires v != null ==> v.Valid()
    ensures v == null ==> n == 0 && err == NullVecErr
    ensures v != null ==> err == NoErr && n == v.length && n <= v.capacity
    ensures v != null && v.buf != null ==> n == |v.Contents()|
  {
    if v == null {
      return 0, NullVecErr;
    }
    err := NoErr;
    n := v.length;
  }

  /** vec_cap: the number of allocated slots; 0 and NullVecErr without a
      handle. */
  method Cap<T(0)>(v: Vector?<T>) returns (n: nat, err: VecErr)
    requires v != null ==> v.Valid()
    ensures v == null ==> n == 0 && err == NullVecErr
    ensures v != null ==> err == NoErr && n == v.capacity && v.length <= n && 0 < n
    ensures v != null && v.buf != null ==> n == v.buf.Length
  {
    if v == null {
      return 0, NullVecErr;
    }
    err := NoErr;
    n := v.capacity;
  }

  /** A realloc that succeeds: a new buffer of `n` slots beginning with the
      old buffer's elements. */
  method Realloc<T(0)>(prev: array<T>, n: nat) returns (b: array<T>)
    requires prev.Length <= n
    ensures fresh(b) && b.Length == n && b[..prev.Length] == prev[..]
  {
    b := new T[n];
    forall k | 0 <= k < prev.Length {
      b[k] := prev[k];
    }
  }

  /** vec_push_ (and in_vec_push). A full vector first doubles its
      capacity; if the realloc then fails the buffer is gone (NULL), the
      doubled capacity stays and the element is not appended. Otherwise
      the element lands at index `length` and `length` grows by one. There
      is no NULL check on the handle or the buffer. */
  method Push<T(0)>(v: Vector<T>, x: T, reallocOk: bool) returns (err: VecErr)
    requires v.Valid() && v.buf != null
    modifies v, v.buf
    ensures v.Valid() && v.elemSize == old(v.elemSize)
    ensures v.capacity == if old(v.length) == old(v.capacity) then 2 * old(v.capacity) else old(v.capacity)
    ensures old(v.length) < old(v.capacity) ==> v.buf == old(v.buf)
    ensures old(v.length) < old(v.capacity) || reallocOk ==>
      err == NoErr && v.buf != null && (v.buf == old(v.buf) || fresh(v.buf)) &&
      v.Contents() == old(v.Contents()) + [x]
    ensures old(v.length) == old(v.capacity) && !reallocOk ==>
      err == ReallocErr && v.buf == null && v.length == old(v.length)
  {
    if v.length == v.capacity {
      v.capacity := 2 * v.capacity;
      if !reallocOk {
        v.buf := null;
        return ReallocErr;
      }
      v.buf := Realloc(v.buf, v.capacity);
    }
    v.buf[v.length] := x;
    v.length := v.length + 1;
    err := NoErr;
  }

  /** vec_pop_: NullVecErr without a handle or buffer, IllegalDelErr when
      empty, AllocErr when the copy cannot be allocated; otherwise hands
      back the last element and drops it, as remove at the last index
      would. */
  method Pop<T(0)>(v: Vector?<T>, allocOk: bool) returns (x: Option<T>, err: VecErr)
    requires v != null ==> v.Valid()
    modifies v
    ensures v != null ==> v.Valid() && v.buf == old(v.buf) && v.capacity == old(v.capacity) && v.elemSize == old(v.elemSize)
    ensures v == null || v.buf == null ==> x == None && err == NullVecErr
    ensures v != null && v.buf == null ==> v.length == old(v.length)
    ensures v != null && v.buf != null && (old(v.length) == 0 || !allocOk) ==>
      x == None && v.Contents() == old(v.Contents())
    ensures v != null && v.buf != null && old(v.length) == 0 ==> err == IllegalDelErr
    ensures v != null && v.buf != null && 0 < old(v.length) && !allocOk ==> err == AllocErr
    ensures v != null && v.buf != null && 0 < old(v.length) && allocOk ==>
      err == NoErr && x == Some(old(v.Contents())[old(v.length) - 1]) &&
      v.Contents() == Removed(old(v.Contents()), old(v.length) - 1)
  {
    if v == null {
      return None, NullVecErr;
    }
    if v.buf == null {
      return None, NullVecErr;
    }
    if v.length == 0 {
      return None, IllegalDelErr;
    }
    if !allocOk {
      return None, AllocErr;
    }
    v.length := v.length - 1;
    x := Some(v.buf[v.length]);
    err := NoErr;
  }

  /** vec_insert_: NullVecErr without a handle or buffer, and
      IndexOutOfBoundsErr for `index > length`, both changing nothing.
      Otherwise a full vector doubles its capacity first (a failed realloc
      leaves no buffer); then the elements from `index` on move one slot
      right and `x` is written at `index`. */
  method Insert<T(0)>(v: Vector?<T>, x: T, index: nat, reallocOk: bool) returns (err: VecErr)
    requires v != null ==> v.Valid()
    modifies v, if v == null then null else v.buf
    ensures v == null ==> err == NullVecErr
    ensures v != null ==> v.Valid() && v.elemSize == old(v.elemSize)
    ensures v != null && old(v.buf) == null ==> err == NullVecErr && unchanged(v)
    ensures v != null && old(v.buf) != null && index > old(v.length) ==>
      err == IndexOutOfBoundsErr && unchanged(v) && v.Contents() == old(v.Contents())
    ensures v != null && old(v.buf) != null && index <= old(v.length) ==>
      v.capacity == if old(v.length) == old(v.capacity) then 2 * old(v.capacity) else old(v.capacity)
    ensures v != null && old(v.buf) != null && index <= old(v.length) < old(v.capacity) ==> v.buf == old(v.buf)
    ensures v != null && old(v.buf) != null && index <= old(v.length) && old(v.length) == old(v.capacity) && !reallocOk ==>
      err == ReallocErr && v.buf == null && v.length == old(v.length)
    ensures v != null && old(v.buf) != null && index <= old(v.length) && (old(v.length) < old(v.capacity) || reallocOk) ==>
      err == NoErr && v.buf != null && (v.buf == old(v.buf) || fresh(v.buf)) &&
      v.Contents() == Inserted(old(v.Contents()), index, x)
  {
    if v == null {
      return NullVecErr;
    }
    if v.buf == null {
      return NullVecErr;
    }
    if index > v.length {
      return IndexOutOfBoundsErr;
    }
    ghost var s := v.Contents();
    if v.length == v.capacity {
      v.capacity := 2 * v.capacity;
      if !reallocOk {
        v.buf := null;
        return ReallocErr;
      }
      v.buf := Realloc(v.buf, v.capacity);
      assert v.buf[..v.length] == s;
    }
    ShiftInsert(v.buf, v.length, index, x);
    v.length := v.length + 1;
    err := NoErr;
  }

  /** The memmove and the store of vec_insert_: the `n - index` slots from
      `index` move one slot right and `x` is written at `index`. */
  method ShiftInsert<T>(a: array<T>, n: nat, index: nat, x: T)
    requires index <= n < a.Length
    modifies a
    ensures a[..n + 1] == Inserted(old(a[..n]), index, x)
  {
    ghost var s := a[..n];
    forall k | index < k <= n {
      a[k] := a[k - 1];
    }
    a[index] := x;
    assert forall k | 0 <= k < index :: a[k] == s[k];
    assert forall k | index < k <= n :: a[k] == s[k - 1];
  }

  /** The number of slots vec_remove_'s memmove moves as written:
      `length - index`, read from `[index + 1, length + 1)`. */
  function RemoveShiftAsWritten(length: nat, index: nat): (count: nat)
    requires index < length
    ensures index + 1 + count == length + 1
  {
    length - index
  }

  /** As written, the block read by vec_remove_'s memmove ends one slot past
      the live elements, so on a full vector it ends past the buffer. */
  lemma RemoveShiftAsWrittenOverreads(capacity: nat, length: nat, index: nat)
    requires index < length == capacity
    ensures index + 1 + RemoveShiftAsWritten(length, index) > capacity
  {
  }

  /** The number of slots that have to move left to close the gap left at
      `index`: exactly those after it, so the read stays inside the live
      elements. */
  function RemoveShift(length: nat, index: nat): (count: nat)
    requires index < length
    ensures index + 1 + count == length
  {
    length - index - 1
  }

  /** vec_remove_: NullVecErr without a handle or buffer, IllegalDelErr when
      empty, IndexOutOfBoundsErr for `index >= length`, AllocErr when the
      copy cannot be allocated, all changing nothing; otherwise hands back
      the element at `index` and closes the gap. The capacity is kept. */
  method Remove<T(0)>(v: Vector?<T>, index: nat, allocOk: bool) returns (x: Option<T>, err: VecErr)
    requires v != null ==> v.Valid()
    modifies v, if v == null then null else v.buf
    ensures v != null ==> v.Valid() && v.buf == old(v.buf) && v.capacity == old(v.capacity) && v.elemSize == old(v.elemSize)
    ensures v == null || v.buf == null ==> x == None && err == NullVecErr
    ensures v != null && v.buf == null ==> v.length == old(v.length)
    ensures v != null && v.buf != null && (old(v.length) <= index || !allocOk) ==>
      x == None && v.Contents() == old(v.Contents())
    ensures v != null && v.buf != null && old(v.length) == 0 ==> err == IllegalDelErr
    ensures v != null && v.buf != null && 0 < old(v.length) <= index ==> err == IndexOutOfBoundsErr
    ensures v != null && v.buf != null && index < old(v.length) && !allocOk ==> err == AllocErr
    ensures v != null && v.buf != null && index < old(v.length) && allocOk ==>
      err == NoErr && x == Some(old(v.Contents())[index]) &&
      v.Contents() == Removed(old(v.Contents()), index)
  {
    if v == null {
      return None, NullVecErr;
    }
    if v.buf == null {
      return None, NullVecErr;
    }
    if v.length == 0 {
      return None, IllegalDelErr;
    }
    if index >= v.length {
      return None, IndexOutOfBoundsErr;
    }
    if !allocOk {
      return None, AllocErr;
    }
    x := Some(v.buf[index]);
    var count := RemoveShift(v.length, index);
    // memmove of the `count` slots after `index` one slot left
    forall k | index <= k < index + count {
      v.buf[k] := v.buf[k + 1];
    }
    v.length := v.length - 1;
    err := NoErr;
  }

  /** vec_get_ (and in_vec_get), checking in this order: a missing handle or
      buffer (NullVecErr), an empty vector (IllegalAccessErr), an index
      past the end (IndexOutOfBoundsErr), the copy's allocation
      (AllocErr); otherwise a copy of the element at `index`. */
  method Get<T(0)>(v: Vector?<T>, index: nat, allocOk: bool) returns (x: Option<T>, err: VecErr)
    requires v != null ==> v.Valid()
    ensures v == null || v.buf == null ==> x == None && err == NullVecErr
    ensures v != null && v.buf != null && v.length == 0 ==> x == None && err == IllegalAccessErr
    ensures v != null && v.buf != null && 0 < v.length <= index ==> x == None && err == IndexOutOfBoundsErr
    ensures v != null && v.buf != null && index < v.length && !allocOk ==> x == None && err == AllocErr
    ensures v != null && v.buf != null && index < v.length && allocOk ==>
      x == Some(v.Contents()[index]) && err == NoErr
  {
    if v == null {
      return None, NullVecErr;
    }
    if v.buf == null {
      return None, NullVecErr;
    }
    if v.length == 0 {
      return None, IllegalAccessErr;
    }
    if index >= v.length {
      return None, IndexOutOfBoundsErr;
    }
    if !allocOk {
      return None, AllocErr;
    }
    x := Some(v.buf[index]);
    err := NoErr;
  }

  /** vec_first_: get at index 0; IllegalAccessErr on an empty vector. */
  method First<T(0)>(v: Vector?<T>, allocOk: bool) returns (x: Option<T>, err: VecErr)
    requires v != null ==> v.Valid()
    ensures v == null || v.buf == null ==> x == None && err == NullVecErr
    ensures v != null && v.buf != null && v.length == 0 ==> x == None && err == IllegalAccessErr
    ensures v != null && v.buf != null && 0 < v.length && !allocOk ==> x == None && err == AllocErr
    ensures v != null && v.buf != null && 0 < v.length && allocOk ==>
      x == Some(v.Contents()[0]) && err == NoErr
  {
    if v == null || v.buf == null {
      return None, NullVecErr;
    }
    x, err := Get(v, 0, allocOk);
  }

  /** vec_last_: get at index `length - 1`, which wraps to the largest u64
      on an empty vector; the emptiness check inside get answers
      IllegalAccessErr before that index is looked at. */
  method Last<T(0)>(v: Vector?<T>, allocOk: bool) returns (x: Option<T>, err: VecErr)
    requires v != null ==> v.Valid()
    ensures v == null || v.buf == null ==> x == None && err == NullVecErr
    ensures v != null && v.buf != null && v.length == 0 ==> x == None && err == IllegalAccessErr
    ensures v != null && v.buf != null && 0 < v.length && !allocOk ==> x == None && err == AllocErr
    ensures v != null && v.buf != null && 0 < v.length && allocOk ==>
      x == Some(v.Contents()[v.length - 1]) && err == NoErr
  {
    if v == null || v.buf == null {
      return None, NullVecErr;
    }
    x, err := Get(v, if v.length == 0 then U64Max else v.length - 1, allocOk);
  }
}
