/** The demonstration program of test.c, a sorting example, and a
    scenario exercising the framing of insert and push, played against
    the model. Printing is replaced by reading the vectors back with len,
    cap and get. */
module Demo {
  import opened VecTypes
  import opened Ordering
  import opened VectorCore
  import opened VectorAlgorithms

  /** cmp_int of test.c: inf, eq or sup as `a` is below, equal to or above `b`. */
  function CmpInt(a: int, b: int): (r: CmpState)
    ensures r == Inf <==> a < b
    ensures r == Eq <==> a == b
    ensures r == Sup <==> a > b
  {
    if a < b then Inf else if a == b then Eq else Sup
  }

  /** div10 of test.c, over exact reals instead of floats. */
  function Div10(x: int): (r: real)
    ensures r * 10.0 == x as real
  {
    x as real / 10.0
  }

  /** cmp_int is a total order in which `eq` means equal. */
  lemma CmpIntIsTotalOrder()
    ensures TotalPreorder(CmpInt)
    ensures forall x, y :: CmpInt(x, y) == Eq ==> x == y
  {
  }

  /** test.c's vector of ints: created with capacity 0, which gives 10,
      then three pushes. */
  method DemoVector() returns (v: Vector<int>)
    ensures fresh(v) && fresh(v.buf) && v.Valid() && v.buf != null
    ensures v.Contents() == [1234, 5132, 9604] && v.capacity == 10
  {
    var w: Vector?<int>, err := Init(4, 0, true);
    v := w;
    err := Push(v, 1234, true);
    assert v.Contents() == [1234] && v.capacity == 10;
    err := Push(v, 5132, true);
    assert v.Contents() == [1234, 5132] && v.capacity == 10;
    err := Push(v, 9604, true);
  }

  /** test.c: a vector of ints created with capacity 0 gets capacity 10;
      after three pushes it holds them in order; mapping it through div10
      gives the tenths and leaves it as it was; both vectors destroy
      without error. */
  method DemoProgram() returns (len: nat, cap: nat, mapped: seq<Option<real>>, source: seq<Option<int>>, destroyed: seq<VecErr>)
    ensures len == 3 && cap == 10
    ensures mapped == [Some(123.4), Some(513.2), Some(960.4)]
    ensures source == [Some(1234), Some(5132), Some(9604)]
    ensures destroyed == [NoErr, NoErr]
  {
    var vInt := DemoVector();
    var err;
    len, err := Len(vInt);
    cap, err := Cap(vInt);
    var vFloat: Vector?<real>;
    vFloat, err := Map(4, vInt, Div10, true);
    assert vFloat.Contents() == [123.4, 513.2, 960.4];
    var m0, m1, m2, s0, s1, s2;
    m0, err := Get(vFloat, 0, true);
    m1, err := Get(vFloat, 1, true);
    m2, err := Get(vFloat, 2, true);
    s0, err := Get(vInt, 0, true);
    s1, err := Get(vInt, 1, true);
    s2, err := Get(vInt, 2, true);
    mapped, source := [m0, m1, m2], [s0, s1, s2];
    var d0 := Destroy(vFloat);
    var d1 := Destroy(vInt);
    destroyed := [d0, d1];
  }

  /** Insert at the front, then push at the back, each with a successful
      realloc if one is needed: the vector gains both elements in place,
      and a second vector with its own buffer is not touched. */
  method InsertThenPush(v: Vector<int>, w: Vector<int>)
    requires v.Valid() && v.buf != null && w.Valid() && w.buf != null
    requires w != v && w.buf != v.buf
    modifies v, v.buf
    ensures v.Valid() && v.buf != null
    ensures v.Contents() == [7] + old(v.Contents()) + [8]
    ensures w.Contents() == old(w.Contents())
  {
    var err := Insert(v, 7, 0, true);
    err := Push(v, 8, true);
  }

  /** On a vector with a free slot, insert and then push keep the very
      buffer they started with. */
  method InsertKeepsBuffer(v: Vector<int>)
    requires v.Valid() && v.buf != null && v.length + 2 <= v.capacity
    modifies v, v.buf
    ensures v.Valid() && v.buf == old(v.buf) && v.capacity == old(v.capacity)
    ensures v.Contents() == [7] + old(v.Contents()) + [8]
  {
    var err := Insert(v, 7, 0, true);
    err := Push(v, 8, true);
  }

  /** The ascending arrangement of the example is sorted under cmp_int. */
  lemma ExampleAscendingSorted()
    ensures SortedBy([-213, -34, 10, 20, 30, 2314], CmpInt)
  {
    var t := [-213, -34, 10, 20, 30, 2314];
    forall i, j | 0 <= i && j == i + 1 && j < |t|
      ensures CmpInt(t[i], t[j]) != Sup
    {
      assert t[i] < t[j];
    }
  }

  /** The ascending arrangement holds the example's elements. */
  lemma ExampleSameElements()
    ensures multiset([-213, -34, 10, 20, 30, 2314]) == multiset([10, 20, 30, 2314, -213, -34])
  {
    var s, t := [-213, -34, 10, 20, 30, 2314], [10, 20, 30, 2314, -213, -34];
    var neg, pos := [-213, -34], [10, 20, 30, 2314];
    assert s == neg + pos && t == pos + neg;
    assert multiset(s) == multiset(neg) + multiset(pos);
    assert multiset(t) == multiset(pos) + multiset(neg);
  }

  /** The only arrangement of `[10, 20, 30, 2314, -213, -34]` in which no
      adjacent pair compares `sup` under cmp_int is the ascending one. */
  lemma SortExampleUnique(s: seq<int>)
    requires multiset(s) == multiset([10, 20, 30, 2314, -213, -34])
    requires SortedBy(s, CmpInt)
    ensures s == [-213, -34, 10, 20, 30, 2314]
  {
    var expected := [-213, -34, 10, 20, 30, 2314];
    ExampleSameElements();
    ExampleAscendingSorted();
    CmpIntIsTotalOrder();
    SortedPermutationsEqual(s, expected, CmpInt);
  }

  /** Six pushes onto a vector created with capacity 0. */
  method ExampleVector() returns (v: Vector<int>)
    ensures fresh(v) && fresh(v.buf) && v.Valid() && v.buf != null
    ensures v.Contents() == [10, 20, 30, 2314, -213, -34] && v.capacity == 10
  {
    var w: Vector?<int>, err := Init(4, 0, true);
    v := w;
    err := Push(v, 10, true);
    assert v.Contents() == [10] && v.capacity == 10;
    err := Push(v, 20, true);
    assert v.Contents() == [10, 20] && v.capacity == 10;
    err := Push(v, 30, true);
    assert v.Contents() == [10, 20, 30] && v.capacity == 10;
    err := Push(v, 2314, true);
    assert v.Contents() == [10, 20, 30, 2314] && v.capacity == 10;
    err := Push(v, -213, true);
    assert v.Contents() == [10, 20, 30, 2314, -213] && v.capacity == 10;
    err := Push(v, -34, true);
  }

  /** Sorting `[10, 20, 30, 2314, -213, -34]` with cmp_int gives
      `[-213, -34, 10, 20, 30, 2314]`, and the source keeps its order. */
  method SortExample() returns (sorted: seq<Option<int>>, first: Option<int>)
    ensures sorted == [Some(-213), Some(-34), Some(10), Some(20), Some(30), Some(2314)]
    ensures first == Some(10)
  {
    var v := ExampleVector();
    var out: Vector?<int>, err := Sort(v, CmpInt, true);
    assert Antisymmetric(CmpInt) by {
      CmpIntIsTotalOrder();
    }
    SortExampleUnique(out.Contents());
    var x0, x1, x2, x3, x4, x5;
    x0, err := Get(out, 0, true);
    x1, err := Get(out, 1, true);
    x2, err := Get(out, 2, true);
    x3, err := Get(out, 3, true);
    x4, err := Get(out, 4, true);
    x5, err := Get(out, 5, true);
    sorted := [x0, x1, x2, x3, x4, x5];
    first, err := First(v, true);
  }
}
