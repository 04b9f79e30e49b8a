/**
 * DefaultNDArray: a sparse integer array of fixed shape. Written points live
 * in a mutable map; points never written read as the factory default (0 or 1).
 * A view shares the map with the array it was made from, a copy gets its own.
 */
module NDArrays {
  import opened Wrappers
  import opened Points
  import opened Tensors

  /** The mutable point-to-value map; an array and all of its views hold the same one. */
  class Storage {
    var cells: map<seq<int>, int>

    constructor (cells: map<seq<int>, int>)
      ensures this.cells == cells
    {
      this.cells := cells;
    }
  }

  /** Sum over j < n of m1[i, j] * m2[j, k]. */
  ghost function ArrayDot(m1: array2<int>, m2: array2<int>, i: int, k: int, n: nat): int
    requires 0 <= i < m1.Length0 && 0 <= k < m2.Length1 && n <= m1.Length1 == m2.Length0
    reads m1, m2
  {
    if n == 0 then 0 else ArrayDot(m1, m2, i, k, n - 1) + m1[i, n - 1] * m2[n - 1, k]
  }

  /** Quotient and remainder of a value in [0, s] by s: the carry step of the odometer. */
  lemma DivModSmall(x: int, s: int)
    requires 0 < s && 0 <= x <= s
    ensures x % s == (if x < s then x else 0)
    ensures x / s == (if x < s then 0 else 1)
  {
    if x == s {
      assert x == 1 * s + 0;
    }
  }

  /** What the odometer loop still has to produce from coordinate i on, with carry c. */
  ghost function Carry(p: seq<int>, shape: seq<int>, c: int): seq<int>
    requires |p| == |shape|
  {
    if c == 1 then NextPoint(p, shape) else p
  }

  /** One turn of the odometer loop at coordinate i: the digit it writes and the carry it passes on. */
  lemma CarryStep(p: seq<int>, shape: seq<int>, i: nat, c: int)
    requires PositiveDims(shape) && InBounds(shape, p) && i < |p| && 0 <= c <= 1
    ensures 0 <= (p[i] + c) / shape[i] <= 1
    ensures Carry(p[i..], shape[i..], c) ==
      [(p[i] + c) % shape[i]] + Carry(p[i + 1..], shape[i + 1..], (p[i] + c) / shape[i])
  {
    DivModSmall(p[i] + c, shape[i]);
    assert p[i..] == [p[i]] + p[i + 1..];
    assert p[i..][1..] == p[i + 1..] && shape[i..][1..] == shape[i + 1..];
  }

  /** The only step count in (0, Size] that brings the odometer back to the origin is Size. */
  lemma StepsReturnOnlyAtSize(shape: seq<int>, k: nat)
    requires PositiveDims(shape) && 0 < k <= Size(shape) && Steps(shape, k) == Origin(|shape|)
    ensures k == Size(shape)
  {
    if k < Size(shape) {
      StepsRank(shape, k);
      RankOrigin(shape);
      assert false;
    }
  }

  /** Adding the point of rank k to the points of rank < k gives the points of rank < k + 1. */
  lemma RankExtend(shape: seq<int>, k: nat, q: seq<int>)
    requires PositiveDims(shape) && k < Size(shape) && InBounds(shape, q)
    ensures Rank(q, shape) < k + 1 <==> Rank(q, shape) < k || q == Steps(shape, k)
  {
    StepsRank(shape, k);
    if Rank(q, shape) == k {
      RankInjective(q, Steps(shape, k), shape);
    }
  }

  /** With equal entries, the product sum over the matrices is the product sum over the arrays they were read from. */
  lemma {:induction false} ArrayDotMatches(m1: array2<int>, m2: array2<int>, a: Tensor, b: Tensor, i: int, k: int, n: nat)
    requires 0 <= i < m1.Length0 && 0 <= k < m2.Length1 && n <= m1.Length1 == m2.Length0
    requires forall x, y :: 0 <= x < m1.Length0 && 0 <= y < m1.Length1 ==> m1[x, y] == a.Read([x, y])
    requires forall x, y :: 0 <= x < m2.Length0 && 0 <= y < m2.Length1 ==> m2[x, y] == b.Read(MatrixPoint(b.shape, x, y))
    ensures ArrayDot(m1, m2, i, k, n) == ProductEntry(a, b, i, k, n)
  {
    if n > 0 {
      ArrayDotMatches(m1, m2, a, b, i, k, n - 1);
    }
  }

  class DefaultNDArray {
    const defaultValue: int
    const shape: seq<int>
    const store: Storage

    /** The shape is valid and only in-bounds points are ever stored. */
    ghost predicate Valid()
      reads store
    {
      ValidShape(shape) && forall p :: p in store.cells ==> InBounds(shape, p)
    }

    /** What the array currently holds. */
    function Value(): Tensor
      reads store
    {
      Tensor(shape, defaultValue, store.cells)
    }

    constructor (defaultValue: int, shape: seq<int>, store: Storage)
      requires ValidShape(shape) && forall p :: p in store.cells ==> InBounds(shape, p)
      ensures this.defaultValue == defaultValue && this.shape == shape && this.store == store
      ensures Valid()
    {
      this.defaultValue := defaultValue;
      this.shape := shape;
      this.store := store;
    }

    /** Factory: every point reads 1 until written. */
    static method Ones(shape: seq<int>) returns (a: DefaultNDArray)
      requires ValidShape(shape)
      ensures fresh(a) && fresh(a.store) && a.Valid()
      ensures a.Value() == Tensor(shape, 1, map[])
      ensures forall p :: InBounds(shape, p) ==> Lookup(a.Value(), p) == Success(1)
    {
      var storage := new Storage(map[]);
      a := new DefaultNDArray(1, shape, storage);
    }

    /** Factory: every point reads 0 until written. */
    static method Zeros(shape: seq<int>) returns (a: DefaultNDArray)
      requires ValidShape(shape)
      ensures fresh(a) && fresh(a.store) && a.Valid()
      ensures a.Value() == Tensor(shape, 0, map[])
      ensures forall p :: InBounds(shape, p) ==> Lookup(a.Value(), p) == Success(0)
    {
      var storage := new Storage(map[]);
      a := new DefaultNDArray(0, shape, storage);
    }

    /** Validates a point: the number of coordinates first, then each coordinate in turn. */
    method CheckPoint(point: seq<int>) returns (e: Option<NDError>)
      ensures e == PointError(shape, point)
    {
      if |point| != |shape| {
        return Some(IllegalPointDimension);
      }
      for i := 0 to |point|
        invariant forall j :: 0 <= j < i ==> 0 <= point[j] < shape[j]
      {
        if point[i] < 0 || point[i] >= shape[i] {
          return Some(IllegalPointCoordinate);
        }
      }
      return None;
    }

    method At(point: seq<int>) returns (r: Result<int, NDError>)
      requires Valid()
      ensures r == Lookup(Value(), point)
    {
      var e := CheckPoint(point);
      if e.Some? {
        return Failure(e.value);
      }
      return Success(Value().Read(point));
    }

    method Set(point: seq<int>, value: int) returns (e: Option<NDError>)
      requires Valid()
      modifies store
      ensures Valid()
      ensures e == PointError(shape, point)
      ensures Store(old(Value()), point, value) == if e == None then Success(Value()) else Failure(e.value)
      ensures e != None ==> store.cells == old(store.cells)
    {
      e := CheckPoint(point);
      if e.Some? {
        return;
      }
      store.cells := store.cells[point := value];
    }

    /** A new array with the same shape, default and contents, and a map of its own. */
    method Copy() returns (c: DefaultNDArray)
      requires Valid()
      ensures fresh(c) && fresh(c.store) && c.Valid()
      ensures c.Value() == Value()
    {
      var storage := new Storage(store.cells);
      c := new DefaultNDArray(defaultValue, shape, storage);
    }

    /** A new array object over the same map: writes through either are seen by both. */
    method View() returns (v: DefaultNDArray)
      requires Valid()
      ensures fresh(v) && v.Valid()
      ensures v.store == store && v.shape == shape && v.defaultValue == defaultValue
    {
      v := new DefaultNDArray(defaultValue, shape, store);
    }

    /** The odometer step: coordinate 0 goes up by one, carrying into the next coordinate at the top of its range. */
    static method GetNextPoint(point: seq<int>, shape: seq<int>) returns (next: seq<int>)
      requires PositiveDims(shape) && InBounds(shape, point)
      ensures next == NextPoint(point, shape)
    {
      var c := 1;
      var newArray := new int[|shape|];
      ghost var target := NextPoint(point, shape);
      for i := 0 to |point|
        invariant 0 <= c <= 1
        invariant forall j :: 0 <= j < i ==> newArray[j] == target[j]
        invariant target[i..] == Carry(point[i..], shape[i..], c)
      {
        CarryStep(point, shape, i, c);
        assert target[i..] == [target[i]] + target[i + 1..];
        newArray[i] := (point[i] + c) % shape[i];
        c := (point[i] + c) / shape[i];
      }
      next := newArray[..];
    }

    /** Whether the first `ndim - offset` dimensions of `other` equal this array's. */
    method CheckDimensions(other: DefaultNDArray, offset: int) returns (same: bool)
      requires 0 <= offset <= |shape| && |shape| - offset <= |other.shape|
      ensures same <==> shape[..|shape| - offset] == other.shape[..|shape| - offset]
    {
      for i := 0 to |shape| - offset
        invariant forall j :: 0 <= j < i ==> shape[j] == other.shape[j]
      {
        if shape[i] != other.shape[i] {
          return false;
        }
      }
      return true;
    }

    /**
     * In-place addition, broadcasting `other` over this array's trailing
     * dimensions. Every sum is taken before anything is written, so `other`
     * may be this array or one of its views.
     */
    method Add(other: DefaultNDArray) returns (e: Option<NDError>)
      requires Valid() && other.Valid()
      modifies store
      ensures Valid()
      ensures e == AddError(shape, other.shape)
      ensures e != None ==> store.cells == old(store.cells)
      ensures e == None ==> forall p :: p in store.cells <==> InBounds(shape, p)
      ensures e == None ==> forall p :: InBounds(shape, p) ==>
        Value().Read(p) == AddValue(old(Value()), old(other.Value()), p)
    {
      if |shape| < |other.shape| {
        return Some(IllegalPointDimension);
      }
      var offset := |shape| - |other.shape|;
      var same := CheckDimensions(other, offset);
      if !same {
        return Some(IllegalPointDimension);
      }
      var newArray := Sums(other, offset);
      store.cells := store.cells + newArray;
      return None;
    }

    /** The do-while loop of `add`: the new value of every point, collected in a fresh map, in odometer order. */
    method Sums(other: DefaultNDArray, offset: int) returns (newArray: map<seq<int>, int>)
      requires Valid() && other.Valid()
      requires 0 <= offset == |shape| - |other.shape| && other.shape == shape[..|other.shape|]
      ensures forall q :: q in newArray ==> InBounds(shape, q)
      ensures forall q :: InBounds(shape, q) ==> q in newArray && newArray[q] == AddValue(Value(), other.Value(), q)
    {
      newArray := map[];
      var startPoint := Origin(|shape|);
      var point := Origin(|shape|);
      ghost var k: nat := 0;
      forall q | InBounds(shape, q)
        ensures Rank(q, shape) >= 0
      {
        RankBounds(q, shape);
      }
      while true
        invariant k < Size(shape) && point == Steps(shape, k)
        invariant forall q :: q in newArray <==> InBounds(shape, q) && Rank(q, shape) < k
        invariant forall q :: q in newArray ==> newArray[q] == AddValue(Value(), other.Value(), q)
        decreases Size(shape) - k
      {
        StepsRank(shape, k);
        ReducedPointInBounds(shape, other.shape, point);
        var x := At(point);
        var y := other.At(ReducePoint(point, offset));
        newArray := newArray[point := x.value + y.value];
        forall q | InBounds(shape, q)
          ensures Rank(q, shape) < k + 1 <==> Rank(q, shape) < k || q == point
        {
          RankExtend(shape, k, q);
        }
        point := GetNextPoint(point, shape);
        NextPointRank(Steps(shape, k), shape);
        StepsSucc(shape, k);
        k := k + 1;
        if point == startPoint {
          StepsReturnOnlyAtSize(shape, k);
          break;
        }
        if k == Size(shape) {
          StepsWrap(shape);
          assert false;
        }
      }
      forall q | InBounds(shape, q)
        ensures q in newArray
      {
        RankBounds(q, shape);
      }
    }

    /** Element i of the result: the element of this (two-dimensional) array times other's single element. */
    method DotScalar(other: DefaultNDArray) returns (r: DefaultNDArray)
      requires Valid() && other.Valid() && |shape| == 2 && IsScalar(other.shape)
      ensures fresh(r) && fresh(r.store) && r.Valid()
      ensures r.shape == shape && r.defaultValue == 0
      ensures forall q :: InBounds(shape, q) ==> r.Value().Read(q) == Value().Read(q) * other.Value().Read([0])
    {
      var newArray: map<seq<int>, int> := map[];
      var startPoint := Origin(2);
      var point := Origin(2);
      ghost var k: nat := 0;
      forall q | InBounds(shape, q)
        ensures Rank(q, shape) >= 0
      {
        RankBounds(q, shape);
      }
      while true
        invariant k < Size(shape) && point == Steps(shape, k)
        invariant forall q :: q in newArray <==> InBounds(shape, q) && Rank(q, shape) < k
        invariant forall q :: q in newArray ==> newArray[q] == Value().Read(q) * other.Value().Read([0])
        decreases Size(shape) - k
      {
        StepsRank(shape, k);
        var x := At(point);
        var y := other.At([0]);
        newArray := newArray[point := x.value * y.value];
        forall q | InBounds(shape, q)
          ensures Rank(q, shape) < k + 1 <==> Rank(q, shape) < k || q == point
        {
          RankExtend(shape, k, q);
        }
        point := GetNextPoint(point, shape);
        NextPointRank(Steps(shape, k), shape);
        StepsSucc(shape, k);
        k := k + 1;
        if point == startPoint {
          StepsReturnOnlyAtSize(shape, k);
          break;
        }
        if k == Size(shape) {
          StepsWrap(shape);
          assert false;
        }
      }
      forall q | InBounds(shape, q)
        ensures q in newArray
      {
        RankBounds(q, shape);
      }
      var storage := new Storage(newArray);
      r := new DefaultNDArray(0, shape, storage);
    }

    /** The scalar factor as the source reads it: at the start point (0, 0), which has one coordinate too many for `other`. */
    static method ScalarFactorAsWritten(other: DefaultNDArray) returns (r: Result<int, NDError>)
      requires other.Valid() && IsScalar(other.shape)
      ensures r == Failure(IllegalPointDimension)
    {
      var startPoint := Origin(2);
      r := other.At(startPoint);
    }

    /** An array of at most two dimensions as a matrix; a one-dimensional array becomes one column. */
    static method ConvertToMatrix(nd: DefaultNDArray) returns (m: array2<int>)
      requires nd.Valid() && |nd.shape| <= 2
      ensures fresh(m)
      ensures m.Length0 == nd.shape[0] && m.Length1 == (if |nd.shape| == 2 then nd.shape[1] else 1)
      ensures forall i, j :: 0 <= i < m.Length0 && 0 <= j < m.Length1 ==>
        m[i, j] == nd.Value().Read(MatrixPoint(nd.shape, i, j))
    {
      if |nd.shape| == 2 {
        m := new int[nd.shape[0], nd.shape[1]];
        for i := 0 to m.Length0
          invariant forall a, b :: 0 <= a < i && 0 <= b < m.Length1 ==> m[a, b] == nd.Value().Read([a, b])
        {
          for j := 0 to m.Length1
            invariant forall a, b :: 0 <= a < i && 0 <= b < m.Length1 ==> m[a, b] == nd.Value().Read([a, b])
            invariant forall b :: 0 <= b < j ==> m[i, b] == nd.Value().Read([i, b])
          {
            var v := nd.At([i, j]);
            m[i, j] := v.value;
          }
        }
        return;
      }
      m := new int[nd.shape[0], 1];
      for i := 0 to m.Length0
        invariant forall a :: 0 <= a < i ==> m[a, 0] == nd.Value().Read([a])
      {
        var v := nd.At([i]);
        m[i, 0] := v.value;
      }
    }

    /** The matrix product, accumulated row by row as the source's triple loop does. */
    static method Multiply(m1: array2<int>, m2: array2<int>) returns (m3: array2<int>)
      requires m1.Length1 == m2.Length0
      ensures fresh(m3) && m3.Length0 == m1.Length0 && m3.Length1 == m2.Length1
      ensures forall i, k :: 0 <= i < m3.Length0 && 0 <= k < m3.Length1 ==>
        m3[i, k] == ArrayDot(m1, m2, i, k, m1.Length1)
    {
      var n := m1.Length1;
      m3 := new int[m1.Length0, m2.Length1]((_, _) => 0);
      for i := 0 to m1.Length0
        invariant forall a, c :: 0 <= a < i && 0 <= c < m3.Length1 ==> m3[a, c] == ArrayDot(m1, m2, a, c, n)
        invariant forall a, c :: i <= a < m3.Length0 && 0 <= c < m3.Length1 ==> m3[a, c] == 0
      {
        for j := 0 to n
          invariant forall a, c :: 0 <= a < i && 0 <= c < m3.Length1 ==> m3[a, c] == ArrayDot(m1, m2, a, c, n)
          invariant forall a, c :: i < a < m3.Length0 && 0 <= c < m3.Length1 ==> m3[a, c] == 0
          invariant forall c :: 0 <= c < m3.Length1 ==> m3[i, c] == ArrayDot(m1, m2, i, c, j)
        {
          for k := 0 to m2.Length1
            invariant forall a, c :: 0 <= a < i && 0 <= c < m3.Length1 ==> m3[a, c] == ArrayDot(m1, m2, a, c, n)
            invariant forall a, c :: i < a < m3.Length0 && 0 <= c < m3.Length1 ==> m3[a, c] == 0
            invariant forall c :: 0 <= c < k ==> m3[i, c] == ArrayDot(m1, m2, i, c, j + 1)
            invariant forall c :: k <= c < m3.Length1 ==> m3[i, c] == ArrayDot(m1, m2, i, c, j)
          {
            m3[i, k] := m3[i, k] + m1[i, j] * m2[j, k];
          }
        }
      }
    }

    /** A matrix as a fresh two-dimensional array with default 0. */
    static method ConvertToNDArray2(m: array2<int>) returns (r: DefaultNDArray)
      requires m.Length0 >= 1 && m.Length1 >= 1
      ensures fresh(r) && fresh(r.store) && r.Valid()
      ensures r.shape == [m.Length0, m.Length1] && r.defaultValue == 0
      ensures forall i, j :: 0 <= i < m.Length0 && 0 <= j < m.Length1 ==> r.Value().Read([i, j]) == m[i, j]
    {
      var shape := [m.Length0, m.Length1];
      var newArray: map<seq<int>, int> := map[];
      for i := 0 to shape[0]
        invariant forall p :: p in newArray ==> InBounds(shape, p) && p[0] < i
        invariant forall a, b :: 0 <= a < i && 0 <= b < shape[1] ==> [a, b] in newArray && newArray[[a, b]] == m[a, b]
      {
        for j := 0 to shape[1]
          invariant forall p :: p in newArray ==> InBounds(shape, p) && (p[0] < i || (p[0] == i && p[1] < j))
          invariant forall a, b :: 0 <= a < i && 0 <= b < shape[1] ==> [a, b] in newArray && newArray[[a, b]] == m[a, b]
          invariant forall b :: 0 <= b < j ==> [i, b] in newArray && newArray[[i, b]] == m[i, b]
        {
          newArray := newArray[[i, j] := m[i, j]];
        }
      }
      var storage := new Storage(newArray);
      r := new DefaultNDArray(0, shape, storage);
    }

    /** The first column of a matrix as a fresh one-dimensional array with default 0. */
    static method ConvertToNDArray1(m: array2<int>) returns (r: DefaultNDArray)
      requires m.Length0 >= 1 && m.Length1 >= 1
      ensures fresh(r) && fresh(r.store) && r.Valid()
      ensures r.shape == [m.Length0] && r.defaultValue == 0
      ensures forall i :: 0 <= i < m.Length0 ==> r.Value().Read([i]) == m[i, 0]
    {
      var shape := [m.Length0];
      var newArray: map<seq<int>, int> := map[];
      for i := 0 to shape[0]
        invariant forall p :: p in newArray ==> InBounds(shape, p) && p[0] < i
        invariant forall a :: 0 <= a < i ==> [a] in newArray && newArray[[a]] == m[a, 0]
      {
        newArray := newArray[[i] := m[i, 0]];
      }
      var storage := new Storage(newArray);
      r := new DefaultNDArray(0, shape, storage);
    }

    /**
     * Matrix product with a matrix or a vector, or scaling by a length-1
     * vector. Neither operand changes; the result is a new array.
     */
    method Dot(other: DefaultNDArray) returns (r: Result<DefaultNDArray, NDError>)
      requires Valid() && other.Valid()
      ensures r.Failure? <==> DotError(shape, other.shape) != None
      ensures r.Failure? ==> r.error == IllegalPointDimension
      ensures r.Success? ==> fresh(r.value) && fresh(r.value.store) && r.value.Valid() && r.value.defaultValue == 0
      ensures r.Success? ==> r.value.shape == DotShape(shape, other.shape)
      ensures r.Success? ==> forall q :: InBounds(r.value.shape, q) ==>
        r.value.Value().Read(q) == DotValue(Value(), other.Value(), q)
    {
      if |shape| != 2 || |other.shape| > 2 {
        return Failure(IllegalPointDimension);
      }
      if |other.shape| == 1 && other.shape[0] == 1 {
        var scaled := DotScalar(other);
        return Success(scaled);
      }
      var matrix1 := ConvertToMatrix(this);
      var matrix2 := ConvertToMatrix(other);
      if matrix1.Length1 != matrix2.Length0 {
        return Failure(IllegalPointDimension);
      }
      var matrix3 := Multiply(matrix1, matrix2);
      forall i, k | 0 <= i < matrix3.Length0 && 0 <= k < matrix3.Length1
        ensures matrix3[i, k] == ProductEntry(Value(), other.Value(), i, k, shape[1])
      {
        ArrayDotMatches(matrix1, matrix2, Value(), other.Value(), i, k, shape[1]);
      }
      var result;
      if |other.shape| == 2 {
        result := ConvertToNDArray2(matrix3);
        forall q | InBounds(result.shape, q)
          ensures result.Value().Read(q) == DotValue(Value(), other.Value(), q)
        {
          assert q == [q[0], q[1]];
        }
      } else {
        result := ConvertToNDArray1(matrix3);
        forall q | InBounds(result.shape, q)
          ensures result.Value().Read(q) == DotValue(Value(), other.Value(), q)
        {
          assert q == [q[0]];
        }
      }
      return Success(result);
    }
  }

  /** A write through a view of a view is read back through the original array. */
  method SetThroughViewIsShared(a: DefaultNDArray, p: seq<int>, x: int) returns (r: Result<int, NDError>)
    requires a.Valid() && InBounds(a.shape, p)
    modifies a.store
    ensures r == Success(x)
  {
    var v := a.View();
    var w := v.View();
    var _ := w.Set(p, x);
    r := a.At(p);
  }

  /** A write to a copy leaves the original unchanged. */
  method SetOnCopyIsIsolated(a: DefaultNDArray, p: seq<int>, x: int) returns (r: Result<int, NDError>)
    requires a.Valid()
    ensures r == Lookup(a.Value(), p)
    ensures a.Value() == old(a.Value())
  {
    var c := a.Copy();
    var _ := c.Set(p, x);
    r := a.At(p);
  }
}
