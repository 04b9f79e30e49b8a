/**
 * The observable value of an n-dimensional integer array, and what its
 * operations compute on that value: point validation, reads that fall back
 * to the factory default, writes, broadcasting addition and the matrix
 * product. The class in ndarray.dfy is proved against these functions.
 */
module Tensors {
  import opened Wrappers
  import opened Points

  datatype NDError = IllegalPointDimension | IllegalPointCoordinate

  /** A snapshot of an array: its shape, its factory default, and the points written so far. */
  datatype Tensor = Tensor(shape: seq<int>, default: int, cells: map<seq<int>, int>)
  {
    /** The value stored at `p`, or the default for a point never written. */
    function Read(p: seq<int>): (r: int)
      ensures p in cells ==> r == cells[p]
      ensures p !in cells ==> r == default
    {
      if p in cells then cells[p] else default
    }
  }

  /**
   * How a point fails validation against a shape: a wrong number of
   * coordinates is reported first, then any coordinate out of range.
   */
  function PointError(shape: seq<int>, p: seq<int>): (e: Option<NDError>)
    ensures e == None <==> InBounds(shape, p)
    ensures e == Some(IllegalPointDimension) <==> |p| != |shape|
    ensures e == Some(IllegalPointCoordinate) <==>
      |p| == |shape| && exists i :: 0 <= i < |p| && !(0 <= p[i] < shape[i])
  {
    if |p| != |shape| then Some(IllegalPointDimension)
    else if InBounds(shape, p) then None
    else Some(IllegalPointCoordinate)
  }

  /** `at`: the value at a valid point, or the validation error. */
  function Lookup(t: Tensor, p: seq<int>): Result<int, NDError>
  {
    match PointError(t.shape, p)
    case Some(e) => Failure(e)
    case None => Success(t.Read(p))
  }

  /** `set`: the array with `p` mapped to `v`, or the validation error. */
  function Store(t: Tensor, p: seq<int>, v: int): Result<Tensor, NDError>
  {
    match PointError(t.shape, p)
    case Some(e) => Failure(e)
    case None => Success(t.(cells := t.cells[p := v]))
  }

  /** A valid point never written reads as the factory default. */
  lemma UnwrittenReadsDefault(t: Tensor, p: seq<int>)
    requires InBounds(t.shape, p) && p !in t.cells
    ensures Lookup(t, p) == Success(t.default)
  {
  }

  /** `set` fails exactly when `at` fails at the same point, and with the same error. */
  lemma StoreFailsLikeLookup(t: Tensor, p: seq<int>, v: int)
    ensures Store(t, p, v).Failure? <==> Lookup(t, p).Failure?
    ensures Store(t, p, v).Failure? ==> Store(t, p, v).error == Lookup(t, p).error
  {
  }

  /** After a successful `set(p, v)`, `at(p)` is `v` and every other point reads as before. */
  lemma StoreThenLookup(t: Tensor, p: seq<int>, v: int, q: seq<int>)
    requires Store(t, p, v).Success?
    ensures Lookup(Store(t, p, v).value, q) == if q == p then Success(v) else Lookup(t, q)
  {
  }

  // ---------------------------------------------------------------------
  // add

  /** `add` rejects an operand with more dimensions, or whose dimensions differ from this array's leading ones. */
  function AddError(shape: seq<int>, other: seq<int>): (e: Option<NDError>)
    ensures e == None <==> |other| <= |shape| && other == shape[..|other|]
    ensures e != None ==> e == Some(IllegalPointDimension)
  {
    if |shape| < |other| then Some(IllegalPointDimension)
    else if other != shape[..|other|] then Some(IllegalPointDimension)
    else None
  }

  /** The new value at `p` after `add`: the old value plus `other` at `p` without its trailing coordinates. */
  function AddValue(t: Tensor, other: Tensor, p: seq<int>): int
    requires |other.shape| <= |t.shape| == |p|
  {
    t.Read(p) + other.Read(ReducePoint(p, |t.shape| - |other.shape|))
  }

  // ---------------------------------------------------------------------
  // dot

  /** `other` is a one-dimensional array of length 1: `dot` scales by its single element. */
  predicate IsScalar(shape: seq<int>)
  {
    shape == [1]
  }

  /**
   * `dot` needs a two-dimensional `this` and an `other` of at most two
   * dimensions; apart from the scalar case, the inner dimensions must agree.
   */
  function DotError(shape: seq<int>, other: seq<int>): (e: Option<NDError>)
    ensures e == None <==>
      |shape| == 2 && 1 <= |other| <= 2 && (IsScalar(other) || shape[1] == other[0])
    ensures e != None ==> e == Some(IllegalPointDimension)
  {
    if |shape| != 2 || |other| > 2 then Some(IllegalPointDimension)
    else if |other| == 0 then Some(IllegalPointDimension)
    else if IsScalar(other) then None
    else if shape[1] != other[0] then Some(IllegalPointDimension)
    else None
  }

  /** The shape of `dot`'s result: this array's shape when scaling, rows by columns for a matrix, rows for a vector. */
  function DotShape(shape: seq<int>, other: seq<int>): (r: seq<int>)
    requires ValidShape(shape) && ValidShape(other) && DotError(shape, other) == None
    ensures ValidShape(r)
    ensures |r| == (if IsScalar(other) then 2 else |other|)
  {
    if IsScalar(other) then shape
    else if |other| == 2 then [shape[0], other[1]]
    else [shape[0]]
  }

  /** Where element (i, j) of an array read as a matrix lives: a one-dimensional array is a single column. */
  function MatrixPoint(shape: seq<int>, i: int, j: int): seq<int>
  {
    if |shape| == 2 then [i, j] else [i]
  }

  /** The sum over j < n of a[i][j] * b[j][k]. */
  function ProductEntry(a: Tensor, b: Tensor, i: int, k: int, n: nat): int
  {
    if n == 0 then 0
    else ProductEntry(a, b, i, k, n - 1) + a.Read([i, n - 1]) * b.Read(MatrixPoint(b.shape, n - 1, k))
  }

  /** The value of `dot`'s result at point `q`. */
  function DotValue(a: Tensor, b: Tensor, q: seq<int>): int
    requires ValidShape(a.shape) && |a.shape| == 2 && |q| >= 1 && (|b.shape| == 2 ==> |q| == 2)
  {
    if IsScalar(b.shape) then a.Read(q) * b.Read([0])
    else if |b.shape| == 2 then ProductEntry(a, b, q[0], q[1], a.shape[1])
    else ProductEntry(a, b, q[0], 0, a.shape[1])
  }
}
