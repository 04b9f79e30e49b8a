/**
 * Shapes and points of an n-dimensional array, both as sequences of
 * coordinates, and the odometer order in which the array's operations
 * enumerate points: coordinate 0 is the least significant digit, and
 * coordinate i counts up to shape[i] before carrying into coordinate i + 1.
 */
module Points {

  /** Every dimension of a shape is positive, and a shape has at least one dimension. */
  predicate ValidShape(shape: seq<int>)
  {
    |shape| >= 1 && forall i :: 0 <= i < |shape| ==> shape[i] > 0
  }

  /** Positive dimensions, the empty shape allowed (the suffixes of a valid shape). */
  predicate PositiveDims(shape: seq<int>)
  {
    forall i :: 0 <= i < |shape| ==> shape[i] > 0
  }

  /** `p` has one coordinate per dimension, each within [0, shape[i]). */
  predicate InBounds(shape: seq<int>, p: seq<int>)
  {
    |p| == |shape| && forall i :: 0 <= i < |p| ==> 0 <= p[i] < shape[i]
  }

  /** The number of points of a shape: the product of its dimensions. */
  function Size(shape: seq<int>): (n: nat)
    requires PositiveDims(shape)
    ensures n >= 1
  {
    if |shape| == 0 then 1
    else
      var rest := Size(shape[1..]);
      MulMono(shape[0], 1, rest);
      shape[0] * rest
  }

  /** The point with `n` zero coordinates. */
  function Origin(n: nat): (p: seq<int>)
    ensures |p| == n && forall i :: 0 <= i < n ==> p[i] == 0
  {
    seq(n, _ => 0)
  }

  /** The odometer's next point: the first coordinate that is not at its top goes up by one, the ones before it reset to 0. */
  function NextPoint(p: seq<int>, shape: seq<int>): (r: seq<int>)
    requires |p| == |shape|
    ensures |r| == |p|
  {
    if |p| == 0 then []
    else if p[0] + 1 < shape[0] then [p[0] + 1] + p[1..]
    else [0] + NextPoint(p[1..], shape[1..])
  }

  /** The position of `p` in odometer order: mixed radix, coordinate 0 least significant. */
  function Rank(p: seq<int>, shape: seq<int>): int
    requires |p| == |shape|
  {
    if |p| == 0 then 0 else p[0] + shape[0] * Rank(p[1..], shape[1..])
  }

  /** The point the odometer reaches after `k` steps from the origin. */
  function Steps(shape: seq<int>, k: nat): (p: seq<int>)
    ensures |p| == |shape|
  {
    if k == 0 then Origin(|shape|) else NextPoint(Steps(shape, k - 1), shape)
  }

  // ---------------------------------------------------------------------
  // Arithmetic helpers

  lemma MulMono(a: int, b: int, c: int)
    requires a >= 0 && b <= c
    ensures a * b <= a * c
  {
    assert a * c - a * b == a * (c - b);
  }

  lemma MulSucc(a: int, b: int)
    ensures a * (b + 1) == a * b + a
  {
  }

  /** Two mixed-radix digits with the same value are the same digits. */
  lemma MixedRadixUnique(a: int, x: int, b: int, y: int, s: int)
    requires 0 <= a < s && 0 <= b < s && a + s * x == b + s * y
    ensures a == b && x == y
  {
    if x < y {
      MulMono(s, x + 1, y);
      assert false;
    } else if y < x {
      MulMono(s, y + 1, x);
      assert false;
    }
  }

  // ---------------------------------------------------------------------
  // Rank is a bijection between in-bounds points and [0, Size)

  lemma {:induction false} RankBounds(p: seq<int>, shape: seq<int>)
    requires PositiveDims(shape) && InBounds(shape, p)
    ensures 0 <= Rank(p, shape) < Size(shape)
  {
    if |p| > 0 {
      var s, r, m := shape[0], Rank(p[1..], shape[1..]), Size(shape[1..]);
      RankBounds(p[1..], shape[1..]);
      MulMono(s, 0, r);
      MulMono(s, r + 1, m);
    }
  }

  lemma {:induction false} RankInjective(p: seq<int>, q: seq<int>, shape: seq<int>)
    requires PositiveDims(shape) && InBounds(shape, p) && InBounds(shape, q)
    requires Rank(p, shape) == Rank(q, shape)
    ensures p == q
  {
    if |p| > 0 {
      RankBounds(p[1..], shape[1..]);
      RankBounds(q[1..], shape[1..]);
      MixedRadixUnique(p[0], Rank(p[1..], shape[1..]), q[0], Rank(q[1..], shape[1..]), shape[0]);
      RankInjective(p[1..], q[1..], shape[1..]);
      assert p == [p[0]] + p[1..] && q == [q[0]] + q[1..];
    }
  }

  lemma {:induction false} RankOrigin(shape: seq<int>)
    ensures Rank(Origin(|shape|), shape) == 0
  {
    if |shape| > 0 {
      assert Origin(|shape|)[1..] == Origin(|shape| - 1);
      RankOrigin(shape[1..]);
    }
  }

  /** One odometer step keeps the point in bounds and moves one place on in rank, wrapping to 0 after the last point. */
  lemma {:induction false} NextPointRank(p: seq<int>, shape: seq<int>)
    requires PositiveDims(shape) && InBounds(shape, p)
    ensures InBounds(shape, NextPoint(p, shape))
    ensures Rank(NextPoint(p, shape), shape) ==
      if Rank(p, shape) + 1 < Size(shape) then Rank(p, shape) + 1 else 0
  {
    if |p| > 0 {
      var s, rest, tail := shape[0], p[1..], shape[1..];
      var r, m := Rank(rest, tail), Size(tail);
      var next := NextPoint(p, shape);
      assert Rank(p, shape) == p[0] + s * r;
      assert Size(shape) == s * m;
      RankBounds(rest, tail);
      MulSucc(s, r);
      if p[0] + 1 < s {
        assert next == [p[0] + 1] + rest;
        assert next[1..] == rest;
        assert Rank(next, shape) == p[0] + 1 + s * r;
        MulMono(s, r + 1, m);
      } else {
        var nr := NextPoint(rest, tail);
        assert next == [0] + nr;
        assert next[1..] == nr;
        NextPointRank(rest, tail);
        assert Rank(next, shape) == s * Rank(nr, tail);
        assert Rank(p, shape) + 1 == s * (r + 1);
        if r + 1 < m {
          MulSucc(s, r + 1);
          MulMono(s, r + 2, m);
        }
      }
    }
  }

  /** After k < Size steps from the origin the odometer is at the in-bounds point of rank k. */
  lemma {:induction false} StepsRank(shape: seq<int>, k: nat)
    requires PositiveDims(shape) && k < Size(shape)
    ensures InBounds(shape, Steps(shape, k)) && Rank(Steps(shape, k), shape) == k
  {
    if k == 0 {
      RankOrigin(shape);
    } else {
      StepsRank(shape, k - 1);
      NextPointRank(Steps(shape, k - 1), shape);
    }
  }

  /** After exactly Size steps the odometer is back at the origin. */
  lemma StepsWrap(shape: seq<int>)
    requires PositiveDims(shape)
    ensures Steps(shape, Size(shape)) == Origin(|shape|)
  {
    StepsAtSize(shape);
    RankZeroIsOrigin(Steps(shape, Size(shape)), shape);
  }

  lemma StepsAtSize(shape: seq<int>)
    requires PositiveDims(shape)
    ensures InBounds(shape, Steps(shape, Size(shape))) && Rank(Steps(shape, Size(shape)), shape) == 0
  {
    var n := Size(shape);
    var k: nat := n - 1;
    StepsRank(shape, k);
    NextPointRank(Steps(shape, k), shape);
    StepsSucc(shape, k);
  }

  /** The only in-bounds point of rank 0 is the origin. */
  lemma RankZeroIsOrigin(p: seq<int>, shape: seq<int>)
    requires PositiveDims(shape) && InBounds(shape, p) && Rank(p, shape) == 0
    ensures p == Origin(|shape|)
  {
    RankOrigin(shape);
    RankInjective(p, Origin(|shape|), shape);
  }

  lemma StepsSucc(shape: seq<int>, k: nat)
    ensures Steps(shape, k + 1) == NextPoint(Steps(shape, k), shape)
  {
  }

  /** The first Size steps from the origin are pairwise distinct points. */
  lemma StepsDistinct(shape: seq<int>, j: nat, k: nat)
    requires PositiveDims(shape) && j < k < Size(shape)
    ensures Steps(shape, j) != Steps(shape, k)
  {
    StepsRank(shape, j);
    StepsRank(shape, k);
  }

  /** Every in-bounds point is reached within the first Size steps: the step count is its rank. */
  lemma StepsCover(shape: seq<int>, p: seq<int>)
    requires PositiveDims(shape) && InBounds(shape, p)
    ensures 0 <= Rank(p, shape) < Size(shape) && Steps(shape, Rank(p, shape)) == p
  {
    RankBounds(p, shape);
    var k := Rank(p, shape);
    StepsRank(shape, k);
    RankInjective(Steps(shape, k), p, shape);
  }

  /**
   * Starting from the origin, the odometer visits every in-bounds point
   * exactly once in its first Size steps (point p at step Rank(p)), and the next
   * step is the origin again.
   */
  lemma OdometerEnumerates(shape: seq<int>)
    requires PositiveDims(shape)
    ensures Steps(shape, Size(shape)) == Origin(|shape|)
    ensures forall k :: 0 <= k < Size(shape) ==> InBounds(shape, Steps(shape, k))
    ensures forall j, k :: 0 <= j < k < Size(shape) ==> Steps(shape, j) != Steps(shape, k)
    ensures forall p :: InBounds(shape, p) ==> 0 <= Rank(p, shape) < Size(shape) && Steps(shape, Rank(p, shape)) == p
  {
    StepsWrap(shape);
    forall k | 0 <= k < Size(shape)
      ensures InBounds(shape, Steps(shape, k))
    {
      StepsRank(shape, k);
    }
    forall j, k | 0 <= j < k < Size(shape)
      ensures Steps(shape, j) != Steps(shape, k)
    {
      StepsDistinct(shape, j, k);
    }
    forall p | InBounds(shape, p)
      ensures 0 <= Rank(p, shape) < Size(shape) && Steps(shape, Rank(p, shape)) == p
    {
      StepsCover(shape, p);
    }
  }

  /** The point with its last `offset` coordinates dropped. */
  function ReducePoint(p: seq<int>, offset: nat): (r: seq<int>)
    requires offset <= |p|
    ensures |r| + offset == |p| && r <= p
  {
    p[..|p| - offset]
  }

  /** Dropping trailing coordinates of an in-bounds point gives an in-bounds point of any shape that is a leading part of the array's shape. */
  lemma ReducedPointInBounds(shape: seq<int>, small: seq<int>, p: seq<int>)
    requires InBounds(shape, p) && |small| <= |shape| && small == shape[..|small|]
    ensures InBounds(small, ReducePoint(p, |shape| - |small|))
  {
  }
}
