/**
 * Coordinate vectors and the Euclidean distance of `Euclidean.vec_dist`
 * (modules/distance.py:79-87). Dafny has no square root, so a distance is kept as its
 * square; `Exceeds` compares a squared distance with a threshold exactly as comparing
 * the distance itself would.
 */
module Vectors {

  type Vector = seq<real>
  type Matrix = seq<Vector>

  /** Every row of `m` has `width` entries. */
  predicate Rectangular(m: Matrix, width: nat) {
    forall i :: 0 <= i < |m| ==> |m[i]| == width
  }

  function Sq(x: real): (r: real)
    ensures r >= 0.0
  {
    x * x
  }

  /** The squared distance over the first `d` coordinates. */
  function SqDistUpTo(u: Vector, v: Vector, d: nat): (r: real)
    requires d <= |u| && d <= |v|
    ensures r >= 0.0
  {
    if d == 0 then 0.0 else SqDistUpTo(u, v, d - 1) + Sq(u[d - 1] - v[d - 1])
  }

  /** `vec_dist(u, v)` squared: the sum of the squared coordinate differences. */
  function SqDist(u: Vector, v: Vector): (r: real)
    requires |u| == |v|
    ensures r >= 0.0
  {
    SqDistUpTo(u, v, |u|)
  }

  /** The distance does not depend on the order of its arguments. */
  lemma {:induction false} SqDistSymmetric(u: Vector, v: Vector, d: nat)
    requires d <= |u| && d <= |v|
    ensures SqDistUpTo(u, v, d) == SqDistUpTo(v, u, d)
  {
    if d > 0 {
      SqDistSymmetric(u, v, d - 1);
      assert Sq(u[d - 1] - v[d - 1]) == Sq(v[d - 1] - u[d - 1]);
    }
  }

  lemma MulPositive(a: real, b: real)
    requires a > 0.0 && b > 0.0
    ensures a * b > 0.0
  {
  }

  /** A vector is at distance zero from itself. */
  lemma {:induction false} SqDistSelf(u: Vector, d: nat)
    requires d <= |u|
    ensures SqDistUpTo(u, u, d) == 0.0
  {
    if d > 0 {
      SqDistSelf(u, d - 1);
    }
  }

  /** `dist > thresh` where `dist * dist == d2` and `dist >= 0`. */
  predicate Exceeds(d2: real, thresh: real) {
    thresh < 0.0 || d2 > thresh * thresh
  }

  /** Exceeds agrees with comparing the non-negative root of the squared distance. */
  lemma ExceedsIsRootAbove(d2: real, dist: real, thresh: real)
    requires dist >= 0.0 && dist * dist == d2
    ensures Exceeds(d2, thresh) <==> dist > thresh
  {
    if thresh >= 0.0 {
      if dist > thresh {
        assert dist * dist - thresh * thresh == (dist - thresh) * (dist + thresh);
        MulPositive(dist - thresh, dist + thresh);
      } else {
        assert thresh * thresh - dist * dist == (thresh - dist) * (thresh + dist);
        assert (thresh - dist) * (thresh + dist) >= 0.0;
      }
    }
  }

  /** The squared distance matrix: entry `[r][c]` is the distance between rows `r` and `c`. */
  function DistMatrix(m: Matrix, width: nat): (dm: Matrix)
    requires Rectangular(m, width)
    ensures |dm| == |m| && Rectangular(dm, |m|)
  {
    seq(|m|, r requires 0 <= r < |m| => seq(|m|, c requires 0 <= c < |m| => SqDist(m[r], m[c])))
  }

  /** The distance matrix is symmetric, non-negative and zero on the diagonal. */
  lemma DistMatrixShape(m: Matrix, width: nat)
    requires Rectangular(m, width)
    ensures var dm := DistMatrix(m, width);
      && (forall r, c :: 0 <= r < |m| && 0 <= c < |m| ==> dm[r][c] == dm[c][r] && dm[r][c] >= 0.0)
      && (forall r :: 0 <= r < |m| ==> dm[r][r] == 0.0)
  {
    var dm := DistMatrix(m, width);
    forall r, c | 0 <= r < |m| && 0 <= c < |m|
      ensures dm[r][c] == dm[c][r]
    {
      SqDistSymmetric(m[r], m[c], width);
    }
    forall r | 0 <= r < |m| ensures dm[r][r] == 0.0 {
      SqDistSelf(m[r], width);
    }
  }
}
