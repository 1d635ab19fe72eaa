/**
 Points of the path finder's graph (`AStarPoint` in src/astar.rs) and the
 distance between them.

 The source stores each coordinate as an `f32`, and `calculate_distance`
 returns the square root of the summed squared coordinate differences. Here
 coordinates are reals and `SqDistance` is that sum itself, without the
 root, since Dafny has no square root. `RootComparisonAgrees` shows that a
 strict comparison between two distances comes out the same whether the
 roots or the squares are compared, which is all the nearest-point scan
 relies on.
 */
module Points {

  /** A 3D coordinate; a point has no identity beyond its position in the store. */
  datatype Point = Point(x: real, y: real, z: real)

  function Abs(v: real): (a: real)
    ensures a >= 0.0 && (a == v || a == -v)
  {
    if v < 0.0 then -v else v
  }

  /**
   The square of `calculate_distance(p, q)`: each coordinate difference is
   taken in absolute value and squared, and the three squares are summed.
   The source keeps the square root of this value.
   */
  function SqDistance(p: Point, q: Point): (d: real)
    ensures d >= 0.0
  {
    var dx := Abs(p.x - q.x);
    var dy := Abs(p.y - q.y);
    var dz := Abs(p.z - q.z);
    dx * dx + dy * dy + dz * dz
  }

  /** A sum of three squares is never negative, and is positive once one of the three is. */
  lemma SumOfSquares(a: real, b: real, c: real)
    requires a >= 0.0 && b >= 0.0 && c >= 0.0
    ensures a * a + b * b + c * c >= 0.0
    ensures a > 0.0 || b > 0.0 || c > 0.0 ==> a * a + b * b + c * c > 0.0
  {
  }

  /** Two points are equal exactly when all three coordinate differences vanish. */
  lemma DeltasVanish(p: Point, q: Point)
    ensures p == q <==> Abs(p.x - q.x) == 0.0 && Abs(p.y - q.y) == 0.0 && Abs(p.z - q.z) == 0.0
  {
  }

  /** A point is at distance zero from itself. */
  lemma SqDistanceToSelf(p: Point)
    ensures SqDistance(p, p) == 0.0
  {
  }

  /** Distinct points are at a positive distance from each other. */
  lemma SqDistancePositive(p: Point, q: Point)
    requires p != q
    ensures SqDistance(p, q) > 0.0
  {
    DeltasVanish(p, q);
    var dx, dy, dz := Abs(p.x - q.x), Abs(p.y - q.y), Abs(p.z - q.z);
    SumOfSquares(dx, dy, dz);
    calc {
      SqDistance(p, q);
    ==
      dx * dx + dy * dy + dz * dz;
    >
      0.0;
    }
  }

  /** Distance does not depend on the order of its arguments. */
  lemma SqDistanceSymmetric(p: Point, q: Point)
    ensures SqDistance(p, q) == SqDistance(q, p)
  {
  }

  lemma MultiplyMonotone(k: real, u: real, v: real)
    requires k >= 0.0 && u <= v
    ensures k * u <= k * v
  {
  }

  lemma MultiplyStrict(k: real, u: real, v: real)
    requires k > 0.0 && u < v
    ensures k * u < k * v
  {
  }

  /** Squaring is strictly monotone on the non-negative reals, in both directions. */
  lemma SquareMonotone(a: real, b: real)
    requires a >= 0.0 && b >= 0.0
    ensures a < b <==> a * a < b * b
  {
    if a < b {
      calc {
        a * a;
      <= { MultiplyMonotone(a, a, b); }
        a * b;
      == 
        b * a;
      < { MultiplyStrict(b, a, b); }
        b * b;
      }
    } else {
      calc {
        b * b;
      <= { MultiplyMonotone(b, b, a); }
        b * a;
      ==
        a * b;
      <= { MultiplyMonotone(a, b, a); }
        a * a;
      }
    }
  }

  /**
   If `r1` and `r2` are the distances the source computes (the non-negative
   roots of the squared distances `d1` and `d2`), then `r1 < r2` holds exactly
   when `d1 < d2`: comparing roots and comparing squares agree.
   */
  lemma RootComparisonAgrees(r1: real, r2: real, d1: real, d2: real)
    requires r1 >= 0.0 && r1 * r1 == d1
    requires r2 >= 0.0 && r2 * r2 == d2
    ensures r1 < r2 <==> d1 < d2
  {
    SquareMonotone(r1, r2);
  }
}
