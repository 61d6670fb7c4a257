/**
  Value-level meaning of the length and count statistics: the distance along a
  linestring, and sums in the order the code adds them up.
*/
module Measures {
  import opened Primitives

  /** The distance between two points: the length of the geodesic joining them. */
  function Distance(core: GeodesicCore, s: Point, d: Point): real
  {
    core.inverse(s, d).distance
  }

  /** Sum of the distances between consecutive points, added up from the first edge on. */
  function PathDistance(core: GeodesicCore, pts: seq<Point>): real
  {
    if |pts| < 2 then 0.0
    else PathDistance(core, pts[..|pts| - 1]) + Distance(core, pts[|pts| - 2], pts[|pts| - 1])
  }

  /** `xs.reduce((x, y) => x + y, 0)`: the sum added up from the first element on. */
  function Sum(xs: seq<real>): real
  {
    if xs == [] then 0.0 else Sum(xs[..|xs| - 1]) + xs[|xs| - 1]
  }

  /** A linestring of zero or one point has distance 0, one of two points the distance between them. */
  lemma PathDistanceShort(core: GeodesicCore, pts: seq<Point>)
    ensures |pts| < 2 ==> PathDistance(core, pts) == 0.0
    ensures |pts| == 2 ==> PathDistance(core, pts) == Distance(core, pts[0], pts[1])
  {
    if |pts| == 2 {
      assert pts[..1][..0] == [];
    }
  }

  /**
    Distance is additive along a linestring: walking `a` and then `b`, which
    starts where `a` ends, covers the distance of both.
  */
  lemma {:induction false} PathDistanceJoin(core: GeodesicCore, a: seq<Point>, b: seq<Point>)
    requires |a| >= 1 && |b| >= 1 && a[|a| - 1] == b[0]
    ensures PathDistance(core, a + b[1..]) == PathDistance(core, a) + PathDistance(core, b)
    decreases |b|
  {
    if |b| == 1 {
      assert b[1..] == [];
      assert a + b[1..] == a;
    } else {
      var front := b[..|b| - 1];
      PathDistanceJoin(core, a, front);
      var joined := a + b[1..];
      assert joined[..|joined| - 1] == a + front[1..];
      assert joined[|joined| - 1] == b[|b| - 1];
      assert joined[|joined| - 2] == b[|b| - 2];
    }
  }

  /** Sums add up over concatenation. */
  lemma {:induction false} SumConcat(xs: seq<real>, ys: seq<real>)
    ensures Sum(xs + ys) == Sum(xs) + Sum(ys)
    decreases |ys|
  {
    if ys != [] {
      var front := ys[..|ys| - 1];
      SumConcat(xs, front);
      assert (xs + ys)[..|xs + ys| - 1] == xs + front;
    } else {
      assert xs + ys == xs;
    }
  }
}
