/**
  Value-level meaning of the subdivision code: what recursive great-circle
  bisection and the chaining of per-edge polylines produce, and the laws that
  hold of it whatever the geodesy primitives compute.
*/
module Subdivision {
  import opened Primitives
  import opened Points

  function Pow2(k: nat): (r: nat)
    ensures r >= 1
  {
    if k == 0 then 1 else 2 * Pow2(k - 1)
  }

  /** Number of bisection levels for an iteration count: a count of 0 or below still bisects once. */
  function Levels(iterations: int): (l: nat)
    ensures l >= 1
    ensures iterations >= 0 ==> l == iterations + 1
    ensures iterations <= 0 ==> l == 1
  {
    if iterations > 0 then iterations + 1 else 1
  }

  /** The midpoint of `s` and `d` as inserted into a line: its longitude wrapped when `wrap` is set. */
  function Midpoint(core: GeodesicCore, wrap: bool, s: Point, d: Point): Point
  {
    var m := core.midpoint(s, d);
    if wrap then Point(m.lat, core.wrap180(m.lng)) else m
  }

  /**
    The polyline produced by bisecting `s`-`d` recursively: the two halves around
    the midpoint are bisected one level shallower and joined at the midpoint.
  */
  function Bisect(core: GeodesicCore, wrap: bool, s: Point, d: Point, iterations: int): (r: seq<Point>)
    ensures |r| >= 3
    decreases if iterations > 0 then iterations else 0, s
  {
    var m := Midpoint(core, wrap, s, d);
    if iterations > 0 then
      var front := Bisect(core, wrap, s, m, iterations - 1);
      front[..|front| - 1] + Bisect(core, wrap, m, d, iterations - 1)
    else
      [s, m, d]
  }

  /**
    At depth 0 or below the polyline is the two ends with their midpoint between
    them, its longitude replaced by the wrapped one only when `wrap` is set.
  */
  lemma BisectOnce(core: GeodesicCore, wrap: bool, s: Point, d: Point, iterations: int)
    requires iterations <= 0
    ensures var m := core.midpoint(s, d);
            Bisect(core, wrap, s, d, iterations) == [s, if wrap then Point(m.lat, core.wrap180(m.lng)) else m, d]
  {
  }

  /**
    Bisection to depth `iterations` yields 2^Levels(iterations) + 1 points: 3 for
    a depth of 0 or below, each further level doubling the number of edges. The
    polyline starts at `s` and ends at `d`.
  */
  lemma {:induction false} BisectShape(core: GeodesicCore, wrap: bool, s: Point, d: Point, iterations: int)
    ensures var r := Bisect(core, wrap, s, d, iterations);
            |r| == 1 + Pow2(Levels(iterations)) && r[0] == s && r[|r| - 1] == d
    decreases if iterations > 0 then iterations else 0, s
  {
    if iterations > 0 {
      var m := Midpoint(core, wrap, s, d);
      BisectShape(core, wrap, s, m, iterations - 1);
      BisectShape(core, wrap, m, d, iterations - 1);
    }
  }

  /** Powers of two grow with the exponent. */
  lemma {:induction false} Pow2Mono(a: nat, b: nat)
    requires a <= b
    ensures Pow2(a) <= Pow2(b)
    decreases b
  {
    if a < b {
      Pow2Mono(a, b - 1);
    }
  }

  /** Points per edge polyline minus one: the stride between consecutive waypoints in a chain. */
  function Stride(iterations: int): nat
  {
    Pow2(Levels(iterations))
  }

  /** Position of waypoint `e` in a chain of stride `w`; equals `e * w` (see OffsetIsProduct). */
  function Offset(e: nat, w: nat): nat
  {
    if e == 0 then 0 else Offset(e - 1, w) + w
  }

  lemma {:induction false} OffsetIsProduct(e: nat, w: nat)
    ensures Offset(e, w) == e * w
  {
    if e > 0 {
      OffsetIsProduct(e - 1, w);
      assert (e - 1) * w + w == e * w;
    }
  }

  lemma {:induction false} OffsetMono(a: nat, b: nat, w: nat)
    requires a <= b
    ensures Offset(a, w) <= Offset(b, w)
    decreases b
  {
    if a < b {
      OffsetMono(a, b - 1, w);
    }
  }

  /** Replacing the last point of `built` by `edge`, which starts with that point, keeps every window of `built`. */
  lemma {:induction false} JoinKeepsPrefix<T>(built: seq<T>, edge: seq<T>, at: nat, w: nat)
    requires |built| > 0 && |edge| > 0 && edge[0] == built[|built| - 1]
    requires at + w < |built|
    ensures (built[..|built| - 1] + edge)[at .. at + w + 1] == built[at .. at + w + 1]
  {
    var r := built[..|built| - 1] + edge;
    assert r[..|built|] == built;
    assert r[at .. at + w + 1] == r[..|built|][at .. at + w + 1];
  }

  /**
    Polylines laid end to end, each one's first point standing in for the
    previous one's last point.
  */
  function Joined<T>(lines: seq<seq<T>>): seq<T>
    decreases |lines|
  {
    if lines == [] then []
    else if |lines| == 1 then lines[0]
    else
      var front := Joined(lines[..|lines| - 1]);
      (if front == [] then [] else front[..|front| - 1]) + lines[|lines| - 1]
  }

  /** Every line has w + 1 points and starts where the previous one ends. */
  ghost predicate Linked<T>(lines: seq<seq<T>>, w: nat)
  {
    && (forall i :: 0 <= i < |lines| ==> |lines[i]| == w + 1)
    && (forall i :: 0 < i < |lines| ==> lines[i][0] == lines[i - 1][w])
  }

  /** Joined linked lines hold Offset(n - 1, w) + w + 1 points and end where the last line ends. */
  lemma {:induction false} JoinedLength<T>(lines: seq<seq<T>>, w: nat)
    requires Linked(lines, w) && |lines| > 0
    ensures var r := Joined(lines);
            && |r| == Offset(|lines| - 1, w) + w + 1
            && r[|r| - 1] == lines[|lines| - 1][w]
  {
    var n := |lines|;
    if n > 1 {
      var front := lines[..n - 1];
      assert Linked(front, w);
      JoinedLength(front, w);
    }
  }

  /** Replacing the last point of `built` by `edge` puts `edge` right after the kept prefix. */
  lemma JoinPlacesEdge<T>(built: seq<T>, edge: seq<T>)
    requires |built| > 0
    ensures var r := built[..|built| - 1] + edge;
            |built| - 1 + |edge| == |r| && r[|built| - 1 .. |built| - 1 + |edge|] == edge
  {
  }

  /** In joined linked lines, line i is found at Offset(i, w). */
  lemma {:induction false} JoinedWindows<T>(lines: seq<seq<T>>, w: nat, i: nat)
    requires Linked(lines, w) && i < |lines|
    ensures var r := Joined(lines);
            && Offset(i, w) + w < |r|
            && r[Offset(i, w) .. Offset(i, w) + w + 1] == lines[i]
    decreases |lines|
  {
    var n := |lines|;
    JoinedLength(lines, w);
    if n > 1 {
      var front := lines[..n - 1];
      assert Linked(front, w);
      JoinedLength(front, w);
      var f := Joined(front);
      var last := lines[n - 1];
      assert Joined(lines) == f[..|f| - 1] + last;
      if i < n - 1 {
        JoinedWindows(front, w, i);
        OffsetMono(i, n - 2, w);
        JoinKeepsPrefix(f, last, Offset(i, w), w);
      } else {
        JoinPlacesEdge(f, last);
      }
    }
  }

  /** Line i of joined linked lines starts at Offset(i, w), and the join ends where the last line ends. */
  lemma {:induction false} JoinedVertices<T>(lines: seq<seq<T>>, w: nat, ends: seq<T>)
    requires Linked(lines, w) && |lines| > 0 && |ends| == |lines| + 1
    requires forall i :: 0 <= i < |lines| ==> lines[i][0] == ends[i]
    requires lines[|lines| - 1][w] == ends[|lines|]
    ensures var r := Joined(lines);
            && |r| == Offset(|lines|, w) + 1
            && forall e :: 0 <= e < |ends| ==> Offset(e, w) < |r| && r[Offset(e, w)] == ends[e]
  {
    var r := Joined(lines);
    var n := |lines|;
    JoinedLength(lines, w);
    forall e | 0 <= e < |ends|
      ensures Offset(e, w) < |r| && r[Offset(e, w)] == ends[e]
    {
      if e < n {
        JoinedWindows(lines, w, e);
        assert r[Offset(e, w) .. Offset(e, w) + w + 1][0] == r[Offset(e, w)];
      }
    }
  }

  /** The per-edge polylines of a waypoint sequence. */
  function EdgeLines(core: GeodesicCore, wrap: bool, iterations: int, pts: seq<Point>): (r: seq<seq<Point>>)
    ensures |r| == if |pts| < 2 then 0 else |pts| - 1
  {
    if |pts| < 2 then []
    else seq(|pts| - 1, i requires 0 <= i < |pts| - 1 => Bisect(core, wrap, pts[i], pts[i + 1], iterations))
  }

  /** Edge polyline i runs from waypoint i to waypoint i + 1. */
  lemma EdgeLinesEnds(core: GeodesicCore, wrap: bool, iterations: int, pts: seq<Point>)
    ensures var lines := EdgeLines(core, wrap, iterations, pts);
            forall i {:trigger lines[i]} :: 0 <= i < |lines| ==>
              |lines[i]| == Stride(iterations) + 1 && lines[i][0] == pts[i] && lines[i][Stride(iterations)] == pts[i + 1]
  {
    var lines := EdgeLines(core, wrap, iterations, pts);
    forall i | 0 <= i < |lines|
      ensures |lines[i]| == Stride(iterations) + 1 && lines[i][0] == pts[i] && lines[i][Stride(iterations)] == pts[i + 1]
    {
      var b := Bisect(core, wrap, pts[i], pts[i + 1], iterations);
      BisectShape(core, wrap, pts[i], pts[i + 1], iterations);
      assert lines[i] == b;
    }
  }

  lemma EdgeLinesLinked(core: GeodesicCore, wrap: bool, iterations: int, pts: seq<Point>)
    ensures Linked(EdgeLines(core, wrap, iterations, pts), Stride(iterations))
  {
    EdgeLinesEnds(core, wrap, iterations, pts);
  }

  /** The linestring `multiLineString` builds from waypoints `pts`: their edge polylines joined. */
  function Chain(core: GeodesicCore, wrap: bool, iterations: int, pts: seq<Point>): seq<Point>
  {
    Joined(EdgeLines(core, wrap, iterations, pts))
  }

  /** With fewer than two waypoints there is no edge and the chain is empty. */
  lemma ChainShort(core: GeodesicCore, wrap: bool, iterations: int, pts: seq<Point>)
    requires |pts| < 2
    ensures Chain(core, wrap, iterations, pts) == []
  {
  }

  /**
    A chain of n >= 2 waypoints holds Offset(n - 1, L - 1) + 1 = (n - 1) * (L - 1) + 1
    points, L being the points per edge polyline, and waypoint e sits at position
    Offset(e, L - 1) = e * (L - 1).
  */
  lemma {:induction false} ChainShape(core: GeodesicCore, wrap: bool, iterations: int, pts: seq<Point>)
    requires |pts| >= 2
    ensures var r := Chain(core, wrap, iterations, pts);
            var w := Stride(iterations);
            && |r| == Offset(|pts| - 1, w) + 1
            && forall e :: 0 <= e < |pts| ==> Offset(e, w) < |r| && r[Offset(e, w)] == pts[e]
  {
    var lines := EdgeLines(core, wrap, iterations, pts);
    EdgeLinesLinked(core, wrap, iterations, pts);
    EdgeLinesEnds(core, wrap, iterations, pts);
    JoinedVertices(lines, Stride(iterations), pts);
  }

  /**
    Edge e of a chain occupies the L positions from Offset(e, L - 1) = e * (L - 1):
    the chain is the edge polylines laid end to end, each inner waypoint shared
    by the two edges that meet there rather than repeated.
  */
  lemma {:induction false} ChainEdges(core: GeodesicCore, wrap: bool, iterations: int, pts: seq<Point>, e: nat)
    requires e < |pts| - 1
    ensures var w := Stride(iterations);
            var r := Chain(core, wrap, iterations, pts);
            && Offset(e, w) + w < |r|
            && r[Offset(e, w) .. Offset(e, w) + w + 1] == Bisect(core, wrap, pts[e], pts[e + 1], iterations)
  {
    var w := Stride(iterations);
    var lines := EdgeLines(core, wrap, iterations, pts);
    EdgeLinesLinked(core, wrap, iterations, pts);
    JoinedWindows(lines, w, e);
    var r := Joined(lines);
    var o := Offset(e, w);
    assert r[o .. o + w + 1] == lines[e];
    assert lines[e] == Bisect(core, wrap, pts[e], pts[e + 1], iterations);
  }
}
