/**
  Value-level meaning of the antimeridian handling: clamping of longitudes,
  the split of one edge where it crosses the antimeridian, and the
  re-assembly of a linestring into the paths that result.
*/
module Antimeridian {
  import opened Primitives
  import opened Points

  /** Longitudes are clamped to [-MaxLng, MaxLng] before an edge is examined. */
  const MaxLng: real := 179.9
  /** A crossing point beyond +-DatelineLng is moved to the other side of the antimeridian. */
  const DatelineLng: real := 179.9999
  /** Both reference meridians are followed due south, bearing 180. */
  const MeridianBearing: real := 180.0
  const AntimeridianWest: Point := Point(89.0, -180.0)
  const AntimeridianEast: Point := Point(89.0, 180.0)

  /** `Math.min(MaxLng, Math.max(-MaxLng, x))`. */
  function ClampLng(x: real): (r: real)
    ensures -MaxLng <= r <= MaxLng
    ensures -MaxLng <= x <= MaxLng ==> r == x
    ensures x < -MaxLng ==> r == -MaxLng
    ensures x > MaxLng ==> r == MaxLng
  {
    var lower := if x < -MaxLng then -MaxLng else x;
    if lower > MaxLng then MaxLng else lower
  }

  lemma ClampLngIdempotent(x: real)
    ensures ClampLng(ClampLng(x)) == ClampLng(x)
  {
  }

  function Clamp(p: Point): Point
  {
    Point(p.lat, ClampLng(p.lng))
  }

  predicate IsClamped(p: Point)
  {
    -MaxLng <= p.lng <= MaxLng
  }

  /** Clamping keeps the latitude, lands in range, fixes points already in range and is idempotent. */
  lemma ClampSpec(p: Point)
    ensures Clamp(p).lat == p.lat
    ensures IsClamped(Clamp(p))
    ensures IsClamped(p) <==> Clamp(p) == p
    ensures Clamp(Clamp(p)) == Clamp(p)
  {
  }

  function ClampAll(pts: seq<Point>): (r: seq<Point>)
    ensures |r| == |pts|
    ensures forall i :: 0 <= i < |pts| ==> r[i] == Clamp(pts[i])
  {
    seq(|pts|, i requires 0 <= i < |pts| => Clamp(pts[i]))
  }

  lemma {:induction false} ClampAllClamped(pts: seq<Point>)
    requires forall i :: 0 <= i < |pts| ==> IsClamped(pts[i])
    ensures ClampAll(pts) == pts
  {
    forall i | 0 <= i < |pts|
      ensures ClampAll(pts)[i] == pts[i]
    {
      ClampSpec(pts[i]);
    }
  }

  /** The reference meridian tested for an edge leaving with the given initial bearing. */
  function Reference(initialBearing: real): (p: Point)
    ensures initialBearing > 180.0 ==> p == AntimeridianWest
    ensures initialBearing <= 180.0 ==> p == AntimeridianEast
  {
    if initialBearing > 180.0 then AntimeridianWest else AntimeridianEast
  }

  /**
    Where the edge s-d crosses the antimeridian, if it does: the intersection of
    the great circle leaving s at the edge's initial bearing with the reference
    meridian, provided that intersection exists and is strictly closer to s than d is.
  */
  function Crossing(core: GeodesicCore, s: Point, d: Point): Option<Point>
  {
    var line := core.inverse(s, d);
    var hit := core.intersection(s, line.initialBearing, Reference(line.initialBearing), MeridianBearing);
    if hit.Some? && core.inverse(s, hit.value).distance < line.distance then hit else None
  }

  /**
    An edge crosses exactly when the intersection with the reference meridian
    chosen by its initial bearing exists and lies strictly before its end.
  */
  lemma CrossingSpec(core: GeodesicCore, s: Point, d: Point)
    ensures var line := core.inverse(s, d);
            var hit := core.intersection(s, line.initialBearing, Reference(line.initialBearing), MeridianBearing);
            && (Crossing(core, s, d).Some? <==> hit.Some? && core.inverse(s, hit.value).distance < line.distance)
            && (Crossing(core, s, d).Some? ==> Crossing(core, s, d) == hit)
  {
  }

  /** The copy of a crossing point that begins the second half of a split edge. */
  function ShiftAcross(i: Point): Point
  {
    if i.lng < -DatelineLng then Point(i.lat, i.lng + 360.0)
    else if i.lng > DatelineLng then Point(i.lat, i.lng - 360.0)
    else i
  }

  /**
    The copy keeps the latitude and names the same meridian: its longitude
    differs by a whole turn, and only a point beyond +-DatelineLng is moved,
    to the opposite side.
  */
  lemma ShiftAcrossSpec(i: Point)
    ensures ShiftAcross(i).lat == i.lat
    ensures var dl := ShiftAcross(i).lng - i.lng; dl == 360.0 || dl == 0.0 || dl == -360.0
    ensures -DatelineLng <= i.lng <= DatelineLng <==> ShiftAcross(i) == i
    ensures -180.0 <= i.lng < -DatelineLng ==> 180.0 <= ShiftAcross(i).lng < 360.0 - DatelineLng
    ensures DatelineLng < i.lng <= 180.0 ==> DatelineLng - 360.0 < ShiftAcross(i).lng <= -180.0
  {
  }

  /**
    `splitLine` on values: the clamped edge, either whole or as two 2-point
    halves meeting at the crossing point, the second half starting at its
    shifted copy.
  */
  function SplitEdge(core: GeodesicCore, s: Point, d: Point): (r: seq<seq<Point>>)
    ensures |r| == 1 || |r| == 2
    ensures |r[0]| == 2 && |r[|r| - 1]| == 2
  {
    var cs := Clamp(s);
    var cd := Clamp(d);
    match Crossing(core, cs, cd)
    case None => [[cs, cd]]
    case Some(i) => [[cs, i], [ShiftAcross(i), cd]]
  }

  /**
    The split edge runs from the clamped start to the clamped end. It has two
    halves exactly when the clamped edge crosses the antimeridian: the first
    ends at the crossing point and the second starts at its shifted copy.
    Otherwise it is the clamped edge itself.
  */
  lemma SplitEdgeSpec(core: GeodesicCore, s: Point, d: Point)
    ensures var r := SplitEdge(core, s, d);
            var c := Crossing(core, Clamp(s), Clamp(d));
            && r[0][0] == Clamp(s) && r[|r| - 1][1] == Clamp(d)
            && (|r| == 2 <==> c.Some?)
            && (c.None? ==> r == [[Clamp(s), Clamp(d)]])
            && (c.Some? ==> r == [[Clamp(s), c.value], [ShiftAcross(c.value), Clamp(d)]])
  {
  }

  /**
    The three outcomes of splitting an edge whose ends hold the clamped `cs` and
    `cd`: no crossing before the end, or a crossing point `i` that begins the
    second half itself or through its shifted copy.
  */
  lemma SplitEdgeCases(core: GeodesicCore, s: Point, d: Point, cs: Point, cd: Point)
    requires cs == Clamp(s) && cd == Clamp(d)
    ensures var line := core.inverse(cs, cd);
            var hit := core.intersection(cs, line.initialBearing, Reference(line.initialBearing), MeridianBearing);
            && (hit.None? || !(core.inverse(cs, hit.value).distance < line.distance) ==>
                  SplitEdge(core, s, d) == [[cs, cd]])
            && (hit.Some? && core.inverse(cs, hit.value).distance < line.distance ==>
                  SplitEdge(core, s, d) == [[cs, hit.value], [ShiftAcross(hit.value), cd]])
  {
  }

  /** Splitting an edge whose ends are already clamped gives the same result. */
  lemma SplitEdgeClampInvariant(core: GeodesicCore, s: Point, d: Point)
    ensures SplitEdge(core, Clamp(s), Clamp(d)) == SplitEdge(core, s, d)
  {
    ClampSpec(s);
    ClampSpec(d);
  }

  /** State of the re-assembly walk: finished paths and the path under construction. */
  datatype Walk<T> = Walk(done: seq<seq<T>>, segment: seq<T>)

  /** The splits of consecutive edges: each one or two halves of two points. */
  ghost predicate WellSplit(splits: seq<seq<seq<Point>>>)
  {
    forall e :: 0 <= e < |splits| ==>
      1 <= |splits[e]| <= 2 && forall h :: 0 <= h < |splits[e]| ==> |splits[e][h]| == 2
  }

  /** One edge of the walk: drop the segment's last point, append the first half; a second half starts a new path. */
  function Step<T>(w: Walk<T>, split: seq<seq<T>>): Walk<T>
    requires |split| >= 1
  {
    var segment := Pop(w.segment) + split[0];
    if |split| > 1 then Walk(w.done + [segment], split[1]) else Walk(w.done, segment)
  }

  /** The walk after the first k of the given edge splits, starting from nothing. */
  function Walked(splits: seq<seq<seq<Point>>>, k: nat): Walk<Point>
    requires k <= |splits| && forall e :: 0 <= e < |splits| ==> |splits[e]| >= 1
  {
    if k == 0 then Walk([], [])
    else Step(Walked(splits, k - 1), splits[k - 1])
  }

  /** The `splitLine` result of every edge of `pts`. */
  function EdgeSplits(core: GeodesicCore, pts: seq<Point>): (r: seq<seq<seq<Point>>>)
    ensures |r| == if |pts| < 2 then 0 else |pts| - 1
    ensures forall e {:trigger r[e]} :: 0 <= e < |r| ==> r[e] == SplitEdge(core, pts[e], pts[e + 1])
  {
    if |pts| < 2 then []
    else seq(|pts| - 1, e requires 0 <= e < |pts| - 1 => SplitEdge(core, pts[e], pts[e + 1]))
  }

  lemma EdgeSplitsWell(core: GeodesicCore, pts: seq<Point>)
    ensures WellSplit(EdgeSplits(core, pts))
  {
  }

  /** The paths `splitMultiLineString` makes of one linestring. */
  function SplitPath(core: GeodesicCore, pts: seq<Point>): seq<seq<Point>>
  {
    if |pts| == 1 then [pts]
    else
      var es := EdgeSplits(core, pts);
      var w := Walked(es, |es|);
      w.done + [w.segment]
  }

  /** The paths of a multilinestring: those of each linestring, in order. */
  function SplitPaths(core: GeodesicCore, m: seq<seq<Point>>): seq<seq<Point>>
  {
    if m == [] then [] else SplitPaths(core, m[..|m| - 1]) + SplitPath(core, m[|m| - 1])
  }

  /** Number of the first k splits that came in two halves. */
  function Halves(splits: seq<seq<seq<Point>>>, k: nat): nat
    requires k <= |splits|
  {
    if k == 0 then 0 else Halves(splits, k - 1) + (if |splits[k - 1]| == 2 then 1 else 0)
  }

  /** Number of edges of a linestring whose split came in two halves, i.e. that cross the antimeridian. */
  function PathSplits(core: GeodesicCore, pts: seq<Point>): nat
  {
    var es := EdgeSplits(core, pts);
    Halves(es, |es|)
  }

  /** Total number of crossing edges in a multilinestring. */
  function TotalSplits(core: GeodesicCore, m: seq<seq<Point>>): nat
  {
    if m == [] then 0 else TotalSplits(core, m[..|m| - 1]) + PathSplits(core, m[|m| - 1])
  }

  /** After k >= 1 splits the segment holds at least two points and ends where split k ends. */
  lemma {:induction false} WalkedSegment(splits: seq<seq<seq<Point>>>, k: nat)
    requires WellSplit(splits) && 1 <= k <= |splits|
    ensures var w := Walked(splits, k);
            var last := splits[k - 1];
            |w.segment| >= 2 && w.segment[|w.segment| - 1] == last[|last| - 1][1]
  {
  }

  /** After k >= 1 splits the last path of the walk ends where split k ends. */
  lemma WalkedEnd(splits: seq<seq<seq<Point>>>, k: nat)
    requires WellSplit(splits) && 1 <= k <= |splits|
    ensures var w := Walked(splits, k);
            var r := w.done + [w.segment];
            var last := splits[k - 1];
            |r[|r| - 1]| > 0 && r[|r| - 1][|r[|r| - 1]| - 1] == last[|last| - 1][1]
  {
    WalkedSegment(splits, k);
  }

  /** The walk finishes one path per two-halved split. */
  lemma {:induction false} WalkedCount(splits: seq<seq<seq<Point>>>, k: nat)
    requires WellSplit(splits) && k <= |splits|
    ensures |Walked(splits, k).done| == Halves(splits, k)
  {
    if k > 0 {
      WalkedCount(splits, k - 1);
    }
  }

  /** Every finished path holds at least two points. */
  lemma {:induction false} WalkedPaths(splits: seq<seq<seq<Point>>>, k: nat)
    requires WellSplit(splits) && k <= |splits|
    ensures var w := Walked(splits, k); forall i :: 0 <= i < |w.done| ==> |w.done[i]| >= 2
  {
    if k > 0 {
      WalkedPaths(splits, k - 1);
      var v := Walked(splits, k - 1);
      if k > 1 {
        WalkedSegment(splits, k - 1);
      }
      if |splits[k - 1]| > 1 {
        var w := Walked(splits, k);
        assert w.done == v.done + [Pop(v.segment) + splits[k - 1][0]];
      }
    }
  }

  /** k >= 1 splits lay out k + 1 points plus two per two-halved split. */
  lemma {:induction false} WalkedTotal(splits: seq<seq<seq<Point>>>, k: nat)
    requires WellSplit(splits) && 1 <= k <= |splits|
    ensures var w := Walked(splits, k); TotalLength(w.done) + |w.segment| == k + 1 + 2 * Halves(splits, k)
  {
    var v := Walked(splits, k - 1);
    var w := Walked(splits, k);
    var seg := Pop(v.segment) + splits[k - 1][0];
    if k > 1 {
      WalkedTotal(splits, k - 1);
      WalkedSegment(splits, k - 1);
    }
    if |splits[k - 1]| > 1 {
      assert w.done == v.done + [seg];
      assert w.done[..|w.done| - 1] == v.done;
    }
  }

  /** The first path of the walk starts where the first split starts. */
  lemma {:induction false} WalkedStart(splits: seq<seq<seq<Point>>>, k: nat)
    requires WellSplit(splits) && 1 <= k <= |splits|
    ensures var w := Walked(splits, k);
            var r := w.done + [w.segment];
            |r[0]| > 0 && r[0][0] == splits[0][0][0]
  {
    if k > 1 {
      WalkedStart(splits, k - 1);
      WalkedSegment(splits, k - 1);
      var v := Walked(splits, k - 1);
      if v.done == [] {
        assert (Pop(v.segment) + splits[k - 1][0])[0] == v.segment[0];
      }
    }
  }

  /** Single-half splits that chain the points of q walk to one segment: q's first k + 1 points. */
  lemma {:induction false} WalkedUnsplit(splits: seq<seq<seq<Point>>>, q: seq<Point>, k: nat)
    requires |q| == |splits| + 1 && 1 <= k <= |splits|
    requires forall e {:trigger splits[e]} :: 0 <= e < |splits| ==> splits[e] == [[q[e], q[e + 1]]]
    ensures Walked(splits, k) == Walk([], q[..k + 1])
  {
    if k > 1 {
      WalkedUnsplit(splits, q, k - 1);
      assert Pop(q[..k]) + [q[k - 1], q[k]] == q[..k + 1];
    }
  }

  /**
    A linestring becomes 1 + (number of crossing edges) paths; one of fewer
    than two points is kept as it is.
  */
  lemma SplitPathCount(core: GeodesicCore, pts: seq<Point>)
    ensures |SplitPath(core, pts)| == 1 + PathSplits(core, pts)
    ensures |pts| < 2 ==> SplitPath(core, pts) == [pts]
  {
    if |pts| >= 2 {
      var es := EdgeSplits(core, pts);
      EdgeSplitsWell(core, pts);
      WalkedCount(es, |es|);
    }
  }

  /**
    The paths of a linestring of n >= 2 points each hold at least two points,
    n points in all plus two per crossing: the crossing point and its shifted copy.
  */
  lemma SplitPathPoints(core: GeodesicCore, pts: seq<Point>)
    requires |pts| >= 2
    ensures var r := SplitPath(core, pts);
            && (forall k :: 0 <= k < |r| ==> |r[k]| >= 2)
            && TotalLength(r) == |pts| + 2 * PathSplits(core, pts)
  {
    var es := EdgeSplits(core, pts);
    var n := |es|;
    EdgeSplitsWell(core, pts);
    WalkedSegment(es, n);
    WalkedPaths(es, n);
    WalkedTotal(es, n);
    var w := Walked(es, n);
    var r := w.done + [w.segment];
    assert r[..|r| - 1] == w.done;
  }

  /** The first path starts at the clamped first point. */
  lemma SplitPathStart(core: GeodesicCore, pts: seq<Point>)
    requires |pts| >= 2
    ensures var r := SplitPath(core, pts);
            |r[0]| > 0 && r[0][0] == Clamp(pts[0])
  {
    var es := EdgeSplits(core, pts);
    EdgeSplitsWell(core, pts);
    WalkedStart(es, |es|);
    assert es[0] == SplitEdge(core, pts[0], pts[1]);
    SplitEdgeSpec(core, pts[0], pts[1]);
  }

  /** The last path ends at the clamped last point. */
  lemma SplitPathEnd(core: GeodesicCore, pts: seq<Point>)
    requires |pts| >= 2
    ensures var r := SplitPath(core, pts);
            |r[|r| - 1]| > 0 && r[|r| - 1][|r[|r| - 1]| - 1] == Clamp(pts[|pts| - 1])
  {
    var es := EdgeSplits(core, pts);
    var n := |es|;
    assert n == |pts| - 1;
    EdgeSplitsWell(core, pts);
    WalkedEnd(es, n);
    var last := es[n - 1];
    var w := Walked(es, n);
    assert SplitPath(core, pts) == w.done + [w.segment];
    SplitEdgeSpec(core, pts[n - 1], pts[n]);
    assert last[|last| - 1][1] == Clamp(pts[n]);
  }

  /** Without a crossing edge every edge splits into just its clamped self. */
  lemma UnsplitEdges(core: GeodesicCore, pts: seq<Point>)
    requires PathSplits(core, pts) == 0
    ensures var es := EdgeSplits(core, pts);
            forall e {:trigger es[e]} :: 0 <= e < |es| ==> es[e] == [[ClampAll(pts)[e], ClampAll(pts)[e + 1]]]
  {
    var es := EdgeSplits(core, pts);
    forall e | 0 <= e < |es|
      ensures es[e] == [[ClampAll(pts)[e], ClampAll(pts)[e + 1]]]
    {
      NoHalvesBefore(es, |es|, e);
      assert es[e] == SplitEdge(core, pts[e], pts[e + 1]);
      SplitEdgeSpec(core, pts[e], pts[e + 1]);
    }
  }

  /** A linestring with no crossing edge becomes one path: its points, clamped. */
  lemma SplitPathUnsplit(core: GeodesicCore, pts: seq<Point>)
    requires |pts| >= 2 && PathSplits(core, pts) == 0
    ensures SplitPath(core, pts) == [ClampAll(pts)]
  {
    var es := EdgeSplits(core, pts);
    var q := ClampAll(pts);
    UnsplitEdges(core, pts);
    WalkedUnsplit(es, q, |es|);
    assert q[..|es| + 1] == q;
  }

  /** With no two-halved split among the first k, each of them has one half. */
  lemma {:induction false} NoHalvesBefore(splits: seq<seq<seq<Point>>>, k: nat, e: nat)
    requires k <= |splits| && Halves(splits, k) == 0 && e < k
    ensures |splits[e]| != 2
    decreases k
  {
    if e < k - 1 {
      NoHalvesBefore(splits, k - 1, e);
    }
  }

  /** A nonempty sequence is its prefix without the last element, then that element. */
  lemma PrefixLast<T>(m: seq<T>)
    requires m != []
    ensures m[..|m| - 1] + [m[|m| - 1]] == m
  {
  }

  /** Every point of a linestring of two or more points is clamped. */
  predicate EdgesClamped(m: seq<seq<Point>>)
  {
    forall k, i :: 0 <= k < |m| && |m[k]| >= 2 && 0 <= i < |m[k]| ==> IsClamped(m[k][i])
  }

  /**
    A multilinestring yields one path per linestring plus one per crossing edge,
    so never fewer paths than linestrings, and exactly as many iff no edge crosses.
  */
  lemma {:induction false} SplitPathsCount(core: GeodesicCore, m: seq<seq<Point>>)
    ensures |SplitPaths(core, m)| == |m| + TotalSplits(core, m)
    ensures |SplitPaths(core, m)| >= |m|
    ensures |SplitPaths(core, m)| == |m| <==> TotalSplits(core, m) == 0
  {
    if m != [] {
      SplitPathsCount(core, m[..|m| - 1]);
      SplitPathCount(core, m[|m| - 1]);
    }
  }

  /** Clamped linestrings with no crossing edge come out point for point as they went in. */
  lemma {:induction false} SplitPathsUnsplit(core: GeodesicCore, m: seq<seq<Point>>)
    requires EdgesClamped(m) && TotalSplits(core, m) == 0
    ensures SplitPaths(core, m) == m
  {
    if m != [] {
      var front := m[..|m| - 1];
      var last := m[|m| - 1];
      assert TotalSplits(core, m) == TotalSplits(core, front) + PathSplits(core, last);
      assert EdgesClamped(front) by {
        forall k, i | 0 <= k < |front| && |front[k]| >= 2 && 0 <= i < |front[k]|
          ensures IsClamped(front[k][i])
        {
          assert front[k] == m[k];
        }
      }
      SplitPathsUnsplit(core, front);
      assert SplitPaths(core, m) == SplitPaths(core, front) + SplitPath(core, last);
      if |last| >= 2 {
        SplitPathUnsplit(core, last);
        assert forall i :: 0 <= i < |last| ==> IsClamped(last[i]);
        ClampAllClamped(last);
      } else {
        SplitPathCount(core, last);
      }
      assert SplitPath(core, last) == [last];
      PrefixLast(m);
    }
  }
}
