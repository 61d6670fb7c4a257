/**
  The geometry engine of the geodesic layers: it densifies linestrings with
  recursive great-circle midpoints, approximates circles, splits linestrings
  where they cross the antimeridian and measures them. Point objects are passed
  by reference, and the antimeridian split clamps the caller's own objects.
*/
module Geometry {
  import opened Primitives
  import opened Points
  import opened Subdivision
  import opened Antimeridian
  import opened Measures
  import opened Chains
  import opened Splits

  /** A field of the options object: left out, present but `undefined`, or given. */
  datatype Opt<T> = Absent | Undefined | Given(value: T)

  datatype GeodesicOptions = GeodesicOptions(wrap: Opt<bool>, steps: Opt<int>)

  /** `{ wrap: true, steps: 3 }`. */
  const DefaultOptions: GeodesicOptions := GeodesicOptions(Given(true), Given(3))
  const DefaultSteps: int := 3
  /** Deepest bisection a line is given. */
  const MaxLineDepth: int := 8

  /** `{ ...defaults, ...options }`: a field the caller's object has, even as `undefined`, wins. */
  function Merge(defaults: GeodesicOptions, options: GeodesicOptions): (r: GeodesicOptions)
    ensures r.wrap == if options.wrap.Absent? then defaults.wrap else options.wrap
    ensures r.steps == if options.steps.Absent? then defaults.steps else options.steps
  {
    GeodesicOptions(
      if options.wrap.Absent? then defaults.wrap else options.wrap,
      if options.steps.Absent? then defaults.steps else options.steps)
  }

  /**
    What the overlay means for a caller: an empty options object keeps the
    defaults, a fully given one replaces them, overlaying twice changes
    nothing, and wrapping stays on unless the caller says otherwise.
  */
  lemma MergeLaws(defaults: GeodesicOptions, options: GeodesicOptions)
    ensures Merge(defaults, GeodesicOptions(Absent, Absent)) == defaults
    ensures !options.wrap.Absent? && !options.steps.Absent? ==> Merge(defaults, options) == options
    ensures Merge(Merge(defaults, options), options) == Merge(defaults, options)
    ensures Merge(DefaultOptions, options).wrap == Given(true) <==> options.wrap.Absent? || options.wrap == Given(true)
  {
  }

  /** `Math.min(MaxLineDepth, steps)`. */
  function LineDepth(steps: int): (d: int)
    ensures d <= MaxLineDepth && (d == steps || d == MaxLineDepth)
    ensures steps <= MaxLineDepth ==> d == steps
  {
    if steps < MaxLineDepth then steps else MaxLineDepth
  }

  /** Bearing of circle point i: `360 / steps * i`, taken as 0 where JavaScript gives NaN (steps == 0). */
  function CircleBearing(steps: int, i: int): real
  {
    if steps == 0 then 0.0 else 360.0 / (steps as real) * (i as real)
  }

  /** Number of points a circle gets: one per step plus the closing one, none for steps below 0. */
  function CirclePoints(steps: int): nat
  {
    if steps + 1 < 0 then 0 else steps + 1
  }

  /**
    A line holds Stride(LineDepth(steps)) + 1 points: never more than 2^9 + 1,
    whatever `steps` is, and 17 with the default of 3 steps.
  */
  lemma LinePoints(steps: int)
    ensures Stride(LineDepth(steps)) + 1 <= 513
    ensures steps == DefaultSteps ==> Stride(LineDepth(steps)) + 1 == 17
  {
    Pow2Mono(Levels(LineDepth(steps)), 9);
    assert Pow2(9) == 512;
    if steps == DefaultSteps {
      assert Levels(LineDepth(steps)) == 4;
    }
  }

  /** The statistics record of a geometry. */
  datatype Statistics = Statistics(distanceArray: seq<real>, totalDistance: real, points: nat, vertices: nat)

  class GeodesicGeometry {
    const geodesic: GeodesicCore
    const options: GeodesicOptions
    var steps: int

    /** Whether midpoint longitudes are wrapped: `options.wrap` is truthy. */
    predicate Wraps()
    {
      options.wrap == Given(true)
    }

    /** The caller's options are spread over the defaults; `steps` falls back to 3 when `undefined`. */
    constructor (core: GeodesicCore, userOptions: GeodesicOptions)
      ensures geodesic == core
      ensures options == Merge(DefaultOptions, userOptions)
      ensures steps == if userOptions.steps.Given? then userOptions.steps.value else DefaultSteps
    {
      geodesic := core;
      var merged := Merge(DefaultOptions, userOptions);
      options := merged;
      steps := if merged.steps.Undefined? then DefaultSteps else merged.steps.value;
    }

    /**
      `recursiveMidpoint`: the polyline from `start` to `dest` with recursive
      midpoints inserted. Its ends are the argument objects themselves; every
      point in between is a new object.
    */
    method RecursiveMidpoint(start: LatLng, dest: LatLng, iterations: int) returns (geom: seq<LatLng>)
      ensures Values(geom) == Bisect(geodesic, Wraps(), start.Value(), dest.Value(), iterations)
      ensures |geom| >= 3 && geom[0] == start && geom[|geom| - 1] == dest
      decreases if iterations > 0 then iterations else 0
    {
      geom := [start, dest];
      var midpoint := MidpointOf(start, dest);
      if iterations > 0 {
        var front := RecursiveMidpoint(start, midpoint, iterations - 1);
        var back := RecursiveMidpoint(midpoint, dest, iterations - 1);
        geom := SpliceHalves(start, dest, front, back);
        JoinHalves(geodesic, Wraps(), start, midpoint, dest, iterations, front, back);
      } else {
        SplicedMiddle(start, dest, midpoint);
        geom := Splice(geom, 1, 0, [midpoint]);
        ValuesEqual(geom, [start.Value(), midpoint.Value(), dest.Value()]);
      }
    }

    method MidpointOf(start: LatLng, dest: LatLng) returns (midpoint: LatLng)
      ensures fresh(midpoint)
      ensures midpoint.Value() == Midpoint(geodesic, Wraps(), start.Value(), dest.Value())
    {
      var m := geodesic.midpoint(start.Value(), dest.Value());
      midpoint := new LatLng(m.lat, m.lng);
      if Wraps() {
        midpoint.lng := geodesic.wrap180(midpoint.lng);
      }
    }

    /** `line`: the edge densified to depth `min(8, steps)`. */
    method Line(start: LatLng, dest: LatLng) returns (geom: seq<LatLng>)
      ensures Values(geom) == Bisect(geodesic, Wraps(), start.Value(), dest.Value(), LineDepth(steps))
      ensures |geom| == Stride(LineDepth(steps)) + 1 && geom[0] == start && geom[|geom| - 1] == dest
    {
      geom := RecursiveMidpoint(start, dest, LineDepth(steps));
      BisectShape(geodesic, Wraps(), start.Value(), dest.Value(), LineDepth(steps));
    }

    /** `circle`: `steps + 1` new points at the given distance from the center. */
    method Circle(center: LatLng, radius: real) returns (points: seq<LatLng>)
      ensures |points| == CirclePoints(steps)
      ensures forall i :: 0 <= i < |points| ==>
                points[i].Value() == geodesic.direct(center.Value(), CircleBearing(steps, i), radius)
    {
      points := [];
      var i := 0;
      while i < steps + 1
        invariant 0 <= i && (i <= steps + 1 || i == 0)
        invariant |points| == i
        invariant forall k :: 0 <= k < i ==>
                    points[k].Value() == geodesic.direct(center.Value(), CircleBearing(steps, k), radius)
      {
        var p := geodesic.direct(center.Value(), CircleBearing(steps, i), radius);
        var point := new LatLng(p.lat, p.lng);
        points := points + [point];
        i := i + 1;
      }
    }

    /**
      `multiLineString`: each linestring densified edge by edge, each new edge
      polyline replacing the last point of the one before. Waypoint e of a
      linestring stays the same object, at position Offset(e, L - 1).
    */
    method MultiLineString(latlngs: seq<seq<LatLng>>) returns (mls: seq<seq<LatLng>>)
      ensures |mls| == |latlngs|
      ensures forall k :: 0 <= k < |mls| ==>
                Values(mls[k]) == Chain(geodesic, Wraps(), LineDepth(steps), Values(latlngs[k]))
      ensures forall k :: 0 <= k < |mls| && |latlngs[k]| >= 2 ==>
                Waypoints(mls[k], latlngs[k], |latlngs[k]|, Stride(LineDepth(steps)))
    {
      mls := [];
      var k := 0;
      Builds(geodesic, Wraps(), LineDepth(steps), mls, latlngs);
      while k < |latlngs|
        invariant k <= |latlngs|
        invariant Built(geodesic, Wraps(), LineDepth(steps), mls, latlngs, k)
      {
        var segment := ChainLine(latlngs[k]);
        BuiltStep(geodesic, Wraps(), LineDepth(steps), mls, latlngs, k, segment);
        mls := mls + [segment];
        k := k + 1;
      }
    }

    /** The body of the `forEach` in `multiLineString`: one linestring densified. */
    method ChainLine(linestring: seq<LatLng>) returns (segment: seq<LatLng>)
      ensures Values(segment) == Chain(geodesic, Wraps(), LineDepth(steps), Values(linestring))
      ensures |linestring| >= 2 ==> Waypoints(segment, linestring, |linestring|, Stride(LineDepth(steps)))
    {
      ghost var lines := EdgeLines(geodesic, Wraps(), LineDepth(steps), Values(linestring));
      segment := [];
      var j := 1;
      ChainStart(linestring, lines, Stride(LineDepth(steps)));
      while j < |linestring|
        invariant 1 <= j && (j <= |linestring| || j == 1)
        invariant lines == EdgeLines(geodesic, Wraps(), LineDepth(steps), Values(linestring))
        invariant Chained(segment, linestring, lines, j, Stride(LineDepth(steps)))
      {
        segment := ChainEdge(linestring, lines, segment, j);
        j := j + 1;
      }
      ChainDone(geodesic, Wraps(), LineDepth(steps), segment, linestring, lines, j);
    }

    /** One turn of the inner loop of `multiLineString`: edge j - 1 densified and spliced on. */
    method ChainEdge(linestring: seq<LatLng>, ghost lines: seq<seq<Point>>, segment: seq<LatLng>, j: nat)
      returns (next: seq<LatLng>)
      requires 1 <= j < |linestring|
      requires lines == EdgeLines(geodesic, Wraps(), LineDepth(steps), Values(linestring))
      requires Chained(segment, linestring, lines, j, Stride(LineDepth(steps)))
      ensures Chained(next, linestring, lines, j + 1, Stride(LineDepth(steps)))
    {
      var line := Line(linestring[j - 1], linestring[j]);
      ChainStep(geodesic, Wraps(), LineDepth(steps), linestring, lines, segment, line, j);
      next := Extended(segment, line);
    }

    /**
      `lineString`: one linestring densified, the only entry of the
      multi-linestring made of it alone. Fewer than two points give an empty one.
    */
    method LineString(latlngs: seq<LatLng>) returns (geom: seq<LatLng>)
      ensures Values(geom) == Chain(geodesic, Wraps(), LineDepth(steps), Values(latlngs))
      ensures |latlngs| < 2 ==> geom == []
      ensures |latlngs| >= 2 ==> |geom| == Offset(|latlngs| - 1, Stride(LineDepth(steps))) + 1
      ensures |latlngs| >= 2 ==> Waypoints(geom, latlngs, |latlngs|, Stride(LineDepth(steps)))
    {
      var mls := MultiLineString([latlngs]);
      geom := mls[0];
      if |latlngs| < 2 {
        ChainShort(geodesic, Wraps(), LineDepth(steps), Values(latlngs));
      } else {
        ChainShape(geodesic, Wraps(), LineDepth(steps), Values(latlngs));
      }
    }

    /**
      `splitLine`: clamps the longitudes of both argument objects to
      [-MaxLng, MaxLng], in place, then splits the edge where it crosses the
      antimeridian. A crossing point is a new object; when it lies beyond
      +-DatelineLng the second half starts at a new shifted copy of it.
    */
    method SplitLine(start: LatLng, dest: LatLng) returns (split: seq<seq<LatLng>>)
      modifies start, dest
      ensures start.Value() == Clamp(old(start.Value())) && dest.Value() == Clamp(old(dest.Value()))
      ensures MultiValues(split) == SplitEdge(geodesic, old(start.Value()), old(dest.Value()))
      ensures |split| == 1 ==> split == [[start, dest]]
      ensures |split| == 2 ==> split == [[start, split[0][1]], [split[1][0], dest]] && fresh(split[0][1]) && fresh(split[1][0])
      ensures |split| == 2 && -DatelineLng <= split[0][1].lng <= DatelineLng ==> split[1][0] == split[0][1]
    {
      ghost var s, d := start.Value(), dest.Value();
      start.lng := if start.lng < -MaxLng then -MaxLng else start.lng;
      start.lng := if start.lng > MaxLng then MaxLng else start.lng;
      dest.lng := if dest.lng < -MaxLng then -MaxLng else dest.lng;
      dest.lng := if dest.lng > MaxLng then MaxLng else dest.lng;
      ClampLngIdempotent(s.lng);
      ClampLngIdempotent(d.lng);
      SplitEdgeCases(geodesic, s, d, start.Value(), dest.Value());
      split := SplitClamped(start, dest, SplitEdge(geodesic, s, d));
    }

    /** The part of `splitLine` after the clamp: the crossing test and the halves. */
    method SplitClamped(start: LatLng, dest: LatLng, ghost edge: seq<seq<Point>>) returns (split: seq<seq<LatLng>>)
      requires var line := geodesic.inverse(start.Value(), dest.Value());
               var hit := geodesic.intersection(start.Value(), line.initialBearing,
                                                Reference(line.initialBearing), MeridianBearing);
               && (hit.None? || !(geodesic.inverse(start.Value(), hit.value).distance < line.distance) ==>
                     edge == [[start.Value(), dest.Value()]])
               && (hit.Some? && geodesic.inverse(start.Value(), hit.value).distance < line.distance ==>
                     edge == [[start.Value(), hit.value], [ShiftAcross(hit.value), dest.Value()]])
      ensures MultiValues(split) == edge
      ensures |split| == 1 ==> split == [[start, dest]]
      ensures |split| == 2 ==> split == [[start, split[0][1]], [split[1][0], dest]] && fresh(split[0][1]) && fresh(split[1][0])
      ensures |split| == 2 && -DatelineLng <= split[0][1].lng <= DatelineLng ==> split[1][0] == split[0][1]
    {
      var line := geodesic.inverse(start.Value(), dest.Value());
      var hit: Option<Point>;
      if line.initialBearing > 180.0 {
        hit := geodesic.intersection(start.Value(), line.initialBearing, AntimeridianWest, MeridianBearing);
      } else {
        hit := geodesic.intersection(start.Value(), line.initialBearing, AntimeridianEast, MeridianBearing);
      }
      if hit.Some? {
        var intersection := new LatLng(hit.value.lat, hit.value.lng);
        var intersectionDistance := geodesic.inverse(start.Value(), intersection.Value());
        if intersectionDistance.distance < line.distance {
          if intersection.lng < -DatelineLng {
            var shifted := new LatLng(intersection.lat, intersection.lng + 360.0);
            split := [[start, intersection], [shifted, dest]];
          } else if intersection.lng > DatelineLng {
            var shifted := new LatLng(intersection.lat, intersection.lng - 360.0);
            split := [[start, intersection], [shifted, dest]];
          } else {
            split := [[start, intersection], [intersection, dest]];
          }
          TwoEdgeValues(split[0][0], split[0][1], split[1][0], split[1][1]);
          return;
        }
      }
      split := [[start, dest]];
      OneEdgeValues(start, dest);
    }

    /**
      `splitMultiLineString`: each linestring of two or more points is walked
      edge by edge and cut where an edge crosses the antimeridian; a linestring
      of one point is passed through as it is. The clamp of `splitLine` is
      written into the caller's own point objects.
    */
    method SplitMultiLineString(multilinestring: seq<seq<LatLng>>) returns (result: seq<seq<LatLng>>)
      modifies Objects(multilinestring)
      ensures forall o :: o in Objects(multilinestring) ==>
                o.Value() == if OnEdgeFrom(o, multilinestring, 0) then Clamp(old(o.Value())) else old(o.Value())
      ensures MultiValues(result) == SplitPaths(geodesic, MultiValues(multilinestring))
      ensures |result| == |multilinestring| + TotalSplits(geodesic, MultiValues(multilinestring))
      ensures TotalSplits(geodesic, MultiValues(multilinestring)) == 0 ==> result == multilinestring
    {
      ghost var fin := FinalValues(multilinestring);
      PendingStart(multilinestring, fin);
      GatherStart(geodesic, multilinestring, fin);
      result := [];
      var k := 0;
      while k < |multilinestring|
        invariant k <= |multilinestring|
        invariant EdgesFinal(multilinestring, fin)
        invariant Pending(multilinestring, fin, k) && Gathered(geodesic, multilinestring, fin, result, k)
      {
        if |multilinestring[k]| == 1 {
          GatherSingle(geodesic, multilinestring, fin, result, k);
          result := result + [multilinestring[k]];
        } else {
          var paths := GatherWalk(multilinestring, fin, result, k);
          result := result + paths;
        }
        k := k + 1;
      }
      GatherDone(geodesic, multilinestring, fin, result);
      SplitPathsCount(geodesic, MultiValues(multilinestring));
      assert multilinestring[..k] == multilinestring;
    }

    /** The `else` branch of the `forEach` in `splitMultiLineString`: the paths of linestring k, to be appended. */
    method GatherWalk(multilinestring: seq<seq<LatLng>>, ghost fin: map<LatLng, Point>,
                      ghost result: seq<seq<LatLng>>, k: nat) returns (paths: seq<seq<LatLng>>)
      modifies multilinestring[k]
      requires k < |multilinestring| && |multilinestring[k]| != 1 && EdgesFinal(multilinestring, fin)
      requires Pending(multilinestring, fin, k) && Gathered(geodesic, multilinestring, fin, result, k)
      ensures Pending(multilinestring, fin, k + 1) && Gathered(geodesic, multilinestring, fin, result + paths, k + 1)
      ensures |paths| >= 1 && (|paths| == 1 ==> paths == [multilinestring[k]])
    {
      RecordedApart(multilinestring, fin, result, k);
      paths := WalkLine(multilinestring, fin, k);
      GatherStep(geodesic, multilinestring, fin, result, paths, k);
    }

    /** Linestring k, of other than one point, walked: its points settle and its paths are read through `fin`. */
    method WalkLine(multilinestring: seq<seq<LatLng>>, ghost fin: map<LatLng, Point>, k: nat) returns (paths: seq<seq<LatLng>>)
      modifies multilinestring[k]
      requires k < |multilinestring| && |multilinestring[k]| != 1
      requires EdgesFinal(multilinestring, fin) && Pending(multilinestring, fin, k)
      ensures Pending(multilinestring, fin, k + 1)
      ensures MultiView(paths, fin) == SplitPath(geodesic, Finals(multilinestring[k], fin))
      ensures |paths| >= 1 && (|paths| == 1 ==> paths == [multilinestring[k]])
    {
      if |multilinestring[k]| >= 2 {
        PendingLine(multilinestring, fin, k);
      }
      paths := SplitWalk(multilinestring[k], fin);
      PendingStep(multilinestring, fin, k);
    }

    /** The `else` branch of the `forEach` in `splitMultiLineString`: the paths one linestring becomes. */
    method SplitWalk(linestring: seq<LatLng>, ghost fin: map<LatLng, Point>) returns (paths: seq<seq<LatLng>>)
      modifies linestring
      requires |linestring| != 1
      requires Settling(linestring, fin, 1)
      ensures MultiView(paths, fin) == SplitPath(geodesic, Finals(linestring, fin))
      ensures |linestring| >= 2 ==> Settling(linestring, fin, |linestring|)
      ensures |paths| >= 1 && (|paths| == 1 ==> paths == [linestring])
    {
      var done: seq<seq<LatLng>> := [];
      var segment: seq<LatLng> := [];
      WalkStart(geodesic, linestring, fin);
      var j: nat := 1;
      while j < |linestring|
        invariant 1 <= j && (j <= |linestring| || j == 1)
        invariant Walking(geodesic, linestring, fin, done, segment, j)
      {
        done, segment := WalkEdge(linestring, fin, done, segment, j);
        j := j + 1;
      }
      paths := done + [segment];
      WalkDone(geodesic, linestring, fin, done, segment, j);
    }

    /** One turn of the inner loop of `splitMultiLineString`: edge j - 1 split and walked. */
    method WalkEdge(linestring: seq<LatLng>, ghost fin: map<LatLng, Point>,
                    done: seq<seq<LatLng>>, segment: seq<LatLng>, j: nat)
      returns (paths: seq<seq<LatLng>>, next: seq<LatLng>)
      modifies linestring
      requires 1 <= j < |linestring| && Walking(geodesic, linestring, fin, done, segment, j)
      ensures Walking(geodesic, linestring, fin, paths, next, j + 1)
    {
      ghost var splits := EdgeSplits(geodesic, Finals(linestring, fin));
      RecordedEnds(linestring, fin, j, done, segment);
      var split := SettleEdge(linestring, fin, splits, j);
      TrailStep(fin, splits, linestring, done, segment, split, j);
      next := Pop(segment) + split[0];
      paths := done;
      if |split| > 1 {
        paths := done + [next];
        next := split[1];
      }
    }

    /** `splitLine` on edge j - 1: its ends settle, and the split read through `fin` is that of their final values. */
    method SettleEdge(linestring: seq<LatLng>, ghost fin: map<LatLng, Point>, ghost splits: seq<seq<seq<Point>>>, j: nat)
      returns (split: seq<seq<LatLng>>)
      modifies linestring[j - 1], linestring[j]
      requires 1 <= j < |linestring| && Settling(linestring, fin, j)
      requires splits == EdgeSplits(geodesic, Finals(linestring, fin))
      ensures Settling(linestring, fin, j + 1)
      ensures MultiView(split, fin) == splits[j - 1]
      ensures |split| == 1 ==> split == [[linestring[j - 1], linestring[j]]]
      ensures |split| == 2 ==> split == [[linestring[j - 1], split[0][1]], [split[1][0], linestring[j]]]
      ensures |split| == 2 ==> fresh(split[0][1]) && fresh(split[1][0])
    {
      EdgeSplitAt(geodesic, linestring, fin, j);
      ghost var s, d := linestring[j - 1].Value(), linestring[j].Value();
      split := SplitLine(linestring[j - 1], linestring[j]);
      SettleStep(linestring, fin, j);
      SplitEdgeClampInvariant(geodesic, s, d);
      SplitHolds(split, fin, linestring[j - 1], linestring[j]);
    }

    /** `distance`: the length of the geodesic between the two points, the distance of the two-point linestring they make. */
    method Distance(start: LatLng, dest: LatLng) returns (d: real)
      ensures d == PathDistance(geodesic, [start.Value(), dest.Value()])
    {
      d := geodesic.inverse(start.Value(), dest.Value()).distance;
      PathDistanceShort(geodesic, [start.Value(), dest.Value()]);
    }

    /** `multilineDistance`: for each linestring, the distances of its edges added up. */
    method MultilineDistance(multilinestring: seq<seq<LatLng>>) returns (dist: seq<real>)
      ensures |dist| == |multilinestring|
      ensures forall k :: 0 <= k < |dist| ==> dist[k] == PathDistance(geodesic, Values(multilinestring[k]))
    {
      dist := [];
      var k := 0;
      while k < |multilinestring|
        invariant k <= |multilinestring| && |dist| == k
        invariant forall i :: 0 <= i < k ==> dist[i] == PathDistance(geodesic, Values(multilinestring[i]))
      {
        var segmentDistance := LineDistance(multilinestring[k]);
        dist := dist + [segmentDistance];
        k := k + 1;
      }
    }

    /** The body of the `forEach` in `multilineDistance`: one linestring's edge distances summed in order. */
    method LineDistance(linestring: seq<LatLng>) returns (segmentDistance: real)
      ensures segmentDistance == PathDistance(geodesic, Values(linestring))
    {
      ghost var pts := Values(linestring);
      ValuesIndex(linestring);
      segmentDistance := 0.0;
      var j := 1;
      PathDistanceShort(geodesic, pts[..if |pts| < 1 then 0 else 1]);
      while j < |linestring|
        invariant 1 <= j && (j <= |linestring| || j == 1)
        invariant segmentDistance == PathDistance(geodesic, pts[..if j <= |pts| then j else |pts|])
      {
        var d := Distance(linestring[j - 1], linestring[j]);
        PathDistanceJoin(geodesic, pts[..j], [pts[j - 1], pts[j]]);
        assert pts[..j] + [pts[j - 1], pts[j]][1..] == pts[..j + 1];
        segmentDistance := segmentDistance + d;
        j := j + 1;
      }
      assert pts[..if j <= |pts| then j else |pts|] == pts;
    }

    /**
      `updateStatistics`: the distance of each linestring of `points`, their
      total, and how many positions `points` and `vertices` hold.
    */
    method UpdateStatistics(points: seq<seq<LatLng>>, vertices: seq<seq<LatLng>>) returns (stats: Statistics)
      ensures |stats.distanceArray| == |points|
      ensures forall k :: 0 <= k < |points| ==> stats.distanceArray[k] == PathDistance(geodesic, Values(points[k]))
      ensures stats.totalDistance == Sum(stats.distanceArray)
      ensures stats.points == TotalLength(points) && stats.vertices == TotalLength(vertices)
    {
      var distanceArray := MultilineDistance(points);
      var totalDistance := Total(distanceArray);
      var pointCount := Count(points);
      var vertexCount := Count(vertices);
      stats := Statistics(distanceArray, totalDistance, pointCount, vertexCount);
    }
  }

  /** `xs.reduce((x, y) => x + y, 0)`: the numbers added up from the first on. */
  method Total(xs: seq<real>) returns (total: real)
    ensures total == Sum(xs)
  {
    total := 0.0;
    var i := 0;
    while i < |xs|
      invariant i <= |xs|
      invariant total == Sum(xs[..i])
    {
      SumConcat(xs[..i], [xs[i]]);
      assert xs[..i] + [xs[i]] == xs[..i + 1];
      total := total + xs[i];
      i := i + 1;
    }
    assert xs[..i] == xs;
  }

  /**
    The `forEach` of `updateStatistics` over an array of arrays: each array's
    count, `item.reduce((x) => x + 1, 0)`, which is its length, added on.
  */
  method Count<T>(arrs: seq<seq<T>>) returns (count: nat)
    ensures count == TotalLength(arrs)
  {
    count := 0;
    var k := 0;
    while k < |arrs|
      invariant k <= |arrs|
      invariant count == TotalLength(arrs[..k])
    {
      TotalLengthConcat(arrs[..k], [arrs[k]]);
      assert arrs[..k] + [arrs[k]] == arrs[..k + 1];
      count := count + |arrs[k]|;
      k := k + 1;
    }
    assert arrs[..k] == arrs;
  }
}
