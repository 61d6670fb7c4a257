/**
  How `multiLineString` lays the densified edges of a linestring end to end:
  the invariants of its loops and the steps that keep them.
*/
module Chains {
  import opened Primitives
  import opened Points
  import opened Subdivision

  /**
    What `multiLineString` has built after its first j - 1 edges: the values of
    the first j - 1 edge polylines joined, with the first j waypoints in place.
  */
  ghost predicate Chained(segment: seq<LatLng>, linestring: seq<LatLng>, lines: seq<seq<Point>>, j: nat, w: nat)
    reads segment
  {
    && 1 <= j <= |lines| + 1
    && Values(segment) == Joined(lines[..j - 1])
    && (j == 1 ==> segment == [])
    && (j >= 2 ==> |segment| == Offset(j - 1, w) + 1 && Waypoints(segment, linestring, j, w))
  }

  /** `s.splice(s.length - 1, 1, ...items)`: the last element of `s` is replaced by `items`. */
  function Extended<T>(s: seq<T>, items: seq<T>): seq<T>
  {
    Splice(s, |s| - 1, 1, items)
  }

  /** The first k linestrings of `latlngs` densified, each into its chain, waypoints in place. */
  ghost predicate Built(core: GeodesicCore, wrap: bool, depth: int, mls: seq<seq<LatLng>>, latlngs: seq<seq<LatLng>>, k: nat)
    reads Objects(mls), Objects(latlngs)
  {
    && k <= |latlngs| && |mls| == k
    && forall k' :: 0 <= k' < k ==>
         && Values(mls[k']) == Chain(core, wrap, depth, Values(latlngs[k']))
         && (|latlngs[k']| >= 2 ==> Waypoints(mls[k'], latlngs[k'], |latlngs[k']|, Stride(depth)))
  }

  /** Nothing is built before the first linestring. */
  lemma Builds(core: GeodesicCore, wrap: bool, depth: int, mls: seq<seq<LatLng>>, latlngs: seq<seq<LatLng>>)
    requires mls == []
    ensures Built(core, wrap, depth, mls, latlngs, 0)
  {
  }

  /** Appending the chain of linestring k builds one more. */
  lemma BuiltStep(core: GeodesicCore, wrap: bool, depth: int, mls: seq<seq<LatLng>>, latlngs: seq<seq<LatLng>>, k: nat,
                  segment: seq<LatLng>)
    requires k < |latlngs| && Built(core, wrap, depth, mls, latlngs, k)
    requires Values(segment) == Chain(core, wrap, depth, Values(latlngs[k]))
    requires |latlngs[k]| >= 2 ==> Waypoints(segment, latlngs[k], |latlngs[k]|, Stride(depth))
    ensures Built(core, wrap, depth, mls + [segment], latlngs, k + 1)
  {
    var next := mls + [segment];
    forall k' | 0 <= k' < k + 1
      ensures && Values(next[k']) == Chain(core, wrap, depth, Values(latlngs[k']))
              && (|latlngs[k']| >= 2 ==> Waypoints(next[k'], latlngs[k'], |latlngs[k']|, Stride(depth)))
    {
      if k' < k {
        assert next[k'] == mls[k'];
      }
    }
  }

  /** Before the first edge the chain is empty. */
  lemma ChainStart(linestring: seq<LatLng>, lines: seq<seq<Point>>, w: nat)
    ensures Chained([], linestring, lines, 1, w)
  {
    assert lines[..0] == [];
  }

  /** Once every edge is spliced in, the chain is complete. */
  lemma ChainDone(core: GeodesicCore, wrap: bool, depth: int, segment: seq<LatLng>, linestring: seq<LatLng>,
                  lines: seq<seq<Point>>, j: nat)
    requires lines == EdgeLines(core, wrap, depth, Values(linestring))
    requires Chained(segment, linestring, lines, j, Stride(depth)) && !(j < |linestring|)
    ensures Values(segment) == Chain(core, wrap, depth, Values(linestring))
    ensures |linestring| >= 2 ==> Waypoints(segment, linestring, |linestring|, Stride(depth))
  {
    assert lines[..|lines|] == lines;
  }

  /**
    Splicing the polyline of edge j - 1 over the last point of the chain of the
    first j waypoints gives the chain of the first j + 1.
  */
  lemma ChainStep(core: GeodesicCore, wrap: bool, depth: int, linestring: seq<LatLng>, lines: seq<seq<Point>>,
                  segment: seq<LatLng>, line: seq<LatLng>, j: nat)
    requires 1 <= j < |linestring|
    requires lines == EdgeLines(core, wrap, depth, Values(linestring))
    requires Chained(segment, linestring, lines, j, Stride(depth))
    requires Values(line) == Bisect(core, wrap, linestring[j - 1].Value(), linestring[j].Value(), depth)
    requires |line| == Stride(depth) + 1 && line[0] == linestring[j - 1] && line[|line| - 1] == linestring[j]
    ensures Chained(Extended(segment, line), linestring, lines, j + 1, Stride(depth))
  {
    EdgeLineAt(core, wrap, depth, linestring, j);
    ChainStepValues(lines, segment, line, j);
    ChainStepShape(linestring, segment, line, j, Stride(depth));
  }

  /** Edge polyline j - 1 of a linestring is the bisection between the values of its waypoints j - 1 and j. */
  lemma EdgeLineAt(core: GeodesicCore, wrap: bool, depth: int, linestring: seq<LatLng>, j: nat)
    requires 1 <= j < |linestring|
    ensures EdgeLines(core, wrap, depth, Values(linestring))[j - 1]
         == Bisect(core, wrap, linestring[j - 1].Value(), linestring[j].Value(), depth)
  {
    ValuesIndex(linestring);
  }

  /**
    Splicing the polyline of edge j - 1 over the last point of the chain of the
    first j waypoints puts the first j + 1 waypoints in place.
  */
  lemma ChainStepShape<T>(ends: seq<T>, segment: seq<T>, line: seq<T>, j: nat, w: nat)
    requires 1 <= j < |ends|
    requires j == 1 ==> segment == []
    requires j >= 2 ==> |segment| == Offset(j - 1, w) + 1 && Waypoints(segment, ends, j, w)
    requires |line| == w + 1 && line[0] == ends[j - 1] && line[w] == ends[j]
    ensures var next := Splice(segment, |segment| - 1, 1, line);
            |next| == Offset(j, w) + 1 && Waypoints(next, ends, j + 1, w)
  {
    SpliceLast(segment, line);
    if j == 1 {
      assert Offset(1, w) == w;
      FirstEdge(line, ends, w);
    } else {
      ExtendChain(segment, line, ends, j, w);
    }
  }

  /** The values of the spliced chain are the first j edge polylines joined. */
  lemma ChainStepValues(lines: seq<seq<Point>>, segment: seq<LatLng>, line: seq<LatLng>, j: nat)
    requires 1 <= j <= |lines|
    requires Values(segment) == Joined(lines[..j - 1])
    requires Values(line) == lines[j - 1]
    requires j >= 2 ==> |segment| >= 1
    ensures Values(Splice(segment, |segment| - 1, 1, line)) == Joined(lines[..j])
  {
    JoinedStep(lines, j);
    SpliceLast(segment, line);
    if j == 1 {
      assert Joined(lines[..j]) == lines[0];
      assert lines[..0] == [];
      assert segment == [];
    } else {
      var f := Values(segment);
      ValuesJoin(segment, line, f, Values(line));
      assert Joined(lines[..j]) == f[..|f| - 1] + lines[j - 1];
    }
  }

  /** The array `s.splice(s.length - 1, 1, ...items)` leaves: `s` without its last element, then `items`. */
  lemma SpliceLast<T>(s: seq<T>, items: seq<T>)
    ensures s == [] ==> Splice(s, |s| - 1, 1, items) == items
    ensures s != [] ==> Splice(s, |s| - 1, 1, items) == s[..|s| - 1] + items
  {
  }

  /** Waypoint e of `ends`, for every e < n, sits at position Offset(e, w) of `chain`. */
  ghost predicate Waypoints<T>(chain: seq<T>, ends: seq<T>, n: nat, w: nat)
  {
    && n <= |ends|
    && forall e :: 0 <= e < n ==> Offset(e, w) < |chain| && chain[Offset(e, w)] == ends[e]
  }

  /** The first edge polyline alone holds the first two waypoints at positions 0 and w. */
  lemma FirstEdge<T>(line: seq<T>, ends: seq<T>, w: nat)
    requires 2 <= |ends| && |line| == w + 1 && line[0] == ends[0] && line[w] == ends[1]
    ensures |line| == Offset(1, w) + 1
    ensures Waypoints(line, ends, 2, w)
  {
    assert Offset(1, w) == w;
  }

  /** Joining the first j lines is joining the first j - 1 and then line j - 1. */
  lemma JoinedStep<T>(lines: seq<seq<T>>, j: nat)
    requires 1 <= j <= |lines|
    ensures var f := Joined(lines[..j - 1]);
            Joined(lines[..j]) == if j == 1 then lines[0] else (if f == [] then [] else f[..|f| - 1]) + lines[j - 1]
  {
    assert lines[..j][..j - 1] == lines[..j - 1];
  }

  /**
    Splicing edge j - 1's polyline over the last point of a chain of the first j
    waypoints gives the chain of the first j + 1, with every waypoint in place.
  */
  lemma ExtendChain<T>(before: seq<T>, line: seq<T>, ends: seq<T>, j: nat, w: nat)
    requires 2 <= j < |ends|
    requires |before| == Offset(j - 1, w) + 1
    requires Waypoints(before, ends, j, w)
    requires |line| == w + 1 && line[0] == ends[j - 1] && line[w] == ends[j]
    ensures |before[..|before| - 1] + line| == Offset(j, w) + 1
    ensures Waypoints(before[..|before| - 1] + line, ends, j + 1, w)
  {
    var after := before[..|before| - 1] + line;
    forall e | 0 <= e < j + 1
      ensures Offset(e, w) < |after| && after[Offset(e, w)] == ends[e]
    {
      if e < j - 1 {
        OffsetMono(e, j - 2, w);
        assert after[Offset(e, w)] == before[Offset(e, w)];
      } else if e == j - 1 {
        assert after[Offset(e, w)] == line[0];
      } else {
        assert after[Offset(e, w)] == line[w];
      }
    }
  }

  /**
    `[s, d]` with its first element replaced by `front` and then its last two
    by `back`: the front polyline up to its last point, then the back one.
  */
  lemma SplicedHalves<T>(s: T, d: T, front: seq<T>, back: seq<T>)
    requires |front| >= 1
    ensures var g := Splice([s, d], 0, 1, front);
            Splice(g, |g| - 2, 2, back) == front[..|front| - 1] + back
  {
    var g := Splice([s, d], 0, 1, front);
    assert g == front + [d];
    assert g[..|g| - 2] == front[..|front| - 1];
  }

  /** At depth 0 the midpoint is inserted between the two ends. */
  lemma SplicedMiddle<T>(s: T, d: T, m: T)
    ensures Splice([s, d], 1, 0, [m]) == [s, m, d]
  {
  }

  lemma HalvesEnds<T>(front: seq<T>, back: seq<T>)
    requires |front| >= 3 && |back| >= 3
    ensures var g := front[..|front| - 1] + back;
            |g| >= 3 && g[0] == front[0] && g[|g| - 1] == back[|back| - 1]
  {
  }

  /** The values of a front polyline, without its last point, joined to a back polyline. */
  lemma ValuesJoin(front: seq<LatLng>, back: seq<LatLng>, frontValues: seq<Point>, backValues: seq<Point>)
    requires |front| >= 1 && Values(front) == frontValues && Values(back) == backValues
    ensures Values(front[..|front| - 1] + back) == frontValues[..|front| - 1] + backValues
  {
    var n := |front| - 1;
    var g := front[..n] + back;
    var v := frontValues[..n] + backValues;
    ValuesIndex(front);
    ValuesIndex(back);
    forall i | 0 <= i < |g|
      ensures g[i].Value() == v[i]
    {
      if i < n {
        assert g[i] == front[i];
      } else {
        assert g[i] == back[i - n];
      }
    }
    ValuesEqual(g, v);
  }

  /**
    `[s, d]` with its first element replaced by the front polyline, then its
    last two by the back one.
  */
  method SpliceHalves<T>(s: T, d: T, front: seq<T>, back: seq<T>) returns (geom: seq<T>)
    requires |front| >= 1
    ensures geom == front[..|front| - 1] + back
  {
    geom := [s, d];
    geom := Splice(geom, 0, 1, front);
    geom := Splice(geom, |geom| - 2, 2, back);
    SplicedHalves(s, d, front, back);
  }

  /** The bisections of the two halves, joined, are the bisection of the whole edge. */
  lemma JoinHalves(core: GeodesicCore, wrap: bool, s: LatLng, m: LatLng, d: LatLng, iterations: int,
                   front: seq<LatLng>, back: seq<LatLng>)
    requires iterations > 0 && m.Value() == Midpoint(core, wrap, s.Value(), d.Value())
    requires Values(front) == Bisect(core, wrap, s.Value(), m.Value(), iterations - 1)
    requires |front| >= 3 && front[0] == s && front[|front| - 1] == m
    requires Values(back) == Bisect(core, wrap, m.Value(), d.Value(), iterations - 1)
    requires |back| >= 3 && back[0] == m && back[|back| - 1] == d
    ensures var g := front[..|front| - 1] + back;
            |g| >= 3 && g[0] == s && g[|g| - 1] == d
    ensures Values(front[..|front| - 1] + back) == Bisect(core, wrap, s.Value(), d.Value(), iterations)
  {
    HalvesEnds(front, back);
    ValuesJoin(front, back, Values(front), Values(back));
    BisectHalves(core, wrap, s.Value(), d.Value(), iterations, m.Value());
  }

  /** One level of bisection: the front half, up to the midpoint, then the back half. */
  lemma BisectHalves(core: GeodesicCore, wrap: bool, s: Point, d: Point, iterations: int, m: Point)
    requires iterations > 0 && m == Midpoint(core, wrap, s, d)
    ensures var front := Bisect(core, wrap, s, m, iterations - 1);
            Bisect(core, wrap, s, d, iterations) == front[..|front| - 1] + Bisect(core, wrap, m, d, iterations - 1)
  {
  }
}
