/**
  How `splitMultiLineString` re-assembles split edges into paths while
  `splitLine` clamps the input's own point objects one edge at a time.

  The walk is followed through a record `fin` of the value every input object
  holds once the work is done. An object of an array is read through `fin`
  when it is recorded and from the heap otherwise, so the arrays already built
  keep their meaning while the clamp rewrites input objects.
*/
module Splits {
  import opened Primitives
  import opened Points
  import opened Antimeridian

  /** Whether object o lies on a linestring of two or more points at index k or later. */
  ghost predicate OnEdgeFrom(o: LatLng, m: seq<seq<LatLng>>, k: nat)
  {
    exists k' :: k <= k' < |m| && |m[k']| >= 2 && o in m[k']
  }

  /**
    The value each input object holds once `splitMultiLineString` is done: an
    object on an edge is clamped, any other one is left alone.
  */
  ghost function FinalValues(m: seq<seq<LatLng>>): map<LatLng, Point>
    reads Objects(m)
  {
    map o | o in Objects(m) :: if OnEdgeFrom(o, m, 0) then Clamp(o.Value()) else o.Value()
  }

  /** What entry i of s stands for: its recorded final value, or else what it holds. */
  ghost function Seen(s: seq<LatLng>, fin: map<LatLng, Point>, i: nat): Point
    requires i < |s|
    reads if s[i] in fin then {} else {s[i]}
  {
    if s[i] in fin then fin[s[i]] else s[i].Value()
  }

  /** The objects of s that `fin` records no final value for. */
  ghost function Unrecorded(s: seq<LatLng>, fin: map<LatLng, Point>): set<LatLng>
  {
    set i | 0 <= i < |s| && s[i] !in fin :: s[i]
  }

  /** The values array s stands for. */
  ghost function View(s: seq<LatLng>, fin: map<LatLng, Point>): (r: seq<Point>)
    reads Unrecorded(s, fin)
    ensures |r| == |s|
  {
    seq(|s|, i requires 0 <= i < |s| reads Unrecorded(s, fin) => Seen(s, fin, i))
  }

  /** The objects of the arrays of m that `fin` records no final value for. */
  ghost function MultiUnrecorded(m: seq<seq<LatLng>>, fin: map<LatLng, Point>): set<LatLng>
  {
    set k, i | 0 <= k < |m| && 0 <= i < |m[k]| && m[k][i] !in fin :: m[k][i]
  }

  /** The values the arrays of m stand for. */
  ghost function MultiView(m: seq<seq<LatLng>>, fin: map<LatLng, Point>): (r: seq<seq<Point>>)
    reads MultiUnrecorded(m, fin)
    ensures |r| == |m|
  {
    seq(|m|, k requires 0 <= k < |m| reads MultiUnrecorded(m, fin) => View(m[k], fin))
  }

  /** Final values of the points of a linestring, every one of which is recorded. */
  function Finals(s: seq<LatLng>, fin: map<LatLng, Point>): (r: seq<Point>)
    requires forall i :: 0 <= i < |s| ==> s[i] in fin
    ensures |r| == |s|
  {
    seq(|s|, i requires 0 <= i < |s| => fin[s[i]])
  }

  /** Final values of the points of a multilinestring, every one of which is recorded. */
  function MultiFinals(m: seq<seq<LatLng>>, fin: map<LatLng, Point>): (r: seq<seq<Point>>)
    requires forall k, i :: 0 <= k < |m| && 0 <= i < |m[k]| ==> m[k][i] in fin
    ensures |r| == |m|
  {
    seq(|m|, k requires 0 <= k < |m| => Finals(m[k], fin))
  }

  /** Every point object of m has a recorded final value. */
  ghost predicate Recorded(m: seq<seq<LatLng>>, fin: map<LatLng, Point>)
  {
    forall k, i :: 0 <= k < |m| && 0 <= i < |m[k]| ==> m[k][i] in fin
  }

  /** Arrays read through `fin` once every recorded object holds its final value. */
  lemma ViewHolds(s: seq<LatLng>, fin: map<LatLng, Point>)
    requires forall i :: 0 <= i < |s| && s[i] in fin ==> s[i].Value() == fin[s[i]]
    ensures View(s, fin) == Values(s)
  {
    ValuesIndex(s);
  }

  lemma MultiViewHolds(m: seq<seq<LatLng>>, fin: map<LatLng, Point>)
    requires forall k, i :: 0 <= k < |m| && 0 <= i < |m[k]| && m[k][i] in fin ==> m[k][i].Value() == fin[m[k][i]]
    ensures MultiView(m, fin) == MultiValues(m)
  {
    forall k | 0 <= k < |m|
      ensures MultiView(m, fin)[k] == MultiValues(m)[k]
    {
      ViewHolds(m[k], fin);
    }
  }

  /** An array all of whose objects are recorded stands for their final values. */
  lemma ViewFinals(s: seq<LatLng>, fin: map<LatLng, Point>)
    requires forall i :: 0 <= i < |s| ==> s[i] in fin
    ensures View(s, fin) == Finals(s, fin)
  {
  }

  lemma ViewConcat(a: seq<LatLng>, b: seq<LatLng>, fin: map<LatLng, Point>)
    ensures View(a + b, fin) == View(a, fin) + View(b, fin)
  {
    var l := View(a + b, fin);
    var r := View(a, fin) + View(b, fin);
    forall i | 0 <= i < |l|
      ensures l[i] == r[i]
    {
      if i < |a| {
        assert (a + b)[i] == a[i];
      } else {
        assert (a + b)[i] == b[i - |a|];
      }
    }
  }

  lemma ViewPop(s: seq<LatLng>, fin: map<LatLng, Point>)
    ensures View(Pop(s), fin) == Pop(View(s, fin))
  {
    if s != [] {
      var l := View(Pop(s), fin);
      var r := Pop(View(s, fin));
      forall i | 0 <= i < |l|
        ensures l[i] == r[i]
      {
        assert Pop(s)[i] == s[i];
      }
    }
  }

  lemma MultiViewConcat(a: seq<seq<LatLng>>, b: seq<seq<LatLng>>, fin: map<LatLng, Point>)
    ensures MultiView(a + b, fin) == MultiView(a, fin) + MultiView(b, fin)
  {
    var l := MultiView(a + b, fin);
    var r := MultiView(a, fin) + MultiView(b, fin);
    forall k | 0 <= k < |l|
      ensures l[k] == r[k]
    {
      if k < |a| {
        assert (a + b)[k] == a[k];
      } else {
        assert (a + b)[k] == b[k - |a|];
      }
    }
  }

  /** One edge of the walk over point objects, read through `fin`, is the step over what its arrays stand for. */
  lemma StepView(done: seq<seq<LatLng>>, segment: seq<LatLng>, split: seq<seq<LatLng>>, fin: map<LatLng, Point>)
    requires |split| >= 1
    ensures var v := MultiView(split, fin);
            var seg := Pop(segment) + split[0];
            && |v| >= 1
            && var w := Step(Walk(MultiView(done, fin), View(segment, fin)), v);
            && (|split| > 1 ==> w == Walk(MultiView(done + [seg], fin), View(split[1], fin)))
            && (|split| == 1 ==> w == Walk(MultiView(done, fin), View(seg, fin)))
  {
    var v := MultiView(split, fin);
    var seg := Pop(segment) + split[0];
    ViewPop(segment, fin);
    ViewConcat(Pop(segment), split[0], fin);
    assert View(seg, fin) == Pop(View(segment, fin)) + v[0];
    if |split| > 1 {
      MultiViewConcat(done, [seg], fin);
      assert MultiView([seg], fin) == [View(seg, fin)];
    }
  }

  /** The split of edge j - 1 of a linestring read through `fin`. */
  lemma EdgeSplitAt(core: GeodesicCore, linestring: seq<LatLng>, fin: map<LatLng, Point>, j: nat)
    requires 1 <= j < |linestring| && forall i :: 0 <= i < |linestring| ==> linestring[i] in fin
    ensures EdgeSplits(core, Finals(linestring, fin))[j - 1] == SplitEdge(core, fin[linestring[j - 1]], fin[linestring[j]])
  {
    var pts := Finals(linestring, fin);
    assert pts[j - 1] == fin[linestring[j - 1]] && pts[j] == fin[linestring[j]];
  }

  /** The ends of edge j - 1 of a settling linestring are recorded, so no array read from the heap holds them. */
  lemma RecordedEnds(linestring: seq<LatLng>, fin: map<LatLng, Point>, j: nat, done: seq<seq<LatLng>>, segment: seq<LatLng>)
    requires 1 <= j < |linestring| && forall i :: 0 <= i < |linestring| ==> linestring[i] in fin
    ensures linestring[j - 1] !in MultiUnrecorded(done, fin) + Unrecorded(segment, fin)
    ensures linestring[j] !in MultiUnrecorded(done, fin) + Unrecorded(segment, fin)
  {
  }

  /**
    The walk over the first j - 1 edges of a linestring whose edge splits are
    `splits`: the arrays done and segment stand for it, and until a path is
    closed, which only a crossing of the antimeridian does, the segment is
    the linestring's own objects up to j.
  */
  ghost predicate Trail(fin: map<LatLng, Point>, splits: seq<seq<seq<Point>>>, linestring: seq<LatLng>,
                        done: seq<seq<LatLng>>, segment: seq<LatLng>, j: nat)
    reads MultiUnrecorded(done, fin), Unrecorded(segment, fin)
  {
    && WellSplit(splits)
    && 1 <= j <= |splits| + 1 && (j == 1 || j <= |linestring|)
    && Walk(MultiView(done, fin), View(segment, fin)) == Walked(splits, j - 1)
    && (done == [] ==> segment == linestring[..if j == 1 then 0 else j])
  }

  /**
    The edge loop over a linestring before edge j - 1: the clamp has settled
    the points before j, and done and segment stand for the walk over the
    splits of the edges before it.
  */
  ghost predicate Walking(core: GeodesicCore, linestring: seq<LatLng>, fin: map<LatLng, Point>,
                          done: seq<seq<LatLng>>, segment: seq<LatLng>, j: nat)
    reads linestring, MultiUnrecorded(done, fin), Unrecorded(segment, fin)
  {
    && Settling(linestring, fin, j)
    && Trail(fin, EdgeSplits(core, Finals(linestring, fin)), linestring, done, segment, j)
  }

  /** The edge loop starts from an empty walk. */
  lemma WalkStart(core: GeodesicCore, linestring: seq<LatLng>, fin: map<LatLng, Point>)
    requires Settling(linestring, fin, 1)
    ensures Walking(core, linestring, fin, [], [], 1)
  {
    EdgeSplitsWell(core, Finals(linestring, fin));
    TrailStart(fin, EdgeSplits(core, Finals(linestring, fin)), linestring);
  }

  /** The finished edge loop: the paths it made, and every point of the linestring clamped to its final value. */
  lemma WalkDone(core: GeodesicCore, linestring: seq<LatLng>, fin: map<LatLng, Point>,
                 done: seq<seq<LatLng>>, segment: seq<LatLng>, j: nat)
    requires |linestring| != 1 && (j == |linestring| || (j == 1 && linestring == []))
    requires Walking(core, linestring, fin, done, segment, j)
    ensures forall i :: 0 <= i < |linestring| ==> linestring[i] in fin
    ensures MultiView(done + [segment], fin) == SplitPath(core, Finals(linestring, fin))
    ensures done == [] ==> segment == linestring
    ensures |linestring| >= 2 ==> Settling(linestring, fin, |linestring|)
  {
    TrailDone(core, linestring, fin, done, segment, j);
  }

  lemma TrailStart(fin: map<LatLng, Point>, splits: seq<seq<seq<Point>>>, linestring: seq<LatLng>)
    requires WellSplit(splits)
    ensures Trail(fin, splits, linestring, [], [], 1)
  {
    assert MultiView([], fin) == [];
    assert View([], fin) == [];
  }

  /**
    Taking edge j - 1, split into the halves `split` stands for: the segment
    loses its last point and gains the first half, and a second half closes
    it and starts the next one. An edge that does not cross is split into
    its own two ends, so the segment grows by the far one.
  */
  lemma TrailStep(fin: map<LatLng, Point>, splits: seq<seq<seq<Point>>>, linestring: seq<LatLng>,
                  done: seq<seq<LatLng>>, segment: seq<LatLng>, split: seq<seq<LatLng>>, j: nat)
    requires Trail(fin, splits, linestring, done, segment, j) && j <= |splits| && j < |linestring|
    requires MultiView(split, fin) == splits[j - 1]
    requires |split| == 1 ==> split == [[linestring[j - 1], linestring[j]]]
    ensures |split| >= 1
    ensures var seg := Pop(segment) + split[0];
            && (|split| > 1 ==> Trail(fin, splits, linestring, done + [seg], split[1], j + 1))
            && (|split| == 1 ==> Trail(fin, splits, linestring, done, seg, j + 1))
  {
    StepView(done, segment, split, fin);
    if |split| == 1 && done == [] && j > 1 {
      assert Pop(linestring[..j]) + [linestring[j - 1], linestring[j]] == linestring[..j + 1];
    }
  }

  /** The paths of a finished walk are those `splitMultiLineString` makes of the linestring. */
  lemma TrailDone(core: GeodesicCore, linestring: seq<LatLng>, fin: map<LatLng, Point>,
                  done: seq<seq<LatLng>>, segment: seq<LatLng>, j: nat)
    requires forall i :: 0 <= i < |linestring| ==> linestring[i] in fin
    requires |linestring| != 1 && (j == |linestring| || (j == 1 && linestring == []))
    requires Trail(fin, EdgeSplits(core, Finals(linestring, fin)), linestring, done, segment, j)
    ensures MultiView(done + [segment], fin) == SplitPath(core, Finals(linestring, fin))
    ensures done == [] ==> segment == linestring
  {
    MultiViewConcat(done, [segment], fin);
    assert MultiView([segment], fin) == [View(segment, fin)];
    if done == [] && j > 1 {
      assert linestring[..j] == linestring;
    }
  }

  /**
    A split edge read through `fin` stands for the values its objects hold when
    its two ends hold their final values and its crossing objects are new.
  */
  lemma SplitHolds(split: seq<seq<LatLng>>, fin: map<LatLng, Point>, start: LatLng, dest: LatLng)
    requires 1 <= |split| <= 2 && forall k :: 0 <= k < |split| ==> |split[k]| == 2
    requires split[0][0] == start && split[|split| - 1][1] == dest
    requires |split| == 1 ==> split[0][1] == dest
    requires |split| == 2 ==> split[0][1] !in fin && split[1][0] !in fin
    requires start in fin && start.Value() == fin[start] && dest in fin && dest.Value() == fin[dest]
    ensures MultiView(split, fin) == MultiValues(split)
  {
    MultiViewHolds(split, fin);
  }

  /**
    Progress of the clamp along a linestring at edge j: every point clamps to
    its final value, and once an edge has been taken the points up to j - 1
    hold it.
  */
  ghost predicate Settling(linestring: seq<LatLng>, fin: map<LatLng, Point>, j: nat)
    reads linestring
  {
    forall i :: 0 <= i < |linestring| ==>
      && linestring[i] in fin
      && Clamp(linestring[i].Value()) == fin[linestring[i]]
      && (i < j && j >= 2 ==> linestring[i].Value() == fin[linestring[i]])
  }

  /** Clamping both ends of edge j - 1, and nothing else, settles the points up to j. */
  twostate lemma SettleStep(new linestring: seq<LatLng>, new fin: map<LatLng, Point>, j: nat)
    requires old(allocated(linestring))
    requires old(allocated(fin))
    requires 1 <= j < |linestring| && old(Settling(linestring, fin, j))
    requires linestring[j - 1].Value() == Clamp(old(linestring[j - 1].Value()))
    requires linestring[j].Value() == Clamp(old(linestring[j].Value()))
    requires forall i :: 0 <= i < |linestring| && linestring[i] != linestring[j - 1] && linestring[i] != linestring[j] ==>
               linestring[i].Value() == old(linestring[i].Value())
    ensures Settling(linestring, fin, j + 1)
  {
    forall i | 0 <= i < |linestring|
      ensures Clamp(linestring[i].Value()) == fin[linestring[i]]
      ensures i < j + 1 ==> linestring[i].Value() == fin[linestring[i]]
    {
      ClampSpec(old(linestring[i].Value()));
      ClampSpec(fin[linestring[i]]);
    }
  }

  /** Every point of a linestring of two or more points has a clamped final value. */
  ghost predicate EdgesFinal(m: seq<seq<LatLng>>, fin: map<LatLng, Point>)
  {
    && Recorded(m, fin)
    && (forall o :: o in fin ==> o in Objects(m))
    && forall k, i :: 0 <= k < |m| && |m[k]| >= 2 && 0 <= i < |m[k]| ==> IsClamped(fin[m[k][i]])
  }

  /**
    Progress of the clamp over a multilinestring at linestring k: every
    recorded point holds its final value, or lies on an edge still to come and
    clamps to it.
  */
  ghost predicate Pending(m: seq<seq<LatLng>>, fin: map<LatLng, Point>, k: nat)
    reads fin.Keys
  {
    forall o :: o in fin ==> o.Value() == fin[o] || (OnEdgeFrom(o, m, k) && Clamp(o.Value()) == fin[o])
  }

  /** Before any linestring is taken, the record of final values describes what is pending. */
  lemma PendingStart(m: seq<seq<LatLng>>, fin: map<LatLng, Point>)
    requires fin == FinalValues(m)
    ensures EdgesFinal(m, fin) && Pending(m, fin, 0)
  {
    forall k, i | 0 <= k < |m| && 0 <= i < |m[k]|
      ensures m[k][i] in fin
      ensures |m[k]| >= 2 ==> OnEdgeFrom(m[k][i], m, 0) && IsClamped(fin[m[k][i]])
    {
      if |m[k]| >= 2 {
        assert m[k][i] in m[k];
        ClampSpec(m[k][i].Value());
      }
    }
    forall o | o in fin
      ensures OnEdgeFrom(o, m, 0) ==> Clamp(o.Value()) == fin[o]
    {
      ClampSpec(o.Value());
    }
  }

  /** The points of linestring k, when it has an edge, are ready for its walk. */
  lemma PendingLine(m: seq<seq<LatLng>>, fin: map<LatLng, Point>, k: nat)
    requires EdgesFinal(m, fin) && Pending(m, fin, k) && k < |m| && |m[k]| >= 2
    ensures Settling(m[k], fin, 1)
  {
    forall i | 0 <= i < |m[k]|
      ensures Clamp(m[k][i].Value()) == fin[m[k][i]]
    {
      ClampSpec(fin[m[k][i]]);
    }
  }

  /** Linestring k settles its points, and only those: the clamp is pending at k + 1. */
  twostate lemma PendingStep(new m: seq<seq<LatLng>>, new fin: map<LatLng, Point>, k: nat)
    requires old(allocated(m))
    requires old(allocated(fin))
    requires k < |m|
    requires old(Pending(m, fin, k))
    requires |m[k]| >= 2 ==> Settling(m[k], fin, |m[k]|)
    requires forall o :: o in fin && (|m[k]| < 2 || o !in m[k]) ==> o.Value() == old(o.Value())
    ensures Pending(m, fin, k + 1)
  {
    forall o | o in fin && |m[k]| >= 2 && o in m[k]
      ensures o.Value() == fin[o]
    {
      var i :| 0 <= i < |m[k]| && m[k][i] == o;
    }
    forall o | o in fin && o.Value() != fin[o]
      ensures OnEdgeFrom(o, m, k + 1) && Clamp(o.Value()) == fin[o]
    {
      var k' :| k <= k' < |m| && |m[k']| >= 2 && o in m[k'];
      assert k' != k;
    }
  }

  /** A linestring of a single point has no edge, so passing it over leaves the clamp pending at k + 1. */
  lemma PendingSkip(m: seq<seq<LatLng>>, fin: map<LatLng, Point>, k: nat)
    requires k < |m| && |m[k]| < 2 && Pending(m, fin, k)
    ensures Pending(m, fin, k + 1)
  {
    forall o | o in fin && o.Value() != fin[o]
      ensures OnEdgeFrom(o, m, k + 1)
    {
      var k' :| k <= k' < |m| && |m[k']| >= 2 && o in m[k'];
      assert k' != k;
    }
  }

  /** The paths of the first k linestrings, read through `fin`. */
  ghost predicate Gathered(core: GeodesicCore, m: seq<seq<LatLng>>, fin: map<LatLng, Point>,
                           result: seq<seq<LatLng>>, k: nat)
    reads MultiUnrecorded(result, fin)
  {
    && k <= |m| && Recorded(m, fin)
    && MultiView(result, fin) == SplitPaths(core, MultiFinals(m, fin)[..k])
    && k <= |result| && (|result| == k ==> result == m[..k])
  }

  /** No array read from the heap holds a point of the input, all of whose points are recorded. */
  lemma RecordedApart(m: seq<seq<LatLng>>, fin: map<LatLng, Point>, result: seq<seq<LatLng>>, k: nat)
    requires k < |m| && Recorded(m, fin)
    ensures forall o :: o in MultiUnrecorded(result, fin) ==> o !in m[k]
  {
  }

  lemma GatherStart(core: GeodesicCore, m: seq<seq<LatLng>>, fin: map<LatLng, Point>)
    requires Recorded(m, fin)
    ensures Gathered(core, m, fin, [], 0)
  {
    assert MultiFinals(m, fin)[..0] == [];
    assert MultiView([], fin) == [];
  }

  /** Adding the paths of linestring k gives the paths of the first k + 1. */
  lemma GatherStep(core: GeodesicCore, m: seq<seq<LatLng>>, fin: map<LatLng, Point>,
                   result: seq<seq<LatLng>>, paths: seq<seq<LatLng>>, k: nat)
    requires Gathered(core, m, fin, result, k) && k < |m|
    requires MultiView(paths, fin) == SplitPath(core, Finals(m[k], fin))
    requires |paths| >= 1 && (|paths| == 1 ==> paths == [m[k]])
    ensures Gathered(core, m, fin, result + paths, k + 1)
  {
    var mf := MultiFinals(m, fin);
    MultiViewConcat(result, paths, fin);
    assert mf[..k + 1][..k] == mf[..k];
    assert m[..k] + [m[k]] == m[..k + 1];
  }

  /** A linestring of a single point, pushed as it is, extends the gathered paths and leaves the clamp pending at k + 1. */
  lemma GatherSingle(core: GeodesicCore, m: seq<seq<LatLng>>, fin: map<LatLng, Point>, result: seq<seq<LatLng>>, k: nat)
    requires k < |m| && |m[k]| == 1
    requires Pending(m, fin, k) && Gathered(core, m, fin, result, k)
    ensures Pending(m, fin, k + 1) && Gathered(core, m, fin, result + [m[k]], k + 1)
  {
    SinglePath(core, m[k], fin);
    GatherStep(core, m, fin, result, [m[k]], k);
    PendingSkip(m, fin, k);
  }

  /** A linestring of a single point is its own only path. */
  lemma SinglePath(core: GeodesicCore, linestring: seq<LatLng>, fin: map<LatLng, Point>)
    requires |linestring| == 1 && linestring[0] in fin
    ensures MultiView([linestring], fin) == SplitPath(core, Finals(linestring, fin))
  {
    ViewFinals(linestring, fin);
  }

  /** When every linestring is taken, every point holds its final value and the paths are read directly. */
  lemma GatherDone(core: GeodesicCore, m: seq<seq<LatLng>>, fin: map<LatLng, Point>, result: seq<seq<LatLng>>)
    requires EdgesFinal(m, fin) && Pending(m, fin, |m|) && Gathered(core, m, fin, result, |m|)
    ensures forall o :: o in fin ==> o.Value() == fin[o]
    ensures MultiValues(result) == SplitPaths(core, MultiValues(m))
    ensures EdgesClamped(MultiValues(m))
    ensures MultiValues(m) == MultiFinals(m, fin)
  {
    MultiViewHolds(result, fin);
    var mv := MultiValues(m);
    var mf := MultiFinals(m, fin);
    forall k | 0 <= k < |m|
      ensures mv[k] == mf[k]
    {
      ViewHolds(m[k], fin);
      ViewFinals(m[k], fin);
    }
    assert mf[..|m|] == mv;
    forall k, i | 0 <= k < |mv| && |mv[k]| >= 2 && 0 <= i < |mv[k]|
      ensures IsClamped(mv[k][i])
    {
      ValuesIndex(m[k]);
    }
  }
}
