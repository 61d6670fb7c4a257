/**
  Mutable point objects and the JavaScript array operations the geometry code
  applies to arrays of them.
*/
module Points {
  import opened Primitives

  /** A point object whose coordinates can be overwritten in place. */
  class LatLng {
    var lat: real
    var lng: real

    constructor (lat: real, lng: real)
      ensures this.lat == lat && this.lng == lng
    {
      this.lat := lat;
      this.lng := lng;
    }

    /** The coordinates the object holds right now. */
    function Value(): Point
      reads this
    {
      Point(lat, lng)
    }
  }

  /** The coordinates held by the objects of an array, in order. */
  ghost function Values(s: seq<LatLng>): (r: seq<Point>)
    reads s
    ensures |r| == |s|
  {
    seq(|s|, i requires 0 <= i < |s| reads s => s[i].Value())
  }

  /** Entry i of the values of an array is the value object i holds. */
  lemma {:induction false} ValuesIndex(s: seq<LatLng>)
    ensures forall i :: 0 <= i < |s| ==> Values(s)[i] == s[i].Value()
  {
  }

  /** Two arrays whose objects hold the same values, position by position, have the same values. */
  lemma ValuesEqual(s: seq<LatLng>, v: seq<Point>)
    requires |s| == |v| && forall i :: 0 <= i < |s| ==> s[i].Value() == v[i]
    ensures Values(s) == v
  {
    ValuesIndex(s);
  }

  /** The set of point objects of a multi-linestring. */
  ghost function Objects(m: seq<seq<LatLng>>): (r: set<LatLng>)
    ensures forall k, i :: 0 <= k < |m| && 0 <= i < |m[k]| ==> m[k][i] in r
    ensures forall p :: p in r ==> exists k, i :: 0 <= k < |m| && 0 <= i < |m[k]| && m[k][i] == p
  {
    set k, i | 0 <= k < |m| && 0 <= i < |m[k]| :: m[k][i]
  }

  /** The coordinates held by the objects of each linestring, in order. */
  ghost function MultiValues(m: seq<seq<LatLng>>): (r: seq<seq<Point>>)
    reads Objects(m)
    ensures |r| == |m|
    ensures forall k :: 0 <= k < |m| ==> r[k] == Values(m[k])
  {
    seq(|m|, k requires 0 <= k < |m| reads Objects(m) => Values(m[k]))
  }

  /** The values of one array of two objects. */
  lemma OneEdgeValues(a: LatLng, b: LatLng)
    ensures MultiValues([[a, b]]) == [[a.Value(), b.Value()]]
  {
    ValuesEqual([a, b], [a.Value(), b.Value()]);
  }

  /** The values of two arrays of two objects each. */
  lemma TwoEdgeValues(a: LatLng, b: LatLng, c: LatLng, d: LatLng)
    ensures MultiValues([[a, b], [c, d]]) == [[a.Value(), b.Value()], [c.Value(), d.Value()]]
  {
    ValuesEqual([a, b], [a.Value(), b.Value()]);
    ValuesEqual([c, d], [c.Value(), d.Value()]);
  }

  /** Where `Array.prototype.splice(start, ...)` begins, for an array of length `len`. */
  function SpliceStart(len: nat, start: int): (a: nat)
    ensures a <= len
    ensures start < 0 ==> a == if len + start < 0 then 0 else len + start
    ensures 0 <= start ==> a == if start < len then start else len
  {
    if start < 0 then (if len + start < 0 then 0 else len + start)
    else if start < len then start else len
  }

  /**
    The array `s.splice(start, deleteCount, ...items)` leaves behind: a negative
    start counts from the end, and both start and count are clipped to the array.
  */
  function Splice<T>(s: seq<T>, start: int, deleteCount: int, items: seq<T>): seq<T>
  {
    var a := SpliceStart(|s|, start);
    s[..a] + items + s[a + SpliceCount(|s|, a, deleteCount)..]
  }

  /** How many elements `splice` removes from position `a` of an array of length `len`. */
  function SpliceCount(len: nat, a: nat, deleteCount: int): (d: nat)
    requires a <= len
    ensures d <= len - a
    ensures 0 <= deleteCount <= len - a ==> d == deleteCount
    ensures deleteCount < 0 ==> d == 0
    ensures deleteCount > len - a ==> d == len - a
  {
    if deleteCount < 0 then 0 else if deleteCount < len - a then deleteCount else len - a
  }

  /**
    What `splice` leaves: the elements before the start in place, then the
    inserted items, then the elements after the removed ones, moved along.
  */
  lemma SpliceSpec<T>(s: seq<T>, start: int, deleteCount: int, items: seq<T>)
    ensures var r := Splice(s, start, deleteCount, items);
            var a := SpliceStart(|s|, start);
            var d := SpliceCount(|s|, a, deleteCount);
            && |r| == |s| - d + |items|
            && (forall i :: 0 <= i < a ==> r[i] == s[i])
            && (forall i :: 0 <= i < |items| ==> r[a + i] == items[i])
            && (forall i :: a + d <= i < |s| ==> r[i - d + |items|] == s[i])
  {
  }

  /** The array `s.pop()` leaves behind (popping an empty array changes nothing). */
  function Pop<T>(s: seq<T>): (r: seq<T>)
    ensures s == [] ==> r == []
    ensures s != [] ==> |r| == |s| - 1 && r + [s[|s| - 1]] == s
  {
    if s == [] then [] else s[..|s| - 1]
  }

  /** Total number of elements over all arrays of an array of arrays. */
  function TotalLength<T>(arrs: seq<seq<T>>): nat
  {
    if arrs == [] then 0 else TotalLength(arrs[..|arrs| - 1]) + |arrs[|arrs| - 1]|
  }

  /** Element counts add up over concatenation. */
  lemma {:induction false} TotalLengthConcat<T>(xs: seq<seq<T>>, ys: seq<seq<T>>)
    ensures TotalLength(xs + ys) == TotalLength(xs) + TotalLength(ys)
    decreases |ys|
  {
    if ys != [] {
      var front := ys[..|ys| - 1];
      TotalLengthConcat(xs, front);
      assert (xs + ys)[..|xs + ys| - 1] == xs + front;
    } else {
      assert xs + ys == xs;
    }
  }
}
