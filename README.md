# Geodesic geometry of Leaflet.Geodesic, in Dafny

This project models `GeodesicGeometry` (src/geodesic-geom.ts), the geometry
engine behind the geodesic layers of Leaflet.Geodesic, and proves what it
computes. The engine:

- densifies every edge of a linestring with recursive great-circle midpoints
  (`recursiveMidpoint`, `line`, `multiLineString`, `lineString`);
- approximates a circle by `steps + 1` points (`circle`);
- splits edges where they cross the antimeridian and re-assembles each
  linestring into the paths that result (`splitLine`, `splitMultiLineString`);
- measures linestrings (`distance`, `multilineDistance`, `updateStatistics`).

Points are `L.LatLng` objects passed by reference, and the model keeps them
that way. `LatLng` is a class with mutable `lat` and `lng` fields, and
linestrings are sequences of references to such objects. `splitLine` clamps
the longitudes of its two argument objects in place. `splitMultiLineString`
hands it the caller's own objects, so the clamp is written into the input.
After `splitMultiLineString`, an input object that lies on an edge, that is
on a linestring of two or more points, is overwritten with its clamped value,
and every other input object is left as it was.

The geodesy primitives (`midpoint`, `wrap180`, `inverse`, `intersection`,
`direct`) belong to src/geodesic-core.ts, which is not part of this model.
They are the fields of a `GeodesicCore` value that the geometry is built
with. Every property holds for any implementation of them.

Layout:

- `primitives.dfy`: coordinates and the primitive provider.
- `points.dfy`: the `LatLng` class, the values an array of them holds, and
  the semantics of `Array.prototype.splice` and `pop`.
- `subdivision.dfy`: recursive bisection and the chaining of edge polylines,
  as functions on values.
- `chains.dfy`: the lemmas that connect the splicing loops to those functions.
- `antimeridian.dfy`: the clamp, the split of one edge, and the walk that
  re-assembles a linestring, as functions on values.
- `splits.dfy`: the bookkeeping that reads the arrays being built through
  the final values of the input objects while the clamp rewrites them.
- `measures.dfy`: path distance and sums.
- `geometry.dfy`: the `GeodesicGeometry` class and its methods, each a loop
  or recursion as in the source, proved against the functions above.

Behaviours of the code that the model keeps as written:

- A linestring of fewer than two waypoints densifies to an empty array, not
  to a single-point one, because the edge loop of src/geodesic-geom.ts:61-63
  never runs.
- The engine mutates its inputs: `splitLine` clamps the longitudes of the
  caller's own points (src/geodesic-geom.ts:84-87).
- A linestring with no crossing edge comes out of `splitMultiLineString` as
  one path made of its own point objects, which by then hold their clamped
  values. An empty linestring takes the `else` branch and comes out as one
  empty path (src/geodesic-geom.ts:129-140).
- Bisection at a depth of 0 or below still inserts one midpoint
  (src/geodesic-geom.ts:36-37).

## Model

| member | source | states |
|---|---|---|
| Geometry.Merge | src/geodesic-geom.ts:18-22 | definition of the spread `{ ...defaults, ...options }`, field by field; MergeLaws states its laws |
| Geometry.MergeLaws | src/geodesic-geom.ts:18-22 | an empty options object keeps the defaults, a fully given one replaces them, overlaying twice changes nothing, and over the defaults `wrap` is on exactly when the caller leaves it out or sets it to true |
| Geometry.GeodesicGeometry.constructor | src/geodesic-geom.ts:21-24 | the options are the caller's spread over `{ wrap: true, steps: 3 }`; `steps` is the caller's value when given and 3 when absent or `undefined` |
| Geometry.LineDepth | src/geodesic-geom.ts:44 | `Math.min(8, steps)`: never above 8, and `steps` itself when that is at most 8 |
| Geometry.LinePoints | src/geodesic-geom.ts:23-44 | a line has at most 513 = 1 + 2^9 points, and 17 with the default 3 steps |
| Subdivision.Levels | src/geodesic-geom.ts:33-38 | definition of the number of bisection levels `recursiveMidpoint` makes: n + 1 for a depth n >= 0, and 1 for a depth of 0 or below; BisectShape states its laws |
| Subdivision.Midpoint | src/geodesic-geom.ts:28-31 | definition: the primitive midpoint, its longitude replaced by the wrapped one when `wrap` is set; BisectOnce states what a line makes of it |
| Subdivision.Bisect | src/geodesic-geom.ts:26-41 | the value meaning of `recursiveMidpoint`: at least 3 points, the two halves around the midpoint joined at it |
| Subdivision.BisectOnce | src/geodesic-geom.ts:28-37 | at depth 0 or below the result is exactly `[start, m, dest]`, `m` being the primitive midpoint with its longitude wrapped only when `wrap` is set |
| Subdivision.BisectShape | src/geodesic-geom.ts:26-41 | bisection to depth n >= 0 yields 1 + 2^(n+1) points, starting at `start` and ending at `dest` |
| Chains.BisectHalves | src/geodesic-geom.ts:33-35 | one level of recursion: the front half without its last point, then the back half |
| Chains.SpliceHalves | src/geodesic-geom.ts:27-35 | the two `splice` calls on `[start, dest]` leave the front polyline without its last point followed by the back polyline |
| Chains.JoinHalves | src/geodesic-geom.ts:33-35 | the spliced halves hold the values of the bisection of the whole edge and keep `start` and `dest` at the ends |
| Geometry.GeodesicGeometry.RecursiveMidpoint | src/geodesic-geom.ts:26-41 | the values of the result are the bisection of the edge; the result has at least 3 points and its ends are the argument objects themselves |
| Geometry.GeodesicGeometry.MidpointOf | src/geodesic-geom.ts:28-31 | a new object holding the midpoint, its longitude wrapped exactly when `options.wrap` holds |
| Geometry.GeodesicGeometry.Line | src/geodesic-geom.ts:43-45 | the bisection at depth `min(8, steps)`, of Stride + 1 points, with the argument objects at its ends |
| Geometry.CircleBearing | src/geodesic-geom.ts:50 | definition: the bearing `360 / steps * i` of circle point i; 0 where JavaScript divides by zero, see Left out |
| Geometry.CirclePoints | src/geodesic-geom.ts:49 | definition: the number of turns of `for (i = 0; i < steps + 1; i++)`, none when `steps + 1` is not positive |
| Geometry.GeodesicGeometry.Wraps | src/geodesic-geom.ts:29 | definition: the truthiness of `options.wrap`, which only `true` has |
| Geometry.GeodesicGeometry.Circle | src/geodesic-geom.ts:47-54 | `steps + 1` points (none when `steps + 1` is not positive), point i the direct solution from the center at bearing `360 / steps * i` |
| Points.SpliceStart | src/geodesic-geom.ts:34-37 | definition of where `splice` begins: a negative start counts from the end, clipped to the array; SpliceSpec states its laws |
| Points.SpliceCount | src/geodesic-geom.ts:34-37 | definition of how many elements `splice` removes: the count itself when it fits, none when negative, everything after the start when past the end; SpliceSpec states its laws |
| Points.Splice | src/geodesic-geom.ts:34-37 | definition of the array `splice` leaves, from SpliceStart and SpliceCount; SpliceSpec states its layout |
| Points.Pop | src/geodesic-geom.ts:133 | `pop`: an empty array stays empty, any other one loses exactly its last element |
| Points.SpliceSpec | src/geodesic-geom.ts:34-37 | what `splice` leaves: the prefix in place, the items inserted, the rest moved along; its length |
| Subdivision.OffsetIsProduct | src/geodesic-geom.ts:61-63 | waypoint e of a chain sits at position e * (L - 1) |
| Subdivision.EdgeLines | src/geodesic-geom.ts:61-63 | one bisected edge polyline per consecutive waypoint pair |
| Subdivision.ChainShort | src/geodesic-geom.ts:56-67 | a linestring of fewer than two waypoints densifies to an empty array |
| Subdivision.ChainShape | src/geodesic-geom.ts:56-67 | a chain of n >= 2 waypoints holds (n - 1)(L - 1) + 1 points, each waypoint at its offset, so each joint is shared and not repeated |
| Subdivision.ChainEdges | src/geodesic-geom.ts:61-63 | edge e occupies the L positions from e * (L - 1), holding the bisection of that edge |
| Subdivision.Chain | src/geodesic-geom.ts:56-67 | definition: the edge polylines of a linestring joined at their shared ends; ChainShort, ChainShape and ChainEdges state its shape |
| Chains.Extended | src/geodesic-geom.ts:62 | definition: `segment.splice(segment.length - 1, 1, ...line)`, the last point replaced by the edge's line; ChainStep states its laws |
| Chains.ChainStep | src/geodesic-geom.ts:61-63 | splicing the next edge polyline over the last point extends the chain by that edge and keeps the waypoints in place |
| Geometry.GeodesicGeometry.MultiLineString | src/geodesic-geom.ts:56-67 | one output per input linestring, in order; each holds the values of the chain of its waypoints, and its waypoints are the input objects at their offsets |
| Geometry.GeodesicGeometry.ChainLine | src/geodesic-geom.ts:59-65 | one linestring densified edge by edge: the chain of its waypoints, with the waypoint objects at their offsets |
| Geometry.GeodesicGeometry.ChainEdge | src/geodesic-geom.ts:61-63 | one turn of the edge loop keeps the chaining invariant with one more edge |
| Geometry.GeodesicGeometry.LineString | src/geodesic-geom.ts:69-71 | the only entry of `multiLineString([latlngs])`: empty below two points, otherwise (n - 1)(L - 1) + 1 points with the waypoints at their offsets |
| Antimeridian.ClampLng | src/geodesic-geom.ts:84-87 | the longitude clamp lands in [-179.9, 179.9], keeps a longitude already there, and sends one outside to the nearer bound |
| Antimeridian.ClampLngIdempotent | src/geodesic-geom.ts:84-87 | clamping twice is clamping once |
| Antimeridian.ClampSpec | src/geodesic-geom.ts:84-87 | the clamp keeps the latitude, lands in range, fixes exactly the points already in range, and is idempotent |
| Antimeridian.Clamp | src/geodesic-geom.ts:84-87 | definition: the latitude kept and the longitude clamped; ClampSpec states its laws |
| Antimeridian.ClampAll | src/geodesic-geom.ts:84-87 | definition of the clamp of a linestring's values, position by position; ClampAllClamped and SplitPathUnsplit state its laws |
| Antimeridian.ClampAllClamped | src/geodesic-geom.ts:84-87 | a linestring already in range is its own clamp |
| Antimeridian.Reference | src/geodesic-geom.ts:74-97 | definition of the reference point: the west one (89, -180) for an initial bearing above 180, the east one (89, 180) otherwise; SplitClamped is proved against it |
| Antimeridian.Crossing | src/geodesic-geom.ts:89-101 | definition: the intersection with the reference meridian when it exists and lies strictly closer to `start` than `dest` does; CrossingSpec states it |
| Antimeridian.CrossingSpec | src/geodesic-geom.ts:89-101 | an edge crosses exactly when the intersection with the chosen reference meridian exists and is strictly closer to `start` than `dest` is |
| Antimeridian.ShiftAcross | src/geodesic-geom.ts:102-107 | definition: the copy that starts the second half of a split edge; ShiftAcrossSpec states its laws |
| Antimeridian.ShiftAcrossSpec | src/geodesic-geom.ts:102-107 | the copy that starts the second half keeps the latitude and moves the longitude by +360, 0 or -360; it is the point itself exactly within +-179.9999, and for a longitude within +-180 a point beyond that is moved to the other side |
| Antimeridian.SplitEdge | src/geodesic-geom.ts:73-111 | `splitLine` on values: one or two halves, each of two points |
| Antimeridian.SplitEdgeSpec | src/geodesic-geom.ts:73-111 | the split runs from clamped start to clamped end; two halves exactly when the clamped edge crosses, the first ending at the crossing and the second starting at its shifted copy; otherwise the clamped edge itself |
| Antimeridian.SplitEdgeCases | src/geodesic-geom.ts:89-110 | the branches of `splitLine` after the clamp: no intersection or one not strictly closer gives one segment, otherwise two |
| Antimeridian.SplitEdgeClampInvariant | src/geodesic-geom.ts:84-89 | splitting an already clamped edge gives the same result as splitting the raw one |
| Geometry.GeodesicGeometry.SplitLine | src/geodesic-geom.ts:73-111 | both argument objects hold their clamped values afterwards; the values of the result are the split of the edge; an unsplit result is `[[start, dest]]`, and a split one is `[[start, x], [y, dest]]` with x and y new objects, and y is x itself when x needs no shift |
| Geometry.GeodesicGeometry.SplitClamped | src/geodesic-geom.ts:89-110 | the crossing test and halves after the clamp realise the split of the clamped edge, with the argument objects at the ends and the unshifted crossing object shared by both halves |
| Antimeridian.EdgeSplits | src/geodesic-geom.ts:131-132 | definition of the `splitLine` result of every consecutive pair, one per edge; EdgeSplitsWell and UnsplitEdges state its laws |
| Antimeridian.EdgeSplitsWell | src/geodesic-geom.ts:131-132 | every edge split has one or two halves of two points |
| Antimeridian.Step | src/geodesic-geom.ts:133-138 | definition: one edge of the walk, `segment.pop()`, then `concat` of the first half, and a push of the segment and a new one when the edge splits; WalkedCount and WalkedTotal state its laws |
| Antimeridian.Walked | src/geodesic-geom.ts:131-139 | definition: the walk after the first k edges, one Step per edge from nothing; WalkedCount and WalkedTotal state its laws |
| Antimeridian.WalkedCount | src/geodesic-geom.ts:131-139 | the walk closes one path per two-halved split |
| Antimeridian.WalkedPaths | src/geodesic-geom.ts:131-139 | every path the walk closes holds at least two points |
| Antimeridian.WalkedTotal | src/geodesic-geom.ts:131-139 | for k >= 1, after k edges the walk has laid out k + 1 points plus two per split |
| Antimeridian.WalkedUnsplit | src/geodesic-geom.ts:131-139 | unsplit edges walk to one segment holding the linestring's points in order |
| Antimeridian.SplitPath | src/geodesic-geom.ts:125-141 | definition: the paths one linestring becomes, a one-point linestring itself and any other the walk over its edge splits; SplitPathCount, SplitPathPoints, SplitPathStart, SplitPathEnd and SplitPathUnsplit state its laws |
| Antimeridian.SplitPaths | src/geodesic-geom.ts:123-144 | definition: the paths of each linestring, in order; SplitPathsCount and SplitPathsUnsplit state its laws |
| Antimeridian.SplitPathCount | src/geodesic-geom.ts:125-141 | a linestring yields 1 + (number of crossing edges) paths; one of fewer than two points is kept as it is |
| Antimeridian.SplitPathPoints | src/geodesic-geom.ts:130-140 | the paths of an n-point linestring of two or more points each have at least two points, n in all plus two per crossing |
| Antimeridian.SplitPathStart | src/geodesic-geom.ts:130-140 | for a linestring of two or more points, the first path starts at the clamped first point |
| Antimeridian.SplitPathEnd | src/geodesic-geom.ts:130-140 | for a linestring of two or more points, the last path ends at the clamped last point |
| Antimeridian.UnsplitEdges | src/geodesic-geom.ts:131-134 | without a crossing edge, every edge splits into just its clamped self |
| Antimeridian.SplitPathUnsplit | src/geodesic-geom.ts:130-140 | a linestring of two or more points with no crossing edge becomes one path: its points, clamped |
| Antimeridian.SplitPathsCount | src/geodesic-geom.ts:123-144 | a multilinestring yields one path per linestring plus one per crossing, so never fewer, and exactly as many iff nothing crosses |
| Antimeridian.SplitPathsUnsplit | src/geodesic-geom.ts:123-144 | clamped linestrings with no crossing edge come out point for point as they went in |
| Splits.SplitHolds | src/geodesic-geom.ts:132 | when the ends of a split edge hold their final values and its crossing points are new, reading the split through the final values gives the values it holds |
| Splits.SettleStep | src/geodesic-geom.ts:84-87 | when the clamp of edge j - 1 changes its two ends and no other point, the points up to j hold their final values |
| Splits.PendingStep | src/geodesic-geom.ts:125-142 | after linestring k, every input object either holds its final value or lies on a later linestring of two or more points and will be clamped there |
| Splits.GatherSingle | src/geodesic-geom.ts:126-127 | a one-point linestring, pushed as it is, is exactly its own path, and it leaves its point unclamped |
| Splits.GatherDone | src/geodesic-geom.ts:123-144 | once every linestring has been walked, every input object holds its final value, the values of the result are the split paths of the input's values, and every point on a linestring of two or more points is clamped |
| Geometry.GeodesicGeometry.SplitMultiLineString | src/geodesic-geom.ts:123-144 | an input object on an edge is overwritten with its clamped value, and every other input object is left as it was; the values of the result are the split paths of the resulting input; one path per linestring plus one per crossing edge; with no crossing, the result is the input itself, the same point objects in the same order |
| Geometry.GeodesicGeometry.GatherWalk | src/geodesic-geom.ts:129-141 | the `else` branch keeps the loop invariant: one more linestring clamped and its paths to be appended; a single path is the linestring itself |
| Geometry.GeodesicGeometry.WalkLine | src/geodesic-geom.ts:129-141 | linestring k walked: its points settle, its paths read through the final values are the split path of that linestring, and a single path is the linestring itself |
| Geometry.GeodesicGeometry.SplitWalk | src/geodesic-geom.ts:130-140 | the `pop`/`concat` walk over the edges yields the split path of the linestring's final values and leaves every one of its points clamped; when no path was closed early, its one path is the linestring's own objects |
| Geometry.GeodesicGeometry.WalkEdge | src/geodesic-geom.ts:131-139 | one turn of the edge loop: the walk advances by the split of edge j - 1 and its two ends settle |
| Geometry.GeodesicGeometry.SettleEdge | src/geodesic-geom.ts:132 | `splitLine` on edge j - 1 settles its two ends; its result read through the final values is the split of that edge, and it is the edge's own two objects or two halves from them through two new crossing objects |
| Measures.PathDistance | src/geodesic-geom.ts:150-160 | definition: the distances of a linestring's consecutive points added up in order; PathDistanceShort and PathDistanceJoin state its laws |
| Measures.Sum | src/geodesic-geom.ts:166 | definition: numbers added up from the first on; SumConcat states its law |
| Measures.Distance | src/geodesic-geom.ts:146-148 | definition: the `inverse` distance between two point values; PathDistanceShort states its laws |
| Measures.PathDistanceShort | src/geodesic-geom.ts:150-160 | a linestring of fewer than two points has distance 0, one of two points the distance between them |
| Measures.PathDistanceJoin | src/geodesic-geom.ts:150-160 | distance is additive along a linestring: two linestrings meeting at a point cover the sum of their distances |
| Geometry.GeodesicGeometry.Distance | src/geodesic-geom.ts:146-148 | the distance of the two-point linestring from `start` to `dest` |
| Geometry.GeodesicGeometry.MultilineDistance | src/geodesic-geom.ts:150-160 | one entry per linestring, in order, each the sum of the distances between its consecutive points |
| Geometry.GeodesicGeometry.LineDistance | src/geodesic-geom.ts:152-158 | the inner loop adds up the edge distances of one linestring, 0 for fewer than two points |
| Measures.SumConcat | src/geodesic-geom.ts:166 | sums add up over concatenation |
| Points.TotalLength | src/geodesic-geom.ts:168-174 | definition: the number of elements over all arrays, the `reduce((x) => x + 1, 0)` count of each added up; TotalLengthConcat states its laws |
| Points.TotalLengthConcat | src/geodesic-geom.ts:167-174 | element counts add up over concatenation |
| Geometry.Total | src/geodesic-geom.ts:166 | `reduce((x, y) => x + y, 0)` is the sum of the array |
| Geometry.Count | src/geodesic-geom.ts:167-174 | the `forEach` adding each item's count is the total number of elements |
| Geometry.GeodesicGeometry.UpdateStatistics | src/geodesic-geom.ts:162-176 | `distanceArray` holds the distance of each linestring of `points`, `totalDistance` their sum, `points` and `vertices` the element counts of the two arguments |

## Left out

- The geodesy primitives of src/geodesic-core.ts are not part of this model. They are parameters of the geometry, so no numeric outcome (a distance, a crossing latitude) is proved.
- Coordinates and distances are reals, not IEEE doubles. Rounding, infinities and NaN are not modelled.
- Geometry.CircleBearing: `360 / steps * i` is NaN in JavaScript when `steps` is 0; the model uses bearing 0 there.
- Geometry.GeodesicGeometry.RecursiveMidpoint: the contract states the values and the end objects; it does not state that the interior points are new objects.
- Geometry.GeodesicGeometry.SplitMultiLineString: arrays are sequences of references here, so a linestring pushed as it is keeps its points, but the identity of the array object itself is not modelled. When an edge crosses, the contract states the values of the paths but not which objects they hold (the input's own points and the new crossing points).
- Geometry.GeodesicGeometry.RecursiveMidpoint: `iterations` is an integer here. In JavaScript a caller may set `steps` to a fraction, and with `steps = 2.5` the recursion runs on 2.5, 1.5, 0.5 and -0.5 and returns 17 points; fractional depths are not modelled.
- Geometry.GeodesicGeometry.Circle: `steps` is an integer here. With `steps = 2.5` the loop runs while `i < 3.5` and makes 4 points at bearing 144 * i; fractional steps are not modelled.
- Geometry.GeodesicGeometry.MidpointOf: the object returned by the primitive `midpoint` is taken to be a new one, which line 30 then writes into. The model creates it, so it cannot alias an argument.
- Geometry.GeodesicGeometry.SplitLine: the object returned by the primitive `intersection` is taken to be a new one; the model creates it. Splits.SplitHolds and the clamp contract of SplitMultiLineString rely on these crossing objects not being input points.
- `L.LatLng`'s optional altitude and its methods are not modelled; a point is its `lat` and `lng`.
- The option spread is modelled only for `wrap` and `steps`, the two options the geometry reads.
- src/geodesic-line.ts (the Leaflet layer, GeoJSON input and its own copy of `updateStatistics`) is not part of this model.
