/**
  The geodesy primitives that the geometry code consumes. Their implementation
  (ellipsoidal direct and inverse problems, great-circle midpoint, longitude
  wrapping, great-circle intersection) is not part of this model: they are
  carried as total functions over coordinate values, so every property proved
  downstream holds for ANY implementation of them.
*/
module Primitives {

  datatype Option<+T> = None | Some(value: T)

  /** A latitude/longitude pair in degrees, as a value. */
  datatype Point = Point(lat: real, lng: real)

  /** Result of the inverse problem between two points. */
  datatype GeoDistance = GeoDistance(distance: real, initialBearing: real, finalBearing: real)

  /** The primitive provider, one field per primitive. */
  datatype GeodesicCore = GeodesicCore(
    midpoint: (Point, Point) -> Point,
    wrap180: real -> real,
    inverse: (Point, Point) -> GeoDistance,
    intersection: (Point, real, Point, real) -> Option<Point>,
    direct: (Point, real, real) -> Point
  )
}
