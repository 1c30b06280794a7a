/** Geometry primitives: the two-dimensional position used for box centres. */
module Geometry {

  /** An immutable position. Coordinates are rationals, so the centre of a
      box is computed exactly; the unit (pixels or frame fractions) is the
      caller's, and must be the one the boundary positions are given in. */
  datatype Point = Point(x: real, y: real)
}
