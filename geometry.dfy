/** The polygon values the wall computation works on, and the geometry
    kernel it calls. The kernel (offsetting, simplification, degenerate-vertex
    removal) and the halftoner are outside this model: they are carried as
    arbitrary total functions, so every property proved here holds whatever
    they compute. */
module Geometry {

  /** A point in the slicer's integer coordinates. */
  datatype Point = Point(x: int, y: int)

  /** One closed polygon. */
  type Path = seq<Point>

  /** A set of closed polygons; `Size()` is the number of polygons in it. */
  datatype Polygons = Polygons(paths: seq<Path>)
  {
    function Size(): nat { |paths| }

    /** The emptiness test used to end wall generation (`size() < 1`). */
    predicate IsEmpty() { Size() < 1 }
  }

  /** A freshly constructed `Polygons()`. */
  const NoPolygons := Polygons([])

  /** The join style passed to an offset: the library's default, or square
      corners. */
  datatype JoinType = DefaultJoin | SquareJoin

  /** The polygon operations of the geometry library. */
  datatype Kernel = Kernel(
    offset: (Polygons, int, JoinType) -> Polygons,
    simplify: Polygons -> Polygons,
    removeDegenerateVerts: Polygons -> Polygons)

  /** The wavy-wall texturing: deterministic in the layer number and the
      polygons it is given. */
  datatype Halftoner = Halftoner(makeHalftoned: (nat, Polygons) -> Polygons)
}
