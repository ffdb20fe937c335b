/** Points and rectangles of the toolkit, with exact (real) coordinates. */
module Geometry {

  datatype Point = Point(x: real, y: real)

  datatype Rectangle = Rectangle(x: real, y: real, width: real, height: real) {

    /** Closed containment: a point on the border is inside. */
    predicate Contains(p: Point) {
      x <= p.x <= x + width && y <= p.y <= y + height
    }

    /** The top-left corner. */
    function Position(): Point {
      Point(x, y)
    }
  }

  /** `p - Vector::new(q.x, q.y)`: the point `p` seen from the origin `q`. */
  function Minus(p: Point, q: Point): (r: Point)
    ensures q.x + r.x == p.x && q.y + r.y == p.y
  {
    Point(p.x - q.x, p.y - q.y)
  }
}
