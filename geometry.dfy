/** Screen geometry shared by the widget: points and rectangles in pixels. */
module Geometry {

  /** A screen rectangle: top-left corner, width and height. */
  datatype Rect = Rect(x: int, y: int, w: int, h: int)

  datatype Point = Point(x: int, y: int)

  /** The value a default-constructed rectangle holds. */
  const EmptyRect := Rect(0, 0, 0, 0)

  /** Point-in-rectangle with the left and top edges inside and the right and
      bottom edges outside. The widget takes its containment test as a
      parameter; this is one convention the layout lemmas are stated for. */
  predicate HalfOpenContains(r: Rect, p: Point) {
    r.x <= p.x < r.x + r.w && r.y <= p.y < r.y + r.h
  }
}
