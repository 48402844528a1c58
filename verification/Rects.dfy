/** Axis-parallel boxes, as `(x0, y0, x1, y1)`. */
module Rects {
  datatype Rect = Rect(x0: real, y0: real, x1: real, y1: real)

  predicate Degenerate(box: Rect) { box.x1 <= box.x0 || box.y1 <= box.y0 }

  /** A box with area inside the unit square of a page. */
  predicate Normalised(box: Rect) {
    0.0 <= box.x0 && box.x1 <= 1.0 && 0.0 <= box.y0 && box.y1 <= 1.0 && !Degenerate(box)
  }
}
