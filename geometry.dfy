/** Rectangles and points as the ROI selector and the tracker report them (Main.py, lines 48-49 and 78-79). */
module Geometry {

  /** An axis-aligned rectangle (x, y, width, height) in pixels. */
  datatype Box = Box(x: int, y: int, w: int, h: int)

  /** An integer pixel position. */
  datatype Point = Point(x: int, y: int)

  /** What the region selector returns when the user makes no selection. */
  const NoSelection: Box := Box(0, 0, 0, 0)

  /** The integer centre (x + w // 2, y + h // 2) of a box. Python's `//` rounds
      toward negative infinity, and so does Dafny's `/` when the divisor is positive,
      so the centre agrees with the source for negative widths too. */
  function Center(b: Box): (c: Point)
    ensures 2 * (c.x - b.x) <= b.w < 2 * (c.x - b.x) + 2
    ensures 2 * (c.y - b.y) <= b.h < 2 * (c.y - b.y) + 2
  {
    Point(b.x + b.w / 2, b.y + b.h / 2)
  }
}
