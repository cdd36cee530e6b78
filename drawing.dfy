/** Points, line segments and the canvas the maze is drawn on.

    The canvas stands for the Tk canvas of the application: the only thing the
    core ever asks of it is `create_line`, so it is modelled as the log of the
    line segments created on it, in creation order. */
module Drawing {

  /** A point of the GUI coordinate plane (point.py's Point). */
  datatype Point = Point(x: int, y: int)

  /** The two corners of an axis-aligned rectangle on the canvas. */
  datatype Box = Box(topLeft: Point, bottomRight: Point)

  /** One `create_line` call: the two end points, the fill colour and the width. */
  datatype Line = Line(start: Point, end: Point, fill: string, width: int)

  /** Every wall segment is created with a width of two pixels. */
  const WallWidth := 2

  /** The colour the canvas draws with when the caller names none. */
  const DefaultFill := "black"

  /** The drawing surface, seen as the ordered log of the segments created on it. */
  class Canvas {
    var lines: seq<Line>

    constructor ()
      ensures lines == []
    {
      lines := [];
    }

    /** Creates the segment from (x1, y1) to (x2, y2). */
    method CreateLine(x1: int, y1: int, x2: int, y2: int, fill: string, width: int)
      modifies this
      ensures lines == old(lines) + [Line(Point(x1, y1), Point(x2, y2), fill, width)]
    {
      lines := lines + [Line(Point(x1, y1), Point(x2, y2), fill, width)];
    }
  }
}
