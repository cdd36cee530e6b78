/** One cell of the maze: four wall flags and the two corners of its box
    (cell.py). */
module Cells {
  import opened Drawing

  /** The four sides of a cell. */
  datatype Side = Left | Right | Bottom | Top

  /** The order in which a cell considers its walls when it is drawn. */
  const DrawOrder: seq<Side> := [Left, Right, Bottom, Top]

  /** The value of a cell's four wall flags. */
  datatype Walls = Walls(left: bool, right: bool, bottom: bool, top: bool) {

    /** Is the wall on side `s` present? */
    predicate Has(s: Side) {
      match s
      case Left => left
      case Right => right
      case Bottom => bottom
      case Top => top
    }

    /** The same walls without the one on side `s`. */
    function Without(s: Side): (w: Walls)
      ensures !w.Has(s)
      ensures forall t :: t != s ==> w.Has(t) == Has(t)
    {
      match s
      case Left => this.(left := false)
      case Right => this.(right := false)
      case Bottom => this.(bottom := false)
      case Top => this.(top := false)
    }

    /** The number of walls present. */
    function Count(): nat {
      (if left then 1 else 0) + (if right then 1 else 0) +
      (if bottom then 1 else 0) + (if top then 1 else 0)
    }
  }

  /** A new cell has every wall. */
  const AllWalls := Walls(true, true, true, true)

  /** A cell whose four walls are all gone. */
  const NoWalls := Walls(false, false, false, false)

  /** The sides of `order` whose wall is present in `w`, keeping their order. */
  function PresentSides(w: Walls, order: seq<Side>): (r: seq<Side>)
    ensures |r| <= |order|
  {
    if order == [] then []
    else (if w.Has(order[0]) then [order[0]] else []) + PresentSides(w, order[1..])
  }

  /** The segment drawn for the wall on side `s` of box `b`.  The left wall's
      segment starts at (x1, x1), not at the top-left corner (x1, y1): the
      model keeps that as it is. */
  function SideLine(s: Side, b: Box, fill: string): Line {
    var x1, y1, x2, y2 := b.topLeft.x, b.topLeft.y, b.bottomRight.x, b.bottomRight.y;
    match s
    case Left => Line(Point(x1, x1), Point(x1, y2), fill, WallWidth)
    case Right => Line(Point(x2, y2), Point(x2, y1), fill, WallWidth)
    case Bottom => Line(Point(x1, y2), Point(x2, y2), fill, WallWidth)
    case Top => Line(Point(x1, y1), Point(x2, y1), fill, WallWidth)
  }

  /** The segments of the sides `sides`, one each, in the same order. */
  function SideLines(sides: seq<Side>, b: Box, fill: string): (r: seq<Line>)
    ensures |r| == |sides|
  {
    if sides == [] then [] else [SideLine(sides[0], b, fill)] + SideLines(sides[1..], b, fill)
  }

  /** What drawing a cell whose walls are `w` in the box `b` puts on the canvas:
      the segment of every present wall, taken in the order left, right,
      bottom, top. */
  function WallLines(w: Walls, b: Box, fill: string): seq<Line> {
    SideLines(PresentSides(w, DrawOrder), b, fill)
  }

  /** The sides with a present wall, in drawing order. */
  lemma PresentSidesInDrawOrder(w: Walls)
    ensures PresentSides(w, DrawOrder) ==
      (if w.left then [Left] else []) + (if w.right then [Right] else []) +
      (if w.bottom then [Bottom] else []) + (if w.top then [Top] else [])
  {
    var l := if w.left then [Left] else [];
    var r := if w.right then [Right] else [];
    var d := if w.bottom then [Bottom] else [];
    var t := if w.top then [Top] else [];
    assert [Top][1..] == [];
    assert PresentSides(w, [Top]) == t + [];
    assert [Bottom, Top][1..] == [Top];
    assert PresentSides(w, [Bottom, Top]) == d + t;
    assert [Right, Bottom, Top][1..] == [Bottom, Top];
    assert PresentSides(w, [Right, Bottom, Top]) == r + (d + t);
    assert DrawOrder[1..] == [Right, Bottom, Top];
    assert PresentSides(w, DrawOrder) == l + (r + (d + t));
    assert l + (r + (d + t)) == l + r + d + t;
  }

  /** Drawing the sides of `a + c` draws those of `a`, then those of `c`. */
  lemma {:induction false} SideLinesAppend(a: seq<Side>, c: seq<Side>, b: Box, fill: string)
    ensures SideLines(a + c, b, fill) == SideLines(a, b, fill) + SideLines(c, b, fill)
  {
    if a != [] {
      assert (a + c)[1..] == a[1..] + c;
      SideLinesAppend(a[1..], c, b, fill);
    } else {
      assert a + c == c;
    }
  }

  /** The four guarded `create_line` calls of `draw` produce exactly WallLines. */
  lemma WallLinesUnrolled(w: Walls, b: Box, fill: string)
    ensures WallLines(w, b, fill) ==
      (if w.left then [SideLine(Left, b, fill)] else []) +
      (if w.right then [SideLine(Right, b, fill)] else []) +
      (if w.bottom then [SideLine(Bottom, b, fill)] else []) +
      (if w.top then [SideLine(Top, b, fill)] else [])
  {
    var l := if w.left then [Left] else [];
    var r := if w.right then [Right] else [];
    var d := if w.bottom then [Bottom] else [];
    var t := if w.top then [Top] else [];
    PresentSidesInDrawOrder(w);
    SideLinesAppend(l + r + d, t, b, fill);
    SideLinesAppend(l + r, d, b, fill);
    SideLinesAppend(l, r, b, fill);
    assert SideLines(l, b, fill) == if w.left then [SideLine(Left, b, fill)] else [];
    assert SideLines(r, b, fill) == if w.right then [SideLine(Right, b, fill)] else [];
    assert SideLines(d, b, fill) == if w.bottom then [SideLine(Bottom, b, fill)] else [];
    assert SideLines(t, b, fill) == if w.top then [SideLine(Top, b, fill)] else [];
  }

  /** One segment per present wall. */
  lemma WallLinesCount(w: Walls, b: Box, fill: string)
    ensures |WallLines(w, b, fill)| == w.Count()
  {
    WallLinesUnrolled(w, b, fill);
  }

  /** A cell emits no segment exactly when all four of its walls are gone. */
  lemma NoLinesIffNoWalls(w: Walls, b: Box, fill: string)
    ensures WallLines(w, b, fill) == [] <==> !w.left && !w.right && !w.bottom && !w.top
  {
    WallLinesCount(w, b, fill);
  }

  /** A cell with every wall draws these four segments, in this order. */
  lemma AllWallsLines(b: Box, fill: string)
    ensures var x1, y1, x2, y2 := b.topLeft.x, b.topLeft.y, b.bottomRight.x, b.bottomRight.y;
      WallLines(AllWalls, b, fill) == [
        Line(Point(x1, x1), Point(x1, y2), fill, WallWidth),
        Line(Point(x2, y2), Point(x2, y1), fill, WallWidth),
        Line(Point(x1, y2), Point(x2, y2), fill, WallWidth),
        Line(Point(x1, y1), Point(x2, y1), fill, WallWidth)]
  {
    WallLinesUnrolled(AllWalls, b, fill);
  }

  /** Every segment joins two corners of the box, except the left wall's, which
      joins (x1, x1) to the bottom-left corner: it starts at the top-left corner
      only when x1 == y1. */
  lemma SideLineEnds(s: Side, b: Box, fill: string)
    ensures var l := SideLine(s, b, fill);
      var corners := {b.topLeft, b.bottomRight,
                      Point(b.topLeft.x, b.bottomRight.y), Point(b.bottomRight.x, b.topLeft.y)};
      l.end in corners &&
      (s != Left ==> l.start in corners) &&
      (s == Left ==> l.start == Point(b.topLeft.x, b.topLeft.x)) &&
      (s == Left ==> (l.start == b.topLeft <==> b.topLeft.x == b.topLeft.y))
  {
  }

  /** A cell of the maze (cell.py's Cell).  The corners are fixed when the cell
      is made; the wall flags are cleared in place by the maze. */
  class Cell {
    const x1: int
    const y1: int
    const x2: int
    const y2: int
    var hasBottomWall: bool
    var hasTopWall: bool
    var hasLeftWall: bool
    var hasRightWall: bool

    /** The box spanned by the cell's two corners. */
    function Corners(): Box {
      Box(Point(x1, y1), Point(x2, y2))
    }

    /** The current value of the four wall flags. */
    function State(): Walls
      reads this
    {
      Walls(hasLeftWall, hasRightWall, hasBottomWall, hasTopWall)
    }

    /** A new cell keeps the two given corners and has all four walls. */
    constructor (topLeftPt: Point, bottomRightPt: Point)
      ensures x1 == topLeftPt.x && y1 == topLeftPt.y
      ensures x2 == bottomRightPt.x && y2 == bottomRightPt.y
      ensures hasLeftWall && hasRightWall && hasBottomWall && hasTopWall
    {
      x1 := topLeftPt.x;
      y1 := topLeftPt.y;
      x2 := bottomRightPt.x;
      y2 := bottomRightPt.y;
      hasBottomWall := true;
      hasTopWall := true;
      hasLeftWall := true;
      hasRightWall := true;
    }

    /** Draws the present walls on `canvas`; the cell itself is not changed. */
    method Draw(canvas: Canvas, fill: string)
      modifies canvas
      ensures canvas.lines == old(canvas.lines) + WallLines(State(), Corners(), fill)
    {
      WallLinesUnrolled(State(), Corners(), fill);
      if hasLeftWall {
        canvas.CreateLine(x1, x1, x1, y2, fill, WallWidth);
      }
      if hasRightWall {
        canvas.CreateLine(x2, y2, x2, y1, fill, WallWidth);
      }
      if hasBottomWall {
        canvas.CreateLine(x1, y2, x2, y2, fill, WallWidth);
      }
      if hasTopWall {
        canvas.CreateLine(x1, y1, x2, y1, fill, WallWidth);
      }
    }
  }
}
