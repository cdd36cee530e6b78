/** The maze's table of cells (maze.py): building it, drawing it cell by cell
    when a window is attached, and opening the entrance and the exit. */
module Mazes {
  import opened Drawing
  import opened Cells

  /** The number of values Python's `range(n)` yields. */
  function RangeLength(n: int): nat {
    if n < 0 then 0 else n
  }

  /** Where the maze starts on the canvas and how large each cell is. */
  datatype Layout = Layout(x1: int, y1: int, sizeX: int, sizeY: int)

  /** The box of cell (i, j).  The row index i moves along x and the column
      index j along y. */
  function CellBox(p: Layout, i: int, j: int): (b: Box)
    ensures b.bottomRight.x - b.topLeft.x == p.sizeX
    ensures b.bottomRight.y - b.topLeft.y == p.sizeY
  {
    var topLeftX := p.x1 + p.sizeX * i;
    var topLeftY := p.y1 + p.sizeY * j;
    Box(Point(topLeftX, topLeftY), Point(topLeftX + p.sizeX, topLeftY + p.sizeY))
  }

  /** Cell (0, 0) starts at the maze's origin. */
  lemma FirstCellAtOrigin(p: Layout)
    ensures CellBox(p, 0, 0).topLeft == Point(p.x1, p.y1)
  {
  }

  /** Cell (i + 1, j) starts where cell (i, j) ends along x, and cell (i, j + 1)
      starts where cell (i, j) ends along y. */
  lemma NeighbourBoxesMeet(p: Layout, i: int, j: int)
    ensures CellBox(p, i + 1, j).topLeft == Point(CellBox(p, i, j).bottomRight.x, CellBox(p, i, j).topLeft.y)
    ensures CellBox(p, i, j + 1).topLeft == Point(CellBox(p, i, j).topLeft.x, CellBox(p, i, j).bottomRight.y)
  {
    assert p.sizeX * (i + 1) == p.sizeX * i + p.sizeX;
    assert p.sizeY * (j + 1) == p.sizeY * j + p.sizeY;
  }

  /** With a non-negative cell width, the boxes of two different rows do not
      overlap: a lower row index ends before a higher one starts. */
  lemma {:induction false} RowsInOrder(p: Layout, i: int, k: int, j: int, l: int)
    requires p.sizeX >= 0 && i < k
    ensures CellBox(p, i, j).bottomRight.x <= CellBox(p, k, l).topLeft.x
    decreases k - i
  {
    NeighbourBoxesMeet(p, k - 1, l);
    if i < k - 1 {
      RowsInOrder(p, i, k - 1, j, l);
    } else {
      NeighbourBoxesMeet(p, i, j);
    }
  }

  /** The same along y for two different columns. */
  lemma {:induction false} ColumnsInOrder(p: Layout, i: int, k: int, j: int, l: int)
    requires p.sizeY >= 0 && j < l
    ensures CellBox(p, i, j).bottomRight.y <= CellBox(p, k, l).topLeft.y
    decreases l - j
  {
    NeighbourBoxesMeet(p, k, l - 1);
    if j < l - 1 {
      ColumnsInOrder(p, i, k, j, l - 1);
    } else {
      NeighbourBoxesMeet(p, i, j);
    }
  }

  /** The wall flags of the whole table, row by row. */
  type Grid = seq<seq<Walls>>

  /** `g` has `rows` rows of `cols` cells each. */
  predicate IsTable(g: Grid, rows: nat, cols: nat) {
    |g| == rows && forall i :: 0 <= i < |g| ==> |g[i]| == cols
  }

  /** A row of `cols` new cells, each with all four walls. */
  function FreshRow(cols: nat): (r: seq<Walls>)
    ensures |r| == cols && forall j :: 0 <= j < cols ==> r[j] == AllWalls
  {
    seq(cols, _ => AllWalls)
  }

  /** The table of a newly made maze. */
  function FreshGrid(rows: nat, cols: nat): (g: Grid)
    ensures IsTable(g, rows, cols)
    ensures forall i, j :: 0 <= i < rows && 0 <= j < cols ==> g[i][j] == AllWalls
  {
    seq(rows, _ => FreshRow(cols))
  }

  /** A fresh table one row longer is the fresh table plus one fresh row. */
  lemma FreshGridGrows(rows: nat, cols: nat)
    ensures FreshGrid(rows + 1, cols) == FreshGrid(rows, cols) + [FreshRow(cols)]
  {
  }

  /** The table after the top wall of (0, 0) and then the bottom wall of
      (rows - 1, cols - 1) are cleared. */
  function OpenEntranceAndExit(g: Grid, rows: nat, cols: nat): (r: Grid)
    requires IsTable(g, rows, cols) && rows >= 1 && cols >= 1
    ensures IsTable(r, rows, cols)
  {
    ClearIn(ClearIn(g, 0, 0, Top), rows - 1, cols - 1, Bottom)
  }

  /** The table after the wall on side `s` of cell (i, j) is cleared. */
  function ClearIn(g: Grid, i: nat, j: nat, s: Side): (r: Grid)
    requires i < |g| && j < |g[i]|
    ensures |r| == |g| && forall k :: 0 <= k < |g| ==> |r[k]| == |g[k]|
  {
    g[i := g[i][j := g[i][j].Without(s)]]
  }

  /** Clearing side `s` of cell (i, j) gives that cell the walls `Without(s)`. */
  lemma ClearedCell(g: Grid, i: nat, j: nat, s: Side)
    requires i < |g| && j < |g[i]|
    ensures ClearIn(g, i, j, s)[i][j] == g[i][j].Without(s)
  {
  }

  /** The entrance has no top wall and the exit no bottom wall. */
  lemma EntranceAndExitOpen(g: Grid, rows: nat, cols: nat)
    requires IsTable(g, rows, cols) && rows >= 1 && cols >= 1
    ensures !OpenEntranceAndExit(g, rows, cols)[0][0].top
    ensures !OpenEntranceAndExit(g, rows, cols)[rows - 1][cols - 1].bottom
  {
  }

  /** Only two flags can change: the top wall of (0, 0) and the bottom wall of
      (rows - 1, cols - 1).  Every other flag, including the other three walls
      of those two cells, is kept. */
  lemma OnlyEntranceTopAndExitBottomChange(g: Grid, rows: nat, cols: nat, i: int, j: int)
    requires IsTable(g, rows, cols) && rows >= 1 && cols >= 1
    requires 0 <= i < rows && 0 <= j < cols
    ensures var c, c' := g[i][j], OpenEntranceAndExit(g, rows, cols)[i][j];
      c'.left == c.left && c'.right == c.right &&
      c'.top == (c.top && (i, j) != (0, 0)) &&
      c'.bottom == (c.bottom && (i, j) != (rows - 1, cols - 1))
  {
  }

  /** Opening twice is the same as opening once. */
  lemma OpenIdempotent(g: Grid, rows: nat, cols: nat)
    requires IsTable(g, rows, cols) && rows >= 1 && cols >= 1
    ensures OpenEntranceAndExit(OpenEntranceAndExit(g, rows, cols), rows, cols) == OpenEntranceAndExit(g, rows, cols)
  {
    var r := OpenEntranceAndExit(g, rows, cols);
    var r' := OpenEntranceAndExit(r, rows, cols);
    forall i | 0 <= i < rows
      ensures r'[i] == r[i]
    {
      forall j | 0 <= j < cols
        ensures r'[i][j] == r[i][j]
      {
        OnlyEntranceTopAndExitBottomChange(g, rows, cols, i, j);
        OnlyEntranceTopAndExitBottomChange(r, rows, cols, i, j);
      }
    }
  }

  /** On a 1 x 1 table the only cell loses its top and its bottom wall and
      keeps its left and right walls. */
  lemma SingleCellOpened(g: Grid)
    requires IsTable(g, 1, 1)
    ensures OpenEntranceAndExit(g, 1, 1) == [[g[0][0].(top := false, bottom := false)]]
  {
    var r := OpenEntranceAndExit(g, 1, 1);
    OnlyEntranceTopAndExitBottomChange(g, 1, 1, 0, 0);
    assert r[0] == [r[0][0]];
  }

  /** What drawing cells (i, 0) .. (i, j - 1) of table `g` puts on the canvas. */
  function RowLines(g: Grid, p: Layout, i: nat, j: nat): seq<Line>
    requires i < |g| && j <= |g[i]|
  {
    if j == 0 then [] else RowLines(g, p, i, j - 1) + WallLines(g[i][j - 1], CellBox(p, i, j - 1), DefaultFill)
  }

  /** What drawing every cell of rows 0 .. i - 1 of `g`, row by row, puts on the
      canvas. */
  function GridLines(g: Grid, p: Layout, i: nat): seq<Line>
    requires i <= |g|
  {
    if i == 0 then [] else GridLines(g, p, i - 1) + RowLines(g, p, i - 1, |g[i - 1]|)
  }

  /** Cells without walls draw nothing: a row of them adds no segment. */
  lemma {:induction false} BareRowDrawsNothing(g: Grid, p: Layout, i: nat, j: nat)
    requires i < |g| && j <= |g[i]|
    requires forall l :: 0 <= l < j ==> g[i][l] == NoWalls
    ensures |RowLines(g, p, i, j)| == 0
  {
    if j > 0 {
      BareRowDrawsNothing(g, p, i, j - 1);
      WallLinesCount(g[i][j - 1], CellBox(p, i, j - 1), DefaultFill);
    }
  }

  /** A table whose cells have no walls left draws nothing at all. */
  lemma {:induction false} BareTableDrawsNothing(g: Grid, p: Layout, i: nat)
    requires i <= |g|
    requires forall k, l :: 0 <= k < i && 0 <= l < |g[k]| ==> g[k][l] == NoWalls
    ensures GridLines(g, p, i) == []
  {
    if i > 0 {
      BareTableDrawsNothing(g, p, i - 1);
      BareRowDrawsNothing(g, p, i - 1, |g[i - 1]|);
    }
  }

  /** Drawing j cells that have all their walls draws four segments per cell. */
  lemma {:induction false} FreshRowLinesCount(rows: nat, cols: nat, p: Layout, i: nat, j: nat)
    requires i < rows && j <= cols
    ensures |RowLines(FreshGrid(rows, cols), p, i, j)| == 4 * j
  {
    if j > 0 {
      FreshRowLinesCount(rows, cols, p, i, j - 1);
      WallLinesCount(AllWalls, CellBox(p, i, j - 1), DefaultFill);
    }
  }

  /** Drawing a new maze draws four segments for each of its cells. */
  lemma {:induction false} FreshGridLinesCount(rows: nat, cols: nat, p: Layout, i: nat)
    requires i <= rows
    ensures |GridLines(FreshGrid(rows, cols), p, i)| == 4 * i * cols
  {
    if i > 0 {
      FreshGridLinesCount(rows, cols, p, i - 1);
      FreshRowLinesCount(rows, cols, p, i - 1, cols);
      MultiplyStep(i, cols);
    }
  }

  lemma ConcatAssoc<T>(a: seq<T>, b: seq<T>, c: seq<T>)
    ensures a + b + c == a + (b + c)
  {
  }

  lemma MultiplyStep(i: int, c: int)
    ensures 4 * (i - 1) * c + 4 * c == 4 * i * c
  {
    assert (i - 1) * c + c == i * c;
  }

  /** The maze: a table of cells laid out from (x1, y1), optionally drawn on a
      window's canvas. */
  class Maze {
    const x1: int
    const y1: int
    const numRows: int
    const numCols: int
    const cellSizeX: int
    const cellSizeY: int
    /** The canvas of the window the maze is drawn on; null when there is none. */
    const win: Canvas?
    /** The table of cells, one list per row. */
    var cells: seq<seq<Cell>>
    /** The wall flags of every cell. */
    ghost var walls: Grid
    /** The position of every cell in the table; it also shows no cell appears twice. */
    ghost var Coords: map<Cell, (int, int)>

    /** The maze's origin and cell sizes. */
    function Geometry(): Layout {
      Layout(x1, y1, cellSizeX, cellSizeY)
    }

    /** The table is `numRows` rows of `numCols` cells and agrees with `walls`. */
    ghost predicate Valid()
      reads this, Coords.Keys
    {
      IsTable(walls, RangeLength(numRows), RangeLength(numCols)) && Consistent()
    }

    /** Every row built so far matches `walls`, every cell sits at its own place
        in `Coords` and has the box of its place. */
    ghost predicate Consistent()
      reads this, Coords.Keys
    {
      && |cells| == |walls|
      && (forall i :: 0 <= i < |cells| ==> |cells[i]| == |walls[i]|)
      && (forall i, j :: 0 <= i < |cells| && 0 <= j < |cells[i]| ==>
            cells[i][j] in Coords && Coords[cells[i][j]] == (i, j))
      && (forall i, j :: 0 <= i < |cells| && 0 <= j < |cells[i]| ==>
            cells[i][j].State() == walls[i][j] && cells[i][j].Corners() == CellBox(Geometry(), i, j))
    }

    /** Builds the table: `numRows` rows of `numCols` cells, each with all four
        walls, and draws every cell when there is a window. */
    constructor (x1: int, y1: int, numRows: int, numCols: int, cellSizeX: int, cellSizeY: int, win: Canvas?)
      modifies win
      ensures Valid() && fresh(Coords.Keys)
      ensures this.x1 == x1 && this.y1 == y1 && this.numRows == numRows && this.numCols == numCols
      ensures this.cellSizeX == cellSizeX && this.cellSizeY == cellSizeY && this.win == win
      ensures walls == FreshGrid(RangeLength(numRows), RangeLength(numCols))
      ensures win != null ==> win.lines == old(win.lines) + GridLines(walls, Geometry(), |walls|)
    {
      this.x1 := x1;
      this.y1 := y1;
      this.numRows := numRows;
      this.numCols := numCols;
      this.cellSizeX := cellSizeX;
      this.cellSizeY := cellSizeY;
      this.win := win;
      cells := [];
      walls := [];
      Coords := map[];
      new;
      CreateCells();
    }

    /** Appends the rows of new cells, then draws every cell, row by row. */
    method CreateCells()
      requires cells == [] && walls == [] && Coords == map[]
      modifies this, win
      ensures Valid() && fresh(Coords.Keys)
      ensures walls == FreshGrid(RangeLength(numRows), RangeLength(numCols))
      ensures win != null ==> win.lines == old(win.lines) + GridLines(walls, Geometry(), |walls|)
    {
      var rows := RangeLength(numRows);
      var row := 0;
      while row < rows
        invariant 0 <= row <= rows
        invariant Consistent() && walls == FreshGrid(row, RangeLength(numCols))
        invariant fresh(Coords.Keys)
        invariant win != null ==> win.lines == old(win.lines)
      {
        AppendRow();
        row := row + 1;
      }

      DrawAllCells();
    }

    /** Draws every cell, row by row. */
    method DrawAllCells()
      requires Valid()
      modifies win
      ensures win != null ==> win.lines == old(win.lines) + GridLines(walls, Geometry(), |walls|)
    {
      var i := 0;
      while i < |cells|
        invariant 0 <= i <= |cells|
        invariant win != null ==> win.lines == old(win.lines) + GridLines(walls, Geometry(), i)
      {
        DrawRow(i);
        if win != null {
          ConcatAssoc(old(win.lines), GridLines(walls, Geometry(), i), RowLines(walls, Geometry(), i, |walls[i]|));
        }
        i := i + 1;
      }
    }

    /** Appends one row of `numCols` new cells, each with all four walls. */
    method AppendRow()
      requires Consistent() && walls == FreshGrid(|walls|, RangeLength(numCols))
      modifies this
      ensures Consistent() && walls == FreshGrid(old(|walls|) + 1, RangeLength(numCols))
      ensures |cells| == |old(cells)| + 1 && cells[..|old(cells)|] == old(cells)
      ensures forall c :: c in old(Coords) ==> c in Coords && Coords[c] == old(Coords)[c]
      ensures fresh(Coords.Keys - old(Coords.Keys))
    {
      var row, cols := |cells|, RangeLength(numCols);
      var colList, rowCoords := NewRow(row, cols);
      Coords := Coords + rowCoords;
      cells := cells + [colList];
      walls := walls + [FreshRow(cols)];
      FreshGridGrows(row, cols);
      assert forall c :: c in old(Coords) ==> c !in rowCoords;
      forall i, j | 0 <= i < |cells| && 0 <= j < |cells[i]|
        ensures cells[i][j] in Coords && Coords[cells[i][j]] == (i, j)
      {
        if i < row {
          assert cells[i][j] == old(cells)[i][j] && cells[i][j] in old(Coords);
          assert cells[i][j] !in rowCoords;
        } else {
          assert cells[i][j] == colList[j];
        }
      }
    }

    /** The `cols` new cells of row `row`, from left to right, each at its own
        box and with all four walls; `rowCoords` places each at (row, j). */
    method NewRow(row: int, cols: nat) returns (colList: seq<Cell>, ghost rowCoords: map<Cell, (int, int)>)
      ensures |colList| == cols
      ensures forall j :: 0 <= j < cols ==>
        colList[j].State() == AllWalls && colList[j].Corners() == CellBox(Geometry(), row, j)
      ensures forall j :: 0 <= j < cols ==> colList[j] in rowCoords && rowCoords[colList[j]] == (row, j)
      ensures fresh(rowCoords.Keys)
    {
      colList, rowCoords := [], map[];
      var col := 0;
      while col < cols
        invariant 0 <= col <= cols && |colList| == col
        invariant forall j :: 0 <= j < col ==>
          colList[j].State() == AllWalls && colList[j].Corners() == CellBox(Geometry(), row, j)
        invariant forall j :: 0 <= j < col ==> colList[j] in rowCoords && rowCoords[colList[j]] == (row, j)
        invariant fresh(rowCoords.Keys)
      {
        var box := CellBox(Geometry(), row, col);
        var cell := new Cell(box.topLeft, box.bottomRight);
        colList := colList + [cell];
        rowCoords := rowCoords[cell := (row, col)];
        col := col + 1;
      }
    }

    /** Draws the cells of row i from left to right. */
    method DrawRow(i: int)
      requires Valid() && 0 <= i < |cells|
      modifies win
      ensures win != null ==> win.lines == old(win.lines) + RowLines(walls, Geometry(), i, |walls[i]|)
    {
      var j := 0;
      while j < |cells[i]|
        invariant 0 <= j <= |cells[i]|
        invariant win != null ==> win.lines == old(win.lines) + RowLines(walls, Geometry(), i, j)
      {
        DrawCell(i, j);
        if win != null {
          ConcatAssoc(old(win.lines), RowLines(walls, Geometry(), i, j),
                      WallLines(walls[i][j], CellBox(Geometry(), i, j), DefaultFill));
        }
        j := j + 1;
      }
    }

    /** Draws cell (i, j) at its box when there is a window; without one it
        does nothing. */
    method DrawCell(i: int, j: int)
      requires Valid()
      requires win != null ==> 0 <= i < |cells| && 0 <= j < |cells[i]|
      modifies win
      ensures win != null ==> win.lines == old(win.lines) + WallLines(walls[i][j], CellBox(Geometry(), i, j), DefaultFill)
    {
      if win == null {
        return;
      }
      cells[i][j].Draw(win, DefaultFill);
    }

    /** Clears the top wall of the entrance (0, 0), draws it, clears the bottom
        wall of the exit (numRows - 1, numCols - 1) and draws it.  On a table
        without cells the first lookup fails (an IndexError) before anything
        changes: `ok` is false then. */
    method BreakEntranceAndExit() returns (ok: bool)
      requires Valid()
      modifies this, Coords.Keys, win
      ensures Valid() && cells == old(cells) && Coords == old(Coords)
      ensures ok <==> numRows >= 1 && numCols >= 1
      ensures ok ==> walls == OpenEntranceAndExit(old(walls), numRows, numCols)
      ensures !ok ==> walls == old(walls) && (win != null ==> win.lines == old(win.lines))
      ensures ok && win != null ==>
        win.lines == old(win.lines)
          + WallLines(old(walls)[0][0].Without(Top), CellBox(Geometry(), 0, 0), DefaultFill)
          + WallLines(walls[numRows - 1][numCols - 1], CellBox(Geometry(), numRows - 1, numCols - 1), DefaultFill)
    {
      if numRows < 1 || numCols < 1 {
        return false;
      }
      OpenAndDrawBoth();
      ok := true;
    }

    /** On a table with at least one cell: clears and draws the entrance, then
        the exit. */
    method OpenAndDrawBoth()
      requires Valid() && numRows >= 1 && numCols >= 1
      modifies this, Coords.Keys, win
      ensures Valid() && cells == old(cells) && Coords == old(Coords)
      ensures walls == OpenEntranceAndExit(old(walls), numRows, numCols)
      ensures win != null ==>
        win.lines == old(win.lines)
          + WallLines(old(walls)[0][0].Without(Top), CellBox(Geometry(), 0, 0), DefaultFill)
          + WallLines(walls[numRows - 1][numCols - 1], CellBox(Geometry(), numRows - 1, numCols - 1), DefaultFill)
    {
      ghost var before: Grid := walls;
      ghost var entrance := WallLines(before[0][0].Without(Top), CellBox(Geometry(), 0, 0), DefaultFill);
      ClearAndDraw(0, 0, Top);
      ClearedCell(before, 0, 0, Top);
      assert win != null ==> win.lines == old(win.lines) + entrance;
      ghost var entranceOpened := walls;
      ClearAndDraw(numRows - 1, numCols - 1, Bottom);
      assert walls == ClearIn(entranceOpened, numRows - 1, numCols - 1, Bottom);
    }

    /** Clears the wall on side `s` of cell (i, j), then draws that cell. */
    method ClearAndDraw(i: int, j: int, s: Side)
      requires Valid() && 0 <= i < |cells| && 0 <= j < |cells[i]|
      modifies this, cells[i][j], win
      ensures Valid() && cells == old(cells) && Coords == old(Coords)
      ensures walls == ClearIn(old(walls), i, j, s)
      ensures win != null ==>
        win.lines == old(win.lines) + WallLines(walls[i][j], CellBox(Geometry(), i, j), DefaultFill)
    {
      ClearWall(i, j, s);
      DrawCell(i, j);
    }

    /** Clears the wall on side `s` of cell (i, j), in place. */
    method ClearWall(i: int, j: int, s: Side)
      requires Valid() && 0 <= i < |cells| && 0 <= j < |cells[i]|
      modifies this, cells[i][j]
      ensures Valid() && cells == old(cells) && Coords == old(Coords)
      ensures walls == ClearIn(old(walls), i, j, s)
    {
      var cell := cells[i][j];
      match s {
        case Left => cell.hasLeftWall := false;
        case Right => cell.hasRightWall := false;
        case Bottom => cell.hasBottomWall := false;
        case Top => cell.hasTopWall := false;
      }
      walls := ClearIn(walls, i, j, s);
      forall k, l | 0 <= k < |cells| && 0 <= l < |cells[k]| && (k, l) != (i, j)
        ensures cells[k][l] != cell
      {
        assert Coords[cells[k][l]] == (k, l);
      }
    }
  }

  /** The scenarios the repository's unit tests run, stated against the contracts. */
  method TestScenarios()
  {
    var m := new Maze(0, 0, 10, 12, 10, 10, null);
    assert |m.cells| == 10 && |m.cells[0]| == 12;

    var big := new Maze(0, 0, 1000, 100, 10, 10, null);
    assert |big.cells| == 1000 && |big.cells[0]| == 100;
    var ok := big.BreakEntranceAndExit();
    assert ok;
    EntranceAndExitOpen(FreshGrid(1000, 100), 1000, 100);
    assert !big.walls[0][0].top && !big.walls[999][99].bottom;
    assert big.cells[0][0].State() == big.walls[0][0];
    assert big.cells[999][99].State() == big.walls[999][99];
    assert !big.cells[0][0].hasTopWall && !big.cells[999][99].hasBottomWall;
  }
}
