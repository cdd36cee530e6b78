# Maze solver core in Dafny

This project models the core of a small Python/Tk maze application. The
core has three parts:

- **The maze's table of cells** (`maze.py`). A `Maze` builds `num_rows`
  rows of `num_cols` cells. Every cell starts with all four walls. When a
  window is attached, each cell is drawn at its box on the canvas; the row
  index moves along x and the column index along y. Without a window,
  drawing does nothing. `_break_entrance_and_exit` clears the top wall of
  cell (0, 0) and the bottom wall of the last cell, in place, and redraws
  both cells.
- **A cell** (`cell.py`). A cell holds its four wall flags and two corners.
  `draw` creates one line segment per present wall, in the order left,
  right, bottom, top.
- **The row and column fields of the configuration window** (`window.py`).
  A key validator accepts at most three characters matching `^[0-9]*$`.
  The getters convert the field text with `int()` and fall back to 12 when
  the conversion fails. The application derives the cell size from the
  canvas size by floor division.

Modules:

- `Drawing` (`drawing.dfy`) holds points, boxes and line segments. The
  canvas is a class whose only state is the ordered log of the segments
  created on it, because `create_line` is all the core asks of it.
- `Cells` (`cell.dfy`) holds the `Cell` class. `Cell.Draw` is an imperative
  method proved to append exactly `WallLines(State(), Corners(), fill)`.
  That pure function is the specification of what a cell draws.
- `Mazes` (`maze.dfy`) holds the `Maze` class. Its ghost state has two
  parts:
  - `walls`, the table of wall flags;
  - `Coords`, the place of every cell object in the table. It shows that
    the cells are distinct objects, so clearing one cell's wall leaves every
    other cell alone.

  The methods are proved against pure functions: `FreshGrid`,
  `OpenEntranceAndExit`, `CellBox`, and `RowLines`/`GridLines` for what is
  drawn.
- `Window` (`window.dfy`) models the validator, Python's `int()` on a
  string, the field getters and the cell-size computation, all as pure
  functions.

Python semantics written out in the model:

- `range(n)` of a negative `n` is empty (`RangeLength`).
- `$` in a Python regular expression also matches just before a final
  newline. The validator therefore accepts `"12\n"` and `"\n"`.
- `int(text)` strips white space and accepts one optional sign and digits
  with single underscores between them. Anything else raises `ValueError`,
  which the getters turn into 12.
- `//` rounds towards minus infinity (`FloorDiv`). A zero count raises
  `ZeroDivisionError`, modelled as `None`.
- An `IndexError` in `_break_entrance_and_exit` on a table without cells
  is modelled as the result `ok == false`, with nothing changed.

The source calls its own pieces in ways that do not fit together:

- `maze.py:31` builds a `Cell` from the window.
- `maze.py:47` calls `draw` with four coordinates.
- `window.py:60-69` passes eight arguments to the seven-parameter `Maze`.

The model follows the evident intent. Cells are made with all walls and
with the corners of their box. Drawing a cell draws its present walls at
that box on the window's canvas, in the default colour `"black"`
(`window.py:106`).

## Model

| member | source | states |
|---|---|---|
| Cells.Cell.constructor | cell.py:2-10 | the corners are the two given points, and all four walls are present |
| Drawing.Canvas.CreateLine | cell.py:14-21 | `create_line` adds exactly the one segment asked for, after every segment created before it |
| Cells.Cell.Draw | cell.py:12-51 | the canvas log grows by exactly `WallLines` of the cell's walls and corners; only the canvas changes, so the flags and corners are kept |
| Cells.WallLinesUnrolled | cell.py:12-51 | the segments drawn are the present walls' segments, each guarded by its flag, in the order left, right, bottom, top |
| Cells.WallLinesCount | cell.py:13-51 | exactly one segment per present wall |
| Cells.NoLinesIffNoWalls | cell.py:13-51 | no segment is drawn if and only if all four walls are gone |
| Cells.AllWallsLines | cell.py:14-51 | a cell with every wall draws exactly the four segments (x1,x1)-(x1,y2), (x2,y2)-(x2,y1), (x1,y2)-(x2,y2), (x1,y1)-(x2,y1), in this order |
| Cells.SideLineEnds | cell.py:14-51 | the right, bottom and top segments join two corners of the box; the left one starts at (x1, x1), which is the top-left corner only when x1 == y1 |
| Cells.Walls.Without | maze.py:57-61 | clearing one side removes that wall and keeps the other three |
| Mazes.CellBox | maze.py:43-46 | the box of cell (i, j) is exactly cell_size_x wide and cell_size_y high |
| Mazes.FirstCellAtOrigin | maze.py:43-44 | cell (0, 0) starts at (x1, y1) |
| Mazes.NeighbourBoxesMeet | maze.py:43-46 | row i + 1 starts along x where row i ends, and column j + 1 starts along y where column j ends |
| Mazes.RowsInOrder | maze.py:43-46 | with a non-negative cell width, every cell of a lower row ends along x no later than any cell of a higher row starts |
| Mazes.ColumnsInOrder | maze.py:43-46 | the same along y for columns, with a non-negative cell height |
| Mazes.FreshRow | maze.py:30-31 | a new row has exactly `num_cols` cells, each with all four walls |
| Mazes.FreshGrid | maze.py:28-32 | the new table has the requested numbers of rows and columns, and every cell has all four walls |
| Mazes.FreshGridGrows | maze.py:28-32 | appending one row of fresh cells to a fresh table gives the fresh table with one more row |
| Mazes.ClearIn | maze.py:57-61 | clearing one wall keeps the table's shape: the same number of rows, each with the same number of cells |
| Mazes.OpenEntranceAndExit | maze.py:56-62 | opening the entrance and the exit keeps a rows x cols table a rows x cols table |
| Mazes.EntranceAndExitOpen | maze.py:56-62 | after opening, cell (0, 0) has no top wall and the last cell has no bottom wall |
| Mazes.OnlyEntranceTopAndExitBottomChange | maze.py:56-62 | every other flag of every cell is kept, including the other walls of the two opened cells |
| Mazes.OpenIdempotent | maze.py:56-62 | opening twice gives the same table as opening once |
| Mazes.SingleCellOpened | maze.py:56-62 | on a 1 x 1 table the only cell loses its top and bottom walls and keeps its left and right walls |
| Mazes.FreshRowLinesCount | maze.py:34-36 | drawing j cells of a new maze's row draws 4 j segments |
| Mazes.FreshGridLinesCount | maze.py:34-36 | drawing a new maze draws four segments per cell |
| Mazes.BareRowDrawsNothing | maze.py:35-36 | drawing cells of a row that have lost all their walls adds no segment |
| Mazes.BareTableDrawsNothing | maze.py:34-36 | drawing a table whose cells have lost all their walls draws nothing at all |
| Mazes.Maze.constructor | maze.py:6-36 | the maze keeps its parameters and holds a table of RangeLength(num_rows) rows of RangeLength(num_cols) fresh cells with all walls, each at its own box; with a window, every cell is drawn row by row, and without one nothing is drawn |
| Mazes.Maze.CreateCells | maze.py:26-36 | the rows are appended first, then every cell is drawn in row-major order |
| Mazes.Maze.AppendRow | maze.py:29-32 | one row of num_cols new cells with all walls is appended after the earlier rows, which are kept; every earlier cell keeps its place, and the table invariant is kept |
| Mazes.Maze.NewRow | maze.py:29-31 | the new row's cells are distinct new objects, each with all walls and the box of its place |
| Mazes.Maze.DrawAllCells | maze.py:34-36 | the canvas log grows by `GridLines` of the whole table |
| Mazes.Maze.DrawRow | maze.py:35-36 | the canvas log grows by the segments of the row's cells, from left to right |
| Mazes.Maze.DrawCell | maze.py:38-47 | with a window, the cell's present walls are drawn at the box of (i, j); without a window nothing changes |
| Mazes.Maze.BreakEntranceAndExit | maze.py:56-62 | the call succeeds exactly when there is at least one row and one column; then the table becomes `OpenEntranceAndExit` of the old one, and the entrance is drawn before the exit; otherwise nothing changes; the cell objects stay the same and the table invariant is kept |
| Mazes.Maze.OpenAndDrawBoth | maze.py:57-62 | on a table with cells, the table becomes `OpenEntranceAndExit` of the old one, and the entrance (with its top wall cleared) is drawn before the exit |
| Mazes.ClearedCell | maze.py:57-61 | clearing one side of a cell in the table gives that cell its old walls without that side (for the entrance, `has_top_wall` becomes false) |
| Mazes.Maze.ClearAndDraw | maze.py:57-62 | one wall of one cell is cleared in place and that cell is drawn |
| Mazes.Maze.ClearWall | maze.py:57-61 | one wall flag of one cell is cleared in place; no other cell changes |
| Window.LeadingDigits | window.py:196 | `[0-9]*` consumes a prefix of digits and stops at the first non-digit |
| Window.DigitPatternMeaning | window.py:196 | `^[0-9]*$` matches exactly the strings of digits, with or without one final newline |
| Window.ValidateIntVal | window.py:195-198 | a text is accepted if and only if it is shorter than 4 characters and is digits, with or without one final newline |
| Window.ValidatorExamples | window.py:195-198 | "", "0", "999", "12\n" and "\n" are accepted; "-1", "1a", "1000", " 12" and "12\n\n" are refused |
| Window.MatchesDigitPattern | window.py:196 | every string of digits matches `^[0-9]*$`, and in a matching string every character but the last is a digit |
| Window.ParseStripped | window.py:202 | when `int` of a stripped text succeeds, the text ends in a digit, has only digits and underscores after its first character, and a negative value means it begins with `-` |
| Window.PyInt | window.py:202 | `int` of a text that is empty or only white space raises `ValueError`; a negative result needs a leading `-` |
| Window.PyIntStripsSpace | window.py:202 | white space around the text does not change what `int` returns |
| Window.StrippedDigits | window.py:202 | `int` of a text that is digits between white space is the number those digits spell |
| Window.DecimalStringValue | window.py:202 | the digits of a natural number spell that number |
| Window.PyIntOfDigits | window.py:202 | `int` of a non-empty string of digits is the number they spell |
| Window.PyIntOfDecimal | window.py:202 | `int(str(n)) == n` for every natural number n |
| Window.FieldValue | window.py:200-214 | the field's value is `int` of its text when the conversion succeeds, and 12 when it fails; a field holding digits (with white space around them) reads as the number they spell, and an empty or blank field reads as 12 |
| Window.RowColFrame.GetRowValue | window.py:200-206 | the row field reads as the number its digits spell, and as 12 when it is empty or blank |
| Window.RowColFrame.GetColValue | window.py:208-214 | the column field reads as the number its digits spell, and as 12 when it is empty or blank |
| Window.ValidatedFieldValue | window.py:195-214 | for a text the validator accepted, the value is the number its digits spell, in 0..999, or 12 when there are no digits |
| Window.KeyEdit | window.py:173-184 | a key edit keeps a field valid; a text the validator accepts becomes the field's text, and any other text leaves the field as it was |
| Window.NewRowColFrame | window.py:168-187 | a new frame's fields are valid and both read as 12 |
| Window.RowColValuesInRange | window.py:195-214 | whatever the user types, both getters return a number from 0 to 999 |
| Window.FloorDiv | window.py:65-66 | the quotient is the floor of a / b, for either sign of b |
| Window.CellSizes | window.py:65-66 | the sizes are undefined exactly when a count is 0; for a positive count, row * size_x <= width - 2 x_margin < row * (size_x + 1), and the same for the height |
| Window.DefaultCellSizes | window.py:36-66 | the defaults 800 x 600, 30-pixel margins and a 10 x 10 maze give 74 x 54 cells |
| Window.AppMazeFitsCanvas | window.py:60-66 | with positive counts and margins that fit, every cell of the application's maze lies inside the canvas margins |

## Left out

- `Maze._animate` (`maze.py:50-54`) is a window redraw plus a 50 ms sleep. It is timing and I/O only; without a window it returns at once, like `DrawCell`.
- The Tk classes are not modelled: the `App` event loop, `CustomCanvas`, `MenuBar`, the frames' layout, the combo boxes and `resize_canvas`. They are user-interface wiring.
- `changeAnimationSpeed` and `runMazeSolver` call `ChangeAnimationSpeed`, `SolveMethod` and `Run`, which no file defines. They are not modelled.
- `main.py` imports a `Window` class that `window.py` does not define. It is not part of this model.
- `point.py` contributes only the `Point` record; its `Line.draw` wrapper is not part of this model.
- Maze generation, visited flags and the solvers do not exist in the source files, so nothing of them is modelled.
- The getters' `print` of an error message is left out: it is output only.
- Window.PyInt: models `int()` for ASCII digits and ASCII white space only. Unicode digits and white space, which Python also accepts, are left out. Since Python 3.11 (and 3.10.7), `int()` also raises `ValueError` on a decimal string of more than 4300 digits (`sys.int_info.default_max_str_digits`); `PyInt` accepts any length. The validator keeps the fields shorter than 4 characters, so that limit is never reached from the getters.
- Mazes.Maze.constructor: the mismatched calls `Cell(self._win)` and `cell.draw(x1, y1, x2, y2)` raise `TypeError` in Python. The model gives the cell its box at creation and draws it on the window's canvas instead.
- Window.AppMazeFitsCanvas: in the source, `App` passes eight arguments to `Maze` and so cannot build it. The lemma describes the maze the evident call would build.
- Cells.SideLine: the left-wall segment starts at (x1, x1), as written in the source. It is not corrected to the top-left corner (x1, y1).
- Only `has_top_wall` and `has_bottom_wall` are cleared by the source. The model clears any side through one method, `ClearWall`, and uses it only for those two.
