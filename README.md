# Hexagen hex-grid engine in Dafny

Hexagen turns drawing instructions into paint operations on a hexagonally tiled
board `width` columns wide and `height` rows high. This project models its geometric
core, `src/hexagen.py`, and proves properties of that model:

- **Coordinates** (`vec.dfy`, module `HexVec`; `hexagon.dfy`, module `Hexagon`).
  - `_Vec` is a cube triple with q + r + s = 0. It comes with the direction table,
    `+`, `-`, scaling, the hex norm, `_has_direction`, `_normalize`,
    `_direction_str` and `cyclic_permutation`.
  - `_Hexagon` is a cell. The model covers:
    - offset (column, row) to cube and back;
    - the linear index and `_from_lind`;
    - difference and shift, and `_neighbors`;
    - the modulo reduction of `Tile(column, row)`.
- **Shapes** (`shape.dfy`, module `Shapes`).
  - A shape is a duplicate-free sequence of cubes, built by the constructor's
    de-duplication loop.
  - It supports union, intersection, difference and `overlaps`.
  - The board helpers are `get_entire_board`, `get_board_perimeter` and
    `get_column`.
- **Regions** (`regions.dfy`, module `Regions`):
  - `neighbors('all')`;
  - the flood fill of `get('outside')`, and `get('inside')`;
  - `boundary`, `get('corners')` and `get('endpoints')`.
- **Directional queries** (`directional.dfy`, module `Directional`): `_max`,
  `extreme`, `edge` and the directional `get` (`'up'`, `'above'`, ...).
- **The board context** (`game.dfy`, module `Game`).
  - Class `HexagonsGame` holds the colour array, the step records and the open step.
  - Its methods are:
    - `start`, `record_step` and `get_record`;
    - `_draw`, `Shape.draw` and `recolor`;
    - `copy_paste` and the spacing search `_compute_shift_from_spacing`;
    - `grid`.
  - `get_color` reads the board.
  - Each method is proved equal to a pure function on `Board` values. The
    properties are proved about those functions.
- **Generators** (`generators.dfy`, module `Generators`; `triangle.dfy`, module
  `Triangles`): `Line`, `Circle` and `Triangle`.

Hexagons are identified by their cube. Column, row and linear index are functions of
the cube and the board size:
- column = q + 1;
- row = r + floor(q / 2) + 1.

Python computes floor(q / 2) as `(q - (q % 2)) // 2`. The model's `HalfDown` takes
the same value.

Colours are integer ids, with 0 for white. The direction table `DIRECTIONS` lives in
`constants/constants.py`, which is not part of this model. `HexVec.DirVec` fixes it
as an assumption:
- up (0, -1, 1), down (0, 1, -1);
- up_right (1, -1, 0), down_right (1, 0, -1);
- down_left (-1, 1, 0), up_left (-1, 0, 1).

Error paths are `Result` values:
- cube components that do not sum to zero (`NotZeroSum`);
- an unknown step name (`UnknownStep`);
- a colour missing from a recolour map (`MissingColor`);
- a linear index off the board (`InvalidIndex`);
- the centre of mass of an empty shape (`EmptyShape`);
- a line with no direction (`NoDirection`);
- a `grid` whose step is zero (`ZeroShift`, see Findings).

## Model

| member | source | states |
|---|---|---|
| HexVec.HalfDown | src/hexagen.py:128 | `(q - (q % 2)) // 2` is the floor of q / 2: 2h <= q <= 2h + 1 |
| HexVec.FromCube | src/hexagen.py:118-134 | a cube triple is accepted exactly when it sums to zero, keeping its components; otherwise NotZeroSum |
| HexVec.FromOffset | src/hexagen.py:125-130 | an offset displacement becomes a cube with q = column difference and r + floor(q/2) = row difference |
| HexVec.Norm | src/hexagen.py:184-185 | the norm is the whole number (\|q\|+\|r\|+\|s\|)/2, zero only for the zero vector |
| HexVec.HasDirectionIff | src/hexagen.py:156-158 | the product test q·r·s = 0 holds iff some coordinate is zero |
| HexVec.DirectionTable | src/hexagen.py:118-121 | every table entry has norm 1 and a zero coordinate, its opposite is its negation, and the table is injective |
| HexVec.AlignedIsScaledDirection | src/hexagen.py:160-165 | an axis-aligned non-zero vector divided by its norm is a table direction, and the vector is that direction times the norm |
| HexVec.Normalize | src/hexagen.py:160-165 | on a non-zero vector, `_normalize` succeeds exactly for the axis-aligned ones (the zero vector: see Left out), and gives a table direction that scales back to the vector |
| HexVec.DirectionOf | src/hexagen.py:167-171 | on a non-zero vector, `_direction_str` names a direction exactly for the axis-aligned ones (the zero vector: see Left out), and the vector is that direction times its norm |
| HexVec.NormTriangle | src/hexagen.py:173-185 | the hex norm of a sum is at most the sum of the norms |
| HexVec.NormScale | src/hexagen.py:181-185 | scaling by k multiplies the norm by \|k\| |
| HexVec.ScaleAdd | src/hexagen.py:173-182 | scaling distributes over a sum of factors |
| HexVec.StepVec | src/hexagen.py:512-518 | `scale_shift`: right and left are the offset displacements of k and -k columns in the same row |
| HexVec.StepVecZero | src/hexagen.py:512-518 | zero steps in any heading is the zero vector |
| HexVec.StepVecNonZero | src/hexagen.py:512-518 | a non-zero number of steps in any heading moves at least one cell |
| HexVec.StepVecNorm | src/hexagen.py:512-518 | k steps in a table direction move exactly \|k\| cells |
| HexVec.CyclicPermutationMoves | src/hexagen.py:148-151 | `ls[-k:] + ls[:-k]` is a permutation, and for \|k\| < len it moves element i to (i + k) mod len |
| Hexagon.OffsetRoundTrip | src/hexagen.py:204-216 | offset to cube and back gives the same column and row |
| Hexagon.CubeRoundTrip | src/hexagen.py:204-216 | cube to offset and back gives the same cube |
| Hexagon.Lind | src/hexagen.py:218-222 | the linear index exists iff 1 <= column <= width and 1 <= row <= height; it is (row-1)·width + (column-1), below width·height |
| Hexagon.LargerSide | src/hexagen.py:520 | `max(width, height)` is at least each side and equal to one of them |
| Hexagon.FromOffset | src/hexagen.py:225-226 | a hexagon built from any offset has that column and row |
| Hexagon.FromCube | src/hexagen.py:210-216 | a hexagon built from a cube exists iff it sums to zero, with column q + 1 and row r + floor(q/2) + 1 |
| Hexagon.FromLind | src/hexagen.py:265-272 | `_from_lind(i)` gives a hexagon iff 0 <= i < width·height, and that hexagon's index is i |
| Hexagon.LindRoundTrip | src/hexagen.py:265-272 | every on-board hexagon is found again from its linear index |
| Hexagon.ShiftByDifference | src/hexagen.py:279-293 | `a._shift(b - a)` is b, and b - a and a - b have the same norm |
| Hexagon.Neighbors | src/hexagen.py:372-376 | `_neighbors` is empty off the board, and on the board is the six table shifts of the cell |
| Hexagon.TileCell | src/hexagen.py:1012-1014 | `Tile` reduces the column and row modulo width + 1 and height + 1: -1 is the last column or row, 0 or width + 1 is off the board |
| Shapes.Dedup | src/hexagen.py:404-410 | the constructor's result has no duplicate, loses no cube and adds none |
| Shapes.DedupOrder | src/hexagen.py:404-410 | the kept cubes appear in the order of their first occurrences in the input |
| Shapes.DedupOfNoDup | src/hexagen.py:404-410 | a duplicate-free input is kept as it is |
| Shapes.MakeShape | src/hexagen.py:404-410 | the constructor's loop computes the de-duplication |
| Shapes.FromLinds | src/hexagen.py:395-397 | building from linear indices succeeds iff every index is on the board (else InvalidIndex of an offending one), giving exactly their hexagons |
| Shapes.Union | src/hexagen.py:481-486 | `+` holds exactly the cubes of either shape, each once |
| Shapes.Intersection | src/hexagen.py:488-493 | `*` holds exactly the cubes of both shapes, each once |
| Shapes.Difference | src/hexagen.py:495-500 | `-` holds exactly the cubes of the first shape not in the second, each once |
| Shapes.Overlaps | src/hexagen.py:545-546 | `overlaps` holds iff the shapes share a cube |
| Shapes.ShiftShape | src/hexagen.py:706-710 | `_shift` moves every cube by v; a duplicate-free shape keeps its order and length |
| Shapes.EntireBoard | src/hexagen.py:712-719 | `get_entire_board` lists every board cell once, in linear-index order, and nothing else |
| Shapes.Perimeter | src/hexagen.py:721-729 | `get_board_perimeter` holds exactly the board cells in the first or last column or row |
| Shapes.ColumnCells | src/hexagen.py:739-742 | `get_column` has one cell per row 1..height in order, all in the reduced column; for 1 <= column <= width it is exactly that board column |
| Regions.NeighborsAll | src/hexagen.py:915-917 | `neighbors('all')` is exactly the cells outside the shape one table step from an on-board member |
| Regions.ExteriorSpec | src/hexagen.py:755-764 | `get('outside')` lies on the board, misses the shape, contains perimeter minus shape, has no on-board neighbour outside the shape left out, and is the least such set |
| Regions.Outside | src/hexagen.py:755-764 | the flood-fill loop terminates and computes the exterior |
| Regions.Partition | src/hexagen.py:766-767 | `get('inside')`, `get('outside')` and the on-board part of the shape are pairwise disjoint and cover the board |
| Regions.TouchingIff | src/hexagen.py:840-844 | a cell is in `region.neighbors('all') * self` iff it is a member with a table neighbour in the region |
| Regions.BoundarySpec | src/hexagen.py:840-846 | the outer (inner) boundary is the members with a neighbour in the exterior (interior); the boundary lies inside the shape |
| Regions.LineEnds | src/hexagen.py:813-820 | among the cells of a straight on-board line of two or more cells, exactly the two ends have a single neighbour on the line |
| Regions.LineEndpoints | src/hexagen.py:813-820 | `get('endpoints')` of a shape whose outer boundary is a straight on-board line of two or more cells is the two ends of the line |
| Regions.CornerSpec | src/hexagen.py:801-820 | a corner is an outer-boundary cell that is not an endpoint, and never has two opposite neighbours both on the outer boundary |
| Regions.OppositeDoesNotBend | src/hexagen.py:807-809 | two opposite shifts of a cell sum to norm zero, so they never make a corner |
| Directional.Axis | src/hexagen.py:776 | `direction_cube.index(0)` is the first zero coordinate of the direction |
| Directional.DirectionOnLine | src/hexagen.py:777-778 | a direction moves its next coordinate by exactly 1 or -1, and `next_grows` means +1 |
| Directional.SameLine | src/hexagen.py:848-853 | two cells on the same line along d differ by a multiple of d |
| Directional.MaxSpec | src/hexagen.py:848-864 | `_max` has one cell per line the shape meets, in ascending line order, each a shape cell no shape cell lies beyond |
| Directional.MaxIsFarthest | src/hexagen.py:848-864 | no shape cell lies a positive number of steps along d from a cell of `_max(d)` |
| Directional.BehindMax | src/hexagen.py:848-864 | every shape cell is a cell of `_max(d)` moved back zero or more steps |
| Directional.HeightReach | src/hexagen.py:869-870 | along a line the height of `extreme` is twice the reach plus a line constant |
| Directional.ExtremeSpec | src/hexagen.py:866-879 | `extreme` is exactly the strict local height peaks of `_max`'s sequence, a subset of it and of the shape |
| Directional.HighestIsExtreme | src/hexagen.py:866-879 | a `_max` cell strictly higher than all others is extreme |
| Directional.Edge | src/hexagen.py:881-901 | `edge` of up/down is `_max`; the others fail exactly on the empty shape (numpy) |
| Directional.EdgeSpec | src/hexagen.py:889-901 | on an on-board shape, a non-vertical `edge` is exactly the cells no cell lies beyond towards the direction |
| Directional.GetBeyondSpec | src/hexagen.py:773-793 | directional `get` holds a cell iff it is on the board, on a line the shape meets, and strictly beyond every shape cell of that line |
| Game.Initial | src/hexagen.py:32-37 | `start`: every cell white, only the `'all'` record, no open step |
| Game.HexagonsGame.Start | src/hexagen.py:32-37 | the constructor builds the initial board |
| Game.CellsOfColor | src/hexagen.py:731-737 | `get_color` holds exactly the board cells of that colour id, or with `'all'`/`'any'` every non-white cell |
| Game.FreshBoardColors | src/hexagen.py:32-37 | after `start` no cell is coloured and every board cell is white |
| Game.RecordStepState | src/hexagen.py:39-51 | `record_step` opens the named step with an empty record, keeps every other record and changes no colour |
| Game.HexagonsGame.RecordStep | src/hexagen.py:39-51 | the method opens the step as the function says |
| Game.RecordOf | src/hexagen.py:53-72 | `get_record` succeeds iff every name was recorded (else the first unknown name), holding exactly the recorded cells, each once |
| Game.HexagonsGame.GetRecord | src/hexagen.py:53-72 | the method returns the records of the names |
| Game.LoggedSpec | src/hexagen.py:360-362 | drawing appends the cell to `'all'` and to the open step's record, and to no other record |
| Game.DrawState | src/hexagen.py:352-363 | `_draw` sets the colour of an on-board cell and of no other cell, and logs it |
| Game.HexagonsGame.Draw | src/hexagen.py:352-363 | the method writes the array and the records as `DrawState` says |
| Game.DrawAllState | src/hexagen.py:551-562 | `draw` gives every on-board cell of the shape the colour and leaves every other cell |
| Game.DrawAllLog | src/hexagen.py:551-562 | `draw` appends the shape to `'all'` and to the open step's record, leaving other records; with `'all'` itself open, each cube goes to `'all'` twice |
| Game.DedupDoubled | src/hexagen.py:53-72 | the doubled `'all'` log gives the same shape as the single one once `get_record` de-duplicates it |
| Game.HexagonsGame.DrawShape | src/hexagen.py:551-562 | the loop of `draw` computes `DrawAllState` |
| Game.RecordThenDraw | src/hexagen.py:39-72 | a freshly opened step, whatever its name (`'all'` included), records exactly the shape drawn after it |
| Game.RecolorSpec | src/hexagen.py:696-704 | `recolor` succeeds iff the map knows the colour of every on-board member; then each such cell takes the mapped colour and all else is unchanged |
| Game.HexagonsGame.Recolor | src/hexagen.py:696-704 | the loop of `recolor` computes `RecolorState`, failing with MissingColor as it does |
| Game.CopyPasteSpec | src/hexagen.py:295-301 | when the copy misses the shape, each board cell of the copy takes its original's colour and every other cell keeps its colour |
| Game.HexagonsGame.CopyPaste | src/hexagen.py:600-606 | the loop of `copy_paste` paints as `CopyPasteState` says and returns the shifted shape |
| Game.LastHit | src/hexagen.py:520-522 | the count-down search stops at the largest hit in 1..top, or 0 |
| Game.SearchOffsetUnique | src/hexagen.py:520-522 | the search's result is the only offset with those properties |
| Game.ShiftFromSpacing | src/hexagen.py:502-524 | the shift exists iff shape and reference are non-empty (an empty centre of mass raises) |
| Game.ShiftFromOffset | src/hexagen.py:520-524 | the shift is the initial shift plus k + 1 + spacing steps, k the offset the search stops at |
| Game.SelfShiftSpec | src/hexagen.py:502-524 | without a reference and with spacing >= 0, the shift moves at least one cell |
| Game.SelfCopyMisses | src/hexagen.py:502-524 | an on-board shape copied against itself with spacing >= 0 does not meet its copy |
| Game.HexagonsGame.FindOffset | src/hexagen.py:520-522 | the for-loop computes the search offset |
| Game.HexagonsGame.SearchShift | src/hexagen.py:502-524 | the method computes `ShiftFromSpacing` |
| Game.HexagonsGame.ComputeShiftFromSpacing | src/hexagen.py:502-507 | a missing reference means the shape itself, with no initial shift |
| Game.HexagonsGame.CopyPasteSpaced | src/hexagen.py:564-606 | spaced `copy_paste` fails iff a centre of mass is empty, leaving the board; otherwise it paints the copy moved by exactly the shift `_compute_shift_from_spacing` gives (against the shape itself with no initial shift when there is no reference) and returns it |
| Game.HexagonsGame.CopyPasteBetween | src/hexagen.py:595-597 | `copy_paste` between tiles shifts by destination - source |
| Game.Iterate | src/hexagen.py:633-637 | the n-th copy of `grid` is the shape moved n steps |
| Game.IterateStep | src/hexagen.py:634-635 | pasting the n-th copy once more gives the (n+1)-th |
| Game.GridBound | src/hexagen.py:634 | with a non-zero step, a copy on the board lies a bounded number of steps away, so the loop ends |
| Game.GridZeroShiftNeverStops | src/hexagen.py:629-637 | as written, a single board tile with spacing -1 gets a zero shift and the loop condition holds forever |
| Game.ZeroStepStops | src/hexagen.py:629-637 | with a zero step and a shape partly off the board, no copy is made |
| Game.HexagonsGame.Grid | src/hexagen.py:608-638 | `grid` raises iff the shape is empty or, with no count, the step is zero while the shape is on the board; otherwise it paints the copies and returns exactly the cells of the shape and its copies |
| Game.GatheredPrefixErr | src/hexagen.py:70-71 | the first unknown step name decides the error of `get_record` |
| Generators.WalkSpec | src/hexagen.py:1126-1133 | the walk's i-th cell is the first cell plus i steps, on the board and not an end tile; it has at most `length` cells and stops only at the length, the board edge or an end tile |
| Generators.WalkDistinct | src/hexagen.py:1126-1135 | a walk by a non-zero step has no repeated cell, so the constructor keeps it |
| Generators.Walk | src/hexagen.py:1126-1133 | the while-loop computes the walk |
| Generators.LineOf | src/hexagen.py:1113-1142 | `Line` raises exactly without a direction, for an end tile off the start's axes, or when it must shift by the zero-length direction; its cells are distinct |
| Generators.Line | src/hexagen.py:1113-1142 | the method computes `LineOf` |
| Generators.LineWalk | src/hexagen.py:1113-1125 | the walk of a line starts at the start tile (or one step later), its length bound is `length`, `max(width, height)` or distance - 1 + the included ends |
| Generators.LineSpec | src/hexagen.py:1124-1133 | a line has at most `length` cells, all on the board and none an end tile, each the previous shifted by the direction |
| Generators.LineWithoutDirection | src/hexagen.py:1116-1139 | a line has no direction exactly when its end tile is its start tile, and then it has no cells |
| Generators.LineConstant | src/hexagen.py:1138-1142 | `constant_value` exists iff the line has more than one cell, and every cell has it as the coordinate the direction leaves fixed |
| Generators.LineReachesEnd | src/hexagen.py:1116-1133 | a line to an axis-aligned end over free board cells is the segment from start to end, distance + 1 cells |
| Generators.RingFromMember | src/hexagen.py:1250-1256 | an offset is generated iff it is a rotation of the triple of some d0 in range |
| Generators.RotationsOnRing | src/hexagen.py:1250-1256 | every generated offset has norm `radius` |
| Generators.OnRingIsGenerated | src/hexagen.py:1250-1256 | every offset of norm `radius` is generated |
| Generators.CircleSpec | src/hexagen.py:1247-1257 | a cell is in `Circle` iff its distance from the centre is the radius |
| Generators.UnitCircle | src/hexagen.py:1247-1257 | the radius-1 circle is the six neighbours of the centre, each once, in loop order |
| Triangles.TriangleDirections | src/hexagen.py:1308-1311 | the edge directions are a rotation of the pointing's list that begins with the start vertex's edge |
| Triangles.DirectionsTable | src/hexagen.py:1308-1311 | the walking order of the edges for each pointing and vertex kind |
| Triangles.DirectionsSum | src/hexagen.py:1308-1311 | the three edge steps sum to zero |
| Triangles.TrianglePath | src/hexagen.py:1312-1315 | the loops append side_length - 1 tiles per edge |
| Triangles.Triangle | src/hexagen.py:1307-1316 | the nested loops compute the triangle |
| Triangles.TriangleCloses | src/hexagen.py:1307-1316 | after the three edges the walk is back at the start tile |
| Triangles.TriangleSides | src/hexagen.py:1307-1316 | every edge joins vertices side_length - 1 apart |
| Triangles.TriangleMembers | src/hexagen.py:1307-1316 | a cell is in the triangle iff it is one of the first side_length - 1 cells of an edge |
| Triangles.MirrorOffset | src/hexagen.py:1308 | the reflection in the vertical axis through c keeps the row, reflects the column, and is an involution |
| Triangles.MirrorDirections | src/hexagen.py:1308 | the mirror of each left-pointing edge step is the right-pointing one |
| Triangles.TriangleMirror | src/hexagen.py:1307-1316 | the right-pointing triangle is the mirror image of the left-pointing one from the same start |

## Left out

- HexVec.Normalize: the zero vector is modelled as None. In the source,
  `_normalize` divides by a zero numpy norm and yields a not-a-number cube without
  raising. Its only caller on the zero vector, `Line`, is modelled on its own for end == start
  (`Generators.LineOf`).
- HexVec.DirectionOf: the zero vector is modelled as None, where the source's
  `_direction_str` raises ValueError. `Line` never calls it on the zero vector itself.
- Names as types: directions, triangle points and start vertices are enumerations, and
  board sizes are `nat`. The KeyError or ValueError that the source raises for an
  unknown direction name (`_Vec(direction)`), point or vertex name (`d_directions[point]`,
  `types.index(...)`) cannot arise, and negative board sizes are not modelled.
- Regions.LineEndpoints: it takes as a premise that the outer boundary is the line.
  It does not prove that every cell of a line shape touches the exterior flood fill,
  because that is a reachability argument over the board.
- Game.RecordStepState: step names are strings. The source also accepts integers,
  which would be a second key type.
- `plot` (src/hexagen.py:74-106): rendering and file output.
- `_rotate`, `rotate`, `_reflect`, `reflect`, `_round`: rotation matrices and
  normalisation over floating point.
- `polygon`, `_center_of_mass` and `center`: float means and `arccos`.
  - The spacing search takes the rounded centre-of-mass difference as a parameter,
    `initShift`.
  - An empty shape, whose mean does not exist, raises `EmptyShape`.
- `Line.parallel`: it reads variables that are unbound on several of its paths.
- `neighbors` with the criteria right, left, above, below, outside, inside, white and
  a direction. Each is an intersection of `neighbors('all')` with another modelled
  query.
- `neighbor`, `is_empty`, `_reduce_to_board`, `tiles`, `colors`, `columns`, `rows`,
  `_linds` and the iteration protocol: accessors.
- The class swap to `Tile` for a one-cell shape: a `Tile` is a shape of size one.
- `_show` and the printing error paths: diagnostics.
- The colour-name table `COLORS`: colours are integer ids, 0 being white.
- `Game.ColorAt`: an off-board hexagon keeps its own saved colour in the source. The
  model reads 0 for every off-board cell, because the board holds no per-object
  state. This is the colour of a freshly built off-board hexagon.
- `Shapes.Union`, `Shapes.Intersection`, `Shapes.Difference`: Python builds them from
  a `set`, whose order is unspecified. The contracts state the cubes, not their order.
- `Regions.NeighborsAll`, `Regions.Exterior`, `Regions.Interior`,
  `Regions.OuterBoundary`, `Regions.InnerBoundary`, `Regions.Boundary`,
  `Regions.Corners`, `Regions.Endpoints`: these are `set<Vec>`, because each is built
  through a set operation whose order Python does not fix.
- `Game.CopyPasteSpec`: it speaks of copies that do not meet the shape. When they do,
  the colour read depends on the painting order.
- `Game.SelfCopyMisses`: it proves that the copy does not meet the shape. It does not
  prove that exactly `spacing` empty cells lie between them.
- `HexVec.DirVec`: the direction table is an assumption. `constants/constants.py` is
  not part of this model.
- The `Shape` constructor's use of `_Hexagon` objects: a hexagon is its cube, and
  column, row and linear index are recomputed from it.

## Findings

| source | as written | input that shows it | evidently intended | confidence | as-written member | corrected member |
|---|---|---|---|---|---|---|
| src/hexagen.py:629-637 | with no `num_copies`, `grid` loops while the next copy lies on the board. When the spacing search returns a zero shift, every copy is the shape itself, so the loop never ends. | a single on-board tile, any direction, `spacing=-1`, no `num_copies` | never loop for ever: a step that cannot move the copy is refused (the corrected `Grid` raises ZeroShift) | not executed; the zero shift and the unending loop condition are proved | Game.GridZeroShiftNeverStops | Game.HexagonsGame.Grid |
