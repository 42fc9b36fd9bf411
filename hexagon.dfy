/** Board locations (the `_Hexagon` class and `Tile`'s coordinate handling). A location is
    identified by its cube; its offset (column, row) and its linear index are derived from
    the cube and the board size. */
module Hexagon {
  import opened Wrappers
  import opened HexVec

  /** Offset (column, row), both counted from 1, to cube; offset (1, 1) is the origin. */
  function OffsetToCube(column: int, row: int): Vec {
    var q := column - 1;
    var r := row - 1 - HalfDown(q);
    Cube(q, r, -q - r)
  }

  /** The column of a cube: q + 1. */
  function Column(c: Vec): int {
    c.q + 1
  }

  /** The row of a cube: r + floor(q / 2) + 1. */
  function Row(c: Vec): int {
    c.r + HalfDown(c.q) + 1
  }

  /** Converting an offset to a cube and back gives the same offset. */
  lemma {:induction false} OffsetRoundTrip(column: int, row: int)
    ensures Column(OffsetToCube(column, row)) == column
    ensures Row(OffsetToCube(column, row)) == row
  {
  }

  /** Converting a cube to an offset and back gives the same cube. */
  lemma {:induction false} CubeRoundTrip(c: Vec)
    ensures OffsetToCube(Column(c), Row(c)) == c
  {
  }

  predicate InBounds(width: nat, height: nat, column: int, row: int) {
    1 <= column <= width && 1 <= row <= height
  }

  /** The linear index of `complete_arguments`: defined exactly on the board, and then
      (row - 1) * width + (column - 1), which lies in [0, width * height). */
  function Lind(width: nat, height: nat, c: Vec): (i: Option<nat>)
    ensures i.Some? <==> InBounds(width, height, Column(c), Row(c))
    ensures i.Some? ==>
              && i.value < width * height
              && i.value / width == Row(c) - 1
              && i.value % width == Column(c) - 1
  {
    if InBounds(width, height, Column(c), Row(c)) then
      var i := (Row(c) - 1) * width + (Column(c) - 1);
      LindBounds(width, height, Row(c) - 1, Column(c) - 1);
      Some(i)
    else
      None
  }

  lemma MulMonotone(a: int, b: int, c: nat)
    requires a <= b
    ensures a * c <= b * c
  {
    assert b * c == a * c + (b - a) * c;
  }

  /** The quotient and remainder of i by w are the only pair that rebuilds i. */
  lemma DivModUnique(i: int, w: int, y: int, x: int)
    requires w > 0 && 0 <= x < w && i == y * w + x
    ensures i / w == y && i % w == x
  {
    var q, m := i / w, i % w;
    assert i == q * w + m;
    if q > y {
      MulMonotone(1, q - y, w);
      assert false;
    } else if q < y {
      MulMonotone(1, y - q, w);
      assert false;
    }
  }

  lemma LindBounds(width: nat, height: nat, y: nat, x: nat)
    requires y < height && x < width
    ensures y * width + x < width * height
    ensures (y * width + x) / width == y && (y * width + x) % width == x
  {
    MulMonotone(y + 1, height, width);
    assert (y + 1) * width == y * width + width;
    assert height * width == width * height;
    DivModUnique(y * width + x, width, y, x);
  }

  /** `max(width, height)`: where the search of `_compute_shift_from_spacing` starts,
      and the default length of a `Line`. */
  function LargerSide(width: nat, height: nat): (n: nat)
    ensures n >= width && n >= height && (n == width || n == height)
  {
    if width >= height then width else height
  }

  predicate OnBoard(width: nat, height: nat, c: Vec) {
    InBounds(width, height, Column(c), Row(c))
  }

  /** `_Hexagon(column=..., row=...)`, which any integer offset can build. */
  function FromOffset(column: int, row: int): (c: Vec)
    ensures Column(c) == column && Row(c) == row
  {
    OffsetRoundTrip(column, row);
    OffsetToCube(column, row)
  }

  /** `_Hexagon(cube=...)`: raises unless the components sum to zero. */
  function FromCube(q: int, r: int, s: int): (c: Result<Vec>)
    ensures c.Ok? <==> q + r + s == 0
    ensures c.Ok? ==> c.value == Cube(q, r, s)
    ensures c.Ok? ==> Column(c.value) == q + 1 && Row(c.value) == r + HalfDown(q) + 1
  {
    HexVec.FromCube(q, r, s)
  }

  lemma IndexSplit(width: nat, height: nat, i: int)
    requires 0 <= i < width * height
    ensures width > 0 && 0 <= i / width < height && 0 <= i % width < width
  {
    assert width != 0;
    if i / width >= height {
      MulMonotone(height, i / width, width);
      assert false;
    }
  }

  /** `_from_lind`: the hexagon at a linear index, or None outside [0, width * height). */
  function FromLind(width: nat, height: nat, i: int): (c: Option<Vec>)
    ensures c.Some? <==> 0 <= i < width * height
    ensures c.Some? ==> Lind(width, height, c.value) == Some(i)
  {
    if 0 <= i < width * height then
      IndexSplit(width, height, i);
      var c := OffsetToCube(i % width + 1, i / width + 1);
      OffsetRoundTrip(i % width + 1, i / width + 1);
      assert (i / width) * width + i % width == i;
      Some(c)
    else
      None
  }

  /** Every on-board hexagon is found again from its linear index. */
  lemma {:induction false} LindRoundTrip(width: nat, height: nat, c: Vec)
    requires OnBoard(width, height, c)
    ensures FromLind(width, height, Lind(width, height, c).value) == Some(c)
  {
    var i := Lind(width, height, c).value;
    FromLindAt(width, height, i, Column(c), Row(c));
    CubeRoundTrip(c);
  }

  /** The hexagon at an index in range, by its offset. */
  lemma FromLindAt(width: nat, height: nat, i: int, column: int, row: int)
    requires 0 <= i < width * height
    requires i % width == column - 1 && i / width == row - 1
    ensures FromLind(width, height, i) == Some(OffsetToCube(column, row))
  {
  }

  /** `_Hexagon.__sub__`. */
  function Diff(a: Vec, b: Vec): Vec {
    Sub(a, b)
  }

  /** `_Hexagon._shift`. */
  function Shift(a: Vec, v: Vec): Vec {
    Add(a, v)
  }

  /** Shifting a by the difference b - a lands exactly on b. */
  lemma {:induction false} ShiftByDifference(a: Vec, b: Vec)
    ensures Shift(a, Diff(b, a)) == b
    ensures Norm(Diff(b, a)) == Norm(Diff(a, b))
  {
  }

  /** `_neighbors`: the six shifts of an on-board hexagon, in table order; none when the
      hexagon is off the board. */
  function Neighbors(width: nat, height: nat, c: Vec): (n: seq<Vec>)
    ensures OnBoard(width, height, c) ==> |n| == 6
    ensures !OnBoard(width, height, c) ==> n == []
    ensures forall x :: x in n <==> OnBoard(width, height, c) && exists d :: x == Add(c, DirVec(d))
  {
    if OnBoard(width, height, c) then
      var n := seq(6, k requires 0 <= k < 6 => Add(c, DirVec(AllDirections[k])));
      assert forall d :: Add(c, DirVec(d)) == n[IndexOfDirection(d)];
      n
    else
      []
  }

  function IndexOfDirection(d: Direction): (k: nat)
    ensures k < 6 && AllDirections[k] == d
  {
    match d
    case Up => 0
    case Down => 1
    case UpRight => 2
    case DownRight => 3
    case DownLeft => 4
    case UpLeft => 5
  }

  /** Python's `x % m` for m > 0, and the values it takes near the range ends. */
  lemma ModBelow(x: int, m: int)
    requires m > 0
    ensures 0 <= x % m < m
    ensures 0 <= x < m ==> x % m == x
    ensures -m <= x < 0 ==> x % m == x + m
  {
    if 0 <= x < m {
      ModInRange(x, m, x);
    } else if -m <= x < 0 {
      ModInRange(x, m, x + m);
    }
  }

  /** `Tile(column, row)`: the indices are reduced modulo width + 1 and height + 1, so
      that -1 names the last column or row and 0 names a location off the board. */
  function TileCell(width: nat, height: nat, column: int, row: int): (c: Vec)
    ensures Column(c) == column % (width + 1) && Row(c) == row % (height + 1)
    ensures 0 <= Column(c) <= width && 0 <= Row(c) <= height
    ensures 0 <= column <= width ==> Column(c) == column
    ensures -(width as int) - 1 <= column < 0 ==> Column(c) == width + 1 + column
    ensures 0 <= row <= height ==> Row(c) == row
    ensures -(height as int) - 1 <= row < 0 ==> Row(c) == height + 1 + row
    ensures OnBoard(width, height, c) <==> Column(c) != 0 && Row(c) != 0
  {
    ModBelow(column, width + 1);
    ModBelow(row, height + 1);
    FromOffset(column % (width + 1), row % (height + 1))
  }
}
