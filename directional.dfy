/** Directional queries of a shape: `_max` (one farthest cell per coordinate line),
    `extreme` (the strict peaks among those), `edge`, and the directional `get`
    (the board cells beyond the shape). */
module Directional {
  import opened Wrappers
  import opened HexVec
  import opened Hexagon
  import opened Shapes

  /** Cube coordinate number i (0 = q, 1 = r, 2 = s), as `cube[i]` in the source. */
  function Coord(v: Vec, i: nat): int {
    if i == 0 then v.q else if i == 1 then v.r else v.s
  }

  /** The index of the first zero coordinate of the direction (`direction_cube.index(0)`):
      moving in direction d keeps this coordinate, so it numbers the lines along d. */
  function Axis(d: Direction): (i: nat)
    ensures i < 3 && Coord(DirVec(d), i) == 0
    ensures forall j :: 0 <= j < i ==> Coord(DirVec(d), j) != 0
  {
    if DirVec(d).q == 0 then 0 else if DirVec(d).r == 0 then 1 else 2
  }

  /** `next_ind`: the coordinate after the axis, cyclically. */
  function NextAxis(d: Direction): (i: nat)
    ensures i < 3 && i != Axis(d)
  {
    (Axis(d) + 1) % 3
  }

  /** `next_grows`: moving in direction d increases the next coordinate. */
  predicate Grows(d: Direction) {
    Coord(DirVec(d), NextAxis(d)) == 1
  }

  /** The three numbers the source derives from a direction: the coordinate that numbers
      the lines along it, the coordinate compared within a line, and whether moving in
      the direction makes the latter grow. */
  datatype Frame = Frame(axis: nat, next: nat, grows: bool)

  function FrameOf(d: Direction): (f: Frame)
    ensures f.axis == Axis(d) && f.next == NextAxis(d) && f.grows == Grows(d)
  {
    Frame(Axis(d), NextAxis(d), Grows(d))
  }

  /** The line that holds c. */
  function Line(c: Vec, f: Frame): int {
    Coord(c, f.axis)
  }

  /** The coordinate the source compares within a line. */
  function Key(c: Vec, f: Frame): int {
    Coord(c, f.next)
  }

  /** How far c lies along its line: the key when it grows, its negation otherwise. */
  function Reach(c: Vec, f: Frame): int {
    if f.grows then Key(c, f) else -Key(c, f)
  }

  /** The comparison of the source's two branches: x lies strictly farther than c (a
      larger key when keys grow, a smaller one otherwise). */
  predicate Farther(x: Vec, c: Vec, f: Frame) {
    if f.grows then Key(x, f) > Key(c, f) else Key(x, f) < Key(c, f)
  }

  lemma FartherIsReach(x: Vec, c: Vec, f: Frame)
    ensures Farther(x, c, f) <==> Reach(x, f) > Reach(c, f)
  {
  }

  /** The direction moves its next coordinate by exactly one, up or down. */
  lemma DirectionOnLine(d: Direction)
    ensures Coord(DirVec(d), NextAxis(d)) == 1 || Coord(DirVec(d), NextAxis(d)) == -1
    ensures Grows(d) <==> Coord(DirVec(d), NextAxis(d)) == 1
  {
  }

  /** Two cells on the same line along d differ by a multiple of d: the difference of
      their reaches. */
  lemma {:induction false} SameLine(c: Vec, x: Vec, d: Direction)
    requires Line(x, FrameOf(d)) == Line(c, FrameOf(d))
    ensures x == Add(c, Scale(DirVec(d), Reach(x, FrameOf(d)) - Reach(c, FrameOf(d))))
  {
    match d
    case Up =>
    case Down =>
    case UpRight =>
    case DownRight =>
    case DownLeft =>
    case UpLeft =>
  }

  /** Shifting by k steps of d stays on the line and adds k to the reach. */
  lemma {:induction false} ShiftAlong(c: Vec, d: Direction, k: int)
    ensures Line(Add(c, Scale(DirVec(d), k)), FrameOf(d)) == Line(c, FrameOf(d))
    ensures Reach(Add(c, Scale(DirVec(d), k)), FrameOf(d)) == Reach(c, FrameOf(d)) + k
  {
    match d
    case Up =>
    case Down =>
    case UpRight =>
    case DownRight =>
    case DownLeft =>
    case UpLeft =>
  }

  /** The smallest value of coordinate i over a non-empty shape (`np.min`/`np.amin`). */
  function MinCoord(s: seq<Vec>, i: nat): (m: int)
    requires s != []
    ensures exists k :: 0 <= k < |s| && Coord(s[k], i) == m
    ensures forall k :: 0 <= k < |s| ==> m <= Coord(s[k], i)
  {
    if |s| == 1 then Coord(s[0], i)
    else
      var m := MinCoord(s[1..], i);
      assert forall k :: 1 <= k < |s| ==> s[k] == s[1..][k - 1];
      if Coord(s[0], i) <= m then Coord(s[0], i) else m
  }

  /** The largest value of coordinate i over a non-empty shape (`np.max`/`np.amax`). */
  function MaxCoord(s: seq<Vec>, i: nat): (m: int)
    requires s != []
    ensures exists k :: 0 <= k < |s| && Coord(s[k], i) == m
    ensures forall k :: 0 <= k < |s| ==> Coord(s[k], i) <= m
  {
    if |s| == 1 then Coord(s[0], i)
    else
      var m := MaxCoord(s[1..], i);
      assert forall k :: 1 <= k < |s| ==> s[k] == s[1..][k - 1];
      if Coord(s[0], i) >= m then Coord(s[0], i) else m
  }

  /** The cell that `argmax` (or `argmin`) picks among the shape's cells on line v: the
      first one that no later cell of the line lies farther than. */
  function Pick(s: seq<Vec>, f: Frame, v: int): (p: Option<Vec>)
    ensures p.Some? <==> exists x :: x in s && Line(x, f) == v
    ensures p.Some? ==> Line(p.value, f) == v && Farthest(s, p.value, f)
  {
    if s == [] then None
    else
      var b := Pick(s[1..], f, v);
      assert forall x :: x in s <==> x == s[0] || x in s[1..];
      if Line(s[0], f) != v then b
      else if b.None? || !Farther(b.value, s[0], f) then Some(s[0])
      else b
  }

  /** The lines of m along d strictly ascend. */
  predicate Ascending(m: seq<Vec>, f: Frame) {
    forall i, j :: 0 <= i < j < |m| ==> Line(m[i], f) < Line(m[j], f)
  }

  /** c is a cell of s that no cell of s on its line lies beyond. */
  predicate Farthest(s: seq<Vec>, c: Vec, f: Frame) {
    c in s && forall x :: x in s && Line(x, f) == Line(c, f) ==> Reach(x, f) <= Reach(c, f)
  }

  /** Every cell of m is a farthest cell of its line in s. */
  predicate Picked(s: seq<Vec>, m: seq<Vec>, f: Frame) {
    forall i :: 0 <= i < |m| ==> Farthest(s, m[i], f)
  }

  /** Every cell of s whose line lies in v..hi shares it with a cell of m. */
  predicate Covers(s: seq<Vec>, m: seq<Vec>, f: Frame, v: int, hi: int) {
    forall x :: x in s && v <= Line(x, f) <= hi ==>
      exists i :: 0 <= i < |m| && Line(m[i], f) == Line(x, f)
  }

  /** The picks of the lines v..hi that the shape meets, in ascending line order (the
      loop over `np.unique(shape_lines)`). */
  function Sweep(s: seq<Vec>, f: Frame, v: int, hi: int): (m: seq<Vec>)
    decreases hi - v + 1
    ensures forall i :: 0 <= i < |m| ==> v <= Line(m[i], f) <= hi
    ensures Ascending(m, f) && Picked(s, m, f) && Covers(s, m, f, v, hi)
  {
    if v > hi then []
    else
      var rest := Sweep(s, f, v + 1, hi);
      match Pick(s, f, v)
      case None => rest
      case Some(c) =>
        SweepStep(s, f, v, hi, c, rest);
        [c] + rest
  }

  /** Prepending the pick of line v to the picks of the lines v+1..hi keeps the
      three properties of `Sweep`. */
  lemma SweepStep(s: seq<Vec>, f: Frame, v: int, hi: int, c: Vec, rest: seq<Vec>)
    requires v <= hi && Line(c, f) == v && Farthest(s, c, f)
    requires forall i :: 0 <= i < |rest| ==> v + 1 <= Line(rest[i], f) <= hi
    requires Ascending(rest, f) && Picked(s, rest, f) && Covers(s, rest, f, v + 1, hi)
    ensures forall i :: 0 <= i < |[c] + rest| ==> v <= Line(([c] + rest)[i], f) <= hi
    ensures Ascending([c] + rest, f) && Picked(s, [c] + rest, f) && Covers(s, [c] + rest, f, v, hi)
  {
    AscendingStep(f, v, hi, c, rest);
    PickedStep(s, f, c, rest);
    CoversStep(s, f, v, hi, c, rest);
  }

  lemma AscendingStep(f: Frame, v: int, hi: int, c: Vec, rest: seq<Vec>)
    requires v <= hi && Line(c, f) == v
    requires forall i :: 0 <= i < |rest| ==> v + 1 <= Line(rest[i], f) <= hi
    requires Ascending(rest, f)
    ensures forall i :: 0 <= i < |[c] + rest| ==> v <= Line(([c] + rest)[i], f) <= hi
    ensures Ascending([c] + rest, f)
  {
    var m := [c] + rest;
    forall i | 0 <= i < |m| ensures v <= Line(m[i], f) <= hi {
      if i > 0 {
        assert m[i] == rest[i - 1];
      }
    }
    forall i, j | 0 <= i < j < |m| ensures Line(m[i], f) < Line(m[j], f) {
      assert m[j] == rest[j - 1];
      if i > 0 {
        assert m[i] == rest[i - 1];
      }
    }
  }

  lemma PickedStep(s: seq<Vec>, f: Frame, c: Vec, rest: seq<Vec>)
    requires Farthest(s, c, f) && Picked(s, rest, f)
    ensures Picked(s, [c] + rest, f)
  {
    var m := [c] + rest;
    forall i | 0 <= i < |m| ensures Farthest(s, m[i], f) {
      if i > 0 {
        assert m[i] == rest[i - 1];
      }
    }
  }

  lemma CoversStep(s: seq<Vec>, f: Frame, v: int, hi: int, c: Vec, rest: seq<Vec>)
    requires Line(c, f) == v
    requires Covers(s, rest, f, v + 1, hi)
    ensures Covers(s, [c] + rest, f, v, hi)
  {
    var m := [c] + rest;
    forall x | x in s && v <= Line(x, f) <= hi
      ensures exists i :: 0 <= i < |m| && Line(m[i], f) == Line(x, f)
    {
      if Line(x, f) == v {
        assert Line(m[0], f) == Line(x, f);
      } else {
        var i :| 0 <= i < |rest| && Line(rest[i], f) == Line(x, f);
        assert m[i + 1] == rest[i];
      }
    }
  }

  /** `_max(direction)`, given the frame of the direction: one cell per line that the
      shape meets, the farthest along it, in ascending line order. */
  function Max(s: seq<Vec>, f: Frame): seq<Vec> {
    if s == [] then []
    else Dedup(Sweep(s, f, MinCoord(s, f.axis), MaxCoord(s, f.axis)))
  }

  /** The sweep that `_max` de-duplicates is already duplicate-free. */
  lemma MaxIsSweep(s: seq<Vec>, f: Frame)
    requires s != []
    ensures Max(s, f) == Sweep(s, f, MinCoord(s, f.axis), MaxCoord(s, f.axis))
  {
    var m := Sweep(s, f, MinCoord(s, f.axis), MaxCoord(s, f.axis));
    assert NoDup(m) by {
      forall i, j | 0 <= i < j < |m| ensures m[i] != m[j] {
        assert Line(m[i], f) < Line(m[j], f);
      }
    }
    DedupOfNoDup(m);
  }

  /** `_max` returns one cell per line in ascending line order; each is a shape cell
      that no shape cell of its line lies beyond; every cell of the shape shares a
      line with one of them. */
  lemma MaxSpec(s: seq<Vec>, f: Frame)
    ensures Ascending(Max(s, f), f) && Picked(s, Max(s, f), f)
    ensures forall x :: x in s ==> exists i :: 0 <= i < |Max(s, f)| && Line(Max(s, f)[i], f) == Line(x, f)
  {
    if s != [] {
      var lo, hi := MinCoord(s, f.axis), MaxCoord(s, f.axis);
      MaxIsSweep(s, f);
      var m := Sweep(s, f, lo, hi);
      assert Covers(s, m, f, lo, hi);
      forall x | x in s
        ensures exists i :: 0 <= i < |m| && Line(m[i], f) == Line(x, f)
      {
        var k :| 0 <= k < |s| && s[k] == x;
        assert lo <= Line(s[k], f) <= hi;
      }
    }
  }

  /** The cell of `_max` on the line of a shape cell x, which lies at least as far. */
  lemma MaxCellOf(s: seq<Vec>, f: Frame, x: Vec) returns (i: nat)
    requires x in s
    ensures i < |Max(s, f)| && Line(Max(s, f)[i], f) == Line(x, f)
    ensures Reach(x, f) <= Reach(Max(s, f)[i], f)
  {
    MaxSpec(s, f);
    i :| 0 <= i < |Max(s, f)| && Line(Max(s, f)[i], f) == Line(x, f);
    assert Farthest(s, Max(s, f)[i], f);
  }

  /** No cell of the shape lies any positive number of steps along d from a cell of
      `_max(d)`. */
  lemma MaxIsFarthest(s: seq<Vec>, d: Direction, i: nat, k: int)
    requires i < |Max(s, FrameOf(d))| && k > 0
    ensures Add(Max(s, FrameOf(d))[i], Scale(DirVec(d), k)) !in s
  {
    MaxSpec(s, FrameOf(d));
    ShiftAlong(Max(s, FrameOf(d))[i], d, k);
  }

  /** Every cell of the shape is a cell of `_max(d)` moved back some steps along d. */
  lemma BehindMax(s: seq<Vec>, d: Direction, x: Vec)
    requires x in s
    ensures exists i, k :: 0 <= i < |Max(s, FrameOf(d))| && k <= 0 &&
              x == Add(Max(s, FrameOf(d))[i], Scale(DirVec(d), k))
  {
    var f := FrameOf(d);
    var i := MaxCellOf(s, f, x);
    var c := Max(s, f)[i];
    var k := Behind(c, x, d);
    assert 0 <= i < |Max(s, f)| && k <= 0 && x == Add(Max(s, f)[i], Scale(DirVec(d), k));
  }

  /** A cell on the line of c that does not lie farther than c is c moved back. */
  lemma Behind(c: Vec, x: Vec, d: Direction) returns (k: int)
    requires Line(x, FrameOf(d)) == Line(c, FrameOf(d))
    requires Reach(x, FrameOf(d)) <= Reach(c, FrameOf(d))
    ensures k <= 0 && x == Add(c, Scale(DirVec(d), k))
  {
    SameLine(c, x, d);
    k := Reach(x, FrameOf(d)) - Reach(c, FrameOf(d));
  }

  /** `height` in `extreme`: the dot product of the cube with the direction. */
  function Height(c: Vec, d: Direction): int {
    c.q * DirVec(d).q + c.r * DirVec(d).r + c.s * DirVec(d).s
  }

  /** Along one line the height is twice the reach, offset by the line. */
  lemma {:induction false} HeightReach(c: Vec, d: Direction)
    ensures Height(c, d) == 2 * Reach(c, FrameOf(d)) + Coord(DirVec(d), NextAxis(d)) * Line(c, FrameOf(d))
  {
    match d
    case Up =>
    case Down =>
    case UpRight =>
    case DownRight =>
    case DownLeft =>
    case UpLeft =>
  }

  /** Position i of m is a strict peak: higher than each neighbour in m that exists. */
  predicate IsPeak(m: seq<Vec>, d: Direction, i: nat)
    requires i < |m|
  {
    (i == 0 || Height(m[i], d) > Height(m[i - 1], d)) &&
    (i == |m| - 1 || Height(m[i], d) > Height(m[i + 1], d))
  }

  /** The peaks of m from position i on, in order. */
  function Peaks(m: seq<Vec>, d: Direction, i: nat): (p: seq<Vec>)
    requires i <= |m|
    decreases |m| - i
    ensures forall x :: x in p <==> exists j :: i <= j < |m| && IsPeak(m, d, j) && m[j] == x
  {
    if i == |m| then []
    else
      var rest := Peaks(m, d, i + 1);
      if IsPeak(m, d, i) then [m[i]] + rest else rest
  }

  /** `extreme(direction)`: the cells of `_max(direction)` that are strict local peaks
      of the height, kept in `_max`'s order. */
  function Extreme(s: seq<Vec>, d: Direction): seq<Vec> {
    Dedup(Peaks(Max(s, FrameOf(d)), d, 0))
  }

  /** `extreme` yields exactly the peaks of `_max`'s sequence, so a subset of it. */
  lemma ExtremeSpec(s: seq<Vec>, d: Direction)
    ensures forall x :: x in Extreme(s, d) <==>
              exists j :: 0 <= j < |Max(s, FrameOf(d))| && IsPeak(Max(s, FrameOf(d)), d, j) && Max(s, FrameOf(d))[j] == x
    ensures forall x :: x in Extreme(s, d) ==> x in Max(s, FrameOf(d)) && x in s
  {
    MaxSpec(s, FrameOf(d));
  }

  /** A cell of `_max` that is strictly higher than all others is always extreme. */
  lemma HighestIsExtreme(s: seq<Vec>, d: Direction, j: nat)
    requires j < |Max(s, FrameOf(d))|
    requires forall i :: 0 <= i < |Max(s, FrameOf(d))| && i != j ==> Height(Max(s, FrameOf(d))[i], d) < Height(Max(s, FrameOf(d))[j], d)
    ensures Max(s, FrameOf(d))[j] in Extreme(s, d)
  {
    var m := Max(s, FrameOf(d));
    assert IsPeak(m, d, j) by {
      if j > 0 {
        assert Height(m[j - 1], d) < Height(m[j], d);
      }
      if j < |m| - 1 {
        assert Height(m[j + 1], d) < Height(m[j], d);
      }
    }
    ExtremeSpec(s, d);
  }

  /** The coordinate `edge` compares: q for right/left, r for the down-left/up-right
      diagonal, s for the up-left/down-right diagonal. */
  function EdgeAxis(e: Heading): (i: nat)
    ensures i < 3
  {
    match e
    case Right => 0
    case Left => 0
    case Toward(d) =>
      if d == DownLeft || d == UpRight then 1
      else if d == UpLeft || d == DownRight then 2
      else 0
  }

  /** `edge` takes the largest coordinate for down-left, up-left and right, the
      smallest otherwise. */
  predicate EdgeTakesMax(e: Heading) {
    e == Toward(DownLeft) || e == Toward(UpLeft) || e == Right
  }

  /** How far c lies towards e: the compared coordinate, negated when `edge` takes the
      smallest. */
  function EdgeReach(c: Vec, e: Heading): int {
    if EdgeTakesMax(e) then Coord(c, EdgeAxis(e)) else -Coord(c, EdgeAxis(e))
  }

  predicate IsUpDown(e: Heading) {
    e == Toward(Up) || e == Toward(Down)
  }

  /** The cells of s whose coordinate i is t, in the order of s. */
  function OnCoord(s: seq<Vec>, i: nat, t: int): (r: seq<Vec>)
    ensures forall x :: x in r <==> x in s && Coord(x, i) == t
  {
    if s == [] then []
    else
      var rest := OnCoord(s[1..], i, t);
      assert forall x :: x in s <==> x == s[0] || x in s[1..];
      if Coord(s[0], i) == t then [s[0]] + rest else rest
  }

  /** `self.tiles`: every hexagon rebuilt as `Tile(column, row)`, which reduces the
      offset modulo the board size. */
  function AsTiles(width: nat, height: nat, s: seq<Vec>): (t: seq<Vec>)
    ensures |t| == |s|
    ensures forall k :: 0 <= k < |s| ==> t[k] == TileCell(width, height, Column(s[k]), Row(s[k]))
  {
    seq(|s|, k requires 0 <= k < |s| => TileCell(width, height, Column(s[k]), Row(s[k])))
  }

  /** A board cell is its own tile. */
  lemma TileOfOnBoard(width: nat, height: nat, c: Vec)
    requires OnBoard(width, height, c)
    ensures TileCell(width, height, Column(c), Row(c)) == c
  {
    var t := TileCell(width, height, Column(c), Row(c));
    CubeRoundTrip(c);
    CubeRoundTrip(t);
  }

  /** `edge(direction)`: up and down are `_max`; otherwise the tiles of the cells whose
      compared coordinate is extreme. The extreme of an empty shape does not exist
      (numpy raises). */
  function Edge(width: nat, height: nat, s: seq<Vec>, e: Heading): (r: Result<seq<Vec>>)
    ensures r.Ok? <==> IsUpDown(e) || s != []
    ensures IsUpDown(e) ==> r == Ok(Max(s, FrameOf(e.d)))
  {
    if IsUpDown(e) then Ok(Max(s, FrameOf(e.d)))
    else if s == [] then Err(EmptyShape)
    else
      var i := EdgeAxis(e);
      var t := if EdgeTakesMax(e) then MaxCoord(s, i) else MinCoord(s, i);
      Ok(Dedup(AsTiles(width, height, OnCoord(s, i, t))))
  }

  /** On a shape inside the board, a non-vertical `edge` is exactly the shape's cells
      that no cell of the shape lies beyond towards e. */
  lemma EdgeSpec(width: nat, height: nat, s: seq<Vec>, e: Heading, c: Vec)
    requires !IsUpDown(e) && s != []
    requires forall x :: x in s ==> OnBoard(width, height, x)
    ensures Edge(width, height, s, e).Ok?
    ensures c in Edge(width, height, s, e).value <==>
              c in s && forall x :: x in s ==> EdgeReach(x, e) <= EdgeReach(c, e)
  {
    var i := EdgeAxis(e);
    var t := if EdgeTakesMax(e) then MaxCoord(s, i) else MinCoord(s, i);
    var f := OnCoord(s, i, t);
    var tiles := AsTiles(width, height, f);
    assert forall k :: 0 <= k < |f| ==> tiles[k] == f[k] by {
      forall k | 0 <= k < |f| ensures tiles[k] == f[k] {
        TileOfOnBoard(width, height, f[k]);
      }
    }
    assert tiles == f;
    if c in s && forall x :: x in s ==> EdgeReach(x, e) <= EdgeReach(c, e) {
      var k :| 0 <= k < |s| && Coord(s[k], i) == t;
      assert EdgeReach(s[k], e) <= EdgeReach(c, e);
      var j :| 0 <= j < |s| && s[j] == c;
      assert Coord(c, i) == t;
    }
    if c in f {
      forall x | x in s ensures EdgeReach(x, e) <= EdgeReach(c, e) {
        var k :| 0 <= k < |s| && s[k] == x;
      }
    }
  }

  /** The board cells on c's line that lie farther along d than c, in board order. */
  function BoardBeyond(width: nat, height: nat, c: Vec, f: Frame): (b: seq<Vec>)
    ensures NoDup(b)
    ensures forall x :: x in b <==> OnBoard(width, height, x) && Line(x, f) == Line(c, f) && Farther(x, c, f)
  {
    Select(EntireBoard(width, height), c, f)
  }

  /** The cells of s on c's line farther along d than c, in the order of s. */
  function Select(s: seq<Vec>, c: Vec, f: Frame): (b: seq<Vec>)
    ensures forall x :: x in b <==> x in s && Line(x, f) == Line(c, f) && Farther(x, c, f)
    ensures NoDup(s) ==> NoDup(b)
  {
    if s == [] then []
    else
      var rest := Select(s[1..], c, f);
      assert forall x :: x in s <==> x == s[0] || x in s[1..];
      if Line(s[0], f) == Line(c, f) && Farther(s[0], c, f) then
        assert NoDup(s) ==> s[0] !in s[1..];
        [s[0]] + rest
      else rest
  }

  /** The board cells beyond each cell of m, line after line. */
  function BeyondAll(width: nat, height: nat, m: seq<Vec>, f: Frame): (b: seq<Vec>)
    ensures forall x :: x in b <==>
              exists i :: 0 <= i < |m| && x in BoardBeyond(width, height, m[i], f)
  {
    if m == [] then []
    else
      var rest := BeyondAll(width, height, m[1..], f);
      assert forall i :: 1 <= i < |m| ==> m[i] == m[1..][i - 1];
      BoardBeyond(width, height, m[0], f) + rest
  }

  /** `get(direction)` (with 'above' and 'below' standing for up and down): for every
      line the shape meets, the board cells past the shape's farthest cell on it. */
  function GetBeyond(width: nat, height: nat, s: seq<Vec>, d: Direction): seq<Vec> {
    var f := FrameOf(d);
    Dedup(BeyondAll(width, height, Max(s, f), f))
  }

  /** Each cell of `_max` is a farthest shape cell of its line. */
  lemma MaxCellFarthest(s: seq<Vec>, f: Frame, i: nat)
    requires i < |Max(s, f)|
    ensures Farthest(s, Max(s, f)[i], f)
  {
    MaxSpec(s, f);
  }

  /** A cell is in `get(direction)` exactly when it is on the board, on a line the
      shape meets, and strictly farther along d than every shape cell of that line. */
  lemma GetBeyondSpec(width: nat, height: nat, s: seq<Vec>, d: Direction, c: Vec)
    ensures c in GetBeyond(width, height, s, d) <==>
              OnBoard(width, height, c) &&
              (exists x :: x in s && Line(x, FrameOf(d)) == Line(c, FrameOf(d))) &&
              (forall x :: x in s && Line(x, FrameOf(d)) == Line(c, FrameOf(d)) ==>
                 Reach(x, FrameOf(d)) < Reach(c, FrameOf(d)))
  {
    var f := FrameOf(d);
    var m := Max(s, f);
    if c in GetBeyond(width, height, s, d) {
      var i :| 0 <= i < |m| && c in BoardBeyond(width, height, m[i], f);
      FartherIsReach(c, m[i], f);
      MaxCellFarthest(s, f, i);
      assert m[i] in s;
    }
    if OnBoard(width, height, c) && (exists x :: x in s && Line(x, f) == Line(c, f)) &&
       (forall x :: x in s && Line(x, f) == Line(c, f) ==> Reach(x, f) < Reach(c, f)) {
      var x :| x in s && Line(x, f) == Line(c, f);
      var i := MaxCellOf(s, f, x);
      MaxCellFarthest(s, f, i);
      FartherIsReach(c, m[i], f);
      assert c in BoardBeyond(width, height, m[i], f);
    }
  }
}
