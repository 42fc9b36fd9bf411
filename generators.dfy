/** The shape generators `Line` (a bounded walk from a start tile) and `Circle` (the
    ring of cells at a given hex distance). */
module Generators {
  import opened Wrappers
  import opened HexVec
  import opened Hexagon
  import opened Shapes
  import Directional

  /** Distinct multiples of a non-zero displacement are distinct. */
  lemma ScaleInjective(v: Vec, i: int, j: int)
    requires v != Zero && Scale(v, i) == Scale(v, j)
    ensures i == j
  {
  }

  // ---------------------------------------------------------------- Line

  /** The cells the loop of `Line` appends: from `first`, one step of `dir` at a time,
      at most `length` cells, ending before the first cell that is off the board or in
      `stops` (the `end_tiles` shape). */
  function WalkCells(width: nat, height: nat, first: Vec, dir: Vec, length: int, stops: set<Vec>): seq<Vec>
    decreases if length < 0 then 0 else length
  {
    if length <= 0 || !OnBoard(width, height, first) || first in stops then []
    else [first] + WalkCells(width, height, Add(first, dir), dir, length - 1, stops)
  }

  /** The walk yields at most `length` cells, all on the board and none in `stops`; the
      i-th is `first` moved i steps; and it ends early only at a cell that is off the
      board or in `stops`. */
  lemma {:induction false} WalkSpec(width: nat, height: nat, first: Vec, dir: Vec, length: int, stops: set<Vec>)
    decreases if length < 0 then 0 else length
    ensures var w := WalkCells(width, height, first, dir, length, stops);
      && (length <= 0 ==> w == [])
      && |w| <= (if length < 0 then 0 else length)
      && (forall i :: 0 <= i < |w| ==> w[i] == Add(first, Scale(dir, i)))
      && (forall i :: 0 <= i < |w| ==> OnBoard(width, height, w[i]) && w[i] !in stops)
      && (|w| < length ==> var next := Add(first, Scale(dir, |w|));
                            !OnBoard(width, height, next) || next in stops)
  {
    var w := WalkCells(width, height, first, dir, length, stops);
    if length <= 0 || !OnBoard(width, height, first) || first in stops {
      assert Add(first, Scale(dir, 0)) == first;
    } else {
      var second := Add(first, dir);
      var rest := WalkCells(width, height, second, dir, length - 1, stops);
      WalkSpec(width, height, second, dir, length - 1, stops);
      assert w == [first] + rest;
      forall i | 0 <= i <= |rest|
        ensures Add(second, Scale(dir, i)) == Add(first, Scale(dir, i + 1))
      {
        AddAssoc(first, dir, Scale(dir, i));
        ScaleStep(dir, i);
      }
      assert Add(first, Scale(dir, 0)) == first;
      forall i | 0 <= i < |w| ensures w[i] == Add(first, Scale(dir, i)) {
        if i > 0 {
          assert w[i] == rest[i - 1];
        }
      }
    }
  }

  /** A walk by a non-zero step never visits a cell twice, so the `Shape` constructor
      keeps it as it is. */
  lemma WalkDistinct(width: nat, height: nat, first: Vec, dir: Vec, length: int, stops: set<Vec>)
    requires dir != Zero
    ensures NoDup(WalkCells(width, height, first, dir, length, stops))
    ensures Dedup(WalkCells(width, height, first, dir, length, stops)) == WalkCells(width, height, first, dir, length, stops)
  {
    var w := WalkCells(width, height, first, dir, length, stops);
    WalkSpec(width, height, first, dir, length, stops);
    forall i, j | 0 <= i < j < |w| ensures w[i] != w[j] {
      if w[i] == w[j] {
        assert Scale(dir, i) == Sub(w[i], first) == Sub(w[j], first) == Scale(dir, j);
        ScaleInjective(dir, i, j);
      }
    }
    DedupOfNoDup(w);
  }

  /** How the line's direction is given: by a direction name, by an end tile, or not at
      all (which raises). */
  datatype LineHeading = ByName(d: Direction) | ToEnd(end: Vec) | Unspecified

  /** A line: its cells, and the name of its direction (None when the end tile is the
      start tile, whose difference has no direction). `constant` is the line's
      `constant_value`: the coordinate that stays fixed along the direction, present
      when the line has more than one cell. */
  datatype LineShape = LineShape(cells: seq<Vec>, direction: Option<Direction>, constant: Option<int>)

  function IncludeCount(b: bool): nat {
    if b then 1 else 0
  }

  /** The walk's length bound when the line ends at a tile v away from its start. */
  function EndLength(v: Vec, includeStart: bool, includeEnd: bool): int {
    Norm(v) - 1 + IncludeCount(includeStart) + IncludeCount(includeEnd)
  }

  /** A line with its metadata, from the walk in direction d. */
  function LineFrom(cells: seq<Vec>, d: Direction): LineShape {
    LineShape(cells, Some(d),
              if |cells| > 1 then Some(Directional.Coord(cells[0], Directional.Axis(d))) else None)
  }

  /** The line walked from the start tile (or the tile after it) in direction d for at
      most n steps. */
  function LineAlong(width: nat, height: nat, start: Vec, d: Direction, n: int,
                     stops: set<Vec>, includeStart: bool): (l: LineShape)
    ensures NoDup(l.cells)
  {
    var first := if includeStart then start else Add(start, DirVec(d));
    DirectionUnit(d);
    WalkDistinct(width, height, first, DirVec(d), n, stops);
    LineFrom(WalkCells(width, height, first, DirVec(d), n, stops), d)
  }

  /** `Line(start_tile, end_tile, direction, length, end_tiles, include_start_tile,
      include_end_tile)`. A missing direction, and an end tile off the six axes through
      the start tile, raise. An end tile equal to the start tile gives a direction whose
      float division by zero makes a shift by it fail: that raises exactly when the loop
      would take a step (or the start is to be skipped), and otherwise the line is
      empty. */
  function LineOf(width: nat, height: nat, start: Vec, how: LineHeading, length: Option<int>,
                  stops: set<Vec>, includeStart: bool, includeEnd: bool): (r: Result<LineShape>)
    ensures r.Err? <==>
      || how.Unspecified?
      || (how.ToEnd? && !HasDirection(Diff(how.end, start)))
      || (how.ToEnd? && how.end == start &&
          (!includeStart || (includeEnd && OnBoard(width, height, start) && start !in stops)))
    ensures r.Err? ==> r.error == NoDirection
    ensures r.Ok? ==> NoDup(r.value.cells)
  {
    match how
    case Unspecified => Err(NoDirection)
    case ByName(d) =>
      var n := if length.Some? then length.value else LargerSide(width, height);
      Ok(LineAlong(width, height, start, d, n, stops, includeStart))
    case ToEnd(end) =>
      var v := Diff(end, start);
      var n := EndLength(v, includeStart, includeEnd);
      if !HasDirection(v) then Err(NoDirection)
      else if v == Zero then
        if !includeStart || (n >= 1 && OnBoard(width, height, start) && start !in stops) then Err(NoDirection)
        else Ok(LineShape([], None, None))
      else
        Ok(LineAlong(width, height, start, DirectionOf(v).value, n, stops, includeStart))
  }

  /** The loop of `Line.__init__`: step from `first` while the count is below the length,
      the hexagon is on the board and it is not an end tile. */
  method Walk(width: nat, height: nat, first: Vec, dir: Vec, n: int, stops: set<Vec>)
    returns (hexagons: seq<Vec>)
    ensures hexagons == WalkCells(width, height, first, dir, n, stops)
  {
    var hexagon := first;
    var count := 0;
    hexagons := [];
    while count < n && OnBoard(width, height, hexagon) && hexagon !in stops
      invariant hexagons + WalkCells(width, height, hexagon, dir, n - count, stops) ==
                WalkCells(width, height, first, dir, n, stops)
      decreases n - count
    {
      assert WalkCells(width, height, hexagon, dir, n - count, stops) ==
             [hexagon] + WalkCells(width, height, Add(hexagon, dir), dir, n - count - 1, stops);
      hexagons := hexagons + [hexagon];
      hexagon := Add(hexagon, dir);
      count := count + 1;
    }
  }

  /** `Line.__init__`: the walk as the source runs it, updating the current hexagon and
      the count. */
  method Line(width: nat, height: nat, start: Vec, how: LineHeading, length: Option<int>,
              stops: set<Vec>, includeStart: bool, includeEnd: bool) returns (r: Result<LineShape>)
    ensures r == LineOf(width, height, start, how, length, stops, includeStart, includeEnd)
  {
    var d: Direction;
    var n: int;
    match how {
      case Unspecified =>
        return Err(NoDirection);
      case ByName(name) =>
        d := name;
        n := if length.Some? then length.value else LargerSide(width, height);
        assert LineOf(width, height, start, how, length, stops, includeStart, includeEnd) ==
               Ok(LineAlong(width, height, start, d, n, stops, includeStart));
      case ToEnd(end) =>
        var v := Diff(end, start);
        n := EndLength(v, includeStart, includeEnd);
        if !HasDirection(v) {
          return Err(NoDirection);
        }
        if v == Zero {
          if !includeStart || (n >= 1 && OnBoard(width, height, start) && start !in stops) {
            return Err(NoDirection);
          }
          return Ok(LineShape([], None, None));
        }
        d := DirectionOf(v).value;
        assert LineOf(width, height, start, how, length, stops, includeStart, includeEnd) ==
               Ok(LineAlong(width, height, start, d, n, stops, includeStart));
    }
    var dir := DirVec(d);
    var first: Vec := if includeStart then start else Add(start, dir);
    var hexagons := Walk(width, height, first, dir, n, stops);
    DirectionUnit(d);
    WalkDistinct(width, height, first, dir, n, stops);
    assert LineAlong(width, height, start, d, n, stops, includeStart) == LineFrom(hexagons, d);
    var cells := MakeShape(hexagons);
    r := Ok(LineFrom(cells, d));
  }

  /** The walk behind a line that has a direction: where it starts, its step and its
      length bound. */
  lemma LineWalk(width: nat, height: nat, start: Vec, how: LineHeading, length: Option<int>,
                 stops: set<Vec>, includeStart: bool, includeEnd: bool)
    returns (d: Direction, first: Vec, n: int)
    requires LineOf(width, height, start, how, length, stops, includeStart, includeEnd).Ok?
    requires LineOf(width, height, start, how, length, stops, includeStart, includeEnd).value.direction.Some?
    ensures LineOf(width, height, start, how, length, stops, includeStart, includeEnd).value ==
              LineFrom(WalkCells(width, height, first, DirVec(d), n, stops), d)
    ensures first == if includeStart then start else Add(start, DirVec(d))
    ensures how.ByName? ==> d == how.d && n == if length.Some? then length.value else LargerSide(width, height)
    ensures how.ToEnd? ==> n == EndLength(Diff(how.end, start), includeStart, includeEnd) &&
                           n <= Norm(Diff(how.end, start)) + 1
  {
    match how {
      case ByName(e) =>
        d := e;
        n := if length.Some? then length.value else LargerSide(width, height);
      case ToEnd(end) =>
        var v := Diff(end, start);
        d := DirectionOf(v).value;
        n := EndLength(v, includeStart, includeEnd);
    }
    first := if includeStart then start else Add(start, DirVec(d));
  }

  /** A line has no direction exactly when its end tile is its start tile, and then it
      is empty. */
  lemma LineWithoutDirection(width: nat, height: nat, start: Vec, how: LineHeading, length: Option<int>,
                             stops: set<Vec>, includeStart: bool, includeEnd: bool)
    requires LineOf(width, height, start, how, length, stops, includeStart, includeEnd).Ok?
    ensures var l := LineOf(width, height, start, how, length, stops, includeStart, includeEnd).value;
      l.direction.None? <==> how.ToEnd? && how.end == start
    ensures var l := LineOf(width, height, start, how, length, stops, includeStart, includeEnd).value;
      l.direction.None? ==> l.cells == []
  {
  }

  /** Every line the constructor builds holds at most its length bound of cells, all on
      the board and none in `end_tiles`; each cell is the previous one shifted by the
      direction. */
  lemma LineSpec(width: nat, height: nat, start: Vec, how: LineHeading, length: Option<int>,
                 stops: set<Vec>, includeStart: bool, includeEnd: bool)
    requires LineOf(width, height, start, how, length, stops, includeStart, includeEnd).Ok?
    ensures var l := LineOf(width, height, start, how, length, stops, includeStart, includeEnd).value;
      && (forall i :: 0 <= i < |l.cells| ==> OnBoard(width, height, l.cells[i]) && l.cells[i] !in stops)
      && (how.ByName? ==> l.direction == Some(how.d))
      && (how.ByName? && length.Some? ==> |l.cells| <= (if length.value < 0 then 0 else length.value))
      && (how.ByName? && length.None? ==> |l.cells| <= LargerSide(width, height))
      && (how.ToEnd? ==> |l.cells| <= Norm(Diff(how.end, start)) + 1)
      && (l.cells != [] ==> l.direction.Some?)
      && (forall i :: 0 < i < |l.cells| ==> l.cells[i] == Add(l.cells[i - 1], DirVec(l.direction.value)))
  {
    var l := LineOf(width, height, start, how, length, stops, includeStart, includeEnd).value;
    if l.direction.None? {
      LineWithoutDirection(width, height, start, how, length, stops, includeStart, includeEnd);
    } else {
      var d, first, n := LineWalk(width, height, start, how, length, stops, includeStart, includeEnd);
      WalkSteps(width, height, first, d, n, stops);
    }
  }

  /** The cells of a walk in direction d lie on the board outside `stops`, each one step
      of d after the previous. */
  lemma WalkSteps(width: nat, height: nat, first: Vec, d: Direction, n: int, stops: set<Vec>)
    ensures var w := WalkCells(width, height, first, DirVec(d), n, stops);
      && |w| <= (if n < 0 then 0 else n)
      && (forall i :: 0 <= i < |w| ==> OnBoard(width, height, w[i]) && w[i] !in stops)
      && (forall i :: 0 < i < |w| ==> w[i] == Add(w[i - 1], DirVec(d)))
  {
    var w := WalkCells(width, height, first, DirVec(d), n, stops);
    WalkSpec(width, height, first, DirVec(d), n, stops);
    forall i | 0 < i < |w| ensures w[i] == Add(w[i - 1], DirVec(d)) {
      AddAssoc(first, Scale(DirVec(d), i - 1), DirVec(d));
      ScaleStep(DirVec(d), i - 1);
    }
  }

  /** Every cell of a line with more than one cell has the line's `constant_value` as
      the cube coordinate that its direction leaves unchanged. */
  lemma LineConstant(width: nat, height: nat, start: Vec, how: LineHeading, length: Option<int>,
                     stops: set<Vec>, includeStart: bool, includeEnd: bool)
    requires LineOf(width, height, start, how, length, stops, includeStart, includeEnd).Ok?
    ensures var l := LineOf(width, height, start, how, length, stops, includeStart, includeEnd).value;
      l.constant.Some? <==> |l.cells| > 1
    ensures var l := LineOf(width, height, start, how, length, stops, includeStart, includeEnd).value;
      l.constant.Some? ==>
        forall i :: 0 <= i < |l.cells| ==>
          Directional.Coord(l.cells[i], Directional.Axis(l.direction.value)) == l.constant.value
  {
    var l := LineOf(width, height, start, how, length, stops, includeStart, includeEnd).value;
    if l.direction.None? {
      LineWithoutDirection(width, height, start, how, length, stops, includeStart, includeEnd);
    } else {
      var d, first, n := LineWalk(width, height, start, how, length, stops, includeStart, includeEnd);
      WalkSpec(width, height, first, DirVec(d), n, stops);
      if |l.cells| > 1 {
        forall i | 0 <= i < |l.cells|
          ensures Directional.Coord(l.cells[i], Directional.Axis(d)) == l.constant.value
        {
          Directional.ShiftAlong(first, d, i);
          Directional.ShiftAlong(first, d, 0);
        }
      }
    }
  }

  /** A walk whose first n cells are all on the board and outside `stops` yields
      exactly those n cells. */
  lemma WalkCovers(width: nat, height: nat, first: Vec, dir: Vec, n: int, stops: set<Vec>)
    requires n >= 0
    requires forall i :: 0 <= i < n ==> OnBoard(width, height, Add(first, Scale(dir, i))) &&
                                        Add(first, Scale(dir, i)) !in stops
    ensures |WalkCells(width, height, first, dir, n, stops)| == n
    ensures forall i :: 0 <= i < n ==> WalkCells(width, height, first, dir, n, stops)[i] == Add(first, Scale(dir, i))
  {
    WalkSpec(width, height, first, dir, n, stops);
  }

  /** A line given by an end tile on one of the six axes through its start, with both
      ends included and every cell between them on the board and outside `end_tiles`,
      runs from the start tile to the end tile, one cell per unit of distance. */
  lemma LineReachesEnd(width: nat, height: nat, start: Vec, end: Vec, length: Option<int>, stops: set<Vec>)
    requires HasDirection(Diff(end, start)) && end != start
    requires forall c :: c in Segment(start, end) ==> OnBoard(width, height, c) && c !in stops
    ensures LineOf(width, height, start, ToEnd(end), length, stops, true, true).Ok?
    ensures var l := LineOf(width, height, start, ToEnd(end), length, stops, true, true).value;
      && |l.cells| == Norm(Diff(end, start)) + 1
      && l.cells[0] == start && l.cells[|l.cells| - 1] == end
      && l.cells == Segment(start, end)
  {
    var v := Diff(end, start);
    var d := DirectionOf(v).value;
    var n := EndLength(v, true, true);
    var seg := Segment(start, end);
    assert n == |seg|;
    forall i | 0 <= i < n
      ensures OnBoard(width, height, Add(start, Scale(DirVec(d), i))) && Add(start, Scale(DirVec(d), i)) !in stops
    {
      assert seg[i] in seg;
    }
    WalkCovers(width, height, start, DirVec(d), n, stops);
    var w := WalkCells(width, height, start, DirVec(d), n, stops);
    assert w == seg;
    assert LineOf(width, height, start, ToEnd(end), length, stops, true, true) == Ok(LineFrom(w, d));
    assert Add(start, Scale(DirVec(d), 0)) == start;
  }

  /** The cells from start to end, one unit step at a time, for an end on one of the
      six axes through the start. */
  function Segment(start: Vec, end: Vec): (seg: seq<Vec>)
    requires HasDirection(Diff(end, start)) && end != start
    ensures |seg| == Norm(Diff(end, start)) + 1
    ensures seg[|seg| - 1] == end
  {
    var v := Diff(end, start);
    var d := DirectionOf(v).value;
    var seg := seq(Norm(v) + 1, i requires 0 <= i <= Norm(v) => Add(start, Scale(DirVec(d), i)));
    ShiftByDifference(start, end);
    seg
  }

  // ---------------------------------------------------------------- Circle

  /** The three offsets `Circle` makes from d0: the triple (d0, d1, d2) with d1 chosen so
      that the hex distance is the radius, and its two cyclic rotations. */
  function Rotations(radius: int, d0: int): seq<Vec> {
    var d1 := if d0 >= 0 then radius - d0 else -radius - d0;
    var d2 := -d0 - d1;
    [Cube(d0, d1, d2), Cube(d1, d2, d0), Cube(d2, d0, d1)]
  }

  /** The offsets for d0 = lo, lo + 1, ..., radius, in the order of the loops. */
  function RingFrom(radius: int, lo: int): seq<Vec>
    decreases radius - lo + 1
  {
    if lo > radius then [] else Rotations(radius, lo) + RingFrom(radius, lo + 1)
  }

  /** `Circle(center_tile, radius)`: the center shifted by every offset, de-duplicated
      by the `Shape` constructor. */
  function Circle(center: Vec, radius: int): seq<Vec> {
    ShiftShape(RingFrom(radius, -radius), center)
  }

  /** An offset is generated from some d0 in lo..radius exactly when it is one of that
      d0's rotations. */
  lemma {:induction false} RingFromMember(radius: int, lo: int, v: Vec)
    decreases radius - lo + 1
    ensures v in RingFrom(radius, lo) <==> exists d0 :: lo <= d0 <= radius && v in Rotations(radius, d0)
  {
    if lo <= radius {
      RingFromMember(radius, lo + 1, v);
      if v in Rotations(radius, lo) {
        assert v in RingFrom(radius, lo);
      }
    }
  }

  /** The rotations of any d0 in -radius..radius lie at hex distance radius. */
  lemma RotationsOnRing(radius: int, d0: int, v: Vec)
    requires -radius <= d0 <= radius && v in Rotations(radius, d0)
    ensures Norm(v) == radius
  {
  }

  /** Every offset at hex distance radius >= 0 is a rotation of some d0 in
      -radius..radius: one coordinate is radius or -radius, and the other two share the
      rest without changing sign. */
  lemma OnRingIsGenerated(radius: int, v: Vec) returns (d0: int)
    requires radius >= 0 && Norm(v) == radius
    ensures -radius <= d0 <= radius && v in Rotations(radius, d0)
  {
    var R := radius;
    if v.s == -R {
      d0 := v.q;
    } else if v.r == -R {
      d0 := v.s;
    } else if v.q == -R {
      d0 := v.r;
    } else if v.s == R {
      d0 := v.q;
    } else if v.r == R {
      d0 := v.s;
    } else {
      d0 := v.r;
    }
  }

  /** A cell belongs to `Circle(center, radius)` exactly when its hex distance from the
      center is the radius (a negative radius gives no cells). */
  lemma CircleSpec(center: Vec, radius: int, x: Vec)
    ensures x in Circle(center, radius) <==> radius >= 0 && Norm(Diff(x, center)) == radius
  {
    var v := Sub(x, center);
    RingFromMember(radius, -radius, v);
    if x in Circle(center, radius) {
      var d0 :| -radius <= d0 <= radius && v in Rotations(radius, d0);
      RotationsOnRing(radius, d0, v);
    }
    if radius >= 0 && Norm(v) == radius {
      var d0 := OnRingIsGenerated(radius, v);
    }
  }

  /** Three distinct cells are their own de-duplication. */
  lemma DedupThree(a: Vec, b: Vec, c: Vec)
    requires a != b && a != c && b != c
    ensures Dedup([a, b, c]) == [a, b, c]
  {
    DedupSnoc([], a);
    assert [] + [a] == [a];
    DedupSnoc([a], b);
    assert [a] + [b] == [a, b];
    DedupSnoc([a, b], c);
    assert [a, b] + [c] == [a, b, c];
  }

  /** Repeating three cells adds nothing to their de-duplication. */
  lemma DedupRepeat(a: Vec, b: Vec, c: Vec)
    requires a != b && a != c && b != c
    ensures Dedup([a, b, c, b, c, a]) == [a, b, c]
  {
    var s3 := [a, b, c];
    DedupThree(a, b, c);
    var s4 := s3 + [b];
    assert Dedup(s4) == s3 by {
      DedupSnoc(s3, b);
      assert b in s3;
    }
    var s5 := s4 + [c];
    assert Dedup(s5) == s3 by {
      DedupSnoc(s4, c);
      assert c in s3;
    }
    var s6 := s5 + [a];
    assert Dedup(s6) == s3 by {
      DedupSnoc(s5, a);
      assert a in s3;
    }
    assert s6 == [a, b, c, b, c, a];
  }

  /** The de-duplication of the nine offsets of the unit circle, shifted. */
  lemma DedupNine(a: Vec, b: Vec, c: Vec, d: Vec, e: Vec, f: Vec)
    requires a != b && a != c && b != c
    requires d != a && d != b && d != c
    requires e != a && e != b && e != c && e != d
    requires f != a && f != b && f != c && f != d && f != e
    ensures Dedup([a, b, c, b, c, a, d, e, f]) == [a, b, c, d, e, f]
  {
    var back := [a, b, c, b, c, a];
    DedupRepeat(a, b, c);
    DedupSnoc(back, d);
    assert d !in [a, b, c];
    DedupSnoc(back + [d], e);
    assert e !in [a, b, c] + [d];
    DedupSnoc(back + [d] + [e], f);
    assert f !in [a, b, c] + [d] + [e];
    assert back + [d] + [e] + [f] == [a, b, c, b, c, a, d, e, f];
    assert [a, b, c] + [d] + [e] + [f] == [a, b, c, d, e, f];
  }

  /** With radius 1 the circle is the six neighbours of the center, each once, in the
      order the loops first reach them. */
  lemma UnitCircle(center: Vec)
    ensures Circle(center, 1) == [Add(center, DirVec(UpLeft)), Add(center, DirVec(Down)), Add(center, DirVec(UpRight)),
                                  Add(center, DirVec(DownRight)), Add(center, DirVec(Up)), Add(center, DirVec(DownLeft))]
    ensures |Circle(center, 1)| == 6 && center !in Circle(center, 1)
  {
    var ring := RingFrom(1, -1);
    assert ring == [Cube(-1, 0, 1), Cube(0, 1, -1), Cube(1, -1, 0),
                    Cube(0, 1, -1), Cube(1, -1, 0), Cube(-1, 0, 1),
                    Cube(1, 0, -1), Cube(0, -1, 1), Cube(-1, 1, 0)];
    var m := seq(|ring|, i requires 0 <= i < |ring| => Add(ring[i], center));
    var a, b, c := Add(center, DirVec(UpLeft)), Add(center, DirVec(Down)), Add(center, DirVec(UpRight));
    var d, e, f := Add(center, DirVec(DownRight)), Add(center, DirVec(Up)), Add(center, DirVec(DownLeft));
    assert m == [a, b, c, b, c, a, d, e, f];
    DedupNine(a, b, c, d, e, f);
  }
}
