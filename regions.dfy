/** Relational queries of a shape against the board: its neighbours, the exterior flood
    fill (`get('outside')`), the interior, the boundary, corners and endpoints. Python
    returns these as shapes built from set operations, whose order it does not fix; the
    model gives their cube sets. */
module Regions {
  import opened HexVec
  import opened Hexagon
  import opened Shapes

  /** `neighbors('all')`: every `_neighbors` hexagon of a member, minus the members. */
  function NeighborsAll(width: nat, height: nat, cells: set<Vec>): (n: set<Vec>)
    ensures forall x :: x in n <==>
      x !in cells && exists c, d :: c in cells && OnBoard(width, height, c) && x == Add(c, DirVec(d))
  {
    var n := (set c, x | c in cells && x in Neighbors(width, height, c) :: x) - cells;
    assert forall x :: x in n <==>
      x !in cells && exists c, d :: c in cells && OnBoard(width, height, c) && x == Add(c, DirVec(d)) by {
      forall x ensures x in n <==>
        x !in cells && exists c, d :: c in cells && OnBoard(width, height, c) && x == Add(c, DirVec(d))
      {
        if x !in cells && exists c, d :: c in cells && OnBoard(width, height, c) && x == Add(c, DirVec(d)) {
          var c, d :| c in cells && OnBoard(width, height, c) && x == Add(c, DirVec(d));
          assert x in Neighbors(width, height, c);
        }
      }
    }
    n
  }

  /** The cells one step of the flood fill adds: on-board neighbours of `ext` outside
      the shape. */
  function Frontier(width: nat, height: nat, cells: set<Vec>, ext: set<Vec>): (f: set<Vec>)
    ensures f <= BoardSet(width, height) && f !! cells && f !! ext
  {
    (NeighborsAll(width, height, ext) - cells) * BoardSet(width, height)
  }

  /** The loop of `get('outside')` from a given exterior: grow until nothing is added.
      Each step that adds something strictly grows the set inside the finite board. */
  function ExteriorFrom(width: nat, height: nat, cells: set<Vec>, ext: set<Vec>): set<Vec>
    requires ext <= BoardSet(width, height)
    decreases BoardSet(width, height) - ext
  {
    var f := Frontier(width, height, cells, ext);
    if f == {} then ext
    else
      var x :| x in f;
      assert x in BoardSet(width, height) - ext && x !in BoardSet(width, height) - (ext + f);
      ExteriorFrom(width, height, cells, ext + f)
  }

  function Start(width: nat, height: nat, cells: set<Vec>): (s: set<Vec>)
    ensures s <= BoardSet(width, height) && s !! cells
  {
    Elems(Perimeter(width, height)) - cells
  }

  /** `get('outside')`: the flood fill from the board perimeter minus the shape. */
  function Exterior(width: nat, height: nat, cells: set<Vec>): set<Vec> {
    ExteriorFrom(width, height, cells, Start(width, height, cells))
  }

  predicate Closed(width: nat, height: nat, cells: set<Vec>, x: set<Vec>) {
    Frontier(width, height, cells, x) == {}
  }

  lemma {:induction false} ExteriorFromFacts(width: nat, height: nat, cells: set<Vec>, ext: set<Vec>)
    requires ext <= BoardSet(width, height) && ext !! cells
    ensures ext <= ExteriorFrom(width, height, cells, ext) <= BoardSet(width, height)
    ensures ExteriorFrom(width, height, cells, ext) !! cells
    ensures Closed(width, height, cells, ExteriorFrom(width, height, cells, ext))
    decreases BoardSet(width, height) - ext
  {
    var f := Frontier(width, height, cells, ext);
    if f != {} {
      var x :| x in f;
      assert x in BoardSet(width, height) - ext && x !in BoardSet(width, height) - (ext + f);
      ExteriorFromFacts(width, height, cells, ext + f);
    }
  }

  lemma ShiftInNeighborsAll(width: nat, height: nat, region: set<Vec>, e: Vec, d: Direction)
    requires e in region && OnBoard(width, height, e)
    ensures Add(e, DirVec(d)) in region || Add(e, DirVec(d)) in NeighborsAll(width, height, region)
  {
  }

  /** One flood-fill step from a subset of a closed set stays inside that set. */
  lemma FrontierInClosed(width: nat, height: nat, cells: set<Vec>, ext: set<Vec>, x: set<Vec>)
    requires ext <= x && Closed(width, height, cells, x)
    ensures Frontier(width, height, cells, ext) <= x
  {
    forall c | c in Frontier(width, height, cells, ext) ensures c in x {
      var e, d :| e in ext && OnBoard(width, height, e) && c == Add(e, DirVec(d));
      assert c !in Frontier(width, height, cells, x);
      ShiftInNeighborsAll(width, height, x, e, d);
    }
  }

  lemma {:induction false} ExteriorFromLeast(width: nat, height: nat, cells: set<Vec>, ext: set<Vec>, x: set<Vec>)
    requires ext <= BoardSet(width, height) && ext <= x && Closed(width, height, cells, x)
    ensures ExteriorFrom(width, height, cells, ext) <= x
    decreases BoardSet(width, height) - ext
  {
    var f := Frontier(width, height, cells, ext);
    if f != {} {
      var y :| y in f;
      assert y in BoardSet(width, height) - ext && y !in BoardSet(width, height) - (ext + f);
      FrontierInClosed(width, height, cells, ext, x);
      ExteriorFromLeast(width, height, cells, ext + f, x);
    }
  }

  /** The exterior lies on the board, avoids the shape, contains the perimeter minus the
      shape, admits no further flood-fill step, and is the least such set: every closed
      set containing the perimeter minus the shape contains it. */
  lemma ExteriorSpec(width: nat, height: nat, cells: set<Vec>)
    ensures Exterior(width, height, cells) <= BoardSet(width, height)
    ensures Exterior(width, height, cells) !! cells
    ensures Elems(Perimeter(width, height)) - cells <= Exterior(width, height, cells)
    ensures Closed(width, height, cells, Exterior(width, height, cells))
    ensures forall x :: Start(width, height, cells) <= x && Closed(width, height, cells, x) ==>
              Exterior(width, height, cells) <= x
  {
    ExteriorFromFacts(width, height, cells, Start(width, height, cells));
    forall x | Start(width, height, cells) <= x && Closed(width, height, cells, x)
      ensures Exterior(width, height, cells) <= x
    {
      ExteriorFromLeast(width, height, cells, Start(width, height, cells), x);
    }
  }

  /** `get('outside')`, the loop as the source runs it. */
  method Outside(width: nat, height: nat, cells: set<Vec>) returns (ext: set<Vec>)
    ensures ext == Exterior(width, height, cells)
    ensures ext <= BoardSet(width, height) && ext !! cells
    ensures Elems(Perimeter(width, height)) - cells <= ext
    ensures Closed(width, height, cells, ext)
  {
    ext := Start(width, height, cells);
    while true
      invariant ext <= BoardSet(width, height)
      invariant ExteriorFrom(width, height, cells, ext) == Exterior(width, height, cells)
      decreases BoardSet(width, height) - ext
    {
      var grown := Frontier(width, height, cells, ext);
      if grown == {} {
        break;
      }
      ext := ext + grown;
    }
    ExteriorSpec(width, height, cells);
  }

  /** `get('inside')`: the board minus the shape minus the exterior. */
  function Interior(width: nat, height: nat, cells: set<Vec>): set<Vec> {
    (BoardSet(width, height) - cells) - Exterior(width, height, cells)
  }

  /** Interior, exterior and the on-board part of the shape are pairwise disjoint and
      together cover the board. */
  lemma Partition(width: nat, height: nat, cells: set<Vec>)
    ensures Interior(width, height, cells) !! Exterior(width, height, cells)
    ensures Interior(width, height, cells) !! cells
    ensures Exterior(width, height, cells) !! cells
    ensures Interior(width, height, cells) + Exterior(width, height, cells)
              + (cells * BoardSet(width, height)) == BoardSet(width, height)
  {
    ExteriorSpec(width, height, cells);
  }

  /** The members of a shape next to a region: for a region on the board and disjoint
      from the shape, a member is a neighbour of the region exactly when one of its six
      shifts lies in the region. */
  lemma TouchingOnly(width: nat, height: nat, cells: set<Vec>, region: set<Vec>, x: Vec)
    requires x in NeighborsAll(width, height, region) * cells
    ensures x in cells && exists d :: Add(x, DirVec(d)) in region
  {
    var c, d :| c in region && OnBoard(width, height, c) && x == Add(c, DirVec(d));
    ShiftBack(c, d);
  }

  lemma TouchingIf(width: nat, height: nat, cells: set<Vec>, region: set<Vec>, x: Vec, d: Direction)
    requires region <= BoardSet(width, height) && region !! cells
    requires x in cells && Add(x, DirVec(d)) in region
    ensures x in NeighborsAll(width, height, region)
  {
    var c := Add(x, DirVec(d));
    ShiftBack(x, d);
    assert OnBoard(width, height, c);
  }

  /** The members of a shape next to a region: for a region on the board and disjoint
      from the shape, a member is a neighbour of the region exactly when one of its six
      shifts lies in the region. */
  lemma TouchingIff(width: nat, height: nat, cells: set<Vec>, region: set<Vec>, x: Vec)
    requires region <= BoardSet(width, height) && region !! cells
    ensures x in NeighborsAll(width, height, region) * cells <==>
              x in cells && exists d :: Add(x, DirVec(d)) in region
  {
    if x in NeighborsAll(width, height, region) * cells {
      TouchingOnly(width, height, cells, region, x);
    }
    if x in cells && exists d :: Add(x, DirVec(d)) in region {
      var d :| Add(x, DirVec(d)) in region;
      TouchingIf(width, height, cells, region, x, d);
    }
  }

  /** `boundary('outer')`. */
  function OuterBoundary(width: nat, height: nat, cells: set<Vec>): set<Vec> {
    NeighborsAll(width, height, Exterior(width, height, cells)) * cells
  }

  /** `boundary('inner')`. */
  function InnerBoundary(width: nat, height: nat, cells: set<Vec>): set<Vec> {
    NeighborsAll(width, height, Interior(width, height, cells)) * cells
  }

  /** `boundary('all')`. */
  function Boundary(width: nat, height: nat, cells: set<Vec>): set<Vec> {
    OuterBoundary(width, height, cells) + InnerBoundary(width, height, cells)
  }

  /** The outer (inner) boundary is the set of members with a neighbour in the exterior
      (interior); both lie within the shape. */
  lemma BoundarySpec(width: nat, height: nat, cells: set<Vec>, x: Vec)
    ensures x in OuterBoundary(width, height, cells) <==>
              x in cells && exists d :: Add(x, DirVec(d)) in Exterior(width, height, cells)
    ensures x in InnerBoundary(width, height, cells) <==>
              x in cells && exists d :: Add(x, DirVec(d)) in Interior(width, height, cells)
    ensures Boundary(width, height, cells) <= cells
  {
    Partition(width, height, cells);
    ExteriorSpec(width, height, cells);
    TouchingIff(width, height, cells, Exterior(width, height, cells), x);
    TouchingIff(width, height, cells, Interior(width, height, cells), x);
  }

  /** The members of `outer` among the `_neighbors` of x. */
  function BoundaryNeighbors(width: nat, height: nat, x: Vec, outer: set<Vec>): set<Vec> {
    Elems(Neighbors(width, height, x)) * outer
  }

  /** The two neighbours of x are not on opposite sides of it. */
  predicate Bends(x: Vec, a: Vec, b: Vec) {
    Add(Diff(x, a), Diff(x, b)) != Zero
  }

  /** `get('corners')`: outer-boundary cells with exactly two outer-boundary neighbours
      that do not lie on a straight line through the cell. */
  function Corners(width: nat, height: nat, cells: set<Vec>): set<Vec> {
    var outer := OuterBoundary(width, height, cells);
    set x | x in outer && |BoundaryNeighbors(width, height, x, outer)| == 2 &&
      BendsIn(x, BoundaryNeighbors(width, height, x, outer))
  }

  /** `get('endpoints')`: outer-boundary cells with exactly one outer-boundary neighbour. */
  function Endpoints(width: nat, height: nat, cells: set<Vec>): set<Vec> {
    EndsAmong(width, height, OuterBoundary(width, height, cells))
  }

  /** The cells of `outer` with exactly one `_neighbors` hexagon in `outer`. */
  function EndsAmong(width: nat, height: nat, outer: set<Vec>): set<Vec> {
    set x | x in outer && |BoundaryNeighbors(width, height, x, outer)| == 1
  }

  lemma TwoElements(s: set<Vec>, p: Vec, q: Vec, a: Vec)
    requires |s| == 2 && p in s && q in s && p != q && a in s
    ensures a == p || a == q
  {
    var t := s - {p};
    assert |t| == 1;
    var u := t - {q};
    assert |u| == 0;
    assert a != p && a != q ==> a in u;
  }

  lemma ShiftIsNeighbor(width: nat, height: nat, x: Vec, d: Direction)
    requires OnBoard(width, height, x)
    ensures Add(x, DirVec(d)) in Elems(Neighbors(width, height, x))
  {
  }

  lemma OppositeDoesNotBend(x: Vec, d: Direction)
    ensures !Bends(x, Add(x, DirVec(d)), Add(x, DirVec(Opposite(d))))
    ensures !Bends(x, Add(x, DirVec(Opposite(d))), Add(x, DirVec(d)))
  {
    OppositeNeg(d);
    StraightThrough(x, DirVec(d));
  }

  /** The two cells one step either side of x lie on a straight line through it. */
  lemma StraightThrough(x: Vec, v: Vec)
    ensures !Bends(x, Add(x, v), Add(x, Neg(v)))
    ensures !Bends(x, Add(x, Neg(v)), Add(x, v))
  {
  }

  lemma CornerUnfold(width: nat, height: nat, cells: set<Vec>, x: Vec)
    requires x in Corners(width, height, cells)
    ensures x in OuterBoundary(width, height, cells)
    ensures |BoundaryNeighbors(width, height, x, OuterBoundary(width, height, cells))| == 2
    ensures OnBoard(width, height, x)
    ensures BendsIn(x, BoundaryNeighbors(width, height, x, OuterBoundary(width, height, cells)))
  {
    var n := BoundaryNeighbors(width, height, x, OuterBoundary(width, height, cells));
    var a :| a in n;
    assert a in Neighbors(width, height, x);
  }

  predicate BendsIn(x: Vec, n: set<Vec>) {
    exists a, b :: a in n && b in n && a != b && Bends(x, a, b)
  }

  /** The two opposite shifts of a cell are different cells. */
  lemma OppositeShiftsDiffer(x: Vec, d: Direction)
    ensures Add(x, DirVec(d)) != Add(x, DirVec(Opposite(d)))
  {
    OppositeNeg(d);
    DirectionUnit(d);
    ShiftsDiffer(x, DirVec(d));
  }

  lemma ShiftsDiffer(x: Vec, v: Vec)
    requires v != Zero
    ensures Add(x, v) != Add(x, Neg(v))
  {
    assert Add(x, v).q - Add(x, Neg(v)).q == 2 * v.q;
    assert Add(x, v).r - Add(x, Neg(v)).r == 2 * v.r;
  }

  /** A two-element set holding both opposite shifts of x holds nothing else. */
  lemma OppositePairMember(x: Vec, n: set<Vec>, d: Direction, a: Vec)
    requires |n| == 2 && a in n
    requires Add(x, DirVec(d)) in n && Add(x, DirVec(Opposite(d))) in n
    ensures a == Add(x, DirVec(d)) || a == Add(x, DirVec(Opposite(d)))
  {
    OppositeShiftsDiffer(x, d);
    TwoElements(n, Add(x, DirVec(d)), Add(x, DirVec(Opposite(d))), a);
  }

  /** In a two-element set holding both opposite shifts of x, no pair bends at x. */
  lemma OppositePairOnly(x: Vec, n: set<Vec>, d: Direction, a: Vec, b: Vec)
    requires |n| == 2 && a in n && b in n && a != b
    requires Add(x, DirVec(d)) in n && Add(x, DirVec(Opposite(d))) in n
    ensures !Bends(x, a, b)
  {
    var p, q := Add(x, DirVec(d)), Add(x, DirVec(Opposite(d)));
    OppositePairMember(x, n, d, a);
    OppositePairMember(x, n, d, b);
    assert (a == p && b == q) || (a == q && b == p);
    OppositeDoesNotBend(x, d);
  }

  /** Two cells holding both opposite shifts of x do not bend at x. */
  lemma StraightPair(x: Vec, n: set<Vec>, d: Direction)
    requires |n| == 2 && BendsIn(x, n)
    ensures !(Add(x, DirVec(d)) in n && Add(x, DirVec(Opposite(d))) in n)
  {
    var a, b :| a in n && b in n && a != b && Bends(x, a, b);
    if Add(x, DirVec(d)) in n && Add(x, DirVec(Opposite(d))) in n {
      OppositePairOnly(x, n, d, a, b);
      assert false;
    }
  }

  /** A corner never continues straight: its two boundary neighbours are never the two
      opposite shifts of one direction. Corners and endpoints are disjoint parts of the
      outer boundary. */
  lemma CornerSpec(width: nat, height: nat, cells: set<Vec>, x: Vec, d: Direction)
    requires x in Corners(width, height, cells)
    ensures !(Add(x, DirVec(d)) in OuterBoundary(width, height, cells) &&
              Add(x, DirVec(Opposite(d))) in OuterBoundary(width, height, cells))
    ensures x in OuterBoundary(width, height, cells) && x !in Endpoints(width, height, cells)
  {
    CornerUnfold(width, height, cells, x);
    BendingPair(width, height, x, OuterBoundary(width, height, cells), d);
    NotEndpoint(width, height, cells, x);
  }

  /** A cell whose two neighbours in `outer` bend does not have both opposite shifts
      of a direction in `outer`. */
  lemma BendingPair(width: nat, height: nat, x: Vec, outer: set<Vec>, d: Direction)
    requires OnBoard(width, height, x)
    requires |BoundaryNeighbors(width, height, x, outer)| == 2 && BendsIn(x, BoundaryNeighbors(width, height, x, outer))
    ensures !(Add(x, DirVec(d)) in outer && Add(x, DirVec(Opposite(d))) in outer)
  {
    ShiftIsNeighbor(width, height, x, d);
    ShiftIsNeighbor(width, height, x, Opposite(d));
    StraightPair(x, BoundaryNeighbors(width, height, x, outer), d);
  }

  lemma NotEndpoint(width: nat, height: nat, cells: set<Vec>, x: Vec)
    requires |BoundaryNeighbors(width, height, x, OuterBoundary(width, height, cells))| != 1
    ensures x !in Endpoints(width, height, cells)
  {
  }

  // ------------------------------------------------------------ Endpoints of a line

  /** The i-th cell of the straight line from start along d. */
  function LineCell(start: Vec, d: Direction, i: int): Vec {
    Add(start, Scale(DirVec(d), i))
  }

  /** The straight line of n cells from start along d. */
  function StraightLine(start: Vec, d: Direction, n: nat): set<Vec> {
    set i | 0 <= i < n :: LineCell(start, d, i)
  }

  lemma LineCellInjective(start: Vec, d: Direction, i: int, j: int)
    requires LineCell(start, d, i) == LineCell(start, d, j)
    ensures i == j
  {
    var v := DirVec(d);
    assert (i - j) * v.q == i * v.q - j * v.q;
    assert (i - j) * v.r == i * v.r - j * v.r;
    assert (i - j) * v.s == i * v.s - j * v.s;
    assert Scale(v, i - j) == Zero;
    NormScale(v, i - j);
    DirectionUnit(d);
  }

  /** A table step from the i-th cell that lands on the j-th cell moves one place
      along the line. */
  lemma LineStepApart(start: Vec, d: Direction, i: int, j: int, e: Direction)
    requires Add(LineCell(start, d, i), DirVec(e)) == LineCell(start, d, j)
    ensures j == i + 1 || j == i - 1
  {
    var v := DirVec(d);
    assert (j - i) * v.q == j * v.q - i * v.q;
    assert (j - i) * v.r == j * v.r - i * v.r;
    assert (j - i) * v.s == j * v.s - i * v.s;
    assert DirVec(e) == Scale(v, j - i);
    NormScale(v, j - i);
    DirectionUnit(d);
    DirectionUnit(e);
  }

  /** The next cell of a line is one step of d from the cell. */
  lemma LineCellNext(start: Vec, d: Direction, i: int)
    ensures LineCell(start, d, i + 1) == Add(LineCell(start, d, i), DirVec(d))
  {
    ScaleStep(DirVec(d), i);
    AddAssoc(start, Scale(DirVec(d), i), DirVec(d));
  }

  /** The previous cell of a line is one step of the opposite direction from the cell. */
  lemma LineCellPrev(start: Vec, d: Direction, i: int)
    ensures LineCell(start, d, i - 1) == Add(LineCell(start, d, i), DirVec(Opposite(d)))
  {
    LineCellNext(start, d, i - 1);
    OppositeNeg(d);
    AddNegBack(LineCell(start, d, i - 1), DirVec(d));
  }

  /** Every neighbour of the i-th cell that lies on the line is the cell before or
      the cell after it. */
  lemma LineNeighborsWithin(width: nat, height: nat, start: Vec, d: Direction, n: nat, i: int, y: Vec)
    requires y in BoundaryNeighbors(width, height, LineCell(start, d, i), StraightLine(start, d, n))
    ensures (i > 0 && y == LineCell(start, d, i - 1)) || (i + 1 < n && y == LineCell(start, d, i + 1))
  {
    var x := LineCell(start, d, i);
    assert y in Neighbors(width, height, x);
    var e :| y == Add(x, DirVec(e));
    var j :| 0 <= j < n && y == LineCell(start, d, j);
    LineStepApart(start, d, i, j, e);
  }

  /** The outer-boundary neighbours of the i-th cell of an on-board line, when the
      line is the whole outer boundary: the cells just before and just after it. */
  lemma LineNeighbors(width: nat, height: nat, start: Vec, d: Direction, n: nat, i: int)
    requires 0 <= i < n && OnBoard(width, height, LineCell(start, d, i))
    ensures BoundaryNeighbors(width, height, LineCell(start, d, i), StraightLine(start, d, n)) ==
              Beside(start, d, n, i)
  {
    var x := LineCell(start, d, i);
    var line := StraightLine(start, d, n);
    forall y | y in BoundaryNeighbors(width, height, x, line)
      ensures (i > 0 && y == LineCell(start, d, i - 1)) || (i + 1 < n && y == LineCell(start, d, i + 1))
    {
      LineNeighborsWithin(width, height, start, d, n, i, y);
    }
    LineCellNext(start, d, i);
    LineCellPrev(start, d, i);
    if i + 1 < n {
      ShiftIsNeighbor(width, height, x, d);
      assert LineCell(start, d, i + 1) in line;
    }
    if i > 0 {
      ShiftIsNeighbor(width, height, x, Opposite(d));
      assert LineCell(start, d, i - 1) in line;
    }
  }

  /** The cells before and after the i-th cell of a line of n cells. */
  function Beside(start: Vec, d: Direction, n: nat, i: int): set<Vec> {
    (if i > 0 then {LineCell(start, d, i - 1)} else {}) +
    (if i + 1 < n then {LineCell(start, d, i + 1)} else {})
  }

  /** On a line of two or more cells, only the first and the last cell have a single
      cell beside them. */
  lemma BesideCount(start: Vec, d: Direction, n: nat, i: int)
    requires n >= 2 && 0 <= i < n
    ensures |Beside(start, d, n, i)| == 1 <==> i == 0 || i == n - 1
  {
    if 0 < i < n - 1 {
      if LineCell(start, d, i - 1) == LineCell(start, d, i + 1) {
        LineCellInjective(start, d, i - 1, i + 1);
      }
    }
  }

  /** On a line of two or more cells, the i-th cell has a single neighbour on the line
      exactly when it is the first or the last cell. */
  lemma LineEndAt(width: nat, height: nat, start: Vec, d: Direction, n: nat, i: int)
    requires n >= 2 && 0 <= i < n && OnBoard(width, height, LineCell(start, d, i))
    ensures |BoundaryNeighbors(width, height, LineCell(start, d, i), StraightLine(start, d, n))| == 1 <==>
              i == 0 || i == n - 1
  {
    LineNeighbors(width, height, start, d, n, i);
    BesideCount(start, d, n, i);
  }

  lemma EndsAmongMember(width: nat, height: nat, outer: set<Vec>, x: Vec)
    ensures x in EndsAmong(width, height, outer) <==>
              x in outer && |BoundaryNeighbors(width, height, x, outer)| == 1
  {
  }

  /** On a straight on-board line of two or more cells, exactly the two ends have a
      single neighbour on the line. */
  lemma LineEnds(width: nat, height: nat, start: Vec, d: Direction, n: nat)
    requires n >= 2
    requires forall i :: 0 <= i < n ==> OnBoard(width, height, LineCell(start, d, i))
    ensures EndsAmong(width, height, StraightLine(start, d, n)) == {start, LineCell(start, d, n - 1)}
  {
    var ends := EndsAmong(width, height, StraightLine(start, d, n));
    forall x | x in ends
      ensures x == start || x == LineCell(start, d, n - 1)
    {
      LineEndOnly(width, height, start, d, n, x);
    }
    LineEndIn(width, height, start, d, n, 0);
    LineEndIn(width, height, start, d, n, n - 1);
    assert LineCell(start, d, 0) == start;
    PairSet(ends, start, LineCell(start, d, n - 1));
  }

  /** Only the first and the last cell of an on-board line are ends. */
  lemma LineEndOnly(width: nat, height: nat, start: Vec, d: Direction, n: nat, x: Vec)
    requires n >= 2
    requires forall i :: 0 <= i < n ==> OnBoard(width, height, LineCell(start, d, i))
    requires x in EndsAmong(width, height, StraightLine(start, d, n))
    ensures x == start || x == LineCell(start, d, n - 1)
  {
    EndsAmongMember(width, height, StraightLine(start, d, n), x);
    var i :| 0 <= i < n && LineCell(start, d, i) == x;
    LineEndAt(width, height, start, d, n, i);
    assert start == LineCell(start, d, 0);
  }

  /** The first and the last cell of an on-board line of two or more cells are ends. */
  lemma LineEndIn(width: nat, height: nat, start: Vec, d: Direction, n: nat, i: int)
    requires n >= 2 && (i == 0 || i == n - 1) && OnBoard(width, height, LineCell(start, d, i))
    ensures LineCell(start, d, i) in EndsAmong(width, height, StraightLine(start, d, n))
  {
    LineEndAt(width, height, start, d, n, i);
    EndsAmongMember(width, height, StraightLine(start, d, n), LineCell(start, d, i));
  }

  lemma PairSet(s: set<Vec>, a: Vec, b: Vec)
    requires a in s && b in s && forall x :: x in s ==> x == a || x == b
    ensures s == {a, b}
  {
  }

  /** `get('endpoints')` of a shape whose outer boundary is a straight on-board line of
      two or more cells: the two ends of the line. */
  lemma LineEndpoints(width: nat, height: nat, cells: set<Vec>, start: Vec, d: Direction, n: nat)
    requires n >= 2
    requires forall i :: 0 <= i < n ==> OnBoard(width, height, LineCell(start, d, i))
    requires OuterBoundary(width, height, cells) == StraightLine(start, d, n)
    ensures Endpoints(width, height, cells) == {start, LineCell(start, d, n - 1)}
  {
    LineEnds(width, height, start, d, n);
  }
}
