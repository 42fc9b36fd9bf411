/** The `Triangle` generator: three equal edges walked from one vertex. */
module Triangles {
  import opened HexVec
  import opened Hexagon
  import opened Shapes

  /** Which way the triangle points. */
  datatype Point = PointsLeft | PointsRight

  /** Which vertex of the triangle the start tile is. */
  datatype StartVertex = SideVertex | TopVertex | BottomVertex

  /** The edge directions of each way of pointing, beginning at the side vertex. */
  function EdgeDirections(p: Point): seq<Direction> {
    match p
    case PointsLeft => [UpRight, Down, UpLeft]
    case PointsRight => [UpLeft, Down, UpRight]
  }

  /** The position of the vertex kind in the list side, top, bottom. */
  function VertexIndex(t: StartVertex): nat {
    match t
    case SideVertex => 0
    case TopVertex => 1
    case BottomVertex => 2
  }

  /** The edge directions in walking order: the table's list passed through
      `cyclic_permutation` with minus the vertex's position, so that the walk begins with
      the edge that leaves the start vertex. */
  function TriangleDirections(p: Point, t: StartVertex): (dirs: seq<Direction>)
    ensures |dirs| == 3
    ensures dirs[0] == EdgeDirections(p)[VertexIndex(t)]
  {
    CyclicPermutation(EdgeDirections(p), -(VertexIndex(t) as int))
  }

  /** The displacement of one step along each edge, in walking order. */
  function EdgeVectors(p: Point, t: StartVertex): (steps: seq<Vec>)
    ensures |steps| == 3
  {
    var dirs := TriangleDirections(p, t);
    [DirVec(dirs[0]), DirVec(dirs[1]), DirVec(dirs[2])]
  }

  /** The number of steps along each edge: `side_length - 1`, and none when that is not
      positive. */
  function SideSteps(sideLength: int): nat {
    if sideLength > 1 then sideLength - 1 else 0
  }

  /** The displacement along each whole edge of m steps. */
  function Sides(steps: seq<Vec>, m: nat): (sides: seq<Vec>)
    ensures |sides| == |steps|
  {
    seq(|steps|, i requires 0 <= i < |steps| => Scale(steps[i], m))
  }

  /** The point reached after the first e whole edges. */
  function Corner(start: Vec, sides: seq<Vec>, e: nat): Vec
    requires e <= |sides|
  {
    if e == 0 then start else Add(Corner(start, sides, e - 1), sides[e - 1])
  }

  /** The j-th tile appended on edge e. */
  function EdgeCell(start: Vec, steps: seq<Vec>, m: nat, e: nat, j: int): Vec
    requires e < |steps|
  {
    Add(Corner(start, Sides(steps, m), e), Scale(steps[e], j))
  }

  /** The e-th vertex of the triangle: the start tile, then the end of each edge. */
  function Vertex(start: Vec, p: Point, t: StartVertex, sideLength: int, e: nat): Vec
    requires e <= 3
  {
    Corner(start, Sides(EdgeVectors(p, t), SideSteps(sideLength)), e)
  }

  /** The tiles the loops of `Triangle` append on the first e edges, in order. */
  function TrianglePath(start: Vec, steps: seq<Vec>, m: nat, e: nat): (path: seq<Vec>)
    requires e <= |steps|
    ensures |path| == e * m
  {
    if e == 0 then []
    else
      var edge := seq(m, j requires 0 <= j < m => EdgeCell(start, steps, m, e - 1, j));
      assert (e - 1) * m + m == e * m;
      TrianglePath(start, steps, m, e - 1) + edge
  }

  /** `Triangle(start_tile, point, start_tile_type, side_length)`: the tiles of the three
      edges, de-duplicated by the `Shape` constructor. */
  function TriangleOf(start: Vec, p: Point, t: StartVertex, sideLength: int): seq<Vec> {
    Dedup(TrianglePath(start, EdgeVectors(p, t), SideSteps(sideLength), 3))
  }

  /** `Triangle.__init__`: the nested loops as the source runs them, appending the
      current tile and moving it to its neighbour in the edge's direction. */
  method Triangle(start: Vec, p: Point, t: StartVertex, sideLength: int) returns (shape: seq<Vec>)
    ensures shape == TriangleOf(start, p, t, sideLength)
  {
    var dirs := TriangleDirections(p, t);
    ghost var steps := EdgeVectors(p, t);
    var m := SideSteps(sideLength);
    ghost var sides := Sides(steps, m);
    var tiles: seq<Vec> := [];
    var tile := start;
    for e := 0 to 3
      invariant tiles == TrianglePath(start, steps, m, e)
      invariant tile == Corner(start, sides, e)
    {
      var dir := DirVec(dirs[e]);
      assert dir == steps[e];
      for j := 0 to m
        invariant tiles == TrianglePath(start, steps, m, e) +
                           seq(j, i requires 0 <= i < j => EdgeCell(start, steps, m, e, i))
        invariant tile == EdgeCell(start, steps, m, e, j)
      {
        tiles := tiles + [tile];
        ScaleStep(dir, j);
        AddAssoc(Corner(start, sides, e), Scale(dir, j), dir);
        tile := Add(tile, dir);
      }
      assert Corner(start, sides, e + 1) == EdgeCell(start, steps, m, e, m);
    }
    shape := MakeShape(tiles);
  }

  /** m steps each way around the triangle add up to nothing. */
  lemma ScaleSumZero(a: Vec, b: Vec, c: Vec, m: int)
    requires Add(Add(a, b), c) == Zero
    ensures Add(Add(Scale(a, m), Scale(b, m)), Scale(c, m)) == Zero
  {
    assert m * a.q + m * b.q + m * c.q == m * (a.q + b.q + c.q);
    assert m * a.r + m * b.r + m * c.r == m * (a.r + b.r + c.r);
    assert m * a.s + m * b.s + m * c.s == m * (a.s + b.s + c.s);
  }

  /** The walking order of the edges for each vertex kind, left- and right-pointing. */
  lemma DirectionsTable(t: StartVertex)
    ensures (TriangleDirections(PointsLeft, t), TriangleDirections(PointsRight, t)) ==
      match t
      case SideVertex => ([UpRight, Down, UpLeft], [UpLeft, Down, UpRight])
      case TopVertex => ([Down, UpLeft, UpRight], [Down, UpRight, UpLeft])
      case BottomVertex => ([UpLeft, UpRight, Down], [UpRight, UpLeft, Down])
  {
    var l, r := EdgeDirections(PointsLeft), EdgeDirections(PointsRight);
    match t
    case SideVertex =>
      assert l[0..] + l[..0] == l;
      assert r[0..] + r[..0] == r;
    case TopVertex =>
      assert l[1..] + l[..1] == [Down, UpLeft, UpRight];
      assert r[1..] + r[..1] == [Down, UpRight, UpLeft];
    case BottomVertex =>
      assert l[2..] + l[..2] == [UpLeft, UpRight, Down];
      assert r[2..] + r[..2] == [UpRight, UpLeft, Down];
  }

  /** The three edge directions of a triangle sum to zero. */
  lemma DirectionsSum(p: Point, t: StartVertex)
    ensures var steps := EdgeVectors(p, t);
      Add(Add(steps[0], steps[1]), steps[2]) == Zero
  {
    DirectionsTable(t);
    var dirs := TriangleDirections(p, t);
    var l, r := TriangleDirections(PointsLeft, t), TriangleDirections(PointsRight, t);
    var ur, dn, ul := Cube(1, -1, 0), Cube(0, 1, -1), Cube(-1, 0, 1);
    match t
    case SideVertex =>
      assert l == [UpRight, Down, UpLeft] && r == [UpLeft, Down, UpRight];
      assert Add(Add(ur, dn), ul) == Zero && Add(Add(ul, dn), ur) == Zero;
    case TopVertex =>
      assert l == [Down, UpLeft, UpRight] && r == [Down, UpRight, UpLeft];
      assert Add(Add(dn, ul), ur) == Zero && Add(Add(dn, ur), ul) == Zero;
    case BottomVertex =>
      assert l == [UpLeft, UpRight, Down] && r == [UpRight, UpLeft, Down];
      assert Add(Add(ul, ur), dn) == Zero && Add(Add(ur, ul), dn) == Zero;
  }

  /** The point after three edges, written out edge by edge. */
  lemma CornerThree(start: Vec, sides: seq<Vec>)
    requires |sides| == 3
    ensures Corner(start, sides, 3) == Add(Add(Add(start, sides[0]), sides[1]), sides[2])
  {
    assert Corner(start, sides, 1) == Add(start, sides[0]);
  }

  /** Three moves that cancel out lead back to where they began. */
  lemma ReturnsHome(start: Vec, a: Vec, b: Vec, c: Vec)
    requires Add(Add(a, b), c) == Zero
    ensures Add(Add(Add(start, a), b), c) == start
  {
  }

  /** The triangle is closed: after its three edges the walk is back at the start. */
  lemma TriangleCloses(start: Vec, p: Point, t: StartVertex, sideLength: int)
    ensures Vertex(start, p, t, sideLength, 3) == start
  {
    var steps := EdgeVectors(p, t);
    var m := SideSteps(sideLength);
    var sides := Sides(steps, m);
    DirectionsSum(p, t);
    ScaleSumZero(steps[0], steps[1], steps[2], m);
    CornerThree(start, sides);
    ReturnsHome(start, sides[0], sides[1], sides[2]);
  }

  /** Every edge joins two vertices side_length - 1 apart, so the triangle is
      equilateral. */
  lemma TriangleSides(start: Vec, p: Point, t: StartVertex, sideLength: int, e: nat)
    requires e < 3
    ensures Norm(Diff(Vertex(start, p, t, sideLength, e + 1), Vertex(start, p, t, sideLength, e))) == SideSteps(sideLength)
  {
    var dirs, steps := TriangleDirections(p, t), EdgeVectors(p, t);
    var m := SideSteps(sideLength);
    var sides := Sides(steps, m);
    StepVecNorm(dirs[e], m);
    assert steps[e] == DirVec(dirs[e]);
    assert Diff(Corner(start, sides, e + 1), Corner(start, sides, e)) == StepVec(Toward(dirs[e]), m);
  }

  /** The tiles of the first n edges are exactly the first m cells of each. */
  lemma {:induction false} PathMember(start: Vec, steps: seq<Vec>, m: nat, n: nat, x: Vec)
    requires n <= |steps|
    ensures x in TrianglePath(start, steps, m, n) <==>
              exists e, j :: 0 <= e < n && 0 <= j < m && x == EdgeCell(start, steps, m, e, j)
  {
    if n > 0 {
      PathMember(start, steps, m, n - 1, x);
      var edge := seq(m, j requires 0 <= j < m => EdgeCell(start, steps, m, n - 1, j));
      assert TrianglePath(start, steps, m, n) == TrianglePath(start, steps, m, n - 1) + edge;
      if exists e, j :: 0 <= e < n && 0 <= j < m && x == EdgeCell(start, steps, m, e, j) {
        var e, j :| 0 <= e < n && 0 <= j < m && x == EdgeCell(start, steps, m, e, j);
        if e == n - 1 {
          assert edge[j] == x;
        }
      }
    }
  }

  /** A cell belongs to the triangle exactly when it is one of the first
      side_length - 1 cells of one of its three edges. */
  lemma TriangleMembers(start: Vec, p: Point, t: StartVertex, sideLength: int, x: Vec)
    ensures x in TriangleOf(start, p, t, sideLength) <==>
              exists e, j :: 0 <= e < 3 && 0 <= j < SideSteps(sideLength) &&
                             x == EdgeCell(start, EdgeVectors(p, t), SideSteps(sideLength), e, j)
  {
    PathMember(start, EdgeVectors(p, t), SideSteps(sideLength), 3, x);
  }

  /** The reflection of a displacement in the vertical axis: up and down stay, and
      each left-leaning direction swaps with its right-leaning partner. */
  function Mirror(v: Vec): Vec {
    Cube(-v.q, -v.s, -v.r)
  }

  /** The reflection of x in the vertical axis through c: c plus the mirror image of
      x - c, written out by component. */
  function MirrorAbout(c: Vec, x: Vec): Vec {
    Cube(2 * c.q - x.q, c.r + c.s - x.s, c.r + c.s - x.r)
  }

  /** Moving an even number of columns moves the half-column by half of it. */
  lemma HalfDownShift(x: int, k: int)
    ensures HalfDown(x + 2 * k) == HalfDown(x) + k
  {
  }

  /** Reflecting through c keeps the row and reflects the column about c's column:
      it is the mirror image across the vertical board line through c. Reflecting
      twice gives back the cell. */
  lemma MirrorOffset(c: Vec, x: Vec)
    ensures Column(MirrorAbout(c, x)) == 2 * Column(c) - Column(x)
    ensures Row(MirrorAbout(c, x)) == Row(x)
    ensures MirrorAbout(c, MirrorAbout(c, x)) == x
  {
    HalfDownShift(x.q, c.q - x.q);
  }

  /** The mirror of a left-pointing triangle's edge step is the right-pointing
      triangle's. */
  lemma MirrorDirections(t: StartVertex, e: nat)
    requires e < 3
    ensures Mirror(EdgeVectors(PointsLeft, t)[e]) == EdgeVectors(PointsRight, t)[e]
  {
    DirectionsTable(t);
    var l, r := TriangleDirections(PointsLeft, t), TriangleDirections(PointsRight, t);
    assert (l[e] == UpRight && r[e] == UpLeft) || (l[e] == UpLeft && r[e] == UpRight) || (l[e] == Down && r[e] == Down);
  }

  /** Mirroring commutes with scaling. */
  lemma MirrorScale(v: Vec, k: int)
    ensures Mirror(Scale(v, k)) == Scale(Mirror(v), k)
  {
    assert k * (-v.q) == -(k * v.q);
    assert k * (-v.r) == -(k * v.r);
    assert k * (-v.s) == -(k * v.s);
  }

  /** A mirrored move from a mirrored point ends at the mirrored point. */
  lemma MirrorMove(c: Vec, y: Vec, w: Vec)
    ensures MirrorAbout(c, Add(y, w)) == Add(MirrorAbout(c, y), Mirror(w))
  {
  }

  /** Each edge of r is the mirror image of the same edge of l. */
  predicate MirroredSides(l: seq<Vec>, r: seq<Vec>) {
    |l| == |r| && forall i :: 0 <= i < |l| ==> Mirror(l[i]) == r[i]
  }

  /** One mirrored edge from mirrored points ends at mirrored points. */
  lemma MirroredCorner(start: Vec, l: seq<Vec>, r: seq<Vec>, e: nat)
    requires MirroredSides(l, r) && 0 < e <= |l|
    requires Corner(start, r, e - 1) == MirrorAbout(start, Corner(start, l, e - 1))
    ensures Corner(start, r, e) == MirrorAbout(start, Corner(start, l, e))
  {
    MirrorMove(start, Corner(start, l, e - 1), l[e - 1]);
  }

  /** The centre of a reflection is its own image. */
  lemma MirrorFixed(c: Vec)
    ensures MirrorAbout(c, c) == c
  {
  }

  /** A walk along the mirrored edges reaches the mirrored points. */
  lemma {:induction false} MirroredCorners(start: Vec, l: seq<Vec>, r: seq<Vec>, e: nat)
    requires MirroredSides(l, r) && e <= |l|
    ensures Corner(start, r, e) == MirrorAbout(start, Corner(start, l, e))
  {
    if e == 0 {
      MirrorFixed(start);
    } else {
      MirroredCorners(start, l, r, e - 1);
      MirroredCorner(start, l, r, e);
    }
  }

  /** The vertices of the right-pointing triangle mirror those of the left-pointing
      one with the same start. */
  lemma MirrorVertex(start: Vec, t: StartVertex, sideLength: int, e: nat)
    requires e <= 3
    ensures Vertex(start, PointsRight, t, sideLength, e) ==
              MirrorAbout(start, Vertex(start, PointsLeft, t, sideLength, e))
  {
    var m := SideSteps(sideLength);
    var l, r := EdgeVectors(PointsLeft, t), EdgeVectors(PointsRight, t);
    forall i | 0 <= i < 3
      ensures Mirror(Sides(l, m)[i]) == Sides(r, m)[i]
    {
      MirrorDirections(t, i);
      MirrorScale(l[i], m);
    }
    MirroredCorners(start, Sides(l, m), Sides(r, m), e);
  }

  /** So do the edge cells. */
  lemma MirrorEdgeCell(start: Vec, t: StartVertex, sideLength: int, e: nat, j: int)
    requires e < 3
    ensures var m := SideSteps(sideLength);
      EdgeCell(start, EdgeVectors(PointsRight, t), m, e, j) ==
        MirrorAbout(start, EdgeCell(start, EdgeVectors(PointsLeft, t), m, e, j))
  {
    var l := EdgeVectors(PointsLeft, t);
    MirrorVertex(start, t, sideLength, e);
    MirrorDirections(t, e);
    MirrorScale(l[e], j);
    MirrorMove(start, Vertex(start, PointsLeft, t, sideLength, e), Scale(l[e], j));
  }

  /** Triangles pointing left and right from the same start tile, vertex kind and side
      length are mirror images of each other across the vertical line through the start
      tile. */
  lemma TriangleMirror(start: Vec, t: StartVertex, sideLength: int, x: Vec)
    ensures x in TriangleOf(start, PointsRight, t, sideLength) <==>
              MirrorAbout(start, x) in TriangleOf(start, PointsLeft, t, sideLength)
  {
    var m := SideSteps(sideLength);
    var l, r := EdgeVectors(PointsLeft, t), EdgeVectors(PointsRight, t);
    var y := MirrorAbout(start, x);
    TriangleMembers(start, PointsRight, t, sideLength, x);
    TriangleMembers(start, PointsLeft, t, sideLength, y);
    MirrorOffset(start, x);
    if x in TriangleOf(start, PointsRight, t, sideLength) {
      var e, j :| 0 <= e < 3 && 0 <= j < m && x == EdgeCell(start, r, m, e, j);
      MirrorEdgeCell(start, t, sideLength, e, j);
      MirrorOffset(start, EdgeCell(start, l, m, e, j));
    }
    if y in TriangleOf(start, PointsLeft, t, sideLength) {
      var e, j :| 0 <= e < 3 && 0 <= j < m && y == EdgeCell(start, l, m, e, j);
      MirrorEdgeCell(start, t, sideLength, e, j);
    }
  }
}
