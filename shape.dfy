/** Shapes (the `Shape` class): duplicate-free sequences of cubes, their set algebra,
    and the board-wide shapes. */
module Shapes {
  import opened Wrappers
  import opened HexVec
  import opened Hexagon

  predicate NoDup(s: seq<Vec>) {
    forall i, j :: 0 <= i < j < |s| ==> s[i] != s[j]
  }

  function Elems(s: seq<Vec>): set<Vec> {
    set x | x in s
  }

  lemma ElemsConcat(a: seq<Vec>, b: seq<Vec>)
    ensures Elems(a + b) == Elems(a) + Elems(b)
  {
    assert forall x :: x in a + b <==> x in a || x in b;
  }

  /** The de-duplicated sequence that the constructor's loop builds: each cube at its
      first occurrence, in input order. */
  function Dedup(s: seq<Vec>): (d: seq<Vec>)
    ensures NoDup(d) && Elems(d) == Elems(s) && |d| <= |s|
    ensures forall x :: x in d <==> x in s
  {
    if s == [] then []
    else
      var p := Dedup(s[..|s| - 1]);
      var x := s[|s| - 1];
      assert s == s[..|s| - 1] + [x];
      ElemsConcat(s[..|s| - 1], [x]);
      if x in p then p
      else
        ElemsConcat(p, [x]);
        p + [x]
  }

  /** Appending a cell to a sequence appends it to the de-duplication unless it is
      already there. */
  lemma DedupSnoc(s: seq<Vec>, x: Vec)
    ensures Dedup(s + [x]) == if x in Dedup(s) then Dedup(s) else Dedup(s) + [x]
  {
    assert (s + [x])[..|s|] == s;
  }

  /** The index of the first occurrence of x in s. */
  function FirstIndex(s: seq<Vec>, x: Vec): (i: nat)
    requires x in s
    ensures i < |s| && s[i] == x && x !in s[..i]
  {
    if s[0] == x then 0 else 1 + FirstIndex(s[1..], x)
  }

  lemma {:induction false} FirstIndexPrefix(s: seq<Vec>, m: nat, x: Vec)
    requires m <= |s| && x in s[..m]
    ensures FirstIndex(s, x) == FirstIndex(s[..m], x) < m
  {
    if s[0] != x {
      assert s[1..][..m - 1] == s[..m][1..];
      FirstIndexPrefix(s[1..], m - 1, x);
    }
  }

  /** The constructor keeps first occurrences in their input order: the cubes of the
      result appear in the order of their first occurrences in the input. */
  lemma {:induction false} DedupOrder(s: seq<Vec>, k1: nat, k2: nat)
    requires k1 < k2 < |Dedup(s)|
    ensures FirstIndex(s, Dedup(s)[k1]) < FirstIndex(s, Dedup(s)[k2])
  {
    var init := s[..|s| - 1];
    var p := Dedup(init);
    DedupLast(s, p);
    assert p[k1] in init;
    FirstIndexPrefix(s, |s| - 1, p[k1]);
    if k2 < |p| {
      assert p[k2] in init;
      FirstIndexPrefix(s, |s| - 1, p[k2]);
      DedupOrder(init, k1, k2);
    } else {
      FirstIndexLast(s);
    }
  }

  /** One step of the constructor's loop: the result so far is kept as a prefix, and
      a cube is appended only when it is new. */
  lemma DedupLast(s: seq<Vec>, p: seq<Vec>)
    requires s != [] && p == Dedup(s[..|s| - 1])
    ensures |p| <= |Dedup(s)| <= |p| + 1
    ensures forall k :: 0 <= k < |p| ==> Dedup(s)[k] == p[k]
    ensures |Dedup(s)| == |p| + 1 ==> Dedup(s)[|p|] == s[|s| - 1] && s[|s| - 1] !in s[..|s| - 1]
  {
    assert s[|s| - 1] in p <==> s[|s| - 1] in s[..|s| - 1];
  }

  /** A last element that does not occur before is first found at the end. */
  lemma FirstIndexLast(s: seq<Vec>)
    requires s != [] && s[|s| - 1] !in s[..|s| - 1]
    ensures FirstIndex(s, s[|s| - 1]) == |s| - 1
  {
    assert forall j :: 0 <= j < |s| - 1 ==> s[..|s| - 1][j] == s[j];
  }

  /** A duplicate-free sequence is its own de-duplication. */
  lemma {:induction false} DedupOfNoDup(s: seq<Vec>)
    requires NoDup(s)
    ensures Dedup(s) == s
  {
    if s != [] {
      var init := s[..|s| - 1];
      assert NoDup(init);
      DedupOfNoDup(init);
      assert s[|s| - 1] !in init;
      assert s == init + [s[|s| - 1]];
    }
  }

  /** The constructor's loop (`Shape.__init__`): keeps the first hexagon of each cube. */
  method MakeShape(hexagons: seq<Vec>) returns (shape: seq<Vec>)
    ensures shape == Dedup(hexagons)
    ensures NoDup(shape) && Elems(shape) == Elems(hexagons)
  {
    var unique: seq<Vec> := [];
    var i := 0;
    while i < |hexagons|
      invariant 0 <= i <= |hexagons|
      invariant unique == Dedup(hexagons[..i])
    {
      assert hexagons[..i + 1][..i] == hexagons[..i];
      if hexagons[i] !in unique {
        unique := unique + [hexagons[i]];
      }
      i := i + 1;
    }
    assert hexagons[..i] == hexagons;
    shape := unique;
  }

  /** `Shape(..., from_linds=True)`: the hexagons at the given linear indices; the
      source fails on the first index outside the board. */
  function FromLinds(width: nat, height: nat, linds: seq<int>): (r: Result<seq<Vec>>)
    ensures r.Ok? <==> forall k :: 0 <= k < |linds| ==> 0 <= linds[k] < width * height
    ensures r.Err? ==> exists k :: 0 <= k < |linds| && r.error == InvalidIndex(linds[k])
    ensures r.Ok? ==> NoDup(r.value)
    ensures r.Ok? ==> forall c :: c in r.value <==> exists k :: 0 <= k < |linds| && FromLind(width, height, linds[k]) == Some(c)
  {
    match LindsToCubes(width, height, linds)
    case Err(e) => Err(e)
    case Ok(cs) =>
      assert forall c :: c in cs <==> exists k :: 0 <= k < |linds| && FromLind(width, height, linds[k]) == Some(c) by {
        forall c ensures c in cs <==> exists k :: 0 <= k < |linds| && FromLind(width, height, linds[k]) == Some(c) {
          if c in cs {
            var k :| 0 <= k < |cs| && cs[k] == c;
            assert FromLind(width, height, linds[k]) == Some(c);
          }
        }
      }
      Ok(Dedup(cs))
  }

  function LindsToCubes(width: nat, height: nat, linds: seq<int>): (r: Result<seq<Vec>>)
    ensures r.Ok? <==> forall k :: 0 <= k < |linds| ==> 0 <= linds[k] < width * height
    ensures r.Err? ==> exists k :: 0 <= k < |linds| && r.error == InvalidIndex(linds[k])
    ensures r.Ok? ==> |r.value| == |linds|
    ensures r.Ok? ==> forall k :: 0 <= k < |linds| ==> FromLind(width, height, linds[k]) == Some(r.value[k])
  {
    if linds == [] then Ok([])
    else
      match FromLind(width, height, linds[0])
      case None => Err(InvalidIndex(linds[0]))
      case Some(c) =>
        match LindsToCubes(width, height, linds[1..])
        case Err(e) =>
          assert exists k :: 0 <= k < |linds| && e == InvalidIndex(linds[k]) by {
            var k :| 0 <= k < |linds[1..]| && e == InvalidIndex(linds[1..][k]);
            assert linds[1..][k] == linds[k + 1];
          }
          Err(e)
        case Ok(cs) =>
          assert forall k :: 1 <= k < |linds| ==> linds[k] == linds[1..][k - 1];
          Ok([c] + cs)
  }

  /** The cubes of s that b holds (keep) or lacks (not keep), in the order of s. */
  function Filter(s: seq<Vec>, b: set<Vec>, keep: bool): (t: seq<Vec>)
    ensures forall x :: x in t <==> x in s && ((x in b) == keep)
    ensures NoDup(s) ==> NoDup(t)
  {
    if s == [] then []
    else
      var rest := Filter(s[1..], b, keep);
      if (s[0] in b) == keep then
        assert NoDup(s) ==> s[0] !in s[1..];
        [s[0]] + rest
      else rest
  }

  /** `Shape.__add__`: the union of the cube sets (its order is Python's set order,
      which the model does not fix). */
  function Union(a: seq<Vec>, b: seq<Vec>): (u: seq<Vec>)
    ensures NoDup(u) && Elems(u) == Elems(a) + Elems(b)
  {
    ElemsConcat(a, b);
    Dedup(a + b)
  }

  /** `Shape.__mul__`: the intersection of the cube sets. */
  function Intersection(a: seq<Vec>, b: seq<Vec>): (u: seq<Vec>)
    ensures NoDup(u) && Elems(u) == Elems(a) * Elems(b)
  {
    Dedup(Filter(a, Elems(b), true))
  }

  /** `Shape.__sub__`: the difference of the cube sets. */
  function Difference(a: seq<Vec>, b: seq<Vec>): (u: seq<Vec>)
    ensures NoDup(u) && Elems(u) == Elems(a) - Elems(b)
  {
    Dedup(Filter(a, Elems(b), false))
  }

  /** `Shape.overlaps`: the intersection is not empty. */
  function Overlaps(a: seq<Vec>, b: seq<Vec>): (o: bool)
    ensures o <==> exists x :: x in a && x in b
  {
    var i := Intersection(a, b);
    assert i != [] ==> i[0] in i;
    i != []
  }

  /** `Shape._shift`: every cube translated by v. */
  function ShiftShape(s: seq<Vec>, v: Vec): (t: seq<Vec>)
    ensures NoDup(t)
    ensures forall x :: x in t <==> Sub(x, v) in s
    ensures NoDup(s) ==> |t| == |s| && forall i :: 0 <= i < |s| ==> t[i] == Add(s[i], v)
  {
    var moved := seq(|s|, i requires 0 <= i < |s| => Add(s[i], v));
    assert forall x :: x in moved <==> Sub(x, v) in s by {
      forall x ensures x in moved <==> Sub(x, v) in s {
        if Sub(x, v) in s {
          var i :| 0 <= i < |s| && s[i] == Sub(x, v);
          assert moved[i] == x;
        }
      }
    }
    assert NoDup(s) ==> Dedup(moved) == moved by {
      if NoDup(s) {
        assert NoDup(moved);
        DedupOfNoDup(moved);
      }
    }
    Dedup(moved)
  }

  /** `get_entire_board`: every board hexagon, row by row, which is linear-index order. */
  function EntireBoard(width: nat, height: nat): (b: seq<Vec>)
    ensures |b| == width * height && NoDup(b)
    ensures forall i :: 0 <= i < |b| ==> Lind(width, height, b[i]) == Some(i)
    ensures forall c :: c in b <==> OnBoard(width, height, c)
  {
    var b := seq(width * height, i requires 0 <= i < width * height => FromLind(width, height, i).value);
    assert forall i :: 0 <= i < |b| ==> b[i] == FromLind(width, height, i).value;
    IndexedDistinct(width, height, b);
    IndexedCovers(width, height, b);
    b
  }

  /** Cells whose linear indices are their positions are pairwise distinct. */
  lemma IndexedDistinct(width: nat, height: nat, b: seq<Vec>)
    requires forall i :: 0 <= i < |b| ==> Lind(width, height, b[i]) == Some(i)
    ensures NoDup(b)
  {
    forall i, j | 0 <= i < j < |b| ensures b[i] != b[j] {
      assert Lind(width, height, b[i]) != Lind(width, height, b[j]);
    }
  }

  /** The sequence of all linear indices' cells holds exactly the board. */
  lemma IndexedCovers(width: nat, height: nat, b: seq<Vec>)
    requires |b| == width * height
    requires forall i :: 0 <= i < |b| ==> b[i] == FromLind(width, height, i).value
    ensures forall c :: c in b <==> OnBoard(width, height, c)
  {
    forall c | OnBoard(width, height, c) ensures c in b {
      LindRoundTrip(width, height, c);
      assert b[Lind(width, height, c).value] == c;
    }
  }

  function BoardSet(width: nat, height: nat): (b: set<Vec>)
    ensures forall c :: c in b <==> OnBoard(width, height, c)
  {
    Elems(EntireBoard(width, height))
  }

  predicate OnRim(width: nat, height: nat, c: Vec) {
    Column(c) == 1 || Column(c) == width || Row(c) == 1 || Row(c) == height
  }

  /** `get_board_perimeter`: the board hexagons in the first or last column or row. */
  function Perimeter(width: nat, height: nat): (p: seq<Vec>)
    ensures NoDup(p)
    ensures forall c :: c in p <==> OnBoard(width, height, c) && OnRim(width, height, c)
  {
    var rim := set c | c in EntireBoard(width, height) && OnRim(width, height, c);
    Filter(EntireBoard(width, height), rim, true)
  }

  /** `Tile(column, row)` for row = 1 .. height. */
  function ColumnTiles(width: nat, height: nat, column: int): (cells: seq<Vec>)
    ensures |cells| == height
  {
    seq(height, i requires 0 <= i < height => TileCell(width, height, column, i + 1))
  }

  /** The tile of row i + 1 in a column. */
  lemma ColumnTileAt(width: nat, height: nat, column: int, i: nat)
    requires i < height
    ensures Row(ColumnTiles(width, height, column)[i]) == i + 1
    ensures Column(ColumnTiles(width, height, column)[i]) == column % (width + 1)
  {
    assert ColumnTiles(width, height, column)[i] == TileCell(width, height, column, i + 1);
  }

  lemma ColumnTilesFacts(width: nat, height: nat, column: int)
    ensures NoDup(ColumnTiles(width, height, column))
    ensures forall i :: 0 <= i < height ==>
      Row(ColumnTiles(width, height, column)[i]) == i + 1 &&
      Column(ColumnTiles(width, height, column)[i]) == Column(TileCell(width, height, column, 1))
    ensures 1 <= column <= width ==>
      forall c :: c in ColumnTiles(width, height, column) <==> OnBoard(width, height, c) && Column(c) == column
  {
    var cells := ColumnTiles(width, height, column);
    forall i | 0 <= i < height
      ensures Row(cells[i]) == i + 1 && Column(cells[i]) == column % (width + 1)
    {
      ColumnTileAt(width, height, column, i);
    }
    if 1 <= column <= width {
      ModBelow(column, width + 1);
      forall c | OnBoard(width, height, c) && Column(c) == column ensures c in cells {
        var k := Row(c) - 1;
        CubeRoundTrip(c);
        CubeRoundTrip(cells[k]);
      }
    }
  }

  /** `get_column`: `Tile(column, row)` for every row; the column is reduced modulo
      width + 1 as `Tile` does. */
  function ColumnCells(width: nat, height: nat, column: int): (col: seq<Vec>)
    ensures |col| == height && NoDup(col)
    ensures forall i :: 0 <= i < height ==>
      Row(col[i]) == i + 1 && Column(col[i]) == Column(TileCell(width, height, column, 1))
    ensures 1 <= column <= width ==> forall c :: c in col <==> OnBoard(width, height, c) && Column(c) == column
  {
    ColumnTilesFacts(width, height, column);
    DedupOfNoDup(ColumnTiles(width, height, column));
    Dedup(ColumnTiles(width, height, column))
  }
}
