/** Displacements on the hexagonally tiled plane, in cube coordinates (the `_Vec` class). */
module HexVec {
  import opened Wrappers

  datatype Cube = Cube(q: int, r: int, s: int)

  /** A `_Vec`: a cube triple whose components sum to zero. Every value of this type
      keeps the invariant, so each operation below that returns a `Vec` is proved to
      build a triple that sums to zero. */
  type Vec = c: Cube | c.q + c.r + c.s == 0 witness Cube(0, 0, 0)

  const Zero: Vec := Cube(0, 0, 0)

  function Abs(x: int): nat { if x < 0 then -x else x }

  /** `(q - (q % 2)) // 2`, which is the floor of q / 2 (Euclidean `%` by 2 agrees with
      Python's on every integer). */
  function HalfDown(q: int): (h: int)
    ensures 2 * h <= q <= 2 * h + 1
  {
    (q - q % 2) / 2
  }

  /** `_Vec(q, r, s)`: raises unless the components sum to zero. */
  function FromCube(q: int, r: int, s: int): (v: Result<Vec>)
    ensures v.Ok? <==> q + r + s == 0
    ensures v.Ok? ==> v.value.q == q && v.value.r == r && v.value.s == s
    ensures v.Err? ==> v.error == NotZeroSum
  {
    if q + r + s == 0 then Ok(Cube(q, r, -q - r)) else Err(NotZeroSum)
  }

  /** `_Vec(column_diff, row_diff)`: an offset displacement converted to cube form. */
  function FromOffset(columnDiff: int, rowDiff: int): (v: Vec)
    ensures v.q == columnDiff
    ensures v.r + HalfDown(v.q) == rowDiff
  {
    var q := columnDiff;
    var r := rowDiff - HalfDown(q);
    Cube(q, r, -q - r)
  }

  datatype Direction = Up | Down | UpRight | DownRight | DownLeft | UpLeft

  /** The keys of the direction table, in table order. */
  const AllDirections: seq<Direction> := [Up, Down, UpRight, DownRight, DownLeft, UpLeft]

  /** The direction table (an assumption: the table itself is not part of this model). */
  function DirVec(d: Direction): Vec {
    match d
    case Up => Cube(0, -1, 1)
    case Down => Cube(0, 1, -1)
    case UpRight => Cube(1, -1, 0)
    case DownRight => Cube(1, 0, -1)
    case DownLeft => Cube(-1, 1, 0)
    case UpLeft => Cube(-1, 0, 1)
  }

  function Opposite(d: Direction): Direction {
    match d
    case Up => Down
    case Down => Up
    case UpRight => DownLeft
    case DownRight => UpLeft
    case DownLeft => UpRight
    case UpLeft => DownRight
  }

  predicate IsDirection(v: Vec) {
    exists d :: DirVec(d) == v
  }

  function Add(a: Vec, b: Vec): Vec {
    Cube(a.q + b.q, a.r + b.r, a.s + b.s)
  }

  function Sub(a: Vec, b: Vec): Vec {
    Cube(a.q - b.q, a.r - b.r, a.s - b.s)
  }

  function Neg(a: Vec): Vec {
    Cube(-a.q, -a.r, -a.s)
  }

  function Scale(a: Vec, k: int): Vec {
    Cube(k * a.q, k * a.r, k * a.s)
  }

  /** `_norm`: the hex distance (|q| + |r| + |s|) / 2. The Python value is a float; the
      first ensures shows it is always a whole number. */
  function Norm(v: Vec): (n: nat)
    ensures 2 * n == Abs(v.q) + Abs(v.r) + Abs(v.s)
    ensures n == 0 <==> v == Zero
  {
    (Abs(v.q) + Abs(v.r) + Abs(v.s)) / 2
  }

  /** `_has_direction`: q * r * s = 0. */
  predicate HasDirection(v: Vec) {
    v.q * v.r * v.s == 0
  }

  /** The product test of `_has_direction` holds exactly when one coordinate is zero. */
  lemma HasDirectionIff(v: Vec)
    ensures HasDirection(v) <==> (v.q == 0 || v.r == 0 || v.s == 0)
  {
    if v.q != 0 && v.r != 0 && v.s != 0 {
      assert v.q * v.r != 0;
      assert (v.q * v.r) * v.s != 0;
    }
  }

  /** Every entry of the direction table has norm 1, one zero coordinate, and its
      negation in the table; the table is injective. */
  lemma DirectionTable(d: Direction, e: Direction)
    ensures Norm(DirVec(d)) == 1 && HasDirection(DirVec(d))
    ensures DirVec(Opposite(d)) == Neg(DirVec(d)) && Opposite(d) != d
    ensures d in AllDirections
    ensures DirVec(d) == DirVec(e) ==> d == e
  {
    DirectionUnit(d);
    OppositeNeg(d);
    DirVecInjective(d, e);
  }

  /** A table direction moves one cell along an axis. */
  lemma DirectionUnit(d: Direction)
    ensures Norm(DirVec(d)) == 1 && HasDirection(DirVec(d)) && DirVec(d) != Zero
  {
    match d
    case Up =>
    case Down =>
    case UpRight =>
    case DownRight =>
    case DownLeft =>
    case UpLeft =>
  }

  /** The opposite direction is the negated displacement. */
  lemma OppositeNeg(d: Direction)
    ensures DirVec(Opposite(d)) == Neg(DirVec(d)) && Opposite(d) != d
  {
    match d
    case Up =>
    case Down =>
    case UpRight =>
    case DownRight =>
    case DownLeft =>
    case UpLeft =>
  }

  /** Stepping by v and then by -v comes back. */
  lemma AddNegBack(x: Vec, v: Vec)
    ensures Add(Add(x, v), Neg(v)) == x
  {
  }

  /** A step in a direction and one in the opposite direction cancel out. */
  lemma ShiftBack(x: Vec, d: Direction)
    ensures Add(Add(x, DirVec(d)), DirVec(Opposite(d))) == x
  {
    OppositeNeg(d);
    AddNegBack(x, DirVec(d));
  }

  /** Different directions have different displacements. */
  lemma DirVecInjective(d: Direction, e: Direction)
    ensures DirVec(d) == DirVec(e) ==> d == e
  {
    var v, w := DirVec(d), DirVec(e);
    match d
    case Up => assert v.r == -1 && v.s == 1;
    case Down => assert v.r == 1 && v.s == -1;
    case UpRight => assert v.q == 1 && v.r == -1;
    case DownRight => assert v.q == 1 && v.r == 0;
    case DownLeft => assert v.q == -1 && v.r == 1;
    case UpLeft => assert v.q == -1 && v.r == 0;
  }

  lemma DivByNorm(n: int, x: int)
    requires n > 0 && (x == n || x == -n || x == 0)
    ensures x / n == (if x == n then 1 else if x == -n then -1 else 0)
  {
  }

  /** An axis-aligned non-zero vector is its norm times a table direction, and dividing
      each coordinate by the norm gives that direction. */
  lemma AlignedIsScaledDirection(v: Vec)
    requires HasDirection(v) && v != Zero
    ensures exists d :: DirVec(d) == Cube(v.q / Norm(v), v.r / Norm(v), v.s / Norm(v))
                     && v == Scale(DirVec(d), Norm(v))
  {
    HasDirectionIff(v);
    var n := Norm(v);
    var d: Direction;
    if v.q == 0 {
      d := if v.r > 0 then Down else Up;
    } else if v.r == 0 {
      d := if v.q > 0 then DownRight else UpLeft;
    } else {
      d := if v.q > 0 then UpRight else DownLeft;
    }
    DivByNorm(n, v.q);
    DivByNorm(n, v.r);
    DivByNorm(n, v.s);
    assert DirVec(d) == Cube(v.q / n, v.r / n, v.s / n);
  }

  /** `_normalize`: the unit direction of an axis-aligned vector. The source prints a
      message and yields None for a vector off the six axes; for the zero vector its
      float division by 0 yields a non-integer cube, modelled here as None too. */
  function Normalize(v: Vec): (u: Option<Vec>)
    ensures u.Some? <==> HasDirection(v) && v != Zero
    ensures u.Some? ==> IsDirection(u.value) && v == Scale(u.value, Norm(v))
  {
    if HasDirection(v) && v != Zero then
      var n := Norm(v);
      AlignedIsScaledDirection(v);
      var c: Cube := Cube(v.q / n, v.r / n, v.s / n);
      assert c.q + c.r + c.s == 0;
      Some(c)
    else
      None
  }

  /** `_direction_str`: the name of the direction of an axis-aligned vector. */
  function DirectionOf(v: Vec): (d: Option<Direction>)
    ensures d.Some? <==> HasDirection(v) && v != Zero
    ensures d.Some? ==> v == Scale(DirVec(d.value), Norm(v))
  {
    match Normalize(v)
    case None => None
    case Some(u) =>
      var e :| DirVec(e) == u;
      Some(e)
  }

  /** The hex distance obeys the triangle inequality. */
  lemma NormTriangle(a: Vec, b: Vec)
    ensures Norm(Add(a, b)) <= Norm(a) + Norm(b)
  {
    AbsTriangle(a.q, b.q);
    AbsTriangle(a.r, b.r);
    AbsTriangle(a.s, b.s);
  }

  lemma AbsTriangle(x: int, y: int)
    ensures Abs(x + y) <= Abs(x) + Abs(y)
  {
  }

  lemma AbsMul(k: int, x: int)
    ensures Abs(k * x) == Abs(k) * Abs(x)
  {
    if k < 0 && x < 0 {
      assert k * x == (-k) * (-x);
    } else if k < 0 {
      assert -(k * x) == (-k) * x;
    } else if x < 0 {
      assert -(k * x) == k * (-x);
    }
  }

  lemma AbsSumMul(k: nat, a: nat, b: nat, c: nat)
    ensures k * a + k * b + k * c == k * (a + b + c)
  {
  }

  /** Scaling by k multiplies the hex distance by |k|. */
  lemma NormScale(v: Vec, k: int)
    ensures Norm(Scale(v, k)) == Abs(k) * Norm(v)
  {
    AbsMul(k, v.q);
    AbsMul(k, v.r);
    AbsMul(k, v.s);
    AbsSumMul(Abs(k), Abs(v.q), Abs(v.r), Abs(v.s));
    var w := Scale(v, k);
    assert 2 * Norm(w) == Abs(k) * (2 * Norm(v));
  }

  /** Scaling distributes over a sum of factors. */
  lemma ScaleAdd(v: Vec, j: int, k: int)
    ensures Scale(v, j + k) == Add(Scale(v, j), Scale(v, k))
  {
    assert (j + k) * v.q == j * v.q + k * v.q;
    assert (j + k) * v.r == j * v.r + k * v.r;
    assert (j + k) * v.s == j * v.s + k * v.s;
  }

  /** One more step after i steps is i + 1 steps. */
  lemma ScaleStep(v: Vec, i: int)
    ensures Add(Scale(v, i), v) == Scale(v, i + 1)
  {
    assert (i + 1) * v.q == i * v.q + v.q;
    assert (i + 1) * v.r == i * v.r + v.r;
    assert (i + 1) * v.s == i * v.s + v.s;
  }

  lemma AddAssoc(a: Vec, b: Vec, c: Vec)
    ensures Add(Add(a, b), c) == Add(a, Add(b, c))
  {
  }

  /** The headings a copy can be shifted in: a table direction, or right and left,
      which are offset displacements along a row. */
  datatype Heading = Toward(d: Direction) | Right | Left

  /** `scale_shift(direction, k)`: k steps in the heading; right and left are the
      offset displacements `_Vec(k, 0)` and `_Vec(-k, 0)`. */
  function StepVec(h: Heading, k: int): (v: Vec)
    ensures h.Right? ==> v.q == k && v.r + HalfDown(v.q) == 0
    ensures h.Left? ==> v.q == -k && v.r + HalfDown(v.q) == 0
  {
    match h
    case Right => FromOffset(k, 0)
    case Left => FromOffset(-k, 0)
    case Toward(d) => Scale(DirVec(d), k)
  }

  /** No steps in any heading is the zero vector. */
  lemma StepVecZero(h: Heading)
    ensures StepVec(h, 0) == Zero
  {
    match h
    case Toward(d) => assert Scale(DirVec(d), 0) == Zero;
    case Right => assert HalfDown(0) == 0;
    case Left => assert HalfDown(0) == 0;
  }

  /** A non-zero number of steps in any heading moves at least one cell. */
  lemma StepVecNonZero(h: Heading, k: int)
    requires k != 0
    ensures Norm(StepVec(h, k)) >= 1
  {
    match h
    case Toward(d) =>
      DirectionUnit(d);
      NormScale(DirVec(d), k);
    case Right =>
      NonZeroNorm(StepVec(h, k));
    case Left =>
      NonZeroNorm(StepVec(h, k));
  }

  /** k steps in a table direction move exactly |k| cells. */
  lemma StepVecNorm(d: Direction, k: int)
    ensures Norm(StepVec(Toward(d), k)) == Abs(k)
  {
    DirectionUnit(d);
    NormScale(DirVec(d), k);
  }

  lemma NonZeroNorm(v: Vec)
    ensures v.q != 0 ==> Norm(v) >= 1
  {
  }

  /** Python's clipping of a slice bound `i` into a sequence of length n. */
  function SliceBound(n: nat, i: int): (j: nat)
    ensures j <= n
    ensures 0 <= i <= n ==> j == i
    ensures -(n as int) <= i < 0 ==> j == n + i
  {
    if i < 0 then (if n + i < 0 then 0 else n + i) else if i > n then n else i
  }

  /** `cyclic_permutation(ls, k)`: `ls[-k:] + ls[:-k]`. */
  function CyclicPermutation<T>(ls: seq<T>, k: int): (p: seq<T>)
    ensures |p| == |ls|
  {
    var j := SliceBound(|ls|, -k);
    ls[j..] + ls[..j]
  }

  lemma RotationAt<T>(ls: seq<T>, j: nat, x: nat)
    requires j <= |ls| && x < |ls|
    ensures (ls[j..] + ls[..j])[x] == if x < |ls| - j then ls[j + x] else ls[x - (|ls| - j)]
  {
  }

  /** `cyclic_permutation` is a rotation: it permutes the list, and for |k| < len, the
      element at i moves to (i + k) mod len ("element 0 becomes element k"). */
  lemma CyclicPermutationMoves<T>(ls: seq<T>, k: int)
    ensures multiset(CyclicPermutation(ls, k)) == multiset(ls)
    ensures -|ls| < k < |ls| ==>
      forall i :: 0 <= i < |ls| ==> CyclicPermutation(ls, k)[(i + k) % |ls|] == ls[i]
  {
    var n := |ls|;
    var j := SliceBound(n, -k);
    var p := CyclicPermutation(ls, k);
    assert ls == ls[..j] + ls[j..];
    if -n < k < n {
      forall i | 0 <= i < n
        ensures p[(i + k) % n] == ls[i]
      {
        var x := if 0 <= i + k < n then i + k else if i + k >= n then i + k - n else i + k + n;
        ModInRange(i + k, n, x);
        RotationAt(ls, j, x);
      }
    }
  }

  lemma ModInRange(a: int, n: int, x: int)
    requires 0 <= x < n && (a == x || a == x + n || a == x - n)
    ensures a % n == x
  {
  }
}
