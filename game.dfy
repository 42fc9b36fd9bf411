/** The board context `HexagonsGame` and the operations that paint on it: `_draw`,
    `Shape.draw`, `recolor`, `copy_paste`, `_compute_shift_from_spacing` and `grid`.
    The pure functions on `Board` values specify the methods of the class. */
module Game {
  import opened Wrappers
  import opened HexVec
  import opened Hexagon
  import opened Shapes

  /** A snapshot of the context: the colour id of every board cell in linear-index
      order, the recorded hexagons of every step, and the step being recorded. */
  datatype Board = Board(cells: seq<int>, drawn: map<string, seq<Vec>>, step: Option<string>)

  /** The context's invariant: one colour per board cell, an `'all'` record, and a
      record for the open step. */
  predicate ValidBoard(width: nat, height: nat, b: Board) {
    |b.cells| == width * height && "all" in b.drawn && (b.step.Some? ==> b.step.value in b.drawn)
  }

  /** The colour id a hexagon reads: its board cell's, or 0 (white) off the board,
      where a fresh hexagon's saved colour is 0. */
  function ColorAt(width: nat, height: nat, b: Board, c: Vec): int {
    match Lind(width, height, c)
    case Some(i) => if i < |b.cells| then b.cells[i] else 0
    case None => 0
  }

  /** Different board cells have different linear indices. */
  lemma LindInjective(width: nat, height: nat, c: Vec, x: Vec)
    requires OnBoard(width, height, c) && OnBoard(width, height, x) && c != x
    ensures Lind(width, height, c) != Lind(width, height, x)
  {
    LindRoundTrip(width, height, c);
    LindRoundTrip(width, height, x);
  }

  /** `start(width, height)`: every cell white, only the `'all'` record, no open step. */
  function Initial(width: nat, height: nat): (b: Board)
    ensures ValidBoard(width, height, b)
    ensures forall c :: ColorAt(width, height, b, c) == 0
    ensures b.drawn == map["all" := []] && b.step == None
  {
    Board(seq(width * height, _ => 0), map["all" := []], None)
  }

  /** The colour test of `get_color`: the given colour id, or, with none (`'all'` or
      `'any'`), any colour but white (id 0). */
  predicate HasColor(width: nat, height: nat, b: Board, x: Vec, color: Option<int>) {
    if color.Some? then ColorAt(width, height, b, x) == color.value else ColorAt(width, height, b, x) != 0
  }

  /** `get_color(color)`: the board cells that pass the colour test, in board order. */
  function CellsOfColor(width: nat, height: nat, b: Board, color: Option<int>): (r: seq<Vec>)
    ensures NoDup(r)
    ensures forall x :: x in r <==> OnBoard(width, height, x) && HasColor(width, height, b, x, color)
  {
    var board := EntireBoard(width, height);
    Filter(board, set x | x in board && HasColor(width, height, b, x, color), true)
  }

  /** On a fresh board every cell is white: no cell is coloured and every cell is
      white. */
  lemma FreshBoardColors(width: nat, height: nat)
    ensures forall x :: x !in CellsOfColor(width, height, Initial(width, height), None)
    ensures forall x :: x in CellsOfColor(width, height, Initial(width, height), Some(0)) <==> OnBoard(width, height, x)
  {
  }

  /** `record_step(name)`: a fresh empty record under the name, which becomes the open
      step. */
  function RecordStepState(width: nat, height: nat, b: Board, name: string): (r: Board)
    requires ValidBoard(width, height, b)
    ensures ValidBoard(width, height, r)
    ensures forall c :: ColorAt(width, height, r, c) == ColorAt(width, height, b, c)
    ensures r.drawn.Keys == b.drawn.Keys + {name}
    ensures r.step == Some(name) && r.drawn[name] == []
    ensures forall k :: k in b.drawn && k != name ==> r.drawn[k] == b.drawn[k]
  {
    Board(b.cells, b.drawn[name := []], Some(name))
  }

  /** The records after drawing c: c is appended to `'all'` and then to the open
      step's record (so twice to `'all'` when the open step is `'all'`). */
  function Logged(drawn: map<string, seq<Vec>>, step: Option<string>, c: Vec): (d: map<string, seq<Vec>>)
    requires "all" in drawn && (step.Some? ==> step.value in drawn)
  {
    var all := drawn["all" := drawn["all"] + [c]];
    if step.Some? then all[step.value := all[step.value] + [c]] else all
  }

  /** Drawing grows exactly the `'all'` record and the open step's record by c. */
  lemma LoggedSpec(drawn: map<string, seq<Vec>>, step: Option<string>, c: Vec)
    requires "all" in drawn && (step.Some? ==> step.value in drawn)
    ensures Logged(drawn, step, c).Keys == drawn.Keys
    ensures step != Some("all") ==> Logged(drawn, step, c)["all"] == drawn["all"] + [c]
    ensures step == Some("all") ==> Logged(drawn, step, c)["all"] == drawn["all"] + [c, c]
    ensures step.Some? && step.value != "all" ==>
              Logged(drawn, step, c)[step.value] == drawn[step.value] + [c]
    ensures forall k :: k in drawn && k != "all" && step != Some(k) ==> Logged(drawn, step, c)[k] == drawn[k]
  {
  }

  /** `_draw(color)`: the cell takes the colour if it is on the board (off the board
      only the hexagon's own saved colour changes), and the drawing is recorded. */
  function DrawState(width: nat, height: nat, b: Board, c: Vec, color: int): (r: Board)
    requires ValidBoard(width, height, b)
    ensures ValidBoard(width, height, r) && r.step == b.step
    ensures r.drawn == Logged(b.drawn, b.step, c)
    ensures forall x :: ColorAt(width, height, r, x) ==
              if x == c && OnBoard(width, height, c) then color else ColorAt(width, height, b, x)
  {
    match Lind(width, height, c)
    case Some(i) =>
      var r := Board(b.cells[i := color], Logged(b.drawn, b.step, c), b.step);
      assert forall x :: ColorAt(width, height, r, x) ==
               if x == c && OnBoard(width, height, c) then color else ColorAt(width, height, b, x) by {
        forall x ensures ColorAt(width, height, r, x) ==
                           if x == c && OnBoard(width, height, c) then color else ColorAt(width, height, b, x) {
          if x != c && OnBoard(width, height, x) {
            LindInjective(width, height, c, x);
          }
        }
      }
      r
    case None => Board(b.cells, Logged(b.drawn, b.step, c), b.step)
  }

  /** `Shape.draw(color)`: every hexagon of the shape drawn in turn. */
  function DrawAllState(width: nat, height: nat, b: Board, shape: seq<Vec>, color: int): (r: Board)
    requires ValidBoard(width, height, b)
    decreases |shape|
    ensures ValidBoard(width, height, r) && r.step == b.step && r.drawn.Keys == b.drawn.Keys
    ensures forall x :: ColorAt(width, height, r, x) ==
              if x in shape && OnBoard(width, height, x) then color else ColorAt(width, height, b, x)
  {
    if shape == [] then b
    else
      LoggedSpec(b.drawn, b.step, shape[0]);
      assert forall x :: x in shape <==> x == shape[0] || x in shape[1..];
      DrawAllState(width, height, DrawState(width, height, b, shape[0], color), shape[1..], color)
  }

  /** Each cube of s twice in a row: what `'all'` receives when the open step is
      itself `'all'`. */
  function Doubled(s: seq<Vec>): (t: seq<Vec>)
    ensures |t| == 2 * |s|
    ensures forall x :: x in t <==> x in s
  {
    var t := seq(2 * |s|, i requires 0 <= i < 2 * |s| => s[i / 2]);
    assert forall i :: 0 <= i < |s| ==> t[2 * i] == s[i];
    t
  }

  /** De-duplication does not see the doubling. */
  lemma {:induction false} DedupDoubled(s: seq<Vec>)
    decreases |s|
    ensures Dedup(Doubled(s)) == Dedup(s)
  {
    if s != [] {
      var init := s[..|s| - 1];
      var x := s[|s| - 1];
      var t := Doubled(init);
      DedupDoubled(init);
      assert Doubled(s) == (t + [x]) + [x];
      assert s == init + [x];
      DedupSnoc(t + [x], x);
      DedupSnoc(t, x);
      DedupSnoc(init, x);
    }
  }

  /** Drawing a shape appends it to `'all'` and to the open step's record, and leaves
      every other record as it was; when the open step is `'all'` itself, each cube
      goes to `'all'` twice. */
  lemma DrawAllLog(width: nat, height: nat, b: Board, shape: seq<Vec>, color: int)
    requires ValidBoard(width, height, b)
    ensures b.step != Some("all") ==> DrawAllState(width, height, b, shape, color).drawn["all"] == b.drawn["all"] + shape
    ensures b.step == Some("all") ==>
              DrawAllState(width, height, b, shape, color).drawn["all"] == b.drawn["all"] + Doubled(shape)
    ensures b.step.Some? && b.step.value != "all" ==>
              DrawAllState(width, height, b, shape, color).drawn[b.step.value] == b.drawn[b.step.value] + shape
    ensures forall k :: k in b.drawn && k != "all" && b.step != Some(k) ==>
              DrawAllState(width, height, b, shape, color).drawn[k] == b.drawn[k]
  {
    if b.step == Some("all") {
      DrawAllLogDoubled(width, height, b, shape, color);
    } else {
      DrawAllLogSingle(width, height, b, shape, color);
    }
  }

  lemma {:induction false} DrawAllLogSingle(width: nat, height: nat, b: Board, shape: seq<Vec>, color: int)
    requires ValidBoard(width, height, b) && b.step != Some("all")
    decreases |shape|
    ensures DrawAllState(width, height, b, shape, color).drawn["all"] == b.drawn["all"] + shape
    ensures b.step.Some? ==> DrawAllState(width, height, b, shape, color).drawn[b.step.value] ==
                              b.drawn[b.step.value] + shape
    ensures forall k :: k in b.drawn && k != "all" && b.step != Some(k) ==>
              DrawAllState(width, height, b, shape, color).drawn[k] == b.drawn[k]
  {
    if shape != [] {
      var b1 := DrawState(width, height, b, shape[0], color);
      LoggedSpec(b.drawn, b.step, shape[0]);
      DrawAllLogSingle(width, height, b1, shape[1..], color);
      assert shape == [shape[0]] + shape[1..];
      assert b.drawn["all"] + shape == b1.drawn["all"] + shape[1..];
      if b.step.Some? {
        assert b.drawn[b.step.value] + shape == b1.drawn[b.step.value] + shape[1..];
      }
    }
  }

  lemma {:induction false} DrawAllLogDoubled(width: nat, height: nat, b: Board, shape: seq<Vec>, color: int)
    requires ValidBoard(width, height, b) && b.step == Some("all")
    decreases |shape|
    ensures DrawAllState(width, height, b, shape, color).drawn["all"] == b.drawn["all"] + Doubled(shape)
    ensures forall k :: k in b.drawn && k != "all" ==>
              DrawAllState(width, height, b, shape, color).drawn[k] == b.drawn[k]
  {
    if shape != [] {
      var b1 := DrawState(width, height, b, shape[0], color);
      LoggedSpec(b.drawn, b.step, shape[0]);
      DrawAllLogDoubled(width, height, b1, shape[1..], color);
      assert Doubled(shape) == [shape[0], shape[0]] + Doubled(shape[1..]);
      assert b.drawn["all"] + Doubled(shape) == b1.drawn["all"] + Doubled(shape[1..]);
    }
  }

  /** The hexagons recorded under the given step names, concatenated in order; the
      first name never recorded raises. */
  function Gathered(drawn: map<string, seq<Vec>>, names: seq<string>): (r: Result<seq<Vec>>)
    ensures r.Ok? <==> forall i :: 0 <= i < |names| ==> names[i] in drawn
    ensures r.Err? ==> exists i :: 0 <= i < |names| && names[i] !in drawn && r.error == UnknownStep(names[i]) &&
                         forall j :: 0 <= j < i ==> names[j] in drawn
    ensures r.Ok? ==> forall x :: x in r.value <==> exists i :: 0 <= i < |names| && x in drawn[names[i]]
  {
    if names == [] then Ok([])
    else
      var init := names[..|names| - 1];
      var last := names[|names| - 1];
      assert forall i :: 0 <= i < |init| ==> init[i] == names[i];
      match Gathered(drawn, init)
      case Err(e) => Err(e)
      case Ok(hs) =>
        if last !in drawn then Err(UnknownStep(last))
        else
          assert forall x :: x in hs + drawn[last] <==> x in hs || x in drawn[last];
          Ok(hs + drawn[last])
  }

  /** `get_record(step_names)`: the shape of the hexagons recorded under the names. */
  function RecordOf(drawn: map<string, seq<Vec>>, names: seq<string>): (r: Result<seq<Vec>>)
    ensures r.Ok? <==> forall i :: 0 <= i < |names| ==> names[i] in drawn
    ensures r.Err? ==> Gathered(drawn, names).Err? && r.error == Gathered(drawn, names).error
    ensures r.Ok? ==> NoDup(r.value)
    ensures r.Ok? ==> forall x :: x in r.value <==> exists i :: 0 <= i < |names| && x in drawn[names[i]]
  {
    match Gathered(drawn, names)
    case Ok(hs) => Ok(Dedup(hs))
    case Err(e) => Err(e)
  }

  /** A freshly opened step records exactly the shape drawn after it. */
  lemma RecordThenDraw(width: nat, height: nat, b: Board, name: string, shape: seq<Vec>, color: int)
    requires ValidBoard(width, height, b)
    ensures RecordOf(DrawAllState(width, height, RecordStepState(width, height, b, name), shape, color).drawn,
                     [name]) == Ok(Dedup(shape))
  {
    var b1 := RecordStepState(width, height, b, name);
    DrawAllLog(width, height, b1, shape, color);
    var d := DrawAllState(width, height, b1, shape, color).drawn;
    assert [name][..0] == [];
    assert Gathered(d, [name]) == Ok([] + d[name]);
    if name == "all" {
      assert d[name] == Doubled(shape);
      assert [] + d[name] == Doubled(shape);
      DedupDoubled(shape);
    } else {
      assert d[name] == shape;
      assert [] + d[name] == shape;
    }
  }

  /** The outcome of `recolor`: the board, and the first colour the map was missing
      (the source raises at that point, after the earlier hexagons were redrawn). */
  datatype Recolored = Recolored(board: Board, missing: Option<int>)

  /** `recolor(color_map)`: every board hexagon of the shape, in turn, redrawn in the
      colour the map gives for its current colour; off-board hexagons are skipped. */
  function RecolorState(width: nat, height: nat, b: Board, shape: seq<Vec>, colorMap: map<int, int>): (r: Recolored)
    requires ValidBoard(width, height, b)
    decreases |shape|
    ensures ValidBoard(width, height, r.board) && r.board.step == b.step && r.board.drawn.Keys == b.drawn.Keys
  {
    if shape == [] then Recolored(b, None)
    else if !OnBoard(width, height, shape[0]) then RecolorState(width, height, b, shape[1..], colorMap)
    else
      var old_ := ColorAt(width, height, b, shape[0]);
      if old_ !in colorMap then Recolored(b, Some(old_))
      else
        LoggedSpec(b.drawn, b.step, shape[0]);
        RecolorState(width, height, DrawState(width, height, b, shape[0], colorMap[old_]), shape[1..], colorMap)
  }

  /** On a duplicate-free shape, `recolor` fails exactly when some board hexagon's
      colour is missing from the map; otherwise each board hexagon of the shape takes
      the mapped colour of its old colour and every other cell keeps its colour. */
  lemma {:induction false} RecolorSpec(width: nat, height: nat, b: Board, shape: seq<Vec>, colorMap: map<int, int>)
    requires ValidBoard(width, height, b) && NoDup(shape)
    decreases |shape|
    ensures RecolorState(width, height, b, shape, colorMap).missing.None? <==>
              forall x :: x in shape && OnBoard(width, height, x) ==> ColorAt(width, height, b, x) in colorMap
    ensures RecolorState(width, height, b, shape, colorMap).missing.None? ==>
              forall x :: ColorAt(width, height, RecolorState(width, height, b, shape, colorMap).board, x) ==
                if x in shape && OnBoard(width, height, x) then colorMap[ColorAt(width, height, b, x)]
                else ColorAt(width, height, b, x)
  {
    if shape != [] {
      var x0 := shape[0];
      var rest := shape[1..];
      assert NoDup(rest);
      assert forall x :: x in shape <==> x == x0 || x in rest;
      assert x0 !in rest;
      if !OnBoard(width, height, x0) {
        RecolorSpec(width, height, b, rest, colorMap);
      } else if ColorAt(width, height, b, x0) in colorMap {
        var b1 := DrawState(width, height, b, x0, colorMap[ColorAt(width, height, b, x0)]);
        RecolorSpec(width, height, b1, rest, colorMap);
        assert forall x :: x in rest ==> ColorAt(width, height, b1, x) == ColorAt(width, height, b, x);
      }
    }
  }

  /** `copy_paste` with a known shift: each hexagon of the shape, in turn, drawn at its
      shifted place in the colour it reads at that moment. */
  function CopyPasteState(width: nat, height: nat, b: Board, shape: seq<Vec>, shift: Vec): (r: Board)
    requires ValidBoard(width, height, b)
    decreases |shape|
    ensures ValidBoard(width, height, r) && r.step == b.step && r.drawn.Keys == b.drawn.Keys
  {
    if shape == [] then b
    else
      LoggedSpec(b.drawn, b.step, Add(shape[0], shift));
      var b1 := DrawState(width, height, b, Add(shape[0], shift), ColorAt(width, height, b, shape[0]));
      CopyPasteState(width, height, b1, shape[1..], shift)
  }

  /** When the copy does not overlap the shape, every board cell of the copy takes the
      colour of the hexagon it was copied from, and every other cell keeps its colour. */
  lemma {:induction false} CopyPasteSpec(width: nat, height: nat, b: Board, shape: seq<Vec>, shift: Vec, t: Vec)
    requires ValidBoard(width, height, b)
    requires forall x, y :: x in shape && y in shape ==> Add(x, shift) != y
    decreases |shape|
    ensures ColorAt(width, height, CopyPasteState(width, height, b, shape, shift), t) ==
              if Sub(t, shift) in shape && OnBoard(width, height, t) then ColorAt(width, height, b, Sub(t, shift))
              else ColorAt(width, height, b, t)
  {
    if shape != [] {
      var x0 := shape[0];
      var rest := shape[1..];
      assert forall x :: x in shape <==> x == x0 || x in rest;
      var b1 := DrawState(width, height, b, Add(x0, shift), ColorAt(width, height, b, x0));
      CopyPasteSpec(width, height, b1, rest, shift, t);
      assert forall x :: x in rest ==> ColorAt(width, height, b1, x) == ColorAt(width, height, b, x);
      assert Add(Sub(t, shift), shift) == t;
      assert Sub(Add(x0, shift), shift) == x0;
    }
  }

  /** k steps of the shift, added one at a time as the copies of `grid` are made. */
  function Stride(shift: Vec, k: nat): Vec {
    if k == 0 then Zero else Add(Stride(shift, k - 1), shift)
  }

  /** Any number of zero steps goes nowhere. */
  lemma StrideOfZero(k: nat)
    ensures Stride(Zero, k) == Zero
  {
    StrideIsScale(Zero, k);
  }

  lemma AddNothing(v: Vec)
    ensures Add(v, Zero) == v
  {
  }

  lemma SubNothing(v: Vec)
    ensures Sub(v, Zero) == v
  {
  }

  /** k steps of the shift are the shift scaled by k. */
  lemma {:induction false} StrideIsScale(shift: Vec, k: nat)
    ensures Stride(shift, k) == Scale(shift, k)
  {
    if k > 0 {
      StrideIsScale(shift, k - 1);
      ScaleAdd(shift, k - 1, 1);
    }
  }

  /** x belongs to the k-th copy of the shape, the shape moved by k times the step. */
  predicate InCopy(shape: seq<Vec>, shift: Vec, k: nat, x: Vec) {
    Sub(x, Stride(shift, k)) in shape
  }

  /** The k-th copy of the shape lies on the board. */
  predicate CopyOnBoard(width: nat, height: nat, shape: seq<Vec>, shift: Vec, k: nat) {
    forall y :: y in shape ==> OnBoard(width, height, Add(y, Stride(shift, k)))
  }

  /** `_entirely_on_board`: no hexagon of the shape is off the board. */
  predicate EntirelyOnBoard(width: nat, height: nat, t: seq<Vec>) {
    forall x :: x in t ==> OnBoard(width, height, x)
  }

  /** The copy offsets the search of `_compute_shift_from_spacing` tries: the initial
      copy moved k steps in the heading, compared with the reference. */
  predicate OverlapsAt(s: seq<Vec>, reference: seq<Vec>, initShift: Vec, h: Heading, k: int) {
    Overlaps(reference, ShiftShape(ShiftShape(s, initShift), StepVec(h, k)))
  }

  /** The search's test as a function of the number of steps. */
  function OverlapTest(s: seq<Vec>, reference: seq<Vec>, initShift: Vec, h: Heading): nat -> bool {
    j => OverlapsAt(s, reference, initShift, h, j)
  }

  /** The count-down search: the largest k in 1..top that hits, or 0 when none does. */
  function LastHit(hit: nat -> bool, top: nat): (k: nat)
    ensures k <= top
    ensures k == 0 || hit(k)
    ensures forall j :: k < j <= top ==> !hit(j)
  {
    if top == 0 then 0
    else if hit(top) then top
    else LastHit(hit, top - 1)
  }

  /** The three properties of `LastHit` determine it. */
  lemma {:induction false} LastHitUnique(hit: nat -> bool, top: nat, k: nat)
    requires k <= top && (k == 0 || hit(k))
    requires forall j :: k < j <= top ==> !hit(j)
    ensures LastHit(hit, top) == k
  {
    if top > k {
      LastHitUnique(hit, top - 1, k);
    }
  }

  lemma OverlapTestAt(s: seq<Vec>, reference: seq<Vec>, initShift: Vec, h: Heading, j: nat)
    ensures OverlapTest(s, reference, initShift, h)(j) == OverlapsAt(s, reference, initShift, h, j)
  {
  }

  /** The offset the search stops at: counting down from the larger board dimension,
      the first at which the moved copy overlaps the reference, or 0 when none does. */
  function SearchOffset(width: nat, height: nat, s: seq<Vec>, reference: seq<Vec>, initShift: Vec,
                        h: Heading): (k: nat)
    ensures k <= LargerSide(width, height)
    ensures k == 0 || OverlapsAt(s, reference, initShift, h, k)
  {
    var k := LastHit(OverlapTest(s, reference, initShift, h), LargerSide(width, height));
    OverlapTestAt(s, reference, initShift, h, k);
    k
  }

  /** No offset above the one the search stops at overlaps. */
  lemma SearchOffsetSkips(width: nat, height: nat, s: seq<Vec>, reference: seq<Vec>, initShift: Vec,
                          h: Heading, j: nat)
    requires SearchOffset(width, height, s, reference, initShift, h) < j <= LargerSide(width, height)
    ensures !OverlapsAt(s, reference, initShift, h, j)
  {
    OverlapTestAt(s, reference, initShift, h, j);
  }

  /** No offset in (k, top] overlaps. */
  ghost predicate MissesAbove(s: seq<Vec>, reference: seq<Vec>, initShift: Vec, h: Heading, k: nat, top: nat) {
    forall j :: k < j <= top ==> !OverlapsAt(s, reference, initShift, h, j)
  }

  lemma MissesAboveStep(s: seq<Vec>, reference: seq<Vec>, initShift: Vec, h: Heading, k: nat, top: nat)
    requires k > 0 && MissesAbove(s, reference, initShift, h, k, top) && !OverlapsAt(s, reference, initShift, h, k)
    ensures MissesAbove(s, reference, initShift, h, k - 1, top)
  {
  }

  /** The properties of `SearchOffset` determine it. */
  lemma SearchOffsetUnique(width: nat, height: nat, s: seq<Vec>, reference: seq<Vec>, initShift: Vec,
                           h: Heading, k: nat)
    requires k <= LargerSide(width, height)
    requires k == 0 || OverlapsAt(s, reference, initShift, h, k)
    requires forall j :: k < j <= LargerSide(width, height) ==> !OverlapsAt(s, reference, initShift, h, j)
    ensures SearchOffset(width, height, s, reference, initShift, h) == k
  {
    var hit := OverlapTest(s, reference, initShift, h);
    forall j | k < j <= LargerSide(width, height) ensures !hit(j) {
      OverlapTestAt(s, reference, initShift, h, j);
    }
    if k > 0 {
      OverlapTestAt(s, reference, initShift, h, k);
    }
    LastHitUnique(hit, LargerSide(width, height), k);
  }

  /** `initial_shift + scale_shift(direction, k + 1 + spacing)`. */
  function Spaced(initShift: Vec, h: Heading, k: nat, spacing: int): Vec {
    Add(initShift, StepVec(h, k + 1 + spacing))
  }

  /** `_compute_shift_from_spacing`: the initial shift moved past the last overlapping
      offset by 1 + spacing more steps. The centres of mass of an empty shape or
      reference do not exist, so those raise. */
  function ShiftFromSpacing(width: nat, height: nat, s: seq<Vec>, reference: seq<Vec>, initShift: Vec,
                            h: Heading, spacing: int): (r: Result<Vec>)
    ensures r.Ok? <==> s != [] && reference != []
  {
    if s == [] || reference == [] then Err(EmptyShape)
    else Ok(Spaced(initShift, h, SearchOffset(width, height, s, reference, initShift, h), spacing))
  }

  /** The shift for a search that stops at offset k. */
  lemma ShiftFromOffset(width: nat, height: nat, s: seq<Vec>, reference: seq<Vec>, initShift: Vec,
                        h: Heading, spacing: int, k: nat)
    requires s != [] && reference != [] && SearchOffset(width, height, s, reference, initShift, h) == k
    ensures ShiftFromSpacing(width, height, s, reference, initShift, h, spacing) == Ok(Spaced(initShift, h, k, spacing))
  {
  }

  /** With no initial shift the copy is just the steps. */
  lemma SpacedFromZero(h: Heading, k: nat, spacing: int)
    ensures Spaced(Zero, h, k, spacing) == StepVec(h, k + 1 + spacing)
  {
    AddZero(StepVec(h, k + 1 + spacing));
  }

  lemma AddZero(v: Vec)
    ensures Add(Zero, v) == v
  {
  }

  /** With no reference shape the copy is placed past the shape itself: with a
      non-negative spacing the shift is a non-zero displacement, at least one full
      step beyond the last offset at which the copy still overlaps the shape. */
  lemma SelfShiftSpec(width: nat, height: nat, s: seq<Vec>, h: Heading, spacing: int)
    requires s != [] && spacing >= 0
    ensures ShiftFromSpacing(width, height, s, s, Zero, h, spacing).Ok?
    ensures Norm(ShiftFromSpacing(width, height, s, s, Zero, h, spacing).value) >= 1
  {
    var k := SearchOffset(width, height, s, s, Zero, h);
    ShiftFromOffset(width, height, s, s, Zero, h, spacing, k);
    SpacedFromZero(h, k, spacing);
    StepVecNonZero(h, k + 1 + spacing);
  }

  /** Two board cells j >= 1 steps apart in a heading are fewer than the larger board
      dimension apart: the steps change the column by j, or, up and down, the row. */
  lemma BoardSpan(width: nat, height: nat, x: Vec, h: Heading, j: int)
    requires j >= 1 && OnBoard(width, height, x) && OnBoard(width, height, Add(x, StepVec(h, j)))
    ensures j < LargerSide(width, height)
  {
    var y := Add(x, StepVec(h, j));
    match h
    case Right => assert Column(y) == Column(x) + j;
    case Left => assert Column(y) == Column(x) - j;
    case Toward(d) =>
      match d
      case Up => assert y.q == x.q && Row(y) == Row(x) - j;
      case Down => assert y.q == x.q && Row(y) == Row(x) + j;
      case UpRight => assert Column(y) == Column(x) + j;
      case DownRight => assert Column(y) == Column(x) + j;
      case DownLeft => assert Column(y) == Column(x) - j;
      case UpLeft => assert Column(y) == Column(x) - j;
  }

  /** A shape on the board moved at least the larger board dimension in a heading
      does not meet itself. */
  lemma FarCopyMisses(width: nat, height: nat, s: seq<Vec>, h: Heading, j: int)
    requires EntirelyOnBoard(width, height, s) && j >= LargerSide(width, height) && j >= 1
    ensures !Overlaps(s, ShiftShape(s, StepVec(h, j)))
  {
    var v := StepVec(h, j);
    forall y | y in s && y in ShiftShape(s, v) ensures false {
      var x := Sub(y, v);
      assert y == Add(x, v);
      BoardSpan(width, height, x, h, j);
    }
  }

  /** Moving a shape by nothing first does not change what its copies meet. */
  lemma ShiftFromZero(s: seq<Vec>, v: Vec)
    ensures Overlaps(s, ShiftShape(ShiftShape(s, Zero), v)) == Overlaps(s, ShiftShape(s, v))
  {
    forall x ensures x in ShiftShape(ShiftShape(s, Zero), v) <==> x in ShiftShape(s, v) {
      SubNothing(Sub(x, v));
    }
  }

  /** The gap `copy_paste` promises: a shape on the board, copied with no reference
      shape and a spacing of at least 0, does not meet its copy. */
  lemma SelfCopyMisses(width: nat, height: nat, s: seq<Vec>, h: Heading, spacing: int)
    requires s != [] && spacing >= 0 && EntirelyOnBoard(width, height, s)
    ensures ShiftFromSpacing(width, height, s, s, Zero, h, spacing).Ok?
    ensures !Overlaps(s, ShiftShape(s, ShiftFromSpacing(width, height, s, s, Zero, h, spacing).value))
  {
    var k := SearchOffset(width, height, s, s, Zero, h);
    var j := k + 1 + spacing;
    ShiftFromOffset(width, height, s, s, Zero, h, spacing, k);
    SpacedFromZero(h, k, spacing);
    if j <= LargerSide(width, height) {
      SearchOffsetSkips(width, height, s, s, Zero, h, j);
      ShiftFromZero(s, StepVec(h, j));
    } else {
      FarCopyMisses(width, height, s, h, j);
    }
  }

  /** The n-th copy of `grid`: the shape moved n steps. */
  function Iterate(shape: seq<Vec>, shift: Vec, n: nat): (t: seq<Vec>)
    ensures forall x :: x in t <==> InCopy(shape, shift, n, x)
  {
    ShiftShape(shape, Stride(shift, n))
  }

  /** Shifting a shape twice is shifting it once by the sum. */
  lemma ShiftTwice(s: seq<Vec>, a: Vec, b: Vec)
    requires NoDup(s)
    ensures ShiftShape(ShiftShape(s, a), b) == ShiftShape(s, Add(a, b))
  {
    var once := ShiftShape(s, a);
    var lhs := ShiftShape(once, b);
    var rhs := ShiftShape(s, Add(a, b));
    assert |lhs| == |rhs|;
    forall i | 0 <= i < |lhs| ensures lhs[i] == rhs[i] {
      assert lhs[i] == Add(once[i], b);
    }
  }

  /** Pasting the n-th copy once more gives the (n+1)-th. */
  lemma IterateStep(shape: seq<Vec>, shift: Vec, n: nat)
    requires NoDup(shape)
    ensures ShiftShape(Iterate(shape, shift, n), shift) == Iterate(shape, shift, n + 1)
  {
    ShiftTwice(shape, Stride(shift, n), shift);
  }

  /** The n-th copy is entirely on the board exactly when every cell of the shape,
      moved n steps, is. */
  lemma IterateOnBoard(width: nat, height: nat, shape: seq<Vec>, shift: Vec, n: nat)
    ensures EntirelyOnBoard(width, height, Iterate(shape, shift, n)) <==> CopyOnBoard(width, height, shape, shift, n)
  {
    var t := Iterate(shape, shift, n);
    var step := Stride(shift, n);
    forall y | y in shape ensures Add(y, step) in t {
      assert Sub(Add(y, step), step) == y;
    }
    forall x | x in t ensures x == Add(Sub(x, step), step) {
    }
  }

  /** The board after the first n copies of `grid`, each pasted from the previous. */
  function Copies(width: nat, height: nat, b: Board, shape: seq<Vec>, shift: Vec, n: nat): (r: Board)
    requires ValidBoard(width, height, b)
    ensures ValidBoard(width, height, r) && r.step == b.step && r.drawn.Keys == b.drawn.Keys
  {
    if n == 0 then b
    else CopyPasteState(width, height, Copies(width, height, b, shape, shift, n - 1), Iterate(shape, shift, n - 1), shift)
  }

  /** A board cell lies within hex distance 2 * width + height of the origin. */
  lemma BoardNormBound(width: nat, height: nat, c: Vec)
    requires OnBoard(width, height, c)
    ensures Norm(c) <= 2 * width + height
  {
    assert 0 <= c.q < width;
    assert Abs(c.r) <= width + height;
  }

  /** A copy k steps away from a cell x0 stays on the board only for k up to a bound
      fixed by x0 and the board. */
  lemma CopyFarBound(width: nat, height: nat, x0: Vec, shift: Vec, k: nat)
    requires Norm(shift) >= 1 && OnBoard(width, height, Add(x0, Scale(shift, k)))
    ensures k <= Norm(x0) + 2 * width + height
  {
    var step := Scale(shift, k);
    BoardNormBound(width, height, Add(x0, step));
    ScaledFar(shift, k);
    DistanceBack(x0, step);
  }

  /** k steps of a non-zero displacement go at least k cells. */
  lemma ScaledFar(shift: Vec, k: nat)
    requires Norm(shift) >= 1
    ensures k <= Norm(Scale(shift, k))
  {
    NormScale(shift, k);
    MulAtLeast(k, Norm(shift));
  }

  /** A displacement is at most as long as the way out to its end and back. */
  lemma DistanceBack(x0: Vec, v: Vec)
    ensures Norm(v) <= Norm(Add(x0, v)) + Norm(x0)
  {
    NormTriangle(Add(x0, v), Neg(x0));
    assert Add(Add(x0, v), Neg(x0)) == v;
    assert Norm(Neg(x0)) == Norm(x0);
  }

  /** The loop condition of `grid` as written: with no count, go on while the next
      copy lies entirely on the board. */
  predicate GridContinues(width: nat, height: nat, shape: seq<Vec>, shift: Vec, k: nat, numCopies: Option<int>) {
    (numCopies.None? && CopyOnBoard(width, height, shape, shift, k + 1)) ||
    (numCopies.Some? && k < numCopies.value)
  }

  /** As written, `grid` with no count never stops for a single board tile copied
      with spacing -1, in any direction: no positive offset overlaps the tile, so the
      shift is zero, and every copy is the tile itself, on the board. */
  lemma GridZeroShiftNeverStops(width: nat, height: nat, c: Vec, h: Heading, k: nat)
    requires OnBoard(width, height, c)
    ensures ShiftFromSpacing(width, height, [c], [c], Zero, h, -1) == Ok(Zero)
    ensures GridContinues(width, height, [c], Zero, k, None)
  {
    SingleCellZeroShift(width, height, c, h);
    SingleCellContinues(width, height, c, k);
  }

  /** With no count and a zero shift, a single board cell always has a next copy. */
  lemma SingleCellContinues(width: nat, height: nat, c: Vec, k: nat)
    requires OnBoard(width, height, c)
    ensures GridContinues(width, height, [c], Zero, k, None)
  {
    assert forall x :: x in [c] ==> x == c;
    ZeroCopiesStay(width, height, [c], k + 1);
  }

  /** With spacing -1 a single cell's copy lands on the cell itself. */
  lemma SingleCellZeroShift(width: nat, height: nat, c: Vec, h: Heading)
    ensures ShiftFromSpacing(width, height, [c], [c], Zero, h, -1) == Ok(Zero)
  {
    SingleCellShift(width, height, c, h, -1);
    StepVecZero(h);
  }

  /** A single cell is its own reference only at offset 0, so its copy is placed
      1 + spacing steps away. */
  lemma SingleCellShift(width: nat, height: nat, c: Vec, h: Heading, spacing: int)
    ensures ShiftFromSpacing(width, height, [c], [c], Zero, h, spacing) == Ok(StepVec(h, 1 + spacing))
  {
    forall j: nat | 0 < j <= LargerSide(width, height) ensures !OverlapsAt([c], [c], Zero, h, j) {
      NoSelfOverlap(c, h, j);
    }
    SearchOffsetUnique(width, height, [c], [c], Zero, h, 0);
    ShiftFromOffset(width, height, [c], [c], Zero, h, spacing, 0);
    AddZero(StepVec(h, 0 + 1 + spacing));
  }

  /** Copies moved by a zero step lie where the shape does. */
  lemma ZeroCopiesStay(width: nat, height: nat, shape: seq<Vec>, k: nat)
    requires EntirelyOnBoard(width, height, shape)
    ensures CopyOnBoard(width, height, shape, Zero, k)
  {
    StrideOfZero(k);
    forall y | y in shape ensures Add(y, Stride(Zero, k)) == y {
      AddNothing(y);
    }
  }

  /** A single cell moved a positive number of steps does not meet itself. */
  lemma NoSelfOverlap(c: Vec, h: Heading, j: nat)
    requires j > 0
    ensures !OverlapsAt([c], [c], Zero, h, j)
  {
    assert ShiftShape([c], Zero)[0] == Add(c, Zero) == c;
    assert ShiftShape([c], Zero) == [c];
    var v := StepVec(h, j);
    StepVecNonZero(h, j);
    assert v != Zero;
    MovedCellMisses(c, v);
  }

  /** A single cell moved by a non-zero displacement no longer meets itself. */
  lemma MovedCellMisses(c: Vec, v: Vec)
    requires v != Zero
    ensures !Overlaps([c], ShiftShape([c], v))
  {
    var t := ShiftShape([c], v);
    assert Sub(c, v) != c;
    assert c !in t;
  }

  /** The mutable context `HexagonsGame`: the board size, the colour id of every cell,
      the recorded hexagons of every step, and the open step. */
  class HexagonsGame {
    var width: nat
    var height: nat
    var boardState: array<int>
    var drawn: map<string, seq<Vec>>
    var step: Option<string>

    function Value(): Board
      reads this, boardState
    {
      Board(boardState[..], drawn, step)
    }

    predicate Valid()
      reads this, boardState
    {
      ValidBoard(width, height, Value()) && boardState.Length == width * height
    }

    /** `start(width, height)`. */
    constructor Start(width: nat, height: nat)
      ensures Valid() && this.width == width && this.height == height
      ensures Value() == Initial(width, height)
      ensures fresh(boardState)
    {
      this.width := width;
      this.height := height;
      boardState := new int[width * height](_ => 0);
      drawn := map["all" := []];
      step := None;
      new;
      assert boardState[..] == seq(width * height, _ => 0);
    }

    /** `record_step(step_name)`. */
    method RecordStep(name: string)
      requires Valid()
      modifies this
      ensures Valid() && width == old(width) && height == old(height) && boardState == old(boardState)
      ensures Value() == RecordStepState(width, height, old(Value()), name)
    {
      drawn := drawn[name := []];
      step := Some(name);
    }

    /** `get_record(step_names)`: the records of the names, in order, as a shape. */
    method GetRecord(names: seq<string>) returns (r: Result<seq<Vec>>)
      requires Valid()
      ensures r == RecordOf(drawn, names)
    {
      var hexagons: seq<Vec> := [];
      var i := 0;
      while i < |names|
        invariant 0 <= i <= |names|
        invariant Gathered(drawn, names[..i]) == Ok(hexagons)
      {
        assert names[..i + 1][..i] == names[..i];
        if names[i] !in drawn {
          assert Gathered(drawn, names[..i + 1]) == Err(UnknownStep(names[i]));
          GatheredPrefixErr(drawn, names, i + 1);
          return Err(UnknownStep(names[i]));
        }
        hexagons := hexagons + drawn[names[i]];
        i := i + 1;
      }
      assert names[..i] == names;
      var shape := MakeShape(hexagons);
      r := Ok(shape);
    }

    /** `_draw(color)` on hexagon c. */
    method Draw(c: Vec, color: int)
      requires Valid()
      modifies this, boardState
      ensures Valid() && width == old(width) && height == old(height) && boardState == old(boardState)
      ensures Value() == DrawState(width, height, old(Value()), c, color)
    {
      match Lind(width, height, c) {
        case Some(i) => boardState[i] := color;
        case None =>
      }
      drawn := Logged(drawn, step, c);
    }

    /** `Shape.draw(color)`. */
    method DrawShape(shape: seq<Vec>, color: int)
      requires Valid()
      modifies this, boardState
      ensures Valid() && width == old(width) && height == old(height) && boardState == old(boardState)
      ensures Value() == DrawAllState(width, height, old(Value()), shape, color)
    {
      var i := 0;
      while i < |shape|
        invariant 0 <= i <= |shape|
        invariant Valid() && width == old(width) && height == old(height) && boardState == old(boardState)
        invariant DrawAllState(width, height, old(Value()), shape, color) ==
                  DrawAllState(width, height, Value(), shape[i..], color)
      {
        assert shape[i..][1..] == shape[i + 1..];
        Draw(shape[i], color);
        i := i + 1;
      }
    }

    /** The colour id hexagon c reads. */
    method ColorOf(c: Vec) returns (color: int)
      requires Valid()
      ensures color == ColorAt(width, height, Value(), c)
    {
      match Lind(width, height, c)
      case Some(i) => color := boardState[i];
      case None => color := 0;
    }

    /** `recolor(color_map)`; a colour missing from the map raises after the earlier
        hexagons were redrawn. */
    method Recolor(shape: seq<Vec>, colorMap: map<int, int>) returns (r: Result<seq<Vec>>)
      requires Valid()
      modifies this, boardState
      ensures Valid() && width == old(width) && height == old(height) && boardState == old(boardState)
      ensures Value() == RecolorState(width, height, old(Value()), shape, colorMap).board
      ensures r.Ok? <==> RecolorState(width, height, old(Value()), shape, colorMap).missing.None?
      ensures r.Ok? ==> r.value == shape
      ensures r.Err? ==> r.error == MissingColor(RecolorState(width, height, old(Value()), shape, colorMap).missing.value)
    {
      var i := 0;
      while i < |shape|
        invariant 0 <= i <= |shape|
        invariant Valid() && width == old(width) && height == old(height) && boardState == old(boardState)
        invariant RecolorState(width, height, old(Value()), shape, colorMap) ==
                  RecolorState(width, height, Value(), shape[i..], colorMap)
      {
        assert shape[i..][1..] == shape[i + 1..];
        if OnBoard(width, height, shape[i]) {
          var color := ColorOf(shape[i]);
          if color !in colorMap {
            return Err(MissingColor(color));
          }
          Draw(shape[i], colorMap[color]);
        }
        i := i + 1;
      }
      r := Ok(shape);
    }

    /** `copy_paste(shift=shift)`: every hexagon drawn at its shifted place in its own
        colour; the result is the shifted shape. */
    method CopyPaste(shape: seq<Vec>, shift: Vec) returns (copy: seq<Vec>)
      requires Valid()
      modifies this, boardState
      ensures Valid() && width == old(width) && height == old(height) && boardState == old(boardState)
      ensures Value() == CopyPasteState(width, height, old(Value()), shape, shift)
      ensures copy == ShiftShape(shape, shift)
    {
      var i := 0;
      while i < |shape|
        invariant 0 <= i <= |shape|
        invariant Valid() && width == old(width) && height == old(height) && boardState == old(boardState)
        invariant CopyPasteState(width, height, old(Value()), shape, shift) ==
                  CopyPasteState(width, height, Value(), shape[i..], shift)
      {
        assert shape[i..][1..] == shape[i + 1..];
        var color := ColorOf(shape[i]);
        Draw(Add(shape[i], shift), color);
        i := i + 1;
      }
      copy := ShiftShape(shape, shift);
    }

    /** `_compute_shift_from_spacing(direction, spacing, reference_shape)`. Without a
        reference the shape is its own reference and the initial shift, the rounded
        difference of the centres of mass, is zero; with one, that rounded difference
        is given as initShift. */
    method ComputeShiftFromSpacing(shape: seq<Vec>, h: Heading, spacing: int, reference: Option<seq<Vec>>,
                                   initShift: Vec) returns (r: Result<Vec>)
      requires Valid()
      ensures reference.None? ==> r == ShiftFromSpacing(width, height, shape, shape, Zero, h, spacing)
      ensures reference.Some? ==> r == ShiftFromSpacing(width, height, shape, reference.value, initShift, h, spacing)
    {
      if reference.Some? {
        r := SearchShift(shape, reference.value, initShift, h, spacing);
      } else {
        r := SearchShift(shape, shape, Zero, h, spacing);
      }
    }

    /** `_compute_shift_from_spacing` for a given initial shift and reference. */
    method SearchShift(shape: seq<Vec>, reference: seq<Vec>, initShift: Vec, h: Heading, spacing: int)
      returns (r: Result<Vec>)
      requires Valid()
      ensures r == ShiftFromSpacing(width, height, shape, reference, initShift, h, spacing)
    {
      if shape == [] || reference == [] {
        return Err(EmptyShape);
      }
      var k := FindOffset(shape, reference, initShift, h);
      ShiftFromOffset(width, height, shape, reference, initShift, h, spacing, k);
      r := Ok(Spaced(initShift, h, k, spacing));
    }

    /** The search of `_compute_shift_from_spacing`: from the larger board dimension
        down to 0, the first offset at which the moved copy overlaps the reference
        (0 when none does). */
    method FindOffset(shape: seq<Vec>, reference: seq<Vec>, initShift: Vec, h: Heading) returns (k: nat)
      ensures k == SearchOffset(width, height, shape, reference, initShift, h)
    {
      k := LargerSide(width, height);
      while k > 0 && !OverlapsAt(shape, reference, initShift, h, k)
        invariant 0 <= k <= LargerSide(width, height)
        invariant MissesAbove(shape, reference, initShift, h, k, LargerSide(width, height))
        decreases k
      {
        MissesAboveStep(shape, reference, initShift, h, k, LargerSide(width, height));
        k := k - 1;
      }
      SearchOffsetUnique(width, height, shape, reference, initShift, h, k);
    }

    /** `copy_paste(shift_direction, spacing, reference_shape)`. */
    method CopyPasteSpaced(shape: seq<Vec>, h: Heading, spacing: int, reference: Option<seq<Vec>>,
                           initShift: Vec) returns (r: Result<seq<Vec>>)
      requires Valid()
      modifies this, boardState
      ensures Valid() && width == old(width) && height == old(height) && boardState == old(boardState)
      ensures r.Ok? <==> shape != [] && (reference.None? || reference.value != [])
      ensures r.Err? ==> Value() == old(Value())
      ensures r.Ok? ==>
                var sh := if reference.None? then ShiftFromSpacing(width, height, shape, shape, Zero, h, spacing)
                          else ShiftFromSpacing(width, height, shape, reference.value, initShift, h, spacing);
                sh.Ok? && r.value == ShiftShape(shape, sh.value) &&
                Value() == CopyPasteState(width, height, old(Value()), shape, sh.value)
    {
      var shift := ComputeShiftFromSpacing(shape, h, spacing, reference, initShift);
      if shift.Err? {
        return Err(shift.error);
      }
      var copy := CopyPaste(shape, shift.value);
      r := Ok(copy);
    }

    /** `copy_paste(source=..., destination=...)`: the shift from the source tile to
        the destination tile. */
    method CopyPasteBetween(shape: seq<Vec>, source: Vec, destination: Vec) returns (copy: seq<Vec>)
      requires Valid()
      modifies this, boardState
      ensures Valid() && width == old(width) && height == old(height) && boardState == old(boardState)
      ensures copy == ShiftShape(shape, Diff(destination, source))
      ensures Value() == CopyPasteState(width, height, old(Value()), shape, Diff(destination, source))
    {
      copy := CopyPaste(shape, Diff(destination, source));
    }

    /** `grid(shift_direction, spacing, num_copies)`: repeated copies, each shifted
        from the previous one, collected with the original. With no count it goes on
        while the next copy lies entirely on the board; when that holds for ever,
        because the step is zero and the shape lies on the board, it raises instead. */
    method Grid(shape: seq<Vec>, h: Heading, spacing: int, numCopies: Option<int>)
      returns (r: Result<seq<Vec>>, ghost copies: nat)
      requires Valid() && NoDup(shape)
      modifies this, boardState
      ensures Valid() && width == old(width) && height == old(height) && boardState == old(boardState)
      ensures r.Err? <==> (shape == [] ||
                           (numCopies.None? && ShiftFromSpacing(width, height, shape, shape, Zero, h, spacing) == Ok(Zero) &&
                            EntirelyOnBoard(width, height, shape)))
      ensures r.Err? ==> Value() == old(Value())
      ensures r.Ok? ==> GridResult(width, height, old(Value()), Value(), shape,
                                   ShiftFromSpacing(width, height, shape, shape, Zero, h, spacing).value,
                                   numCopies, r.value, copies)
    {
      var shiftR := ComputeShiftFromSpacing(shape, h, spacing, None, Zero);
      if shiftR.Err? {
        return Err(shiftR.error), 0;
      }
      var shift := shiftR.value;
      if numCopies.None? && shift == Zero {
        if EntirelyOnBoard(width, height, shape) {
          return Err(ZeroShift), 0;
        }
        ZeroStepStops(width, height, shape, Value());
        return Ok(shape), 0;
      }
      ghost var b0 := Value();
      var grid;
      var current;
      grid, current, copies := GridLoop(shape, shift, numCopies);
      GridInvExit(width, height, b0, Value(), shape, shift, numCopies, grid, current, copies);
      r := Ok(grid);
    }

    /** The loop of `grid` for a given step. */
    method GridLoop(shape: seq<Vec>, shift: Vec, numCopies: Option<int>)
      returns (grid: seq<Vec>, current: seq<Vec>, k: nat)
      requires Valid() && NoDup(shape) && shape != []
      requires numCopies.None? ==> shift != Zero
      modifies this, boardState
      ensures Valid() && width == old(width) && height == old(height) && boardState == old(boardState)
      ensures GridInv(width, height, old(Value()), Value(), shape, shift, numCopies, grid, current, k)
      ensures !((numCopies.None? && EntirelyOnBoard(width, height, ShiftShape(current, shift))) ||
                (numCopies.Some? && k < numCopies.value))
    {
      ghost var b0 := old(Value());
      grid := shape;
      current := shape;
      k := 0;
      GridInvInit(width, height, b0, shape, shift, numCopies);
      while (numCopies.None? && EntirelyOnBoard(width, height, ShiftShape(current, shift))) ||
            (numCopies.Some? && k < numCopies.value)
        invariant Valid() && width == old(width) && height == old(height) && boardState == old(boardState)
        invariant GridInv(width, height, b0, Value(), shape, shift, numCopies, grid, current, k)
        invariant numCopies.None? ==> k <= Norm(shape[0]) + 2 * width + height
        decreases if numCopies.Some? then numCopies.value - k else Norm(shape[0]) + 2 * width + height - k
      {
        grid, current := GridPass(b0, shape, shift, numCopies, grid, current, k);
        k := k + 1;
      }
    }

    /** One pass of the loop of `grid`: paste the next copy and add it to the grid. */
    method GridPass(ghost b0: Board, shape: seq<Vec>, shift: Vec, numCopies: Option<int>,
                    grid: seq<Vec>, current: seq<Vec>, ghost k: nat)
      returns (grid': seq<Vec>, current': seq<Vec>)
      requires Valid() && ValidBoard(width, height, b0) && NoDup(shape) && shape != []
      requires numCopies.None? ==> shift != Zero
      requires GridInv(width, height, b0, Value(), shape, shift, numCopies, grid, current, k)
      requires (numCopies.None? && EntirelyOnBoard(width, height, ShiftShape(current, shift))) ||
               (numCopies.Some? && k < numCopies.value)
      modifies this, boardState
      ensures Valid() && width == old(width) && height == old(height) && boardState == old(boardState)
      ensures GridInv(width, height, b0, Value(), shape, shift, numCopies, grid', current', k + 1)
    {
      GridInvStep(width, height, b0, Value(), shape, shift, numCopies, grid, current, k);
      current' := CopyPaste(current, shift);
      grid' := Union(grid, current');
    }
  }

  /** The invariant of the loop of `grid` after k copies: the board holds the first
      k copies, `current` is the k-th copy, each copy so far lies on the board when
      no count is given, and the grid collects the original and the k copies. */
  ghost predicate GridInv(width: nat, height: nat, b0: Board, b: Board, shape: seq<Vec>, shift: Vec,
                          numCopies: Option<int>, grid: seq<Vec>, current: seq<Vec>, k: nat)
    requires ValidBoard(width, height, b0) && shape != []
  {
    && b == Copies(width, height, b0, shape, shift, k)
    && current == Iterate(shape, shift, k)
    && (numCopies.None? ==> k <= Norm(shape[0]) + 2 * width + height)
    && (numCopies.None? ==> forall j :: 1 <= j <= k ==> CopyOnBoard(width, height, shape, shift, j))
    && (numCopies.Some? ==> k <= if numCopies.value < 0 then 0 else numCopies.value)
    && forall x :: x in grid <==> exists j :: 0 <= j <= k && InCopy(shape, shift, j, x)
  }

  lemma GridInvInit(width: nat, height: nat, b0: Board, shape: seq<Vec>, shift: Vec, numCopies: Option<int>)
    requires ValidBoard(width, height, b0) && NoDup(shape) && shape != []
    ensures GridInv(width, height, b0, b0, shape, shift, numCopies, shape, shape, 0)
  {
    IterateZero(shape, shift);
  }

  /** One pass of the loop keeps the invariant; with no count the copy just made is
      on the board and therefore within the bound. */
  lemma GridInvStep(width: nat, height: nat, b0: Board, b: Board, shape: seq<Vec>, shift: Vec,
                    numCopies: Option<int>, grid: seq<Vec>, current: seq<Vec>, k: nat)
    requires ValidBoard(width, height, b0) && ValidBoard(width, height, b) && NoDup(shape) && shape != []
    requires numCopies.None? ==> shift != Zero
    requires GridInv(width, height, b0, b, shape, shift, numCopies, grid, current, k)
    requires (numCopies.None? && EntirelyOnBoard(width, height, ShiftShape(current, shift))) ||
             (numCopies.Some? && k < numCopies.value)
    ensures GridInv(width, height, b0, CopyPasteState(width, height, b, current, shift), shape, shift, numCopies,
                    Union(grid, ShiftShape(current, shift)), ShiftShape(current, shift), k + 1)
  {
    IterateStep(shape, shift, k);
    var next := Iterate(shape, shift, k + 1);
    assert ShiftShape(current, shift) == next;
    StepBoard(width, height, b0, b, shape, shift, k);
    if numCopies.None? {
      StepOnBoard(width, height, shape, shift, k);
    }
    GridUnion(grid, next, shape, shift, k);
  }

  lemma StepBoard(width: nat, height: nat, b0: Board, b: Board, shape: seq<Vec>, shift: Vec, k: nat)
    requires ValidBoard(width, height, b0) && b == Copies(width, height, b0, shape, shift, k)
    ensures CopyPasteState(width, height, b, Iterate(shape, shift, k), shift) == Copies(width, height, b0, shape, shift, k + 1)
  {
  }

  lemma StepOnBoard(width: nat, height: nat, shape: seq<Vec>, shift: Vec, k: nat)
    requires shape != [] && shift != Zero
    requires forall j :: 1 <= j <= k ==> CopyOnBoard(width, height, shape, shift, j)
    requires EntirelyOnBoard(width, height, Iterate(shape, shift, k + 1))
    ensures k + 1 <= Norm(shape[0]) + 2 * width + height
    ensures forall j :: 1 <= j <= k + 1 ==> CopyOnBoard(width, height, shape, shift, j)
  {
    IterateOnBoard(width, height, shape, shift, k + 1);
    GridBound(width, height, shape, shift, k + 1);
  }

  /** When the loop stops, the invariant is the result of `grid`. */
  lemma GridInvExit(width: nat, height: nat, b0: Board, b: Board, shape: seq<Vec>, shift: Vec,
                    numCopies: Option<int>, grid: seq<Vec>, current: seq<Vec>, k: nat)
    requires ValidBoard(width, height, b0) && NoDup(shape) && shape != []
    requires GridInv(width, height, b0, b, shape, shift, numCopies, grid, current, k)
    requires !((numCopies.None? && EntirelyOnBoard(width, height, ShiftShape(current, shift))) ||
               (numCopies.Some? && k < numCopies.value))
    ensures GridResult(width, height, b0, b, shape, shift, numCopies, grid, k)
  {
    IterateStep(shape, shift, k);
    IterateOnBoard(width, height, shape, shift, k + 1);
  }

  /** What `grid` leaves behind for a step: the board after `copies` copies, as many
      as the count asks for or, with no count, every copy up to the first one that
      leaves the board; and the cells of the original and its copies. */
  ghost predicate GridResult(width: nat, height: nat, b0: Board, b: Board, shape: seq<Vec>, shift: Vec,
                             numCopies: Option<int>, grid: seq<Vec>, copies: nat)
    requires ValidBoard(width, height, b0)
  {
    && b == Copies(width, height, b0, shape, shift, copies)
    && (numCopies.Some? ==> copies == if numCopies.value < 0 then 0 else numCopies.value)
    && (numCopies.None? ==> !CopyOnBoard(width, height, shape, shift, copies + 1) &&
                            forall j :: 1 <= j <= copies ==> CopyOnBoard(width, height, shape, shift, j))
    && forall x :: x in grid <==> exists j :: 0 <= j <= copies && InCopy(shape, shift, j, x)
  }

  /** The 0-th copy is the shape itself. */
  lemma IterateZero(shape: seq<Vec>, shift: Vec)
    requires NoDup(shape)
    ensures Iterate(shape, shift, 0) == shape
  {
    var t := ShiftShape(shape, Zero);
    assert |t| == |shape|;
    forall i | 0 <= i < |t| ensures t[i] == shape[i] {
      assert t[i] == Add(shape[i], Zero);
    }
  }

  /** With a zero step and a shape partly off the board, the first copy is already
      off the board, so no copy is made and the grid is the shape. */
  lemma ZeroStepStops(width: nat, height: nat, shape: seq<Vec>, b: Board)
    requires ValidBoard(width, height, b) && !EntirelyOnBoard(width, height, shape)
    ensures GridResult(width, height, b, b, shape, Zero, None, shape, 0)
  {
    ZeroFirstCopyOff(width, height, shape);
    forall y ensures y in shape <==> exists j :: 0 <= j <= 0 && InCopy(shape, Zero, j, y) {
      ZeroCopyIsShape(shape, y);
    }
  }

  /** The 0-th copy of a shape is the shape. */
  lemma ZeroCopyIsShape(shape: seq<Vec>, y: Vec)
    ensures InCopy(shape, Zero, 0, y) <==> y in shape
  {
    SubNothing(y);
  }

  /** With a zero step the first copy covers the shape, so it is off the board
      exactly when the shape is. */
  lemma ZeroFirstCopyOff(width: nat, height: nat, shape: seq<Vec>)
    requires !EntirelyOnBoard(width, height, shape)
    ensures !CopyOnBoard(width, height, shape, Zero, 1)
  {
    var x :| x in shape && !OnBoard(width, height, x);
    StrideOfZero(1);
    AddNothing(x);
  }

  /** A copy entirely on the board is at most a bound fixed by the shape and the
      board away, so the loop of `grid` with a non-zero step ends. */
  lemma GridBound(width: nat, height: nat, shape: seq<Vec>, shift: Vec, k: nat)
    requires shape != [] && shift != Zero
    requires EntirelyOnBoard(width, height, Iterate(shape, shift, k))
    ensures k <= Norm(shape[0]) + 2 * width + height
  {
    IterateOnBoard(width, height, shape, shift, k);
    assert shape[0] in shape;
    NonZeroIsFar(shift);
    StrideIsScale(shift, k);
    CopyFarBound(width, height, shape[0], shift, k);
  }

  lemma MulAtLeast(k: nat, n: nat)
    requires n >= 1
    ensures k <= k * n
  {
  }

  /** A non-zero displacement moves at least one cell. */
  lemma NonZeroIsFar(v: Vec)
    requires v != Zero
    ensures Norm(v) >= 1
  {
  }

  /** Adding the (k+1)-th copy to the union of the copies 0..k. */
  lemma GridUnion(grid: seq<Vec>, next: seq<Vec>, shape: seq<Vec>, shift: Vec, k: nat)
    requires forall x :: x in grid <==> exists j :: 0 <= j <= k && InCopy(shape, shift, j, x)
    requires forall x :: x in next <==> InCopy(shape, shift, k + 1, x)
    ensures forall x :: x in Union(grid, next) <==> exists j :: 0 <= j <= k + 1 && InCopy(shape, shift, j, x)
  {
    forall x ensures x in Union(grid, next) <==> exists j :: 0 <= j <= k + 1 && InCopy(shape, shift, j, x) {
      assert x in Union(grid, next) <==> x in Elems(Union(grid, next));
      assert x in grid <==> x in Elems(grid);
      assert x in next <==> x in Elems(next);
      if exists j :: 0 <= j <= k + 1 && InCopy(shape, shift, j, x) {
        var j :| 0 <= j <= k + 1 && InCopy(shape, shift, j, x);
        if j == k + 1 {
          assert x in next;
        } else {
          assert x in grid;
        }
      }
    }
  }

  /** A name missing from the records makes every longer list of names fail with the
      error of the first missing one. */
  lemma {:induction false} GatheredPrefixErr(drawn: map<string, seq<Vec>>, names: seq<string>, n: nat)
    requires 0 < n <= |names| && Gathered(drawn, names[..n]).Err?
    ensures Gathered(drawn, names) == Gathered(drawn, names[..n])
    decreases |names| - n
  {
    if n < |names| {
      assert names[..n + 1][..n] == names[..n];
      assert Gathered(drawn, names[..n + 1]) == Gathered(drawn, names[..n]);
      GatheredPrefixErr(drawn, names, n + 1);
      assert names[..|names|] == names;
    } else {
      assert names[..n] == names;
    }
  }
}
