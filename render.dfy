/** The render engine, with the canvas replaced by a render plan: whether
    the surface is cleared, the stones drawn (placed and pre-positioned),
    their radius, and the highlighted current stone. */
module Render {
  import opened Wrappers
  import opened Stones
  import opened Geometry
  import opened Mapper

  /** One entry of the insertion-ordered `currentPositions` map. */
  datatype Entry = Entry(cell: Cell, at: Point)

  /** The last history step, drawn in its colour with its move number. */
  datatype CurrentStone = CurrentStone(at: Point, moveNumber: nat, isBlack: bool)

  /** What one render does to the overlay surface. */
  datatype RenderPlan =
    | Untouched  // returned before clearing
    | Cleared    // cleared, and nothing drawn: no usable anchor step
    | Drawn(radius: real, stones: seq<Point>, current: Option<CurrentStone>)

  // ---------------------------------------------------------------------
  // The insertion-ordered map keyed by grid cell

  function Cells(m: seq<Entry>): (cells: seq<Cell>)
    ensures |cells| == |m|
    ensures forall i :: 0 <= i < |m| ==> cells[i] == m[i].cell
  {
    if |m| == 0 then [] else Cells(m[..|m| - 1]) + [m[|m| - 1].cell]
  }

  /** The values in key order, as `Map.prototype.values` yields them. */
  function Values(m: seq<Entry>): (points: seq<Point>)
    ensures |points| == |m|
    ensures forall i :: 0 <= i < |m| ==> points[i] == m[i].at
  {
    if |m| == 0 then [] else Values(m[..|m| - 1]) + [m[|m| - 1].at]
  }

  predicate DistinctCells(m: seq<Entry>) {
    forall i, j :: 0 <= i < j < |m| ==> m[i].cell != m[j].cell
  }

  /** The index of the entry for `c`, or `|m|` when there is none. */
  function Find(m: seq<Entry>, c: Cell): (i: nat)
    ensures i <= |m|
    ensures i < |m| ==> m[i].cell == c
    ensures forall j :: 0 <= j < i ==> m[j].cell != c
  {
    if |m| == 0 then 0
    else if m[0].cell == c then 0
    else 1 + Find(m[1..], c)
  }

  /** `Map.prototype.has`. */
  function Has(m: seq<Entry>, c: Cell): (b: bool)
    ensures b <==> exists i :: 0 <= i < |m| && m[i].cell == c
  {
    Find(m, c) < |m|
  }

  /** `Map.prototype.get`. */
  function Lookup(m: seq<Entry>, c: Cell): (r: Option<Point>)
    ensures r.Some? <==> Has(m, c)
  {
    var i := Find(m, c);
    if i < |m| then Some(m[i].at) else None
  }

  /** `Map.prototype.set`: a present key keeps its place and takes the new
      value; a new key is appended. */
  function Put(m: seq<Entry>, c: Cell, p: Point): (m': seq<Entry>)
    ensures DistinctCells(m) ==> DistinctCells(m')
    ensures Lookup(m', c) == Some(p)
    ensures forall d :: d != c ==> Lookup(m', d) == Lookup(m, d)
    ensures Cells(m') == if Has(m, c) then Cells(m) else Cells(m) + [c]
  {
    var i := Find(m, c);
    if i < |m| then
      PutReplaces(m, i, c, p);
      m[i := Entry(c, p)]
    else
      PutAppends(m, c, p);
      m + [Entry(c, p)]
  }

  /** Setting a present key overwrites its entry in place. */
  lemma PutReplaces(m: seq<Entry>, i: nat, c: Cell, p: Point)
    requires i == Find(m, c) < |m|
    ensures var m' := m[i := Entry(c, p)];
            && (DistinctCells(m) ==> DistinctCells(m'))
            && Lookup(m', c) == Some(p)
            && (forall d :: d != c ==> Lookup(m', d) == Lookup(m, d))
            && Cells(m') == Cells(m)
  {
    var m' := m[i := Entry(c, p)];
    FindSameCells(m, m', c);
    forall d | d != c ensures Lookup(m', d) == Lookup(m, d) {
      FindSameCells(m, m', d);
    }
  }

  /** Setting an absent key appends an entry. */
  lemma PutAppends(m: seq<Entry>, c: Cell, p: Point)
    requires Find(m, c) == |m|
    ensures var m' := m + [Entry(c, p)];
            && (DistinctCells(m) ==> DistinctCells(m'))
            && Lookup(m', c) == Some(p)
            && (forall d :: d != c ==> Lookup(m', d) == Lookup(m, d))
            && Cells(m') == Cells(m) + [c]
  {
    var m' := m + [Entry(c, p)];
    assert m'[..|m|] == m;
    FindPrefix(m, m', c);
    assert Cells(m')[..|m|] == Cells(m);
    forall d | d != c ensures Lookup(m', d) == Lookup(m, d) {
      FindPrefix(m, m', d);
    }
  }

  /** Two maps with the same keys in the same order find a key at the same
      index. */
  lemma FindSameCells(m: seq<Entry>, m': seq<Entry>, c: Cell)
    requires |m| == |m'| && forall i :: 0 <= i < |m| ==> m[i].cell == m'[i].cell
    ensures Find(m, c) == Find(m', c)
  {
  }

  /** Appending an entry does not change where an earlier key is found, and
      a key absent before is found at the appended entry. */
  lemma FindPrefix(m: seq<Entry>, m': seq<Entry>, c: Cell)
    requires |m'| == |m| + 1 && m'[..|m|] == m
    ensures Find(m, c) < |m| ==> Find(m', c) == Find(m, c)
    ensures Find(m, c) == |m| ==> Find(m', c) == (if m'[|m|].cell == c then |m| else |m'|)
  {
    assert forall j :: 0 <= j < |m| ==> m'[j] == m[j];
  }

  // ---------------------------------------------------------------------
  // Placed stones: every history step but the last

  /** The map built by setting, for each usable step in order, its cell to
      its pixel position: one entry per cell, and at most one per step. */
  function Placement(steps: seq<Step>): (m: seq<Entry>)
    ensures DistinctCells(m)
    ensures |m| <= |steps|
  {
    if |steps| == 0 then []
    else
      var m := Placement(steps[..|steps| - 1]);
      var s := steps[|steps| - 1];
      if Usable(s) then Put(m, CellOf(s), PointOf(s)) else m
  }

  /** Step `i` is the latest usable step of `s` on cell `c`. */
  predicate LatestAt(s: seq<Step>, i: int, c: Cell) {
    UsableAt(s, i, c) && forall j :: i < j < |s| ==> !UsableAt(s, j, c)
  }

  /** The first usable step on `c` comes before every usable step on `d`. */
  ghost predicate FirstBefore(s: seq<Step>, c: Cell, d: Cell) {
    exists p :: UsableAt(s, p, c) && forall q :: 0 <= q <= p ==> !UsableAt(s, q, d)
  }

  /** The pixel position of the latest usable step on `c`, if any. */
  function LatestPoint(s: seq<Step>, c: Cell): Option<Point> {
    if |s| == 0 then None
    else if UsableAt(s, |s| - 1, c) then Some(PointOf(s[|s| - 1]))
    else LatestPoint(s[..|s| - 1], c)
  }

  lemma {:induction false} PlacementIsLatest(s: seq<Step>, c: Cell)
    ensures Lookup(Placement(s), c) == LatestPoint(s, c)
  {
    if |s| > 0 {
      PlacementIsLatest(s[..|s| - 1], c);
    }
  }

  lemma {:induction false} LatestPointNone(s: seq<Step>, c: Cell)
    ensures LatestPoint(s, c).None? <==> forall i :: !UsableAt(s, i, c)
  {
    if |s| > 0 {
      var s' := s[..|s| - 1];
      LatestPointNone(s', c);
      if !UsableAt(s, |s| - 1, c) {
        forall i | UsableAt(s, i, c) ensures UsableAt(s', i, c) {
          assert s'[i] == s[i];
        }
        forall i | UsableAt(s', i, c) ensures UsableAt(s, i, c) {
          assert s'[i] == s[i];
        }
      }
    }
  }

  lemma {:induction false} LatestPointAt(s: seq<Step>, c: Cell, i: int)
    requires LatestAt(s, i, c)
    ensures LatestPoint(s, c) == Some(PointOf(s[i]))
  {
    if i < |s| - 1 {
      var s' := s[..|s| - 1];
      assert !UsableAt(s, |s| - 1, c);
      assert s'[i] == s[i];
      forall j | i < j < |s'| ensures !UsableAt(s', j, c) {
        assert s'[j] == s[j];
        assert !UsableAt(s, j, c);
      }
      LatestPointAt(s', c, i);
    }
  }

  lemma {:induction false} LatestPointWitness(s: seq<Step>, c: Cell)
    requires LatestPoint(s, c).Some?
    ensures exists i :: LatestAt(s, i, c) && PointOf(s[i]) == LatestPoint(s, c).value
  {
    if UsableAt(s, |s| - 1, c) {
      assert LatestAt(s, |s| - 1, c);
    } else {
      var s' := s[..|s| - 1];
      LatestPointWitness(s', c);
      var i :| LatestAt(s', i, c) && PointOf(s'[i]) == LatestPoint(s', c).value;
      assert s'[i] == s[i];
      forall j | i < j < |s| ensures !UsableAt(s, j, c) {
        if j < |s'| {
          assert s'[j] == s[j];
          assert !UsableAt(s', j, c);
        }
      }
      assert LatestAt(s, i, c);
    }
  }

  /** A cell has an entry exactly when some usable step lies on it, and the
      entry holds the pixel position of the latest such step. */
  lemma PlacementLatest(s: seq<Step>, c: Cell)
    ensures Lookup(Placement(s), c).None? <==> forall i :: !UsableAt(s, i, c)
    ensures forall i :: LatestAt(s, i, c) ==> Lookup(Placement(s), c) == Some(PointOf(s[i]))
  {
    PlacementIsLatest(s, c);
    LatestPointNone(s, c);
    forall i | LatestAt(s, i, c) ensures LatestPoint(s, c) == Some(PointOf(s[i])) {
      LatestPointAt(s, c, i);
    }
  }

  /** Appending a step keeps every "first before" fact. */
  lemma FirstBeforeGrows(s: seq<Step>, c: Cell, d: Cell)
    requires |s| > 0 && FirstBefore(s[..|s| - 1], c, d)
    ensures FirstBefore(s, c, d)
  {
    var s' := s[..|s| - 1];
    var p :| UsableAt(s', p, c) && forall q :: 0 <= q <= p ==> !UsableAt(s', q, d);
    assert UsableAt(s, p, c);
    forall q | 0 <= q <= p ensures !UsableAt(s, q, d) {
      assert !UsableAt(s', q, d);
    }
  }

  /** When step `t` opens a new entry, every older entry's cell comes first. */
  lemma PlacementOrderNew(s: seq<Step>)
    requires |s| > 0 && Usable(s[|s| - 1])
    requires !Has(Placement(s[..|s| - 1]), CellOf(s[|s| - 1]))
    ensures var m' := Placement(s[..|s| - 1]);
            forall a :: 0 <= a < |m'| ==> FirstBefore(s, m'[a].cell, CellOf(s[|s| - 1]))
  {
    var s' := s[..|s| - 1];
    var ct := CellOf(s[|s| - 1]);
    var m' := Placement(s');
    PlacementLatest(s', ct);
    forall a | 0 <= a < |m'| ensures FirstBefore(s, m'[a].cell, ct) {
      var ca := m'[a].cell;
      PlacementLatest(s', ca);
      assert Has(m', ca);
      var p :| UsableAt(s', p, ca);
      assert UsableAt(s, p, ca);
      forall q | 0 <= q <= p ensures !UsableAt(s, q, ct) {
        assert s'[q] == s[q];
        assert !UsableAt(s', q, ct);
      }
    }
  }

  /** Every entry's cell has its first usable step before that of every
      later entry's cell. */
  ghost predicate InFirstUseOrder(s: seq<Step>, m: seq<Entry>) {
    forall a, b :: 0 <= a < b < |m| ==> FirstBefore(s, m[a].cell, m[b].cell)
  }

  /** Entries come in the order of each cell's first usable step. */
  lemma {:induction false} PlacementOrder(s: seq<Step>)
    ensures InFirstUseOrder(s, Placement(s))
  {
    if |s| > 0 {
      var s' := s[..|s| - 1];
      var t := s[|s| - 1];
      var m', m := Placement(s'), Placement(s);
      PlacementOrder(s');
      assert Cells(m) == Cells(m') || (Usable(t) && Cells(m) == Cells(m') + [CellOf(t)]);
      forall a, b | 0 <= a < b < |m| ensures FirstBefore(s, m[a].cell, m[b].cell) {
        assert m[a].cell == Cells(m)[a] && m[b].cell == Cells(m)[b];
        if b < |m'| {
          assert m[a].cell == Cells(m')[a] && m[b].cell == Cells(m')[b];
          assert InFirstUseOrder(s', m');
          assert FirstBefore(s', m'[a].cell, m'[b].cell);
          FirstBeforeGrows(s, m'[a].cell, m'[b].cell);
        } else {
          assert Usable(t) && !Has(m', CellOf(t)) && m[b].cell == CellOf(t);
          assert m[a].cell == Cells(m')[a];
          PlacementOrderNew(s);
        }
      }
    }
  }

  // ---------------------------------------------------------------------
  // Pre-positioned stones

  /** The codes of all groups, group by group. */
  function Flatten(groups: seq<seq<Option<string>>>): (codes: seq<Option<string>>)
  {
    if |groups| == 0 then []
    else Flatten(groups[..|groups| - 1]) + groups[|groups| - 1]
  }

  lemma {:induction false} FlattenHas(groups: seq<seq<Option<string>>>, code: Option<string>)
    ensures code in Flatten(groups) <==> exists g :: 0 <= g < |groups| && code in groups[g]
  {
    if |groups| > 0 {
      var gs := groups[..|groups| - 1];
      FlattenHas(gs, code);
      assert forall g :: 0 <= g < |gs| ==> gs[g] == groups[g];
      if code in groups[|groups| - 1] {
      } else if exists g :: 0 <= g < |groups| && code in groups[g] {
        var g :| 0 <= g < |groups| && code in groups[g];
        assert g < |gs|;
      }
    }
  }

  /** The cells of the codes that decode and are not already placed, in
      order; repeats among the codes themselves are kept. */
  function PreposCells(codes: seq<Option<string>>, placed: seq<Entry>): (cells: seq<Cell>)
    ensures |cells| <= |codes|
    ensures forall i :: 0 <= i < |cells| ==> !Has(placed, cells[i])
  {
    if |codes| == 0 then []
    else
      var rest := PreposCells(codes[..|codes| - 1], placed);
      var cell := CoordToXY(codes[|codes| - 1]);
      if cell.Some? && !Has(placed, cell.value) then rest + [cell.value] else rest
  }

  /** A cell is pre-positioned exactly when some code decodes to it and no
      placed entry holds it: an occupied cell is never drawn twice. */
  lemma {:induction false} PreposCellsExactly(codes: seq<Option<string>>, placed: seq<Entry>, c: Cell)
    ensures c in PreposCells(codes, placed)
            <==> !Has(placed, c) && exists i :: 0 <= i < |codes| && CoordToXY(codes[i]) == Some(c)
  {
    if |codes| > 0 {
      var cs := codes[..|codes| - 1];
      PreposCellsExactly(cs, placed, c);
      assert forall i :: 0 <= i < |cs| ==> cs[i] == codes[i];
      if exists i :: 0 <= i < |codes| && CoordToXY(codes[i]) == Some(c) {
        var i :| 0 <= i < |codes| && CoordToXY(codes[i]) == Some(c);
        if i < |cs| {
          assert CoordToXY(cs[i]) == Some(c);
        }
      }
    }
  }

  /** The pixel positions of cells under the quarter-turn mapping. */
  function Rotated(anchor: Step, spacing: real, cells: seq<Cell>): (points: seq<Point>)
    requires Usable(anchor)
    ensures |points| == |cells|
    ensures forall i :: 0 <= i < |cells| ==> points[i] == Rotate(anchor, spacing, cells[i])
  {
    if |cells| == 0 then []
    else Rotated(anchor, spacing, cells[..|cells| - 1]) + [Rotate(anchor, spacing, cells[|cells| - 1])]
  }

  // ---------------------------------------------------------------------
  // Drawing

  /** A number the source's `!v` test lets through: nonzero. */
  predicate Truthy(v: real) {
    v != 0.0
  }

  /** The collected points that are drawn: those whose coordinates are both
      truthy, in order. */
  function Visible(points: seq<Point>): (shown: seq<Point>)
    ensures forall p :: p in shown <==> p in points && Truthy(p.px) && Truthy(p.py)
  {
    if |points| == 0 then []
    else
      var last := points[|points| - 1];
      var rest := Visible(points[..|points| - 1]);
      assert points == points[..|points| - 1] + [last];
      if Truthy(last.px) && Truthy(last.py) then rest + [last] else rest
  }

  /** Filtering distributes over concatenation: the points kept from `a`
      come first, in their order, then those kept from `b`. */
  lemma {:induction false} VisibleConcat(a: seq<Point>, b: seq<Point>)
    ensures Visible(a + b) == Visible(a) + Visible(b)
    decreases |b|
  {
    if |b| == 0 {
      assert a + b == a;
    } else {
      var b' := b[..|b| - 1];
      VisibleConcat(a, b');
      assert (a + b)[..|a + b| - 1] == a + b';
      assert (a + b)[|a + b| - 1] == b[|b| - 1];
    }
  }

  /** Points whose coordinates are all truthy are all drawn, in order. */
  lemma {:induction false} VisibleKeepsTruthy(points: seq<Point>)
    requires forall i :: 0 <= i < |points| ==> Truthy(points[i].px) && Truthy(points[i].py)
    ensures Visible(points) == points
  {
    if |points| > 0 {
      VisibleKeepsTruthy(points[..|points| - 1]);
    }
  }

  /** Points each with a falsy coordinate are none of them drawn. */
  lemma {:induction false} VisibleDropsFalsy(points: seq<Point>)
    requires forall i :: 0 <= i < |points| ==> !(Truthy(points[i].px) && Truthy(points[i].py))
    ensures Visible(points) == []
  {
    if |points| > 0 {
      VisibleDropsFalsy(points[..|points| - 1]);
    }
  }

  /** The circle radius: slightly more than half the spacing. */
  function Radius(spacing: real): (r: real)
    ensures spacing > 0.0 ==> spacing / 2.0 < r < spacing
    ensures spacing == 0.0 ==> r == 0.0
  {
    spacing * 0.51
  }

  /** The current stone's colour for move `moveNumber`: black exactly when
      the start colour is black XOR the move is even. */
  function IsBlack(isStartBlack: bool, moveNumber: nat): (black: bool)
    ensures black == (isStartBlack != (moveNumber % 2 == 0))
  {
    (isStartBlack && moveNumber % 2 == 1) || (!isStartBlack && moveNumber % 2 == 0)
  }

  /** The first move has the starting colour. */
  lemma FirstMoveHasStartColour(isStartBlack: bool)
    ensures IsBlack(isStartBlack, 1) == isStartBlack
  {
  }

  /** The colour flips with every move. */
  lemma ColourAlternates(isStartBlack: bool, n: nat)
    ensures IsBlack(isStartBlack, n + 1) == !IsBlack(isStartBlack, n)
  {
  }

  /** The index of the first step with all four numeric fields, or `|h|`:
      the anchor that `Array.prototype.find` returns. */
  function FirstUsable(h: seq<Step>): (i: nat)
    ensures i <= |h|
    ensures i < |h| ==> Usable(h[i])
    ensures forall j :: 0 <= j < i ==> !Usable(h[j])
  {
    if |h| == 0 then 0
    else if Usable(h[0]) then 0
    else 1 + FirstUsable(h[1..])
  }

  /** The highlighted stone, when the last step's pixel coordinates are both
      truthy; it is labelled with the history length. */
  function CurrentStoneOf(h: seq<Step>, isStartBlack: bool): (current: Option<CurrentStone>)
    requires |h| > 0
    ensures current.Some? ==> current.value.moveNumber == |h| >= 1
    ensures current.Some? ==> (current.value.isBlack == isStartBlack <==> |h| % 2 == 1)
  {
    var last := h[|h| - 1];
    if last.px.Some? && Truthy(last.px.value) && last.py.Some? && Truthy(last.py.value) then
      Some(CurrentStone(Point(last.px.value, last.py.value), |h|, IsBlack(isStartBlack, |h|)))
    else None
  }

  /** The history of a model that passes the render's guards. */
  predicate Renderable(model: Option<GameModel>) {
    model.Some? && model.value.stepHistory.Some? && |model.value.stepHistory.value| >= 2
  }

  /** The points collected before drawing: the placed ones in map order,
      then the pre-positioned ones. */
  function Collected(model: GameModel, anchor: Step, spacing: real): seq<Point>
    requires model.stepHistory.Some? && |model.stepHistory.value| >= 1 && Usable(anchor)
  {
    var h := model.stepHistory.value;
    var placed := Placement(h[..|h| - 1]);
    Values(placed)
      + if model.prepos.Some?
        then Rotated(anchor, spacing, PreposCells(Flatten(model.prepos.value), placed))
        else []
  }

  /** What one render does: a drawn plan has a non-negative radius, draws
      only points with truthy coordinates, and labels its current stone with
      a move number of at least 2. */
  function PlanFor(model: Option<GameModel>): (plan: RenderPlan)
    ensures plan.Drawn? ==> plan.radius >= 0.0
    ensures plan.Drawn? ==> forall p :: p in plan.stones ==> Truthy(p.px) && Truthy(p.py)
    ensures plan.Drawn? && plan.current.Some? ==> plan.current.value.moveNumber >= 2
  {
    if !Renderable(model) then Untouched
    else
      var h := model.value.stepHistory.value;
      var spacing := GuessSpacing(model.value.stepHistory);
      var a := FirstUsable(h);
      if a == |h| then Cleared
      else
        Drawn(Radius(spacing),
              Visible(Collected(model.value, h[a], spacing)),
              CurrentStoneOf(h, model.value.isStartBlack))
  }

  // ---------------------------------------------------------------------
  // The render, step by step

  /** Fills the position map from every history step but the last: a
      later step on the same cell overwrites the pixel position. */
  method CollectPositions(steps: seq<Step>) returns (currentPositions: seq<Entry>)
    ensures currentPositions == Placement(steps)
  {
    currentPositions := [];
    for i := 0 to |steps|
      invariant currentPositions == Placement(steps[..i])
    {
      PlacementSnoc(steps, i);
      var step := steps[i];
      if Usable(step) {
        currentPositions := Put(currentPositions, CellOf(step), PointOf(step));
      }
    }
    assert steps[..|steps|] == steps;
  }

  /** The map after one more step. */
  lemma PlacementSnoc(steps: seq<Step>, i: nat)
    requires i < |steps|
    ensures Placement(steps[..i + 1])
            == if Usable(steps[i]) then Put(Placement(steps[..i]), CellOf(steps[i]), PointOf(steps[i]))
               else Placement(steps[..i])
  {
    assert steps[..i + 1][..i] == steps[..i];
  }

  /** Pushes the map's values, in key order, onto the point list. */
  method PushPlaced(currentPositions: seq<Entry>) returns (drawnPoints: seq<Point>)
    ensures drawnPoints == Values(currentPositions)
  {
    drawnPoints := [];
    for i := 0 to |currentPositions|
      invariant drawnPoints == Values(currentPositions[..i])
    {
      assert currentPositions[..i + 1][..i] == currentPositions[..i];
      drawnPoints := drawnPoints + [currentPositions[i].at];
    }
    assert currentPositions[..|currentPositions|] == currentPositions;
  }

  /** The pre-positioned points of a list of codes. */
  function PreposPoints(codes: seq<Option<string>>, placed: seq<Entry>, anchor: Step, spacing: real): seq<Point>
    requires Usable(anchor)
  {
    Rotated(anchor, spacing, PreposCells(codes, placed))
  }

  /** One more code adds its mapped point exactly when it decodes to a cell
      that is not placed. */
  lemma PreposPointsSnoc(codes: seq<Option<string>>, code: Option<string>, placed: seq<Entry>,
                         anchor: Step, spacing: real)
    requires Usable(anchor)
    ensures var cell := CoordToXY(code);
            PreposPoints(codes + [code], placed, anchor, spacing)
            == PreposPoints(codes, placed, anchor, spacing)
               + if cell.Some? && !Has(placed, cell.value) then [Rotate(anchor, spacing, cell.value)] else []
  {
    assert (codes + [code])[..|codes|] == codes;
    var cells := PreposCells(codes, placed);
    var cell := CoordToXY(code);
    if cell.Some? && !Has(placed, cell.value) {
      assert (cells + [cell.value])[..|cells|] == cells;
    }
  }

  /** Pushes the mapped position of every code of one group that decodes
      to a cell not in the map. */
  method PushGroup(group: seq<Option<string>>, currentPositions: seq<Entry>,
                   anchor: Step, spacing: real, ghost before: seq<Option<string>>, drawnPoints: seq<Point>)
    returns (drawn: seq<Point>)
    requires Usable(anchor)
    requires drawnPoints == PreposPoints(before, currentPositions, anchor, spacing)
    ensures drawn == PreposPoints(before + group, currentPositions, anchor, spacing)
  {
    drawn := drawnPoints;
    assert before + group[..0] == before;
    for k := 0 to |group|
      invariant drawn == PreposPoints(before + group[..k], currentPositions, anchor, spacing)
    {
      PreposPointsSnoc(before + group[..k], group[k], currentPositions, anchor, spacing);
      assert before + group[..k + 1] == before + group[..k] + [group[k]];
      var point := CoordToXY(group[k]);
      if point.None? {
        continue;
      }
      if Has(currentPositions, point.value) {
        continue;
      }
      drawn := drawn + [Rotate(anchor, spacing, point.value)];
    }
    assert group[..|group|] == group;
  }

  /** Pushes the mapped position of every pre-positioned code, group by
      group, that decodes to a cell not in the map. */
  method PushPrepos(groups: seq<seq<Option<string>>>, currentPositions: seq<Entry>,
                    anchor: Step, spacing: real)
    returns (drawn: seq<Point>)
    requires Usable(anchor)
    ensures drawn == PreposPoints(Flatten(groups), currentPositions, anchor, spacing)
  {
    drawn := [];
    for g := 0 to |groups|
      invariant drawn == PreposPoints(Flatten(groups[..g]), currentPositions, anchor, spacing)
    {
      assert groups[..g + 1][..g] == groups[..g];
      assert Flatten(groups[..g + 1]) == Flatten(groups[..g]) + groups[g];
      drawn := PushGroup(groups[g], currentPositions, anchor, spacing, Flatten(groups[..g]), drawn);
    }
    assert groups[..|groups|] == groups;
  }

  /** The circles drawn: every collected point whose coordinates are both
      truthy. */
  method DrawCircles(drawnPoints: seq<Point>) returns (stones: seq<Point>)
    ensures stones == Visible(drawnPoints)
  {
    stones := [];
    for i := 0 to |drawnPoints|
      invariant stones == Visible(drawnPoints[..i])
    {
      assert drawnPoints[..i + 1][..i] == drawnPoints[..i];
      var p := drawnPoints[i];
      if Truthy(p.px) && Truthy(p.py) {
        stones := stones + [p];
      }
    }
    assert drawnPoints[..|drawnPoints|] == drawnPoints;
  }

  /** One render: the guards, the spacing and anchor, the collected points,
      the circles and the current stone. */
  method DrawAllDots(model: Option<GameModel>) returns (plan: RenderPlan)
    ensures plan == PlanFor(model)
  {
    if model.None? || model.value.stepHistory.None? {
      return Untouched;
    }
    var history := model.value.stepHistory.value;
    if |history| < 2 {
      return Untouched;
    }
    // From here on the surface has been cleared.
    var spacing := GuessSpacing(model.value.stepHistory);
    var radius := Radius(spacing);
    var origin := FirstUsable(history);
    if origin == |history| {
      return Cleared;
    }
    var anchor := history[origin];

    var currentPositions := CollectPositions(history[..|history| - 1]);
    var drawnPoints := PushPlaced(currentPositions);
    if model.value.prepos.Some? {
      var prepos := PushPrepos(model.value.prepos.value, currentPositions, anchor, spacing);
      drawnPoints := drawnPoints + prepos;
    }
    assert drawnPoints == Collected(model.value, anchor, spacing);
    var stones := DrawCircles(drawnPoints);

    var current: Option<CurrentStone> := None;
    var lastStep := history[|history| - 1];
    if lastStep.px.Some? && Truthy(lastStep.px.value) && lastStep.py.Some? && Truthy(lastStep.py.value) {
      var moveNum := |history|;
      current := Some(CurrentStone(Point(lastStep.px.value, lastStep.py.value), moveNum,
                                   IsBlack(model.value.isStartBlack, moveNum)));
    }
    PlanForDrawn(model);
    plan := Drawn(radius, stones, current);
  }

  /** The plan of a render that passes its guards and has an anchor. */
  lemma PlanForDrawn(model: Option<GameModel>)
    requires Renderable(model) && FirstUsable(model.value.stepHistory.value) < |model.value.stepHistory.value|
    ensures var h := model.value.stepHistory.value;
            var spacing := GuessSpacing(model.value.stepHistory);
            PlanFor(model)
            == Drawn(Radius(spacing), Visible(Collected(model.value, h[FirstUsable(h)], spacing)),
                     CurrentStoneOf(h, model.value.isStartBlack))
  {
  }

  // ---------------------------------------------------------------------
  // What a render draws

  /** Some step of `steps` is usable and lies on `c`. */
  ghost predicate Occupied(steps: seq<Step>, c: Cell) {
    exists i :: UsableAt(steps, i, c)
  }

  /** `p` is the pixel position of the latest usable step on its cell among
      all history steps but the last. */
  ghost predicate IsPlacedStone(h: seq<Step>, p: Point)
    requires |h| > 0
  {
    var steps := h[..|h| - 1];
    exists i, c :: LatestAt(steps, i, c) && p == PointOf(steps[i])
  }

  /** `p` is the mapped position of a pre-positioned code whose cell no
      history step but the last occupies. */
  ghost predicate IsPreposStone(model: GameModel, anchor: Step, spacing: real, p: Point)
    requires model.stepHistory.Some? && |model.stepHistory.value| > 0 && Usable(anchor)
  {
    var h := model.stepHistory.value;
    var steps := h[..|h| - 1];
    && model.prepos.Some?
    && exists code, c ::
         && code in Flatten(model.prepos.value)
         && CoordToXY(code) == Some(c)
         && !Occupied(steps, c)
         && p == Rotate(anchor, spacing, c)
  }

  /** The render leaves the surface untouched exactly when the model is
      missing, its history is not an array or has fewer than two steps; it
      clears the surface and draws nothing exactly when, besides, no step
      has all four numeric fields. */
  lemma RenderGuards(model: Option<GameModel>)
    ensures PlanFor(model).Untouched? <==> !Renderable(model)
    ensures PlanFor(model).Cleared?
            <==> Renderable(model)
                 && forall i :: 0 <= i < |model.value.stepHistory.value| ==> !Usable(model.value.stepHistory.value[i])
  {
  }

  /** The stones drawn: the visible placed stones in map order, then the
      visible pre-positioned stones in code order. */
  lemma DrawnStonesInOrder(model: GameModel)
    requires PlanFor(Some(model)).Drawn?
    ensures var h := model.stepHistory.value;
            var placed := Placement(h[..|h| - 1]);
            && FirstUsable(h) < |h|
            && PlanFor(Some(model)).stones
               == Visible(Values(placed))
                  + if model.prepos.Some?
                    then Visible(PreposPoints(Flatten(model.prepos.value), placed, h[FirstUsable(h)],
                                              GuessSpacing(model.stepHistory)))
                    else []
  {
    var h := model.stepHistory.value;
    RenderGuards(Some(model));
    PlanForDrawn(Some(model));
    var placed := Placement(h[..|h| - 1]);
    var anchor := h[FirstUsable(h)];
    var spacing := GuessSpacing(model.stepHistory);
    if model.prepos.Some? {
      var rest := PreposPoints(Flatten(model.prepos.value), placed, anchor, spacing);
      assert Collected(model, anchor, spacing) == Values(placed) + rest;
      VisibleConcat(Values(placed), rest);
    } else {
      assert Collected(model, anchor, spacing) == Values(placed) + [];
      VisibleConcat(Values(placed), []);
    }
  }

  /** The radius of a drawn plan is 0.51 times the pixel-to-grid ratio of
      the first informative pair of history steps: more than half that
      ratio and less than all of it, when it is positive. */
  lemma DrawnRadiusFromPair(model: GameModel, i: nat)
    requires PlanFor(Some(model)).Drawn? && FirstInformative(model.stepHistory.value, i)
    ensures var h := model.stepHistory.value;
            var ratio := Ratio(h[i], h[i + 1]);
            var r := PlanFor(Some(model)).radius;
            && r == ratio * 0.51
            && (ratio > 0.0 ==> ratio / 2.0 < r < ratio)
  {
    SpacingIsFirstRatio(model.stepHistory.value, i);
  }

  /** With no informative pair, the radius is 0.51 times 40 pixels. */
  lemma DrawnRadiusFallback(model: GameModel)
    requires PlanFor(Some(model)).Drawn?
    requires var h := model.stepHistory.value;
             forall j :: 0 <= j && j + 1 < |h| ==> !Informative(h[j], h[j + 1])
    ensures PlanFor(Some(model)).radius == 20.4
  {
    SpacingFallsBack(model.stepHistory.value);
  }

  /** Appending a step: the current stone becomes that step, present
      exactly when both its pixel coordinates are truthy, its label grows by
      one and its colour flips; the first move has the starting colour. */
  lemma CurrentStoneNext(h: seq<Step>, s: Step, isStartBlack: bool)
    ensures var next := CurrentStoneOf(h + [s], isStartBlack);
            && (next.Some? <==> s.px.Some? && s.py.Some? && Truthy(s.px.value) && Truthy(s.py.value))
            && (next.Some? ==> next.value.at == Point(s.px.value, s.py.value))
            && (|h| == 0 && next.Some? ==> next.value.moveNumber == 1 && next.value.isBlack == isStartBlack)
            && (|h| > 0 && next.Some? && CurrentStoneOf(h, isStartBlack).Some? ==>
                  && next.value.moveNumber == CurrentStoneOf(h, isStartBlack).value.moveNumber + 1
                  && next.value.isBlack == !CurrentStoneOf(h, isStartBlack).value.isBlack)
  {
    assert (h + [s])[|h + [s]| - 1] == s;
  }

  /** Every position the placement map holds is the latest position of
      some cell. */
  lemma PlacedOrigin(steps: seq<Step>, p: Point)
    requires p in Values(Placement(steps))
    ensures exists i, c :: LatestAt(steps, i, c) && p == PointOf(steps[i])
  {
    var placed := Placement(steps);
    var k :| 0 <= k < |placed| && Values(placed)[k] == p;
    var c := placed[k].cell;
    assert Find(placed, c) == k;
    PlacementIsLatest(steps, c);
    LatestPointWitness(steps, c);
    var i :| LatestAt(steps, i, c) && PointOf(steps[i]) == p;
  }

  /** Every mapped pre-positioned point comes from a code whose cell no
      step occupies. */
  lemma PreposOrigin(steps: seq<Step>, codes: seq<Option<string>>, anchor: Step, spacing: real, p: Point)
    requires Usable(anchor)
    requires p in Rotated(anchor, spacing, PreposCells(codes, Placement(steps)))
    ensures exists code, c ::
              && code in codes
              && CoordToXY(code) == Some(c)
              && !Occupied(steps, c)
              && p == Rotate(anchor, spacing, c)
  {
    var placed := Placement(steps);
    var cells := PreposCells(codes, placed);
    var k :| 0 <= k < |cells| && p == Rotated(anchor, spacing, cells)[k];
    var c := cells[k];
    PreposCellsExactly(codes, placed, c);
    var j :| 0 <= j < |codes| && CoordToXY(codes[j]) == Some(c);
    PlacementLatest(steps, c);
    assert codes[j] in codes;
  }

  /** Every circle drawn has truthy coordinates and is either a placed
      stone or a pre-positioned stone on an unoccupied cell. */
  lemma StoneOrigin(model: GameModel, p: Point)
    requires PlanFor(Some(model)).Drawn? && p in PlanFor(Some(model)).stones
    ensures Truthy(p.px) && Truthy(p.py)
    ensures var h := model.stepHistory.value;
            && FirstUsable(h) < |h|
            && (IsPlacedStone(h, p) || IsPreposStone(model, h[FirstUsable(h)], GuessSpacing(model.stepHistory), p))
  {
    var h := model.stepHistory.value;
    RenderGuards(Some(model));
    PlanForDrawn(Some(model));
    CollectedOrigin(model, h[FirstUsable(h)], GuessSpacing(model.stepHistory), p);
  }

  /** Every collected point is a placed or a pre-positioned stone. */
  lemma CollectedOrigin(model: GameModel, anchor: Step, spacing: real, p: Point)
    requires model.stepHistory.Some? && |model.stepHistory.value| >= 1 && Usable(anchor)
    requires p in Collected(model, anchor, spacing)
    ensures IsPlacedStone(model.stepHistory.value, p) || IsPreposStone(model, anchor, spacing, p)
  {
    var h := model.stepHistory.value;
    var steps := h[..|h| - 1];
    var placed := Placement(steps);
    if p in Values(placed) {
      PlacedOrigin(steps, p);
      assert IsPlacedStone(h, p);
    } else {
      assert model.prepos.Some?;
      var codes := Flatten(model.prepos.value);
      assert p in Rotated(anchor, spacing, PreposCells(codes, placed));
      PreposOrigin(steps, codes, anchor, spacing, p);
      assert IsPreposStone(model, anchor, spacing, p);
    }
  }

  /** The latest position of every occupied cell is drawn, unless one of
      its coordinates is 0. */
  lemma PlacedStoneDrawn(model: GameModel, i: nat, c: Cell)
    requires PlanFor(Some(model)).Drawn?
    requires var h := model.stepHistory.value;
             LatestAt(h[..|h| - 1], i, c) && Truthy(h[i].px.value) && Truthy(h[i].py.value)
    ensures PointOf(model.stepHistory.value[i]) in PlanFor(Some(model)).stones
  {
    var h := model.stepHistory.value;
    LatestInPlacement(h[..|h| - 1], i, c);
    PlacedPointDrawn(model, PointOf(h[i]));
  }

  /** The placement map holds the latest position of every occupied cell. */
  lemma LatestInPlacement(steps: seq<Step>, i: nat, c: Cell)
    requires LatestAt(steps, i, c)
    ensures PointOf(steps[i]) in Values(Placement(steps))
  {
    var placed := Placement(steps);
    PlacementLatest(steps, c);
    var k := Find(placed, c);
    assert Values(placed)[k] == PointOf(steps[i]);
  }

  /** Every value of the placement map with truthy coordinates is drawn. */
  lemma PlacedPointDrawn(model: GameModel, p: Point)
    requires PlanFor(Some(model)).Drawn?
    requires var h := model.stepHistory.value;
             p in Values(Placement(h[..|h| - 1])) && Truthy(p.px) && Truthy(p.py)
    ensures p in PlanFor(Some(model)).stones
  {
    var h := model.stepHistory.value;
    var collected := Collected(model, h[FirstUsable(h)], GuessSpacing(model.stepHistory));
    assert p in collected;
  }

  /** A pre-positioned code that decodes to a cell no history step but the
      last occupies is drawn at its mapped position, unless one of its
      coordinates is 0. */
  lemma PreposStoneDrawn(model: GameModel, code: Option<string>, c: Cell)
    requires PlanFor(Some(model)).Drawn? && model.prepos.Some?
    requires code in Flatten(model.prepos.value) && CoordToXY(code) == Some(c)
    requires var h := model.stepHistory.value;
             !Occupied(h[..|h| - 1], c)
    ensures var h := model.stepHistory.value;
            var p := Rotate(h[FirstUsable(h)], GuessSpacing(model.stepHistory), c);
            Truthy(p.px) && Truthy(p.py) ==> p in PlanFor(Some(model)).stones
  {
    var h := model.stepHistory.value;
    var steps := h[..|h| - 1];
    var placed := Placement(steps);
    var codes := Flatten(model.prepos.value);
    PlacementLatest(steps, c);
    var j :| 0 <= j < |codes| && codes[j] == code;
    PreposCellsExactly(codes, placed, c);
    var cells := PreposCells(codes, placed);
    var k :| 0 <= k < |cells| && cells[k] == c;
    var anchor := h[FirstUsable(h)];
    var spacing := GuessSpacing(model.stepHistory);
    assert Rotated(anchor, spacing, cells)[k] == Rotate(anchor, spacing, c);
    assert Rotate(anchor, spacing, c) in Collected(model, anchor, spacing);
  }

  /** A pre-positioned code whose cell some history step but the last
      occupies yields no pre-positioned stone. */
  lemma OccupiedCellSuppressed(model: GameModel, code: Option<string>, c: Cell, i: nat)
    requires model.stepHistory.Some? && |model.stepHistory.value| > 0 && model.prepos.Some?
    requires CoordToXY(code) == Some(c)
    requires var h := model.stepHistory.value;
             UsableAt(h[..|h| - 1], i, c)
    ensures var h := model.stepHistory.value;
            c !in PreposCells(Flatten(model.prepos.value), Placement(h[..|h| - 1]))
  {
    var h := model.stepHistory.value;
    PlacementLatest(h[..|h| - 1], c);
    PreposCellsExactly(Flatten(model.prepos.value), Placement(h[..|h| - 1]), c);
  }
}
