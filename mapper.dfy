/** Coordinate mapping for pre-positioned stones: decoding a two-letter
    grid code, and the quarter-turn that carries a grid cell into the
    pixel frame fixed by the anchor step and the spacing. */
module Mapper {
  import opened Wrappers
  import opened Stones
  import opened Geometry

  /** A value `as char` accepts: a Unicode scalar value. */
  predicate IsCharCode(n: int) {
    (0 <= n < 0xD800) || (0xE000 <= n < 0x11_0000)
  }

  /** Decodes a grid code: no result when the code is missing or its length
      is not 2; otherwise each character's distance from 'a', with no range
      check (so 'A' gives -32). */
  function CoordToXY(coord: Option<string>): (cell: Option<Cell>)
    ensures cell.None? <==> coord.None? || |coord.value| != 2
  {
    if coord.None? || |coord.value| != 2 then None
    else Some(Cell(coord.value[0] as int - 'a' as int, coord.value[1] as int - 'a' as int))
  }

  /** The cells that some two-character code denotes. */
  predicate Encodable(c: Cell) {
    IsCharCode('a' as int + c.x) && IsCharCode('a' as int + c.y)
  }

  /** The code of a cell: the inverse of `CoordToXY`. */
  function XYToCoord(c: Cell): (code: string)
    requires Encodable(c)
    ensures |code| == 2
  {
    [('a' as int + c.x) as char, ('a' as int + c.y) as char]
  }

  /** Decoding the code of a cell gives the cell back. */
  lemma DecodeEncode(c: Cell)
    requires Encodable(c)
    ensures CoordToXY(Some(XYToCoord(c))) == Some(c)
  {
  }

  /** Every two-character code decodes, and encoding the result gives the
      code back: no two codes decode to the same cell. */
  lemma EncodeDecode(code: string)
    requires |code| == 2
    ensures CoordToXY(Some(code)).Some?
    ensures Encodable(CoordToXY(Some(code)).value)
    ensures XYToCoord(CoordToXY(Some(code)).value) == code
  {
    var c := CoordToXY(Some(code)).value;
    assert 'a' as int + c.x == code[0] as int;
    assert 'a' as int + c.y == code[1] as int;
  }

  /** The pixel position of a pre-positioned stone on `target`: the grid
      frame is turned a quarter about the anchor, then scaled by `spacing`
      and placed at the anchor's pixel position. In closed form, a step
      along the grid's y axis moves left along the pixel x axis, and one
      along the grid's x axis moves down the pixel y axis. */
  function Rotate(anchor: Step, spacing: real, target: Cell): (p: Point)
    requires Usable(anchor)
    ensures p.px == anchor.px.value - (target.y - anchor.y.value) as real * spacing
    ensures p.py == anchor.py.value + (target.x - anchor.x.value) as real * spacing
  {
    var originX, originY := anchor.x.value, anchor.y.value;
    var rotatedX := originX - (target.y - originY);
    var rotatedY := originY + (target.x - originX);
    assert (rotatedX - originX) as real * spacing == -((target.y - originY) as real * spacing);
    Point(anchor.px.value + (rotatedX - originX) as real * spacing,
          anchor.py.value + (rotatedY - originY) as real * spacing)
  }

  /** Manhattan distances from the anchor are scaled by the spacing. */
  lemma RotateScalesDistance(anchor: Step, spacing: real, target: Cell)
    requires Usable(anchor) && spacing >= 0.0
    ensures var p := Rotate(anchor, spacing, target);
            AbsReal(p.px - anchor.px.value) + AbsReal(p.py - anchor.py.value)
            == (AbsInt(target.x - anchor.x.value) + AbsInt(target.y - anchor.y.value)) as real * spacing
  {
    var dx, dy := target.x - anchor.x.value, target.y - anchor.y.value;
    ScaledAbs(-dy, spacing);
    ScaledAbs(dx, spacing);
    assert (-dy) as real * spacing == -(dy as real * spacing);
  }

  lemma ScaledAbs(d: int, s: real)
    requires s >= 0.0
    ensures AbsReal(d as real * s) == AbsInt(d) as real * s
  {
    if d < 0 {
      assert d as real * s == -((-d) as real * s);
    }
  }

  /** A pre-positioned stone on another cell than the anchor's, paired with
      the anchor, has the spacing as its pixel-to-grid ratio: the mapping
      agrees with the spacing estimate. */
  lemma RotateKeepsRatio(anchor: Step, spacing: real, target: Cell)
    requires Usable(anchor) && spacing >= 0.0 && target != CellOf(anchor)
    ensures var p := Rotate(anchor, spacing, target);
            var stone := Step(Some(target.x), Some(target.y), Some(p.px), Some(p.py));
            Informative(anchor, stone) && Ratio(anchor, stone) == spacing
  {
    var p := Rotate(anchor, spacing, target);
    var stone := Step(Some(target.x), Some(target.y), Some(p.px), Some(p.py));
    var g := GridDistance(anchor, stone);
    assert g > 0;
    RotateScalesDistance(anchor, spacing, target);
    assert PixelDistance(anchor, stone) == g as real * spacing;
  }

  /** The anchor's own cell lands on the anchor's pixel position. */
  lemma RotateFixesAnchor(anchor: Step, spacing: real)
    requires Usable(anchor)
    ensures Rotate(anchor, spacing, CellOf(anchor)) == PointOf(anchor)
  {
  }

  /** The map is a quarter turn: one cell along x moves one spacing down
      the pixel y axis, one cell along y moves one spacing left along the
      pixel x axis. */
  lemma RotateIsQuarterTurn(anchor: Step, spacing: real, target: Cell)
    requires Usable(anchor)
    ensures var p := Rotate(anchor, spacing, target);
            && Rotate(anchor, spacing, Cell(target.x + 1, target.y)) == Point(p.px, p.py + spacing)
            && Rotate(anchor, spacing, Cell(target.x, target.y + 1)) == Point(p.px - spacing, p.py)
  {
    var dx := (target.x - anchor.x.value) as real;
    var dy := (target.y - anchor.y.value) as real;
    assert (dx + 1.0) * spacing == dx * spacing + spacing;
    assert (-(dy + 1.0)) * spacing == (-dy) * spacing - spacing;
  }

  /** With a nonzero spacing, distinct cells land on distinct points. */
  lemma RotateInjective(anchor: Step, spacing: real, a: Cell, b: Cell)
    requires Usable(anchor) && spacing != 0.0
    ensures Rotate(anchor, spacing, a) == Rotate(anchor, spacing, b) <==> a == b
  {
    if Rotate(anchor, spacing, a) == Rotate(anchor, spacing, b) {
      var ay, yb := (a.y - anchor.y.value) as real, (b.y - anchor.y.value) as real;
      var ax, bx := (a.x - anchor.x.value) as real, (b.x - anchor.x.value) as real;
      assert ay * spacing == yb * spacing && ax * spacing == bx * spacing;
      CancelFactor(ay, yb, spacing);
      CancelFactor(ax, bx, spacing);
    }
  }

  lemma CancelFactor(u: real, v: real, s: real)
    requires s != 0.0 && u * s == v * s
    ensures u == v
  {
    assert (u - v) * s == 0.0;
    ZeroFactor(u - v, s);
  }

  lemma ZeroFactor(x: real, s: real)
    requires s != 0.0 && x * s == 0.0
    ensures x == 0.0
  {
    assert x == (x * s) / s;
  }

  /** Anchor (0,0) at pixel (100,100), spacing 40: cell (1,0) lands at
      pixel (100,140). */
  lemma RotateExample()
    ensures Rotate(Step(Some(0), Some(0), Some(100.0), Some(100.0)), 40.0, Cell(1, 0))
            == Point(100.0, 140.0)
  {
  }
}
