/** The host game's data as the overlay engine reads it: history steps,
    grid cells, pixel points and the game model object. */
module Stones {
  import opened Wrappers

  /** One entry of `step_history`. A field is `None` when it is missing or
      its `typeof` is not `'number'`. Grid coordinates are integers; pixel
      coordinates may be fractional. */
  datatype Step = Step(x: Option<int>, y: Option<int>, px: Option<real>, py: Option<real>)

  /** A grid cell; the source keys its maps by the string `"x,y"`, which is
      equal for two integer pairs exactly when the pairs are equal. */
  datatype Cell = Cell(x: int, y: int)

  /** A position in the host canvas's pixel space. */
  datatype Point = Point(px: real, py: real)

  /** The game-state object. `stepHistory` is `None` when `step_history`
      is not an array, `prepos` is `None` when `prepos` is not an array;
      a coordinate code is `None` when it is missing or not a string.
      `isStartBlack` is the truthiness of `is_start_black`. */
  datatype GameModel = GameModel(
    stepHistory: Option<seq<Step>>,
    prepos: Option<seq<seq<Option<string>>>>,
    isStartBlack: bool)

  /** All four of `x`, `y`, `px`, `py` are numbers. */
  predicate Usable(s: Step) {
    s.x.Some? && s.y.Some? && s.px.Some? && s.py.Some?
  }

  function CellOf(s: Step): Cell
    requires Usable(s)
  {
    Cell(s.x.value, s.y.value)
  }

  function PointOf(s: Step): Point
    requires Usable(s)
  {
    Point(s.px.value, s.py.value)
  }

  /** Step `i` of `s` is usable and lies on cell `c`. */
  predicate UsableAt(s: seq<Step>, i: int, c: Cell) {
    0 <= i < |s| && Usable(s[i]) && CellOf(s[i]) == c
  }
}
