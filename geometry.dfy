/** Geometry inference: pixels per grid unit, estimated from the first
    informative pair of consecutive history steps. */
module Geometry {
  import opened Wrappers
  import opened Stones

  /** The spacing used when the history tells nothing. */
  const FallbackSpacing: real := 40.0

  function AbsInt(v: int): nat {
    if v < 0 then -v else v
  }

  function AbsReal(v: real): real {
    if v < 0.0 then -v else v
  }

  /** Manhattan distance of two usable steps in grid units. */
  function GridDistance(a: Step, b: Step): nat
    requires Usable(a) && Usable(b)
  {
    AbsInt(b.x.value - a.x.value) + AbsInt(b.y.value - a.y.value)
  }

  /** Manhattan distance of two usable steps in pixels. */
  function PixelDistance(a: Step, b: Step): real
    requires Usable(a) && Usable(b)
  {
    AbsReal(b.px.value - a.px.value) + AbsReal(b.py.value - a.py.value)
  }

  /** A pair of consecutive steps the estimate may use: both have all four
      numeric fields and they lie on different cells. */
  predicate Informative(a: Step, b: Step) {
    Usable(a) && Usable(b) && GridDistance(a, b) != 0
  }

  /** Pixels per grid unit over an informative pair: never negative, and
      zero exactly when both steps sit at the same pixel position. */
  function Ratio(a: Step, b: Step): (r: real)
    requires Informative(a, b)
    ensures r >= 0.0
    ensures r == 0.0 <==> PointOf(a) == PointOf(b)
  {
    var d := GridDistance(a, b) as real;
    var p := PixelDistance(a, b);
    assert p >= 0.0 && d > 0.0;
    assert p == 0.0 <==> PointOf(a) == PointOf(b);
    assert p / d * d == p;
    p / d
  }

  /** The pair (i, i + 1) is the first informative pair of `h`. */
  predicate FirstInformative(h: seq<Step>, i: nat) {
    && i + 1 < |h|
    && Informative(h[i], h[i + 1])
    && forall j :: 0 <= j < i ==> !Informative(h[j], h[j + 1])
  }

  /** The spacing estimate over a history (`None`: not an array). */
  function GuessSpacing(history: Option<seq<Step>>): (spacing: real)
    ensures spacing >= 0.0
    ensures history.None? || |history.value| < 2 ==> spacing == FallbackSpacing
  {
    if history.None? || |history.value| < 2 then FallbackSpacing
    else ScanPairs(history.value, 0)
  }

  /** The scan over the pairs (j, j + 1) with j >= i; the first informative
      pair decides, and the fallback applies when there is none. */
  function ScanPairs(h: seq<Step>, i: nat): (spacing: real)
    decreases |h| - i
    ensures spacing >= 0.0
  {
    if i + 1 >= |h| then FallbackSpacing
    else if Informative(h[i], h[i + 1]) then Ratio(h[i], h[i + 1])
    else ScanPairs(h, i + 1)
  }

  lemma {:induction false} ScanReachesFirst(h: seq<Step>, k: nat, i: nat)
    requires k <= i && FirstInformative(h, i)
    ensures ScanPairs(h, k) == Ratio(h[i], h[i + 1])
    decreases i - k
  {
    if k < i {
      ScanReachesFirst(h, k + 1, i);
    }
  }

  lemma {:induction false} ScanFindsNothing(h: seq<Step>, k: nat)
    requires forall j :: k <= j && j + 1 < |h| ==> !Informative(h[j], h[j + 1])
    ensures ScanPairs(h, k) == FallbackSpacing
    decreases |h| - k
  {
    if k + 1 < |h| {
      ScanFindsNothing(h, k + 1);
    }
  }

  /** When some adjacent pair is informative, the spacing is the ratio of
      pixel to grid Manhattan distance of the first such pair. */
  lemma SpacingIsFirstRatio(h: seq<Step>, i: nat)
    requires FirstInformative(h, i)
    ensures GuessSpacing(Some(h)) == Ratio(h[i], h[i + 1])
  {
    ScanReachesFirst(h, 0, i);
  }

  /** When no adjacent pair is informative, the spacing is the fallback. */
  lemma SpacingFallsBack(h: seq<Step>)
    requires forall j :: 0 <= j && j + 1 < |h| ==> !Informative(h[j], h[j + 1])
    ensures GuessSpacing(Some(h)) == FallbackSpacing
  {
    if |h| >= 2 {
      ScanFindsNothing(h, 0);
    }
  }

  /** A pair on the same cell is skipped even when all its fields are
      numbers: the next informative pair decides. */
  lemma SameCellPairSkipped()
    ensures GuessSpacing(Some([
      Step(Some(0), Some(0), Some(100.0), Some(100.0)),
      Step(Some(0), Some(0), Some(105.0), Some(100.0)),
      Step(Some(0), Some(2), Some(105.0), Some(150.0))])) == 25.0
  {
    var h := [
      Step(Some(0), Some(0), Some(100.0), Some(100.0)),
      Step(Some(0), Some(0), Some(105.0), Some(100.0)),
      Step(Some(0), Some(2), Some(105.0), Some(150.0))];
    assert !Informative(h[0], h[1]);
    SpacingIsFirstRatio(h, 1);
  }

  /** One grid step to the right over 40 pixels gives spacing 40. */
  lemma OneStepExample()
    ensures GuessSpacing(Some([
      Step(Some(0), Some(0), Some(100.0), Some(100.0)),
      Step(Some(1), Some(0), Some(140.0), Some(100.0))])) == 40.0
  {
  }
}
