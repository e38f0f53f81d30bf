/**
  Decimal rounding `round(x, n)` idealised over the reals: the nearest
  multiple of 1/scale, where scale = 10^n, halves rounded upwards.
 */
module Rounding {

  /** Scale of `round(x, 2)`. */
  const Hundredths: real := 100.0

  /** Scale of `round(x, 6)`. */
  const Millionths: real := 1000000.0

  /** `x` is a whole number of 1/scale units. */
  predicate OnGrid(x: real, scale: real) {
    (x * scale).Floor as real == x * scale
  }

  /** Number of whole 1/scale units nearest to `x`, halves upwards. */
  function Units(x: real, scale: real): int {
    (x * scale + 0.5).Floor
  }

  function Round(x: real, scale: real): (r: real)
    requires scale > 0.0
    ensures OnGrid(r, scale)
    ensures x - 0.5 / scale < r <= x + 0.5 / scale
  {
    var n := Units(x, scale);
    var k := n as real;
    GridPoint(n, scale);
    DivideBounds(x * scale - 0.5, k, x * scale + 0.5, scale);
    assert (x * scale - 0.5) / scale == x - 0.5 / scale;
    assert (x * scale + 0.5) / scale == x + 0.5 / scale;
    k / scale
  }

  lemma GridPoint(n: int, scale: real)
    requires scale > 0.0
    ensures OnGrid(n as real / scale, scale)
  {
    assert n as real / scale * scale == n as real;
  }

  lemma ScaleMonotone(a: real, b: real, p: real)
    requires p > 0.0 && a <= b
    ensures a * p <= b * p && a / p <= b / p
  {
    assert (b - a) * p >= 0.0;
    assert (b - a) / p >= 0.0;
  }

  lemma UnitsMonotone(a: real, b: real, scale: real)
    requires scale > 0.0 && a <= b
    ensures Units(a, scale) <= Units(b, scale)
  {
    ScaleMonotone(a, b, scale);
  }

  lemma DivideBounds(lo: real, k: real, hi: real, p: real)
    requires p > 0.0 && lo < k <= hi
    ensures lo / p < k / p <= hi / p
  {
  }

  /** Rounding never reverses the order of two values. */
  lemma RoundMonotone(a: real, b: real, scale: real)
    requires scale > 0.0
    requires a <= b
    ensures Round(a, scale) <= Round(b, scale)
  {
    UnitsMonotone(a, b, scale);
    ScaleMonotone(Units(a, scale) as real, Units(b, scale) as real, scale);
  }

  /** A value already on the grid is left unchanged. */
  lemma RoundFixesGrid(x: real, scale: real)
    requires scale > 0.0
    requires OnGrid(x, scale)
    ensures Round(x, scale) == x
  {
    assert Units(x, scale) == (x * scale).Floor;
    assert (x * scale) / scale == x;
  }

  /** Rounding twice to the same precision is rounding once. */
  lemma RoundIdempotent(x: real, scale: real)
    requires scale > 0.0
    ensures Round(Round(x, scale), scale) == Round(x, scale)
  {
    RoundFixesGrid(Round(x, scale), scale);
  }

  /** A value between two grid points rounds to a value between them. */
  lemma RoundBetweenGridPoints(lo: real, x: real, hi: real, scale: real)
    requires scale > 0.0
    requires OnGrid(lo, scale) && OnGrid(hi, scale)
    requires lo <= x <= hi
    ensures lo <= Round(x, scale) <= hi
  {
    RoundMonotone(lo, x, scale);
    RoundMonotone(x, hi, scale);
    RoundFixesGrid(lo, scale);
    RoundFixesGrid(hi, scale);
  }
}
