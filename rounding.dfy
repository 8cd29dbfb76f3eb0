/**
 * Rounding to two decimals, as `round(x, 2)` and pandas' `.round(2)` do it
 * on the values the pipeline handles. Values are exact rationals; a value
 * exactly half-way between two hundredths rounds up.
 */
module Rounding {

  /** `round(x, 2)`: to the nearest hundredth. */
  function RoundHundredths(x: real): (r: real)
    ensures x - 0.005 < r <= x + 0.005
    ensures (r * 100.0).Floor as real == r * 100.0
  {
    (x * 100.0 + 0.5).Floor as real / 100.0
  }

  /** Rounding never reverses an order. */
  lemma RoundMonotone(x: real, y: real)
    requires x <= y
    ensures RoundHundredths(x) <= RoundHundredths(y)
  {
    var a, b := (x * 100.0 + 0.5).Floor, (y * 100.0 + 0.5).Floor;
    if a > b {
      assert false;
    }
  }

  /** The rounded value reaches a whole number n of hundredths exactly when
      the value itself reaches n less half a hundredth. */
  lemma RoundAtLeast(x: real, n: int)
    ensures RoundHundredths(x) >= n as real / 100.0 <==> x * 100.0 + 0.5 >= n as real
  {
    var f := (x * 100.0 + 0.5).Floor;
    assert RoundHundredths(x) >= n as real / 100.0 <==> f >= n;
  }

  /** A value rounds to something positive exactly when it is at least half
      a hundredth. */
  lemma RoundPositive(x: real)
    ensures RoundHundredths(x) > 0.0 <==> x >= 0.005
  {
    var f := (x * 100.0 + 0.5).Floor;
    assert RoundHundredths(x) > 0.0 <==> f >= 1;
    RoundAtLeast(x, 1);
  }
}
