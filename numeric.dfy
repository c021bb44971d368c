/** The three conversions from decimal to whole values the pipeline uses:
    truncation toward zero (a float column cast to `int`), rounding half to
    even (`int(round(x))` on a float) and rounding to two decimals (a float
    column rounded to 2 places, computed as round-half-even of `x * 100`,
    divided by 100). */
module Numeric {

  import opened Seqs

  /** Casting a float to `int`: drops the fractional part, toward zero. */
  function TruncTowardZero(x: real): (n: int)
    ensures x >= 0.0 ==> 0 <= n && n as real <= x < n as real + 1.0
    ensures x < 0.0 ==> n <= 0 && n as real - 1.0 < x <= n as real
  {
    if x >= 0.0 then x.Floor else -((-x).Floor)
  }

  /** A truncated value reaches 1 exactly when the value it came from does, so
      the `< 1` and `>= 1` tests agree before and after truncation. */
  lemma TruncAtLeastOne(x: real)
    ensures TruncTowardZero(x) >= 1 <==> x >= 1.0
  {
  }

  /** `int(round(x))`: the nearest integer, ties going to the even neighbour. */
  function RoundHalfEven(x: real): (n: int)
    ensures -0.5 <= x - n as real <= 0.5
    ensures (x - n as real == 0.5 || n as real - x == 0.5) ==> n % 2 == 0
  {
    var f := x.Floor;
    var frac := x - f as real;
    if frac < 0.5 then f
    else if frac > 0.5 then f + 1
    else if f % 2 == 0 then f else f + 1
  }

  /** The two properties of `RoundHalfEven` determine its result. */
  lemma RoundHalfEvenUnique(x: real, n: int)
    requires -0.5 <= x - n as real <= 0.5
    requires (x - n as real == 0.5 || n as real - x == 0.5) ==> n % 2 == 0
    ensures n == RoundHalfEven(x)
  {
  }

  lemma RoundHalfEvenWhole(k: int)
    ensures RoundHalfEven(k as real) == k
  {
    RoundHalfEvenUnique(k as real, k);
  }

  lemma RoundHalfEvenMonotone(x: real, y: real)
    requires x <= y
    ensures RoundHalfEven(x) <= RoundHalfEven(y)
  {
  }

  /** A float rounded to two decimals: within half a hundredth, a whole
      number of hundredths, and an even number of them when exactly half a
      hundredth away. */
  function RoundToHundredths(x: real): (y: real)
    ensures -0.005 <= x - y <= 0.005
    ensures IsWhole(y * 100.0)
    ensures (x - y == 0.005 || y - x == 0.005) ==> (y * 100.0).Floor % 2 == 0
  {
    var n := RoundHalfEven(x * 100.0);
    assert (n as real / 100.0) * 100.0 == n as real;
    n as real / 100.0
  }

  /** A value already in hundredths is left as it is by rounding to two
      decimals, so rounding twice is rounding once. */
  lemma RoundToHundredthsTwice(x: real)
    ensures RoundToHundredths(RoundToHundredths(x)) == RoundToHundredths(x)
  {
    var y := RoundToHundredths(x);
    var k := (y * 100.0).Floor;
    RoundHalfEvenWhole(k);
  }

  /** Truncating a whole number gives it back. */
  lemma TruncWhole(k: int)
    ensures TruncTowardZero(k as real) == k
  {
  }

  /** A value at or above a bound stays at or above it when rounded to two
      decimals, provided the bound itself is a whole number of hundredths. */
  lemma RoundToHundredthsKeepsBound(x: real, bound: real)
    requires IsWhole(bound * 100.0)
    requires x >= bound
    ensures RoundToHundredths(x) >= bound
  {
    var b := (bound * 100.0).Floor;
    RoundHalfEvenWhole(b);
    RoundHalfEvenMonotone(b as real, x * 100.0);
  }
}
