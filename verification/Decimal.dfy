/**
 * BigNumber arithmetic over the reals: `times`, `plus`, `minus` and `shiftedBy` are exact, `div`
 * rounds to 20 decimal places, and `dp` to the given number of places.
 */
module Decimal {

  const UNIT_4 := 10000.0
  const UNIT_18 := 1_000_000_000_000_000_000.0
  const UNIT_20 := 100_000_000_000_000_000_000.0

  /** ROUND_HALF_UP: to the nearest integer, halves away from zero. */
  function HalfUp(x: real): int {
    if x >= 0.0 then (x + 0.5).Floor else -((0.5 - x).Floor)
  }

  /** ROUND_CEIL. */
  function Ceil(x: real): int {
    -((-x).Floor)
  }

  /** The integer part, as `dividedToIntegerBy` takes it. */
  function IntegerPart(x: real): int {
    if x >= 0.0 then x.Floor else -((-x).Floor)
  }

  /** Rounding to multiples of 1 / unit. */
  function RoundTo(x: real, unit: real): real
    requires unit > 0.0
  {
    HalfUp(x * unit) as real / unit
  }

  function CeilTo(x: real, unit: real): real
    requires unit > 0.0
  {
    Ceil(x * unit) as real / unit
  }

  /** `div` with the default 20 decimal places. */
  function Div(a: real, b: real): real
    requires b != 0.0
  {
    RoundTo(a / b, UNIT_20)
  }

  // ----- order -----

  lemma ScaleMonotone(x: real, y: real, k: real)
    requires x <= y && k >= 0.0
    ensures x * k <= y * k
  {
  }

  lemma QuotientMonotone(x: real, y: real, k: real)
    requires x <= y && k > 0.0
    ensures x / k <= y / k
  {
  }

  /** A share of a non-negative amount, in units of 1 / u. */
  lemma FractionOf(amount: real, share: real, u: real, product: real)
    requires amount >= 0.0 && 0.0 <= share <= u && u > 0.0 && product == amount * share
    ensures 0.0 <= product / u <= amount
  {
    var full := amount * u;
    ScaleMonotone(0.0, share, amount);
    ScaleMonotone(share, u, amount);
    QuotientMonotone(0.0, product, u);
    QuotientMonotone(product, full, u);
    assert full / u == amount;
  }

  lemma HalfUpMonotone(x: real, y: real)
    requires x <= y
    ensures HalfUp(x) <= HalfUp(y)
  {
  }

  lemma CeilMonotone(x: real, y: real)
    requires x <= y
    ensures Ceil(x) <= Ceil(y)
  {
  }

  lemma RoundMonotone(x: real, y: real, unit: real)
    requires x <= y && unit > 0.0
    ensures RoundTo(x, unit) <= RoundTo(y, unit)
  {
    ScaleMonotone(x, y, unit);
    HalfUpMonotone(x * unit, y * unit);
    QuotientMonotone(HalfUp(x * unit) as real, HalfUp(y * unit) as real, unit);
  }

  lemma CeilToMonotone(x: real, y: real, unit: real)
    requires x <= y && unit > 0.0
    ensures CeilTo(x, unit) <= CeilTo(y, unit)
  {
    ScaleMonotone(x, y, unit);
    CeilMonotone(x * unit, y * unit);
    QuotientMonotone(Ceil(x * unit) as real, Ceil(y * unit) as real, unit);
  }

  lemma DivMonotone(a: real, b: real, c: real)
    requires a <= b && c > 0.0
    ensures Div(a, c) <= Div(b, c)
  {
    QuotientMonotone(a, b, c);
    RoundMonotone(a / c, b / c, UNIT_20);
  }

  /** A larger divisor gives no larger quotient. */
  lemma DivAntitone(a: real, c: real, d: real)
    requires a >= 0.0 && 0.0 < c <= d
    ensures Div(a, d) <= Div(a, c)
  {
    QuotientAntitone(a, c, d);
    RoundMonotone(a / d, a / c, UNIT_20);
  }

  lemma QuotientAntitone(a: real, c: real, d: real)
    requires a >= 0.0 && 0.0 < c <= d
    ensures a / d <= a / c
  {
    var q := a / d;
    assert q * d == a;
    assert q >= 0.0;
    ScaleMonotone(c, d, q);
    assert q * c <= a;
    QuotientMonotone(q * c, a, c);
    assert q * c / c == q;
  }

  // ----- fixed points and errors -----

  lemma HalfUpClose(x: real)
    ensures x - 0.5 <= HalfUp(x) as real <= x + 0.5
  {
  }

  lemma HalfUpOfInteger(n: int)
    ensures HalfUp(n as real) == n
  {
    assert (n as real + 0.5).Floor == n;
    assert (0.5 - n as real).Floor == -n;
  }

  lemma CeilOfInteger(n: int)
    ensures Ceil(n as real) == n
  {
    assert (-(n as real)).Floor == -n by {
      assert -(n as real) == (-n) as real;
    }
  }

  /** Multiples of 1 / unit are not changed. */
  lemma RoundFixes(n: int, unit: real)
    requires unit > 0.0
    ensures RoundTo(n as real / unit, unit) == n as real / unit
    ensures CeilTo(n as real / unit, unit) == n as real / unit
  {
    var x := n as real / unit;
    RoundOfMultiple(x, n, unit);
  }

  lemma RoundOfMultiple(x: real, n: int, unit: real)
    requires unit > 0.0 && x * unit == n as real
    ensures RoundTo(x, unit) == n as real / unit
    ensures CeilTo(x, unit) == n as real / unit
  {
    HalfUpOfInteger(n);
    CeilOfInteger(n);
  }

  lemma RoundClose(x: real, unit: real)
    requires unit > 0.0
    ensures x - 0.5 / unit <= RoundTo(x, unit) <= x + 0.5 / unit
  {
    HalfUpClose(x * unit);
    var r := HalfUp(x * unit) as real;
    QuotientMonotone(x * unit - 0.5, r, unit);
    QuotientMonotone(r, x * unit + 0.5, unit);
    assert (x * unit - 0.5) / unit == x - 0.5 / unit;
    assert (x * unit + 0.5) / unit == x + 0.5 / unit;
  }

  lemma CeilToClose(x: real, unit: real)
    requires unit > 0.0
    ensures x <= CeilTo(x, unit) < x + 1.0 / unit
  {
    var c := Ceil(x * unit) as real;
    assert x * unit <= c < x * unit + 1.0;
    QuotientMonotone(x * unit, c, unit);
    assert x * unit / unit == x && (x * unit + 1.0) / unit == x + 1.0 / unit;
    assert c / unit < (x * unit + 1.0) / unit;
  }

  lemma RoundZero(unit: real)
    requires unit > 0.0
    ensures RoundTo(0.0, unit) == 0.0 && CeilTo(0.0, unit) == 0.0
  {
    RoundFixes(0, unit);
  }

  /** Rounding integers to decimal places does not change them. */
  lemma RoundFixesInteger(n: int, unit: int)
    requires unit > 0
    ensures RoundTo(n as real, unit as real) == n as real
  {
    assert (n * unit) as real == n as real * unit as real;
    RoundFixes(n * unit, unit as real);
    assert (n * unit) as real / unit as real == n as real;
  }
}
