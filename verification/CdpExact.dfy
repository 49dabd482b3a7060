/**
 * What the lending arithmetic computes, up to the rounding of its divisions: the multiplier, the
 * close factor, the conversions, the repayment and the payout.
 */
module CdpExact {
  import opened Decimal
  import opened CdpInterest
  import opened CdpAccuracy
  import opened CdpLiquidation

  lemma ScaleBetween(low: real, x: real, high: real, k: real)
    requires low <= x <= high && k >= 0.0
    ensures low * k <= x * k <= high * k
  {
    ScaleMonotone(low, x, k);
    ScaleMonotone(x, high, k);
  }

  // ----- the multiplier -----

  lemma PeriodWithinYear(apy: real, start: int, end: int, seconds: int, exact: real, error: real)
    requires apy >= 0.0 && ValidTime(start) && ValidTime(end) && 0 < end - start <= 31_536_000_000
    requires seconds == SecondsBetween(start, end) && error == (apy + 1.0) / UNIT_18
    requires exact == apy * seconds as real / SECONDS_A_YEAR
    ensures exact - error <= CalculateInterestForTimePeriod(apy, start, end) <= exact + error
  {
    StartedSeconds(start, end);
    PeriodsArePositive(seconds);
    InterestIsAccurate(apy, seconds, seconds as real, NumPeriods(seconds));
  }

  /**
   * Within a year the multiplier grows by the yearly rate times the started seconds over the
   * seconds of a year, up to an error at the 18th decimal place of the interest.
   */
  lemma CimIsAccurate(d: DebtInfo, s: RateStrategy, now: int, apy: real, exact: real, error: real)
    requires Sound(s) && s.baseVariableBorrowRate >= 0 && d.utilizationRate >= 0
    requires ValidTime(d.lastUpdatedTime) && ValidTime(now) && 0 < now - d.lastUpdatedTime <= 31_536_000_000
    requires apy == CalculateInterestAPY(d.utilizationRate, s) && error == (apy + 1.0) / UNIT_18
    requires exact == apy * SecondsBetween(d.lastUpdatedTime, now) as real / SECONDS_A_YEAR
    ensures exists i: real :: exact - error <= i <= exact + error && GrowsBy(d.cumulativeInterestMultiplier, i, RecalculateCIM(d, s, now))
  {
    RateIsNonNegative(d.utilizationRate, s);
    PeriodWithinYear(apy, d.lastUpdatedTime, now, SecondsBetween(d.lastUpdatedTime, now), exact, error);
    assert GrowsBy(d.cumulativeInterestMultiplier, Interest(d, s, now), RecalculateCIM(d, s, now));
  }

  predicate GrowsBy(x: real, rate: real, y: real) {
    y == x * (rate + 1.0)
  }

  // ----- the close factor -----

  /** The line from the minimum at no excess to 1 at an excess of the span, between 0 and 1. */
  function ExactCloseFactor(minimum: real, excess: real, span: real): real
    requires span != 0.0
  {
    Clamp(minimum + (1.0 - minimum) * (excess / span))
  }

  lemma ClampClose(x: real, y: real, e: real)
    requires x - e <= y <= x + e && e >= 0.0
    ensures Clamp(x) - e <= Clamp(y) <= Clamp(x) + e
  {
  }

  lemma SlopeClose(excess: real, q: real, slope: real, e: real)
    requires excess >= 0.0 && slope == RoundTo(q, UNIT_20) && e == ERROR * excess
    ensures q * excess - e <= slope * excess <= q * excess + e
  {
    RoundClose(q, UNIT_20);
    ScaledClose(q, slope, excess, ERROR, q * excess, slope * excess, e);
  }

  lemma SameLine(rise: real, excess: real, span: real, q: real)
    requires span != 0.0 && q == rise / span
    ensures rise * (excess / span) == q * excess
  {
    var r := excess / span;
    assert r * span == excess && q * span == rise;
    assert rise * r == (q * span) * r == q * (r * span);
  }

  lemma RampClose(minimum: real, excess: real, span: real, e: real, line: real)
    requires span != 0.0 && excess >= 0.0 && e == ERROR * excess && line == (1.0 - minimum) * (excess / span)
    ensures minimum + line - e <= Ramp(minimum, excess, span) <= minimum + line + e
  {
    var q, slope := (1.0 - minimum) / span, Div(1.0 - minimum, span);
    SlopeClose(excess, q, slope, e);
    SameLine(1.0 - minimum, excess, span, q);
    assert Ramp(minimum, excess, span) == minimum + slope * excess;
  }

  lemma LineClose(minimum: real, excess: real, span: real, e: real)
    requires span != 0.0 && excess >= 0.0 && e == ERROR * excess
    ensures ExactCloseFactor(minimum, excess, span) - e <= Clamp(Ramp(minimum, excess, span)) <= ExactCloseFactor(minimum, excess, span) + e
  {
    var line := (1.0 - minimum) * (excess / span);
    RampClose(minimum, excess, span, e, line);
    ScaleMonotone(0.0, ERROR, excess);
    ClampClose(minimum + line, Ramp(minimum, excess, span), e);
  }

  /**
   * The close factor: none below either threshold; otherwise all with a complete threshold of
   * zero, the minimum where the critical value is the threshold, and else the line from the
   * minimum at the threshold to 1 at the critical value, up to the error of one division.
   */
  lemma CloseFactorIsLine(borrowed: real, collateral: real, threshold: real, small: real, minimum: real, complete: real, critical: real)
    requires critical == threshold + complete * (collateral - threshold)
    ensures var r := CloseFactor(borrowed, collateral, threshold, small, minimum, complete);
            if borrowed < threshold || borrowed < small then r == 0.0
            else if complete == 0.0 then r == 1.0
            else if critical == threshold then (0.0 <= minimum <= 1.0 ==> r == minimum)
            else var e := ERROR * (borrowed - threshold);
                 var exact := ExactCloseFactor(minimum, borrowed - threshold, critical - threshold);
                 exact - e <= r <= exact + e
  {
    assert critical - threshold == Span(collateral, threshold, complete);
    if borrowed >= threshold && critical != threshold {
      LineClose(minimum, borrowed - threshold, critical - threshold, ERROR * (borrowed - threshold));
    }
  }

  // ----- conversions -----

  /** One decimal more multiplies by ten, and there is nothing to multiply with for none. */
  lemma MultiplierOfOneMore(n: int)
    requires -20 <= n < 20
    ensures DecimalMultiplier(0) == 1.0 && DecimalMultiplier(n + 1) == 10.0 * DecimalMultiplier(n)
  {
    if n < -1 {
      InverseMultiplier(n);
      InverseMultiplier(n + 1);
      TenTimes(Pow10(-n - 1) as real);
    } else if n == -1 {
      InverseMultiplier(-1);
      assert Pow10(1) == 10;
    }
  }

  lemma TenTimes(p: real)
    requires p > 0.0
    ensures 1.0 / p == 10.0 * (1.0 / (10.0 * p))
  {
    var x := 1.0 / (10.0 * p);
    assert x * (10.0 * p) == 1.0;
    assert (10.0 * x) * p == 1.0;
  }

  lemma CeilRounded(x: real, c: int)
    requires c == Ceil(RoundTo(x, UNIT_20))
    ensures c as real - 1.0 - ERROR < x <= c as real + ERROR
  {
    RoundClose(x, UNIT_20);
    CeilClose(RoundTo(x, UNIT_20));
  }

  lemma HalfUpRounded(x: real, d: int)
    requires d == HalfUp(RoundTo(x, UNIT_20))
    ensures d as real - 0.5 - ERROR <= x <= d as real + 0.5 + ERROR
  {
    RoundClose(x, UNIT_20);
    HalfUpClose(RoundTo(x, UNIT_20));
  }

  /** Bounds of a quotient, times the divisor, are bounds of the dividend. */
  lemma QuotientBounds(a: real, q: real, low: real, high: real)
    requires q > 0.0 && low <= a / q <= high
    ensures low * q <= a <= high * q && (low < a / q ==> low * q < a)
  {
    var x := a / q;
    assert x * q == a;
    ScaleBetween(low, x, high, q);
    if low < x {
      StrictScale(low, x, q);
    }
  }

  lemma RoundedUpWorth(a: real, q: real, c: int)
    requires q > 0.0 && c == Ceil(Div(a, q))
    ensures (c as real - 1.0 - ERROR) * q < a <= (c as real + ERROR) * q
  {
    CeilRounded(a / q, c);
    QuotientBounds(a, q, c as real - 1.0 - ERROR, c as real + ERROR);
  }

  lemma RoundedWorth(a: real, p: real, d: int)
    requires p > 0.0 && d == HalfUp(Div(a, p))
    ensures (d as real - 0.5 - ERROR) * p <= a <= (d as real + 0.5 + ERROR) * p
  {
    HalfUpRounded(a / p, d);
    QuotientBounds(a, p, d as real - 0.5 - ERROR, d as real + 0.5 + ERROR);
  }

  /**
   * The collateral for a debt is worth the debt: it is the exact amount rounded up to an integer,
   * up to the error of one division.
   */
  lemma CollateralIsWorthDebt(p: real, q: real, debt: real, cd: int, dd: int, worth: real)
    requires q > 0.0 && worth == Worth(p, debt, DecimalMultiplier(cd - dd))
    ensures var c := CollateralRequiredForDebt(p, q, debt, cd, dd) as real;
            (c - 1.0 - ERROR) * q < worth <= (c + ERROR) * q
  {
    RoundedUpWorth(worth, q, CollateralRequiredForDebt(p, q, debt, cd, dd));
  }

  /** The debt that collateral covers: the exact amount rounded half up, up to the error of one division. */
  lemma DebtIsWorthCollateral(p: real, q: real, collateral: real, cd: int, dd: int, worth: real)
    requires p > 0.0 && worth == Worth(q, collateral, DecimalMultiplier(dd - cd))
    ensures var d := DebtCoveredByCollateral(p, q, collateral, cd, dd) as real;
            (d - 0.5 - ERROR) * p <= worth <= (d + 0.5 + ERROR) * p
  {
    RoundedWorth(worth, p, DebtCoveredByCollateral(p, q, collateral, cd, dd));
  }

  // ----- what a liquidator pays and receives -----

  /** The share of the debts that may be repaid, in the smallest unit of the debt token. */
  function Repayable(l: Liquidation): real {
    l.totalDebts * Pow10(l.debtDecimals) as real *
    CloseFactor(l.totalDebts, l.totalCollaterals, l.currLiquidationThreshold, l.smallLiquidationSize,
                l.minimumCloseFactor, l.completeLiquidationThreshold)
  }

  /** The repayment is what was asked for, but never more than the close factor's share of the debts. */
  lemma RepaymentIsLimited(l: Liquidation, requested: real)
    ensures Repayment(l, requested) <= requested && Repayment(l, requested) <= Repayable(l)
    ensures Repayment(l, requested) == requested || Repayment(l, requested) == Repayable(l)
  {
    var d, p := l.totalDebts, Pow10(l.debtDecimals) as real;
    var f := CloseFactor(l.totalDebts, l.totalCollaterals, l.currLiquidationThreshold, l.smallLiquidationSize,
                         l.minimumCloseFactor, l.completeLiquidationThreshold);
    assert d * f * p == d * p * f;
  }

  /** The price with the discount taken off. */
  lemma DiscountedPriceIsExact(l: Liquidation)
    requires 0 <= l.liquidationDiscount
    ensures DiscountedPrice(l) == l.cdpTokenPrice * (1.0 - l.liquidationDiscount as real / 10000.0)
  {
    BasisPointsAreExact(l.liquidationDiscount);
  }

  lemma BasisPointsAreExact(n: int)
    ensures Div(n as real, UNIT_4) == n as real / 10000.0
  {
    assert n as real / UNIT_4 == (n * 10_000_000_000_000_000) as real / UNIT_20;
    RoundFixes(n * 10_000_000_000_000_000, UNIT_20);
  }

  /** The fee is its share of the profit, exactly. */
  lemma FeeIsExact(profit: int, fee: int)
    ensures Fee(profit, fee) == profit as real * fee as real / 10000.0
  {
    assert profit as real * fee as real == (profit * fee) as real;
    BasisPointsAreExact(profit * fee);
  }

  /**
   * What is taken is what the repayment buys at the discounted price, or all there is if that is
   * less, in which case the repayment is what that covers.
   */
  lemma TakenIsExact(l: Liquidation, requested: real, price: real, bought: int)
    requires Plausible(l) && price == DiscountedPrice(l) && price != 0.0
    requires bought == CollateralRequiredForDebt(1.0, price, Repayment(l, requested), l.cdpTokenDecimals, l.debtDecimals)
    ensures bought <= l.collateralAmount ==> Taken(l, requested) == (bought, Repayment(l, requested))
    ensures bought > l.collateralAmount ==>
              Taken(l, requested) ==
              (l.collateralAmount,
               DebtCoveredByCollateral(1.0, price, l.collateralAmount as real, l.cdpTokenDecimals, l.debtDecimals) as real)
  {
  }

  /**
   * The payout is the collateral taken less the fee's share of the profit, which is what was
   * taken beyond the same repayment's worth at the full price; without profit it is an error.
   */
  lemma PayoutIsExact(l: Liquidation, requested: real, taken: int, profit: int)
    requires Plausible(l) && taken == Taken(l, requested).0
    requires profit == taken - CollateralRequiredForDebt(1.0, l.cdpTokenPrice, Taken(l, requested).1, l.cdpTokenDecimals, l.debtDecimals)
    ensures MaxCollateralForLiquidator(l, requested) ==
            if profit < 0 then NegativeProfit else Payout(taken as real - profit as real * l.liquidationFee as real / 10000.0)
  {
    FeeIsExact(profit, l.liquidationFee);
    assert Undiscounted(l, requested) == taken - profit;
  }
}
