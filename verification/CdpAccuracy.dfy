/**
 * What the lending arithmetic computes, up to rounding: the rate is the kinked line through
 * (0, base), (optimal, base + slope1) and (1, base + slope1 + slope2); interest is the yearly rate
 * times the fraction of the year, and debts grow in proportion.
 */
module CdpAccuracy {
  import opened Decimal
  import opened CdpInterest

  // ----- the rate -----

  /** The exact line through two points. */
  function Line(x: real, x0: real, y0: real, x1: real, y1: real): real
    requires x0 != x1
  {
    y0 + (x - x0) / (x1 - x0) * (y1 - y0)
  }

  /** The exact rate, without the base rate. */
  function ExactRate(usage: real, optimal: real, slope1: real, slope2: real): real
    requires 0.0 < optimal < 1.0
  {
    if usage <= optimal then usage / optimal * slope1
    else (usage - optimal) / (1.0 - optimal) * slope2 + slope1
  }

  /** It is the kinked line through the three points. */
  lemma ExactRateIsLine(usage: real, optimal: real, slope1: real, slope2: real)
    requires 0.0 < optimal < 1.0
    ensures ExactRate(usage, optimal, slope1, slope2) ==
            if usage <= optimal then Line(usage, 0.0, 0.0, optimal, slope1)
            else Line(usage, optimal, slope1, 1.0, slope1 + slope2)
  {
    assert slope1 + slope2 - slope1 == slope2;
  }

  /** The last place that `div` keeps. */
  const TINY := 0.00000000000000000001

  lemma LowerPartClose(usage: real, optimal: real, slope1: real, exact: real, part: real)
    requires optimal > 0.0 && exact == usage / optimal * slope1 && part == LowerPart(usage * slope1, optimal)
    ensures exact - TINY <= part < exact + TINY + 1.0 / UNIT_4
  {
    assert exact == usage * slope1 / optimal;
    RatioClose(exact);
    CeilToClose(Div(usage * slope1, optimal), UNIT_4);
  }

  /** `scaled` is the exact product, `c` the rounded sum. */
  lemma UpperPartClose(ratio: real, d: real, slope1: real, slope2: real, scaled: real, error: real, c: real)
    requires slope2 >= 0.0 && scaled == ratio * slope2 && error == TINY * slope2
    requires ratio - TINY <= d <= ratio + TINY && c == CeilTo(d * slope2 + slope1, UNIT_4)
    ensures scaled + slope1 - error <= c < scaled + slope1 + error + 1.0 / UNIT_4
  {
    ScaledClose(ratio, d, slope2, TINY, scaled, d * slope2, error);
    ShiftedClose(scaled, d * slope2, slope1, error, c);
  }

  lemma RatioClose(ratio: real)
    ensures ratio - TINY <= RoundTo(ratio, UNIT_20) <= ratio + TINY
  {
    RoundClose(ratio, UNIT_20);
    assert 0.5 / UNIT_20 <= TINY;
  }

  lemma ShiftedClose(exact: real, close: real, shift: real, error: real, c: real)
    requires exact - error <= close <= exact + error && c == CeilTo(close + shift, UNIT_4)
    ensures exact + shift - error <= c < exact + shift + error + 1.0 / UNIT_4
  {
    CeilToClose(close + shift, UNIT_4);
  }

  lemma ScaledClose(x: real, y: real, k: real, e: real, xk: real, yk: real, ek: real)
    requires x - e <= y <= x + e && k >= 0.0 && xk == x * k && yk == y * k && ek == e * k
    ensures xk - ek <= yk <= xk + ek
  {
    ScaleMonotone(x - e, y, k);
    ScaleMonotone(y, x + e, k);
    assert (x - e) * k == xk - ek && (x + e) * k == xk + ek;
  }

  lemma BelowKinkClose(usage: real, optimal: real, slope1: real, slope2: real, exact: real, error: real, rate: real)
    requires 0.0 < optimal < 1.0 && usage <= optimal && exact == usage / optimal * slope1 && error >= 0.0
    requires rate == Curve(usage, optimal, slope1, slope2)
    ensures exact - TINY - error <= rate < exact + TINY + error + 1.0 / UNIT_4
  {
    LowerPartClose(usage, optimal, slope1, exact, rate);
  }

  lemma AboveKinkClose(usage: real, optimal: real, slope1: real, slope2: real, exact: real, error: real, rate: real)
    requires 0.0 < optimal < 1.0 && usage > optimal && slope2 >= 0.0 && error == TINY * slope2
    requires exact == (usage - optimal) / (1.0 - optimal) * slope2 + slope1
    requires rate == Curve(usage, optimal, slope1, slope2)
    ensures exact - TINY - error <= rate < exact + TINY + error + 1.0 / UNIT_4
  {
    var excess, room := usage - optimal, 1.0 - optimal;
    UpperRateClose(excess / room, Div(excess, room), slope1, slope2, exact, error, rate);
  }

  lemma UpperRateClose(ratio: real, d: real, slope1: real, slope2: real, exact: real, error: real, rate: real)
    requires slope2 >= 0.0 && error == TINY * slope2 && d == RoundTo(ratio, UNIT_20)
    requires exact == ratio * slope2 + slope1 && rate == CeilTo(d * slope2 + slope1, UNIT_4)
    ensures exact - TINY - error <= rate < exact + TINY + error + 1.0 / UNIT_4
  {
    RatioClose(ratio);
    UpperPartClose(ratio, d, slope1, slope2, ratio * slope2, error, rate);
  }

  lemma CurveClose(usage: real, optimal: real, slope1: real, slope2: real, exact: real, error: real, rate: real)
    requires 0.0 < optimal < 1.0 && slope2 >= 0.0 && error == TINY * slope2
    requires exact == ExactRate(usage, optimal, slope1, slope2) && rate == Curve(usage, optimal, slope1, slope2)
    ensures exact - TINY - error <= rate < exact + TINY + error + 1.0 / UNIT_4
  {
    assert error >= 0.0;
    if usage <= optimal {
      BelowKinkClose(usage, optimal, slope1, slope2, exact, error, rate);
    } else {
      AboveKinkClose(usage, optimal, slope1, slope2, exact, error, rate);
    }
  }

  /**
   * The rate is the exact kinked rate rounded up to a basis point, except that an error of the
   * division, at its 20th decimal place, can move it either way.
   */
  lemma RateIsAccurate(u: int, s: RateStrategy, exact: real, error: real)
    requires Sound(s) && error == TINY * Bps(s.variableRateSlope2)
    requires exact == ExactRate(Usage(u), Bps(s.optimalUsage), Bps(s.variableRateSlope1), Bps(s.variableRateSlope2))
    ensures var base := Bps(s.baseVariableBorrowRate);
            base + exact - TINY - error <= CalculateInterestAPY(u, s) < base + exact + TINY + error + 1.0 / UNIT_4
  {
    BpsBetween(s);
    CurveClose(Usage(u), Bps(s.optimalUsage), Bps(s.variableRateSlope1), Bps(s.variableRateSlope2), exact, error,
               CalculateInterestAPY(u, s) - Bps(s.baseVariableBorrowRate));
  }

  // ----- interest -----

  lemma QuotientError(apy: real, p: real, n: real, error: real)
    requires apy >= 0.0 && p >= 1.0 && n >= 1.0 && p - error <= n <= p + error
    ensures apy / p - apy * error <= apy / n <= apy / p + apy * error
  {
    var a, b := apy / n, apy / p;
    ProductBack(apy, n, a);
    ProductBack(apy, p, b);
    SmallerThanProduct(b, p, apy);
    BoundedProduct(b, p - n, apy, error);
    DifferenceTimes(a, b, p, n, apy);
    SmallerFactor(a - b, n, b * (p - n), apy * error);
  }

  lemma ProductBack(x: real, y: real, q: real)
    requires y > 0.0 && q == x / y && x >= 0.0
    ensures q * y == x && q >= 0.0
  {
  }

  lemma SmallerThanProduct(b: real, p: real, product: real)
    requires b >= 0.0 && p >= 1.0 && product == b * p
    ensures b <= product
  {
  }

  lemma DifferenceTimes(a: real, b: real, p: real, n: real, apy: real)
    requires a * n == apy && b * p == apy
    ensures (a - b) * n == b * (p - n)
  {
  }

  lemma SmallerFactor(d: real, n: real, product: real, limit: real)
    requires n >= 1.0 && product == d * n && -limit <= product <= limit
    ensures -limit <= d <= limit
  {
    if d >= 0.0 {
      ScaleMonotone(1.0, n, d);
    } else {
      ScaleMonotone(1.0, n, -d);
      assert -d * n == -product;
    }
  }

  lemma BoundedProduct(b: real, x: real, limit: real, error: real)
    requires 0.0 <= b <= limit && -error <= x <= error
    ensures -(limit * error) <= b * x <= limit * error
  {
    ScaleMonotone(x, error, b);
    ScaleMonotone(-error, x, b);
    ScaleMonotone(b, limit, error);
  }

  lemma PeriodsInAYear(seconds: int, s: real, exact: real, n: real)
    requires 0 < seconds <= 31_536_000 && s == seconds as real && exact == SECONDS_A_YEAR / s && n == NumPeriods(seconds)
    ensures exact >= 1.0 && n >= 1.0 && exact - 0.505 / UNIT_18 <= n <= exact + 0.505 / UNIT_18
  {
    QuotientAntitone(SECONDS_A_YEAR, s, SECONDS_A_YEAR);
    RoundClose(exact, UNIT_20);
    RoundClose(Div(SECONDS_A_YEAR, s), UNIT_18);
    RoundFixesInteger(1, 100_000_000_000_000_000_000);
    RoundMonotone(1.0, exact, UNIT_20);
    RoundFixesInteger(1, 1_000_000_000_000_000_000);
    RoundMonotone(1.0, Div(SECONDS_A_YEAR, s), UNIT_18);
  }

  /** The seconds of a period of at most a year: as many as have been started. */
  lemma StartedSeconds(start: int, end: int)
    requires 0 < end - start <= 31_536_000_000
    ensures 0 < SecondsBetween(start, end) <= 31_536_000
    ensures (end - start) as real <= SecondsBetween(start, end) as real * 1000.0 < (end - start) as real + 1000.0
  {
    var diff := (end - start) as real / 1000.0;
    assert diff * 1000.0 == (end - start) as real;
    CeilMonotone(diff, 31_536_000.0);
    CeilOfInteger(31_536_000);
    var seconds := Ceil(diff) as real;
    assert diff <= seconds < diff + 1.0;
  }

  /**
   * Interest for up to a year is the yearly rate times the seconds over the seconds of a year, up
   * to an error at the 18th decimal place; n is the number of such periods in a year, as rounded.
   */
  lemma InterestIsAccurate(apy: real, seconds: int, s: real, n: real)
    requires apy >= 0.0 && 0 < seconds <= 31_536_000 && s == seconds as real && n == NumPeriods(seconds) && n > 0.0
    ensures var exact := apy * s / SECONDS_A_YEAR;
            exact - (apy + 1.0) / UNIT_18 <= PeriodRate(apy, n) <= exact + (apy + 1.0) / UNIT_18
  {
    var p := SECONDS_A_YEAR / s;
    PeriodsInAYear(seconds, s, p, n);
    RateOverPeriods(apy, s, SECONDS_A_YEAR, p, n);
  }

  lemma RateOverPeriods(apy: real, s: real, y: real, p: real, n: real)
    requires apy >= 0.0 && s > 0.0 && y > 0.0 && p == y / s && p >= 1.0 && n >= 1.0
    requires p - 0.505 / UNIT_18 <= n <= p + 0.505 / UNIT_18
    ensures apy * s / y - (apy + 1.0) / UNIT_18 <= PeriodRate(apy, n) <= apy * s / y + (apy + 1.0) / UNIT_18
  {
    PeriodRateClose(apy, p, n);
    DoubleQuotient(apy, y, s);
  }

  lemma PeriodRateClose(apy: real, p: real, n: real)
    requires apy >= 0.0 && p >= 1.0 && n >= 1.0 && p - 0.505 / UNIT_18 <= n <= p + 0.505 / UNIT_18
    ensures apy / p - (apy + 1.0) / UNIT_18 <= PeriodRate(apy, n) <= apy / p + (apy + 1.0) / UNIT_18
  {
    QuotientError(apy, p, n, 0.505 / UNIT_18);
    RoundClose(apy / n, UNIT_20);
    RoundClose(Div(apy, n), UNIT_18);
  }

  lemma DoubleQuotient(a: real, y: real, s: real)
    requires y > 0.0 && s > 0.0
    ensures a / (y / s) == a * s / y
  {
    var p := y / s;
    assert p * s == y;
    var q := a / p;
    assert q * p == a;
    assert q * y == a * s;
  }

  // ----- debts -----

  /** Without elapsed time the multiplier stays as it is. */
  lemma NoTimeNoInterest(d: DebtInfo, s: RateStrategy, now: int)
    requires s.optimalUsage != 0 && s.optimalUsage != 10000 && ValidTime(d.lastUpdatedTime) && ValidTime(now)
    requires now <= d.lastUpdatedTime
    ensures RecalculateCIM(d, s, now) == d.cumulativeInterestMultiplier
  {
    assert Interest(d, s, now) == 0.0;
  }

  /** An account's debt is its principal grown in the ratio of the multipliers, rounded down. */
  lemma AccountDebtIsProportional(principal: int, initialCIM: real, cim: real)
    requires principal >= 0 && initialCIM > 0.0 && cim >= 0.0
    ensures var debt := AccountTokenDebt(principal, initialCIM, cim) as real;
            debt * initialCIM <= principal as real * cim < (debt + 1.0) * initialCIM
  {
    ShareIsNonNegative(principal as real, cim, initialCIM);
    ShareFloor(principal as real, cim, initialCIM, AccountTokenDebt(principal, initialCIM, cim) as real);
  }

  lemma ShareIsNonNegative(p: real, cim: real, initialCIM: real)
    requires p >= 0.0 && cim >= 0.0 && initialCIM > 0.0
    ensures Share(p, cim, initialCIM) >= 0.0
    ensures p == 0.0 ==> Share(p, cim, initialCIM) == 0.0
  {
    ScaleMonotone(0.0, p, cim);
    QuotientMonotone(0.0, p * cim, initialCIM);
  }

  lemma ShareFloor(p: real, cim: real, initialCIM: real, n: real)
    requires initialCIM > 0.0 && n <= Share(p, cim, initialCIM) < n + 1.0
    ensures n * initialCIM <= p * cim < (n + 1.0) * initialCIM
  {
    QuotientBelow(p * cim, n, initialCIM);
    QuotientAbove(p * cim, n + 1.0, initialCIM);
  }

  /** It starts as the principal. */
  lemma AccountDebtStarts(principal: int, cim: real)
    requires cim > 0.0
    ensures AccountTokenDebt(principal, cim, cim) == principal
  {
    ShareOfAll(principal as real, cim);
    assert principal < 0 ==> IntegerPart(principal as real) == principal;
  }

  lemma ShareOfAll(p: real, cim: real)
    requires cim > 0.0
    ensures Share(p, cim, cim) == p
  {
  }

  lemma QuotientBelow(a: real, n: real, k: real)
    requires k > 0.0
    ensures a < n * k <==> a / k < n
  {
    QuotientAbove(a, n, k);
  }

  lemma QuotientAbove(a: real, n: real, k: real)
    requires k > 0.0
    ensures a >= n * k ==> a / k >= n
  {
    if a >= n * k {
      QuotientMonotone(n * k, a, k);
      assert n * k / k == n;
    }
  }

  /** Principal and accumulated interest grow together; the pool's debt leaves out the fee's share of the interest, rounded. */
  lemma PoolDebtIsExact(d: DebtInfo, rate: real, interestFee: int)
    requires d.totalPrincipal >= 0 && d.totalAccumulatedInterest >= 0 && rate >= 0.0 && 0 <= interestFee <= 10000
    ensures var principal, accumulated := d.totalPrincipal as real, d.totalAccumulatedInterest as real;
            var all := (principal + accumulated) * (1.0 + rate);
            var kept := (10000 - interestFee) as real / UNIT_4;
            principal + GrossInterest(principal, accumulated, rate) == all
            && principal + (all - principal) * kept - 1.0 < TotalTokenDebt(d, rate, interestFee) <= principal + (all - principal) * kept
  {
    var principal, accumulated := d.totalPrincipal as real, d.totalAccumulatedInterest as real;
    var gross, share := GrossInterest(principal, accumulated, rate), (10000 - interestFee) as real;
    AllGrows(principal, accumulated, rate, gross);
    GrossNonNegative(principal, accumulated, rate);
    KeptShare(gross, share, share / UNIT_4, gross * share / UNIT_4);
  }

  lemma AllGrows(principal: real, accumulated: real, rate: real, gross: real)
    requires gross == GrossInterest(principal, accumulated, rate)
    ensures principal + gross == (principal + accumulated) * (1.0 + rate)
  {
  }

  lemma KeptShare(gross: real, share: real, kept: real, x: real)
    requires gross >= 0.0 && 0.0 <= share && kept == share / UNIT_4 && x == gross * share / UNIT_4
    ensures gross * kept - 1.0 < IntegerPart(x) as real <= gross * kept
  {
    var product := gross * share;
    ScaleMonotone(0.0, share, gross);
    QuotientMonotone(0.0, product, UNIT_4);
    assert x == gross * kept;
  }

}
