/**
 * Interest and debt of the lending module (src/modules/cdp.ts): the kinked rate curve, interest
 * for a period, the cumulative interest multiplier and the debts computed from it.
 */
module CdpInterest {
  import opened Decimal

  // ----- the rate curve -----

  /** `RateStrategyParams`, in basis points. */
  datatype RateStrategy = RateStrategy(
    optimalUsage: int, variableRateSlope1: int, variableRateSlope2: int, baseVariableBorrowRate: int)

  function Bps(x: int): real {
    x as real / UNIT_4
  }

  /** The optimal usage lies strictly between 0 and 1, and the rate does not fall with usage. */
  predicate Sound(s: RateStrategy) {
    0 < s.optimalUsage < 10000 && s.variableRateSlope1 >= 0 && s.variableRateSlope2 >= 0
  }

  /** The curve up to the optimal usage, without the base rate; `weighted` is usage times the first slope. */
  function LowerPart(weighted: real, optimal: real): real
    requires optimal != 0.0
  {
    CeilTo(Div(weighted, optimal), UNIT_4)
  }

  /** The curve beyond it: `excess` of the usage over the optimum, out of `room`. */
  function UpperPart(excess: real, room: real, slope1: real, slope2: real): real
    requires room != 0.0
  {
    CeilTo(Div(excess, room) * slope2 + slope1, UNIT_4)
  }

  function Curve(usage: real, optimal: real, slope1: real, slope2: real): real
    requires optimal != 0.0 && optimal != 1.0
  {
    if usage <= optimal then LowerPart(usage * slope1, optimal)
    else UpperPart(usage - optimal, 1.0 - optimal, slope1, slope2)
  }

  /** `utilizationRate` has 18 decimals. */
  function Usage(utilizationRate: int): real {
    utilizationRate as real / UNIT_18
  }

  /** `calculateInterestAPY`. */
  function CalculateInterestAPY(utilizationRate: int, s: RateStrategy): real
    requires s.optimalUsage != 0 && s.optimalUsage != 10000
  {
    Curve(Usage(utilizationRate), Bps(s.optimalUsage), Bps(s.variableRateSlope1), Bps(s.variableRateSlope2))
    + Bps(s.baseVariableBorrowRate)
  }

  lemma BpsBetween(s: RateStrategy)
    requires Sound(s)
    ensures 0.0 < Bps(s.optimalUsage) < 1.0 && Bps(s.variableRateSlope1) >= 0.0 && Bps(s.variableRateSlope2) >= 0.0
  {
  }

  /** Neither rounding changes the value: it has at most four decimal places. */
  predicate Fixed(x: real) {
    CeilTo(x, UNIT_4) == x && RoundTo(x, UNIT_20) == x
  }

  lemma BpsAreFixed(x: int)
    ensures Fixed(Bps(x))
  {
    RoundFixes(x, UNIT_4);
    assert Bps(x) == (x * 10_000_000_000_000_000) as real / UNIT_20;
    RoundFixes(x * 10_000_000_000_000_000, UNIT_20);
  }

  lemma LowerPartMonotone(a: real, b: real, optimal: real)
    requires a <= b && optimal > 0.0
    ensures LowerPart(a, optimal) <= LowerPart(b, optimal)
  {
    DivMonotone(a, b, optimal);
    CeilToMonotone(Div(a, optimal), Div(b, optimal), UNIT_4);
  }

  /** At no usage the lower part is zero, and at the kink it reaches the first slope exactly. */
  lemma LowerPartAtEnds(optimal: real, slope1: real)
    requires optimal > 0.0 && Fixed(slope1)
    ensures LowerPart(0.0, optimal) == 0.0
    ensures LowerPart(optimal * slope1, optimal) == slope1
  {
    RoundZero(UNIT_20);
    RoundZero(UNIT_4);
    assert 0.0 / optimal == 0.0;
    ProductQuotient(optimal, slope1);
  }

  lemma ProductQuotient(a: real, b: real)
    requires a != 0.0
    ensures a * b / a == b
  {
  }

  lemma UpperPartMonotone(a: real, b: real, room: real, slope1: real, slope2: real)
    requires a <= b && room > 0.0 && slope2 >= 0.0
    ensures UpperPart(a, room, slope1, slope2) <= UpperPart(b, room, slope1, slope2)
  {
    DivMonotone(a, b, room);
    ScaleMonotone(Div(a, room), Div(b, room), slope2);
    CeilToMonotone(Div(a, room) * slope2 + slope1, Div(b, room) * slope2 + slope1, UNIT_4);
  }

  /** The upper part starts at the first slope and reaches the sum of both at full usage. */
  lemma UpperPartAtEnds(room: real, slope1: real, slope2: real)
    requires room > 0.0 && Fixed(slope1) && Fixed(slope1 + slope2)
    ensures UpperPart(0.0, room, slope1, slope2) == slope1
    ensures UpperPart(room, room, slope1, slope2) == slope1 + slope2
  {
    RoundZero(UNIT_20);
    assert 0.0 / room == 0.0 && Div(0.0, room) == 0.0;
    assert Div(0.0, room) * slope2 + slope1 == slope1;
    RoundFixesInteger(1, 100_000_000_000_000_000_000);
    assert room / room == 1.0 && Div(room, room) == 1.0;
    assert Div(room, room) * slope2 + slope1 == slope1 + slope2;
  }

  /** Up to the kink the curve rises from zero to the first slope. */
  lemma BelowKink(x: real, y: real, optimal: real, slope1: real, slope2: real)
    requires 0.0 < optimal < 1.0 && slope1 >= 0.0 && Fixed(slope1) && x <= y <= optimal
    ensures Curve(x, optimal, slope1, slope2) <= Curve(y, optimal, slope1, slope2) <= slope1
    ensures x >= 0.0 ==> Curve(x, optimal, slope1, slope2) >= 0.0
  {
    LowerPartAtEnds(optimal, slope1);
    LowerPartScales(x, y, optimal, slope1);
    LowerPartScales(y, optimal, optimal, slope1);
    if x >= 0.0 {
      ScaleMonotone(0.0, x, slope1);
      LowerPartMonotone(0.0, x * slope1, optimal);
    }
  }

  lemma LowerPartScales(x: real, y: real, optimal: real, slope1: real)
    requires x <= y && optimal > 0.0 && slope1 >= 0.0
    ensures LowerPart(x * slope1, optimal) <= LowerPart(y * slope1, optimal)
  {
    ScaleMonotone(x, y, slope1);
    LowerPartMonotone(x * slope1, y * slope1, optimal);
  }

  /** Beyond the kink it rises from the first slope to the sum of both at full usage. */
  lemma AboveKink(x: real, y: real, optimal: real, slope1: real, slope2: real)
    requires 0.0 < optimal < 1.0 && slope2 >= 0.0 && Fixed(slope1) && Fixed(slope1 + slope2) && optimal < x <= y
    ensures slope1 <= Curve(x, optimal, slope1, slope2) <= Curve(y, optimal, slope1, slope2)
    ensures y <= 1.0 ==> Curve(y, optimal, slope1, slope2) <= slope1 + slope2
  {
    var room := 1.0 - optimal;
    UpperPartAtEnds(room, slope1, slope2);
    UpperPartMonotone(0.0, x - optimal, room, slope1, slope2);
    UpperPartMonotone(x - optimal, y - optimal, room, slope1, slope2);
    if y <= 1.0 {
      UpperPartMonotone(y - optimal, room, room, slope1, slope2);
    }
  }

  lemma CurveMonotone(x: real, y: real, optimal: real, slope1: real, slope2: real)
    requires 0.0 < optimal < 1.0 && slope1 >= 0.0 && slope2 >= 0.0
    requires Fixed(slope1) && Fixed(slope1 + slope2) && x <= y
    ensures Curve(x, optimal, slope1, slope2) <= Curve(y, optimal, slope1, slope2)
  {
    if y <= optimal {
      BelowKink(x, y, optimal, slope1, slope2);
    } else if x > optimal {
      AboveKink(x, y, optimal, slope1, slope2);
    } else {
      BelowKink(x, x, optimal, slope1, slope2);
      AboveKink(y, y, optimal, slope1, slope2);
    }
  }

  lemma SlopesAreFixed(s: RateStrategy)
    requires Sound(s)
    ensures Fixed(Bps(s.variableRateSlope1)) && Fixed(Bps(s.variableRateSlope1) + Bps(s.variableRateSlope2))
  {
    BpsAreFixed(s.variableRateSlope1);
    BpsAreFixed(s.variableRateSlope1 + s.variableRateSlope2);
    assert Bps(s.variableRateSlope1) + Bps(s.variableRateSlope2) == Bps(s.variableRateSlope1 + s.variableRateSlope2);
  }

  /** The rate does not fall when utilisation rises, on either side of the kink and across it. */
  lemma RateIsMonotone(u: int, v: int, s: RateStrategy)
    requires Sound(s) && u <= v
    ensures CalculateInterestAPY(u, s) <= CalculateInterestAPY(v, s)
  {
    BpsBetween(s);
    SlopesAreFixed(s);
    QuotientMonotone(u as real, v as real, UNIT_18);
    CurveMonotone(Usage(u), Usage(v), Bps(s.optimalUsage), Bps(s.variableRateSlope1), Bps(s.variableRateSlope2));
  }

  /**
   * For utilisation between 0 and 1 the rate lies between the base rate and base plus both
   * slopes, and up to the kink below base plus the first slope.
   */
  lemma RateIsBounded(u: int, s: RateStrategy)
    requires Sound(s) && 0 <= u <= 1_000_000_000_000_000_000
    ensures var base := Bps(s.baseVariableBorrowRate);
            && base <= CalculateInterestAPY(u, s) <= base + Bps(s.variableRateSlope1) + Bps(s.variableRateSlope2)
            && (Usage(u) <= Bps(s.optimalUsage) ==> CalculateInterestAPY(u, s) <= base + Bps(s.variableRateSlope1))
  {
    BpsBetween(s);
    SlopesAreFixed(s);
    var x := Usage(u);
    assert 0.0 <= x <= 1.0;
    if x <= Bps(s.optimalUsage) {
      BelowKink(x, x, Bps(s.optimalUsage), Bps(s.variableRateSlope1), Bps(s.variableRateSlope2));
    } else {
      AboveKink(x, x, Bps(s.optimalUsage), Bps(s.variableRateSlope1), Bps(s.variableRateSlope2));
    }
  }

  // ----- interest for a period -----

  const SECONDS_A_YEAR := 31536000.0

  /** The times that a JavaScript `Date` can hold, in milliseconds. */
  predicate ValidTime(t: int) {
    -8_640_000_000_000_000 <= t <= 8_640_000_000_000_000
  }

  function SecondsBetween(start: int, end: int): int {
    Ceil((end - start) as real / 1000.0)
  }

  /** How many periods of the given length make a year, to 18 places. */
  function NumPeriods(seconds: int): real
    requires seconds != 0
  {
    RoundTo(Div(SECONDS_A_YEAR, seconds as real), UNIT_18)
  }

  lemma SecondsBetweenDates(start: int, end: int)
    requires ValidTime(start) && ValidTime(end) && start < end
    ensures 0 < SecondsBetween(start, end) <= 17_280_000_000_000
  {
    var d := (end - start) as real / 1000.0;
    assert 0.0 < d <= 17_280_000_000_000.0;
    CeilMonotone(d, 17_280_000_000_000.0);
    CeilOfInteger(17_280_000_000_000);
  }

  /** However far apart two dates are, the number of periods does not round to zero. */
  lemma PeriodsArePositive(seconds: int)
    requires 0 < seconds <= 17_280_000_000_000
    ensures NumPeriods(seconds) >= 0.000001
  {
    QuotientAntitone(SECONDS_A_YEAR, seconds as real, 17_280_000_000_000.0);
    assert SECONDS_A_YEAR / 17_280_000_000_000.0 >= 0.000001;
    RoundMonotone(0.000001, SECONDS_A_YEAR / seconds as real, UNIT_20);
    assert 0.000001 == 100_000_000_000_000 as real / UNIT_20;
    RoundFixes(100_000_000_000_000, UNIT_20);
    RoundMonotone(0.000001, Div(SECONDS_A_YEAR, seconds as real), UNIT_18);
    assert 0.000001 == 1_000_000_000_000 as real / UNIT_18;
    RoundFixes(1_000_000_000_000, UNIT_18);
  }

  /** `apy.div(numPeriods).dp(18)`. */
  function PeriodRate(apy: real, numPeriods: real): real
    requires numPeriods != 0.0
  {
    RoundTo(Div(apy, numPeriods), UNIT_18)
  }

  /** `calculateInterestForTimePeriod`. */
  function CalculateInterestForTimePeriod(apy: real, start: int, end: int): real
    requires ValidTime(start) && ValidTime(end)
  {
    if end - start <= 0 then 0.0
    else
      SecondsBetweenDates(start, end);
      PeriodsArePositive(SecondsBetween(start, end));
      PeriodRate(apy, NumPeriods(SecondsBetween(start, end)))
  }

  lemma PeriodRateMonotone(a: real, b: real, n: real, m: real)
    requires 0.0 <= a <= b && 0.0 < m <= n
    ensures 0.0 <= PeriodRate(a, n) <= PeriodRate(b, m)
  {
    DivMonotone(a, b, n);
    DivAntitone(b, m, n);
    RoundMonotone(Div(a, n), Div(b, m), UNIT_18);
    DivMonotone(0.0, a, n);
    assert 0.0 / n == 0.0;
    RoundZero(UNIT_20);
    RoundMonotone(0.0, Div(a, n), UNIT_18);
    RoundZero(UNIT_18);
  }

  lemma MorePeriodsWhenShorter(s: int, t: int)
    requires 0 < s <= t
    ensures NumPeriods(t) <= NumPeriods(s)
  {
    DivAntitone(SECONDS_A_YEAR, s as real, t as real);
    RoundMonotone(Div(SECONDS_A_YEAR, t as real), Div(SECONDS_A_YEAR, s as real), UNIT_18);
  }

  /** Interest is never negative, and does not fall when the rate rises or the period ends later. */
  lemma InterestIsMonotone(a: real, b: real, start: int, end: int, later: int)
    requires 0.0 <= a <= b && ValidTime(start) && ValidTime(end) && ValidTime(later) && end <= later
    ensures 0.0 <= CalculateInterestForTimePeriod(a, start, end) <= CalculateInterestForTimePeriod(b, start, later)
  {
    if start < end {
      SecondsBetweenDates(start, end);
      SecondsBetweenDates(start, later);
      var (s, t) := (SecondsBetween(start, end), SecondsBetween(start, later));
      QuotientMonotone((end - start) as real, (later - start) as real, 1000.0);
      CeilMonotone((end - start) as real / 1000.0, (later - start) as real / 1000.0);
      MorePeriodsWhenShorter(s, t);
      PeriodsArePositive(s);
      PeriodsArePositive(t);
      PeriodRateMonotone(a, b, NumPeriods(s), NumPeriods(t));
    } else if start < later {
      SecondsBetweenDates(start, later);
      PeriodsArePositive(SecondsBetween(start, later));
      PeriodRateMonotone(b, b, NumPeriods(SecondsBetween(start, later)), NumPeriods(SecondsBetween(start, later)));
    }
  }

  // ----- debts -----

  /** `DebtInfo`, with the cumulative interest multiplier and the time of its last update. */
  datatype DebtInfo = DebtInfo(
    utilizationRate: int, cumulativeInterestMultiplier: real, lastUpdatedTime: int,
    totalPrincipal: int, totalAccumulatedInterest: int)

  function Interest(d: DebtInfo, s: RateStrategy, now: int): real
    requires s.optimalUsage != 0 && s.optimalUsage != 10000 && ValidTime(d.lastUpdatedTime) && ValidTime(now)
  {
    CalculateInterestForTimePeriod(CalculateInterestAPY(d.utilizationRate, s), d.lastUpdatedTime, now)
  }

  /** `recalculateCIM`. */
  function RecalculateCIM(d: DebtInfo, s: RateStrategy, now: int): real
    requires s.optimalUsage != 0 && s.optimalUsage != 10000 && ValidTime(d.lastUpdatedTime) && ValidTime(now)
  {
    Grown(d.cumulativeInterestMultiplier, Interest(d, s, now))
  }

  function Grown(cim: real, interest: real): real {
    cim * (interest + 1.0)
  }

  /** The debt of an account before rounding. */
  function Share(principal: real, cim: real, initialCIM: real): real
    requires initialCIM != 0.0
  {
    principal * cim / initialCIM
  }

  /** The arithmetic of `getTotalAccountTokenDebt`. */
  function AccountTokenDebt(principal: int, initialCIM: real, cim: real): int {
    if principal == 0 || initialCIM == 0.0 then 0 else IntegerPart(Share(principal as real, cim, initialCIM))
  }

  /** The arithmetic of `getTotalTokenDebt`, with the fee in basis points. */
  function TotalTokenDebt(d: DebtInfo, newInterestRate: real, interestFee: int): real {
    var principal, accumulated := d.totalPrincipal as real, d.totalAccumulatedInterest as real;
    principal + IntegerPart(GrossInterest(principal, accumulated, newInterestRate) * (10000 - interestFee) as real / UNIT_4) as real
  }

  function GrossInterest(principal: real, accumulated: real, rate: real): real {
    principal * rate + accumulated * (1.0 + rate)
  }

  lemma ShareMonotone(p: real, initialCIM: real, x: real, y: real)
    requires p >= 0.0 && 0.0 < initialCIM <= x <= y
    ensures p <= Share(p, x, initialCIM) <= Share(p, y, initialCIM)
  {
    assert p * initialCIM <= p * x <= p * y;
    assert p * initialCIM / initialCIM == p;
  }

  lemma IntegerPartBetween(n: int, x: real, y: real)
    requires 0.0 <= n as real <= x <= y
    ensures n <= IntegerPart(x) <= IntegerPart(y)
  {
  }

  lemma AccountDebtMonotone(principal: int, initialCIM: real, x: real, y: real)
    requires principal >= 0 && 0.0 < initialCIM <= x <= y
    ensures principal <= AccountTokenDebt(principal, initialCIM, x) <= AccountTokenDebt(principal, initialCIM, y)
  {
    var p := principal as real;
    ShareMonotone(p, initialCIM, x, y);
    IntegerPartBetween(principal, Share(p, x, initialCIM), Share(p, y, initialCIM));
  }

  lemma CimGrows(cim: real, i: real, j: real)
    requires cim >= 0.0 && 0.0 <= i <= j
    ensures cim <= Grown(cim, i) <= Grown(cim, j)
  {
    ScaleMonotone(1.0, i + 1.0, cim);
    ScaleMonotone(i + 1.0, j + 1.0, cim);
  }

  /** Interest to date does not fall as utilisation rises or time goes by. */
  lemma InterestGrows(d: DebtInfo, utilization: int, s: RateStrategy, now: int, later: int)
    requires Sound(s) && s.baseVariableBorrowRate >= 0 && 0 <= d.utilizationRate <= utilization
    requires ValidTime(d.lastUpdatedTime) && ValidTime(now) && ValidTime(later) && now <= later
    ensures 0.0 <= Interest(d, s, now) <= Interest(d.(utilizationRate := utilization), s, later)
  {
    RateIsNonNegative(d.utilizationRate, s);
    RateIsMonotone(d.utilizationRate, utilization, s);
    InterestIsMonotone(CalculateInterestAPY(d.utilizationRate, s), CalculateInterestAPY(utilization, s),
                       d.lastUpdatedTime, now, later);
  }

  /** The recomputed multiplier is at least the old one, and does not fall as utilisation rises or time goes by. */
  lemma CimNeverFalls(d: DebtInfo, utilization: int, s: RateStrategy, now: int, later: int)
    requires Sound(s) && s.baseVariableBorrowRate >= 0 && 0 <= d.utilizationRate <= utilization
    requires ValidTime(d.lastUpdatedTime) && ValidTime(now) && ValidTime(later) && now <= later
    requires d.cumulativeInterestMultiplier >= 0.0
    ensures d.cumulativeInterestMultiplier <= RecalculateCIM(d, s, now)
            <= RecalculateCIM(d.(utilizationRate := utilization), s, later)
  {
    InterestGrows(d, utilization, s, now, later);
    CimGrows(d.cumulativeInterestMultiplier, Interest(d, s, now), Interest(d.(utilizationRate := utilization), s, later));
  }

  /**
   * Debt never shrinks: for a multiplier that started at least at the account's initial one, a
   * sound strategy and a non-negative rate, the recomputed debt is at least the principal, and
   * does not fall as time goes by or as utilisation rises.
   */
  lemma DebtNeverShrinks(principal: int, initialCIM: real, d: DebtInfo, utilization: int, s: RateStrategy, now: int, later: int)
    requires principal >= 0 && 0.0 < initialCIM <= d.cumulativeInterestMultiplier
    requires Sound(s) && s.baseVariableBorrowRate >= 0 && 0 <= d.utilizationRate <= utilization
    requires ValidTime(d.lastUpdatedTime) && ValidTime(now) && ValidTime(later) && now <= later
    ensures principal <= AccountTokenDebt(principal, initialCIM, RecalculateCIM(d, s, now))
            <= AccountTokenDebt(principal, initialCIM, RecalculateCIM(d.(utilizationRate := utilization), s, later))
  {
    CimNeverFalls(d, utilization, s, now, later);
    AccountDebtMonotone(principal, initialCIM, RecalculateCIM(d, s, now),
                        RecalculateCIM(d.(utilizationRate := utilization), s, later));
  }

  lemma RateIsNonNegative(u: int, s: RateStrategy)
    requires Sound(s) && s.baseVariableBorrowRate >= 0 && u >= 0
    ensures CalculateInterestAPY(u, s) >= 0.0
  {
    BpsBetween(s);
    SlopesAreFixed(s);
    RateIsMonotone(0, u, s);
    RateIsBounded(0, s);
    assert Bps(s.baseVariableBorrowRate) >= 0.0;
  }

  /** The pool's debt lies between its principal and principal plus gross interest. */
  lemma PoolDebtBounds(d: DebtInfo, rate: real, interestFee: int)
    requires d.totalPrincipal >= 0 && d.totalAccumulatedInterest >= 0 && rate >= 0.0 && 0 <= interestFee <= 10000
    ensures var principal, accumulated := d.totalPrincipal as real, d.totalAccumulatedInterest as real;
            principal <= TotalTokenDebt(d, rate, interestFee) <= principal + GrossInterest(principal, accumulated, rate)
  {
    var principal, accumulated := d.totalPrincipal as real, d.totalAccumulatedInterest as real;
    GrossNonNegative(principal, accumulated, rate);
    var gross, share := GrossInterest(principal, accumulated, rate), (10000 - interestFee) as real;
    FractionOf(gross, share, UNIT_4, gross * share);
    IntegerPartBelow(gross * share / UNIT_4, gross);
  }

  lemma GrossNonNegative(principal: real, accumulated: real, rate: real)
    requires principal >= 0.0 && accumulated >= 0.0 && rate >= 0.0
    ensures GrossInterest(principal, accumulated, rate) >= 0.0
  {
    ScaleMonotone(0.0, principal, rate);
    ScaleMonotone(0.0, accumulated, 1.0 + rate);
  }

  lemma IntegerPartBelow(x: real, y: real)
    requires 0.0 <= x <= y
    ensures 0.0 <= IntegerPart(x) as real <= y
  {
  }
}
