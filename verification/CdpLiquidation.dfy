/**
 * Liquidation arithmetic of the lending module (src/modules/cdp.ts): the close factor, the
 * conversions between debt and collateral, and the collateral a liquidator receives.
 */
module CdpLiquidation {
  import opened Decimal

  // ----- the close factor -----

  function Clamp(x: real): real {
    if x > 1.0 then 1.0 else if x < 0.0 then 0.0 else x
  }

  /** min + (borrowed - threshold) * slope, where the slope leads from min to 1 over the span. */
  function Ramp(minimum: real, excess: real, span: real): real
    requires span != 0.0
  {
    minimum + excess * Div(1.0 - minimum, span)
  }

  /** Between the liquidation threshold and the critical value. */
  function Span(collateralValue: real, liquidationThreshold: real, completeLiquidationThreshold: real): real {
    completeLiquidationThreshold * (collateralValue - liquidationThreshold)
  }

  function CloseFactor(
    borrowedValue: real, collateralValue: real, liquidationThreshold: real, smallLiquidationSize: real,
    minimumCloseFactor: real, completeLiquidationThreshold: real): real
  {
    var span := Span(collateralValue, liquidationThreshold, completeLiquidationThreshold);
    if borrowedValue < liquidationThreshold || borrowedValue < smallLiquidationSize then 0.0
    else if completeLiquidationThreshold == 0.0 then 1.0
    else if span == 0.0 then Clamp(minimumCloseFactor)
    else Clamp(Ramp(minimumCloseFactor, borrowedValue - liquidationThreshold, span))
  }

  /**
   * `computeCloseFactor` as written. Where the source divides by zero, its result is replaced
   * before it is used.
   */
  method ComputeCloseFactor(
    borrowedValue: real, collateralValue: real, liquidationThreshold: real, smallLiquidationSize: real,
    minimumCloseFactor: real, completeLiquidationThreshold: real) returns (r: real)
    ensures r == CloseFactor(borrowedValue, collateralValue, liquidationThreshold, smallLiquidationSize,
                             minimumCloseFactor, completeLiquidationThreshold)
    ensures 0.0 <= r <= 1.0
  {
    if borrowedValue < liquidationThreshold || borrowedValue < smallLiquidationSize {
      return 0.0;
    }
    if completeLiquidationThreshold == 0.0 {
      return 1.0;
    }
    var criticalVal := liquidationThreshold + completeLiquidationThreshold * (collateralValue - liquidationThreshold);
    var closeFactor := minimumCloseFactor;
    if liquidationThreshold != criticalVal {
      var slope := Div(1.0 - minimumCloseFactor, criticalVal - liquidationThreshold);
      closeFactor := minimumCloseFactor + (borrowedValue - liquidationThreshold) * slope;
    }
    if closeFactor > 1.0 {
      return 1.0;
    }
    if closeFactor < 0.0 {
      return 0.0;
    }
    return closeFactor;
  }

  lemma SlopeIsNonNegative(minimum: real, span: real)
    requires minimum <= 1.0 && span > 0.0
    ensures Div(1.0 - minimum, span) >= 0.0
  {
    DivMonotone(0.0, 1.0 - minimum, span);
    assert 0.0 / span == 0.0;
    RoundZero(UNIT_20);
  }

  lemma RampMonotone(minimum: real, a: real, b: real, span: real)
    requires 0.0 <= minimum <= 1.0 && span > 0.0 && 0.0 <= a <= b
    ensures minimum <= Ramp(minimum, a, span) <= Ramp(minimum, b, span)
  {
    SlopeIsNonNegative(minimum, span);
    ScaleMonotone(0.0, a, Div(1.0 - minimum, span));
    ScaleMonotone(a, b, Div(1.0 - minimum, span));
  }

  /**
   * With a minimum between 0 and 1, collateral worth more than the liquidation threshold and a
   * positive complete threshold, the close factor never falls as the debt grows.
   */
  lemma CloseFactorIsMonotone(a: real, b: real, collateralValue: real, threshold: real, small: real, minimum: real, complete: real)
    requires a <= b && 0.0 <= minimum <= 1.0 && collateralValue > threshold && complete > 0.0
    ensures CloseFactor(a, collateralValue, threshold, small, minimum, complete)
            <= CloseFactor(b, collateralValue, threshold, small, minimum, complete)
    ensures b >= threshold && b >= small ==> CloseFactor(b, collateralValue, threshold, small, minimum, complete) >= minimum
  {
    var span := Span(collateralValue, threshold, complete);
    assert span > 0.0;
    if b >= threshold {
      RampMonotone(minimum, 0.0, b - threshold, span);
      if a >= threshold {
        RampMonotone(minimum, a - threshold, b - threshold, span);
      }
    }
  }

  // ----- decimals -----

  function Pow10(n: nat): (p: nat)
    ensures p > 0
  {
    if n == 0 then 1 else 10 * Pow10(n - 1)
  }

  lemma {:induction false} Pow10Sum(m: nat, n: nat)
    ensures Pow10(m + n) == Pow10(m) * Pow10(n)
  {
    if m == 0 {
    } else {
      Pow10Sum(m - 1, n);
    }
  }

  lemma Pow10Twenty()
    ensures Pow10(20) == 100_000_000_000_000_000_000
  {
    assert Pow10(5) == 100000;
    Pow10Sum(5, 5);
    Pow10Sum(10, 10);
  }

  /** `getDecimalMultiplier`. */
  function DecimalMultiplier(n: int): real {
    if n < 0 then Div(1.0, Pow10(-n) as real) else Pow10(n) as real
  }

  lemma PowersDivide(k: nat)
    requires k <= 20
    ensures Pow10(k) * Pow10(20 - k) == 100_000_000_000_000_000_000
  {
    Pow10Sum(k, 20 - k);
    Pow10Twenty();
  }

  lemma RealProduct(p: int, q: int)
    requires p * q == 100_000_000_000_000_000_000
    ensures p as real * q as real == UNIT_20
  {
    assert (p * q) as real == p as real * q as real;
  }

  /** For negative exponents the multiplier is the exact inverse of the power. */
  lemma InverseMultiplier(n: int)
    requires -20 <= n < 0
    ensures DecimalMultiplier(n) == 1.0 / Pow10(-n) as real
  {
    PowersDivide(-n);
    InversePower(Pow10(-n), Pow10(20 + n));
  }

  lemma InverseProduct(a: real, b: real, p: real)
    requires p > 0.0 && a == p && b == 1.0 / p
    ensures b > 0.0 && a * b == 1.0 && b * a == 1.0
  {
  }

  /** Up to 20 decimals the negative powers are exact, so the two directions cancel. */
  lemma MultipliersCancel(n: int, n': int, m: real, m': real)
    requires -20 <= n <= 20 && n' == -n && m == DecimalMultiplier(n) && m' == DecimalMultiplier(n')
    ensures m > 0.0 && m' > 0.0 && m * m' == 1.0
  {
    if n < 0 {
      InverseMultiplier(n);
      InverseProduct(m', m, Pow10(n') as real);
    } else if n > 0 {
      InverseMultiplier(n');
      InverseProduct(m, m', Pow10(n) as real);
    }
  }

  lemma InversePower(p: int, q: int)
    requires p > 0 && p * q == 100_000_000_000_000_000_000
    ensures Div(1.0, p as real) == 1.0 / p as real
  {
    RealProduct(p, q);
    InverseIsFixed(p as real, q);
  }

  lemma InverseIsFixed(p: real, q: int)
    requires p > 0.0 && p * q as real == UNIT_20
    ensures Div(1.0, p) == 1.0 / p
  {
    var x := 1.0 / p;
    assert x * p == 1.0;
    assert x * UNIT_20 == q as real;
    RoundOfMultiple(x, q, UNIT_20);
    assert q as real / UNIT_20 == x;
  }

  // ----- conversions -----

  function Worth(price: real, amount: real, multiplier: real): real {
    price * amount * multiplier
  }

  function CollateralFor(debtPrice: real, collateralPrice: real, debtAmount: real, multiplier: real): int
    requires collateralPrice != 0.0
  {
    Ceil(Div(Worth(debtPrice, debtAmount, multiplier), collateralPrice))
  }

  function DebtFor(debtPrice: real, collateralPrice: real, collateralAmount: real, multiplier: real): int
    requires debtPrice != 0.0
  {
    HalfUp(Div(Worth(collateralPrice, collateralAmount, multiplier), debtPrice))
  }

  /** `calculateCollateralRequiredForDebt`. */
  function CollateralRequiredForDebt(debtPrice: real, collateralPrice: real, debtAmount: real, collateralDecimals: int, debtDecimals: int): int
    requires collateralPrice != 0.0
  {
    CollateralFor(debtPrice, collateralPrice, debtAmount, DecimalMultiplier(collateralDecimals - debtDecimals))
  }

  /** `calculateDebtCoveredByCollateral`. */
  function DebtCoveredByCollateral(debtPrice: real, collateralPrice: real, collateralAmount: real, collateralDecimals: int, debtDecimals: int): int
    requires debtPrice != 0.0
  {
    DebtFor(debtPrice, collateralPrice, collateralAmount, DecimalMultiplier(debtDecimals - collateralDecimals))
  }

  /** What one unit of collateral is worth in units of debt. */
  function UnitWorth(debtPrice: real, collateralPrice: real, multiplier: real): real
    requires debtPrice != 0.0
  {
    collateralPrice * multiplier / debtPrice
  }

  /** The largest error of a division. */
  const ERROR := 0.5 / UNIT_20

  lemma CeilClose(x: real)
    ensures x <= Ceil(x) as real < x + 1.0
  {
  }

  /** The collateral for a debt d at a rate of w, up to an error e and a ceiling, is worth d up to these. */
  lemma WorthBounds(d: real, x: real, w: real, c: real, e: real)
    requires w > 0.0 && w * x == d && x - e <= c < x + e + 1.0
    ensures d - w * e <= w * c
    ensures w * c < d + w * e + w
  {
    var (above, below) := (c - (x - e), x + e + 1.0 - c);
    assert w * above >= 0.0 && w * below > 0.0;
    assert w * above == w * c - w * x + w * e;
    assert w * below == w * x + w * e + w - w * c;
  }

  /** There and back over a rate w, with a rounded division, a ceiling, another division and a half-up rounding. */
  lemma ThereAndBack(d: int, x: real, w: real, c: int, y: real, e: real)
    requires w > 0.0 && w * x == d as real && e == w * ERROR && e + ERROR < 0.5
    requires c == Ceil(RoundTo(x, UNIT_20)) && y == w * c as real
    ensures d <= HalfUp(RoundTo(y, UNIT_20))
    ensures HalfUp(RoundTo(y, UNIT_20)) as real < d as real + w + 0.5 + e + ERROR
  {
    assert x - ERROR <= c as real < x + ERROR + 1.0 by {
      RoundClose(x, UNIT_20);
      CeilClose(RoundTo(x, UNIT_20));
    }
    WorthBounds(d as real, x, w, c as real, ERROR);
    RoundTwice(d, w, e, y);
  }

  lemma RoundTwice(d: int, w: real, e: real, y: real)
    requires e + ERROR < 0.5 && d as real - e <= y < d as real + e + w
    ensures d <= HalfUp(RoundTo(y, UNIT_20))
    ensures HalfUp(RoundTo(y, UNIT_20)) as real < d as real + w + 0.5 + e + ERROR
  {
    RoundClose(y, UNIT_20);
    FinalRounding(d, w, e, y, RoundTo(y, UNIT_20));
  }

  lemma FinalRounding(d: int, w: real, e: real, y: real, r: real)
    requires e + ERROR < 0.5 && d as real - e <= y < d as real + e + w
    requires y - ERROR <= r <= y + ERROR
    ensures d <= HalfUp(r) && HalfUp(r) as real < d as real + w + 0.5 + e + ERROR
  {
    HalfUpClose(r);
    assert HalfUp(r) as real > d as real - 1.0;
  }

  lemma StrictScale(x: real, y: real, k: real)
    requires x < y && k > 0.0
    ensures x * k < y * k
  {
  }

  /** Back within one unit's worth and a half above, up to the error of the two divisions. */
  predicate Covers(debt: int, back: int, unitWorth: real) {
    debt <= back && back as real < debt as real + unitWorth + 0.5 + unitWorth * ERROR + ERROR
  }

  /**
   * Converting a debt to collateral and back covers the debt, and exceeds it by less than one
   * unit of collateral is worth plus one half (plus the error of the two divisions), for tokens
   * whose decimals differ by at most 20 and unit worths below 10^20.
   */
  lemma ConversionCoversDebt(debtPrice: real, collateralPrice: real, debt: int, collateralDecimals: int, debtDecimals: int)
    requires debtPrice > 0.0 && collateralPrice > 0.0 && -20 <= collateralDecimals - debtDecimals <= 20
    requires UnitWorth(debtPrice, collateralPrice, DecimalMultiplier(debtDecimals - collateralDecimals)) < UNIT_20 - 1.0
    ensures var collateral := CollateralRequiredForDebt(debtPrice, collateralPrice, debt as real, collateralDecimals, debtDecimals);
            Covers(debt, DebtCoveredByCollateral(debtPrice, collateralPrice, collateral as real, collateralDecimals, debtDecimals),
                   UnitWorth(debtPrice, collateralPrice, DecimalMultiplier(debtDecimals - collateralDecimals)))
  {
    var m, m' := DecimalMultiplier(collateralDecimals - debtDecimals), DecimalMultiplier(debtDecimals - collateralDecimals);
    MultipliersCancel(collateralDecimals - debtDecimals, debtDecimals - collateralDecimals, m, m');
    ConversionAt(debtPrice, collateralPrice, debt, m, m', UnitWorth(debtPrice, collateralPrice, m'));
  }

  /** The same for given multipliers of the two directions. */
  lemma ConversionAt(p: real, q: real, debt: int, m: real, m': real, w: real)
    requires p > 0.0 && q > 0.0 && m > 0.0 && m * m' == 1.0 && w == UnitWorth(p, q, m') && w < UNIT_20 - 1.0
    ensures Covers(debt, DebtFor(p, q, CollateralFor(p, q, debt as real, m) as real, m'), w)
  {
    WorthCancels(p, q, debt as real, m, m');
    WorthOfCollateral(p, q, CollateralFor(p, q, debt as real, m) as real, m');
    ConversionSteps(p, q, debt, m, m', w, Worth(p, debt as real, m) / q, CollateralFor(p, q, debt as real, m),
                    Worth(q, CollateralFor(p, q, debt as real, m) as real, m') / p);
  }

  lemma ConversionSteps(p: real, q: real, debt: int, m: real, m': real, w: real, x: real, c: int, y: real)
    requires p != 0.0 && q != 0.0 && x == Worth(p, debt as real, m) / q && y == Worth(q, c as real, m') / p
    requires c == CollateralFor(p, q, debt as real, m)
    requires 0.0 < w < UNIT_20 - 1.0 && w * x == debt as real && y == w * c as real
    ensures Covers(debt, DebtFor(p, q, c as real, m'), w)
  {
    BackCovers(debt, x, w, c, y);
  }

  /** For an exact collateral of x, rounded up to c, and an exact debt of y covered by c. */
  lemma BackCovers(debt: int, x: real, w: real, c: int, y: real)
    requires 0.0 < w < UNIT_20 - 1.0 && w * x == debt as real
    requires c == Ceil(RoundTo(x, UNIT_20)) && y == w * c as real
    ensures Covers(debt, HalfUp(RoundTo(y, UNIT_20)), w)
  {
    ErrorIsSmall(w);
    ThereAndBack(debt, x, w, c, y, w * ERROR);
  }

  lemma WorthCancels(p: real, q: real, d: real, m: real, m': real)
    requires p > 0.0 && q > 0.0 && m > 0.0 && m * m' == 1.0
    ensures q * m' / p > 0.0 && (q * m' / p) * (Worth(p, d, m) / q) == d
  {
    assert m' > 0.0;
    var a := q * m' / p;
    var b := p * d * m / q;
    assert a * p == q * m';
    assert b * q == p * d * m;
    assert (a * b) * (p * q) == (a * p) * (b * q) == (q * m') * (p * d * m) == (p * q) * d * (m * m');
    CancelFactor(a * b, d, p * q);
  }

  lemma CancelFactor(a: real, b: real, k: real)
    requires k > 0.0 && a * k == k * b
    ensures a == b
  {
  }

  lemma WorthOfCollateral(p: real, q: real, c: real, m': real)
    requires p > 0.0
    ensures Worth(q, c, m') / p == (q * m' / p) * c
  {
    var a := q * m' / p;
    assert a * p == q * m';
    assert (a * c) * p == q * c * m';
  }

  lemma ErrorIsSmall(w: real)
    requires w < UNIT_20 - 1.0
    ensures w * ERROR + ERROR < 0.5
  {
    assert UNIT_20 * ERROR == 0.5;
    StrictScale(w + 1.0, UNIT_20, ERROR);
  }

  // ----- what a liquidator receives -----

  /** What `getMaxCollateralForLiquidator` looks up before it computes. */
  datatype Liquidation = Liquidation(
    liquidationDiscount: int,              // basis points
    liquidationFee: int,                   // basis points
    cdpTokenPrice: real,
    cdpTokenDecimals: int,
    debtDecimals: nat,
    collateralAmount: int,                 // the debtor's
    totalDebts: real,
    totalCollaterals: real,
    currLiquidationThreshold: real,
    smallLiquidationSize: real,
    minimumCloseFactor: real,
    completeLiquidationThreshold: real)

  /** `NegativeProfit`: the source throws "liquidator's profit is negative". */
  datatype Proceeds = NegativeProfit | Payout(amount: real)

  /** A positive price, a discount below 1, a fee of at most 1. */
  predicate Plausible(l: Liquidation) {
    l.cdpTokenPrice > 0.0 && 0 <= l.liquidationDiscount < 10000 && 0 <= l.liquidationFee <= 10000
  }

  function DiscountedPrice(l: Liquidation): real {
    AfterBonus(l.cdpTokenPrice, Div(l.liquidationDiscount as real, UNIT_4))
  }

  function AfterBonus(price: real, bonus: real): real {
    price * (1.0 - bonus)
  }

  /** `debtorTotalDebtVal.multipliedBy(closeFactor).shiftedBy(debtDecimals)`. */
  function MaxRepayable(totalDebts: real, debtDecimals: nat, closeFactor: real): real {
    totalDebts * closeFactor * Pow10(debtDecimals) as real
  }

  /** The repayment, capped by the close factor. */
  function Repayment(l: Liquidation, requested: real): real {
    var limit := MaxRepayable(l.totalDebts, l.debtDecimals,
                              CloseFactor(l.totalDebts, l.totalCollaterals, l.currLiquidationThreshold, l.smallLiquidationSize,
                                          l.minimumCloseFactor, l.completeLiquidationThreshold));
    if requested > limit then limit else requested
  }

  /** The collateral that a repayment buys at a price. */
  function Bought(l: Liquidation, price: real, repayment: real): int
    requires price != 0.0
  {
    CollateralRequiredForDebt(1.0, price, repayment, l.cdpTokenDecimals, l.debtDecimals)
  }

  /** The repayment asks for more collateral than the debtor has. */
  predicate Capped(l: Liquidation, requested: real)
    requires Plausible(l)
  {
    DiscountIsPositive(l);
    Bought(l, DiscountedPrice(l), Repayment(l, requested)) > l.collateralAmount
  }

  /** The collateral taken, and the repayment that goes with it. */
  function Taken(l: Liquidation, requested: real): (int, real)
    requires Plausible(l)
  {
    DiscountIsPositive(l);
    if Capped(l, requested) then
      (l.collateralAmount,
       DebtCoveredByCollateral(1.0, DiscountedPrice(l), l.collateralAmount as real, l.cdpTokenDecimals, l.debtDecimals) as real)
    else (Bought(l, DiscountedPrice(l), Repayment(l, requested)), Repayment(l, requested))
  }

  /** The collateral the same repayment would buy without discount. */
  function Undiscounted(l: Liquidation, requested: real): int
    requires Plausible(l)
  {
    Bought(l, l.cdpTokenPrice, Taken(l, requested).1)
  }

  function Fee(profit: int, liquidationFee: int): real {
    OfTenThousand(profit as real * liquidationFee as real)
  }

  function OfTenThousand(x: real): real {
    Div(x, UNIT_4)
  }

  function MaxCollateralForLiquidator(l: Liquidation, requested: real): Proceeds
    requires Plausible(l)
  {
    var (taken, undiscounted) := (Taken(l, requested).0, Undiscounted(l, requested));
    if taken < undiscounted then NegativeProfit
    else Payout(taken as real - Fee(taken - undiscounted, l.liquidationFee))
  }

  /** The arithmetic of `getMaxCollateralForLiquidator` as written. */
  method ComputeMaxCollateralForLiquidator(l: Liquidation, requested: real) returns (r: Proceeds)
    requires Plausible(l)
    ensures r == MaxCollateralForLiquidator(l, requested)
  {
    DiscountIsPositive(l);
    var cdpTokenDiscountedPrice := DiscountedPrice(l);
    var closeFactor := ComputeCloseFactor(l.totalDebts, l.totalCollaterals, l.currLiquidationThreshold,
                                          l.smallLiquidationSize, l.minimumCloseFactor, l.completeLiquidationThreshold);
    var debtRepaymentAmount := requested;
    var maxRepayableAmt := MaxRepayable(l.totalDebts, l.debtDecimals, closeFactor);
    if debtRepaymentAmount > maxRepayableAmt {
      debtRepaymentAmount := maxRepayableAmt;
    }
    var collateralAmtToLiquidate := CollateralRequiredForDebt(
      1.0, cdpTokenDiscountedPrice, debtRepaymentAmount, l.cdpTokenDecimals, l.debtDecimals);
    if collateralAmtToLiquidate > l.collateralAmount {
      collateralAmtToLiquidate := l.collateralAmount;
      debtRepaymentAmount := DebtCoveredByCollateral(
        1.0, cdpTokenDiscountedPrice, collateralAmtToLiquidate as real, l.cdpTokenDecimals, l.debtDecimals) as real;
    }
    var collateralAmountWithoutDiscount := CollateralRequiredForDebt(
      1.0, l.cdpTokenPrice, debtRepaymentAmount, l.cdpTokenDecimals, l.debtDecimals);
    var liquidatorProfit := collateralAmtToLiquidate - collateralAmountWithoutDiscount;
    if liquidatorProfit < 0 {
      return NegativeProfit;
    }
    var liquidationFeeAmount := Fee(liquidatorProfit, l.liquidationFee);
    return Payout(collateralAmtToLiquidate as real - liquidationFeeAmount);
  }

  /** A discount in basis points is exact, so the discounted price lies between 0 and the price. */
  lemma DiscountIsPositive(l: Liquidation)
    requires Plausible(l)
    ensures 0.0 < DiscountedPrice(l) <= l.cdpTokenPrice
  {
    var bonus := l.liquidationDiscount as real / UNIT_4;
    assert bonus == (l.liquidationDiscount * 10_000_000_000_000_000) as real / UNIT_20;
    RoundFixes(l.liquidationDiscount * 10_000_000_000_000_000, UNIT_20);
    assert Div(l.liquidationDiscount as real, UNIT_4) == bonus;
    PriceShare(l.cdpTokenPrice, bonus);
  }

  lemma PriceShare(price: real, bonus: real)
    requires price > 0.0 && 0.0 <= bonus < 1.0
    ensures 0.0 < AfterBonus(price, bonus) <= price
  {
    assert price * bonus >= 0.0;
    assert price * (1.0 - bonus) == price - price * bonus;
    assert price * (1.0 - bonus) > 0.0;
  }

  lemma FeeBounds(profit: int, fee: int)
    requires profit >= 0 && 0 <= fee <= 10000
    ensures 0.0 <= Fee(profit, fee) <= profit as real
  {
    var p, share := profit as real, fee as real;
    var product := p * share;
    FractionOf(p, share, UNIT_4, product);
    RoundedShare(profit, product);
    assert product == profit as real * fee as real;
    assert 0.0 <= OfTenThousand(product) <= profit as real;
    assert Fee(profit, fee) == OfTenThousand(profit as real * fee as real);
    assert Fee(profit, fee) == OfTenThousand(product);
  }

  lemma RoundedShare(profit: int, product: real)
    requires 0.0 <= product / UNIT_4 <= profit as real
    ensures 0.0 <= OfTenThousand(product) <= profit as real
  {
    RoundMonotone(0.0, product / UNIT_4, UNIT_20);
    RoundMonotone(product / UNIT_4, profit as real, UNIT_20);
    RoundZero(UNIT_20);
    RoundFixesInteger(profit, 100_000_000_000_000_000_000);
  }

  /**
   * What a liquidator receives lies between the collateral without discount and the collateral
   * taken, and so does not exceed what the debtor has.
   */
  lemma PayoutBounds(l: Liquidation, requested: real)
    requires Plausible(l) && MaxCollateralForLiquidator(l, requested).Payout?
    ensures var payout := MaxCollateralForLiquidator(l, requested).amount;
            Undiscounted(l, requested) as real <= payout <= Taken(l, requested).0 as real <= l.collateralAmount as real
  {
    FeeBounds(Taken(l, requested).0 - Undiscounted(l, requested), l.liquidationFee);
  }

  lemma CheaperBuysMore(l: Liquidation, cheap: real, price: real, repayment: real)
    requires 0.0 < cheap <= price && repayment >= 0.0 && -20 <= l.cdpTokenDecimals - l.debtDecimals <= 20
    ensures Bought(l, price, repayment) <= Bought(l, cheap, repayment)
  {
    var m := DecimalMultiplier(l.cdpTokenDecimals - l.debtDecimals);
    MultipliersCancel(l.cdpTokenDecimals - l.debtDecimals, l.debtDecimals - l.cdpTokenDecimals, m,
                      DecimalMultiplier(l.debtDecimals - l.cdpTokenDecimals));
    var worth := Worth(1.0, repayment, m);
    WorthIsNonNegative(repayment, m);
    DivAntitone(worth, cheap, price);
    CeilMonotone(Div(worth, price), Div(worth, cheap));
  }

  lemma WorthIsNonNegative(amount: real, multiplier: real)
    requires amount >= 0.0 && multiplier >= 0.0
    ensures Worth(1.0, amount, multiplier) >= 0.0
  {
    ScaleMonotone(0.0, multiplier, amount);
  }

  /** As long as the debtor has enough collateral, the liquidator's profit is never negative. */
  lemma UncappedNeverFails(l: Liquidation, requested: real)
    requires Plausible(l) && !Capped(l, requested) && Repayment(l, requested) >= 0.0
    requires -20 <= l.cdpTokenDecimals - l.debtDecimals <= 20
    ensures MaxCollateralForLiquidator(l, requested).Payout?
  {
    DiscountIsPositive(l);
    CheaperBuysMore(l, DiscountedPrice(l), l.cdpTokenPrice, Repayment(l, requested));
  }

  /**
   * When the debtor's collateral runs out, the error is reached exactly when the repayment,
   * rounded half up to an integer, is worth more than that collateral at the full price.
   */
  lemma CappedFailsAtGuard(l: Liquidation, requested: real)
    requires Plausible(l) && Capped(l, requested)
    ensures var repayment := HalfUp(Div(Worth(DiscountedPrice(l), l.collateralAmount as real,
                                              DecimalMultiplier(l.debtDecimals - l.cdpTokenDecimals)), 1.0));
            MaxCollateralForLiquidator(l, requested).NegativeProfit? <==>
            Div(Worth(1.0, repayment as real, DecimalMultiplier(l.cdpTokenDecimals - l.debtDecimals)), l.cdpTokenPrice)
            > l.collateralAmount as real
  {
  }

  // ----- the boundary of that error -----

  /** A rounded quotient is above an integer from half a unit of the last place on. */
  lemma RoundedAbove(x: real, c: int, n: int)
    requires c >= 0 && n == c * 100_000_000_000_000_000_000
    ensures RoundTo(x, UNIT_20) > c as real <==> x >= c as real + ERROR
  {
    var y := x * UNIT_20;
    assert n as real == c as real * UNIT_20;
    HalfUpAbove(y, n);
    assert ERROR * UNIT_20 == 0.5;
    ScaledBound(x, c as real + ERROR, UNIT_20, n as real + 0.5);
    QuotientAbove(HalfUp(y) as real, c as real, UNIT_20, n as real);
  }

  lemma HalfUpAbove(y: real, n: int)
    requires n >= 0
    ensures HalfUp(y) > n <==> y >= n as real + 0.5
  {
  }

  lemma ScaledBound(x: real, b: real, k: real, bound: real)
    requires k > 0.0 && b * k == bound
    ensures x >= b <==> x * k >= bound
  {
    if x < b {
      StrictScale(x, b, k);
    }
  }

  lemma QuotientAbove(h: real, c: real, k: real, n: real)
    requires k > 0.0 && n == c * k
    ensures h / k > c <==> h > n
  {
    var q := h / k;
    assert q * k == h;
    if q > c {
      StrictScale(c, q, k);
    }
  }

  /** What a repayment of r buys at a price of p is at least k exactly when r is at least what k is worth. */
  lemma BuysAtLeast(r: real, p: real, m: real, m': real, k: real)
    requires p > 0.0 && m > 0.0 && m' > 0.0 && m * m' == 1.0
    ensures Worth(1.0, r, m) / p >= k <==> r >= Worth(p, k, m')
  {
    var q := Worth(1.0, r, m) / p;
    assert q * p == r * m;
    ScaledBound(q, k, p, k * p);
    ScaledBound(r * m, k * p, m', Worth(p, k, m'));
    assert (r * m) * m' == r * (m * m') == r;
  }

  /** The repayment when the debtor's collateral runs out. */
  function CappedRepayment(l: Liquidation): int {
    HalfUp(Div(Worth(DiscountedPrice(l), l.collateralAmount as real, DecimalMultiplier(l.debtDecimals - l.cdpTokenDecimals)), 1.0))
  }

  /** What an amount of collateral is worth in units of debt, at a price. */
  function WorthOf(l: Liquidation, price: real, amount: real): real {
    Worth(price, amount, DecimalMultiplier(l.debtDecimals - l.cdpTokenDecimals))
  }

  /**
   * The error is reached exactly when rounding lifts the repayment to the full-price worth of
   * the collateral, and of the rounding error of a division on top of it.
   */
  lemma CappedFailsExactly(l: Liquidation, requested: real)
    requires Plausible(l) && Capped(l, requested) && l.collateralAmount >= 0
    requires -20 <= l.cdpTokenDecimals - l.debtDecimals <= 20
    ensures MaxCollateralForLiquidator(l, requested).NegativeProfit? <==>
            CappedRepayment(l) as real >= WorthOf(l, l.cdpTokenPrice, l.collateralAmount as real + ERROR)
  {
    var m, m' := DecimalMultiplier(l.cdpTokenDecimals - l.debtDecimals), DecimalMultiplier(l.debtDecimals - l.cdpTokenDecimals);
    MultipliersCancel(l.cdpTokenDecimals - l.debtDecimals, l.debtDecimals - l.cdpTokenDecimals, m, m');
    CappedFailsAtGuard(l, requested);
    var x := Worth(1.0, CappedRepayment(l) as real, m) / l.cdpTokenPrice;
    RoundedAbove(x, l.collateralAmount, l.collateralAmount * 100_000_000_000_000_000_000);
    BuysAtLeast(CappedRepayment(l) as real, l.cdpTokenPrice, m, m', l.collateralAmount as real + ERROR);
  }

  /**
   * A discount that is worth half a unit of debt, and the rounding error of a division, on all
   * of the collateral rules the error out.
   */
  lemma DiscountAvoidsError(l: Liquidation, requested: real)
    requires Plausible(l) && l.collateralAmount >= 0 && -20 <= l.cdpTokenDecimals - l.debtDecimals <= 20
    requires Repayment(l, requested) >= 0.0
    requires WorthOf(l, l.cdpTokenPrice - DiscountedPrice(l), l.collateralAmount as real) >= 0.5 + ERROR
    ensures MaxCollateralForLiquidator(l, requested).Payout?
  {
    if Capped(l, requested) {
      CappedFailsExactly(l, requested);
      var m' := DecimalMultiplier(l.debtDecimals - l.cdpTokenDecimals);
      MultipliersCancel(l.cdpTokenDecimals - l.debtDecimals, l.debtDecimals - l.cdpTokenDecimals,
                        DecimalMultiplier(l.cdpTokenDecimals - l.debtDecimals), m');
      RepaymentIsClose(WorthOf(l, DiscountedPrice(l), l.collateralAmount as real), CappedRepayment(l));
      WorthsAdd(l.cdpTokenPrice, DiscountedPrice(l), l.collateralAmount as real, m');
    } else {
      UncappedNeverFails(l, requested);
    }
  }

  lemma RepaymentIsClose(worth: real, repayment: int)
    requires repayment == HalfUp(Div(worth, 1.0))
    ensures repayment as real <= worth + 0.5 + ERROR
  {
    assert worth / 1.0 == worth;
    RoundClose(worth, UNIT_20);
    HalfUpClose(RoundTo(worth, UNIT_20));
  }

  lemma WorthsAdd(p: real, d: real, c: real, m': real)
    requires p > 0.0 && m' > 0.0
    ensures Worth(p - d, c, m') + Worth(d, c, m') == Worth(p, c, m') < Worth(p, c + ERROR, m')
  {
    assert (p - d) * c * m' + d * c * m' == p * c * m';
    StrictScale(c, c + ERROR, p * m');
    assert c * (p * m') == p * c * m' && (c + ERROR) * (p * m') == p * (c + ERROR) * m';
  }

  /**
   * The error can be reached: one unit of collateral at a price of 0.6 covers a debt of 0.6,
   * which rounds to 1 and is worth two units.
   */
  lemma CappedCanFail(l: Liquidation, requested: real)
    requires Plausible(l) && l.cdpTokenPrice == 0.6 && l.collateralAmount == 1 && l.liquidationDiscount == 0
    requires l.cdpTokenDecimals == l.debtDecimals && Repayment(l, requested) >= 1.0
    ensures Capped(l, requested) && MaxCollateralForLiquidator(l, requested) == NegativeProfit
  {
    NoDiscount(l);
    assert DecimalMultiplier(0) == 1.0;
    AtLeastTwo(Repayment(l, requested));
    AtLeastTwo(1.0);
    RoundOfMultiple(0.6, 60_000_000_000_000_000_000, UNIT_20);
    assert DebtCoveredByCollateral(1.0, 0.6, 1.0, 0, 0) == 1;
  }

  lemma NoDiscount(l: Liquidation)
    requires l.liquidationDiscount == 0
    ensures DiscountedPrice(l) == l.cdpTokenPrice
  {
    assert 0.0 / UNIT_4 == 0.0;
    RoundZero(UNIT_20);
  }

  lemma AtLeastTwo(debt: real)
    requires debt >= 1.0
    ensures CollateralRequiredForDebt(1.0, 0.6, debt, 0, 0) >= 2
  {
    assert DecimalMultiplier(0) == 1.0;
    assert Worth(1.0, debt, 1.0) == debt;
    RoundMonotone(1.5, debt / 0.6, UNIT_20);
    RoundOfMultiple(1.5, 150_000_000_000_000_000_000, UNIT_20);
    CeilMonotone(1.5, Div(debt, 0.6));
  }
}
