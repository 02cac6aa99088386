/** Which setups the risk engine allows, in prices and quantities. */
module RiskDecisions {
  import opened Common
  import opened Sizing

  /** The stop on the losing and the target on the winning side of the entry. */
  predicate OnOwnSides(x: Context) {
    var side := if x.long then 1.0 else -1.0;
    side * (x.entry - x.stop) > 0.0 && side * (x.target - x.entry) > 0.0
  }

  /** Enough reward for the risk, and a stop neither too near nor too far for the ATR. */
  predicate WellPlaced(c: RiskConfig, x: Context) {
    && Abs(x.target - x.entry) >= c.minimumRiskReward * Abs(x.entry - x.stop)
    && c.minStopAtr * x.atr <= Abs(x.entry - x.stop) <= c.maxStopAtr * x.atr
  }

  /** The size is one the exchange takes. */
  predicate Tradable(i: Instrument, s: Size) {
    && s.quantity > 0.0
    && (i.minQuantity.Some? ==> s.quantity >= i.minQuantity.value)
    && (i.minNotional.Some? ==> s.notional >= i.minNotional.value)
  }

  /** What is available after the margin buffer carries the notional, at whole hundredths of leverage and at most 3. */
  predicate Carried(c: RiskConfig, x: Context, notional: real) {
    CarriedBy(c, notional, x.available - x.available * c.marginBufferPercent / 100.0)
  }

  predicate CarriedBy(c: RiskConfig, notional: real, safe: real) {
    safe > 0.0 && 100.0 * notional <= (c.maxLeverage * 100.0).Floor as real * safe && notional <= 3.0 * safe
  }

  lemma SidesExactly(x: Context)
    ensures ValidStop(x.long, x.entry, x.stop) && ValidTarget(x.long, x.entry, x.target) <==> OnOwnSides(x)
  {
  }

  lemma PlacedExactly(c: RiskConfig, x: Context)
    requires x.entry != x.stop
    ensures WellPlaced(c, x) <==>
      && StructuralRr(x.entry, x.stop, x.target) >= c.minimumRiskReward
      && c.minStopAtr <= Abs(x.entry - x.stop) / x.atr <= c.maxStopAtr
  {
    var risk := Abs(x.entry - x.stop);
    RatioExactly(Abs(x.target - x.entry), risk, c.minimumRiskReward);
    RatioExactly(risk, x.atr, c.minStopAtr);
    RatioExactly(risk, x.atr, c.maxStopAtr);
  }

  /** Rounded up to hundredths, a value is within a limit exactly when it is below the limit's whole hundredths. */
  lemma CeilingExactly(x: real, limit: real)
    ensures CeilHundredths(x) <= limit <==> x * 100.0 <= (limit * 100.0).Floor as real
  {
    var n, m := (-(x * 100.0)).Floor, (limit * 100.0).Floor;
    assert CeilHundredths(x) <= limit <==> (-n) as real <= limit * 100.0;
    assert (-n) as real <= limit * 100.0 <==> -n <= m;
    assert -n <= m <==> x * 100.0 <= m as real;
  }

  lemma LeverageCheck(c: RiskConfig, x: Context)
    requires ValidConfig(c)
    ensures Evaluate(c, x).leverage <==> 0.0 < EstimatedLeverage(c, x) <= c.maxLeverage
  {
    hide SizeOf, StructuralRr, QuantityStep, RiskBudget, SafeBalance, EstimatedLeverage, Sized;
  }

  lemma LeverageExactly(c: RiskConfig, x: Context)
    requires ValidConfig(c)
    ensures Evaluate(c, x).leverage <==>
      SafeBalance(c, x) > 0.0
      && 100.0 * SizeOf(c, x).notional <= (c.maxLeverage * 100.0).Floor as real * SafeBalance(c, x)
  {
    hide SizeOf, Evaluate, CeilHundredths, SafeBalance, EstimatedLeverage;
    var n, safe := SizeOf(c, x).notional, SafeBalance(c, x);
    LeverageCheck(c, x);
    if safe > 0.0 {
      LeverageIs(c, x);
      CeilingExactly(Max(1.0, n / safe), c.maxLeverage);
      AtLeastHundred(c.maxLeverage);
      HundredTimes(n, safe, (c.maxLeverage * 100.0).Floor as real);
    } else {
      assert EstimatedLeverage(c, x) == 0.0;
    }
  }

  lemma CarriedBySafe(c: RiskConfig, x: Context, n: real)
    ensures Carried(c, x, n) == CarriedBy(c, n, SafeBalance(c, x))
  {
    hide CarriedBy;
    SafeExactly(c, x);
  }

  /** Within the leverage limit the margin check only adds the factor 3. */
  lemma CarriedAt(c: RiskConfig, n: real, safe: real)
    requires ValidConfig(c)
    ensures CarriedBy(c, n, safe) <==>
      && safe > 0.0 && 100.0 * n <= (c.maxLeverage * 100.0).Floor as real * safe
      && n <= Min(3.0, c.maxLeverage) * safe
  {
    if safe > 0.0 {
      AtLeastHundred(c.maxLeverage);
      WholeBound(n, safe, (c.maxLeverage * 100.0).Floor as real, c.maxLeverage);
    }
  }

  lemma CarriedExactly(c: RiskConfig, x: Context)
    requires ValidConfig(c)
    ensures var k, n := Evaluate(c, x), SizeOf(c, x).notional;
      k.leverage && k.margin <==> Carried(c, x, n)
  {
    hide SizeOf, Evaluate, SafeBalance, Carried, CarriedBy, ValidConfig;
    MarginIsTheBindingCheck(c, x);
    LeverageExactly(c, x);
    CarriedAt(c, SizeOf(c, x).notional, SafeBalance(c, x));
    CarriedBySafe(c, x, SizeOf(c, x).notional);
  }

  lemma SafeExactly(c: RiskConfig, x: Context)
    ensures SafeBalance(c, x) == x.available - x.available * c.marginBufferPercent / 100.0
  {
  }

  lemma LeverageIs(c: RiskConfig, x: Context)
    requires SafeBalance(c, x) > 0.0
    ensures EstimatedLeverage(c, x) == CeilHundredths(Max(1.0, SizeOf(c, x).notional / SafeBalance(c, x))) > 0.0
  {
    hide SizeOf, SafeBalance, CeilHundredths;
  }

  lemma AtLeastHundred(limit: real)
    requires limit >= 1.0
    ensures (limit * 100.0).Floor >= 100 && (limit * 100.0).Floor as real <= limit * 100.0
  {
  }

  lemma HundredTimes(n: real, safe: real, whole: real)
    requires safe > 0.0
    ensures n / safe * 100.0 <= whole <==> 100.0 * n <= whole * safe
  {
    var r := n / safe;
    assert r * safe == n;
    var d := r * 100.0 - whole;
    assert d * safe == 100.0 * n - whole * safe;
    assert d > 0.0 ==> d * safe > 0.0;
    assert d < 0.0 ==> d * safe < 0.0;
  }

  /** Within the whole hundredths of the limit, the margin test only adds the factor 3. */
  lemma WholeBound(n: real, safe: real, whole: real, limit: real)
    requires safe > 0.0 && whole <= limit * 100.0
    ensures 100.0 * n <= whole * safe ==> (n <= Min(3.0, limit) * safe <==> n <= 3.0 * safe)
  {
    ProductLe(whole, limit * 100.0, safe);
    assert limit * 100.0 * safe == 100.0 * (limit * safe);
    ProductLe(Min(3.0, limit), 3.0, safe);
  }

  /**
   A setup is allowed exactly when its levels are on their own sides and well placed,
   the size found for it can be traded and carried, existing exposure leaves room,
   and the remaining checks pass: the other notional and loss checks add nothing.
   */
  lemma AllowedExactly(c: RiskConfig, x: Context)
    requires ValidConfig(c)
    ensures var s := SizeOf(c, x);
      Allowed(Evaluate(c, x)) <==>
        && OnOwnSides(x) && WellPlaced(c, x) && QuantityStep(x.instrument).Some? && Tradable(x.instrument, s)
        && x.exposure * 100.0 <= x.equity * c.maxTotalExposurePercent && Carried(c, x, s.notional) && x.otherChecks
  {
    hide SizeOf, StructuralRr, QuantityStep, EstimatedLeverage, SafeBalance, Carried, WellPlaced, OnOwnSides, ValidStop,
      ValidTarget;
    SidesExactly(x);
    CarriedExactly(c, x);
    BudgetPositive(c, x);
    if QuantityStep(x.instrument).Some? {
      RechecksHold(c, x);
    }
    if OnOwnSides(x) {
      SidesDiffer(x);
      PlacedExactly(c, x);
    }
  }

  lemma SidesDiffer(x: Context)
    requires OnOwnSides(x)
    ensures x.entry != x.stop
  {
  }

  lemma BudgetPositive(c: RiskConfig, x: Context)
    ensures RiskBudget(c, x) > 0.0
  {
    ProductPositive(x.equity, c.riskPerTradePercent);
  }

  // ---- The size of a setup

  /** What one unit loses at the stop: the distance, fees on both fills, and the slippage allowance. */
  function UnitLoss(c: RiskConfig, x: Context): real {
    Abs(x.entry - x.stop) + (x.entry + x.stop) * (c.feePercent / 100.0)
    + x.entry * x.slippagePercent / 100.0 * c.slippageMultiplier
  }

  /** A quantity within the risk per trade, the cap on one position, and what existing exposure leaves of the total. */
  predicate Affords(c: RiskConfig, x: Context, quantity: real) {
    && quantity * UnitLoss(c, x) * 100.0 <= x.equity * c.riskPerTradePercent
    && quantity * x.entry <= c.maxPositionNotional
    && (quantity * x.entry > 0.0 ==>
          (x.exposure + quantity * x.entry) * 100.0 <= x.equity * c.maxTotalExposurePercent)
  }

  lemma UnitLossIs(c: RiskConfig, x: Context)
    ensures LossPerUnit(c, x.entry, x.stop, x.slippagePercent) == UnitLoss(c, x)
  {
  }

  lemma AffordsExactly(c: RiskConfig, x: Context, quantity: real)
    ensures Fits(c, RequestOf(c, x), quantity) <==> Affords(c, x, quantity)
  {
    hide UnitLoss, LossPerUnit;
    UnitLossIs(c, x);
  }

  /**
   The size is the largest whole number of quantity steps that the account affords,
   and zero when a unit could not lose anything or the exchange gives no step.
   */
  lemma SizeExactly(c: RiskConfig, x: Context) returns (k: nat)
    ensures var q := SizeOf(c, x).quantity;
      if QuantityStep(x.instrument).None? then SizeOf(c, x) == Size(0.0, 0.0, 0.0, 0.0, 0.0, 0.0)
      else if UnitLoss(c, x) <= 0.0 then q == 0.0
      else
        var step := QuantityStep(x.instrument).value;
        q == k as real * step && Affords(c, x, q) && !Affords(c, x, q + step)
  {
    hide Calculate, UnitLoss, LossPerUnit, Affords, Fits, QuantityStep, RiskBudget, MaximumTotal;
    k := 0;
    BudgetPositive(c, x);
    if QuantityStep(x.instrument).Some? {
      UnitLossIs(c, x);
      k := SizeIsMaximal(c, RequestOf(c, x));
      var q, step := SizeOf(c, x).quantity, QuantityStep(x.instrument).value;
      AffordsExactly(c, x, q);
      AffordsExactly(c, x, q + step);
    }
  }

  /** The step: the exchange's own when it is positive, else one in the last decimal of its precision. */
  lemma StepExactly(i: Instrument)
    ensures i.stepSize.Some? && i.stepSize.value > 0.0 ==> QuantityStep(i) == Some(i.stepSize.value)
    ensures var j := i.(stepSize := None, precision := Some(0)); QuantityStep(j) == Some(1.0)
    ensures forall n: nat ::
      var (j, k) := (i.(stepSize := None, precision := Some(n)), i.(stepSize := None, precision := Some(n + 1)));
      QuantityStep(j).Some? && QuantityStep(k).Some? && QuantityStep(j).value == 10.0 * QuantityStep(k).value
    ensures !(i.stepSize.Some? && i.stepSize.value > 0.0) && (i.precision.Some? ==> i.precision.value < 0) ==>
      QuantityStep(i) == None
    ensures !(i.stepSize.Some? && i.stepSize.value > 0.0) ==> QuantityStep(i) == QuantityStep(i.(stepSize := None))
  {
    forall n: nat
      ensures 1.0 / PowerOfTen(n) == 10.0 * (1.0 / PowerOfTen(n + 1))
    {
      TenTimes(PowerOfTen(n));
    }
    assert PowerOfTen(0) == 1.0;
  }

  lemma TenTimes(p: PosReal)
    ensures 1.0 / p == 10.0 * (1.0 / (10.0 * p))
  {
    var x, y := 1.0 / p, 1.0 / (10.0 * p);
    assert x * p == 1.0 && y * (10.0 * p) == 1.0;
    assert (x - 10.0 * y) * p == 0.0;
    ZeroFactor(x - 10.0 * y, p);
  }

  /** The costs of a size: the stop distance, fees on both fills, and the slippage allowance on the entry. */
  lemma CostsExactly(c: RiskConfig, x: Context)
    requires QuantityStep(x.instrument).Some?
    ensures var s := SizeOf(c, x);
      && s.notional == x.entry * s.quantity && s.stopRisk == Abs(x.entry - x.stop) * s.quantity
      && s.fees * 100.0 == (x.entry * s.quantity + x.stop * s.quantity) * c.feePercent
      && s.slippage * 100.0 == x.entry * s.quantity * x.slippagePercent * c.slippageMultiplier
      && s.maximumLoss == s.stopRisk + s.fees + s.slippage
  {
    hide RoundQuantityDown, RawQuantity, QuantityStep;
    BudgetPositive(c, x);
    var q := SizeOf(c, x).quantity;
    FeesOf(q, x.entry, x.stop, c.feePercent);
    SlippageOf(q, x.entry, x.slippagePercent, c.slippageMultiplier);
  }

  lemma FeesOf(q: real, e: real, s: real, f: real)
    ensures q * (e + s) * (f / 100.0) * 100.0 == (e * q + s * q) * f
  {
    assert q * (e + s) == e * q + s * q;
    var n := e * q + s * q;
    assert n * (f / 100.0) * 100.0 == n * f;
  }

  lemma SlippageOf(q: real, e: real, p: real, m: real)
    ensures q * e * p / 100.0 * m * 100.0 == e * q * p * m
  {
    var n := q * e * p;
    assert n == e * q * p;
    assert n / 100.0 * m * 100.0 == n * m;
  }
}
