/** All-in position sizing and the risk engine's independent re-checks. */
module Sizing {
  import opened Common

  /** Percent figures as configured. */
  datatype RiskConfig = RiskConfig(
    riskPerTradePercent: PosReal, maxTotalExposurePercent: PosReal, minimumRiskReward: PosReal, maxLeverage: real,
    maxPositionNotional: PosReal, feePercent: NonNegReal, slippageMultiplier: real, marginBufferPercent: real,
    minStopAtr: PosReal, maxStopAtr: PosReal)

  /** Field constraints of the configuration. */
  predicate ValidConfig(c: RiskConfig) {
    c.maxLeverage >= 1.0 && c.slippageMultiplier >= 1.0 && 0.0 <= c.marginBufferPercent < 100.0
      && c.minStopAtr < c.maxStopAtr
  }

  datatype Instrument = Instrument(stepSize: Option<real>, precision: Option<int>, minQuantity: Option<real>,
                                   minNotional: Option<real>)

  function PowerOfTen(n: nat): PosReal {
    if n == 0 then 1.0 else 10.0 * PowerOfTen(n - 1)
  }

  function QuantityStep(i: Instrument): Option<PosReal> {
    if i.stepSize.Some? && i.stepSize.value > 0.0 then Some(i.stepSize.value)
    else if i.precision.Some? && i.precision.value >= 0 then
      var p := PowerOfTen(i.precision.value);
      assert 1.0 / p > 0.0;
      Some(1.0 / p)
    else None
  }

  /** `k` steps. */
  function Steps(k: int, step: real): real { k as real * step }

  /** Decimal ROUND_DOWN to a whole number of steps. */
  function RoundQuantityDown(quantity: real, step: real): real {
    if quantity <= 0.0 || step <= 0.0 then 0.0 else Steps((quantity / step).Floor, step)
  }

  datatype Size = Size(quantity: real, notional: real, stopRisk: real, fees: real, slippage: real, maximumLoss: real)

  function FeeCost(c: RiskConfig, quantity: real, entry: real, exit: real): real {
    quantity * (entry + exit) * (c.feePercent / 100.0)
  }

  function SlippageCost(c: RiskConfig, quantity: real, entry: real, slippagePercent: real): real {
    quantity * entry * slippagePercent / 100.0 * c.slippageMultiplier
  }

  function LossPerUnit(c: RiskConfig, entry: real, stop: real, slippagePercent: real): real {
    Abs(entry - stop) + FeeCost(c, 1.0, entry, stop) + SlippageCost(c, 1.0, entry, slippagePercent)
  }

  /** What one sizing call is given. */
  datatype Request = Request(entry: real, stop: real, budget: real, slippagePercent: real, instrument: Instrument,
                             newNotional: real)

  function RawQuantity(c: RiskConfig, r: Request): real
    requires r.entry != 0.0
  {
    var perUnit := LossPerUnit(c, r.entry, r.stop, r.slippagePercent);
    Min(Min(if perUnit > 0.0 then r.budget / perUnit else 0.0, c.maxPositionNotional / r.entry),
        Max(0.0, r.newNotional) / r.entry)
  }

  function Calculate(c: RiskConfig, r: Request): Size
    requires r.entry != 0.0
  {
    var step := QuantityStep(r.instrument);
    var quantity := if step.Some? then RoundQuantityDown(RawQuantity(c, r), step.value) else 0.0;
    var stopRisk := Abs(r.entry - r.stop) * quantity;
    var fees := FeeCost(c, quantity, r.entry, r.stop);
    var slippage := SlippageCost(c, quantity, r.entry, r.slippagePercent);
    Size(quantity, r.entry * quantity, stopRisk, fees, slippage, stopRisk + fees + slippage)
  }

  // ---- Rounding down

  lemma RoundDown(quantity: real, step: real) returns (k: nat)
    requires step > 0.0
    ensures RoundQuantityDown(quantity, step) == Steps(k, step)
    ensures quantity > 0.0 ==> Steps(k, step) <= quantity < Steps(k + 1, step)
    ensures quantity <= 0.0 ==> k == 0 && Steps(k, step) == 0.0
  {
    if quantity <= 0.0 {
      k := 0;
    } else {
      var q := quantity / step;
      assert q * step == quantity;
      assert q >= 0.0 by {
        assert q < 0.0 ==> q * step < 0.0;
      }
      k := q.Floor;
      ProductLe(k as real, q, step);
      ProductLt(q, (k + 1) as real, step);
    }
  }

  lemma StepsMonotone(j: int, k: int, step: real)
    requires j <= k && step > 0.0
    ensures Steps(j, step) <= Steps(k, step)
  {
    ProductLe(j as real, k as real, step);
  }

  lemma OneMoreStep(k: int, step: real)
    ensures Steps(k + 1, step) == Steps(k, step) + step
  {
    var n := k as real;
    assert (n + 1.0) * step == n * step + step;
    assert (k + 1) as real == n + 1.0;
  }

  lemma Quotient(n: real, d: real, q: real)
    requires d > 0.0
    ensures q <= n / d <==> q * d <= n
    ensures q < n / d <==> q * d < n
  {
    var x := n / d;
    assert x * d == n;
    if q <= x {
      ProductLe(q, x, d);
    } else {
      ProductLt(x, q, d);
    }
    if q < x {
      ProductLt(q, x, d);
    } else {
      ProductLe(x, q, d);
    }
  }

  /** The loss at the stop is linear in the quantity. */
  lemma LossIsLinear(c: RiskConfig, r: Request, quantity: real)
    ensures Abs(r.entry - r.stop) * quantity + FeeCost(c, quantity, r.entry, r.stop)
      + SlippageCost(c, quantity, r.entry, r.slippagePercent)
         == quantity * LossPerUnit(c, r.entry, r.stop, r.slippagePercent)
  {
    FeeLinear(c, r, quantity);
    SlippageLinear(c, r, quantity);
  }

  lemma FeeLinear(c: RiskConfig, r: Request, quantity: real)
    ensures FeeCost(c, quantity, r.entry, r.stop) == quantity * FeeCost(c, 1.0, r.entry, r.stop)
  {
  }

  lemma SlippageLinear(c: RiskConfig, r: Request, quantity: real)
    ensures SlippageCost(c, quantity, r.entry, r.slippagePercent)
      == quantity * SlippageCost(c, 1.0, r.entry, r.slippagePercent)
  {
  }

  /** Whether a quantity respects the budget and both notional caps. */
  predicate Fits(c: RiskConfig, r: Request, quantity: real) {
    && quantity * LossPerUnit(c, r.entry, r.stop, r.slippagePercent) <= r.budget
    && quantity * r.entry <= c.maxPositionNotional
    && quantity * r.entry <= Max(0.0, r.newNotional)
  }

  lemma RawFits(c: RiskConfig, r: Request, quantity: real)
    requires r.entry > 0.0 && LossPerUnit(c, r.entry, r.stop, r.slippagePercent) > 0.0
    ensures quantity <= RawQuantity(c, r) <==> Fits(c, r, quantity)
  {
    hide LossPerUnit;
    Quotient(r.budget, LossPerUnit(c, r.entry, r.stop, r.slippagePercent), quantity);
    Quotient(c.maxPositionNotional, r.entry, quantity);
    Quotient(Max(0.0, r.newNotional), r.entry, quantity);
  }

  /** The source sizes a positive entry with a positive loss per unit, a known step and a budget. */
  predicate Sizable(c: RiskConfig, r: Request) {
    r.entry > 0.0 && LossPerUnit(c, r.entry, r.stop, r.slippagePercent) > 0.0 && r.budget >= 0.0
      && QuantityStep(r.instrument).Some?
  }

  /**
   The size is a whole number of steps and the largest one that fits: the next
   step breaks the budget or a notional cap. Anything that cannot be sized gets
   no quantity.
   */
  lemma SizeIsMaximal(c: RiskConfig, r: Request) returns (k: nat)
    requires r.entry != 0.0
    ensures var s := Calculate(c, r);
      if !Sizable(c, r) then s.quantity == 0.0
      else
        var step := QuantityStep(r.instrument).value;
        && s.quantity == Steps(k, step)
        && Fits(c, r, s.quantity) && !Fits(c, r, s.quantity + step)
        && s.maximumLoss <= r.budget && s.notional <= c.maxPositionNotional && s.notional <= Max(0.0, r.newNotional)
  {
    hide LossPerUnit, RawQuantity, Fits, RoundQuantityDown, FeeCost, SlippageCost, Steps, QuantityStep;
    k := 0;
    var step := QuantityStep(r.instrument);
    if Sizable(c, r) {
      var raw := RawQuantity(c, r);
      k := RoundDown(raw, step.value);
      var quantity := Steps(k, step.value);
      OneMoreStep(k, step.value);
      RawFits(c, r, 0.0);
      ZeroFits(c, r);
      RawFits(c, r, quantity);
      RawFits(c, r, quantity + step.value);
      LossIsLinear(c, r, quantity);
      FitsMeans(c, r, quantity);
    } else if step.Some? {
      NoRaw(c, r);
      var n := RoundDown(RawQuantity(c, r), step.value);
    }
  }

  lemma ZeroFits(c: RiskConfig, r: Request)
    requires r.budget >= 0.0
    ensures Fits(c, r, 0.0)
  {
    hide LossPerUnit;
  }

  lemma FitsMeans(c: RiskConfig, r: Request, quantity: real)
    requires Fits(c, r, quantity)
    ensures quantity * LossPerUnit(c, r.entry, r.stop, r.slippagePercent) <= r.budget
    ensures r.entry * quantity <= c.maxPositionNotional && r.entry * quantity <= Max(0.0, r.newNotional)
  {
    hide LossPerUnit;
    assert r.entry * quantity == quantity * r.entry;
  }

  /** Every sized position is sound, whatever the entry, stop and step. */
  lemma SizeIsSound(c: RiskConfig, r: Request)
    requires r.entry != 0.0 && r.budget >= 0.0
    ensures var s := Calculate(c, r);
      && s.quantity >= 0.0
      && s.maximumLoss <= r.budget && s.notional <= c.maxPositionNotional && s.notional <= Max(0.0, r.newNotional)
  {
    hide LossPerUnit, RawQuantity, RoundQuantityDown, FeeCost, SlippageCost, QuantityStep;
    var k := SizeIsMaximal(c, r);
    if Sizable(c, r) {
      StepsMonotone(0, k, QuantityStep(r.instrument).value);
    } else {
      LossIsLinear(c, r, 0.0);
    }
  }

  /** A negative entry, a negative budget or no loss per unit gives no quantity at all. */
  lemma NoRaw(c: RiskConfig, r: Request)
    requires r.entry != 0.0
    requires r.entry < 0.0 || LossPerUnit(c, r.entry, r.stop, r.slippagePercent) <= 0.0 || r.budget < 0.0
    ensures RawQuantity(c, r) <= 0.0
  {
    hide LossPerUnit;
    if r.entry < 0.0 {
      NegativeQuotient(c.maxPositionNotional, r.entry);
    } else if LossPerUnit(c, r.entry, r.stop, r.slippagePercent) > 0.0 {
      Quotient(r.budget, LossPerUnit(c, r.entry, r.stop, r.slippagePercent), 0.0);
    }
  }

  lemma NegativeQuotient(n: real, d: real)
    requires n > 0.0 && d < 0.0
    ensures n / d < 0.0
  {
    var q := n / d;
    assert q * d == n;
    assert q >= 0.0 ==> q * d <= 0.0;
  }

  /** A smaller budget never gives a larger size. */
  lemma SizeMonotone(c: RiskConfig, r: Request, budget: real)
    requires r.entry != 0.0 && 0.0 <= budget <= r.budget
    ensures Calculate(c, r.(budget := budget)).quantity <= Calculate(c, r).quantity
  {
    hide LossPerUnit, RawQuantity, RoundQuantityDown, FeeCost, SlippageCost, QuantityStep;
    var step, small := QuantityStep(r.instrument), r.(budget := budget);
    if step.Some? {
      RawMonotone(c, r, budget);
      RoundedMonotone(RawQuantity(c, small), RawQuantity(c, r), step.value);
    }
  }

  lemma RawMonotone(c: RiskConfig, r: Request, budget: real)
    requires r.entry != 0.0 && budget <= r.budget
    ensures RawQuantity(c, r.(budget := budget)) <= RawQuantity(c, r)
  {
    hide LossPerUnit;
    var perUnit := LossPerUnit(c, r.entry, r.stop, r.slippagePercent);
    if perUnit > 0.0 {
      var q := budget / perUnit;
      assert q * perUnit == budget;
      Quotient(r.budget, perUnit, q);
    }
  }

  lemma RoundedMonotone(x: real, y: real, step: real)
    requires x <= y && step > 0.0
    ensures RoundQuantityDown(x, step) <= RoundQuantityDown(y, step)
  {
    hide RoundQuantityDown, Steps;
    var j := RoundDown(x, step);
    var k := RoundDown(y, step);
    if j > k {
      StepsMonotone(k + 1, j, step);
    } else {
      StepsMonotone(j, k, step);
    }
  }

  // ---- The engine's re-checks

  /** Account, setup and market inputs of one evaluation; `otherChecks` stands for the checks not modelled. */
  datatype Context = Context(
    equity: PosReal, available: NonNegReal, exposure: NonNegReal, long: bool,
    entry: PosReal, stop: PosReal, target: PosReal, atr: PosReal, slippagePercent: NonNegReal,
    instrument: Instrument, otherChecks: bool)

  function ValidStop(long: bool, entry: real, stop: real): bool { if long then stop < entry else stop > entry }

  function ValidTarget(long: bool, entry: real, target: real): bool { if long then target > entry else target < entry }

  function StructuralRr(entry: real, stop: real, target: real): real {
    var risk := Abs(entry - stop);
    if risk > 0.0 then Abs(target - entry) / risk else 0.0
  }

  function RiskBudget(c: RiskConfig, x: Context): real { x.equity * c.riskPerTradePercent / 100.0 }

  function MaximumTotal(c: RiskConfig, x: Context): real { x.equity * c.maxTotalExposurePercent / 100.0 }

  function RequestOf(c: RiskConfig, x: Context): Request {
    Request(x.entry, x.stop, RiskBudget(c, x), x.slippagePercent, x.instrument, MaximumTotal(c, x) - x.exposure)
  }

  /** Sizing is attempted only with a quantity step and a positive budget. */
  predicate Sized(c: RiskConfig, x: Context) { QuantityStep(x.instrument).Some? && RiskBudget(c, x) > 0.0 }

  function SizeOf(c: RiskConfig, x: Context): Size {
    if Sized(c, x) then Calculate(c, RequestOf(c, x)) else Size(0.0, 0.0, 0.0, 0.0, 0.0, 0.0)
  }

  function CeilHundredths(x: real): real { -((-(x * 100.0)).Floor as real) / 100.0 }

  function SafeBalance(c: RiskConfig, x: Context): real { x.available * (1.0 - c.marginBufferPercent / 100.0) }

  /** The leverage the notional needs, rounded up to hundredths; zero without a safe balance. */
  function EstimatedLeverage(c: RiskConfig, x: Context): (leverage: real)
    ensures leverage == 0.0 || leverage >= 1.0
    ensures leverage == 0.0 <==> SafeBalance(c, x) <= 0.0
  {
    var safe := SafeBalance(c, x);
    if safe > 0.0 then
      var required := Max(1.0, SizeOf(c, x).notional / safe);
      assert CeilHundredths(required) >= 1.0 by {
        hide SizeOf, SafeBalance;
        assert (-(required * 100.0)).Floor <= -100;
      }
      CeilHundredths(required)
    else 0.0
  }

  datatype Checks = Checks(
    stopValidity: bool, targetValidity: bool, riskReward: bool, stopAtr: bool, constraints: bool, minimumQuantity: bool,
    minimumNotional: bool, maximumNotional: bool, totalExposure: bool, leverage: bool, margin: bool, maximumLoss: bool,
      others: bool)

  function Evaluate(c: RiskConfig, x: Context): Checks
    requires ValidConfig(c)
  {
    var size, sized := SizeOf(c, x), Sized(c, x);
    var safe, estimated := SafeBalance(c, x), EstimatedLeverage(c, x);
    var atrDistance := Abs(x.entry - x.stop) / x.atr;
    Checks(
      ValidStop(x.long, x.entry, x.stop),
      ValidTarget(x.long, x.entry, x.target),
      StructuralRr(x.entry, x.stop, x.target) >= c.minimumRiskReward,
      c.minStopAtr <= atrDistance <= c.maxStopAtr,
      QuantityStep(x.instrument).Some?,
      sized && size.quantity > 0.0
        && (x.instrument.minQuantity.None? || size.quantity >= x.instrument.minQuantity.value),
      sized && (x.instrument.minNotional.None? || size.notional >= x.instrument.minNotional.value),
      size.notional <= c.maxPositionNotional,
      (x.exposure + size.notional) / x.equity * 100.0 <= c.maxTotalExposurePercent,
      estimated > 0.0 && estimated <= c.maxLeverage,
      size.notional / Min(3.0, c.maxLeverage) <= safe,
      sized && size.maximumLoss <= RiskBudget(c, x) + 0.000000001,
      x.otherChecks)
  }

  predicate Allowed(k: Checks) {
    && k.stopValidity && k.targetValidity && k.riskReward && k.stopAtr && k.constraints && k.minimumQuantity
    && k.minimumNotional && k.maximumNotional && k.totalExposure && k.leverage && k.margin && k.maximumLoss && k.others
  }

  /**
   On a sized position the notional and loss re-checks cannot fail, and the
   exposure re-check fails exactly when the existing exposure is already too large.
   */
  lemma RechecksHold(c: RiskConfig, x: Context)
    requires ValidConfig(c) && Sized(c, x)
    ensures var k := Evaluate(c, x);
      && k.maximumNotional && k.maximumLoss
      && (k.totalExposure <==> x.exposure <= MaximumTotal(c, x))
  {
    hide Calculate, QuantityStep, RiskBudget, MaximumTotal, StructuralRr, EstimatedLeverage, SafeBalance;
    BudgetNonNegative(c, x);
    SizeIsSound(c, RequestOf(c, x));
    NotionalNonNegative(c, RequestOf(c, x));
    ExposurePercent(c, x, x.exposure + SizeOf(c, x).notional);
  }

  lemma BudgetNonNegative(c: RiskConfig, x: Context)
    ensures RiskBudget(c, x) >= 0.0
  {
  }

  lemma NotionalNonNegative(c: RiskConfig, r: Request)
    requires r.entry > 0.0 && r.budget >= 0.0
    ensures Calculate(c, r).notional >= 0.0
  {
    hide LossPerUnit, RawQuantity, RoundQuantityDown, FeeCost, SlippageCost, QuantityStep;
    SizeIsSound(c, r);
    ProductLe(0.0, Calculate(c, r).quantity, r.entry);
  }

  lemma ExposurePercent(c: RiskConfig, x: Context, total: real)
    ensures total / x.equity * 100.0 <= c.maxTotalExposurePercent <==> total <= MaximumTotal(c, x)
  {
    var q := total / x.equity;
    assert q * x.equity == total;
    var limit := c.maxTotalExposurePercent / 100.0;
    assert MaximumTotal(c, x) == limit * x.equity;
    if q <= limit {
      ProductLe(q, limit, x.equity);
    } else {
      ProductLt(limit, q, x.equity);
    }
  }

  /** An allowed decision risks at most the budget, all in, and fits both notional ceilings. */
  lemma AllowedIsBounded(c: RiskConfig, x: Context)
    requires ValidConfig(c) && Allowed(Evaluate(c, x))
    ensures var s := SizeOf(c, x);
      && s.quantity > 0.0
      && s.stopRisk + s.fees + s.slippage <= RiskBudget(c, x)
      && s.notional <= c.maxPositionNotional && x.exposure + s.notional <= MaximumTotal(c, x)
  {
    hide Calculate, QuantityStep, RiskBudget, MaximumTotal, StructuralRr, EstimatedLeverage, SafeBalance;
    BudgetNonNegative(c, x);
    SizeIsSound(c, RequestOf(c, x));
    LossIsSum(c, RequestOf(c, x));
    ExposurePercent(c, x, x.exposure + SizeOf(c, x).notional);
  }

  lemma LossIsSum(c: RiskConfig, r: Request)
    requires r.entry != 0.0
    ensures var s := Calculate(c, r); s.maximumLoss == s.stopRisk + s.fees + s.slippage
  {
    hide FeeCost, SlippageCost, RoundQuantityDown, RawQuantity;
  }

  /**
   The margin check uses min(3, maximum leverage) while the leverage check allows
   up to the maximum: the margin check fails exactly when more than that is needed.
   */
  lemma MarginIsTheBindingCheck(c: RiskConfig, x: Context)
    requires ValidConfig(c)
    ensures Evaluate(c, x).margin <==> SizeOf(c, x).notional <= Min(3.0, c.maxLeverage) * SafeBalance(c, x)
  {
    hide SizeOf, SafeBalance, StructuralRr, EstimatedLeverage, QuantityStep, RiskBudget;
    var u, n, safe := Min(3.0, c.maxLeverage), SizeOf(c, x).notional, SafeBalance(c, x);
    assert n / u * u == n;
    if n / u <= safe {
      ProductLe(n / u, safe, u);
    } else {
      ProductLt(safe, n / u, u);
    }
  }
}
