/** From a risk decision to the simulated fill and its stop-out. */
module RiskToFill {
  import opened Common
  import Candles
  import Sizing
  import Fills = BacktestExecution

  /** The risk decision as the backtester receives it; its risk amount is the whole risk budget. */
  function DecisionOf(limits: Sizing.RiskConfig, x: Sizing.Context, now: int): Fills.Decision
    requires Sizing.ValidConfig(limits)
  {
    SizedIsSound(limits, x);
    Fills.Decision(Sizing.Allowed(Sizing.Evaluate(limits, x)), Sizing.SizeOf(limits, x).quantity,
                   Sizing.RiskBudget(limits, x), Sizing.EstimatedLeverage(limits, x), now)
  }

  lemma SizedIsSound(limits: Sizing.RiskConfig, x: Sizing.Context)
    ensures Sizing.SizeOf(limits, x).quantity >= 0.0 && Sizing.RiskBudget(limits, x) >= 0.0
    ensures Sizing.SizeOf(limits, x).maximumLoss <= Sizing.RiskBudget(limits, x)
  {
    hide Sizing.Calculate, Sizing.RiskBudget;
    Sizing.BudgetNonNegative(limits, x);
    Sizing.SizeIsSound(limits, Sizing.RequestOf(limits, x));
  }

  /**
   Whatever the execution model, candle and setup: a position filled from a
   decision and stopped at its stop loses no more than the configured percentage
   of equity, fees and slippage included, up to the fill tolerance.
   */
  lemma StopOutWithinBudget(limits: Sizing.RiskConfig, x: Sizing.Context, c: Fills.FillConfig, symbol: string,
                            setup: Fills.Setup, candle: Candles.Candle, decidedAt: int, closedAt: int)
    requires Sizing.ValidConfig(limits)
    requires Fills.Enter(c, symbol, setup, DecisionOf(limits, x, decidedAt), candle).Filled?
    ensures Sizing.Allowed(Sizing.Evaluate(limits, x))
    ensures var p := Fills.Enter(c, symbol, setup, DecisionOf(limits, x, decidedAt), candle).position;
      Fills.Close(c, p, Fills.ExitFill(Fills.StopLoss, p.stop), closedAt).net
        >= -(x.equity * limits.riskPerTradePercent / 100.0 + 0.000000001)
  {
    hide Sizing.Evaluate, Sizing.SizeOf, Fills.Close, Fills.StopOutLoss, Fills.SlippedPrice, Fills.Fee, Fills.RawEntry,
      Sizing.EstimatedLeverage;
    var p := Fills.Enter(c, symbol, setup, DecisionOf(limits, x, decidedAt), candle).position;
    Fills.StopOutBound(c, p, Fills.StopLoss, closedAt);
  }

  // ---- When the sizer's cost estimate covers the simulated costs

  /** The estimated slippage per unit, as a fraction of the entry. */
  function SlippageAllowance(limits: Sizing.RiskConfig, x: Sizing.Context): real {
    x.slippagePercent / 100.0 * limits.slippageMultiplier
  }

  /** The slippage cost of one unit that the sizer budgets for. */
  function UnitAllowance(limits: Sizing.RiskConfig, x: Sizing.Context): real { x.entry * SlippageAllowance(limits, x) }

  function Bps(points: NonNegReal): (b: real)
    ensures b >= 0.0
  {
    points / 10000.0
  }

  /**
   The simulated slippage on entry and stop, with the fees on it, is within the
   estimate. Both sides follow from configuration and prices before the order.
   */
  predicate Covers(limits: Sizing.RiskConfig, c: Fills.FillConfig, x: Sizing.Context) {
    var f := Fills.FeeRate(c);
    Extra(x.long, x.entry, x.stop, Bps(c.entryBps), Bps(c.exitBps), f) <= UnitAllowance(limits, x)
  }

  /** The price moved up or down by a fraction. */
  function Moved(price: real, up: bool, step: real): real { price * (if up then 1.0 + step else 1.0 - step) }

  /** The fill of an order that trades at the planned entry. */
  function EntryFill(c: Fills.FillConfig, x: Sizing.Context): real { Moved(x.entry, x.long, Bps(c.entryBps)) }

  function StopFill(c: Fills.FillConfig, x: Sizing.Context): real { Moved(x.stop, !x.long, Bps(c.exitBps)) }

  function Extra(long: bool, entry: real, stop: real, b: real, d: real, f: real): real {
    if long then entry * b * (1.0 + f) + stop * d * (1.0 - f) else entry * b * (1.0 - f) + stop * d * (1.0 + f)
  }

  /** The loss of one unit filled at one price and stopped at another. */
  function UnitLoss(fill: real, stopFill: real, f: real): real { Abs(fill - stopFill) + fill * f + stopFill * f }

  function PlainFees(entry: real, stop: real, f: real): real { (entry + stop) * f }

  lemma LossPerUnitOf(limits: Sizing.RiskConfig, x: Sizing.Context)
    ensures Sizing.LossPerUnit(limits, x.entry, x.stop, x.slippagePercent)
         == Abs(x.entry - x.stop) + PlainFees(x.entry, x.stop, limits.feePercent / 100.0) + UnitAllowance(limits, x)
  {
    var e: real, a, m := x.entry, x.slippagePercent / 100.0, limits.slippageMultiplier;
    assert 1.0 * e * x.slippagePercent / 100.0 * m == e * (a * m);
  }

  /** The simulated loss of one unit exceeds the price distance and plain fees by exactly the extra cost. */
  lemma UnitLossSplits(long: bool, entry: real, stop: real, b: real, d: real, f: real)
    requires entry > 0.0 && stop > 0.0 && b >= 0.0 && d >= 0.0 && Sizing.ValidStop(long, entry, stop)
    ensures UnitLoss(Moved(entry, long, b), Moved(stop, !long, d), f)
      == Abs(entry - stop) + PlainFees(entry, stop, f) + Extra(long, entry, stop, b, d, f)
  {
    assert entry * b >= 0.0 && stop * d >= 0.0;
    if long {
      var fill, stopFill := entry + entry * b, stop - stop * d;
      assert Moved(entry, long, b) == fill && Moved(stop, !long, d) == stopFill;
      Expand(entry, stop, entry * b, stop * d, f);
    } else {
      var fill, stopFill := entry - entry * b, stop + stop * d;
      assert Moved(entry, long, b) == fill && Moved(stop, !long, d) == stopFill;
      Expand(entry, stop, -(entry * b), -(stop * d), f);
    }
  }

  lemma Expand(e: real, s: real, u: real, v: real, f: real)
    ensures (e + u) * f + (s - v) * f == (e + s) * f + u * f - v * f
    ensures u * (1.0 + f) == u + u * f && v * (1.0 - f) == v - v * f
    ensures (-u) * (1.0 - f) == -u + u * f && (-v) * (1.0 + f) == -v - v * f
  {
  }

  /** The estimate covers the costs exactly when a simulated unit never loses more than a sized unit. */
  lemma CoversExactly(limits: Sizing.RiskConfig, c: Fills.FillConfig, x: Sizing.Context)
    requires Sizing.ValidStop(x.long, x.entry, x.stop) && Fills.FeeRate(c) == limits.feePercent / 100.0
    ensures Covers(limits, c, x) <==>
      UnitLoss(EntryFill(c, x), StopFill(c, x), Fills.FeeRate(c))
        <= Sizing.LossPerUnit(limits, x.entry, x.stop, x.slippagePercent)
  {
    hide Sizing.LossPerUnit, UnitLoss, Extra, Fills.FeeRate, UnitAllowance, PlainFees, Moved, Bps;
    LossPerUnitOf(limits, x);
    UnitLossSplits(x.long, x.entry, x.stop, Bps(c.entryBps), Bps(c.exitBps), Fills.FeeRate(c));
  }

  function SideOf(x: Sizing.Context): Direction { if x.long then Long else Short }

  function SetupOf(x: Sizing.Context): Fills.Setup {
    Fills.Setup(SideOf(x), Some(x.entry), Some(x.stop), Some(x.target))
  }

  lemma SlippedPrices(c: Fills.FillConfig, x: Sizing.Context)
    ensures Fills.SlippedPrice(c, x.entry, SideOf(x), true) == EntryFill(c, x)
    ensures Fills.SlippedPrice(c, x.stop, SideOf(x), false) == StopFill(c, x)
  {
    var b, d := Bps(c.entryBps), Bps(c.exitBps);
    assert Fills.SlippageFactor(c, SideOf(x), true) == if x.long then 1.0 + b else 1.0 - b;
    assert Fills.SlippageFactor(c, SideOf(x), false) == if x.long then 1.0 - d else 1.0 + d;
  }

  lemma StopOutIsScaled(c: Fills.FillConfig, x: Sizing.Context, quantity: real)
    ensures Fills.StopOutLoss(c, SideOf(x), EntryFill(c, x), x.stop, quantity)
         == quantity * UnitLoss(EntryFill(c, x), StopFill(c, x), Fills.FeeRate(c))
  {
    hide EntryFill, StopFill, Fills.FeeRate, Fills.SlippedPrice;
    SlippedPrices(c, x);
    var a, s, f := EntryFill(c, x), StopFill(c, x), Fills.FeeRate(c);
    var distance := Abs(a - s);
    assert quantity * (distance + a * f + s * f) == distance * quantity + a * quantity * f + s * quantity * f;
  }

  /** An approved size costs at most the budget at the fill, when the estimate covers the costs. */
  lemma CoveredFillFitsBudget(limits: Sizing.RiskConfig, c: Fills.FillConfig, x: Sizing.Context)
    requires Sizing.ValidStop(x.long, x.entry, x.stop) && Fills.FeeRate(c) == limits.feePercent / 100.0
    requires Covers(limits, c, x) && Sizing.Sized(limits, x)
    ensures Fills.StopOutLoss(c, SideOf(x), EntryFill(c, x), x.stop, Sizing.SizeOf(limits, x).quantity)
      <= Sizing.RiskBudget(limits, x)
  {
    hide UnitLoss, EntryFill, StopFill, Covers, Sizing.LossPerUnit, Sizing.RiskBudget, Sizing.FeeCost,
      Sizing.SlippageCost, Sizing.RoundQuantityDown, Sizing.RawQuantity, Fills.FeeRate, Fills.StopOutLoss,
      Sizing.QuantityStep;
    var q := Sizing.SizeOf(limits, x).quantity;
    var sized := Sizing.LossPerUnit(limits, x.entry, x.stop, x.slippagePercent);
    var unit := UnitLoss(EntryFill(c, x), StopFill(c, x), Fills.FeeRate(c));
    SizedIsSound(limits, x);
    CoversExactly(limits, c, x);
    StopOutIsScaled(c, x, q);
    Sizing.LossIsLinear(limits, Sizing.RequestOf(limits, x), q);
    ProductLe(unit, sized, q);
    assert q * unit == unit * q && q * sized == sized * q;
  }

  /**
   With covered costs an approved limit order fills exactly when the candle trades
   at its price: the fill's own risk check never drops a size the risk engine approved.
   */
  lemma ApprovedLimitOrderFills(limits: Sizing.RiskConfig, c: Fills.FillConfig, x: Sizing.Context, symbol: string,
                                candle: Candles.Candle, now: int)
    requires Sizing.ValidConfig(limits) && Sizing.Allowed(Sizing.Evaluate(limits, x))
    requires c.model == Fills.LimitOrder && c.maxEntryDriftPercent >= 0.0 && c.entryBps < 10000.0 && c.exitBps < 10000.0
    requires Fills.FeeRate(c) == limits.feePercent / 100.0 && Covers(limits, c, x)
    ensures var r := Fills.Enter(c, symbol, SetupOf(x), DecisionOf(limits, x, now), candle);
      if candle.low <= x.entry <= candle.high then
        && r.Filled? && r.position.entryPrice == EntryFill(c, x) && (r.position.direction == Long <==> x.long)
        && r.position.stop == x.stop && r.position.target == x.target
        && r.position.quantity == Sizing.SizeOf(limits, x).quantity
      else r.Skipped?
  {
    hide Covers, Sizing.SizeOf, Sizing.RiskBudget, Sizing.EstimatedLeverage, EntryFill, Fills.FeeRate,
      Fills.SlippedPrice, Fills.StopOutLoss, Fills.Fee, Sizing.QuantityStep, Sizing.StructuralRr;
    SlippedPrices(c, x);
    CoveredFillFitsBudget(limits, c, x);
    var q := Sizing.SizeOf(limits, x).quantity;
    FillsArePositive(c, x, q);
    assert Abs(x.entry - x.entry) / x.entry * 100.0 == 0.0;
  }

  lemma FillsArePositive(c: Fills.FillConfig, x: Sizing.Context, quantity: real)
    requires c.entryBps < 10000.0 && c.exitBps < 10000.0 && quantity > 0.0 && Sizing.ValidStop(x.long, x.entry, x.stop)
    ensures EntryFill(c, x) > 0.0 && EntryFill(c, x) * quantity > 0.0
    ensures Fills.Fee(c, EntryFill(c, x), quantity) >= 0.0
    ensures Abs(EntryFill(c, x) - x.entry) * quantity >= 0.0
    ensures Fills.StopOutLoss(c, SideOf(x), EntryFill(c, x), x.stop, quantity) > 0.0
  {
    var e: real, s: real, b, d := x.entry, x.stop, Bps(c.entryBps), Bps(c.exitBps);
    assert 0.0 <= b < 1.0 && 0.0 <= d < 1.0;
    var fill, stopFill, f := EntryFill(c, x), StopFill(c, x), Fills.FeeRate(c);
    MovedPositive(e, x.long, b);
    MovedPositive(s, !x.long, d);
    ProductPositive(fill, quantity);
    ProductNonNegative(fill * quantity, f);
    ProductNonNegative(Abs(fill - e), quantity);
    Apart(x.long, e, s, b, d);
    UnitPositive(fill, stopFill, f);
    StopOutIsScaled(c, x, quantity);
    ProductPositive(quantity, UnitLoss(fill, stopFill, f));
  }

  lemma MovedPositive(price: real, up: bool, step: real)
    requires price > 0.0 && 0.0 <= step < 1.0
    ensures Moved(price, up, step) > 0.0
  {
    var factor := if up then 1.0 + step else 1.0 - step;
    ProductPositive(price, factor);
  }

  lemma UnitPositive(fill: real, stopFill: real, f: real)
    requires fill > 0.0 && stopFill > 0.0 && fill != stopFill && f >= 0.0
    ensures UnitLoss(fill, stopFill, f) > 0.0
  {
    ProductNonNegative(fill, f);
    ProductNonNegative(stopFill, f);
  }

  lemma Apart(long: bool, e: real, s: real, b: real, d: real)
    requires e > 0.0 && s > 0.0 && b >= 0.0 && d >= 0.0 && Sizing.ValidStop(long, e, s)
    ensures Moved(e, long, b) != Moved(s, !long, d)
  {
    ProductNonNegative(e, b);
    ProductNonNegative(s, d);
    assert e * (1.0 + b) == e + e * b && e * (1.0 - b) == e - e * b;
    assert s * (1.0 + d) == s + s * d && s * (1.0 - d) == s - s * d;
  }

  /**
   The cover condition in prices: the slippage on the stop fits what the allowance
   leaves after the slippage on the entry, each with the fee on it.
   */
  lemma CoversInPrices(limits: Sizing.RiskConfig, c: Fills.FillConfig, x: Sizing.Context)
    ensures var a, b, d, f := SlippageAllowance(limits, x), Bps(c.entryBps), Bps(c.exitBps), Fills.FeeRate(c);
      Covers(limits, c, x) <==>
        if x.long then StopCost(x.stop, d, 1.0 - f) <= Room(x.entry, a, b, 1.0 + f)
        else StopCost(x.stop, d, 1.0 + f) <= Room(x.entry, a, b, 1.0 - f)
  {
    hide SlippageAllowance, Bps, Fills.FeeRate;
    var e: real, s: real, a, b, d, f := x.entry, x.stop, SlippageAllowance(limits, x), Bps(c.entryBps), Bps(c.exitBps),
      Fills.FeeRate(c);
    MoveTerm(e, a, b, 1.0 + f);
    MoveTerm(e, a, b, 1.0 - f);
  }

  /** Slippage on the stop, with the fee on it. */
  function StopCost(stop: real, d: real, g: real): real { stop * d * g }

  /** What the allowance leaves after slippage on the entry. */
  function Room(entry: real, a: real, b: real, g: real): real { entry * (a - b * g) }

  lemma MoveTerm(e: real, a: real, b: real, g: real)
    ensures Room(e, a, b, g) == e * a - e * b * g
  {
  }

  /** The backtester estimates the entry slippage and adds the safety buffer. */
  predicate BacktestEstimate(c: Fills.FillConfig, x: Sizing.Context, buffer: real) {
    x.slippagePercent == c.entryBps / 100.0 + buffer
  }

  lemma BacktestAllowance(limits: Sizing.RiskConfig, c: Fills.FillConfig, x: Sizing.Context, buffer: real)
    requires BacktestEstimate(c, x, buffer)
    ensures SlippageAllowance(limits, x) == (Bps(c.entryBps) + buffer / 100.0) * limits.slippageMultiplier
  {
    assert x.slippagePercent / 100.0 == Bps(c.entryBps) + buffer / 100.0;
  }

  /** What the backtester's own estimate covers, in prices and configuration. */
  lemma BacktestCoversExactly(limits: Sizing.RiskConfig, c: Fills.FillConfig, x: Sizing.Context, buffer: real)
    requires BacktestEstimate(c, x, buffer)
    ensures var b, d, f := Bps(c.entryBps), Bps(c.exitBps), Fills.FeeRate(c);
      var a := (b + buffer / 100.0) * limits.slippageMultiplier;
      Covers(limits, c, x) <==>
        if x.long then StopCost(x.stop, d, 1.0 - f) <= Room(x.entry, a, b, 1.0 + f)
        else StopCost(x.stop, d, 1.0 + f) <= Room(x.entry, a, b, 1.0 - f)
  {
    hide Covers, Bps, Fills.FeeRate, SlippageAllowance, StopCost, Room;
    BacktestAllowance(limits, c, x, buffer);
    CoversInPrices(limits, c, x);
  }

  /**
   With the shipped defaults (equal slippage on both sides, a buffer of the same
   size, multiplier two) it covers every long, and a short exactly while its stop
   is at most about three times its entry.
   */
  lemma DefaultsCoverExactly(limits: Sizing.RiskConfig, c: Fills.FillConfig, x: Sizing.Context, buffer: real)
    requires BacktestEstimate(c, x, buffer) && Sizing.ValidStop(x.long, x.entry, x.stop) && Fills.FeeRate(c) < 1.0
    requires c.entryBps == c.exitBps && c.entryBps > 0.0 && buffer == c.entryBps / 100.0
      && limits.slippageMultiplier == 2.0
    ensures Covers(limits, c, x) <==> x.long || x.stop * (1.0 + Fills.FeeRate(c)) <= x.entry * (3.0 + Fills.FeeRate(c))
  {
    hide Covers, StopCost, Room;
    var b, f := Bps(c.entryBps), Fills.FeeRate(c);
    BacktestCoversExactly(limits, c, x, buffer);
    assert (b + buffer / 100.0) * limits.slippageMultiplier == 4.0 * b;
    FourfoldCover(x.long, x.entry, x.stop, b, f);
  }

  lemma FourfoldCover(long: bool, e: real, s: real, b: real, f: real)
    requires e > 0.0 && s > 0.0 && b > 0.0 && 0.0 <= f < 1.0 && Sizing.ValidStop(long, e, s)
    ensures if long then StopCost(s, b, 1.0 - f) <= Room(e, 4.0 * b, b, 1.0 + f)
            else StopCost(s, b, 1.0 + f) <= Room(e, 4.0 * b, b, 1.0 - f) <==> s * (1.0 + f) <= e * (3.0 + f)
  {
    hide StopCost, Room, Times;
    var u, v := s * (1.0 - f), e * (3.0 - f);
    var w, z := s * (1.0 + f), e * (3.0 + f);
    Factors(e, s, b, f, u, v, w, z);
    TimesOrder(u, v, b);
    TimesOrder(w, z, b);
    if long {
      LongRoom(e, s, f, u, v);
    }
  }

  lemma LongRoom(e: real, s: real, f: real, u: real, v: real)
    requires 0.0 < s < e && f < 1.0 && u == s * (1.0 - f) && v == e * (3.0 - f)
    ensures u <= v
  {
    var g := 1.0 - f;
    ProductLe(s, e, g);
    assert v == e * g + 2.0 * e;
  }

  function Times(u: real, b: real): real { u * b }

  lemma TimesOrder(u: real, v: real, b: real)
    requires b > 0.0
    ensures Times(u, b) <= Times(v, b) <==> u <= v
  {
    if u <= v {
      ProductLe(u, v, b);
    } else {
      ProductLt(v, u, b);
    }
  }

  lemma Factors(e: real, s: real, b: real, f: real, u: real, v: real, w: real, z: real)
    requires u == s * (1.0 - f) && v == e * (3.0 - f) && w == s * (1.0 + f) && z == e * (3.0 + f)
    ensures StopCost(s, b, 1.0 - f) == Times(u, b) && Room(e, 4.0 * b, b, 1.0 + f) == Times(v, b)
    ensures StopCost(s, b, 1.0 + f) == Times(w, b) && Room(e, 4.0 * b, b, 1.0 - f) == Times(z, b)
  {
  }

  /**
   A risk decision without a market estimate, which the policy may allow, budgets
   the buffer alone. When that comes to twice the slippage of either side, it
   covers every long and no short.
   */
  lemma EqualSlippageCoversLongsOnly(limits: Sizing.RiskConfig, c: Fills.FillConfig, x: Sizing.Context)
    requires Sizing.ValidStop(x.long, x.entry, x.stop) && Fills.FeeRate(c) < 1.0
    requires c.entryBps == c.exitBps && c.entryBps > 0.0 && SlippageAllowance(limits, x) == 2.0 * Bps(c.entryBps)
    ensures Covers(limits, c, x) <==> x.long
  {
    var e: real, b := x.entry, Bps(c.entryBps);
    CoverSign(x.long, e, x.stop, b, Fills.FeeRate(c));
    SameScale(e, SlippageAllowance(limits, x), 2.0 * b);
  }

  lemma SameScale(e: real, x: real, y: real)
    requires x == y
    ensures e * x == e * y
  {
  }

  function Product(b: real, d: real, g: real): real { b * (d * g) }

  lemma CoverSign(long: bool, e: real, s: real, b: real, f: real)
    requires b > 0.0 && 0.0 <= f < 1.0 && Sizing.ValidStop(long, e, s)
    ensures Extra(long, e, s, b, b, f) <= e * (2.0 * b) <==> long
  {
    hide Extra, Product;
    var d, g := s - e, if long then 1.0 - f else 1.0 + f;
    Regroup(long, e, s, b, f);
    ProductSign(b, d, g);
  }

  lemma ProductSign(b: real, d: real, g: real)
    requires b > 0.0 && g > 0.0
    ensures d < 0.0 ==> Product(b, d, g) < 0.0
    ensures d > 0.0 ==> Product(b, d, g) > 0.0
  {
    var h := d * g;
    assert d < 0.0 ==> h < 0.0;
    assert d > 0.0 ==> h > 0.0;
    assert h < 0.0 ==> b * h < 0.0;
    assert h > 0.0 ==> b * h > 0.0;
  }

  lemma Regroup(long: bool, e: real, s: real, b: real, f: real)
    ensures Extra(long, e, s, b, b, f) - e * (2.0 * b) == Product(b, s - e, if long then 1.0 - f else 1.0 + f)
  {
  }
}
