/** The simulated fills of the backtester, from entry to closing. */
module BacktestExecution {
  import opened Common
  import opened Candles

  datatype ExecutionModel = MarketOrder | LimitOrder | BreakoutTrigger
  datatype IntrabarPolicy = AssumeStopFirst | AssumeTargetFirst
  datatype ExitReason = StopLoss | TakeProfit | TimeExit | BacktestEnd

  /** Rates are in the units of the configuration: basis points and percent. */
  datatype FillConfig = FillConfig(
    model: ExecutionModel, intrabar: IntrabarPolicy,
    entryBps: NonNegReal, exitBps: NonNegReal,
    makerFeePercent: NonNegReal, takerFeePercent: NonNegReal, useTaker: bool,
    maxTradeMinutes: int, maxEntryDriftPercent: real)

  /** The part of a triggered strategy result that execution reads. */
  datatype Setup = Setup(direction: Direction, entry: Option<PosReal>, stop: Option<PosReal>, target: Option<PosReal>)

  /** The part of a risk decision that execution reads. */
  datatype Decision = Decision(allowed: bool, quantity: NonNegReal, riskAmount: NonNegReal,
                               leverage: NonNegReal, decidedAt: int)

  datatype Position = Position(
    symbol: string, direction: Direction, entryTime: int, entryPrice: real, theoreticalEntry: real,
    quantity: real, notional: real, leverage: real, stop: real, target: real, initialRisk: real,
    fees: real, slippageCost: real, favorable: real, adverse: real, decision: Decision)

  /** The field constraints that building a position checks. */
  predicate Accepted(p: Position) {
    && p.entryPrice > 0.0 && p.theoreticalEntry > 0.0 && p.quantity > 0.0 && p.notional > 0.0
    && p.leverage >= 0.0 && p.stop > 0.0 && p.target > 0.0 && p.initialRisk > 0.0
    && p.fees >= 0.0 && p.slippageCost >= 0.0
  }

  /** A closed position, as recorded in the trade list. */
  datatype Trade = Trade(
    position: Position, exitTime: int, exitPrice: real, reason: ExitReason,
    gross: real, fees: real, slippageCost: real, net: real, rMultiple: real)

  datatype ExitFill = ExitFill(reason: ExitReason, theoreticalPrice: real)

  /** An entry attempt fills, is skipped, or raises a validation error. */
  datatype Attempt = Filled(position: Position) | Skipped | Raised

  function FeeRate(c: FillConfig): real {
    (if c.useTaker then c.takerFeePercent else c.makerFeePercent) / 100.0
  }

  function Fee(c: FillConfig, price: real, quantity: real): real {
    price * quantity * FeeRate(c)
  }

  /** The factor by which slippage moves a price against the trader. */
  function SlippageFactor(c: FillConfig, direction: Direction, entry: bool): real {
    var adverse := if (direction == Long) == entry then 1.0 else -1.0;
    1.0 + adverse * (if entry then c.entryBps else c.exitBps) / 10000.0
  }

  function SlippedPrice(c: FillConfig, price: real, direction: Direction, entry: bool): real {
    price * SlippageFactor(c, direction, entry)
  }

  /** The fill price before slippage, or None when the candle never trades there. */
  function RawEntry(c: FillConfig, setup: Setup, theoretical: real, candle: Candle): Option<real> {
    match c.model
    case LimitOrder =>
      if candle.low <= theoretical <= candle.high then Some(theoretical) else None
    case BreakoutTrigger =>
      if setup.direction == Long && candle.high < theoretical then None
      else if setup.direction == Short && candle.low > theoretical then None
      else Some(if setup.direction == Long then Max(candle.open, theoretical) else Min(candle.open, theoretical))
    case MarketOrder => Some(candle.open)
  }

  /** The all-in loss of a fill at `entryPrice` that is stopped exactly at the stop. */
  function StopOutLoss(c: FillConfig, direction: Direction, entryPrice: real, stop: real, quantity: real): real {
    var stopFill := SlippedPrice(c, stop, direction, false);
    Abs(entryPrice - stopFill) * quantity + Fee(c, entryPrice, quantity) + Fee(c, stopFill, quantity)
  }

  function Enter(c: FillConfig, symbol: string, setup: Setup, decision: Decision, candle: Candle): (r: Attempt)
    ensures r.Filled? ==>
      var p := r.position;
      && Accepted(p) && p.symbol == symbol && p.decision == decision && p.entryTime == candle.timestamp
      && decision.allowed
      && p.initialRisk == StopOutLoss(c, p.direction, p.entryPrice, p.stop, p.quantity)
      && p.initialRisk <= decision.riskAmount + 0.000000001
      && p.fees == Fee(c, p.entryPrice, p.quantity)
  {
    if !decision.allowed || decision.quantity <= 0.0 then Skipped
    else if setup.entry.None? || setup.stop.None? || setup.target.None? then Skipped
    else
      var theoretical, stop := setup.entry.value, setup.stop.value;
      var raw := RawEntry(c, setup, theoretical, candle);
      if raw.None? then Skipped
      else if Abs(raw.value - theoretical) / theoretical * 100.0 > c.maxEntryDriftPercent then Skipped
      else
        var entryPrice := SlippedPrice(c, raw.value, setup.direction, true);
        var quantity := decision.quantity;
        var loss := StopOutLoss(c, setup.direction, entryPrice, stop, quantity);
        if loss > decision.riskAmount + 0.000000001 then Skipped
        else
          var p := Position(
            symbol, setup.direction, candle.timestamp, entryPrice, theoretical, quantity,
            entryPrice * quantity, decision.leverage, stop, setup.target.value, loss,
            Fee(c, entryPrice, quantity), Abs(entryPrice - raw.value) * quantity, 0.0, 0.0, decision);
          if Accepted(p) then Filled(p) else Raised
  }

  predicate StopHit(p: Position, candle: Candle) {
    if p.direction == Long then candle.low <= p.stop else candle.high >= p.stop
  }

  predicate TargetHit(p: Position, candle: Candle) {
    if p.direction == Long then candle.high >= p.target else candle.low <= p.target
  }

  function ExitTrigger(c: FillConfig, p: Position, candle: Candle, now: int): Option<ExitFill> {
    if StopHit(p, candle) && TargetHit(p, candle) then
      if c.intrabar == AssumeStopFirst then Some(ExitFill(StopLoss, p.stop)) else Some(ExitFill(TakeProfit, p.target))
    else if StopHit(p, candle) then
      Some(ExitFill(StopLoss, if p.direction == Long then Min(candle.open, p.stop) else Max(candle.open, p.stop)))
    else if TargetHit(p, candle) then Some(ExitFill(TakeProfit, p.target))
    else if (now - p.entryTime) as real / 60.0 >= c.maxTradeMinutes as real then Some(ExitFill(TimeExit, candle.close))
    else None
  }

  function Close(c: FillConfig, p: Position, fill: ExitFill, timestamp: int): Trade {
    var exitPrice := SlippedPrice(c, fill.theoreticalPrice, p.direction, false);
    var gross := (exitPrice - p.entryPrice) * p.quantity * Sign(p.direction);
    var fees := p.fees + Fee(c, exitPrice, p.quantity);
    var net := gross - fees;
    Trade(p, timestamp, exitPrice, fill.reason, gross, fees,
          p.slippageCost + Abs(exitPrice - fill.theoreticalPrice) * p.quantity, net,
          if p.initialRisk != 0.0 then net / p.initialRisk else 0.0)
  }

  function UpdateExcursions(p: Position, candle: Candle): Position {
    var favorable := if p.direction == Long then (candle.high - p.entryPrice) * p.quantity
                     else (p.entryPrice - candle.low) * p.quantity;
    var adverse := if p.direction == Long then (p.entryPrice - candle.low) * p.quantity
                   else (candle.high - p.entryPrice) * p.quantity;
    p.(favorable := Max(p.favorable, Max(0.0, favorable)), adverse := Max(p.adverse, Max(0.0, adverse)))
  }

  // ---- What a stop-out can cost

  /** A position as `Enter` builds it: its recorded risk is its stop-out loss. */
  predicate Priced(c: FillConfig, p: Position) {
    && Accepted(p)
    && p.initialRisk == StopOutLoss(c, p.direction, p.entryPrice, p.stop, p.quantity)
    && p.fees == Fee(c, p.entryPrice, p.quantity)
  }

  /** Whether the slipped stop lies on the losing side of the entry. */
  predicate StopFillLoses(c: FillConfig, p: Position) {
    var stopFill := SlippedPrice(c, p.stop, p.direction, false);
    if p.direction == Long then stopFill <= p.entryPrice else p.entryPrice <= stopFill
  }

  /**
   A stop filled at the stop level loses at most the initial risk, and exactly
   that (1R) if and only if the stop fill is on the losing side.
   */
  lemma StopOutBound(c: FillConfig, p: Position, reason: ExitReason, timestamp: int)
    requires Priced(c, p)
    ensures var t := Close(c, p, ExitFill(reason, p.stop), timestamp);
      && t.net >= -p.initialRisk && t.rMultiple >= -1.0
      && (t.net == -p.initialRisk <==> StopFillLoses(c, p))
      && (t.rMultiple == -1.0 <==> StopFillLoses(c, p))
  {
    hide Accepted, FeeRate, SlippageFactor;
    var t := Close(c, p, ExitFill(reason, p.stop), timestamp);
    var stopFill := SlippedPrice(c, p.stop, p.direction, false);
    AcceptedFacts(p);
    SignedDistance(p, stopFill);
    assert t.net == t.gross - p.fees - Fee(c, stopFill, p.quantity);
    RatioAtLeast(t.net, p.initialRisk);
  }

  lemma AcceptedFacts(p: Position)
    requires Accepted(p)
    ensures p.quantity > 0.0 && p.initialRisk > 0.0 && p.stop > 0.0 && p.entryPrice > 0.0
  {
  }

  lemma SignedDistance(p: Position, exit: real)
    requires p.quantity > 0.0
    ensures var gross := (exit - p.entryPrice) * p.quantity * Sign(p.direction);
      && gross >= -(Abs(p.entryPrice - exit) * p.quantity)
      && (gross == -(Abs(p.entryPrice - exit) * p.quantity)
          <==> if p.direction == Long then exit <= p.entryPrice else p.entryPrice <= exit)
  {
    var d := exit - p.entryPrice;
    assert d > 0.0 ==> d * p.quantity > 0.0;
    assert d < 0.0 ==> d * p.quantity < 0.0;
  }

  lemma RatioAtLeast(net: real, risk: real)
    requires risk > 0.0
    ensures net >= -risk ==> net / risk >= -1.0
    ensures net == -risk <==> net / risk == -1.0
  {
    assert net == (net / risk) * risk;
  }

  /** A gap through the stop: the candle opened beyond it, whatever else it reached. */
  predicate GapsThrough(p: Position, candle: Candle) {
    StopHit(p, candle) && if p.direction == Long then candle.open < p.stop else candle.open > p.stop
  }

  /** The net result is linear in the theoretical exit price. */
  lemma NetIsLinear(c: FillConfig, p: Position, a: ExitFill, b: ExitFill, at: int)
    ensures Close(c, p, b, at).net - Close(c, p, a, at).net ==
      (b.theoreticalPrice - a.theoreticalPrice) * p.quantity
      * (SlippageFactor(c, p.direction, false) * (Sign(p.direction) - FeeRate(c)))
  {
    hide FeeRate, SlippageFactor, Close;
    CloseNet(c, p, a, at);
    CloseNet(c, p, b, at);
    Distribute(a.theoreticalPrice, b.theoreticalPrice, p.quantity,
               SlippageFactor(c, p.direction, false) * (Sign(p.direction) - FeeRate(c)));
  }

  lemma CloseNet(c: FillConfig, p: Position, fill: ExitFill, at: int)
    ensures Close(c, p, fill, at).net
      == fill.theoreticalPrice
         * (p.quantity * (SlippageFactor(c, p.direction, false) * (Sign(p.direction) - FeeRate(c))))
         - p.entryPrice * p.quantity * Sign(p.direction) - p.fees
  {
    hide FeeRate, SlippageFactor, Sign;
    NetOf(p, fill.theoreticalPrice, SlippageFactor(c, p.direction, false), Sign(p.direction), FeeRate(c));
  }

  lemma Distribute(x: real, y: real, q: real, k: real)
    ensures (y - x) * q * k == y * (q * k) - x * (q * k)
  {
  }

  lemma NetOf(p: Position, x: real, f: real, s: real, r: real)
    ensures (x * f - p.entryPrice) * p.quantity * s - (p.fees + x * f * p.quantity * r)
         == x * (p.quantity * (f * (s - r))) - p.entryPrice * p.quantity * s - p.fees
  {
  }

  /** A gap fills at the open exactly when the candle does not also reach the target; then the policy decides. */
  lemma GapFill(c: FillConfig, p: Position, candle: Candle, now: int)
    requires GapsThrough(p, candle)
    ensures var fill := ExitTrigger(c, p, candle, now);
      && (fill == Some(ExitFill(StopLoss, candle.open)) <==> !TargetHit(p, candle))
      && (TargetHit(p, candle) ==>
            fill == Some(if c.intrabar == AssumeStopFirst then ExitFill(StopLoss, p.stop)
                         else ExitFill(TakeProfit, p.target)))
  {
  }

  /** What one unit of theoretical price adds to the net result of one unit of quantity. */
  function Slope(c: FillConfig, p: Position): real {
    SlippageFactor(c, p.direction, false) * (Sign(p.direction) - FeeRate(c))
  }

  /** Leaving at the target nets more than leaving at the stop. */
  predicate TargetPays(c: FillConfig, p: Position) {
    (Slope(c, p) > 0.0 && p.stop < p.target) || (Slope(c, p) < 0.0 && p.target < p.stop)
  }

  /**
   For every gap: the exit is no better than the stop level exactly when, without
   the target, a worse price cannot raise proceeds net of fees (always, for
   shorts), and with it, the policy takes the stop first or the target does not pay.
   */
  lemma GapNoBetter(c: FillConfig, p: Position, candle: Candle, now: int)
    requires Priced(c, p) && GapsThrough(p, candle)
    ensures var fill := ExitTrigger(c, p, candle, now);
      && fill.Some?
      && (Close(c, p, fill.value, now).net <= Close(c, p, ExitFill(StopLoss, p.stop), now).net <==>
            if TargetHit(p, candle) then c.intrabar == AssumeStopFirst || !TargetPays(c, p)
            else p.direction == Long ==> Slope(c, p) >= 0.0)
  {
    hide SlippageFactor, FeeRate, StopOutLoss, Fee, Close, SlippedPrice, Accepted, ExitTrigger, TargetHit, Slope;
    AcceptedFacts(p);
    GapFill(c, p, candle, now);
    var fill := ExitTrigger(c, p, candle, now).value;
    NetDifference(c, p, ExitFill(StopLoss, p.stop), fill, now);
    NetSameLevel(c, p, now);
    if p.direction != Long {
      ShortFactors(c, p);
    }
    SignOfProduct(fill.theoreticalPrice - p.stop, p.quantity, Slope(c, p));
  }

  lemma NetDifference(c: FillConfig, p: Position, a: ExitFill, b: ExitFill, at: int)
    ensures Close(c, p, b, at).net - Close(c, p, a, at).net
         == (b.theoreticalPrice - a.theoreticalPrice) * p.quantity * Slope(c, p)
  {
    hide FeeRate, SlippageFactor, Close;
    NetIsLinear(c, p, a, b, at);
  }

  /** The reason recorded does not change the net result. */
  lemma NetSameLevel(c: FillConfig, p: Position, at: int)
    ensures Close(c, p, ExitFill(TakeProfit, p.stop), at).net == Close(c, p, ExitFill(StopLoss, p.stop), at).net
  {
  }

  /**
   With the target on its side of the stop and, for longs, exit slippage and fees
   each below the whole price, a gap exit is no better than the stop level exactly
   when the candle misses the target or the policy takes the stop first.
   */
  lemma GapExactly(c: FillConfig, p: Position, candle: Candle, now: int)
    requires Priced(c, p) && GapsThrough(p, candle)
    requires if p.direction == Long then p.stop < p.target && Slope(c, p) > 0.0 else p.target < p.stop
    ensures var fill := ExitTrigger(c, p, candle, now);
      && fill.Some?
      && (Close(c, p, fill.value, now).net <= Close(c, p, ExitFill(StopLoss, p.stop), now).net
          <==> !TargetHit(p, candle) || c.intrabar == AssumeStopFirst)
  {
    hide StopOutLoss, Fee, Close, SlippedPrice, Accepted, ExitTrigger, TargetHit, Slope;
    GapNoBetter(c, p, candle, now);
    if p.direction != Long {
      ShortFactors(c, p);
    }
  }

  /** A candle that gaps through the stop and reaches the target: neither policy fills it at the open. */
  lemma GapThatReachesTarget(c: FillConfig, p: Position, candle: Candle, now: int)
    requires p.direction == Long && p.stop == 99.0 && p.target == 102.0
    requires candle.open == 90.0 && candle.low == 90.0 && candle.high == 103.0
    ensures GapsThrough(p, candle) && TargetHit(p, candle)
    ensures ExitTrigger(c, p, candle, now)
      == Some(if c.intrabar == AssumeStopFirst then ExitFill(StopLoss, 99.0) else ExitFill(TakeProfit, 102.0))
  {
  }

  lemma SignOfProduct(d: real, q: real, k: real)
    requires q > 0.0
    ensures d == 0.0 ==> d * q * k == 0.0
    ensures d < 0.0 ==> (d * q * k <= 0.0 <==> k >= 0.0)
    ensures d > 0.0 ==> (d * q * k <= 0.0 <==> k <= 0.0)
  {
    var e := d * q;
    assert (d < 0.0 ==> e < 0.0) && (d > 0.0 ==> e > 0.0) && (d == 0.0 ==> e == 0.0);
    assert e < 0.0 && k > 0.0 ==> e * k < 0.0;
    assert e < 0.0 && k < 0.0 ==> e * k > 0.0;
    assert e > 0.0 && k > 0.0 ==> e * k > 0.0;
    assert e > 0.0 && k < 0.0 ==> e * k < 0.0;
  }

  lemma ShortFactors(c: FillConfig, p: Position)
    requires p.direction != Long
    ensures Slope(c, p) < 0.0
  {
    var f, g := SlippageFactor(c, p.direction, false), 1.0 + FeeRate(c);
    assert f >= 1.0 && g >= 1.0;
    ProductPositive(f, g);
    assert f * (-1.0 - FeeRate(c)) == -(f * g);
  }
}
