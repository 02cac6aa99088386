/** When the simulator fills, at what price, and why and at what price it exits. */
module FillDecisions {
  import opened Common
  import opened Candles
  import opened BacktestExecution

  /** How far a price lies on the winning side of a level, for the direction. */
  function Gain(direction: Direction, level: real, price: real): real {
    Sign(direction) * (price - level)
  }

  /** Slippage costs the trader the configured part of the price, on either side and either way. */
  lemma SlippageIsAdverse(c: FillConfig, price: real, direction: Direction)
    requires direction == Long || direction == Short
    ensures Gain(direction, price, SlippedPrice(c, price, direction, true)) == price * (c.entryBps / 10000.0)
    ensures Gain(direction, price, SlippedPrice(c, price, direction, false)) == -(price * (c.exitBps / 10000.0))
  {
  }

  /** The fee of a fill: the taker or the maker percentage of its notional, as configured. */
  lemma FeeExactly(c: FillConfig, price: real, quantity: real)
    ensures Fee(c, price, quantity) * 100.0
         == price * quantity * (if c.useTaker then c.takerFeePercent else c.makerFeePercent)
  {
    var n, r := price * quantity, if c.useTaker then c.takerFeePercent else c.makerFeePercent;
    assert n * (r / 100.0) * 100.0 == n * r;
  }

  // ---- Entries

  /** Where the candle lets the order trade before slippage; it does not when there is no such price. */
  predicate TradesAt(c: FillConfig, setup: Setup, candle: Candle, price: real)
    requires setup.entry.Some?
  {
    var e := setup.entry.value;
    match c.model
    case MarketOrder => price == candle.open
    case LimitOrder => price == e && !(e < candle.low) && !(candle.high < e)
    case BreakoutTrigger =>
      match setup.direction
      case Long => candle.high >= e && price in {candle.open, e} && candle.open <= price && e <= price
      case Short => candle.low <= e && price in {candle.open, e} && price <= candle.open && price <= e
      case NoSetup => price in {candle.open, e} && price <= candle.open && price <= e
  }

  lemma RawEntryExactly(c: FillConfig, setup: Setup, candle: Candle, price: real)
    requires setup.entry.Some?
    ensures RawEntry(c, setup, setup.entry.value, candle) == Some(price) <==> TradesAt(c, setup, candle, price)
  {
  }

  /** The conditions on a fill at a price the candle trades at. */
  predicate Affordable(c: FillConfig, setup: Setup, decision: Decision, price: real)
    requires setup.entry.Some? && setup.stop.Some?
  {
    var e, filled := setup.entry.value, SlippedPrice(c, price, setup.direction, true);
    && Abs(price - e) / e * 100.0 <= c.maxEntryDriftPercent
    && StopOutLoss(c, setup.direction, filled, setup.stop.value, decision.quantity) <= decision.riskAmount + 0.000000001
  }

  predicate Attempted(setup: Setup, decision: Decision) {
    decision.allowed && decision.quantity > 0.0 && setup.entry.Some? && setup.stop.Some? && setup.target.Some?
  }

  /** An attempt is skipped exactly when it is not allowed or complete, or no affordable price trades. */
  lemma SkippedExactly(c: FillConfig, symbol: string, setup: Setup, decision: Decision, candle: Candle)
    ensures Enter(c, symbol, setup, decision, candle) == Skipped <==>
      !Attempted(setup, decision)
      || forall price :: TradesAt(c, setup, candle, price) ==> !Affordable(c, setup, decision, price)
  {
    hide SlippedPrice, StopOutLoss, Accepted, RawEntry, TradesAt, Fee;
    if Attempted(setup, decision) {
      var raw := RawEntry(c, setup, setup.entry.value, candle);
      forall price
        ensures raw == Some(price) <==> TradesAt(c, setup, candle, price)
      {
        RawEntryExactly(c, setup, candle, price);
      }
    }
  }

  /** A fill carries the setup's levels and the decision's size, at the slipped price the candle traded at. */
  lemma FilledAt(c: FillConfig, symbol: string, setup: Setup, decision: Decision, candle: Candle) returns (price: real)
    requires Enter(c, symbol, setup, decision, candle).Filled?
    ensures Attempted(setup, decision) && TradesAt(c, setup, candle, price) && Affordable(c, setup, decision, price)
    ensures var p := Enter(c, symbol, setup, decision, candle).position;
      && p.entryPrice == SlippedPrice(c, price, setup.direction, true) && p.theoreticalEntry == setup.entry.value
      && p.direction == setup.direction && p.stop == setup.stop.value && p.target == setup.target.value
      && p.quantity == decision.quantity && p.leverage == decision.leverage
      && p.notional == p.entryPrice * decision.quantity
      && p.slippageCost == Abs(p.entryPrice - price) * decision.quantity
      && p.favorable == 0.0 && p.adverse == 0.0
  {
    hide SlippedPrice, StopOutLoss, Accepted, RawEntry, TradesAt, Fee;
    var raw := RawEntry(c, setup, setup.entry.value, candle);
    price := raw.value;
    RawEntryExactly(c, setup, candle, price);
  }

  /** An attempt raises exactly when an affordable price trades but its fill is not above zero or carries no risk. */
  lemma RaisedExactly(c: FillConfig, symbol: string, setup: Setup, decision: Decision, candle: Candle)
    ensures Enter(c, symbol, setup, decision, candle) == Raised <==>
      Attempted(setup, decision)
      && exists price :: TradesAt(c, setup, candle, price) && Affordable(c, setup, decision, price)
           && var fill := SlippedPrice(c, price, setup.direction, true);
           (fill <= 0.0 || StopOutLoss(c, setup.direction, fill, setup.stop.value, decision.quantity) <= 0.0)
  {
    hide SlippedPrice, StopOutLoss, RawEntry, TradesAt, Fee, Accepted, Affordable;
    SkippedExactly(c, symbol, setup, decision, candle);
    if Attempted(setup, decision) {
      forall price | TradesAt(c, setup, candle, price) && Affordable(c, setup, decision, price)
        ensures Enter(c, symbol, setup, decision, candle) == Raised <==>
          var fill := SlippedPrice(c, price, setup.direction, true);
          fill <= 0.0 || StopOutLoss(c, setup.direction, fill, setup.stop.value, decision.quantity) <= 0.0
      {
        RaisesAt(c, symbol, setup, decision, candle, price);
      }
    }
  }

  lemma RaisesAt(c: FillConfig, symbol: string, setup: Setup, decision: Decision, candle: Candle, price: real)
    requires Attempted(setup, decision) && TradesAt(c, setup, candle, price) && Affordable(c, setup, decision, price)
    ensures var fill := SlippedPrice(c, price, setup.direction, true);
      Enter(c, symbol, setup, decision, candle) == Raised <==>
        fill <= 0.0 || StopOutLoss(c, setup.direction, fill, setup.stop.value, decision.quantity) <= 0.0
  {
    hide SlippedPrice, StopOutLoss, RawEntry, TradesAt, Fee;
    RawEntryExactly(c, setup, candle, price);
    var fill, q := SlippedPrice(c, price, setup.direction, true), decision.quantity;
    ProductNonNegative(Abs(fill - price), q);
    if fill > 0.0 {
      ProductPositive(fill, q);
      FeeNonNegative(c, fill, q);
    }
  }

  lemma FeeNonNegative(c: FillConfig, price: real, quantity: real)
    requires price > 0.0 && quantity > 0.0
    ensures Fee(c, price, quantity) >= 0.0
  {
    ProductPositive(price, quantity);
    ProductNonNegative(price * quantity, FeeRate(c));
  }

  // ---- Exits

  function Worst(direction: Direction, candle: Candle): real { if direction == Long then candle.low else candle.high }

  function Best(direction: Direction, candle: Candle): real { if direction == Long then candle.high else candle.low }

  predicate StopReached(p: Position, candle: Candle) { Gain(p.direction, p.stop, Worst(p.direction, candle)) <= 0.0 }

  predicate TargetReached(p: Position, candle: Candle) { Gain(p.direction, p.target, Best(p.direction, candle)) >= 0.0 }

  predicate Overdue(c: FillConfig, p: Position, now: int) { now - p.entryTime >= 60 * c.maxTradeMinutes }

  /**
   Why a candle ends a position: its stop, unless the target is reached as well and
   comes first; its target, unless the stop comes first; or, with neither reached,
   its age. Each reason has its price.
   */
  lemma ExitExactly(c: FillConfig, p: Position, candle: Candle, now: int)
    ensures var fill, s, t := ExitTrigger(c, p, candle, now), StopReached(p, candle), TargetReached(p, candle);
      && (fill.None? <==> !s && !t && !Overdue(c, p, now))
      && (fill.Some? && fill.value.reason == StopLoss <==> s && (t ==> c.intrabar == AssumeStopFirst))
      && (fill.Some? && fill.value.reason == TakeProfit <==> t && (s ==> c.intrabar == AssumeTargetFirst))
      && (fill.Some? && fill.value.reason == TimeExit <==> !s && !t && Overdue(c, p, now))
      && (fill.Some? && fill.value.reason == TakeProfit ==> fill.value.theoreticalPrice == p.target)
      && (fill.Some? && fill.value.reason == TimeExit ==> fill.value.theoreticalPrice == candle.close)
      && (fill.Some? && fill.value.reason == StopLoss ==>
            var x := fill.value.theoreticalPrice;
            if t then x == p.stop else
              x in {candle.open, p.stop} && Gain(p.direction, p.stop, x) <= 0.0
              && Gain(p.direction, candle.open, x) <= 0.0)
  {
    AgeInMinutes(now - p.entryTime, c.maxTradeMinutes);
  }

  lemma AgeInMinutes(seconds: int, minutes: int)
    ensures seconds as real / 60.0 >= minutes as real <==> seconds >= 60 * minutes
  {
  }

  /** A closed position: its exit slipped, its result what the prices and the two fees leave, its multiple of risk. */
  lemma ClosedAs(c: FillConfig, p: Position, fill: ExitFill, at: int)
    ensures var t := Close(c, p, fill, at);
      && t.position == p && t.reason == fill.reason && t.exitTime == at
      && t.exitPrice == SlippedPrice(c, fill.theoreticalPrice, p.direction, false)
      && t.gross == Gain(p.direction, p.entryPrice, t.exitPrice) * p.quantity
      && t.fees == p.fees + t.exitPrice * p.quantity * FeeRate(c) && t.net == t.gross - t.fees
      && t.slippageCost == p.slippageCost + Abs(t.exitPrice - fill.theoreticalPrice) * p.quantity
      && (p.initialRisk != 0.0 ==> t.rMultiple * p.initialRisk == t.net)
      && (p.initialRisk == 0.0 ==> t.rMultiple == 0.0)
  {
    hide SlippedPrice, FeeRate;
    var t := Close(c, p, fill, at);
    var d, q, g := t.exitPrice - p.entryPrice, p.quantity, Sign(p.direction);
    assert d * q * g == g * d * q;
  }

  /** Excursions only grow, to the best and worst the candle reached. */
  lemma ExcursionsExactly(p: Position, candle: Candle)
    requires p.quantity > 0.0 && p.favorable >= 0.0 && p.adverse >= 0.0
    ensures var q := UpdateExcursions(p, candle);
      var best := Gain(p.direction, p.entryPrice, Best(p.direction, candle)) * p.quantity;
      var worst := Gain(p.direction, p.entryPrice, Worst(p.direction, candle)) * p.quantity;
      && q == p.(favorable := q.favorable, adverse := q.adverse)
      && q.favorable >= p.favorable && q.favorable >= best && q.favorable in {p.favorable, best}
      && q.adverse >= p.adverse && q.adverse >= -worst && q.adverse in {p.adverse, -worst}
  {
    var x, y := candle.high - p.entryPrice, p.entryPrice - candle.low;
    assert -x * p.quantity == -(x * p.quantity) && -y * p.quantity == -(y * p.quantity);
  }
}
