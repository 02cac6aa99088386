/** Paper trading: the ledger and its simulated executor. */
module PaperLedger {
  import opened Common
  import opened Candles
  import Fills = BacktestExecution

  // Account, orders, positions and trades move together. Identifiers are drawn from a
  // counter.

  datatype PriceModel = MidPrice | LastPrice | SidePrice
  datatype MarkPrice = ExitSide | MarkMid | MarkLast

  datatype PaperConfig = PaperConfig(
    model: PriceModel, markPrice: MarkPrice, entryBps: NonNegReal, exitBps: NonNegReal,
    takerFeePercent: NonNegReal, maxStaleSeconds: int, cooldownSeconds: int, maxTradeMinutes: int)

  datatype Quote = Quote(bid: Option<PosReal>, ask: Option<PosReal>, last: Option<PosReal>, timestamp: int)

  datatype OrderType = MarketEntry | PaperStop | PaperTarget
  datatype OrderStatus = Created | Pending | OrderFilled | PartiallyFilled | Cancelled | Rejected | OrderExpired
  datatype PositionStatus = IsOpen | Closing | Closed
  datatype ExitReason = StopLoss | TakeProfit | TimeExit | Invalidation | Manual
  datatype SetupStatus = Armed | RejectedByRisk | Entered | Invalidated | Expired

  /** `symbol:strategy:timestamp`: an ISO timestamp ends in a digit. */
  type SetupId = s: string | EndsInDigit(s) witness "0"

  predicate EndsInDigit(s: string) {
    s != [] && '0' <= s[|s| - 1] <= '9'
  }

  datatype Order = Order(orderId: nat, symbol: string, orderType: OrderType, quantity: real, requestedPrice: real,
                         status: OrderStatus, setupId: SetupId, fees: real, slippage: real, key: string)

  datatype Position = Position(
    positionId: nat, orderId: nat, setupId: SetupId, symbol: string, direction: Direction, quantity: real,
    entryPrice: real, entryTime: int, stop: real, target: real, currentPrice: real, unrealized: real, realized: real,
    entryFee: real, exitFee: real, slippage: real, favorable: real, adverse: real, initialRisk: real, leverage: real,
    status: PositionStatus)

  datatype Trade = Trade(positionId: nat, symbol: string, exitPrice: real, reason: ExitReason,
                         entryFee: real, exitFee: real, slippage: real, gross: real, net: real, rMultiple: real)

  datatype Account = Account(
    initialEquity: PosReal, equity: real, available: real, realized: real, unrealized: real, fees: real,
    slippageCost: real, marginUsed: real, exposure: real, peak: real, drawdown: real, dailyPnl: real,
    startingDayEquity: Option<real>, tradingDay: Option<int>, consecutiveLosses: nat)

  datatype Counters = Counters(detected: nat, approved: nat, rejected: nat, entries: nat, exits: nat)

  datatype Ledger = Ledger(
    account: Account, orders: seq<Order>, positions: seq<Position>, trades: seq<Trade>,
    setups: map<string, SetupStatus>, counters: Counters, cooldowns: map<string, int>, nextId: nat)

  /** What an entry reads from the setup and the risk decision. */
  datatype EntryRequest = EntryRequest(
    setupId: SetupId, symbol: string, direction: Direction, triggered: bool,
    entry: Option<PosReal>, stop: Option<PosReal>, target: Option<PosReal>,
    allowed: bool, quantity: NonNegReal, maximumLoss: NonNegReal, leverage: NonNegReal, maxDrift: Option<real>)

  /** Done, rejected by the executor, or a validation error that escapes. */
  datatype Verdict = Done | Refused | Raised

  // ---- Prices

  function Mid(q: Quote): Option<PosReal> {
    if q.bid.Some? && q.ask.Some? then Some((q.bid.value + q.ask.value) / 2.0) else q.last
  }

  function BasePrice(c: PaperConfig, q: Quote, direction: Direction, entry: bool): Option<PosReal> {
    match c.model
    case MidPrice => Mid(q)
    case LastPrice => q.last
    case SidePrice => if (direction == Long) == entry then q.ask else q.bid
  }

  /** The phase 8 fee and slippage formulas, with the paper rates. */
  function FillRates(c: PaperConfig): Fills.FillConfig {
    Fills.FillConfig(Fills.MarketOrder, Fills.AssumeStopFirst, c.entryBps, c.exitBps,
                     c.takerFeePercent, c.takerFeePercent, true, c.maxTradeMinutes, 0.0)
  }

  predicate QuoteFresh(c: PaperConfig, q: Quote, now: int) {
    0 <= now - q.timestamp <= c.maxStaleSeconds
  }

  function Notional(p: Position): real { p.entryPrice * p.quantity }

  // ---- Account refresh

  const EQUITY_FLOOR: real := 0.00000001

  function OpenUnrealized(p: Position): real { if p.status == IsOpen then p.unrealized else 0.0 }
  function OpenEntryFee(p: Position): real { if p.status == IsOpen then p.entryFee else 0.0 }
  function OpenNotional(p: Position): real { if p.status == IsOpen then Notional(p) else 0.0 }
  function OpenMargin(p: Position): real { if p.status == IsOpen then Notional(p) / Max(p.leverage, 1.0) else 0.0 }

  function Rollover(a: Account, now: int): Account {
    if a.tradingDay == Some(now / DAY) then a
    else a.(tradingDay := Some(now / DAY), startingDayEquity := Some(a.equity), dailyPnl := 0.0)
  }

  function Refreshed(s: Ledger, now: int): Account {
    var a := Rollover(s.account, now);
    var unrealized, margin := SumBy(OpenUnrealized, s.positions), SumBy(OpenMargin, s.positions);
    var equity := Max(EQUITY_FLOOR, a.initialEquity + a.realized + unrealized - SumBy(OpenEntryFee, s.positions));
    var peak := Max(a.peak, equity);
    a.(unrealized := unrealized, marginUsed := margin, exposure := SumBy(OpenNotional, s.positions),
       equity := equity, available := Max(0.0, equity - margin), peak := peak, drawdown := peak - equity)
  }

  function Refresh(s: Ledger, now: int): Ledger { s.(account := Refreshed(s, now)) }

  // ---- Entry

  function Key(orderType: OrderType, setupId: string): string {
    match orderType
    case MarketEntry => setupId
    case PaperStop => setupId + ":paper_stop"
    case PaperTarget => setupId + ":paper_target"
  }

  predicate HasFilledOrder(orders: seq<Order>, setupId: string) {
    exists i :: 0 <= i < |orders| && orders[i].setupId == setupId && orders[i].status == OrderFilled
  }

  predicate HasOpen(positions: seq<Position>, symbol: string) {
    exists i :: 0 <= i < |positions| && positions[i].symbol == symbol && positions[i].status == IsOpen
  }

  /** The checks before pricing; None when they pass. */
  predicate EntryBlocked(c: PaperConfig, s: Ledger, r: EntryRequest, q: Quote, now: int) {
    || !QuoteFresh(c, q, now)
    || !r.triggered || !r.allowed
    || r.quantity <= 0.0
    || HasFilledOrder(s.orders, r.setupId)
    || HasOpen(s.positions, r.symbol)
    || (r.symbol in s.cooldowns && now < s.cooldowns[r.symbol])
    || r.stop.None? || r.target.None?
  }

  lemma AllowedHasLevels(c: PaperConfig, s: Ledger, r: EntryRequest, q: Quote, now: int)
    requires !EntryBlocked(c, s, r, q, now)
    ensures r.stop.Some? && r.target.Some?
  {
  }

  function Drift(executed: real, theoretical: PosReal): real { Abs(executed - theoretical) / theoretical * 100.0 }

  function NewPosition(c: PaperConfig, s: Ledger, r: EntryRequest, requested: real, executed: real, now: int): Position
    requires r.stop.Some? && r.target.Some?
  {
    Position(s.nextId + 1, s.nextId, r.setupId, r.symbol, r.direction, r.quantity, executed, now, r.stop.value,
             r.target.value, executed, 0.0, 0.0, Fills.Fee(FillRates(c), executed, r.quantity), 0.0,
             Abs(executed - requested) * r.quantity, 0.0, 0.0, Max(r.maximumLoss, 0.00000001),
             Max(r.leverage, 1.0), IsOpen)
  }

  function EntryOrders(p: Position, requested: real): seq<Order> {
    [Order(p.orderId, p.symbol, MarketEntry, p.quantity, requested, OrderFilled, p.setupId, p.entryFee, p.slippage,
           Key(MarketEntry, p.setupId)),
     Order(p.positionId + 1, p.symbol, PaperStop, p.quantity, p.stop, Pending, p.setupId, 0.0, 0.0,
           Key(PaperStop, p.setupId)),
     Order(p.positionId + 2, p.symbol, PaperTarget, p.quantity, p.target, Pending, p.setupId, 0.0, 0.0,
           Key(PaperTarget, p.setupId))]
  }

  function Booked(s: Ledger, p: Position, requested: real, now: int): Ledger {
    var a := s.account;
    Refresh(s.(orders := s.orders + EntryOrders(p, requested),
               positions := s.positions + [p],
               account := a.(fees := a.fees + p.entryFee, slippageCost := a.slippageCost + p.slippage),
               counters := s.counters.(entries := s.counters.entries + 1),
               nextId := s.nextId + 4), now)
  }

  function Enter(c: PaperConfig, s: Ledger, r: EntryRequest, q: Quote, now: int): (Verdict, Ledger) {
    if EntryBlocked(c, s, r, q, now) then (Refused, s)
    else
      var base := BasePrice(c, q, r.direction, true);
      if base.None? then (Refused, s)
      else
        var executed := Fills.SlippedPrice(FillRates(c), base.value, r.direction, true);
        var theoretical := if r.entry.Some? then r.entry.value else base.value;
        if r.maxDrift.Some? && Drift(executed, theoretical) > r.maxDrift.value then (Refused, s)
        else if executed <= 0.0 then (Raised, s)
        else (Done, Booked(s, NewPosition(c, s, r, base.value, executed, now), base.value, now))
  }

  // ---- Mark and triggers

  function MarkQuote(c: PaperConfig, p: Position, q: Quote): Option<PosReal> {
    match c.markPrice
    case MarkMid => Mid(q)
    case MarkLast => q.last
    case ExitSide => BasePrice(c, q, p.direction, false)
  }

  function Marked(p: Position, price: real): Position {
    var pnl := (price - p.entryPrice) * p.quantity * Sign(p.direction);
    p.(currentPrice := price, unrealized := pnl, favorable := Max(p.favorable, pnl), adverse := Max(p.adverse, -pnl))
  }

  /** The trigger test on a freshly marked position. */
  function TriggerReason(c: PaperConfig, p: Position, now: int): Option<ExitReason> {
    var long := p.direction == Long;
    if (long && p.currentPrice <= p.stop) || (!long && p.currentPrice >= p.stop) then Some(StopLoss)
    else if (long && p.currentPrice >= p.target) || (!long && p.currentPrice <= p.target) then Some(TakeProfit)
    else if now - p.entryTime >= c.maxTradeMinutes * 60 then Some(TimeExit)
    else None
  }

  // ---- Exit

  function ClosedPosition(c: PaperConfig, p: Position, requested: real): Position {
    var executed := Fills.SlippedPrice(FillRates(c), requested, p.direction, false);
    var exitFee := Fills.Fee(FillRates(c), executed, p.quantity);
    var gross := (executed - p.entryPrice) * p.quantity * Sign(p.direction);
    p.(status := Closed, realized := gross - p.entryFee - exitFee, unrealized := 0.0, exitFee := exitFee,
       slippage := p.slippage + Abs(executed - requested) * p.quantity)
  }

  function TradeOf(c: PaperConfig, p: Position, requested: real, reason: ExitReason): Trade {
    var executed := Fills.SlippedPrice(FillRates(c), requested, p.direction, false);
    var gross := (executed - p.entryPrice) * p.quantity * Sign(p.direction);
    var closed := ClosedPosition(c, p, requested);
    Trade(p.positionId, p.symbol, executed, reason, p.entryFee, closed.exitFee, closed.slippage, gross, closed.realized,
          if p.initialRisk != 0.0 then closed.realized / p.initialRisk else 0.0)
  }

  function Settled(o: Order, setupId: string, reason: ExitReason): Order {
    if o.setupId == setupId && o.status == Pending then
      o.(status := if || (reason == StopLoss && o.orderType == PaperStop)
                      || (reason == TakeProfit && o.orderType == PaperTarget)
                   then OrderFilled else Cancelled)
    else o
  }

  function SettleAll(orders: seq<Order>, setupId: string, reason: ExitReason): (r: seq<Order>)
    ensures |r| == |orders|
    ensures forall i :: 0 <= i < |orders| ==> r[i] == Settled(orders[i], setupId, reason)
  {
    if orders == [] then [] else [Settled(orders[0], setupId, reason)] + SettleAll(orders[1..], setupId, reason)
  }

  function BookExit(c: PaperConfig, s: Ledger, i: nat, requested: real, reason: ExitReason, now: int): Ledger
    requires i < |s.positions|
  {
    var p := s.positions[i];
    var closed, trade, a := ClosedPosition(c, p, requested), TradeOf(c, p, requested, reason), s.account;
    Refresh(s.(positions := s.positions[i := closed],
               orders := SettleAll(s.orders, p.setupId, reason),
               trades := s.trades + [trade],
               account := a.(realized := a.realized + trade.net, dailyPnl := a.dailyPnl + trade.net,
                             fees := a.fees + closed.exitFee,
                             slippageCost := a.slippageCost + (closed.slippage - p.slippage),
                             consecutiveLosses := if trade.net < 0.0 then a.consecutiveLosses + 1 else 0),
               counters := s.counters.(exits := s.counters.exits + 1)), now)
  }

  function Exit(c: PaperConfig, s: Ledger, i: nat, q: Quote, reason: ExitReason, now: int): (Verdict, Ledger)
    requires i < |s.positions|
  {
    var p := s.positions[i];
    if !QuoteFresh(c, q, now) || p.status != IsOpen then (Refused, s)
    else
      var base := BasePrice(c, q, p.direction, false);
      if base.None? then (Refused, s) else (Done, BookExit(c, s, i, base.value, reason, now))
  }

  // ---- The engine's steps

  /** `_exit`: needs an active session, and starts the symbol's cooldown. */
  function EngineExit(c: PaperConfig, s: Ledger, session: bool, i: nat, q: Quote, reason: ExitReason,
                      now: int): (Verdict, Ledger)
    requires i < |s.positions|
  {
    if !session then (Refused, s)
    else
      var (verdict, after) := Exit(c, s, i, q, reason, now);
      if verdict != Done then (verdict, s)
      else (Done, after.(cooldowns := after.cooldowns[s.positions[i].symbol := now + c.cooldownSeconds]))
  }

  function Note(s: Ledger, setupId: string, status: SetupStatus): Ledger {
    s.(setups := s.setups[setupId := status])
  }

  /** One triggered setup of `process_risk_results`; the request is None when no decision exists. */
  function Process(c: PaperConfig, s: Ledger, setupId: SetupId, request: Option<EntryRequest>, quote: Option<Quote>,
                   now: int): Ledger
    requires request.Some? ==> request.value.setupId == setupId
  {
    var seen := setupId in s.setups;
    if seen && s.setups[setupId] != Armed then s
    else
      var n := s.counters;
      var s1 := if seen then s else s.(counters := n.(detected := n.detected + 1));
      if request.None? || !request.value.allowed then
        Note(s1.(counters := s1.counters.(rejected := s1.counters.rejected + 1)), setupId, RejectedByRisk)
      else
        var s2 := if seen then s1 else s1.(counters := s1.counters.(approved := s1.counters.approved + 1));
        if quote.None? then Note(s2, setupId, Armed)
        else
          var (verdict, s3) := Enter(c, s2, request.value, quote.value, now);
          match verdict
          case Done => Note(s3, setupId, Entered)
          case Refused => Note(s3, setupId, Armed)
          case Raised => s3
  }

  /** Index of the open position of a setup, or the number of positions. */
  function OpenOf(positions: seq<Position>, setupId: string): (i: nat)
    ensures i <= |positions|
    ensures i < |positions| ==> positions[i].setupId == setupId && positions[i].status == IsOpen
  {
    if positions == [] then 0
    else if positions[0].setupId == setupId && positions[0].status == IsOpen then 0
    else 1 + OpenOf(positions[1..], setupId)
  }

  /** `_invalidation` of a setup that is no longer triggered. */
  function Invalidate(c: PaperConfig, s: Ledger, session: bool, setupId: SetupId, status: SetupStatus,
                      quote: Option<Quote>, now: int): Ledger
    requires status == Invalidated || status == Expired
  {
    var s1 := if setupId in s.setups && s.setups[setupId] != Entered then Note(s, setupId, status) else s;
    var i := OpenOf(s1.positions, setupId);
    if i < |s1.positions| && quote.Some? then EngineExit(c, s1, session, i, quote.value, Invalidation, now).1 else s1
  }

  /**
   One position of `monitor_once`: mark, test, exit. True when the quote was unusable.
   A position closed since the pass listed it is still marked; its exit is refused.
   */
  function MonitorOne(c: PaperConfig, s: Ledger, session: bool, i: nat, quote: Option<Quote>, now: int): (bool, Ledger)
    requires i < |s.positions|
  {
    var p := s.positions[i];
    if quote.None? || !QuoteFresh(c, quote.value, now) then (true, s)
    else
      var price := MarkQuote(c, p, quote.value);
      if price.None? then (true, s)
      else
        var marked := Marked(p, price.value);
        var s1 := s.(positions := s.positions[i := marked]);
        var reason := TriggerReason(c, marked, now);
        if reason.None? then (false, s1)
        else
          var (verdict, s2) := EngineExit(c, s1, session, i, quote.value, reason.value, now);
          (verdict != Done, s2)
  }

  function QuoteOf(quotes: map<string, Quote>, symbol: string): Option<Quote> {
    if symbol in quotes then Some(quotes[symbol]) else None
  }

  /** The open positions from i on; then the account is refreshed. */
  function MonitorFrom(c: PaperConfig, s: Ledger, session: bool, i: nat, quotes: map<string, Quote>,
                       now: int): (r: (bool, Ledger))
    requires i <= |s.positions|
    ensures |r.1.positions| == |s.positions|
    decreases |s.positions| - i
  {
    if i == |s.positions| then (false, Refresh(s, now))
    else if s.positions[i].status != IsOpen then MonitorFrom(c, s, session, i + 1, quotes, now)
    else
      var (stale, s1) := MonitorOne(c, s, session, i, QuoteOf(quotes, s.positions[i].symbol), now);
      var (later, s2) := MonitorFrom(c, s1, session, i + 1, quotes, now);
      (stale || later, s2)
  }

  // ---- Recovery

  predicate HasOrder(positions: seq<Position>, orderId: nat) {
    exists i :: 0 <= i < |positions| && positions[i].orderId == orderId
  }

  /** A filled market order without a position is rejected. */
  function RepairedOrder(o: Order, positions: seq<Position>): Order {
    if o.status == OrderFilled && o.orderType == MarketEntry && !HasOrder(positions, o.orderId)
    then o.(status := Rejected) else o
  }

  /** An open position whose symbol is already open is quarantined. */
  function Quarantined(positions: seq<Position>, i: nat): Position
    requires i < |positions|
  {
    if positions[i].status == IsOpen && HasOpen(positions[..i], positions[i].symbol)
    then positions[i].(status := Closing) else positions[i]
  }

  function Reconciled(s: Ledger): Ledger {
    s.(orders := seq(|s.orders|, i requires 0 <= i < |s.orders| => RepairedOrder(s.orders[i], s.positions)),
       positions := seq(|s.positions|, i requires 0 <= i < |s.positions| => Quarantined(s.positions, i)))
  }
}
