/** Which positions a monitoring pass closes, why and at what price, and which entries are made. */
module PaperDecisions {
  import opened Common
  import opened PaperLedger
  import opened PaperLaws
  import opened PaperRuns
  import Fills = BacktestExecution

  // ---- Conditions in prices

  /** How far a price lies on the winning side of a level, for the direction. */
  function Gain(direction: Direction, level: real, price: real): real { Sign(direction) * (price - level) }

  predicate StopDue(p: Position, mark: real) { Gain(p.direction, p.stop, mark) <= 0.0 }

  predicate TargetDue(p: Position, mark: real) { Gain(p.direction, p.target, mark) >= 0.0 }

  predicate AgeDue(c: PaperConfig, p: Position, now: int) { now - p.entryTime >= c.maxTradeMinutes * 60 }

  /** The pass can mark the position: a fresh quote that has the configured mark. */
  predicate Markable(c: PaperConfig, p: Position, quote: Option<Quote>, now: int) {
    quote.Some? && QuoteFresh(c, quote.value, now) && MarkQuote(c, p, quote.value).Some?
  }

  /** Marked at or beyond a level or too old, with a price to leave at. */
  predicate Leaves(c: PaperConfig, p: Position, quote: Option<Quote>, now: int) {
    && Markable(c, p, quote, now) && BasePrice(c, quote.value, p.direction, false).Some?
    && var mark := MarkQuote(c, p, quote.value).value;
    StopDue(p, mark) || TargetDue(p, mark) || AgeDue(c, p, now)
  }

  /** The first of the tests that holds: stop, then target, then age. */
  predicate FirstReason(c: PaperConfig, p: Position, mark: real, now: int, reason: ExitReason) {
    match reason
    case StopLoss => StopDue(p, mark)
    case TakeProfit => !StopDue(p, mark) && TargetDue(p, mark)
    case TimeExit => !StopDue(p, mark) && !TargetDue(p, mark) && AgeDue(c, p, now)
    case Invalidation => false
    case Manual => false
  }

  /** The mark and the exit side of a quote: the middle, the last trade, or what the other side pays. */
  lemma PricesOfQuote(c: PaperConfig, q: Quote, p: Position, price: PosReal)
    requires q.bid.Some? && q.ask.Some?
    ensures Mid(q) == Some(price) <==> price - q.bid.value == q.ask.value - price
    ensures c.model == LastPrice ==> forall entry :: BasePrice(c, q, p.direction, entry) == q.last
    ensures c.model == MidPrice ==> forall entry :: BasePrice(c, q, p.direction, entry) == Mid(q)
    ensures c.model == SidePrice && p.direction == Long ==>
      BasePrice(c, q, Long, true) == q.ask && BasePrice(c, q, Long, false) == q.bid
    ensures c.model == SidePrice && p.direction == Short ==>
      BasePrice(c, q, Short, true) == q.bid && BasePrice(c, q, Short, false) == q.ask
    ensures c.markPrice == MarkLast ==> MarkQuote(c, p, q) == q.last
    ensures c.markPrice == MarkMid ==> MarkQuote(c, p, q) == Mid(q)
    ensures c.markPrice == ExitSide ==> MarkQuote(c, p, q) == BasePrice(c, q, p.direction, false)
  {
  }

  /** Without both sides the middle is the last trade. */
  lemma MidWithoutBothSides(q: Quote)
    requires q.bid.None? || q.ask.None?
    ensures Mid(q) == q.last
  {
  }

  /** A quote is usable while its age lies between zero and the limit, both included. */
  lemma FreshExactly(c: PaperConfig, q: Quote, now: int)
    ensures QuoteFresh(c, q, now) <==> !(now < q.timestamp) && !(now > q.timestamp + c.maxStaleSeconds)
  {
  }

  // ---- One position

  predicate MarkedAt(p: Position, after: Position, mark: real) {
    var pnl := Gain(p.direction, p.entryPrice, mark) * p.quantity;
    && after == p.(currentPrice := mark, unrealized := pnl, favorable := after.favorable, adverse := after.adverse)
    && after.favorable >= p.favorable && after.favorable >= pnl && after.favorable in {p.favorable, pnl}
    && after.adverse >= p.adverse && after.adverse >= -pnl && after.adverse in {p.adverse, -pnl}
  }

  lemma MarkedExactly(p: Position, mark: real)
    ensures MarkedAt(p, Marked(p, mark), mark)
  {
    var d, q, g := mark - p.entryPrice, p.quantity, Sign(p.direction);
    assert d * q * g == g * d * q;
  }

  lemma TriggerIsFirst(c: PaperConfig, p: Position, mark: real, now: int)
    requires p.currentPrice == mark
    ensures match TriggerReason(c, p, now)
      case Some(reason) => FirstReason(c, p, mark, now, reason)
      case None => !StopDue(p, mark) && !TargetDue(p, mark) && !AgeDue(c, p, now)
  {
  }

  lemma SameConditions(c: PaperConfig, p: Position, q: Position, mark: real, now: int)
    requires q.direction == p.direction && q.stop == p.stop && q.target == p.target && q.entryTime == p.entryTime
    ensures StopDue(p, mark) == StopDue(q, mark) && TargetDue(p, mark) == TargetDue(q, mark)
    ensures AgeDue(c, p, now) == AgeDue(c, q, now)
    ensures forall reason :: FirstReason(c, p, mark, now, reason) == FirstReason(c, q, mark, now, reason)
  {
  }

  /** The pending orders of the setup after an exit: the level that was hit is filled, the rest cancelled. */
  predicate OrdersSettled(before: seq<Order>, after: seq<Order>, setupId: string, reason: ExitReason) {
    && |after| == |before|
    && forall n :: 0 <= n < |before| ==>
         var o := before[n];
         after[n] ==
           if o.setupId != setupId || o.status != Pending then o
           else if o.orderType == PaperStop && reason == StopLoss then o.(status := OrderFilled)
           else if o.orderType == PaperTarget && reason == TakeProfit then o.(status := OrderFilled)
           else o.(status := Cancelled)
  }

  /** The trade of an exit: at the slipped price, after both fees, against the initial risk. */
  predicate TradeAt(c: PaperConfig, p: Position, price: real, reason: ExitReason, t: Trade) {
    var executed := Fills.SlippedPrice(FillRates(c), price, p.direction, false);
    && t.positionId == p.positionId && t.reason == reason && t.exitPrice == executed
    && t.gross == Gain(p.direction, p.entryPrice, executed) * p.quantity
    && t.entryFee == p.entryFee && t.exitFee == executed * p.quantity * (c.takerFeePercent / 100.0)
    && t.net == t.gross - t.entryFee - t.exitFee
    && t.slippage == p.slippage + Abs(executed - price) * p.quantity
    && t.rMultiple * p.initialRisk == (if p.initialRisk != 0.0 then t.net else 0.0)
    && (p.initialRisk == 0.0 ==> t.rMultiple == 0.0)
  }

  /** What an exit leaves: the position closed, its trade at the slipped price, its orders settled, a cooldown. */
  ghost predicate LeftAt(c: PaperConfig, s: Ledger, i: nat, price: real, reason: ExitReason, now: int, after: Ledger)
    requires i < |s.positions|
  {
    var p := s.positions[i];
    && |after.positions| == |s.positions| && after.positions[i].status == Closed
    && after.positions == s.positions[i := after.positions[i]]
    && |after.trades| == |s.trades| + 1 && after.trades[..|s.trades|] == s.trades
    && TradeAt(c, p, price, reason, after.trades[|s.trades|])
    && after.positions[i].realized == after.trades[|s.trades|].net && after.positions[i].unrealized == 0.0
    && OrdersSettled(s.orders, after.orders, p.setupId, reason)
    && after.cooldowns == s.cooldowns[p.symbol := now + c.cooldownSeconds]
    && after.setups == s.setups && after.nextId == s.nextId
  }

  lemma SettledExactly(orders: seq<Order>, setupId: string, reason: ExitReason)
    ensures OrdersSettled(orders, SettleAll(orders, setupId, reason), setupId, reason)
  {
    hide SettleAll;
  }

  lemma TradeExactly(c: PaperConfig, p: Position, price: real, reason: ExitReason)
    ensures TradeAt(c, p, price, reason, TradeOf(c, p, price, reason))
    ensures var q := ClosedPosition(c, p, price);
      q.status == Closed && q.realized == TradeOf(c, p, price, reason).net && q.unrealized == 0.0
  {
    hide Fills.SlippedPrice;
    GrossIsGain(p, Fills.SlippedPrice(FillRates(c), price, p.direction, false));
  }

  lemma ExitLeaves(c: PaperConfig, s: Ledger, i: nat, q: Quote, reason: ExitReason, now: int)
    requires i < |s.positions|
    ensures var p, (verdict, after) := s.positions[i], EngineExit(c, s, true, i, q, reason, now);
      if QuoteFresh(c, q, now) && p.status == IsOpen && BasePrice(c, q, p.direction, false).Some? then
        verdict == Done && LeftAt(c, s, i, BasePrice(c, q, p.direction, false).value, reason, now, after)
      else verdict == Refused && after == s
  {
    hide Refreshed, QuoteFresh, BasePrice, TradeAt, TradeOf, ClosedPosition, SettleAll, OrdersSettled;
    var p := s.positions[i];
    var base := BasePrice(c, q, p.direction, false);
    if base.Some? {
      TradeExactly(c, p, base.value, reason);
      SettledExactly(s.orders, p.setupId, reason);
    }
  }

  lemma GrossIsGain(p: Position, executed: real)
    ensures (executed - p.entryPrice) * p.quantity * Sign(p.direction)
         == Gain(p.direction, p.entryPrice, executed) * p.quantity
  {
    var d, q, g := executed - p.entryPrice, p.quantity, Sign(p.direction);
    assert d * q * g == g * d * q;
  }

  /** Without a session nothing leaves. */
  lemma NoSessionNoExit(c: PaperConfig, s: Ledger, i: nat, q: Quote, reason: ExitReason, now: int)
    requires i < |s.positions|
    ensures EngineExit(c, s, false, i, q, reason, now) == (Refused, s)
  {
  }

  /** One open position of a pass: unusable quotes leave it, else it is marked, and closed exactly when it leaves. */
  lemma MonitorExactly(c: PaperConfig, s: Ledger, i: nat, quote: Option<Quote>, now: int)
    requires i < |s.positions| && s.positions[i].status == IsOpen
    ensures var p, (stale, after) := s.positions[i], MonitorOne(c, s, true, i, quote, now);
      if !Markable(c, p, quote, now) then stale && after == s
      else
        var mark := MarkQuote(c, p, quote.value).value;
        if !Leaves(c, p, quote, now) then
          && after == s.(positions := after.positions) && |after.positions| == |s.positions|
          && after.positions == s.positions[i := after.positions[i]] && MarkedAt(p, after.positions[i], mark)
          && (stale <==> StopDue(p, mark) || TargetDue(p, mark) || AgeDue(c, p, now))
        else
          && !stale
          && exists reason, marked :: MarkedAt(p, marked, mark) && FirstReason(c, p, mark, now, reason)
               && LeftAt(c, s.(positions := s.positions[i := marked]), i,
                         BasePrice(c, quote.value, p.direction, false).value, reason, now, after)
  {
    hide TriggerReason, QuoteFresh, MarkQuote, BasePrice, Marked, EngineExit, StopDue, TargetDue, AgeDue, FirstReason,
      LeftAt;
    var p := s.positions[i];
    if Markable(c, p, quote, now) {
      var mark := MarkQuote(c, p, quote.value).value;
      var marked := Marked(p, mark);
      MarkedExactly(p, mark);
      var s1 := s.(positions := s.positions[i := marked]);
      TriggerIsFirst(c, marked, mark, now);
      SameConditions(c, p, marked, mark, now);
      var reason := TriggerReason(c, marked, now);
      if reason.Some? {
        ExitLeaves(c, s1, i, quote.value, reason.value, now);
        FirstIsDue(c, p, mark, now, reason.value);
      }
    }
  }

  lemma FirstIsDue(c: PaperConfig, p: Position, mark: real, now: int, reason: ExitReason)
    requires FirstReason(c, p, mark, now, reason)
    ensures StopDue(p, mark) || TargetDue(p, mark) || AgeDue(c, p, now)
  {
  }

  // ---- A whole pass

  /** The quote of a symbol, when it has one. */
  function QuoteFor(quotes: map<string, Quote>, symbol: string): Option<Quote> {
    if symbol in quotes then Some(quotes[symbol]) else None
  }

  /** What the pass leaves of position i, and of the orders and trades that belong to it. */
  ghost predicate Outcome(c: PaperConfig, s: Ledger, i: nat, quotes: map<string, Quote>, now: int, after: Ledger)
    requires i < |s.positions|
  {
    var p, quote := s.positions[i], QuoteFor(quotes, s.positions[i].symbol);
    && |after.positions| == |s.positions|
    && (if p.status != IsOpen || !Markable(c, p, quote, now) then Untouched(s, i, after) && after.positions[i] == p
        else
          var mark := MarkQuote(c, p, quote.value).value;
          if !Leaves(c, p, quote, now) then Untouched(s, i, after) && MarkedAt(p, after.positions[i], mark)
          else
            && after.positions[i].status == Closed
            && exists reason :: FirstReason(c, p, mark, now, reason)
                 && OwnSettled(s.orders, after.orders, p.setupId, reason)
                 && exists t <- after.trades :: t.positionId == p.positionId && t.reason == reason
                      && t.exitPrice
                         == Fills.SlippedPrice(FillRates(c), BasePrice(c, quote.value, p.direction, false).value,
                                               p.direction, false))
  }

  predicate OwnSettled(before: seq<Order>, after: seq<Order>, setupId: string, reason: ExitReason) {
    && |after| == |before|
    && forall n :: 0 <= n < |before| && before[n].setupId == setupId ==>
         var o := before[n];
         after[n] ==
           if o.status != Pending then o
           else if o.orderType == PaperStop && reason == StopLoss then o.(status := OrderFilled)
           else if o.orderType == PaperTarget && reason == TakeProfit then o.(status := OrderFilled)
           else o.(status := Cancelled)
  }

  predicate OwnSame(before: seq<Order>, after: seq<Order>, setupId: string) {
    |after| == |before| && forall n :: 0 <= n < |before| && before[n].setupId == setupId ==> after[n] == before[n]
  }

  /** Neither orders of its setup nor trades of its position are new. */
  predicate Untouched(s: Ledger, i: nat, after: Ledger)
    requires i < |s.positions|
  {
    && OwnSame(s.orders, after.orders, s.positions[i].setupId)
    && forall t <- after.trades :: t.positionId == s.positions[i].positionId ==> t in s.trades
  }

  predicate Apart(ps: seq<Position>) {
    forall i, j :: 0 <= i < j < |ps| ==> ps[i].setupId != ps[j].setupId && ps[i].positionId != ps[j].positionId
  }

  predicate SameIds(a: seq<Position>, b: seq<Position>) {
    |a| == |b| && forall k :: 0 <= k < |a| ==> a[k].setupId == b[k].setupId && a[k].positionId == b[k].positionId
  }

  /** One step on position k: ids stay, and only what belongs to k changes. */
  predicate Confined(s: Ledger, k: nat, after: Ledger)
    requires k < |s.positions|
  {
    && SameIds(s.positions, after.positions) && after.positions == s.positions[k := after.positions[k]]
    && s.trades <= after.trades && (forall t <- after.trades[|s.trades|..] :: t.positionId == s.positions[k].positionId)
    && |after.orders| == |s.orders|
    && forall n :: 0 <= n < |s.orders| ==>
         && after.orders[n].setupId == s.orders[n].setupId
         && (s.orders[n].setupId != s.positions[k].setupId ==> after.orders[n] == s.orders[n])
  }

  lemma StepConfined(c: PaperConfig, s: Ledger, k: nat, quote: Option<Quote>, now: int)
    requires k < |s.positions|
    ensures Confined(s, k, MonitorOne(c, s, true, k, quote, now).1)
  {
    hide TriggerReason, QuoteFresh, MarkQuote, BasePrice, EngineExit;
    var p := s.positions[k];
    if Markable(c, p, quote, now) {
      var marked := Marked(p, MarkQuote(c, p, quote.value).value);
      var s1 := s.(positions := s.positions[k := marked]);
      var reason := TriggerReason(c, marked, now);
      if reason.Some? {
        ExitConfined(c, s1, k, quote.value, reason.value, now);
      }
    }
  }

  lemma ExitConfined(c: PaperConfig, s: Ledger, k: nat, q: Quote, reason: ExitReason, now: int)
    requires k < |s.positions|
    ensures Confined(s, k, EngineExit(c, s, true, k, q, reason, now).1)
  {
    hide Refreshed, QuoteFresh, BasePrice, Fills.SlippedPrice, Fills.Fee;
  }

  /** The first step on position i, followed by steps on others, is its outcome. */
  lemma OneOutcome(c: PaperConfig, s: Ledger, i: nat, quotes: map<string, Quote>, now: int)
    requires i < |s.positions| && s.positions[i].status == IsOpen
    ensures Outcome(c, s, i, quotes, now, MonitorOne(c, s, true, i, QuoteFor(quotes, s.positions[i].symbol), now).1)
  {
    hide Leaves, Markable, QuoteFresh, MarkQuote, BasePrice, MonitorOne, MarkedAt, FirstReason, Fills.SlippedPrice;
    var p, quote := s.positions[i], QuoteFor(quotes, s.positions[i].symbol);
    MonitorExactly(c, s, i, quote, now);
    LeavesMarkable(c, p, quote, now);
    var after := MonitorOne(c, s, true, i, quote, now).1;
    if Leaves(c, p, quote, now) {
      var mark, price := MarkQuote(c, p, quote.value).value, BasePrice(c, quote.value, p.direction, false).value;
      var reason, marked :| MarkedAt(p, marked, mark) && FirstReason(c, p, mark, now, reason)
        && LeftAt(c, s.(positions := s.positions[i := marked]), i, price, reason, now, after);
      MarkedIds(p, marked, mark);
      var t := after.trades[|s.trades|];
      assert t in after.trades;
      assert OwnSettled(s.orders, after.orders, p.setupId, reason);
    }
  }

  lemma MarkedIds(p: Position, marked: Position, mark: real)
    requires MarkedAt(p, marked, mark)
    ensures marked.setupId == p.setupId && marked.positionId == p.positionId && marked.direction == p.direction
    ensures marked.symbol == p.symbol && marked.status == p.status
  {
  }

  lemma LeavesMarkable(c: PaperConfig, p: Position, quote: Option<Quote>, now: int)
    ensures Leaves(c, p, quote, now) ==>
      Markable(c, p, quote, now) && BasePrice(c, quote.value, p.direction, false).Some?
  {
  }

  lemma ConfinedKeeps(c: PaperConfig, s: Ledger, i: nat, k: nat, quotes: map<string, Quote>, now: int, mid: Ledger,
                      after: Ledger)
    requires i < |s.positions| && k < |mid.positions| && i != k
    requires Outcome(c, s, i, quotes, now, mid) && Apart(mid.positions) && Confined(mid, k, after)
    requires SameIds(s.positions, mid.positions)
    requires |mid.orders| == |s.orders|
    requires forall n :: 0 <= n < |s.orders| ==> mid.orders[n].setupId == s.orders[n].setupId
    ensures Outcome(c, s, i, quotes, now, after)
  {
    hide Leaves, Markable, QuoteFresh, MarkQuote, BasePrice, MarkedAt, FirstReason, Fills.SlippedPrice;
    var p, quote := s.positions[i], QuoteFor(quotes, s.positions[i].symbol);
    assert mid.positions[i].setupId == p.setupId && mid.positions[i].positionId == p.positionId;
    assert mid.positions[k].setupId != p.setupId && mid.positions[k].positionId != p.positionId;
    assert after.positions[i] == mid.positions[i];
    assert forall n :: 0 <= n < |s.orders| && s.orders[n].setupId == p.setupId ==> after.orders[n] == mid.orders[n];
    assert after.trades == mid.trades + after.trades[|mid.trades|..];
  }

  /** Position i is still as the pass found it. */
  predicate Awaiting(s: Ledger, i: nat, mid: Ledger)
    requires i < |s.positions|
  {
    && SameIds(s.positions, mid.positions) && mid.positions[i] == s.positions[i] && Untouched(s, i, mid)
    && |mid.orders| == |s.orders| && forall n :: 0 <= n < |s.orders| ==> mid.orders[n].setupId == s.orders[n].setupId
  }

  lemma AwaitingKept(s: Ledger, i: nat, mid: Ledger, k: nat, after: Ledger)
    requires i < |s.positions| && k < |mid.positions| && i != k
    requires Awaiting(s, i, mid) && Apart(s.positions) && Confined(mid, k, after)
    ensures Awaiting(s, i, after)
  {
    assert after.trades == mid.trades + after.trades[|mid.trades|..];
  }

  lemma OutcomeFrom(c: PaperConfig, s: Ledger, i: nat, quotes: map<string, Quote>, now: int, mid: Ledger, after: Ledger)
    requires i < |s.positions| && Awaiting(s, i, mid) && Outcome(c, mid, i, quotes, now, after)
    ensures Outcome(c, s, i, quotes, now, after)
  {
    hide Leaves, Markable, QuoteFresh, MarkQuote, BasePrice, MarkedAt, FirstReason, Fills.SlippedPrice;
  }

  lemma RefreshedOutcome(c: PaperConfig, s: Ledger, i: nat, quotes: map<string, Quote>, now: int, mid: Ledger)
    requires i < |s.positions| && Outcome(c, s, i, quotes, now, mid)
    ensures Outcome(c, s, i, quotes, now, Refresh(mid, now))
  {
    hide Leaves, Markable, QuoteFresh, MarkQuote, BasePrice, MarkedAt, FirstReason, Fills.SlippedPrice, Refreshed;
  }

  predicate SameOrderIds(s: Ledger, mid: Ledger) {
    |mid.orders| == |s.orders| && forall n :: 0 <= n < |s.orders| ==> mid.orders[n].setupId == s.orders[n].setupId
  }

  /** Later steps of the pass leave an outcome as it is. */
  lemma {:induction false} OutcomeStays(c: PaperConfig, s: Ledger, i: nat, mid: Ledger, k: nat,
                                        quotes: map<string, Quote>, now: int)
    requires i < |s.positions| && i < k <= |mid.positions|
    requires Outcome(c, s, i, quotes, now, mid) && Apart(s.positions)
    requires SameIds(s.positions, mid.positions) && SameOrderIds(s, mid)
    ensures Outcome(c, s, i, quotes, now, MonitorFrom(c, mid, true, k, quotes, now).1)
    decreases |mid.positions| - k
  {
    hide Outcome, MonitorOne, Refresh;
    if k == |mid.positions| {
      RefreshedOutcome(c, s, i, quotes, now, mid);
    } else if mid.positions[k].status != IsOpen {
      OutcomeStays(c, s, i, mid, k + 1, quotes, now);
    } else {
      var quote := QuoteFor(quotes, mid.positions[k].symbol);
      var after := MonitorOne(c, mid, true, k, quote, now).1;
      StepConfined(c, mid, k, quote, now);
      ConfinedKeeps(c, s, i, k, quotes, now, mid, after);
      OutcomeStays(c, s, i, after, k + 1, quotes, now);
    }
  }

  lemma NotOpenOutcome(c: PaperConfig, s: Ledger, i: nat, mid: Ledger, quotes: map<string, Quote>, now: int)
    requires i < |s.positions| && Awaiting(s, i, mid) && s.positions[i].status != IsOpen
    ensures Outcome(c, s, i, quotes, now, mid)
  {
    hide Leaves, Markable, QuoteFresh, MarkQuote, BasePrice, MarkedAt, FirstReason;
  }

  lemma {:induction false} OutcomeComes(c: PaperConfig, s: Ledger, i: nat, mid: Ledger, k: nat,
                                        quotes: map<string, Quote>, now: int)
    requires k <= i < |s.positions| && Awaiting(s, i, mid) && Apart(s.positions)
    ensures Outcome(c, s, i, quotes, now, MonitorFrom(c, mid, true, k, quotes, now).1)
    decreases |mid.positions| - k
  {
    hide Outcome, MonitorOne, Refresh, Untouched, Confined;
    var quote := QuoteFor(quotes, mid.positions[k].symbol);
    var after := if mid.positions[k].status == IsOpen then MonitorOne(c, mid, true, k, quote, now).1 else mid;
    StepConfined(c, mid, k, quote, now);
    ConfinedIds(mid, k, MonitorOne(c, mid, true, k, quote, now).1);
    if k == i {
      if mid.positions[k].status == IsOpen {
        OneOutcome(c, mid, i, quotes, now);
        OutcomeFrom(c, s, i, quotes, now, mid, after);
      } else {
        NotOpenOutcome(c, s, i, mid, quotes, now);
      }
      OutcomeStays(c, s, i, after, k + 1, quotes, now);
    } else {
      if mid.positions[k].status == IsOpen {
        AwaitingKept(s, i, mid, k, after);
      }
      OutcomeComes(c, s, i, after, k + 1, quotes, now);
    }
  }

  lemma ConfinedIds(s: Ledger, k: nat, after: Ledger)
    requires k < |s.positions| && Confined(s, k, after)
    ensures SameIds(s.positions, after.positions) && SameOrderIds(s, after)
  {
  }

  /**
   What a pass with a session does to every position: an open one that can be
   marked is closed exactly when its mark is at or beyond its stop or target or it
   is too old, and there is a price to leave at; its trade and its own two orders
   carry the first of those reasons. Every other open one that can be marked stays
   open, marked; all others stay as they were.
   */
  lemma PassExactly(c: PaperConfig, s: Ledger, i: nat, quotes: map<string, Quote>, now: int)
    requires Structured(s) && i < |s.positions|
    ensures Outcome(c, s, i, quotes, now, MonitorFrom(c, s, true, 0, quotes, now).1)
  {
    hide Outcome, MonitorFrom, Aligned, TradesMatch;
    OutcomeComes(c, s, i, s, 0, quotes, now);
  }

  predicate Departs(c: PaperConfig, p: Position, quotes: map<string, Quote>, now: int) {
    p.status == IsOpen && Leaves(c, p, QuoteFor(quotes, p.symbol), now)
  }

  function Departures(c: PaperConfig, quotes: map<string, Quote>, now: int): Position -> bool {
    (p: Position) => Departs(c, p, quotes, now)
  }

  /** It records one trade for each position that leaves, and no other. */
  lemma {:induction false} PassTrades(c: PaperConfig, s: Ledger, k: nat, quotes: map<string, Quote>, now: int)
    requires k <= |s.positions|
    ensures |MonitorFrom(c, s, true, k, quotes, now).1.trades|
         == |s.trades| + CountBy(Departures(c, quotes, now), s.positions[k..])
    decreases |s.positions| - k
  {
    hide MonitorOne, Refreshed, Leaves, Markable, MarkedAt, FirstReason, BasePrice, MarkQuote, QuoteFresh;
    if k < |s.positions| {
      var p, rest := s.positions[k], s.positions[k + 1..];
      assert s.positions[k..] == [p] + rest && s.positions[k..][1..] == rest;
      if p.status == IsOpen {
        var quote := QuoteFor(quotes, p.symbol);
        var after := MonitorOne(c, s, true, k, quote, now).1;
        MonitorTrades(c, s, k, quote, now);
        assert after.positions[k + 1..] == rest;
        PassTrades(c, after, k + 1, quotes, now);
      } else {
        PassTrades(c, s, k + 1, quotes, now);
      }
    }
  }

  lemma MonitorTrades(c: PaperConfig, s: Ledger, k: nat, quote: Option<Quote>, now: int)
    requires k < |s.positions| && s.positions[k].status == IsOpen
    ensures var after := MonitorOne(c, s, true, k, quote, now).1;
      && |after.trades| == |s.trades| + (if Leaves(c, s.positions[k], quote, now) then 1 else 0)
      && |after.positions| == |s.positions| && after.positions == s.positions[k := after.positions[k]]
  {
    hide Leaves, Markable, QuoteFresh, MarkQuote, BasePrice, MonitorOne, MarkedAt, FirstReason;
    MonitorExactly(c, s, k, quote, now);
    LeavesMarkable(c, s.positions[k], quote, now);
  }

  /** Nothing to mark it with, or due without a price to leave at. */
  predicate Stuck(c: PaperConfig, p: Position, quotes: map<string, Quote>, now: int) {
    var quote := QuoteFor(quotes, p.symbol);
    p.status == IsOpen
    && (Markable(c, p, quote, now) ==>
          var mark := MarkQuote(c, p, quote.value).value;
          !Leaves(c, p, quote, now) && (StopDue(p, mark) || TargetDue(p, mark) || AgeDue(c, p, now)))
  }

  /** A pass reports stale data exactly when some open position is stuck. */
  lemma {:induction false} PassStale(c: PaperConfig, s: Ledger, k: nat, quotes: map<string, Quote>, now: int)
    requires k <= |s.positions|
    ensures MonitorFrom(c, s, true, k, quotes, now).0
      <==> exists i :: k <= i < |s.positions| && Stuck(c, s.positions[i], quotes, now)
    decreases |s.positions| - k
  {
    hide MonitorOne, Refreshed, Stuck;
    if k < |s.positions| {
      var p := s.positions[k];
      if p.status == IsOpen {
        var quote := QuoteFor(quotes, p.symbol);
        var after := MonitorOne(c, s, true, k, quote, now).1;
        MonitorStale(c, s, k, quotes, now);
        assert forall i :: k < i < |s.positions| ==> after.positions[i] == s.positions[i];
        PassStale(c, after, k + 1, quotes, now);
      } else {
        ClosedIsNotStuck(c, p, quotes, now);
        PassStale(c, s, k + 1, quotes, now);
      }
    }
  }

  lemma ClosedIsNotStuck(c: PaperConfig, p: Position, quotes: map<string, Quote>, now: int)
    requires p.status != IsOpen
    ensures !Stuck(c, p, quotes, now)
  {
  }

  lemma MonitorStale(c: PaperConfig, s: Ledger, k: nat, quotes: map<string, Quote>, now: int)
    requires k < |s.positions| && s.positions[k].status == IsOpen
    ensures var (stale, after) := MonitorOne(c, s, true, k, QuoteFor(quotes, s.positions[k].symbol), now);
      && (stale <==> Stuck(c, s.positions[k], quotes, now))
      && |after.positions| == |s.positions| && after.positions == s.positions[k := after.positions[k]]
  {
    hide Leaves, Markable, QuoteFresh, MarkQuote, BasePrice, MonitorOne, MarkedAt, FirstReason, StopDue, TargetDue,
      AgeDue;
    var quote := QuoteFor(quotes, s.positions[k].symbol);
    MonitorExactly(c, s, k, quote, now);
    LeavesMarkable(c, s.positions[k], quote, now);
  }

  // ---- Entries

  /** Everything an entry needs before its price. */
  predicate Enterable(c: PaperConfig, s: Ledger, r: EntryRequest, q: Quote, now: int) {
    && q.timestamp <= now <= q.timestamp + c.maxStaleSeconds
    && r.triggered && r.allowed && r.quantity != 0.0 && r.stop.Some? && r.target.Some?
    && (forall o <- s.orders :: o.setupId == r.setupId ==> o.status != OrderFilled)
    && (forall p <- s.positions :: p.symbol == r.symbol ==> p.status != IsOpen)
    && (r.symbol in s.cooldowns ==> s.cooldowns[r.symbol] <= now)
  }

  lemma EnterableExactly(c: PaperConfig, s: Ledger, r: EntryRequest, q: Quote, now: int)
    ensures Enterable(c, s, r, q, now) <==> !EntryBlocked(c, s, r, q, now)
  {
    if HasFilledOrder(s.orders, r.setupId) {
      var k :| 0 <= k < |s.orders| && s.orders[k].setupId == r.setupId && s.orders[k].status == OrderFilled;
      assert s.orders[k] in s.orders;
    }
    if HasOpen(s.positions, r.symbol) {
      var k :| 0 <= k < |s.positions| && s.positions[k].symbol == r.symbol && s.positions[k].status == IsOpen;
      assert s.positions[k] in s.positions;
    }
  }

  /**
   An entry is made exactly when it may be, has a price, drifts no further from the
   planned entry than allowed and fills above zero; the position and its money are
   those of the fill at the slipped price.
   */
  lemma EntryExactly(c: PaperConfig, s: Ledger, r: EntryRequest, q: Quote, now: int)
    ensures var (verdict, after), base := Enter(c, s, r, q, now), BasePrice(c, q, r.direction, true);
      && (verdict == Done <==>
            && Enterable(c, s, r, q, now) && base.Some?
            && var fill := Fills.SlippedPrice(FillRates(c), base.value, r.direction, true);
            && fill > 0.0
            && (r.maxDrift.Some? ==>
                  var planned := if r.entry.Some? then r.entry.value else base.value;
                  Abs(fill - planned) / planned * 100.0 <= r.maxDrift.value))
      && (verdict != Done ==> after == s)
      && (verdict == Done ==>
            var fill := Fills.SlippedPrice(FillRates(c), base.value, r.direction, true);
            && |after.positions| == |s.positions| + 1 && after.positions[..|s.positions|] == s.positions
            && var p := after.positions[|s.positions|];
            && p.symbol == r.symbol && p.setupId == r.setupId && p.direction == r.direction && p.status == IsOpen
            && p.quantity == r.quantity && p.entryPrice == fill && p.currentPrice == fill && p.entryTime == now
            && p.stop == r.stop.value && p.target == r.target.value && p.unrealized == 0.0 && p.realized == 0.0
            && p.entryFee == fill * r.quantity * (c.takerFeePercent / 100.0)
            && p.slippage == Abs(fill - base.value) * r.quantity
            && p.exitFee == 0.0 && p.favorable == 0.0 && p.adverse == 0.0
            && p.leverage >= r.leverage && p.leverage >= 1.0 && p.leverage in {r.leverage, 1.0}
            && p.initialRisk >= r.maximumLoss && p.initialRisk >= 0.00000001
            && p.initialRisk in {r.maximumLoss, 0.00000001}
            && after.trades == s.trades && after.cooldowns == s.cooldowns
            && after.account.fees == s.account.fees + p.entryFee
            && after.orders[..|s.orders|] == s.orders && |after.orders| == |s.orders| + 3
            && ProtectedBy(p, base.value, after.orders[|s.orders|..]))
  {
    hide EntryBlocked, Enterable, BasePrice, Fills.SlippedPrice, SumBy;
    EnterableExactly(c, s, r, q, now);
    if !EntryBlocked(c, s, r, q, now) {
      AllowedHasLevels(c, s, r, q, now);
    }
  }

  /** The filled entry order and the two pending protective ones, at the position's own levels. */
  predicate ProtectedBy(p: Position, requested: real, orders: seq<Order>) {
    && |orders| == 3
    && (forall o <- orders :: o.setupId == p.setupId && o.symbol == p.symbol && o.quantity == p.quantity)
    && orders[0].orderType == MarketEntry && orders[0].status == OrderFilled && orders[0].requestedPrice == requested
    && orders[0].orderId == p.orderId && orders[0].fees == p.entryFee && orders[0].slippage == p.slippage
    && (forall k :: 1 <= k < 3 ==> orders[k].fees == 0.0 && orders[k].slippage == 0.0)
    && orders[1].orderType == PaperStop && orders[1].status == Pending && orders[1].requestedPrice == p.stop
    && orders[2].orderType == PaperTarget && orders[2].status == Pending && orders[2].requestedPrice == p.target
  }

  // ---- The account

  function OpenOnes(ps: seq<Position>): seq<Position> {
    if ps == [] then [] else (if ps[0].status == IsOpen then [ps[0]] else []) + OpenOnes(ps[1..])
  }

  function PnlOf(p: Position): real { p.unrealized }
  function EntryFeeOf(p: Position): real { p.entryFee }
  function NotionalOf(p: Position): real { p.entryPrice * p.quantity }

  /** A position's notional at its leverage, which counts as one when it is lower. */
  function MarginOf(p: Position): real {
    if p.leverage >= 1.0 then p.entryPrice * p.quantity / p.leverage else p.entryPrice * p.quantity
  }

  lemma {:induction false} SumOfOpen(f: Position -> real, g: Position -> real, ps: seq<Position>)
    requires forall p :: g(p) == if p.status == IsOpen then f(p) else 0.0
    ensures SumBy(g, ps) == SumBy(f, OpenOnes(ps))
  {
    if ps != [] {
      SumOfOpen(f, g, ps[1..]);
      if ps[0].status == IsOpen {
        assert OpenOnes(ps)[1..] == OpenOnes(ps[1..]) && OpenOnes(ps)[0] == ps[0];
      } else {
        assert OpenOnes(ps) == OpenOnes(ps[1..]);
      }
    }
  }

  lemma SumsOfOpen(ps: seq<Position>)
    ensures SumBy(OpenUnrealized, ps) == SumBy(PnlOf, OpenOnes(ps))
    ensures SumBy(OpenEntryFee, ps) == SumBy(EntryFeeOf, OpenOnes(ps))
    ensures SumBy(OpenNotional, ps) == SumBy(NotionalOf, OpenOnes(ps))
    ensures SumBy(OpenMargin, ps) == SumBy(MarginOf, OpenOnes(ps))
  {
    hide SumBy, OpenOnes;
    forall p
      ensures OpenMargin(p) == if p.status == IsOpen then MarginOf(p) else 0.0
    {
      MarginIs(p);
    }
    SumOfOpen(PnlOf, OpenUnrealized, ps);
    SumOfOpen(EntryFeeOf, OpenEntryFee, ps);
    SumOfOpen(NotionalOf, OpenNotional, ps);
    SumOfOpen(MarginOf, OpenMargin, ps);
  }

  lemma MarginIs(p: Position)
    ensures Notional(p) / Max(p.leverage, 1.0) == MarginOf(p)
  {
  }

  /**
   A refreshed account: the results and margins of the positions that are open, equity
   with their entry fees taken off and a floor, and, on a new day, a new start.
   */
  lemma AccountExactly(s: Ledger, now: int)
    ensures var a, b, open := s.account, Refresh(s, now).account, OpenOnes(s.positions);
      && b.unrealized == SumBy(PnlOf, open) && b.exposure == SumBy(NotionalOf, open)
      && b.marginUsed == SumBy(MarginOf, open)
      && b.equity == Max(a.initialEquity + a.realized + b.unrealized - SumBy(EntryFeeOf, open), 0.00000001)
      && b.available == Max(b.equity - b.marginUsed, 0.0)
      && b.peak >= a.peak && b.peak >= b.equity && b.peak in {a.peak, b.equity} && b.drawdown == b.peak - b.equity
      && b.tradingDay == Some(now / 86400)
      && (a.tradingDay == b.tradingDay ==> b.dailyPnl == a.dailyPnl && b.startingDayEquity == a.startingDayEquity)
      && (a.tradingDay != b.tradingDay ==> b.dailyPnl == 0.0 && b.startingDayEquity == Some(a.equity))
      && b.realized == a.realized && b.fees == a.fees && b.slippageCost == a.slippageCost
      && b.consecutiveLosses == a.consecutiveLosses && b.initialEquity == a.initialEquity
  {
    hide SumBy, OpenOnes, OpenUnrealized, OpenEntryFee, OpenNotional, OpenMargin;
    SumsOfOpen(s.positions);
  }

  // ---- Setups

  predicate OthersKept(s: Ledger, after: Ledger, setupId: string) { after.setups - {setupId} == s.setups - {setupId} }

  /** The setup gets a status, or keeps what it had. */
  predicate GetsStatus(s: Ledger, after: Ledger, setupId: string, status: SetupStatus) {
    OthersKept(s, after, setupId) && setupId in after.setups && after.setups[setupId] == status
  }

  /**
   Processing a triggered setup: one that is known and not ARMED is left alone; a new
   one counts as detected; without an allowing decision it is rejected; otherwise a new
   one counts as approved, and it is ENTERED when its entry is made, ARMED when the
   entry is refused or has no quote, and keeps its status when the entry raises.
   */
  lemma ProcessExactly(c: PaperConfig, s: Ledger, setupId: SetupId, request: Option<EntryRequest>,
                       quote: Option<Quote>, now: int)
    requires request.Some? ==> request.value.setupId == setupId
    ensures var after, n := Process(c, s, setupId, request, quote, now), s.counters;
      var first, allowed := if setupId in s.setups then 0 else 1, request.Some? && request.value.allowed;
      if setupId in s.setups && s.setups[setupId] != Armed then after == s
      else
        && after.counters.detected == n.detected + first
        && after.counters.approved == n.approved + (if allowed then first else 0)
        && after.counters.rejected == n.rejected + (if allowed then 0 else 1)
        && (!allowed ==> GetsStatus(s, after, setupId, RejectedByRisk))
        && (allowed && quote.None? ==> GetsStatus(s, after, setupId, Armed))
        && (!allowed || quote.None? ==> after.positions == s.positions && after.orders == s.orders)
        && (allowed && quote.Some? ==>
              var (verdict, entered) := Enter(c, s, request.value, quote.value, now);
              && after.positions == entered.positions && after.orders == entered.orders
              && after.account == entered.account && after.counters.entries == entered.counters.entries
              && (verdict == Done ==> GetsStatus(s, after, setupId, Entered))
              && (verdict == Refused ==> GetsStatus(s, after, setupId, Armed))
              && (verdict == Raised ==> after.setups == s.setups))
  {
    hide EntryBlocked, BasePrice, Fills.SlippedPrice, NewPosition, EntryOrders, SumBy;
    if request.Some? && quote.Some? {
      EntryIgnoresCounters(c, s, s.(counters := s.counters.(detected := s.counters.detected + 1,
                                                            approved := s.counters.approved + 1)),
                           request.value, quote.value, now);
    }
  }

  /** What an entry does depends on no counter. */
  lemma EntryIgnoresCounters(c: PaperConfig, s: Ledger, t: Ledger, r: EntryRequest, q: Quote, now: int)
    requires t == s.(counters := t.counters) && t.counters.entries == s.counters.entries
    ensures var (v, a), (w, b) := Enter(c, s, r, q, now), Enter(c, t, r, q, now);
      v == w && a.positions == b.positions && a.orders == b.orders && a.account == b.account && a.setups == b.setups
      && a.counters.entries == b.counters.entries && b.counters == t.counters.(entries := b.counters.entries)
  {
    hide BasePrice, Fills.SlippedPrice, EntryOrders, SumBy, QuoteFresh, HasFilledOrder, HasOpen;
  }

  lemma {:induction false} OpenOfExactly(ps: seq<Position>, setupId: string)
    ensures OpenOf(ps, setupId) == |ps| <==> forall p <- ps :: p.setupId == setupId ==> p.status != IsOpen
  {
    if ps != [] {
      OpenOfExactly(ps[1..], setupId);
      assert ps == [ps[0]] + ps[1..];
    }
  }

  /**
   Invalidation: a known setup that is not ENTERED takes the status; an open position of
   the setup leaves, as invalidated, exactly with a session and a fresh quote with a
   price; nothing else changes.
   */
  lemma InvalidateExactly(c: PaperConfig, s: Ledger, session: bool, setupId: SetupId, status: SetupStatus,
                          quote: Option<Quote>, now: int)
    requires Structured(s) && (status == Invalidated || status == Expired)
    ensures var after := Invalidate(c, s, session, setupId, status, quote, now);
      && (setupId in s.setups && s.setups[setupId] != Entered ==> GetsStatus(s, after, setupId, status))
      && ((setupId in s.setups ==> s.setups[setupId] == Entered) ==> after.setups == s.setups)
      && forall i :: 0 <= i < |s.positions| && s.positions[i].setupId == setupId && s.positions[i].status == IsOpen ==>
           var p := s.positions[i];
           if session && quote.Some? && QuoteFresh(c, quote.value, now)
              && BasePrice(c, quote.value, p.direction, false).Some?
           then LeftAt(c, s.(setups := after.setups), i, BasePrice(c, quote.value, p.direction, false).value,
                       Invalidation, now, after)
           else after == s.(setups := after.setups)
  {
    hide Aligned, TradesMatch, LeftAt, EngineExit, QuoteFresh, BasePrice;
    var s1 := if setupId in s.setups && s.setups[setupId] != Entered then Note(s, setupId, status) else s;
    var k := OpenOf(s.positions, setupId);
    OpenOfExactly(s.positions, setupId);
    if k < |s.positions| && quote.Some? {
      if session {
        ExitLeaves(c, s1, k, quote.value, Invalidation, now);
        if EngineExit(c, s1, true, k, quote.value, Invalidation, now).0 == Done {
          LeftKeepsSetups(c, s1, k, quote.value, now);
        }
      } else {
        NoSessionNoExit(c, s1, k, quote.value, Invalidation, now);
      }
    }
  }

  lemma LeftKeepsSetups(c: PaperConfig, s: Ledger, i: nat, q: Quote, now: int)
    requires i < |s.positions|
    ensures EngineExit(c, s, true, i, q, Invalidation, now).1.setups == s.setups
  {
    hide Refreshed, QuoteFresh, BasePrice, ClosedPosition, TradeOf, SettleAll;
  }

  // ---- Recovery of any stored state

  /**
   Recovery: a filled entry order that no position refers to is rejected, and of the
   open positions of one symbol only the first stays open; nothing else changes.
   */
  lemma RecoveryExactly(s: Ledger)
    ensures var after := Reconciled(s);
      && |after.orders| == |s.orders| && |after.positions| == |s.positions|
      && after == s.(orders := after.orders, positions := after.positions)
      && (forall n :: 0 <= n < |s.orders| ==>
            var o := s.orders[n];
            if o.orderType == MarketEntry && o.status == OrderFilled
               && (forall p <- s.positions :: p.orderId != o.orderId)
            then after.orders[n] == o.(status := Rejected) else after.orders[n] == o)
      && (forall i :: 0 <= i < |s.positions| ==>
            var p := s.positions[i];
            if p.status == IsOpen
               && (exists j :: 0 <= j < i && s.positions[j].symbol == p.symbol && s.positions[j].status == IsOpen)
            then after.positions[i] == p.(status := Closing) else after.positions[i] == p)
  {
    forall o: Order
      ensures HasOrder(s.positions, o.orderId) <==> exists p <- s.positions :: p.orderId == o.orderId
    {
      if p :| p in s.positions && p.orderId == o.orderId {
        var k :| 0 <= k < |s.positions| && s.positions[k] == p;
        assert s.positions[k].orderId == o.orderId;
      }
    }
    forall i | 0 <= i < |s.positions|
      ensures HasOpen(s.positions[..i], s.positions[i].symbol) <==>
        exists j :: 0 <= j < i && s.positions[j].symbol == s.positions[i].symbol && s.positions[j].status == IsOpen
    {
      assert forall j :: 0 <= j < i ==> s.positions[..i][j] == s.positions[j];
    }
  }

  /** Afterwards no symbol is open twice, and every symbol that was open still is. */
  lemma RecoveryLeavesOne(s: Ledger)
    ensures var ps := Reconciled(s).positions;
      && (forall i, j :: 0 <= i < j < |ps| ==> !BothOpenSameSymbol(ps[i], ps[j]))
      && forall i :: 0 <= i < |ps| && s.positions[i].status == IsOpen ==>
           exists j :: 0 <= j <= i && ps[j].status == IsOpen && ps[j].symbol == s.positions[i].symbol
  {
    hide Reconciled;
    RecoveryExactly(s);
    var ps := Reconciled(s).positions;
    forall i | 0 <= i < |ps| && s.positions[i].status == IsOpen
      ensures exists j :: 0 <= j <= i && ps[j].status == IsOpen && ps[j].symbol == s.positions[i].symbol
    {
      var j := FirstOpen(s.positions, i);
      assert ps[j] == s.positions[j];
    }
  }

  lemma FirstOpen(ps: seq<Position>, i: nat) returns (j: nat)
    requires i < |ps| && ps[i].status == IsOpen
    ensures j <= i && ps[j].status == IsOpen && ps[j].symbol == ps[i].symbol
    ensures forall k :: 0 <= k < j ==> !(ps[k].symbol == ps[i].symbol && ps[k].status == IsOpen)
  {
    j := 0;
    while !(ps[j].symbol == ps[i].symbol && ps[j].status == IsOpen)
      invariant j <= i
      invariant forall k :: 0 <= k < j ==> !(ps[k].symbol == ps[i].symbol && ps[k].status == IsOpen)
      decreases i - j
    {
      j := j + 1;
    }
  }

  /** A requested close leaves exactly what an exit leaves, and otherwise nothing changes. */
  lemma CloseExactly(c: PaperConfig, s: Ledger, session: bool, i: nat, q: Quote, reason: ExitReason, now: int)
    ensures var after := Step(c, s, ClosePosition(session, i, q, reason, now));
      if session && i < |s.positions| && s.positions[i].status == IsOpen && QuoteFresh(c, q, now)
         && BasePrice(c, q, s.positions[i].direction, false).Some?
      then LeftAt(c, s, i, BasePrice(c, q, s.positions[i].direction, false).value, reason, now, after)
      else after == s
  {
    hide LeftAt, EngineExit, QuoteFresh, BasePrice;
    if i < |s.positions| {
      if session {
        ExitLeaves(c, s, i, q, reason, now);
      } else {
        NoSessionNoExit(c, s, i, q, reason, now);
      }
    }
  }

  /** A new account is what a refresh makes of it, with nothing booked and nothing counted. */
  lemma NewAccountIsCurrent(initialEquity: PosReal, now: int)
    requires initialEquity >= EQUITY_FLOOR
    ensures var s := NewLedger(initialEquity, now);
      && Refreshed(s, now) == s.account && s.account.equity == initialEquity
      && s.account.realized == s.account.fees == s.account.slippageCost == s.account.dailyPnl == 0.0
      && s.counters.detected == s.counters.approved == s.counters.rejected == 0
      && s.counters.entries == s.counters.exits == s.nextId == s.account.consecutiveLosses == 0
  {
  }
}
