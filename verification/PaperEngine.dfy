/** The paper-trading state as the engine mutates it, proved against `PaperLedger`. */
module PaperEngine {
  import opened Common
  import opened Candles
  import opened PaperLedger
  import Fills = BacktestExecution

  class PaperState {
    var account: Account
    var orders: seq<Order>
    var positions: seq<Position>
    var trades: seq<Trade>
    var setups: map<string, SetupStatus>
    var counters: Counters
    var cooldowns: map<string, int>
    var nextId: nat

    function Value(): Ledger
      reads this
    {
      Ledger(account, orders, positions, trades, setups, counters, cooldowns, nextId)
    }

    constructor (s: Ledger)
      ensures Value() == s
    {
      account, orders, positions, trades := s.account, s.orders, s.positions, s.trades;
      setups, counters, cooldowns, nextId := s.setups, s.counters, s.cooldowns, s.nextId;
    }

    method RefreshAccount(now: int)
      modifies this`account
      ensures Value() == Refresh(old(Value()), now)
    {
      hide SumBy;
      if account.tradingDay != Some(now / DAY) {
        account := account.(tradingDay := Some(now / DAY), startingDayEquity := Some(account.equity), dailyPnl := 0.0);
      }
      account := account.(unrealized := SumBy(OpenUnrealized, positions), marginUsed := SumBy(OpenMargin, positions),
                          exposure := SumBy(OpenNotional, positions));
      account := account.(equity := Max(EQUITY_FLOOR, account.initialEquity + account.realized + account.unrealized
                                                      - SumBy(OpenEntryFee, positions)));
      account := account.(available := Max(0.0, account.equity - account.marginUsed),
                          peak := Max(account.peak, account.equity));
      account := account.(drawdown := account.peak - account.equity);
    }

    method ExecuteEntry(c: PaperConfig, r: EntryRequest, q: Quote, now: int) returns (verdict: Verdict)
      modifies this
      ensures (verdict, Value()) == Enter(c, old(Value()), r, q, now)
    {
      hide Refreshed, EntryBlocked, BasePrice, Drift, Fills.SlippedPrice, Fills.Fee;
      if EntryBlocked(c, Value(), r, q, now) {
        return Refused;
      }
      var base := BasePrice(c, q, r.direction, true);
      if base.None? {
        return Refused;
      }
      var requested := base.value;
      var executed := Fills.SlippedPrice(FillRates(c), requested, r.direction, true);
      var theoretical := if r.entry.Some? then r.entry.value else requested;
      if r.maxDrift.Some? && Drift(executed, theoretical) > r.maxDrift.value {
        return Refused;
      }
      if executed <= 0.0 {
        return Raised;
      }
      AllowedHasLevels(c, Value(), r, q, now);
      var position := NewPosition(c, Value(), r, requested, executed, now);
      orders := orders + EntryOrders(position, requested);
      positions := positions + [position];
      account := account.(fees := account.fees + position.entryFee,
                          slippageCost := account.slippageCost + position.slippage);
      counters := counters.(entries := counters.entries + 1);
      nextId := nextId + 4;
      RefreshAccount(now);
      verdict := Done;
    }

    /** Marks one position; false when the configured price is unavailable. */
    method MarkPosition(c: PaperConfig, i: nat, q: Quote) returns (marked: bool)
      requires i < |positions|
      modifies this`positions
      ensures marked <==> MarkQuote(c, old(positions[i]), q).Some?
      ensures positions ==
        if marked then old(positions)[i := Marked(old(positions[i]), MarkQuote(c, old(positions[i]), q).value)]
                           else old(positions)
    {
      var price := MarkQuote(c, positions[i], q);
      marked := price.Some?;
      if marked {
        positions := positions[i := Marked(positions[i], price.value)];
      }
    }

    /** Every pending order of the setup is filled or cancelled. */
    method SettleOrders(setupId: string, reason: ExitReason)
      modifies this`orders
      ensures orders == SettleAll(old(orders), setupId, reason)
    {
      hide SettleAll;
      ghost var before := orders;
      for i := 0 to |orders|
        invariant |orders| == |before|
        invariant forall k :: 0 <= k < i ==> orders[k] == Settled(before[k], setupId, reason)
        invariant forall k :: i <= k < |orders| ==> orders[k] == before[k]
      {
        var order := orders[i];
        if order.setupId == setupId && order.status == Pending {
          var hit := (reason == StopLoss && order.orderType == PaperStop)
            || (reason == TakeProfit && order.orderType == PaperTarget);
          orders := orders[i := order.(status := if hit then OrderFilled else Cancelled)];
        }
      }
      assert orders == SettleAll(before, setupId, reason);
    }

    method ExecuteExit(c: PaperConfig, i: nat, q: Quote, reason: ExitReason, now: int) returns (verdict: Verdict)
      requires i < |positions|
      modifies this
      ensures (verdict, Value()) == Exit(c, old(Value()), i, q, reason, now)
    {
      hide Refreshed, QuoteFresh, BasePrice, Fills.SlippedPrice, Fills.Fee, SettleAll;
      var p := positions[i];
      if !QuoteFresh(c, q, now) || p.status != IsOpen {
        return Refused;
      }
      var base := BasePrice(c, q, p.direction, false);
      if base.None? {
        return Refused;
      }
      var closed := ClosedPosition(c, p, base.value);
      positions := positions[i := closed];
      SettleOrders(p.setupId, reason);
      var trade := TradeOf(c, p, base.value, reason);
      trades := trades + [trade];
      account := account.(realized := account.realized + trade.net, dailyPnl := account.dailyPnl + trade.net,
                          fees := account.fees + closed.exitFee,
                          slippageCost := account.slippageCost + (closed.slippage - p.slippage),
                          consecutiveLosses := if trade.net < 0.0 then account.consecutiveLosses + 1 else 0);
      counters := counters.(exits := counters.exits + 1);
      RefreshAccount(now);
      verdict := Done;
    }

    method ExitPosition(c: PaperConfig, session: bool, i: nat, q: Quote, reason: ExitReason, now: int)
      returns (verdict: Verdict)
      requires i < |positions|
      modifies this
      ensures (verdict, Value()) == EngineExit(c, old(Value()), session, i, q, reason, now)
    {
      hide BookExit, BasePrice, QuoteFresh;
      if !session {
        return Refused;
      }
      var symbol := positions[i].symbol;
      verdict := ExecuteExit(c, i, q, reason, now);
      if verdict == Done {
        cooldowns := cooldowns[symbol := now + c.cooldownSeconds];
      }
    }

    method ProcessSetup(c: PaperConfig, setupId: SetupId, request: Option<EntryRequest>, quote: Option<Quote>, now: int)
      requires request.Some? ==> request.value.setupId == setupId
      modifies this
      ensures Value() == Process(c, old(Value()), setupId, request, quote, now)
    {
      hide Enter;
      var seen := setupId in setups;
      if seen && setups[setupId] != Armed {
        return;
      }
      if !seen {
        counters := counters.(detected := counters.detected + 1);
      }
      if request.None? || !request.value.allowed {
        counters := counters.(rejected := counters.rejected + 1);
        setups := setups[setupId := RejectedByRisk];
        return;
      }
      if !seen {
        counters := counters.(approved := counters.approved + 1);
      }
      var verdict := Refused;
      if quote.Some? {
        verdict := ExecuteEntry(c, request.value, quote.value, now);
      }
      if verdict != Raised {
        setups := setups[setupId := if verdict == Done then Entered else Armed];
      }
    }

    method InvalidateSetup(c: PaperConfig, session: bool, setupId: SetupId, status: SetupStatus, quote: Option<Quote>,
                           now: int)
      requires status == Invalidated || status == Expired
      modifies this
      ensures Value() == Invalidate(c, old(Value()), session, setupId, status, quote, now)
    {
      hide EngineExit, OpenOf;
      if setupId in setups && setups[setupId] != Entered {
        setups := setups[setupId := status];
      }
      var i := OpenOf(positions, setupId);
      if i < |positions| && quote.Some? {
        var verdict := ExitPosition(c, session, i, quote.value, Invalidation, now);
      }
    }

    method MonitorPosition(c: PaperConfig, session: bool, i: nat, quote: Option<Quote>, now: int) returns (stale: bool)
      requires i < |positions|
      modifies this
      ensures (stale, Value()) == MonitorOne(c, old(Value()), session, i, quote, now)
      ensures |positions| == old(|positions|)
    {
      hide EngineExit, QuoteFresh, MarkQuote, Marked, TriggerReason;
      if quote.None? || !QuoteFresh(c, quote.value, now) {
        return true;
      }
      var marked := MarkPosition(c, i, quote.value);
      if !marked {
        return true;
      }
      var reason := TriggerReason(c, positions[i], now);
      if reason.None? {
        return false;
      }
      ghost var before := Value();
      var verdict := ExitPosition(c, session, i, quote.value, reason.value, now);
      ExitKeepsLength(c, before, session, i, quote.value, reason.value, now);
      stale := verdict != Done;
    }

    /** One pass over the positions that are open, then a refresh. */
    method MonitorOnce(c: PaperConfig, session: bool, quotes: map<string, Quote>, now: int) returns (stale: bool)
      modifies this
      ensures (stale, Value()) == MonitorFrom(c, old(Value()), session, 0, quotes, now)
    {
      hide MonitorOne, Refresh;
      stale := false;
      ghost var total := MonitorFrom(c, Value(), session, 0, quotes, now);
      for i := 0 to |positions|
        invariant |positions| == |total.1.positions|
        invariant i <= |positions|
        invariant var rest := MonitorFrom(c, Value(), session, i, quotes, now); total == (stale || rest.0, rest.1)
      {
        if positions[i].status == IsOpen {
          var one := MonitorPosition(c, session, i, QuoteOf(quotes, positions[i].symbol), now);
          stale := stale || one;
        }
      }
      RefreshAccount(now);
    }

    /** Recovery after a restart; returns the number of repairs. */
    method Reconcile() returns (warnings: nat)
      modifies this`orders, this`positions
      ensures Value() == Reconciled(old(Value()))
      ensures old(Value()) == Reconciled(old(Value())) ==> warnings == 0
    {
      hide HasOrder, HasOpen;
      warnings := 0;
      ghost var os, ps := orders, positions;
      for i := 0 to |orders|
        invariant |orders| == |os| && positions == ps
        invariant forall k :: 0 <= k < i ==> orders[k] == RepairedOrder(os[k], ps)
        invariant forall k :: i <= k < |os| ==> orders[k] == os[k]
        invariant (forall k :: 0 <= k < i ==> orders[k] == os[k]) ==> warnings == 0
      {
        var o := orders[i];
        if o.status == OrderFilled && o.orderType == MarketEntry && !HasOrder(positions, o.orderId) {
          orders := orders[i := o.(status := Rejected)];
          warnings := warnings + 1;
        }
      }
      var seen: set<string> := {};
      NoneOpen(ps);
      for i := 0 to |positions|
        invariant |positions| == |ps| && orders == Reconciled(old(Value())).orders
        invariant forall k :: 0 <= k < i ==> positions[k] == Quarantined(ps, k)
        invariant forall k :: i <= k < |ps| ==> positions[k] == ps[k]
        invariant forall symbol :: symbol in seen <==> HasOpen(ps[..i], symbol)
        invariant orders == os && (forall k :: 0 <= k < i ==> positions[k] == ps[k]) ==> warnings == 0
      {
        var p := positions[i];
        HasOpenSnoc(ps, i);
        if p.status == IsOpen {
          if p.symbol in seen {
            positions := positions[i := p.(status := Closing)];
            warnings := warnings + 1;
          }
          seen := seen + {p.symbol};
        }
      }
    }
  }

  lemma ExitKeepsLength(c: PaperConfig, s: Ledger, session: bool, i: nat, q: Quote, reason: ExitReason, now: int)
    requires i < |s.positions|
    ensures |EngineExit(c, s, session, i, q, reason, now).1.positions| == |s.positions|
  {
    hide Refreshed, ClosedPosition, TradeOf, SettleAll, QuoteFresh, BasePrice;
  }

  lemma NoneOpen(ps: seq<Position>)
    ensures forall symbol :: !HasOpen(ps[..0], symbol)
  {
  }

  lemma HasOpenSnoc(ps: seq<Position>, i: nat)
    requires i < |ps|
    ensures forall symbol :: HasOpen(ps[..i + 1], symbol)
              <==> HasOpen(ps[..i], symbol) || (ps[i].status == IsOpen && ps[i].symbol == symbol)
  {
    forall symbol
      ensures HasOpen(ps[..i + 1], symbol)
        <==> HasOpen(ps[..i], symbol) || (ps[i].status == IsOpen && ps[i].symbol == symbol)
    {
      assert forall k :: 0 <= k < i ==> ps[..i + 1][k] == ps[..i][k] == ps[k];
      assert ps[..i + 1][i] == ps[i];
    }
  }
}
