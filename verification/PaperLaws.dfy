/** What every reachable paper-trading state keeps. */
module PaperLaws {
  import opened Common
  import opened PaperLedger
  import Fills = BacktestExecution

  // ---- Structure

  /** The three orders of one position, in the order entry appends them. */
  ghost predicate OrdersOf(p: Position, entry: Order, stop: Order, target: Order) {
    && entry.orderType == MarketEntry && stop.orderType == PaperStop && target.orderType == PaperTarget
    && entry.setupId == stop.setupId == target.setupId == p.setupId
    && entry.key == Key(MarketEntry, p.setupId) && stop.key == Key(PaperStop, p.setupId)
      && target.key == Key(PaperTarget, p.setupId)
    && entry.orderId == p.orderId && entry.status == OrderFilled
    && (stop.status == Pending <==> p.status == IsOpen)
    && (target.status == Pending <==> p.status == IsOpen)
  }

  /** Position i owns orders 3i, 3i+1 and 3i+2; there are no others. */
  ghost predicate Aligned(orders: seq<Order>, positions: seq<Position>) {
    && |orders| == 3 * |positions|
    && forall i :: 0 <= i < |positions| ==> OrdersOf(positions[i], orders[3 * i], orders[3 * i + 1], orders[3 * i + 2])
  }

  predicate BothOpenSameSymbol(p: Position, q: Position) {
    p.status == IsOpen && q.status == IsOpen && p.symbol == q.symbol
  }

  ghost predicate PositionsDistinct(positions: seq<Position>, nextId: nat) {
    && (forall i :: 0 <= i < |positions| ==> positions[i].positionId < nextId && positions[i].status != Closing)
    && (forall i, j :: 0 <= i < j < |positions| ==>
          && positions[i].setupId != positions[j].setupId
          && positions[i].positionId != positions[j].positionId
          && !BothOpenSameSymbol(positions[i], positions[j]))
  }

  predicate RecordsClosed(t: Trade, p: Position) {
    p.positionId == t.positionId && p.status == Closed && p.realized == t.net
  }

  predicate HasPosition(t: Trade, positions: seq<Position>) {
    exists i :: 0 <= i < |positions| && RecordsClosed(t, positions[i])
  }

  predicate HasTrade(p: Position, trades: seq<Trade>) {
    exists i :: 0 <= i < |trades| && RecordsClosed(trades[i], p)
  }

  /** Trades and closed positions correspond one to one. */
  ghost predicate TradesMatch(trades: seq<Trade>, positions: seq<Position>) {
    && (forall i, j :: 0 <= i < j < |trades| ==> trades[i].positionId != trades[j].positionId)
    && (forall t <- trades :: HasPosition(t, positions))
    && (forall p <- positions :: p.status == Closed ==> HasTrade(p, trades))
  }

  ghost predicate SetupsMatch(setups: map<string, SetupStatus>, positions: seq<Position>) {
    && (forall p <- positions :: p.setupId in setups && setups[p.setupId] == Entered)
    && (forall id <- setups :: setups[id] == Entered ==> exists p <- positions :: p.setupId == id)
  }

  ghost predicate Structured(s: Ledger) {
    && Aligned(s.orders, s.positions)
    && PositionsDistinct(s.positions, s.nextId)
    && TradesMatch(s.trades, s.positions)
    && s.counters.entries == |s.positions|
    && s.counters.exits == |s.trades|
  }

  // ---- Money

  function NetOf(t: Trade): real { t.net }
  function FeesOf(t: Trade): real { t.entryFee + t.exitFee }
  function SlippageOf(t: Trade): real { t.slippage }
  function OpenSlippage(p: Position): real { if p.status == IsOpen then p.slippage else 0.0 }

  /** The account's running totals are the totals of the trades and open positions. */
  ghost predicate Conserved(s: Ledger) {
    && s.account.realized == SumBy(NetOf, s.trades)
    && s.account.fees == SumBy(FeesOf, s.trades) + SumBy(OpenEntryFee, s.positions)
    && s.account.slippageCost == SumBy(SlippageOf, s.trades) + SumBy(OpenSlippage, s.positions)
    && IsTrailingRun(NetOf, s.trades, s.account.consecutiveLosses)
    && (forall t <- s.trades :: t.net == t.gross - t.entryFee - t.exitFee)
  }

  /** What `refresh_account` leaves: equity from the lists, drawdown from the peak. */
  ghost predicate Current(s: Ledger) {
    && s.account.equity == Max(EQUITY_FLOOR,
         s.account.initialEquity + SumBy(NetOf, s.trades)
           + SumBy(OpenUnrealized, s.positions) - SumBy(OpenEntryFee, s.positions))
    && s.account.marginUsed == SumBy(OpenMargin, s.positions)
    && s.account.exposure == SumBy(OpenNotional, s.positions)
    && s.account.available == Max(0.0, s.account.equity - s.account.marginUsed)
  }

  ghost predicate PeakHolds(a: Account) {
    a.peak >= a.equity > 0.0 && a.drawdown == a.peak - a.equity >= 0.0
  }

  ghost predicate Sound(s: Ledger) {
    Structured(s) && Conserved(s) && PeakHolds(s.account)
  }

  lemma RefreshSound(s: Ledger, now: int)
    requires Structured(s) && Conserved(s)
    ensures Sound(Refresh(s, now)) && Current(Refresh(s, now))
  {
    hide Structured, SumBy, OpenUnrealized, OpenMargin, OpenNotional, OpenEntryFee, IsTrailingRun;
    assert Structured(Refresh(s, now)) by {
      StructuredDependsOn(s, Refresh(s, now));
    }
  }

  lemma StructuredDependsOn(s: Ledger, t: Ledger)
    requires Structured(s)
    requires s.orders == t.orders && s.positions == t.positions && s.trades == t.trades && s.nextId == t.nextId
    requires s.counters.entries == t.counters.entries && s.counters.exits == t.counters.exits
    ensures Structured(t)
  {
  }

  // ---- Entry

  lemma FilledOrderOf(s: Ledger, i: nat)
    requires Structured(s) && i < |s.positions|
    ensures HasFilledOrder(s.orders, s.positions[i].setupId)
  {
    hide PositionsDistinct, TradesMatch;
    assert OrdersOf(s.positions[i], s.orders[3 * i], s.orders[3 * i + 1], s.orders[3 * i + 2]);
  }

  lemma AlignedExtend(orders: seq<Order>, positions: seq<Position>, p: Position, requested: real)
    requires Aligned(orders, positions) && p.status == IsOpen
    ensures Aligned(orders + EntryOrders(p, requested), positions + [p])
  {
    hide Key;
    var os, ps := orders + EntryOrders(p, requested), positions + [p];
    forall i | 0 <= i < |ps|
      ensures OrdersOf(ps[i], os[3 * i], os[3 * i + 1], os[3 * i + 2])
    {
      if i < |positions| {
        assert OrdersOf(positions[i], orders[3 * i], orders[3 * i + 1], orders[3 * i + 2]);
      }
    }
  }

  lemma TradesMatchExtend(trades: seq<Trade>, positions: seq<Position>, p: Position)
    requires TradesMatch(trades, positions) && p.status == IsOpen
    ensures TradesMatch(trades, positions + [p])
  {
    hide HasTrade;
    var ps := positions + [p];
    forall t | t in trades
      ensures HasPosition(t, ps)
    {
      var i :| 0 <= i < |positions| && RecordsClosed(t, positions[i]);
      assert RecordsClosed(t, ps[i]);
    }
  }

  lemma BookedSound(s: Ledger, p: Position, requested: real, now: int)
    requires Structured(s) && Conserved(s)
    requires p.status == IsOpen && p.positionId == s.nextId + 1
    requires !HasFilledOrder(s.orders, p.setupId) && !HasOpen(s.positions, p.symbol)
    ensures Sound(Booked(s, p, requested, now)) && Current(Booked(s, p, requested, now))
  {
    hide Refresh, Aligned, TradesMatch, EntryOrders, SumBy, HasFilledOrder, IsTrailingRun;
    var a := s.account;
    var t := s.(orders := s.orders + EntryOrders(p, requested), positions := s.positions + [p],
                account := a.(fees := a.fees + p.entryFee, slippageCost := a.slippageCost + p.slippage),
                counters := s.counters.(entries := s.counters.entries + 1), nextId := s.nextId + 4);
    AlignedExtend(s.orders, s.positions, p, requested);
    TradesMatchExtend(s.trades, s.positions, p);
    forall i | 0 <= i < |s.positions|
      ensures s.positions[i].setupId != p.setupId
    {
      FilledOrderOf(s, i);
    }
    SumBySnoc(OpenEntryFee, s.positions, p);
    SumBySnoc(OpenSlippage, s.positions, p);
    RefreshSound(t, now);
  }

  lemma EnterSound(c: PaperConfig, s: Ledger, r: EntryRequest, q: Quote, now: int)
    requires Structured(s) && Conserved(s)
    ensures var (verdict, t) := Enter(c, s, r, q, now);
      && (verdict == Done ==>
            && Sound(t) && Current(t) && t.setups == s.setups
            && exists p :: t.positions == s.positions + [p] && p.setupId == r.setupId)
      && (verdict != Done ==> t == s)
  {
    hide Structured, Conserved, Sound, Current, HasFilledOrder, HasOpen, Booked, EntryOrders, QuoteFresh, Drift,
      BasePrice;
    hide Fills.SlippedPrice;
    if !EntryBlocked(c, s, r, q, now) {
      var base := BasePrice(c, q, r.direction, true);
      if base.Some? {
        var executed := Fills.SlippedPrice(FillRates(c), base.value, r.direction, true);
        var p := NewPosition(c, s, r, base.value, executed, now);
        BookedSound(s, p, base.value, now);
        BookedFrame(s, p, base.value, now);
      }
    }
  }

  lemma BookedFrame(s: Ledger, p: Position, requested: real, now: int)
    ensures var t := Booked(s, p, requested, now); t.positions == s.positions + [p] && t.setups == s.setups
  {
    hide Refreshed;
  }

  // ---- Mark

  lemma MarkedSound(s: Ledger, i: nat, price: real)
    requires Structured(s) && Conserved(s) && i < |s.positions|
    ensures var t := s.(positions := s.positions[i := Marked(s.positions[i], price)]); Structured(t) && Conserved(t)
  {
    hide SumBy, TradesMatch, Aligned, Key;
    var p := s.positions[i];
    var q := Marked(p, price);
    var ps := s.positions[i := q];
    assert p.status == q.status && p.entryFee == q.entryFee && p.slippage == q.slippage && p.realized == q.realized;
    SumByUpdate(OpenEntryFee, s.positions, i, q);
    SumByUpdate(OpenSlippage, s.positions, i, q);
    AlignedUpdate(s.orders, s.positions, i, q);
    TradesMatchUpdate(s.trades, s.positions, i, q);
  }

  lemma AlignedUpdate(orders: seq<Order>, positions: seq<Position>, i: nat, q: Position)
    requires Aligned(orders, positions) && i < |positions|
    requires q.setupId == positions[i].setupId && q.orderId == positions[i].orderId && q.status == positions[i].status
    ensures Aligned(orders, positions[i := q])
  {
    hide Key;
    assert OrdersOf(positions[i], orders[3 * i], orders[3 * i + 1], orders[3 * i + 2]);
  }

  lemma TradesMatchUpdate(trades: seq<Trade>, positions: seq<Position>, i: nat, q: Position)
    requires TradesMatch(trades, positions) && i < |positions|
    requires var p := positions[i]; q.positionId == p.positionId && q.status == p.status && q.realized == p.realized
    ensures TradesMatch(trades, positions[i := q])
  {
    var ps := positions[i := q];
    forall t | t in trades
      ensures HasPosition(t, ps)
    {
      var k :| 0 <= k < |positions| && RecordsClosed(t, positions[k]);
      assert RecordsClosed(t, ps[k]);
    }
    forall x | x in ps && x.status == Closed
      ensures HasTrade(x, trades)
    {
      if x == q {
        assert positions[i] in positions;
        var k :| 0 <= k < |trades| && RecordsClosed(trades[k], positions[i]);
        assert RecordsClosed(trades[k], x);
      }
    }
  }

  // ---- Exit

  lemma AlignedSettle(orders: seq<Order>, positions: seq<Position>, i: nat, q: Position, reason: ExitReason,
                      nextId: nat)
    requires Aligned(orders, positions) && PositionsDistinct(positions, nextId) && i < |positions|
    requires q.setupId == positions[i].setupId && q.orderId == positions[i].orderId && q.status == Closed
    ensures Aligned(SettleAll(orders, q.setupId, reason), positions[i := q])
  {
    hide Key, SettleAll, BothOpenSameSymbol;
    var os, ps := SettleAll(orders, q.setupId, reason), positions[i := q];
    forall k | 0 <= k < |ps|
      ensures OrdersOf(ps[k], os[3 * k], os[3 * k + 1], os[3 * k + 2])
    {
      assert OrdersOf(positions[k], orders[3 * k], orders[3 * k + 1], orders[3 * k + 2]);
      assert k != i ==> positions[k].setupId != q.setupId;
    }
  }

  lemma TradesMatchClose(trades: seq<Trade>, positions: seq<Position>, i: nat, q: Position, t: Trade, nextId: nat)
    requires TradesMatch(trades, positions) && PositionsDistinct(positions, nextId)
    requires i < |positions| && positions[i].status == IsOpen
    requires q.positionId == positions[i].positionId && RecordsClosed(t, q)
    ensures TradesMatch(trades + [t], positions[i := q])
  {
    hide BothOpenSameSymbol;
    var ts, ps := trades + [t], positions[i := q];
    forall u | u in trades
      ensures u.positionId != t.positionId && HasPosition(u, ps)
    {
      var k :| 0 <= k < |positions| && RecordsClosed(u, positions[k]);
      assert k != i && RecordsClosed(u, ps[k]);
      assert positions[k].positionId != positions[i].positionId;
    }
    assert RecordsClosed(t, ps[i]) && RecordsClosed(ts[|trades|], q);
    forall x | x in ps && x.status == Closed
      ensures HasTrade(x, ts)
    {
      if x != q {
        assert x in positions;
        var k :| 0 <= k < |trades| && RecordsClosed(trades[k], x);
        assert RecordsClosed(ts[k], x);
      }
    }
  }

  lemma DistinctClose(positions: seq<Position>, i: nat, q: Position, nextId: nat)
    requires PositionsDistinct(positions, nextId) && i < |positions|
    requires q.setupId == positions[i].setupId && q.positionId == positions[i].positionId && q.status == Closed
    ensures PositionsDistinct(positions[i := q], nextId)
  {
  }

  /** Closing moves an open position's fees and slippage to its trade. */
  lemma ExitTotals(c: PaperConfig, s: Ledger, i: nat, requested: real, reason: ExitReason)
    requires Conserved(s) && i < |s.positions| && s.positions[i].status == IsOpen
    ensures var p, closed, t := s.positions[i], ClosedPosition(c, s.positions[i], requested),
      TradeOf(c, s.positions[i], requested, reason);
      && SumBy(NetOf, s.trades + [t]) == s.account.realized + t.net
      && SumBy(FeesOf, s.trades + [t]) + SumBy(OpenEntryFee, s.positions[i := closed])
        == s.account.fees + closed.exitFee
      && SumBy(SlippageOf, s.trades + [t]) + SumBy(OpenSlippage, s.positions[i := closed])
         == s.account.slippageCost + (closed.slippage - p.slippage)
      && t.net == t.gross - t.entryFee - t.exitFee
      && IsTrailingRun(NetOf, s.trades + [t], if t.net < 0.0 then s.account.consecutiveLosses + 1 else 0)
  {
    hide SumBy, Fills.SlippedPrice, Fills.Fee;
    var closed, t := ClosedPosition(c, s.positions[i], requested), TradeOf(c, s.positions[i], requested, reason);
    SumBySnoc(NetOf, s.trades, t);
    SumBySnoc(FeesOf, s.trades, t);
    SumBySnoc(SlippageOf, s.trades, t);
    SumByUpdate(OpenEntryFee, s.positions, i, closed);
    SumByUpdate(OpenSlippage, s.positions, i, closed);
  }

  lemma BookExitSound(c: PaperConfig, s: Ledger, i: nat, requested: real, reason: ExitReason, now: int)
    requires Structured(s) && Conserved(s) && i < |s.positions| && s.positions[i].status == IsOpen
    ensures var t := BookExit(c, s, i, requested, reason, now);
      && Sound(t) && Current(t) && t.setups == s.setups
      && |t.positions| == |s.positions| && forall k :: 0 <= k < |s.positions| ==>
           t.positions[k].setupId == s.positions[k].setupId
  {
    hide Refresh, Aligned, TradesMatch, PositionsDistinct, SettleAll, SumBy, IsTrailingRun, Fills.SlippedPrice,
      Fills.Fee;
    var p := s.positions[i];
    var closed, trade, a := ClosedPosition(c, p, requested), TradeOf(c, p, requested, reason), s.account;
    AlignedSettle(s.orders, s.positions, i, closed, reason, s.nextId);
    TradesMatchClose(s.trades, s.positions, i, closed, trade, s.nextId);
    DistinctClose(s.positions, i, closed, s.nextId);
    ExitTotals(c, s, i, requested, reason);
    var before := s.(positions := s.positions[i := closed], orders := SettleAll(s.orders, p.setupId, reason),
                     trades := s.trades + [trade],
                     account := a.(realized := a.realized + trade.net, dailyPnl := a.dailyPnl + trade.net,
                                   fees := a.fees + closed.exitFee,
                                   slippageCost := a.slippageCost + (closed.slippage - p.slippage),
                                   consecutiveLosses := if trade.net < 0.0 then a.consecutiveLosses + 1 else 0),
                     counters := s.counters.(exits := s.counters.exits + 1));
    RefreshSound(before, now);
    assert BookExit(c, s, i, requested, reason, now) == Refresh(before, now);
    RefreshFrame(before, now);
  }

  lemma RefreshFrame(s: Ledger, now: int)
    ensures Refresh(s, now) == s.(account := Refresh(s, now).account)
  {
  }

  lemma EngineExitSound(c: PaperConfig, s: Ledger, session: bool, i: nat, q: Quote, reason: ExitReason, now: int)
    requires Structured(s) && Conserved(s) && i < |s.positions|
    ensures var (verdict, t) := EngineExit(c, s, session, i, q, reason, now);
      && (verdict == Done ==> Sound(t) && Current(t))
      && (verdict != Done ==> t == s)
      && t.setups == s.setups && |t.positions| == |s.positions|
      && forall k :: 0 <= k < |s.positions| ==> t.positions[k].setupId == s.positions[k].setupId
  {
    hide Structured, Conserved, BookExit, SumBy, Current, QuoteFresh, BasePrice;
    var p := s.positions[i];
    var base := BasePrice(c, q, p.direction, false);
    if QuoteFresh(c, q, now) && p.status == IsOpen && base.Some? {
      BookExitSound(c, s, i, base.value, reason, now);
      CooldownsIrrelevant(BookExit(c, s, i, base.value, reason, now), p.symbol, now + c.cooldownSeconds);
    }
  }

  lemma CooldownsIrrelevant(s: Ledger, symbol: string, until: int)
    requires Sound(s) && Current(s)
    ensures var t := s.(cooldowns := s.cooldowns[symbol := until]); Sound(t) && Current(t)
  {
    hide SumBy, IsTrailingRun;
  }
}
