/** Runs of the paper-trading engine: any interleaving of its atomic steps. */
module PaperRuns {
  import opened Common
  import opened Candles
  import opened PaperLedger
  import opened PaperLaws
  import Fills = BacktestExecution

  /**
   One step. `session` says whether a session is active; a quote is None when
   none is available. Positions are named by index. A pass lists the open positions
   before its awaits, so MonitorPosition may meet one that has been closed since.
   */
  datatype Action =
    | ProcessSetup(setupId: SetupId, request: Option<EntryRequest>, quote: Option<Quote>, now: int)
    | InvalidateSetup(session: bool, setupId: SetupId, expired: bool, quote: Option<Quote>, now: int)
    | MonitorPosition(session: bool, i: nat, quote: Option<Quote>, now: int)
    | ClosePosition(session: bool, i: nat, exitQuote: Quote, reason: ExitReason, now: int)
    | RefreshAccount(now: int)
    | Reload(now: int)

  function Bound(request: Option<EntryRequest>, setupId: SetupId): Option<EntryRequest> {
    if request.Some? then Some(request.value.(setupId := setupId)) else None
  }

  function Step(c: PaperConfig, s: Ledger, a: Action): Ledger {
    match a
    case ProcessSetup(id, request, quote, now) => Process(c, s, id, Bound(request, id), quote, now)
    case InvalidateSetup(session, id, expired, quote, now) =>
      Invalidate(c, s, session, id, if expired then Expired else Invalidated, quote, now)
    case MonitorPosition(session, i, quote, now) =>
      if i < |s.positions| then MonitorOne(c, s, session, i, quote, now).1 else s
    case ClosePosition(session, i, quote, reason, now) =>
      if i < |s.positions| then EngineExit(c, s, session, i, quote, reason, now).1 else s
    case RefreshAccount(now) => Refresh(s, now)
    case Reload(now) => Refresh(Reconciled(s), now)
  }

  function Run(c: PaperConfig, s: Ledger, actions: seq<Action>): Ledger
    decreases |actions|
  {
    if actions == [] then s else Run(c, Step(c, s, actions[0]), actions[1..])
  }

  function NewLedger(initialEquity: PosReal, now: int): Ledger {
    Ledger(Account(initialEquity, initialEquity, initialEquity, 0.0, 0.0, 0.0, 0.0, 0.0, 0.0, initialEquity, 0.0, 0.0,
                   Some(initialEquity), Some(now / DAY), 0),
           [], [], [], map[], Counters(0, 0, 0, 0, 0), map[], 0)
  }

  ghost predicate Good(s: Ledger) { Sound(s) && SetupsMatch(s.setups, s.positions) }

  // ---- The invariant is kept by every step

  lemma NoteGood(s: Ledger, setupId: string, status: SetupStatus)
    requires Good(s) && status != Entered
    requires setupId in s.setups ==> s.setups[setupId] != Entered
    ensures Good(Note(s, setupId, status))
  {
    hide Sound;
    SoundFrame(s, Note(s, setupId, status));
  }

  /** Counters other than entries and exits, and the setup map, are outside `Sound`. */
  lemma SoundFrame(s: Ledger, t: Ledger)
    requires Sound(s)
    requires t == s.(setups := t.setups, counters := t.counters, cooldowns := t.cooldowns)
    requires t.counters.entries == s.counters.entries && t.counters.exits == s.counters.exits
    ensures Sound(t)
  {
    hide Structured, SumBy, IsTrailingRun;
    StructuredDependsOn(s, t);
  }

  lemma SetupsMatchEnter(setups: map<string, SetupStatus>, positions: seq<Position>, p: Position)
    requires SetupsMatch(setups, positions)
    ensures SetupsMatch(setups[p.setupId := Entered], positions + [p])
  {
    var ps := positions + [p];
    forall id | id in setups && setups[id] == Entered
      ensures exists q <- ps :: q.setupId == id
    {
      var q :| q in positions && q.setupId == id;
      assert q in ps;
    }
    assert p in ps;
  }

  lemma ProcessGood(c: PaperConfig, s: Ledger, setupId: SetupId, request: Option<EntryRequest>, quote: Option<Quote>,
                    now: int)
    requires Good(s) && (request.Some? ==> request.value.setupId == setupId)
    ensures Good(Process(c, s, setupId, request, quote, now))
  {
    hide Sound, SetupsMatch, Enter, Current;
    var seen := setupId in s.setups;
    if !seen || s.setups[setupId] == Armed {
      var n := s.counters;
      var s1 := if seen then s else s.(counters := n.(detected := n.detected + 1));
      SoundFrame(s, s1);
      if request.None? || !request.value.allowed {
        var r := s1.(counters := s1.counters.(rejected := s1.counters.rejected + 1));
        SoundFrame(s1, r);
        NoteGood(r, setupId, RejectedByRisk);
      } else {
        var s2 := if seen then s1 else s1.(counters := s1.counters.(approved := s1.counters.approved + 1));
        SoundFrame(s1, s2);
        if quote.None? {
          NoteGood(s2, setupId, Armed);
        } else {
          ProcessEnterGood(c, s2, request.value, quote.value, now);
        }
      }
    }
  }

  lemma ProcessEnterGood(c: PaperConfig, s: Ledger, r: EntryRequest, q: Quote, now: int)
    requires Good(s)
    requires r.setupId in s.setups ==> s.setups[r.setupId] != Entered
    ensures var (verdict, t) := Enter(c, s, r, q, now);
      && (verdict == Done ==> Good(Note(t, r.setupId, Entered)))
      && (verdict == Refused ==> Good(Note(t, r.setupId, Armed)))
      && (verdict == Raised ==> t == s)
  {
    hide Structured, Conserved, PeakHolds, Current, SetupsMatch, Enter;
    var (verdict, t) := Enter(c, s, r, q, now);
    EnterSound(c, s, r, q, now);
    if verdict == Done {
      var p :| t.positions == s.positions + [p] && p.setupId == r.setupId;
      SetupsMatchEnter(s.setups, s.positions, p);
      SoundFrame(t, Note(t, r.setupId, Entered));
    } else {
      NoteGood(s, r.setupId, Armed);
    }
  }

  lemma SetupsMatchSame(setups: map<string, SetupStatus>, before: seq<Position>, after: seq<Position>)
    requires SetupsMatch(setups, before) && |before| == |after|
    requires forall k :: 0 <= k < |before| ==> after[k].setupId == before[k].setupId
    ensures SetupsMatch(setups, after)
  {
    forall p | p in after
      ensures p.setupId in setups && setups[p.setupId] == Entered
    {
      var k :| 0 <= k < |after| && after[k] == p;
      assert before[k] in before;
    }
    forall id | id in setups && setups[id] == Entered
      ensures exists p <- after :: p.setupId == id
    {
      var p :| p in before && p.setupId == id;
      var k :| 0 <= k < |before| && before[k] == p;
      assert after[k] in after;
    }
  }

  lemma EngineExitGood(c: PaperConfig, s: Ledger, session: bool, i: nat, q: Quote, reason: ExitReason, now: int)
    requires Good(s) && i < |s.positions|
    ensures Good(EngineExit(c, s, session, i, q, reason, now).1)
  {
    hide Structured, Conserved, PeakHolds, Current, SetupsMatch, EngineExit;
    EngineExitSound(c, s, session, i, q, reason, now);
    SetupsMatchSame(s.setups, s.positions, EngineExit(c, s, session, i, q, reason, now).1.positions);
  }

  lemma MonitorOneGood(c: PaperConfig, s: Ledger, session: bool, i: nat, quote: Option<Quote>, now: int)
    requires Good(s) && i < |s.positions|
    ensures Good(MonitorOne(c, s, session, i, quote, now).1)
  {
    hide Structured, Conserved, PeakHolds, SetupsMatch, EngineExit, Marked, QuoteFresh, MarkQuote, TriggerReason;
    var p := s.positions[i];
    if quote.Some? && QuoteFresh(c, quote.value, now) {
      var price := MarkQuote(c, p, quote.value);
      if price.Some? {
        MarkedSound(s, i, price.value);
        MarkedKeeps(p, price.value);
        var marked := Marked(p, price.value);
        var s1 := s.(positions := s.positions[i := marked]);
        SetupsMatchSame(s.setups, s.positions, s1.positions);
        var reason := TriggerReason(c, marked, now);
        if reason.Some? {
          EngineExitGood(c, s1, session, i, quote.value, reason.value, now);
        }
      }
    }
  }

  lemma MarkedKeeps(p: Position, price: real)
    ensures Marked(p, price).setupId == p.setupId && Marked(p, price).symbol == p.symbol
  {
  }

  lemma InvalidateGood(c: PaperConfig, s: Ledger, session: bool, setupId: SetupId, status: SetupStatus,
                       quote: Option<Quote>, now: int)
    requires Good(s) && (status == Invalidated || status == Expired)
    ensures Good(Invalidate(c, s, session, setupId, status, quote, now))
  {
    hide Sound, SetupsMatch, EngineExit, OpenOf;
    var s1 := if setupId in s.setups && s.setups[setupId] != Entered then Note(s, setupId, status) else s;
    if s1 != s {
      NoteGood(s, setupId, status);
    }
    var i := OpenOf(s1.positions, setupId);
    if i < |s1.positions| && quote.Some? {
      EngineExitGood(c, s1, session, i, quote.value, Invalidation, now);
    }
  }

  lemma RefreshGood(s: Ledger, now: int)
    requires Good(s)
    ensures Good(Refresh(s, now)) && Current(Refresh(s, now))
  {
    hide Structured, Conserved, PeakHolds, SetupsMatch, Refreshed, Current;
    RefreshSound(s, now);
  }

  /** Recovery of a state the engine reached finds nothing to repair. */
  lemma NothingToRepair(s: Ledger)
    requires Good(s)
    ensures Reconciled(s) == s
  {
    hide Conserved, PeakHolds, SetupsMatch, TradesMatch, Key;
    forall i | 0 <= i < |s.orders|
      ensures RepairedOrder(s.orders[i], s.positions) == s.orders[i]
    {
      var k := i / 3;
      assert i == 3 * k || i == 3 * k + 1 || i == 3 * k + 2;
      assert OrdersOf(s.positions[k], s.orders[3 * k], s.orders[3 * k + 1], s.orders[3 * k + 2]);
      assert s.positions[k].orderId == s.orders[3 * k].orderId;
    }
    forall i | 0 <= i < |s.positions|
      ensures Quarantined(s.positions, i) == s.positions[i]
    {
      forall k | 0 <= k < i
        ensures !BothOpenSameSymbol(s.positions[..i][k], s.positions[i])
      {
        assert s.positions[..i][k] == s.positions[k];
      }
    }
  }

  lemma StepGood(c: PaperConfig, s: Ledger, a: Action)
    requires Good(s)
    ensures Good(Step(c, s, a))
  {
    hide Sound, SetupsMatch, Process, Invalidate, MonitorOne, EngineExit, Refresh, Reconciled;
    match a
    case ProcessSetup(id, request, quote, now) => ProcessGood(c, s, id, Bound(request, id), quote, now);
    case InvalidateSetup(session, id, expired, quote, now) =>
      InvalidateGood(c, s, session, id, if expired then Expired else Invalidated, quote, now);
    case MonitorPosition(session, i, quote, now) =>
      if i < |s.positions| {
        MonitorOneGood(c, s, session, i, quote, now);
      }
    case ClosePosition(session, i, quote, reason, now) =>
      if i < |s.positions| {
        EngineExitGood(c, s, session, i, quote, reason, now);
      }
    case RefreshAccount(now) => RefreshGood(s, now);
    case Reload(now) =>
      NothingToRepair(s);
      RefreshGood(s, now);
  }

  lemma {:induction false} RunGood(c: PaperConfig, s: Ledger, actions: seq<Action>)
    requires Good(s)
    ensures Good(Run(c, s, actions))
    decreases |actions|
  {
    hide Sound, SetupsMatch, Step;
    if actions != [] {
      StepGood(c, s, actions[0]);
      RunGood(c, Step(c, s, actions[0]), actions[1..]);
    }
  }

  lemma NewGood(initialEquity: PosReal, now: int)
    ensures Good(NewLedger(initialEquity, now))
  {
  }

  /** From a new account, every run conserves money and keeps the structure. */
  lemma EveryRun(c: PaperConfig, initialEquity: PosReal, start: int, actions: seq<Action>)
    ensures var s := Run(c, NewLedger(initialEquity, start), actions);
      && Structured(s) && Conserved(s) && PeakHolds(s.account) && SetupsMatch(s.setups, s.positions)
      && Reconciled(s) == s
      && forall now :: Current(Refresh(s, now))
  {
    hide Run, Structured, Conserved, PeakHolds, SetupsMatch, Current, Refresh, Reconciled;
    NewGood(initialEquity, start);
    RunGood(c, NewLedger(initialEquity, start), actions);
    var s := Run(c, NewLedger(initialEquity, start), actions);
    NothingToRepair(s);
    forall now
      ensures Current(Refresh(s, now))
    {
      RefreshGood(s, now);
    }
  }

  // ---- Consequences, read off the invariant

  function PendingOf(orders: seq<Order>, setupId: string): nat {
    if orders == [] then 0
    else
      (if orders[0].setupId == setupId && orders[0].status == Pending then 1 else 0)
      + PendingOf(orders[1..], setupId)
  }

  lemma {:induction false} PendingCount(orders: seq<Order>, positions: seq<Position>, setupId: string)
    requires Aligned(orders, positions)
    requires forall i, j :: 0 <= i < j < |positions| ==> positions[i].setupId != positions[j].setupId
    ensures PendingOf(orders, setupId)
         == if exists i :: 0 <= i < |positions| && positions[i].setupId == setupId && positions[i].status == IsOpen
            then 2 else 0
    decreases |positions|
  {
    hide Key;
    if positions != [] {
      var rest := positions[1..];
      assert OrdersOf(positions[0], orders[3 * 0], orders[3 * 0 + 1], orders[3 * 0 + 2]);
      AlignedTail(orders, positions);
      assert orders[1..][1..][1..] == orders[3..];
      PendingCount(orders[3..], rest, setupId);
      assert PendingOf(orders, setupId)
          == (if positions[0].setupId == setupId && positions[0].status == IsOpen then 2 else 0)
            + PendingOf(orders[3..], setupId) by {
        ThreeSteps(orders, setupId);
      }
      if exists i :: 0 <= i < |rest| && rest[i].setupId == setupId && rest[i].status == IsOpen {
        var i :| 0 <= i < |rest| && rest[i].setupId == setupId && rest[i].status == IsOpen;
        assert positions[i + 1].setupId == setupId;
      }
    }
  }

  lemma ThreeSteps(orders: seq<Order>, setupId: string)
    requires |orders| >= 3
    ensures PendingOf(orders, setupId) == PendingOf(orders[3..], setupId)
      + (if orders[0].setupId == setupId && orders[0].status == Pending then 1 else 0)
      + (if orders[1].setupId == setupId && orders[1].status == Pending then 1 else 0)
      + (if orders[2].setupId == setupId && orders[2].status == Pending then 1 else 0)
  {
    assert orders[1..][0] == orders[1] && orders[2..][0] == orders[2];
    assert orders[1..][1..] == orders[2..] && orders[2..][1..] == orders[3..];
    assert PendingOf(orders[1..], setupId)
      == (if orders[1].setupId == setupId && orders[1].status == Pending then 1 else 0)
        + PendingOf(orders[2..], setupId);
    assert PendingOf(orders[2..], setupId)
      == (if orders[2].setupId == setupId && orders[2].status == Pending then 1 else 0)
        + PendingOf(orders[3..], setupId);
  }

  lemma AlignedTail(orders: seq<Order>, positions: seq<Position>)
    requires Aligned(orders, positions) && positions != []
    ensures Aligned(orders[3..], positions[1..])
  {
    hide OrdersOf;
    forall i | 0 <= i < |positions[1..]|
      ensures OrdersOf(positions[1..][i], orders[3..][3 * i], orders[3..][3 * i + 1], orders[3..][3 * i + 2])
    {
      assert OrdersOf(positions[i + 1], orders[3 * (i + 1)], orders[3 * (i + 1) + 1], orders[3 * (i + 1) + 2]);
    }
  }

  /** An open position has exactly two pending protective orders, any other setup none. */
  lemma TwoPendingPerOpenPosition(s: Ledger, setupId: string)
    requires Good(s)
    ensures PendingOf(s.orders, setupId)
         == if exists i ::
                 0 <= i < |s.positions| && s.positions[i].setupId == setupId && s.positions[i].status == IsOpen
            then 2 else 0
  {
    hide Conserved, Aligned;
    PendingCount(s.orders, s.positions, setupId);
  }

  lemma KeyInjective(a: OrderType, x: SetupId, b: OrderType, y: SetupId)
    requires a != b || x != y
    ensures Key(a, x) != Key(b, y)
  {
    KeyEnds(a, x);
    KeyEnds(b, y);
    assert Key(a, x)[..|x|] == x && Key(b, y)[..|y|] == y;
  }

  /** The last two characters of a key tell its kind: digit, "op" or "et". */
  lemma KeyEnds(a: OrderType, x: SetupId)
    ensures var k := Key(a, x);
      && (a == MarketEntry ==> '0' <= k[|k| - 1] <= '9' && |x| == |k|)
      && (a == PaperStop ==> k[|k| - 1] == 'p' && |x| == |k| - 11)
      && (a == PaperTarget ==> k[|k| - 1] == 't' && |x| == |k| - 13)
  {
    assert |":paper_stop"| == 11 && |":paper_target"| == 13;
  }

  /** Idempotency keys are unique over all orders ever created. */
  lemma KeysUnique(s: Ledger, i: nat, j: nat)
    requires Good(s) && i < j < |s.orders|
    ensures s.orders[i].key != s.orders[j].key
  {
    hide Key, Conserved, PeakHolds, SetupsMatch, TradesMatch;
    var a, b := i / 3, j / 3;
    assert OrdersOf(s.positions[a], s.orders[3 * a], s.orders[3 * a + 1], s.orders[3 * a + 2]);
    assert OrdersOf(s.positions[b], s.orders[3 * b], s.orders[3 * b + 1], s.orders[3 * b + 2]);
    OrderKey(s, i);
    OrderKey(s, j);
    assert a == b ==> i % 3 != j % 3;
    assert a != b ==> s.positions[a].setupId != s.positions[b].setupId;
    KeyInjective(s.orders[i].orderType, s.orders[i].setupId, s.orders[j].orderType, s.orders[j].setupId);
  }

  lemma OrderKey(s: Ledger, i: nat)
    requires Good(s) && i < |s.orders|
    ensures s.orders[i].key == Key(s.orders[i].orderType, s.orders[i].setupId)
    ensures s.orders[i].setupId == s.positions[i / 3].setupId
    ensures s.orders[i].orderType == [MarketEntry, PaperStop, PaperTarget][i % 3]
  {
    hide Key, Conserved, PeakHolds, SetupsMatch, TradesMatch, PositionsDistinct;
    var k := i / 3;
    assert OrdersOf(s.positions[k], s.orders[3 * k], s.orders[3 * k + 1], s.orders[3 * k + 2]);
    assert i == 3 * k || i == 3 * k + 1 || i == 3 * k + 2;
  }

  /** The entry counter is the number of setups marked ENTERED. */
  lemma EntriesCountEntered(s: Ledger)
    requires Good(s)
    ensures s.counters.entries == |set id | id in s.setups && s.setups[id] == Entered|
  {
    hide Conserved, PeakHolds, Aligned, TradesMatch;
    var ids := set id | id in s.setups && s.setups[id] == Entered;
    SetupIdsCount(s.positions);
    assert ids == SetupIds(s.positions) by {
      SetupIdsMembers(s.positions);
    }
  }

  function SetupIds(positions: seq<Position>): set<string> {
    if positions == [] then {} else {positions[0].setupId} + SetupIds(positions[1..])
  }

  lemma {:induction false} SetupIdsMembers(positions: seq<Position>)
    ensures forall id :: id in SetupIds(positions) <==> exists i :: 0 <= i < |positions| && positions[i].setupId == id
  {
    if positions != [] {
      SetupIdsMembers(positions[1..]);
      forall id
        ensures id in SetupIds(positions) <==> exists i :: 0 <= i < |positions| && positions[i].setupId == id
      {
        if exists i :: 0 <= i < |positions| && positions[i].setupId == id {
          var i :| 0 <= i < |positions| && positions[i].setupId == id;
          assert i > 0 ==> positions[1..][i - 1].setupId == id;
        }
        if id in SetupIds(positions[1..]) {
          var i :| 0 <= i < |positions[1..]| && positions[1..][i].setupId == id;
          assert positions[i + 1].setupId == id;
        }
      }
    }
  }

  lemma {:induction false} SetupIdsCount(positions: seq<Position>)
    requires forall i, j :: 0 <= i < j < |positions| ==> positions[i].setupId != positions[j].setupId
    ensures |SetupIds(positions)| == |positions|
  {
    if positions != [] {
      SetupIdsCount(positions[1..]);
      SetupIdsMembers(positions[1..]);
      assert positions[0].setupId !in SetupIds(positions[1..]) by {
        forall i | 0 <= i < |positions[1..]|
          ensures positions[1..][i].setupId != positions[0].setupId
        {
          assert positions[i + 1].setupId != positions[0].setupId;
        }
      }
    }
  }

  /** ENTERED is final. */
  lemma EnteredIsFinal(c: PaperConfig, s: Ledger, a: Action, id: string)
    requires id in s.setups && s.setups[id] == Entered
    ensures var t := Step(c, s, a); id in t.setups && t.setups[id] == Entered
  {
    hide Refreshed, NewPosition, EntryOrders, ClosedPosition, TradeOf, SettleAll, QuoteFresh, BasePrice, EntryBlocked;
    hide Marked, TriggerReason, MarkQuote, Drift, OpenOf;
    match a
    case ProcessSetup(_, _, _, _) =>
    case InvalidateSetup(_, _, _, _, _) =>
    case MonitorPosition(_, _, _, _) =>
    case ClosePosition(_, _, _, _, _) =>
    case RefreshAccount(_) =>
    case Reload(_) =>
  }

  // ---- The peak is the running maximum of equity

  /** The highest equity the account shows from s to the end of the run. */
  function HighestEquity(c: PaperConfig, s: Ledger, actions: seq<Action>): real
    decreases |actions|
  {
    if actions == [] then s.account.equity
    else Max(s.account.equity, HighestEquity(c, Step(c, s, actions[0]), actions[1..]))
  }

  predicate PeakMoves(a: Account, b: Account) {
    b.peak == Max(a.peak, b.equity)
  }

  lemma RefreshPeak(s: Ledger, t: Ledger, now: int)
    requires s.account.peak == t.account.peak
    ensures PeakMoves(s.account, Refresh(t, now).account)
  {
    hide SumBy;
  }

  lemma EnterPeak(c: PaperConfig, s: Ledger, r: EntryRequest, q: Quote, now: int)
    requires PeakMoves(s.account, s.account)
    ensures PeakMoves(s.account, Enter(c, s, r, q, now).1.account)
  {
    hide Booked, NewPosition, EntryBlocked, BasePrice, Drift, Fills.SlippedPrice;
    var (verdict, t) := Enter(c, s, r, q, now);
    if verdict == Done {
      var base := BasePrice(c, q, r.direction, true);
      var executed := Fills.SlippedPrice(FillRates(c), base.value, r.direction, true);
      assert r.stop.Some? && r.target.Some? by {
        AllowedHasLevels(c, s, r, q, now);
      }
      BookedPeak(s, NewPosition(c, s, r, base.value, executed, now), base.value, now);
    }
  }

  lemma BookedPeak(s: Ledger, p: Position, requested: real, now: int)
    ensures PeakMoves(s.account, Booked(s, p, requested, now).account)
  {
    hide SumBy, EntryOrders;
  }

  lemma EngineExitPeak(c: PaperConfig, s: Ledger, session: bool, i: nat, q: Quote, reason: ExitReason, now: int)
    requires PeakMoves(s.account, s.account) && i < |s.positions|
    ensures PeakMoves(s.account, EngineExit(c, s, session, i, q, reason, now).1.account)
  {
    hide SumBy, SettleAll, ClosedPosition, TradeOf, QuoteFresh, BasePrice;
  }

  lemma StepPeak(c: PaperConfig, s: Ledger, a: Action)
    requires Good(s)
    ensures PeakMoves(s.account, Step(c, s, a).account)
  {
    hide Structured, Conserved, SetupsMatch, Enter, EngineExit, Refresh, Reconciled, MarkQuote, Marked, TriggerReason,
      QuoteFresh, OpenOf;
    match a
    case ProcessSetup(id, request, quote, now) =>
      var seen, n := id in s.setups, s.counters;
      var s1 := if seen then s else s.(counters := n.(detected := n.detected + 1));
      var s2 := if seen then s1 else s1.(counters := s1.counters.(approved := s1.counters.approved + 1));
      if request.Some? && quote.Some? {
        EnterPeak(c, s2, Bound(request, id).value, quote.value, now);
      }
    case InvalidateSetup(session, id, expired, quote, now) =>
      var status := if expired then Expired else Invalidated;
      var s1 := if id in s.setups && s.setups[id] != Entered then Note(s, id, status) else s;
      var i := OpenOf(s1.positions, id);
      if i < |s1.positions| && quote.Some? {
        EngineExitPeak(c, s1, session, i, quote.value, Invalidation, now);
      }
    case MonitorPosition(session, i, quote, now) =>
      if i < |s.positions| && quote.Some? {
        MonitorOnePeak(c, s, session, i, quote, now);
      }
    case ClosePosition(session, i, quote, reason, now) =>
      if i < |s.positions| {
        EngineExitPeak(c, s, session, i, quote, reason, now);
      }
    case RefreshAccount(now) => RefreshPeak(s, s, now);
    case Reload(now) =>
      NothingToRepair(s);
      RefreshPeak(s, s, now);
  }

  lemma MonitorOnePeak(c: PaperConfig, s: Ledger, session: bool, i: nat, quote: Option<Quote>, now: int)
    requires PeakMoves(s.account, s.account) && i < |s.positions|
    ensures PeakMoves(s.account, MonitorOne(c, s, session, i, quote, now).1.account)
  {
    hide EngineExit, Marked, TriggerReason, MarkQuote, QuoteFresh;
    var p := s.positions[i];
    if quote.Some? && QuoteFresh(c, quote.value, now) {
      var price := MarkQuote(c, p, quote.value);
      if price.Some? {
        var marked := Marked(p, price.value);
        var s1 := s.(positions := s.positions[i := marked]);
        var reason := TriggerReason(c, marked, now);
        if reason.Some? {
          EngineExitPeak(c, s1, session, i, quote.value, reason.value, now);
        }
      }
    }
  }

  lemma {:induction false} PeakIsRunningMaximum(c: PaperConfig, s: Ledger, actions: seq<Action>)
    requires Good(s)
    ensures Run(c, s, actions).account.peak == Max(s.account.peak, HighestEquity(c, s, actions))
    decreases |actions|
  {
    hide Structured, Conserved, SetupsMatch, Step;
    if actions != [] {
      StepPeak(c, s, actions[0]);
      StepGood(c, s, actions[0]);
      PeakIsRunningMaximum(c, Step(c, s, actions[0]), actions[1..]);
    }
  }

  // ---- A monitoring pass is a run

  function MonitorActions(c: PaperConfig, s: Ledger, session: bool, i: nat, quotes: map<string, Quote>,
                          now: int): seq<Action>
    requires i <= |s.positions|
    decreases |s.positions| - i
  {
    if i == |s.positions| then [RefreshAccount(now)]
    else if s.positions[i].status != IsOpen then MonitorActions(c, s, session, i + 1, quotes, now)
    else
      var quote := QuoteOf(quotes, s.positions[i].symbol);
      var s1 := MonitorOne(c, s, session, i, quote, now).1;
      MonitorKeepsLength(c, s, session, i, quote, now);
      [MonitorPosition(session, i, quote, now)] + MonitorActions(c, s1, session, i + 1, quotes, now)
  }

  lemma MonitorKeepsLength(c: PaperConfig, s: Ledger, session: bool, i: nat, quote: Option<Quote>, now: int)
    requires i < |s.positions|
    ensures |MonitorOne(c, s, session, i, quote, now).1.positions| == |s.positions|
  {
    hide Refreshed, ClosedPosition, TradeOf, SettleAll, Marked, TriggerReason, MarkQuote, QuoteFresh, BasePrice;
  }

  lemma {:induction false} MonitorIsRun(c: PaperConfig, s: Ledger, session: bool, i: nat, quotes: map<string, Quote>,
                                        now: int)
    requires i <= |s.positions|
    ensures MonitorFrom(c, s, session, i, quotes, now).1 == Run(c, s, MonitorActions(c, s, session, i, quotes, now))
    decreases |s.positions| - i
  {
    hide MonitorOne, Refresh;
    if i < |s.positions| && s.positions[i].status != IsOpen {
      MonitorIsRun(c, s, session, i + 1, quotes, now);
    } else if i < |s.positions| {
      var quote := QuoteOf(quotes, s.positions[i].symbol);
      MonitorKeepsLength(c, s, session, i, quote, now);
      var s1 := MonitorOne(c, s, session, i, quote, now).1;
      MonitorIsRun(c, s1, session, i + 1, quotes, now);
      var rest := MonitorActions(c, s1, session, i + 1, quotes, now);
      assert ([MonitorPosition(session, i, quote, now)] + rest)[1..] == rest;
    }
  }
}
