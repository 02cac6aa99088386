/** Conservation and causality of whole backtest runs. */
module BacktestLaws {
  import opened Common
  import opened Candles
  import opened BacktestExecution
  import opened BacktestPortfolio
  import opened BacktestEngine

  // ---- Conservation: what every run keeps

  const TOLERANCE: real := 0.000000001

  ghost predicate OpenSound(c: FillConfig, p: Position) {
    Priced(c, p) && p.decision.allowed && p.initialRisk <= p.decision.riskAmount + TOLERANCE
  }

  /** A recorded trade: priced as `Close` prices it, and bounded when stopped at its stop. */
  ghost predicate TradeSound(c: FillConfig, t: Trade) {
    var p := t.position;
    && OpenSound(c, p)
    && t.fees == p.fees + Fee(c, t.exitPrice, p.quantity)
    && t.net == (t.exitPrice - p.entryPrice) * p.quantity * Sign(p.direction) - t.fees
    && (t.exitPrice == SlippedPrice(c, p.stop, p.direction, false) ==>
          t.net >= -p.initialRisk >= -(p.decision.riskAmount + TOLERANCE))
  }

  ghost predicate Sound(c: FillConfig, st: State) {
    && Balanced(st.book)
    && st.counters.filled == st.counters.exits + |st.book.open|
    && st.counters.exits == |st.book.trades|
    && (forall p <- st.book.open :: OpenSound(c, p) && p.symbol in st.last)
    && (forall t <- st.book.trades :: TradeSound(c, t))
  }

  lemma ClosedTradeSound(c: FillConfig, p: Position, fill: ExitFill, now: int)
    requires OpenSound(c, p)
    ensures TradeSound(c, Close(c, p, fill, now))
  {
    hide SlippedPrice, Fee, StopOutLoss, Accepted, Sign;
    var t := Close(c, p, fill, now);
    var level := Close(c, p, ExitFill(fill.reason, p.stop), now);
    StopOutBound(c, p, fill.reason, now);
    if t.exitPrice == level.exitPrice {
      assert t.net == level.net;
    }
  }

  lemma CloseOneSound(c: FillConfig, st: State, p: Position, fill: ExitFill, now: int)
    requires Sound(c, st) && p in st.book.open
    ensures Sound(c, CloseOne(c, st, p, fill, now))
    ensures CloseOne(c, st, p, fill, now).book.open == Without(st.book.open, p.symbol)
  {
    hide Balanced, OpenSound, TradeSound, AddDaily, DayOf, SlippedPrice, Fee, Holds;
    ClosedTradeSound(c, p, fill, now);
    RecordCloseBalanced(st.book, Close(c, p, fill, now));
    BalancedDistinct(st.book);
    WithoutDistinct(st.book.open, p.symbol);
    assert Holds(st.book.open, p.symbol) by {
      HoldsMember(st.book.open, p.symbol);
    }
  }

  lemma BalancedDistinct(b: Book)
    requires Balanced(b)
    ensures DistinctSymbols(b.open)
  {
  }

  lemma ExcursionsKeep(c: FillConfig, p: Position, candle: Candle)
    requires OpenSound(c, p)
    ensures OpenSound(c, UpdateExcursions(p, candle))
  {
    hide StopOutLoss, Fee;
  }

  /** Tracking replaces a position that is already open, so counts do not change. */
  lemma TrackSound(c: FillConfig, st: State, p: Position, candle: Candle, now: int)
    requires Sound(c, st) && Holds(st.book.open, p.symbol) && OpenSound(c, p) && p.symbol in st.last
    ensures Sound(c, Track(c, st, p, candle, now))
  {
    hide Balanced, OpenSound, TradeSound, ExitTrigger, Holds, UpdateExcursions, With;
    var q := UpdateExcursions(p, candle);
    assert q.symbol == p.symbol by {
      ExcursionsSymbol(p, candle);
    }
    ExcursionsKeep(c, p, candle);
    BalancedDistinct(st.book);
    PutBalanced(st.book, q);
    WithDistinct(st.book.open, q);
    var st1 := st.(book := Put(st.book, q));
    assert Sound(c, st1);
    var fill := ExitTrigger(c, q, candle, now);
    if fill.Some? {
      CloseOneSound(c, st1, q, fill.value, now);
    }
  }

  lemma ExcursionsSymbol(p: Position, candle: Candle)
    ensures UpdateExcursions(p, candle).symbol == p.symbol
  {
  }

  lemma BeginSound(c: FillConfig, st: State, ev: Event)
    requires Sound(c, st)
    ensures Sound(c, Begin(st, ev))
  {
    hide OpenSound, TradeSound;
  }

  lemma ExitStepSound(c: FillConfig, st: State, ev: Event)
    requires Sound(c, st) && ev.symbol in st.last
    ensures Sound(c, ExitStep(c, st, ev))
    ensures ExitStep(c, st, ev).last == st.last
  {
    hide Balanced, OpenSound, TradeSound, Track;
    TrackKeeps(c, st, ev);
    var p := Open(st, ev.symbol);
    if p.Some? {
      assert p.value in st.book.open && Holds(st.book.open, p.value.symbol);
      TrackSound(c, st, p.value, ev.candle, ev.time);
    }
  }

  lemma TrackKeeps(c: FillConfig, st: State, ev: Event)
    ensures forall p :: Track(c, st, p, ev.candle, ev.time).last == st.last
                     && Track(c, st, p, ev.candle, ev.time).pending == st.pending
  {
    hide RecordClose, Put, ExitTrigger, UpdateExcursions, Close;
  }

  lemma FilledSound(c: FillConfig, symbol: string, setup: Setup, decision: Decision, candle: Candle)
    ensures var r := Enter(c, symbol, setup, decision, candle);
      r.Filled? ==> OpenSound(c, r.position) && r.position.symbol == symbol
  {
    hide StopOutLoss, Fee, RawEntry, SlippedPrice, Accepted;
  }

  lemma EntryStepSound(c: FillConfig, st: State, ev: Event)
    requires Sound(c, st) && ev.symbol in st.last
    ensures var r := EntryStep(c, st, ev); r.Running? ==> Sound(c, r.st)
  {
    hide Balanced, OpenSound, TradeSound, Track, Enter, Holds, With;
    if ev.symbol in st.pending && !Holds(st.book.open, ev.symbol) && st.pending[ev.symbol].delay <= 1 {
      var queued := st.pending[ev.symbol];
      var attempt := Enter(c, ev.symbol, queued.setup, queued.decision, ev.candle);
      if attempt.Filled? {
        var p := attempt.position;
        FilledSound(c, ev.symbol, queued.setup, queued.decision, ev.candle);
        BalancedDistinct(st.book);
        PutBalanced(st.book, p);
        WithDistinct(st.book.open, p);
        var tried := st.(pending := st.pending - {ev.symbol},
                         counters := st.counters.(attempts := st.counters.attempts + 1));
        var added := tried.(book := Put(tried.book, p),
                            counters := tried.counters.(filled := tried.counters.filled + 1));
        assert Sound(c, added);
        TrackSound(c, added, p, ev.candle, ev.time);
      }
    }
  }

  /** Evaluation only queues and counts. */
  lemma {:induction false} ConsiderKeeps(env: Env, st: State, setups: seq<Setup>, view: Frames, symbol: string,
                                         now: int)
    ensures var r := Consider(env, st, setups, view, symbol, now);
      r.Running? ==>
        && r.st.book == st.book && r.st.last == st.last
        && r.st.counters.filled == st.counters.filled && r.st.counters.exits == st.counters.exits
        && (forall s <- r.st.pending :: (s in st.pending && r.st.pending[s] == st.pending[s])
                                     || (s == symbol && r.st.pending[s].decision.decidedAt == now))
    decreases |setups|
  {
    hide Snapshot;
    if setups != [] {
      var a := env.risk(Snapshot(st.book, now), setups[0], view, now);
      if a.Some? && !a.value.allowed {
        ConsiderKeeps(env, st.(counters := st.counters.(rejected := st.counters.rejected + 1)),
                      setups[1..], view, symbol, now);
      }
    }
  }

  lemma EvaluateKeeps(env: Env, history: History, st: State, ev: Event)
    ensures var r := EvaluateStep(env, history, st, ev);
      r.Running? ==>
        && r.st.book == st.book && r.st.last == st.last
        && r.st.counters.filled == st.counters.filled && r.st.counters.exits == st.counters.exits
        && (forall s <- r.st.pending :: (s in st.pending && r.st.pending[s] == st.pending[s])
                                     || (s == ev.symbol && r.st.pending[s].decision.decidedAt == ev.time))
  {
    hide Consider, View, FramesOf;
    var view := View(FramesOf(history, ev.symbol), ev.time);
    var setups := env.strategy(ev.symbol, view, ev.time);
    if setups.Some? {
      ConsiderKeeps(env, st.(counters := st.counters.(detected := st.counters.detected + |setups.value|)),
                    setups.value, view, ev.symbol, ev.time);
    }
  }

  lemma StepSound(env: Env, history: History, st: State, ev: Event)
    requires Sound(env.config.fill, st)
    ensures var r := Step(env, history, st, ev); r.Running? ==> Sound(env.config.fill, r.st)
  {
    hide Balanced, OpenSound, TradeSound, EntryStep, ExitStep, EvaluateStep;
    var c := env.config.fill;
    BeginSound(c, st, ev);
    var begun := Begin(st, ev);
    ExitStepSound(c, begun, ev);
    var exited := ExitStep(c, begun, ev);
    EntryStepSound(c, exited, ev);
    var entered := EntryStep(c, exited, ev);
    if entered.Running? {
      EvaluateKeeps(env, history, entered.st, ev);
      var evaluated := EvaluateStep(env, history, entered.st, ev);
      if evaluated.Running? {
        MarkBalanced(evaluated.st.book, ev.time);
      }
    }
  }

  /** At every loop head the ledger balances: entries = exits + open, trades = exits. */
  lemma {:induction false} RunSound(env: Env, history: History, events: seq<Event>)
    ensures var r := Run(env, history, events); r.Running? ==> Sound(env.config.fill, r.st)
  {
    hide Step, Sound;
    if events == [] {
      InitialSound(env.config);
    } else {
      var before := events[..|events| - 1];
      RunSound(env, history, before);
      var r := Run(env, history, before);
      if r.Running? {
        StepSound(env, history, r.st, events[|events| - 1]);
      }
    }
  }

  lemma InitialSound(config: Config)
    ensures Sound(config.fill, Initial(config))
  {
    FreshBalanced(config.initialEquity);
  }

  lemma {:induction false} CloseEachSound(c: FillConfig, st: State)
    requires Sound(c, st)
    ensures var r := CloseEach(c, st, st.book.open);
      && r.Running? && Sound(c, r.st) && r.st.book.open == []
      && r.st.counters.filled == st.counters.filled
    decreases |st.book.open|
  {
    hide Balanced, OpenSound, TradeSound, RecordClose, Close;
    var open := st.book.open;
    if open != [] {
      var candle := st.last[open[0].symbol];
      var fill := ExitFill(BacktestEnd, candle.close);
      CloseOneSound(c, st, open[0], fill, CloseTime(candle));
      assert Without(open, open[0].symbol) == open[1..];
      CloseEachSound(c, CloseOne(c, st, open[0], fill, CloseTime(candle)));
    }
  }

  /**
   A completed run has closed every position it opened, and its equity is the
   initial equity plus the net result of its trades; the end of the run itself
   never fails.
   */
  lemma Conservation(env: Env, history: History)
    ensures var r := Complete(env, history);
      && (r == Failed <==> Run(env, history, Events(history, env.config)) == Failed)
      && (r.Running? ==>
          var b, n := r.st.book, r.st.counters;
          && Sound(env.config.fill, r.st)
          && b.open == [] && n.filled == n.exits == |b.trades|
          && AccountEquity(b) == b.equity == b.initialEquity + SumBy(Net, b.trades)
          && SumBy(Amount, b.daily) == b.realizedPnl == SumBy(Net, b.trades)
          && IsTrailingRun(Net, b.trades, b.consecutiveLosses))
  {
    hide Run, Events, CloseEach, OpenSound, TradeSound, CurveSound, PeakOf, NetOnDay, DailyPnl, SumBy, IsTrailingRun;
    var events := Events(history, env.config);
    var r := Run(env, history, events);
    if r.Running? {
      RunSound(env, history, events);
      CloseEachSound(env.config.fill, r.st);
      var done := CloseEach(env.config.fill, r.st, r.st.book.open);
      if events != [] {
        MarkBalanced(done.st.book, events[|events| - 1].time);
      }
    }
  }

  // ---- Causality: a run never looks ahead

  /** The histories agree on every candle closed by `horizon`. */
  ghost predicate Agree(a: History, b: History, horizon: int) {
    && |a| == |b|
    && forall i :: 0 <= i < |a| ==> a[i].0 == b[i].0 && View(a[i].1, horizon) == View(b[i].1, horizon)
  }

  /** Every row is stored under its own timeframe. */
  ghost predicate Labelled(h: History) {
    forall i, tf :: 0 <= i < |h| && tf in h[i].1 ==> forall c <- h[i].1[tf] :: c.timeframe == tf
  }

  function UpTo(es: seq<Event>, horizon: int): seq<Event> {
    if es == [] then []
    else (if es[0].time <= horizon then [es[0]] else []) + UpTo(es[1..], horizon)
  }

  lemma {:induction false} UpToAppend(a: seq<Event>, b: seq<Event>, horizon: int)
    ensures UpTo(a + b, horizon) == UpTo(a, horizon) + UpTo(b, horizon)
  {
    if a == [] {
      assert a + b == b;
    } else {
      assert (a + b)[1..] == a[1..] + b;
      UpToAppend(a[1..], b, horizon);
    }
  }

  predicate Chronological(es: seq<Event>) {
    forall i, j :: 0 <= i < j < |es| ==> es[i].time <= es[j].time
  }

  lemma {:induction false} InsertChronological(e: Event, es: seq<Event>)
    requires Chronological(es)
    ensures Chronological(InsertEvent(e, es))
    ensures InsertEvent(e, es) != []
    ensures forall x :: x in InsertEvent(e, es) <==> x == e || x in es
  {
    hide StringLe;
    if es != [] && !KeyLe(e, es[0]) {
      InsertChronological(e, es[1..]);
      var r := InsertEvent(e, es[1..]);
      assert InsertEvent(e, es) == [es[0]] + r;
      assert es == [es[0]] + es[1..];
      assert forall x <- r :: es[0].time <= x.time;
    }
  }

  lemma {:induction false} SortChronological(es: seq<Event>)
    ensures Chronological(SortEvents(es))
    ensures forall x :: x in SortEvents(es) <==> x in es
  {
    if es != [] {
      SortChronological(es[1..]);
      InsertChronological(es[0], SortEvents(es[1..]));
      assert es == [es[0]] + es[1..];
    }
  }

  /** Events after the horizon do not move those before it. */
  lemma {:induction false} InsertUpTo(e: Event, es: seq<Event>, horizon: int)
    requires Chronological(es)
    ensures UpTo(InsertEvent(e, es), horizon)
         == if e.time <= horizon then InsertEvent(e, UpTo(es, horizon)) else UpTo(es, horizon)
  {
    hide StringLe;
    if es == [] {
      assert UpTo([e], horizon) == (if e.time <= horizon then [e] else []) + UpTo([e][1..], horizon);
    } else if KeyLe(e, es[0]) {
      assert ([e] + es)[1..] == es;
      if es[0].time > horizon {
        NoneUpTo(es, horizon);
      }
    } else {
      InsertUpTo(e, es[1..], horizon);
      var r := InsertEvent(e, es[1..]);
      assert ([es[0]] + r)[1..] == r;
      if es[0].time <= horizon {
        assert ([es[0]] + UpTo(es[1..], horizon))[1..] == UpTo(es[1..], horizon);
      }
    }
  }

  lemma {:induction false} NoneUpTo(es: seq<Event>, horizon: int)
    requires Chronological(es) && (es != [] ==> es[0].time > horizon)
    ensures UpTo(es, horizon) == []
  {
    if es != [] {
      NoneUpTo(es[1..], horizon);
    }
  }

  lemma {:induction false} SortUpTo(es: seq<Event>, horizon: int)
    ensures UpTo(SortEvents(es), horizon) == SortEvents(UpTo(es, horizon))
  {
    if es != [] {
      SortUpTo(es[1..], horizon);
      SortChronological(es[1..]);
      InsertUpTo(es[0], SortEvents(es[1..]), horizon);
      if es[0].time <= horizon {
        assert UpTo(es, horizon)[1..] == UpTo(es[1..], horizon);
      } else {
        assert UpTo(es, horizon) == UpTo(es[1..], horizon);
      }
    }
  }

  /** The events up to the horizon are a prefix of the run. */
  lemma {:induction false} UpToIsPrefix(es: seq<Event>, horizon: int)
    requires Chronological(es)
    ensures UpTo(es, horizon) <= es
  {
    if es != [] {
      if es[0].time <= horizon {
        UpToIsPrefix(es[1..], horizon);
        assert es == [es[0]] + es[1..];
      } else {
        NoneUpTo(es, horizon);
      }
    }
  }

  lemma FiveMinuteClose(c: Candle)
    requires c.timeframe == M5
    ensures CloseTime(c) == c.timestamp + STEP
  {
  }

  lemma {:induction false} EventsOfUpTo(symbol: string, rows: seq<Candle>, config: Config, horizon: int)
    requires forall c <- rows :: c.timeframe == M5
    ensures UpTo(EventsOf(symbol, rows, config), horizon)
         == UpTo(EventsOf(symbol, ClosedCandles(rows, horizon), config), horizon)
  {
    hide CloseTime, EventsOf, UpTo;
    if rows != [] {
      var c, rest := rows[0], rows[1..];
      FiveMinuteClose(c);
      EventsOfUpTo(symbol, rest, config, horizon);
      var closed := ClosedCandles(rest, horizon);
      EventsOfCons(symbol, c, rest, config, horizon);
      assert rows == [c] + rest;
      if CloseTime(c) <= horizon {
        assert ClosedCandles(rows, horizon) == [c] + closed;
        EventsOfCons(symbol, c, closed, config, horizon);
      } else {
        assert ClosedCandles(rows, horizon) == closed;
      }
    }
  }

  lemma EventsOfCons(symbol: string, c: Candle, rest: seq<Candle>, config: Config, horizon: int)
    ensures UpTo(EventsOf(symbol, [c] + rest, config), horizon)
      == (if config.start <= c.timestamp + STEP <= config.end && c.timestamp + STEP <= horizon
          then [Event(c.timestamp + STEP, symbol, c)] else [])
         + UpTo(EventsOf(symbol, rest, config), horizon)
  {
    var head := if config.start <= c.timestamp + STEP <= config.end
                then [Event(c.timestamp + STEP, symbol, c)] else [];
    assert ([c] + rest)[1..] == rest;
    UpToAppend(head, EventsOf(symbol, rest, config), horizon);
    if head != [] {
      assert head[1..] == [];
    }
  }

  lemma {:induction false} RawEventsAgree(a: History, b: History, config: Config, horizon: int)
    requires Agree(a, b, horizon) && Labelled(a) && Labelled(b)
    ensures UpTo(RawEvents(a, config), horizon) == UpTo(RawEvents(b, config), horizon)
  {
    if a != [] {
      var symbol, ra, rb := a[0].0, Rows(a[0].1), Rows(b[0].1);
      assert View(a[0].1, horizon) == View(b[0].1, horizon);
      RowsAgree(a[0].1, b[0].1, horizon);
      EventsOfUpTo(symbol, ra, config, horizon);
      EventsOfUpTo(symbol, rb, config, horizon);
      RawEventsAgree(a[1..], b[1..], config, horizon);
      UpToAppend(EventsOf(symbol, ra, config), RawEvents(a[1..], config), horizon);
      UpToAppend(EventsOf(symbol, rb, config), RawEvents(b[1..], config), horizon);
    }
  }

  lemma RowsAgree(fa: Frames, fb: Frames, horizon: int)
    requires View(fa, horizon) == View(fb, horizon)
    ensures ClosedCandles(Rows(fa), horizon) == ClosedCandles(Rows(fb), horizon)
  {
    assert M5 in fa <==> M5 in View(fa, horizon);
    assert M5 in fb <==> M5 in View(fb, horizon);
    if M5 in fa {
      assert View(fa, horizon)[M5] == View(fb, horizon)[M5];
    }
  }

  lemma {:induction false} ClosedTwice(rows: seq<Candle>, now: int, horizon: int)
    requires now <= horizon
    ensures ClosedCandles(ClosedCandles(rows, horizon), now) == ClosedCandles(rows, now)
  {
    if rows != [] {
      ClosedTwice(rows[1..], now, horizon);
      if CloseTime(rows[0]) <= horizon {
        assert ([rows[0]] + ClosedCandles(rows[1..], horizon))[1..] == ClosedCandles(rows[1..], horizon);
      } else {
        assert ClosedCandles(rows, horizon) == ClosedCandles(rows[1..], horizon);
      }
    }
  }

  lemma ViewTwice(frames: Frames, now: int, horizon: int)
    requires now <= horizon
    ensures View(View(frames, horizon), now) == View(frames, now)
  {
    forall tf | tf in frames
      ensures View(View(frames, horizon), now)[tf] == View(frames, now)[tf]
    {
      ClosedTwice(frames[tf], now, horizon);
    }
  }

  lemma {:induction false} FramesAgree(a: History, b: History, symbol: string, now: int, horizon: int)
    requires Agree(a, b, horizon) && now <= horizon
    ensures View(FramesOf(a, symbol), now) == View(FramesOf(b, symbol), now)
  {
    if a != [] {
      if a[0].0 == symbol {
        assert View(a[0].1, horizon) == View(b[0].1, horizon);
        ViewTwice(a[0].1, now, horizon);
        ViewTwice(b[0].1, now, horizon);
      } else {
        FramesAgree(a[1..], b[1..], symbol, now, horizon);
      }
    }
  }

  lemma StepAgrees(env: Env, a: History, b: History, st: State, ev: Event, horizon: int)
    requires Agree(a, b, horizon) && ev.time <= horizon
    ensures Step(env, a, st, ev) == Step(env, b, st, ev)
  {
    hide View, FramesOf, Consider, EntryStep, ExitStep, Begin, Mark;
    FramesAgree(a, b, ev.symbol, ev.time, horizon);
  }

  lemma {:induction false} RunAgrees(env: Env, a: History, b: History, events: seq<Event>, horizon: int)
    requires Agree(a, b, horizon) && forall ev <- events :: ev.time <= horizon
    ensures Run(env, a, events) == Run(env, b, events)
  {
    hide Step;
    if events != [] {
      var before := events[..|events| - 1];
      RunAgrees(env, a, b, before, horizon);
      var r := Run(env, a, before);
      if r.Running? {
        StepAgrees(env, a, b, r.st, events[|events| - 1], horizon);
      }
    }
  }

  lemma {:induction false} UpToBounded(es: seq<Event>, horizon: int)
    ensures forall e <- UpTo(es, horizon) :: e.time <= horizon && e in es
  {
    if es != [] {
      UpToBounded(es[1..], horizon);
    }
  }

  /**
   Two histories that agree on every candle closed by the horizon go through the
   same portfolio, queue, trades and counters up to it: the events up to the
   horizon are the same prefix of both runs, with the same outcome.
   */
  lemma Causality(env: Env, a: History, b: History, horizon: int)
    requires Agree(a, b, horizon) && Labelled(a) && Labelled(b)
    ensures var ea, eb := Events(a, env.config), Events(b, env.config);
      && UpTo(ea, horizon) == UpTo(eb, horizon)
      && UpTo(ea, horizon) <= ea && UpTo(eb, horizon) <= eb
      && Run(env, a, UpTo(ea, horizon)) == Run(env, b, UpTo(eb, horizon))
  {
    hide Run, Labelled;
    RawEventsAgree(a, b, env.config, horizon);
    SortUpTo(RawEvents(a, env.config), horizon);
    SortUpTo(RawEvents(b, env.config), horizon);
    SortChronological(RawEvents(a, env.config));
    SortChronological(RawEvents(b, env.config));
    UpToIsPrefix(Events(a, env.config), horizon);
    UpToIsPrefix(Events(b, env.config), horizon);
    var events := UpTo(Events(a, env.config), horizon);
    UpToBounded(Events(a, env.config), horizon);
    RunAgrees(env, a, b, events, horizon);
  }
}
