/** What one event of the backtest does to the open positions, and where its data comes from. */
module BacktestExits {
  import opened Common
  import opened Candles
  import opened BacktestExecution
  import opened BacktestPortfolio
  import opened BacktestEngine
  import opened BacktestLaws
  import opened BacktestDecisions

  /** The first open position of the symbol is at i. */
  predicate HeldAt(open: seq<Position>, symbol: string, i: int) {
    0 <= i < |open| && open[i].symbol == symbol && forall k :: 0 <= k < i ==> open[k].symbol != symbol
  }

  predicate NotHeld(open: seq<Position>, symbol: string) { forall p <- open :: p.symbol != symbol }

  lemma HeldExactly(open: seq<Position>, symbol: string, i: int)
    ensures HeldAt(open, symbol, i) ==> IndexOf(open, symbol) == i
    ensures NotHeld(open, symbol) <==> !Holds(open, symbol)
  {
    var n := IndexOf(open, symbol);
    if n < |open| {
      assert open[n] in open;
    }
  }

  /** The position takes up the candle, and leaves with one trade exactly when a trigger fires on it. */
  ghost predicate Tracked(c: FillConfig, before: Book, i: nat, p: Position, candle: Candle, now: int, after: Book)
    requires i < |before.open|
  {
    var q := UpdateExcursions(p, candle);
    match ExitTrigger(c, q, candle, now)
    case None => after.open == before.open[i := q] && after.trades == before.trades
    case Some(fill) =>
      && after.open == before.open[..i] + before.open[i + 1..]
      && after.trades == before.trades + [Close(c, q, fill, now)]
  }

  lemma TrackExactly(c: FillConfig, st: State, i: nat, p: Position, candle: Candle, now: int)
    requires HeldAt(st.book.open, p.symbol, i)
    ensures Tracked(c, st.book, i, p, candle, now, Track(c, st, p, candle, now).book)
  {
    hide ExitTrigger, SlippedPrice, Fee, AddDaily;
    HeldExactly(st.book.open, p.symbol, i);
    var q := UpdateExcursions(p, candle);
    assert q.symbol == p.symbol;
    var open := With(st.book.open, q);
    assert open == st.book.open[i := q];
    HeldExactly(open, p.symbol, i);
    assert open[..i] + open[i + 1..] == st.book.open[..i] + st.book.open[i + 1..];
  }

  /** A position held when an event of its symbol comes takes up the candle, and closes exactly when a trigger fires. */
  lemma StepExits(env: Env, history: History, st: State, ev: Event, i: nat)
    requires Step(env, history, st, ev).Running? && HeldAt(st.book.open, ev.symbol, i)
    ensures var c, q := env.config.fill, UpdateExcursions(st.book.open[i], ev.candle);
      var after := Step(env, history, st, ev).st.book;
      match ExitTrigger(c, q, ev.candle, ev.time)
      case None => after.open == st.book.open[i := q] && after.trades == st.book.trades
      case Some(fill) =>
        && |after.trades| > |st.book.trades|
        && after.trades[..|st.book.trades| + 1] == st.book.trades + [Close(c, q, fill, ev.time)]
  {
    hide Track, EvaluateStep, ExitTrigger, Close, AccountEquity;
    var c, begun := env.config.fill, Begin(st, ev);
    HeldExactly(st.book.open, ev.symbol, i);
    TrackExactly(c, begun, i, st.book.open[i], ev.candle, ev.time);
    var x := ExitStep(c, begun, ev);
    var r := Entered(env, st, ev);
    EvaluateKeeps(env, history, r.st, ev);
    EntryTrades(c, x, ev);
    if ExitTrigger(c, UpdateExcursions(st.book.open[i], ev.candle), ev.candle, ev.time).None? {
      HeldExactly(x.book.open, ev.symbol, i);
    }
  }

  /** The entry part adds at most one trade, and does nothing to the book while the symbol is held. */
  lemma EntryTrades(c: FillConfig, st: State, ev: Event)
    requires EntryStep(c, st, ev).Running?
    ensures var after := EntryStep(c, st, ev).st.book;
      && st.book.trades <= after.trades && |after.trades| <= |st.book.trades| + 1
      && (Holds(st.book.open, ev.symbol) ==> after == st.book)
  {
    hide ExitTrigger, Enter, UpdateExcursions, SlippedPrice, Fee, AddDaily;
  }

  /** A filled entry opens the position, which takes up its own candle and may leave on it again. */
  lemma FilledExactly(env: Env, st: State, ev: Event)
    requires ev.symbol in st.pending && st.pending[ev.symbol].delay <= 1
    requires var x := ExitStep(env.config.fill, Begin(st, ev), ev).book.open;
      NotHeld(x, ev.symbol)
    requires var q := st.pending[ev.symbol]; Enter(env.config.fill, ev.symbol, q.setup, q.decision, ev.candle).Filled?
    ensures var c, q := env.config.fill, st.pending[ev.symbol];
      var p := Enter(c, ev.symbol, q.setup, q.decision, ev.candle).position;
      var x := ExitStep(c, Begin(st, ev), ev).book;
      && Entered(env, st, ev).Running?
      && Tracked(c, x.(open := x.open + [p]), |x.open|, p, ev.candle, ev.time, Entered(env, st, ev).st.book)
  {
    hide Track, Enter, ExitStep, Begin;
    var c, q := env.config.fill, st.pending[ev.symbol];
    var x := ExitStep(c, Begin(st, ev), ev);
    HeldExactly(x.book.open, ev.symbol, 0);
    QueueCountsDown(env, st, ev);
    var attempt := Enter(c, ev.symbol, q.setup, q.decision, ev.candle);
    FilledSound(c, ev.symbol, q.setup, q.decision, ev.candle);
    var p := attempt.position;
    var added := x.(pending := st.pending - {ev.symbol}, book := x.book.(open := x.book.open + [p]),
                    counters := x.counters.(attempts := x.counters.attempts + 1, filled := x.counters.filled + 1));
    assert forall k :: 0 <= k < |x.book.open| ==> x.book.open[k] in x.book.open;
    TrackExactly(c, added, |x.book.open|, p, ev.candle, ev.time);
  }

  /** Positions of other symbols neither come, go nor change. */
  lemma OthersStay(env: Env, history: History, st: State, ev: Event, p: Position)
    requires Step(env, history, st, ev).Running? && p.symbol != ev.symbol
    ensures p in Step(env, history, st, ev).st.book.open <==> p in st.book.open
  {
    hide ExitStep, EntryStep, EvaluateStep, AccountEquity;
    var c, begun := env.config.fill, Begin(st, ev);
    ExitOthers(c, begun, ev, p);
    var x := ExitStep(c, begun, ev);
    EntryOthers(c, x, ev, p);
    EvaluateKeeps(env, history, Entered(env, st, ev).st, ev);
  }

  lemma TrackOthers(c: FillConfig, st: State, q: Position, candle: Candle, now: int, p: Position)
    requires p.symbol != q.symbol
    ensures p in Track(c, st, q, candle, now).book.open <==> p in st.book.open
  {
    hide ExitTrigger, SlippedPrice, Fee, AddDaily, Close, UpdateExcursions;
    var u := UpdateExcursions(q, candle);
    UpdatedSymbol(q, candle);
    WithOthers(st.book.open, u, p);
    var fill := ExitTrigger(c, u, candle, now);
    if fill.Some? {
      ClosedPosition(c, u, fill.value, now);
      WithoutOthers(With(st.book.open, u), u.symbol, p);
    }
  }

  lemma UpdatedSymbol(q: Position, candle: Candle)
    ensures UpdateExcursions(q, candle).symbol == q.symbol
  {
  }

  lemma ClosedPosition(c: FillConfig, p: Position, fill: ExitFill, now: int)
    ensures Close(c, p, fill, now).position == p
  {
    hide SlippedPrice, Fee;
  }

  lemma WithOthers(open: seq<Position>, q: Position, p: Position)
    requires p.symbol != q.symbol
    ensures p in With(open, q) <==> p in open
  {
    var i := IndexOf(open, q.symbol);
    if p in open {
      var k :| 0 <= k < |open| && open[k] == p;
      assert With(open, q)[k] == p;
    }
  }

  lemma WithoutOthers(open: seq<Position>, symbol: string, p: Position)
    requires p.symbol != symbol
    ensures p in Without(open, symbol) <==> p in open
  {
    var i := IndexOf(open, symbol);
    if i < |open| {
      assert open == open[..i] + [open[i]] + open[i + 1..];
    }
  }

  lemma ExitOthers(c: FillConfig, st: State, ev: Event, p: Position)
    requires p.symbol != ev.symbol
    ensures p in ExitStep(c, st, ev).book.open <==> p in st.book.open
  {
    hide Track;
    var held := Open(st, ev.symbol);
    if held.Some? {
      TrackOthers(c, st, held.value, ev.candle, ev.time, p);
    }
  }

  lemma EntryOthers(c: FillConfig, st: State, ev: Event, p: Position)
    requires EntryStep(c, st, ev).Running? && p.symbol != ev.symbol
    ensures p in EntryStep(c, st, ev).st.book.open <==> p in st.book.open
  {
    hide Track, Enter;
    if ev.symbol in st.pending && !Holds(st.book.open, ev.symbol) && st.pending[ev.symbol].delay <= 1 {
      var queued := st.pending[ev.symbol];
      var attempt := Enter(c, ev.symbol, queued.setup, queued.decision, ev.candle);
      if attempt.Filled? {
        FilledSound(c, ev.symbol, queued.setup, queued.decision, ev.candle);
        var tried := st.(pending := st.pending - {ev.symbol},
                         counters := st.counters.(attempts := st.counters.attempts + 1));
        var added := tried.(book := Put(tried.book, attempt.position),
                            counters := tried.counters.(filled := tried.counters.filled + 1));
        WithOthers(st.book.open, attempt.position, p);
        TrackOthers(c, added, attempt.position, ev.candle, ev.time, p);
      }
    }
  }

  // ---- Where the data comes from

  /** The first entry of the history for the symbol is at i. */
  predicate StoredAt(history: History, symbol: string, i: int) {
    0 <= i < |history| && history[i].0 == symbol && forall k :: 0 <= k < i ==> history[k].0 != symbol
  }

  /** A symbol's frames are the first ones stored for it, or none. */
  lemma {:induction false} FramesExactly(history: History, symbol: string)
    ensures forall i :: StoredAt(history, symbol, i) ==> FramesOf(history, symbol) == history[i].1
    ensures (forall i :: 0 <= i < |history| ==> history[i].0 != symbol) ==> FramesOf(history, symbol) == map[]
  {
    if history != [] {
      var rest := history[1..];
      FramesExactly(rest, symbol);
      assert forall i :: 0 <= i < |rest| ==> rest[i] == history[i + 1];
      forall i | StoredAt(history, symbol, i) && i > 0
        ensures FramesOf(history, symbol) == history[i].1
      {
        assert StoredAt(rest, symbol, i - 1);
      }
    }
  }

  /** The view has the same timeframes, and of each the rows closed by now. */
  lemma ViewExactly(frames: Frames, now: int, tf: Timeframe)
    ensures tf in View(frames, now) <==> tf in frames
    ensures tf in frames ==> View(frames, now)[tf] == ClosedCandles(frames[tf], now)
  {
  }
}
