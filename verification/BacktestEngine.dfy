/** The chronological backtest run. */
module BacktestEngine {
  import opened Common
  import opened Candles
  import opened BacktestExecution
  import opened BacktestPortfolio

  // Strategy scoring and risk are oracles that see only the closed candles of one
  // symbol and the account snapshot; an oracle that answers None stands for an
  // exception, which fails the run.

  type Frames = map<Timeframe, seq<Candle>>
  type History = seq<(string, Frames)>

  datatype Event = Event(time: int, symbol: string, candle: Candle)

  /** A risk answer; the engine stamps it with the evaluation time. */
  datatype Advice = Advice(allowed: bool, quantity: NonNegReal, riskAmount: NonNegReal, leverage: NonNegReal)

  datatype Queued = Queued(setup: Setup, decision: Decision, delay: int)

  datatype Counters = Counters(periods: nat, detected: nat, approved: nat, rejected: nat,
                               attempts: nat, filled: nat, exits: nat)

  datatype State = State(book: Book, pending: map<string, Queued>, last: map<string, Candle>, counters: Counters)

  datatype Outcome = Running(st: State) | Failed

  datatype Config = Config(fill: FillConfig, start: int, end: int, initialEquity: PosReal,
                           evaluationTimeframe: Timeframe, entryDelay: int)

  datatype Env = Env(
    config: Config,
    strategy: (string, Frames, int) -> Option<seq<Setup>>,
    risk: (AccountSnapshot, Setup, Frames, int) -> Option<Advice>)

  const STEP := 300

  // ---- Point-in-time data

  /** The rows whose candle has closed by `now`. */
  function ClosedCandles(rows: seq<Candle>, now: int): seq<Candle> {
    if rows == [] then []
    else (if CloseTime(rows[0]) <= now then [rows[0]] else []) + ClosedCandles(rows[1..], now)
  }

  function View(frames: Frames, now: int): Frames {
    map tf | tf in frames :: ClosedCandles(frames[tf], now)
  }

  function FramesOf(history: History, symbol: string): Frames {
    if history == [] then map[]
    else if history[0].0 == symbol then history[0].1
    else FramesOf(history[1..], symbol)
  }

  function Rows(frames: Frames): seq<Candle> {
    if M5 in frames then frames[M5] else []
  }

  // ---- Events: five-minute closes within the window, ordered by (close, symbol)

  function EventsOf(symbol: string, rows: seq<Candle>, config: Config): seq<Event> {
    if rows == [] then []
    else
      var close := rows[0].timestamp + STEP;
      (if config.start <= close <= config.end then [Event(close, symbol, rows[0])] else [])
      + EventsOf(symbol, rows[1..], config)
  }

  function RawEvents(history: History, config: Config): seq<Event> {
    if history == [] then []
    else EventsOf(history[0].0, Rows(history[0].1), config) + RawEvents(history[1..], config)
  }

  predicate KeyLe(a: Event, b: Event) {
    a.time < b.time || (a.time == b.time && StringLe(a.symbol, b.symbol))
  }

  function InsertEvent(e: Event, es: seq<Event>): seq<Event> {
    if es == [] || KeyLe(e, es[0]) then [e] + es else [es[0]] + InsertEvent(e, es[1..])
  }

  /** Python's stable sort. */
  function SortEvents(es: seq<Event>): seq<Event> {
    if es == [] then [] else InsertEvent(es[0], SortEvents(es[1..]))
  }

  function Events(history: History, config: Config): seq<Event> {
    SortEvents(RawEvents(history, config))
  }

  // ---- One event

  function Open(st: State, symbol: string): Option<Position> {
    var i := IndexOf(st.book.open, symbol);
    if i < |st.book.open| then Some(st.book.open[i]) else None
  }

  function CloseOne(c: FillConfig, st: State, p: Position, fill: ExitFill, now: int): State {
    st.(book := RecordClose(st.book, Close(c, p, fill, now)),
        counters := st.counters.(exits := st.counters.exits + 1))
  }

  /** Stores the updated position, then closes it if a trigger fires. */
  function Track(c: FillConfig, st: State, p: Position, candle: Candle, now: int): State {
    var q := UpdateExcursions(p, candle);
    var st1 := st.(book := Put(st.book, q));
    match ExitTrigger(c, q, candle, now)
    case Some(fill) => CloseOne(c, st1, q, fill, now)
    case None => st1
  }

  function Begin(st: State, ev: Event): State {
    st.(counters := st.counters.(periods := st.counters.periods + 1),
        last := st.last[ev.symbol := ev.candle],
        book := UpdateMark(st.book, ev.symbol, ev.candle.close))
  }

  function ExitStep(c: FillConfig, st: State, ev: Event): State {
    match Open(st, ev.symbol)
    case Some(p) => Track(c, st, p, ev.candle, ev.time)
    case None => st
  }

  function EntryStep(c: FillConfig, st: State, ev: Event): Outcome {
    if ev.symbol !in st.pending then Running(st)
    else
      var queued := st.pending[ev.symbol];
      var popped := st.(pending := st.pending - {ev.symbol});
      if Holds(st.book.open, ev.symbol) then Running(popped)
      else if queued.delay > 1 then
        Running(popped.(pending := popped.pending[ev.symbol := queued.(delay := queued.delay - 1)]))
      else
        var tried := popped.(counters := popped.counters.(attempts := popped.counters.attempts + 1));
        match Enter(c, ev.symbol, queued.setup, queued.decision, ev.candle)
        case Raised => Failed
        case Skipped => Running(tried)
        case Filled(p) =>
          var added := tried.(book := Put(tried.book, p),
                              counters := tried.counters.(filled := tried.counters.filled + 1));
          Running(Track(c, added, p, ev.candle, ev.time))
  }

  /** The first setup the risk engine allows is queued; earlier ones count as rejected. */
  function Consider(env: Env, st: State, setups: seq<Setup>, view: Frames, symbol: string, now: int): Outcome
    decreases |setups|
  {
    if setups == [] then Running(st)
    else
      match env.risk(Snapshot(st.book, now), setups[0], view, now)
      case None => Failed
      case Some(a) =>
        if a.allowed then
          var decision := Decision(true, a.quantity, a.riskAmount, a.leverage, now);
          Running(st.(counters := st.counters.(approved := st.counters.approved + 1),
                      pending := st.pending[symbol := Queued(setups[0], decision, env.config.entryDelay)]))
        else
          Consider(env, st.(counters := st.counters.(rejected := st.counters.rejected + 1)), setups[1..], view, symbol,
                   now)
  }

  function EvaluateStep(env: Env, history: History, st: State, ev: Event): Outcome {
    if ev.time % Duration(env.config.evaluationTimeframe) != 0 || ev.symbol in st.pending then Running(st)
    else
      var view := View(FramesOf(history, ev.symbol), ev.time);
      match env.strategy(ev.symbol, view, ev.time)
      case None => Failed
      case Some(setups) =>
        Consider(env, st.(counters := st.counters.(detected := st.counters.detected + |setups|)),
                 setups, view, ev.symbol, ev.time)
  }

  function Step(env: Env, history: History, st: State, ev: Event): Outcome {
    match EntryStep(env.config.fill, ExitStep(env.config.fill, Begin(st, ev), ev), ev)
    case Failed => Failed
    case Running(st1) =>
      match EvaluateStep(env, history, st1, ev)
      case Failed => Failed
      case Running(st2) => Running(st2.(book := Mark(st2.book, ev.time)))
  }

  function Initial(config: Config): State {
    State(Fresh(config.initialEquity), map[], map[], Counters(0, 0, 0, 0, 0, 0, 0))
  }

  function Run(env: Env, history: History, events: seq<Event>): Outcome {
    if events == [] then Running(Initial(env.config))
    else
      match Run(env, history, events[..|events| - 1])
      case Failed => Failed
      case Running(st) => Step(env, history, st, events[|events| - 1])
  }

  // ---- End of run

  /** Closes a snapshot of the open positions at their symbol's last close. */
  function CloseEach(c: FillConfig, st: State, open: seq<Position>): Outcome
    decreases |open|
  {
    if open == [] then Running(st)
    else if open[0].symbol !in st.last then Failed
    else
      var candle := st.last[open[0].symbol];
      CloseEach(c, CloseOne(c, st, open[0], ExitFill(BacktestEnd, candle.close), CloseTime(candle)), open[1..])
  }

  function Complete(env: Env, history: History): Outcome {
    var events := Events(history, env.config);
    match Run(env, history, events)
    case Failed => Failed
    case Running(st) =>
      match CloseEach(env.config.fill, st, st.book.open)
      case Failed => Failed
      case Running(done) =>
        Running(if events == [] then done else done.(book := Mark(done.book, events[|events| - 1].time)))
  }

  lemma {:induction false} FailureIsFinal(env: Env, history: History, events: seq<Event>, n: nat)
    requires n <= |events| && Run(env, history, events[..n]) == Failed
    ensures Run(env, history, events) == Failed
    decreases |events|
  {
    if n < |events| {
      assert events[..|events| - 1][..n] == events[..n];
      FailureIsFinal(env, history, events[..|events| - 1], n);
    } else {
      assert events[..n] == events;
    }
  }

  // ---- The imperative run

  method DoTrack(c: FillConfig, portfolio: Portfolio, p: Position, candle: Candle, now: int, before: Counters,
                 ghost st: State)
    returns (counters: Counters)
    requires st.book == portfolio.Value() && st.counters == before
    modifies portfolio
    ensures var r := Track(c, st, p, candle, now); portfolio.Value() == r.book && counters == r.counters
    ensures Track(c, st, p, candle, now).pending == st.pending && Track(c, st, p, candle, now).last == st.last
  {
    counters := before;
    var updated := UpdateExcursions(p, candle);
    portfolio.Replace(updated);
    var fill := ExitTrigger(c, updated, candle, now);
    if fill.Some? {
      portfolio.Record(Close(c, updated, fill.value, now));
      counters := counters.(exits := counters.exits + 1);
    }
  }

  method DoConsider(env: Env, portfolio: Portfolio, setups: seq<Setup>, view: Frames, symbol: string, now: int,
                    before: Counters, queue: map<string, Queued>, ghost st: State)
    returns (failed: bool, counters: Counters, pending: map<string, Queued>)
    requires st.book == portfolio.Value() && st.counters == before && st.pending == queue
    ensures Consider(env, st, setups, view, symbol, now)
         == if failed then Failed else Running(st.(counters := counters, pending := pending))
  {
    hide Snapshot;
    failed, counters, pending := false, before, queue;
    for i := 0 to |setups|
      invariant pending == queue && !failed
      invariant Consider(env, st, setups, view, symbol, now)
             == Consider(env, st.(counters := counters), setups[i..], view, symbol, now)
    {
      var account := Snapshot(portfolio.Value(), now);
      var advice := env.risk(account, setups[i], view, now);
      assert setups[i..][0] == setups[i] && setups[i..][1..] == setups[i + 1..];
      if advice.None? {
        return true, counters, pending;
      }
      var a := advice.value;
      if a.allowed {
        counters := counters.(approved := counters.approved + 1);
        pending := pending[symbol := Queued(setups[i], Decision(true, a.quantity, a.riskAmount, a.leverage, now),
                                            env.config.entryDelay)];
        return;
      }
      counters := counters.(rejected := counters.rejected + 1);
    }
  }

  /** Closes every open position at the end of the run. */
  method DoCloseAll(c: FillConfig, portfolio: Portfolio, before: Counters, last: map<string, Candle>, ghost st: State)
    returns (failed: bool, counters: Counters)
    requires st == State(portfolio.Value(), st.pending, last, before)
    modifies portfolio
    ensures CloseEach(c, st, st.book.open)
         == if failed then Failed else Running(State(portfolio.Value(), st.pending, last, counters))
  {
    hide RecordClose, Close;
    failed, counters := false, before;
    var open := portfolio.open;
    for i := 0 to |open|
      invariant CloseEach(c, st, open)
             == CloseEach(c, State(portfolio.Value(), st.pending, last, counters), open[i..])
    {
      assert open[i..][0] == open[i] && open[i..][1..] == open[i + 1..];
      if open[i].symbol !in last {
        return true, counters;
      }
      var candle := last[open[i].symbol];
      portfolio.Record(Close(c, open[i], ExitFill(BacktestEnd, candle.close), CloseTime(candle)));
      counters := counters.(exits := counters.exits + 1);
    }
  }

  method RunBacktest(env: Env, history: History) returns (r: Outcome)
    ensures r == Complete(env, history)
  {
    hide Step, CloseEach, Events, AccountEquity, DailyPnl;
    var c := env.config.fill;
    var portfolio := new Portfolio(env.config.initialEquity);
    var counters := Counters(0, 0, 0, 0, 0, 0, 0);
    var pending: map<string, Queued> := map[];
    var last: map<string, Candle> := map[];
    var events := Events(history, env.config);
    for n := 0 to |events|
      invariant Run(env, history, events[..n]) == Running(State(portfolio.Value(), pending, last, counters))
    {
      var ev := events[n];
      assert events[..n + 1][..n] == events[..n];
      ghost var st := State(portfolio.Value(), pending, last, counters);
      assert Run(env, history, events[..n + 1]) == Step(env, history, st, ev);
      var failed;
      failed, counters, pending := DoStep(env, history, portfolio, ev, counters, pending, last[ev.symbol := ev.candle],
                                          st);
      last := last[ev.symbol := ev.candle];
      if failed {
        FailureIsFinal(env, history, events, n + 1);
        return Failed;
      }
    }
    assert events[..|events|] == events;
    var failed;
    failed, counters := DoCloseAll(c, portfolio, counters, last, State(portfolio.Value(), pending, last, counters));
    if failed {
      return Failed;
    }
    if events != [] {
      portfolio.MarkEquity(events[|events| - 1].time);
    }
    r := Running(State(portfolio.Value(), pending, last, counters));
  }

  /** The body of the event loop. */
  method DoStep(env: Env, history: History, portfolio: Portfolio, ev: Event, before: Counters,
                queue: map<string, Queued>, last: map<string, Candle>, ghost st: State)
    returns (failed: bool, counters: Counters, pending: map<string, Queued>)
    requires st == State(portfolio.Value(), queue, st.last, before) && last == st.last[ev.symbol := ev.candle]
    modifies portfolio
    ensures Step(env, history, st, ev)
         == if failed then Failed else Running(State(portfolio.Value(), pending, last, counters))
  {
    hide RecordClose, Mark, UpdateMark, Put, Enter, ExitTrigger, Close, UpdateExcursions, Track, Consider, View,
      FramesOf;
    var c, symbol := env.config.fill, ev.symbol;
    failed, pending := false, queue;
    counters := before.(periods := before.periods + 1);
    portfolio.SetMark(symbol, ev.candle.close);
    ghost var begun := State(portfolio.Value(), pending, last, counters);
    assert begun == Begin(st, ev);
    var i := IndexOf(portfolio.open, symbol);
    if i < |portfolio.open| {
      counters := DoTrack(c, portfolio, portfolio.open[i], ev.candle, ev.time, counters, begun);
    }
    ghost var exited := State(portfolio.Value(), pending, last, counters);
    assert exited == ExitStep(c, begun, ev);
    if symbol in pending {
      var queued := pending[symbol];
      pending := pending - {symbol};
      if !Holds(portfolio.open, symbol) {
        if queued.delay > 1 {
          pending := pending[symbol := queued.(delay := queued.delay - 1)];
        } else {
          counters := counters.(attempts := counters.attempts + 1);
          var attempt := Enter(c, symbol, queued.setup, queued.decision, ev.candle);
          if attempt.Raised? {
            assert EntryStep(c, exited, ev) == Failed;
            return true, counters, pending;
          }
          if attempt.Filled? {
            var added := portfolio.Add(attempt.position);
            if added {
              counters := counters.(filled := counters.filled + 1);
              counters := DoTrack(c, portfolio, attempt.position, ev.candle, ev.time, counters,
                                  State(portfolio.Value(), pending, last, counters));
            }
          }
        }
      }
    }
    ghost var entered := State(portfolio.Value(), pending, last, counters);
    assert EntryStep(c, exited, ev) == Running(entered);
    if ev.time % Duration(env.config.evaluationTimeframe) == 0 && symbol !in pending {
      var view := View(FramesOf(history, symbol), ev.time);
      var setups := env.strategy(symbol, view, ev.time);
      if setups.None? {
        return true, counters, pending;
      }
      counters := counters.(detected := counters.detected + |setups.value|);
      failed, counters, pending := DoConsider(env, portfolio, setups.value, view, symbol, ev.time, counters, pending,
                                              State(portfolio.Value(), pending, last, counters));
      if failed {
        return;
      }
    }
    assert EvaluateStep(env, history, entered, ev) == Running(State(portfolio.Value(), pending, last, counters));
    portfolio.MarkEquity(ev.time);
  }
}
