/** When the run consults the strategy and risk, and what it queues. */
module BacktestDecisions {
  import opened Common
  import opened Candles
  import opened BacktestExecution
  import opened BacktestPortfolio
  import opened BacktestEngine
  import opened BacktestLaws

  /** The state after marking, exits and entries of one event, before any evaluation. */
  function Entered(env: Env, st: State, ev: Event): Outcome {
    EntryStep(env.config.fill, ExitStep(env.config.fill, Begin(st, ev), ev), ev)
  }

  predicate OnBoundary(env: Env, time: int) { time % Duration(env.config.evaluationTimeframe) == 0 }

  /** The risk answers for a list of setups, on one account and one view. */
  function AnswerTo(env: Env, st: State, ev: Event, view: Frames, setup: Setup): Option<Advice> {
    env.risk(Snapshot(st.book, ev.time), setup, view, ev.time)
  }

  ghost predicate AllRefused(env: Env, st: State, ev: Event, view: Frames, setups: seq<Setup>) {
    forall j :: 0 <= j < |setups| ==>
      AnswerTo(env, st, ev, view, setups[j]).Some? && !AnswerTo(env, st, ev, view, setups[j]).value.allowed
  }

  // ---- Considering a list of setups

  lemma {:induction false} RefusedAreCounted(env: Env, st: State, ev: Event, view: Frames, setups: seq<Setup>, k: nat)
    requires k <= |setups| && AllRefused(env, st, ev, view, setups[..k])
    ensures Consider(env, st, setups, view, ev.symbol, ev.time)
         == Consider(env, st.(counters := st.counters.(rejected := st.counters.rejected + k)), setups[k..], view,
                     ev.symbol, ev.time)
    decreases k
  {
    hide Snapshot;
    if k == 0 {
      assert setups[0..] == setups;
    } else {
      var next := st.(counters := st.counters.(rejected := st.counters.rejected + 1));
      assert setups[..k][0] == setups[0] && setups[1..][..k - 1] == setups[..k][1..];
      assert setups[1..][k - 1..] == setups[k..];
      assert forall j :: 0 <= j < |setups[1..]| ==> setups[1..][j] == setups[j + 1];
      RefusedAreCounted(env, next, ev, view, setups[1..], k - 1);
    }
  }

  /** The first allowed setup is the one queued; nothing after it is asked about. */
  lemma FirstAllowedIsQueued(env: Env, st: State, ev: Event, view: Frames, setups: seq<Setup>, k: nat)
    requires k < |setups| && AllRefused(env, st, ev, view, setups[..k])
    requires AnswerTo(env, st, ev, view, setups[k]).Some? && AnswerTo(env, st, ev, view, setups[k]).value.allowed
    ensures var a, n := AnswerTo(env, st, ev, view, setups[k]).value, st.counters;
      Consider(env, st, setups, view, ev.symbol, ev.time)
      == Running(st.(counters := n.(rejected := n.rejected + k, approved := n.approved + 1),
                     pending := st.pending[ev.symbol :=
                       Queued(setups[k], Decision(true, a.quantity, a.riskAmount, a.leverage, ev.time),
                              env.config.entryDelay)]))
  {
    hide Snapshot;
    RefusedAreCounted(env, st, ev, view, setups, k);
    assert setups[k..][0] == setups[k];
  }

  lemma NoneAllowed(env: Env, st: State, ev: Event, view: Frames, setups: seq<Setup>)
    requires AllRefused(env, st, ev, view, setups)
    ensures Consider(env, st, setups, view, ev.symbol, ev.time)
         == Running(st.(counters := st.counters.(rejected := st.counters.rejected + |setups|)))
  {
    hide Snapshot;
    assert setups[..|setups|] == setups && setups[|setups|..] == [];
    RefusedAreCounted(env, st, ev, view, setups, |setups|);
  }

  lemma RaisingAnswerFails(env: Env, st: State, ev: Event, view: Frames, setups: seq<Setup>, k: nat)
    requires k < |setups| && AllRefused(env, st, ev, view, setups[..k])
    requires AnswerTo(env, st, ev, view, setups[k]).None?
    ensures Consider(env, st, setups, view, ev.symbol, ev.time) == Failed
  {
    hide Snapshot;
    RefusedAreCounted(env, st, ev, view, setups, k);
    assert setups[k..][0] == setups[k];
  }

  // ---- One event

  /** The candles of the event's symbol that have closed by the event. */
  function ViewAt(history: History, ev: Event): Frames { View(FramesOf(history, ev.symbol), ev.time) }

  /** The strategy is asked: on a boundary of the evaluation timeframe, with nothing queued for the symbol. */
  predicate Asks(env: Env, st: State, ev: Event) { OnBoundary(env, ev.time) && ev.symbol !in st.pending }

  /** The step after the entry part, book and last candle included. */
  predicate Leaves(env: Env, st: State, ev: Event, r: Outcome, pending: map<string, Queued>, counters: Counters) {
    r == Running(State(Mark(st.book, ev.time), pending, st.last, counters))
  }

  /** Off the boundary, or with a setup still queued, nothing is evaluated, queued or counted. */
  lemma NotAsked(env: Env, history: History, st: State, ev: Event)
    requires Entered(env, st, ev).Running? && !Asks(env, Entered(env, st, ev).st, ev)
    ensures var e := Entered(env, st, ev).st; Leaves(env, e, ev, Step(env, history, st, ev), e.pending, e.counters)
  {
    hide EntryStep, ExitStep, Begin, Mark, View, FramesOf, Consider;
  }

  /**
   On a boundary with nothing queued, the first setup that risk allows is queued
   with the configured delay and the time of the event; the setups before it count
   as rejected, and all of them as detected.
   */
  lemma AllowedIsQueued(env: Env, history: History, st: State, ev: Event, k: nat)
    requires Entered(env, st, ev).Running? && Asks(env, Entered(env, st, ev).st, ev)
    requires env.strategy(ev.symbol, ViewAt(history, ev), ev.time).Some?
    requires k < |env.strategy(ev.symbol, ViewAt(history, ev), ev.time).value|
    requires var setups, e := env.strategy(ev.symbol, ViewAt(history, ev), ev.time).value, Entered(env, st, ev).st;
      && AllRefused(env, e, ev, ViewAt(history, ev), setups[..k])
      && AnswerTo(env, e, ev, ViewAt(history, ev), setups[k]).Some?
      && AnswerTo(env, e, ev, ViewAt(history, ev), setups[k]).value.allowed
    ensures var setups, e := env.strategy(ev.symbol, ViewAt(history, ev), ev.time).value, Entered(env, st, ev).st;
      var a, n := AnswerTo(env, e, ev, ViewAt(history, ev), setups[k]).value, e.counters;
      Leaves(env, e, ev, Step(env, history, st, ev),
             e.pending[ev.symbol := Queued(setups[k], Decision(true, a.quantity, a.riskAmount, a.leverage, ev.time),
                                           env.config.entryDelay)],
             n.(detected := n.detected + |setups|, rejected := n.rejected + k, approved := n.approved + 1))
  {
    hide EntryStep, ExitStep, Begin, Mark, View, FramesOf, Consider, Snapshot;
    var setups, e := env.strategy(ev.symbol, ViewAt(history, ev), ev.time).value, Entered(env, st, ev).st;
    var asked := e.(counters := e.counters.(detected := e.counters.detected + |setups|));
    FirstAllowedIsQueued(env, asked, ev, ViewAt(history, ev), setups, k);
  }

  /** With every setup refused the queue stays as it was. */
  lemma RefusedIsCounted(env: Env, history: History, st: State, ev: Event)
    requires Entered(env, st, ev).Running? && Asks(env, Entered(env, st, ev).st, ev)
    requires env.strategy(ev.symbol, ViewAt(history, ev), ev.time).Some?
    requires AllRefused(env, Entered(env, st, ev).st, ev, ViewAt(history, ev),
                        env.strategy(ev.symbol, ViewAt(history, ev), ev.time).value)
    ensures var setups, e := env.strategy(ev.symbol, ViewAt(history, ev), ev.time).value, Entered(env, st, ev).st;
      Leaves(env, e, ev, Step(env, history, st, ev), e.pending,
             e.counters.(detected := e.counters.detected + |setups|, rejected := e.counters.rejected + |setups|))
  {
    hide EntryStep, ExitStep, Begin, Mark, View, FramesOf, Consider, Snapshot;
    var setups, e := env.strategy(ev.symbol, ViewAt(history, ev), ev.time).value, Entered(env, st, ev).st;
    NoneAllowed(env, e.(counters := e.counters.(detected := e.counters.detected + |setups|)), ev, ViewAt(history, ev),
                setups);
  }

  /** A step fails exactly when the entry raises, or a strategy that is asked raises, or risk raises before allowing. */
  lemma StepFailsExactly(env: Env, history: History, st: State, ev: Event)
    ensures Step(env, history, st, ev) == Failed <==>
      || Entered(env, st, ev) == Failed
      || (var e := Entered(env, st, ev).st;
          && Asks(env, e, ev)
          && var answer := env.strategy(ev.symbol, ViewAt(history, ev), ev.time);
          (answer.None? || RaisesFirst(env, e, ev, ViewAt(history, ev), answer.value)))
  {
    hide EntryStep, ExitStep, Begin, Mark, View, FramesOf, Consider, Snapshot, RaisesFirst;
    var entered := Entered(env, st, ev);
    if entered.Running? && Asks(env, entered.st, ev) {
      var answer := env.strategy(ev.symbol, ViewAt(history, ev), ev.time);
      if answer.Some? {
        var e := entered.st;
        var asked := e.(counters := e.counters.(detected := e.counters.detected + |answer.value|));
        ConsiderFailsExactly(env, asked, ev, ViewAt(history, ev), answer.value);
        SameAnswers(env, e, asked, ev, ViewAt(history, ev), answer.value);
      }
    }
  }

  /** Some answer raises, and every answer before it refuses. */
  ghost predicate RaisesFirst(env: Env, st: State, ev: Event, view: Frames, setups: seq<Setup>) {
    exists k :: 0 <= k < |setups| && AnswerTo(env, st, ev, view, setups[k]).None?
      && AllRefused(env, st, ev, view, setups[..k])
  }

  lemma SameAnswers(env: Env, a: State, b: State, ev: Event, view: Frames, setups: seq<Setup>)
    requires a.book == b.book
    ensures RaisesFirst(env, a, ev, view, setups) <==> RaisesFirst(env, b, ev, view, setups)
  {
    hide Snapshot;
    forall s
      ensures AnswerTo(env, a, ev, view, s) == AnswerTo(env, b, ev, view, s)
    {
    }
  }

  lemma {:induction false} ConsiderFailsExactly(env: Env, st: State, ev: Event, view: Frames, setups: seq<Setup>)
    ensures Consider(env, st, setups, view, ev.symbol, ev.time) == Failed <==> RaisesFirst(env, st, ev, view, setups)
  {
    hide Snapshot, Consider;
    var k := FirstDecisive(env, st, ev, view, setups);
    if k == |setups| {
      assert setups[..k] == setups;
      NoneAllowed(env, st, ev, view, setups);
    } else if AnswerTo(env, st, ev, view, setups[k]).None? {
      RaisingAnswerFails(env, st, ev, view, setups, k);
    } else {
      FirstAllowedIsQueued(env, st, ev, view, setups, k);
      forall m | 0 <= m < |setups|
        ensures AnswerTo(env, st, ev, view, setups[m]).Some? || !AllRefused(env, st, ev, view, setups[..m])
      {
        if m < k {
          assert setups[..k][m] == setups[m];
        } else if m > k {
          assert setups[..m][k] == setups[k];
        }
      }
    }
  }

  lemma FirstDecisive(env: Env, st: State, ev: Event, view: Frames, setups: seq<Setup>) returns (k: nat)
    ensures k <= |setups| && AllRefused(env, st, ev, view, setups[..k])
    ensures k < |setups| ==>
      AnswerTo(env, st, ev, view, setups[k]).None? || AnswerTo(env, st, ev, view, setups[k]).value.allowed
  {
    hide Snapshot;
    k := 0;
    while k < |setups| && AnswerTo(env, st, ev, view, setups[k]).Some?
          && !AnswerTo(env, st, ev, view, setups[k]).value.allowed
      invariant k <= |setups| && AllRefused(env, st, ev, view, setups[..k])
    {
      k := k + 1;
    }
  }

  // ---- What the strategy sees

  /** The view holds exactly the rows closed by now, each as often as it occurs. */
  lemma {:induction false} ViewIsClosed(rows: seq<Candle>, now: int, c: Candle)
    ensures multiset(ClosedCandles(rows, now))[c]
         == if c.timestamp + Duration(c.timeframe) <= now then multiset(rows)[c] else 0
  {
    if rows != [] {
      ViewIsClosed(rows[1..], now, c);
      assert rows == [rows[0]] + rows[1..];
    }
  }

  predicate CloseInOrder(rows: seq<Candle>) {
    forall i, j :: 0 <= i < j < |rows| ==> CloseTime(rows[i]) <= CloseTime(rows[j])
  }

  lemma {:induction false} NoneClosed(rows: seq<Candle>, now: int)
    requires forall c <- rows :: CloseTime(c) > now
    ensures ClosedCandles(rows, now) == []
  {
    if rows != [] {
      assert rows[0] in rows;
      NoneClosed(rows[1..], now);
    }
  }

  /** On rows that close in order the view is the prefix closed by now. */
  lemma {:induction false} ViewIsPrefix(rows: seq<Candle>, now: int)
    requires CloseInOrder(rows)
    ensures ClosedCandles(rows, now) <= rows
    ensures forall i :: 0 <= i < |rows| ==>
      (i < |ClosedCandles(rows, now)| <==> rows[i].timestamp + Duration(rows[i].timeframe) <= now)
  {
    if rows == [] {
    } else if CloseTime(rows[0]) <= now {
      assert rows == [rows[0]] + rows[1..];
      assert forall i :: 0 <= i < |rows[1..]| ==> rows[1..][i] == rows[i + 1];
      ViewIsPrefix(rows[1..], now);
    } else {
      NoneClosed(rows, now);
    }
  }

  // ---- The events of a run

  /** There is one event for each five-minute row of a symbol that closes within the window. */
  lemma {:induction false} EventsExactly(history: History, config: Config, e: Event)
    ensures e in Events(history, config) <==>
      && e.time == e.candle.timestamp + 300 && config.start <= e.time <= config.end
      && exists i :: 0 <= i < |history| && history[i].0 == e.symbol
                     && M5 in history[i].1 && e.candle in history[i].1[M5]
  {
    hide RawEvents, SortEvents;
    SortChronological(RawEvents(history, config));
    RawExactly(history, config, e);
  }

  lemma {:induction false} RawExactly(history: History, config: Config, e: Event)
    ensures e in RawEvents(history, config) <==>
      && e.time == e.candle.timestamp + 300 && config.start <= e.time <= config.end
      && exists i :: 0 <= i < |history| && history[i].0 == e.symbol && e.candle in Rows(history[i].1)
  {
    hide Rows, EventsOf;
    if history != [] {
      var rest := history[1..];
      assert forall i :: 0 <= i < |rest| ==> rest[i] == history[i + 1];
      RawExactly(rest, config, e);
      EventsOfExactly(history[0].0, Rows(history[0].1), config, e);
      if i :| 0 <= i < |history| && history[i].0 == e.symbol && e.candle in Rows(history[i].1) {
        if i > 0 {
          assert rest[i - 1].0 == e.symbol;
        }
      }
    }
  }

  lemma {:induction false} EventsOfExactly(symbol: string, rows: seq<Candle>, config: Config, e: Event)
    ensures e in EventsOf(symbol, rows, config) <==>
      && e.time == e.candle.timestamp + 300 && config.start <= e.time <= config.end
      && symbol == e.symbol && e.candle in rows
  {
    if rows != [] {
      EventsOfExactly(symbol, rows[1..], config, e);
      assert rows == [rows[0]] + rows[1..];
    }
  }

  /** They come by time of close, and at one time by symbol. */
  lemma EventsOrdered(history: History, config: Config, i: nat, j: nat)
    requires i < j < |Events(history, config)|
    ensures var a, b := Events(history, config)[i], Events(history, config)[j];
      a.time < b.time || (a.time == b.time && StringLe(a.symbol, b.symbol))
  {
    hide RawEvents, SortEvents;
    SortInOrder(RawEvents(history, config));
  }

  ghost predicate InKeyOrder(es: seq<Event>) { forall i, j :: 0 <= i < j < |es| ==> KeyLe(es[i], es[j]) }

  lemma KeyTotal(a: Event, b: Event)
    ensures KeyLe(a, b) || KeyLe(b, a)
  {
    hide StringLe;
    StringTotal(a.symbol, b.symbol);
  }

  lemma KeyTransitive(a: Event, b: Event, c: Event)
    requires KeyLe(a, b) && KeyLe(b, c)
    ensures KeyLe(a, c)
  {
    hide StringLe;
    if a.time == b.time == c.time {
      StringTransitive(a.symbol, b.symbol, c.symbol);
    }
  }

  lemma {:induction false} InsertInOrder(e: Event, es: seq<Event>)
    requires InKeyOrder(es)
    ensures InKeyOrder(InsertEvent(e, es))
    ensures forall x :: x in InsertEvent(e, es) <==> x == e || x in es
  {
    hide KeyLe;
    if es != [] && !KeyLe(e, es[0]) {
      assert es == [es[0]] + es[1..];
      InsertInOrder(e, es[1..]);
      KeyTotal(e, es[0]);
      var r := InsertEvent(e, es[1..]);
      forall x | x in r
        ensures KeyLe(es[0], x)
      {
        if x != e {
          var k :| 0 <= k < |es[1..]| && es[1..][k] == x;
          assert es[k + 1] == x;
        }
      }
    } else if es != [] {
      forall k | 0 <= k < |es|
        ensures KeyLe(e, es[k])
      {
        if k > 0 {
          KeyTransitive(e, es[0], es[k]);
        }
      }
    }
  }

  lemma {:induction false} SortInOrder(es: seq<Event>)
    ensures InKeyOrder(SortEvents(es))
  {
    hide KeyLe;
    if es != [] {
      SortInOrder(es[1..]);
      InsertInOrder(es[0], SortEvents(es[1..]));
    }
  }

  // ---- When a queued setup is tried

  /** A queued setup counts down one event of its symbol at a time, and is then tried; a held symbol drops it. */
  lemma QueueCountsDown(env: Env, st: State, ev: Event)
    requires ev.symbol in st.pending
    ensures var q, x := st.pending[ev.symbol], ExitStep(env.config.fill, Begin(st, ev), ev);
      var r := Entered(env, st, ev);
      && x.pending == st.pending
      && (Holds(x.book.open, ev.symbol) ==> r == Running(x.(pending := st.pending - {ev.symbol})))
      && (!Holds(x.book.open, ev.symbol) && q.delay > 1 ==>
            r == Running(x.(pending := st.pending[ev.symbol := q.(delay := q.delay - 1)])))
      && (!Holds(x.book.open, ev.symbol) && q.delay <= 1 ==>
            match Enter(env.config.fill, ev.symbol, q.setup, q.decision, ev.candle)
            case Raised => r == Failed
            case Skipped =>
              r == Running(x.(pending := st.pending - {ev.symbol},
                              counters := x.counters.(attempts := x.counters.attempts + 1)))
            case Filled(p) =>
              && r.Running? && r.st.pending == st.pending - {ev.symbol}
              && r.st.counters.attempts == x.counters.attempts + 1
              && r.st.counters.filled == x.counters.filled + 1
              && r.st == Track(env.config.fill,
                               x.(pending := r.st.pending, book := x.book.(open := x.book.open + [p]),
                                  counters := x.counters.(attempts := x.counters.attempts + 1,
                                                          filled := x.counters.filled + 1)),
                               p, ev.candle, ev.time))
  {
    hide Track, Enter, Mark, Close, RecordClose;
    var c := env.config.fill;
    TrackKeeps(c, Begin(st, ev), ev);
    var x := ExitStep(c, Begin(st, ev), ev);
    assert x.pending == st.pending;
    var q := st.pending[ev.symbol];
    if !Holds(x.book.open, ev.symbol) && q.delay > 1 {
      assert (st.pending - {ev.symbol})[ev.symbol := q.(delay := q.delay - 1)]
          == st.pending[ev.symbol := q.(delay := q.delay - 1)];
    }
    if !Holds(x.book.open, ev.symbol) && q.delay <= 1 {
      var attempt := Enter(c, ev.symbol, q.setup, q.decision, ev.candle);
      if attempt.Filled? {
        var tried := x.(pending := x.pending - {ev.symbol},
                        counters := x.counters.(attempts := x.counters.attempts + 1));
        var added := tried.(book := Put(tried.book, attempt.position),
                            counters := tried.counters.(filled := tried.counters.filled + 1));
        TrackKeeps(c, added, ev);
        TrackCounts(c, added, attempt.position, ev);
      }
    }
  }

  lemma TrackCounts(c: FillConfig, st: State, p: Position, ev: Event)
    ensures var r := Track(c, st, p, ev.candle, ev.time);
      r.counters == st.counters || r.counters == st.counters.(exits := st.counters.exits + 1)
  {
    hide ExitTrigger, Close, RecordClose, Put, UpdateExcursions;
  }

  /** Without a queued setup the entry part does nothing. */
  lemma NothingQueued(env: Env, st: State, ev: Event)
    requires ev.symbol !in st.pending
    ensures Entered(env, st, ev) == Running(ExitStep(env.config.fill, Begin(st, ev), ev))
  {
    hide Track;
    TrackKeeps(env.config.fill, Begin(st, ev), ev);
  }

  // ---- Every decision of a run was taken on a boundary

  ghost predicate BoundaryOnly(env: Env, st: State) {
    && (forall s <- st.pending :: OnBoundary(env, st.pending[s].decision.decidedAt))
    && (forall p <- st.book.open :: OnBoundary(env, p.decision.decidedAt))
    && (forall t <- st.book.trades :: OnBoundary(env, t.position.decision.decidedAt))
  }

  lemma CloseOneBoundary(env: Env, st: State, p: Position, fill: ExitFill, now: int)
    requires BoundaryOnly(env, st) && OnBoundary(env, p.decision.decidedAt)
    ensures BoundaryOnly(env, CloseOne(env.config.fill, st, p, fill, now))
  {
    hide SlippedPrice, Fee, AddDaily, DayOf, IndexOf, OnBoundary;
    assert forall q <- Without(st.book.open, p.symbol) :: q in st.book.open;
  }

  lemma TrackBoundary(env: Env, st: State, p: Position, candle: Candle, now: int)
    requires BoundaryOnly(env, st) && OnBoundary(env, p.decision.decidedAt)
    ensures BoundaryOnly(env, Track(env.config.fill, st, p, candle, now))
  {
    hide IndexOf, ExitTrigger, CloseOne, OnBoundary;
    var q := UpdateExcursions(p, candle);
    var st1 := st.(book := Put(st.book, q));
    assert forall x <- With(st.book.open, q) :: x == q || x in st.book.open;
    var fill := ExitTrigger(env.config.fill, q, candle, now);
    if fill.Some? {
      CloseOneBoundary(env, st1, q, fill.value, now);
    }
  }

  lemma EnteredBoundary(env: Env, st: State, ev: Event)
    requires BoundaryOnly(env, st)
    ensures Entered(env, st, ev).Running? ==> BoundaryOnly(env, Entered(env, st, ev).st)
  {
    hide Track, Enter, IndexOf, OnBoundary, Holds;
    var c, begun := env.config.fill, Begin(st, ev);
    assert BoundaryOnly(env, begun);
    var p := Open(begun, ev.symbol);
    TrackKeeps(c, begun, ev);
    if p.Some? {
      TrackBoundary(env, begun, p.value, ev.candle, ev.time);
    }
    var x := ExitStep(c, begun, ev);
    assert BoundaryOnly(env, x);
    if ev.symbol in x.pending && !Holds(x.book.open, ev.symbol) && x.pending[ev.symbol].delay <= 1 {
      var q := x.pending[ev.symbol];
      var attempt := Enter(c, ev.symbol, q.setup, q.decision, ev.candle);
      if attempt.Filled? {
        var added := x.(pending := x.pending - {ev.symbol}, book := Put(x.book, attempt.position),
                        counters := x.counters.(attempts := x.counters.attempts + 1, filled := x.counters.filled + 1));
        assert forall y <- With(x.book.open, attempt.position) :: y == attempt.position || y in x.book.open;
        TrackBoundary(env, added, attempt.position, ev.candle, ev.time);
      }
    }
  }

  lemma StepBoundary(env: Env, history: History, st: State, ev: Event)
    requires BoundaryOnly(env, st)
    ensures var r := Step(env, history, st, ev); r.Running? ==> BoundaryOnly(env, r.st)
  {
    hide EntryStep, ExitStep, Begin, Consider, View, FramesOf;
    EnteredBoundary(env, st, ev);
    var entered := Entered(env, st, ev);
    if entered.Running? {
      if Asks(env, entered.st, ev) {
        EvaluateKeeps(env, history, entered.st, ev);
      } else {
        NotAsked(env, history, st, ev);
      }
    }
  }

  lemma {:induction false} RunBoundary(env: Env, history: History, events: seq<Event>)
    ensures var r := Run(env, history, events); r.Running? ==> BoundaryOnly(env, r.st)
  {
    hide Step, OnBoundary;
    if events != [] {
      var before := events[..|events| - 1];
      RunBoundary(env, history, before);
      var r := Run(env, history, before);
      if r.Running? {
        StepBoundary(env, history, r.st, events[|events| - 1]);
      }
    }
  }

  lemma {:induction false} CloseEachBoundary(env: Env, st: State, open: seq<Position>)
    requires BoundaryOnly(env, st) && forall p <- open :: OnBoundary(env, p.decision.decidedAt)
    ensures var r := CloseEach(env.config.fill, st, open); r.Running? ==> BoundaryOnly(env, r.st)
    decreases |open|
  {
    hide OnBoundary, CloseOne;
    if open != [] && open[0].symbol in st.last {
      var candle := st.last[open[0].symbol];
      var fill := ExitFill(BacktestEnd, candle.close);
      assert open[0] in open;
      CloseOneBoundary(env, st, open[0], fill, CloseTime(candle));
      CloseOneLast(env.config.fill, st, open[0], fill, CloseTime(candle));
      CloseEachBoundary(env, CloseOne(env.config.fill, st, open[0], fill, CloseTime(candle)), open[1..]);
    }
  }

  lemma CloseOneLast(c: FillConfig, st: State, p: Position, fill: ExitFill, now: int)
    ensures CloseOne(c, st, p, fill, now).last == st.last
  {
    hide RecordClose, Close;
  }

  /** Every trade of a completed run was decided on a boundary of the evaluation timeframe. */
  lemma DecidedOnBoundary(env: Env, history: History)
    ensures var r := Complete(env, history);
      r.Running? ==> forall t <- r.st.book.trades ::
        t.position.decision.decidedAt % Duration(env.config.evaluationTimeframe) == 0
  {
    hide Run, Events, CloseEach;
    var events := Events(history, env.config);
    RunBoundary(env, history, events);
    var r := Run(env, history, events);
    if r.Running? {
      CloseEachBoundary(env, r.st, r.st.book.open);
    }
  }

  // ---- What risk is shown, and what the run remembers

  /** What an open position would gain at a price. */
  function PaperGain(p: Position, price: real): real { Sign(p.direction) * (price - p.entryPrice) * p.quantity }

  function GainsAt(prices: map<string, real>): Position -> real {
    (p: Position) => if p.symbol in prices then PaperGain(p, prices[p.symbol]) else 0.0
  }

  lemma {:induction false} UnrealizedExactly(prices: map<string, real>, open: seq<Position>)
    ensures Unrealized(prices, open) == SumBy(GainsAt(prices), open)
  {
    if open != [] {
      UnrealizedExactly(prices, open[1..]);
      var p := open[0];
      var price := if p.symbol in prices then prices[p.symbol] else p.entryPrice;
      var d, q, g := price - p.entryPrice, p.quantity, Sign(p.direction);
      assert d * q * g == g * d * q;
    }
  }

  /** The margin a position ties up: its notional at its own leverage, at least one. */
  predicate TiesUp(p: Position, margin: real) {
    (p.leverage >= 1.0 ==> margin * p.leverage == p.notional) && (p.leverage < 1.0 ==> margin == p.notional)
  }

  lemma MarginExactly(p: Position)
    ensures TiesUp(p, MarginOf(p))
  {
  }

  /**
   The account shown to risk: cash and paper gains, floored just above zero; what the
   margins leave of it; the day's result and the cash the day began with; the
   positions with their notionals.
   */
  lemma SnapshotExactly(b: Book, now: int)
    requires Balanced(b)
    ensures var s := Snapshot(b, now);
      var total := b.initialEquity + SumBy(Net, b.trades) + SumBy(GainsAt(b.lastPrices), b.open);
      && s.equity == Max(total, 0.000000001)
      && s.available == Max(total - SumBy(MarginOf, b.open), 0.0)
      && s.unrealized == SumBy(GainsAt(b.lastPrices), b.open)
      && s.realizedToday == NetOnDay(b.trades, DayOf(now))
      && s.startingDayEquity == Max(b.equity - s.realizedToday, 0.000000001)
      && s.consecutiveLosses == b.consecutiveLosses && s.timestamp == now
      && |s.open| == |b.open|
      && forall i :: 0 <= i < |b.open| ==> s.open[i] == (b.open[i].symbol, b.open[i].direction, b.open[i].notional)
  {
    hide SumBy, NetOnDay, DailyPnl, CurveSound, PeakOf, IsTrailingRun, DayOf, MarginOf, GainsAt;
    UnrealizedExactly(b.lastPrices, b.open);
    ExposuresExactly(b.open);
  }

  lemma {:induction false} ExposuresExactly(open: seq<Position>)
    ensures |Exposures(open)| == |open|
    ensures forall i :: 0 <= i < |open| ==> Exposures(open)[i] == (open[i].symbol, open[i].direction, open[i].notional)
  {
    if open != [] {
      ExposuresExactly(open[1..]);
    }
  }

  /** A marked point of the equity curve: cash and paper gains, the fall from the peak, and the result of the day. */
  lemma MarkExactly(b: Book, now: int)
    requires Balanced(b)
    ensures var m := Mark(b, now);
      var total := b.initialEquity + SumBy(Net, b.trades) + SumBy(GainsAt(b.lastPrices), b.open);
      && |m.curve| == |b.curve| + 1 && m.curve[..|b.curve|] == b.curve
      && m == b.(peakEquity := m.peakEquity, curve := m.curve)
      && m.peakEquity >= b.peakEquity && m.peakEquity >= total && m.peakEquity in {b.peakEquity, total}
      && var point := m.curve[|b.curve|];
      && point.timestamp == now && point.equity == total && point.drawdown == m.peakEquity - total
      && point.dailyPnl == NetOnDay(b.trades, DayOf(now))
      && (m.peakEquity != 0.0 ==> point.drawdownPercent * m.peakEquity == point.drawdown * 100.0)
      && (m.peakEquity == 0.0 ==> point.drawdownPercent == 0.0)
  {
    hide SumBy, NetOnDay, DailyPnl, CurveSound, PeakOf, IsTrailingRun, DayOf, GainsAt;
    UnrealizedExactly(b.lastPrices, b.open);
    var m := Mark(b, now);
    PercentOf(m.peakEquity - AccountEquity(b), m.peakEquity);
  }

  lemma PercentOf(part: real, whole: real)
    ensures whole != 0.0 ==> part / whole * 100.0 * whole == part * 100.0
  {
    if whole != 0.0 {
      var r := part / whole;
      assert r * whole == part;
    }
  }

  /** The last candle of every symbol seen, and its close as the mark. */
  ghost predicate Remembers(st: State, events: seq<Event>) {
    && (forall e <- events :: e.symbol in st.last)
    && (forall s <- st.last :: s in st.book.lastPrices && st.book.lastPrices[s] == st.last[s].close
                            && exists i :: IsLast(events, s, i) && st.last[s] == events[i].candle)
  }

  /** The last event of a symbol. */
  predicate IsLast(events: seq<Event>, symbol: string, i: int) {
    0 <= i < |events| && events[i].symbol == symbol && forall j :: i < j < |events| ==> events[j].symbol != symbol
  }

  lemma TrackRemembers(c: FillConfig, st: State, p: Position, candle: Candle, now: int)
    ensures var r := Track(c, st, p, candle, now);
      && r.last == st.last && r.book.lastPrices == st.book.lastPrices && r.counters.periods == st.counters.periods
  {
    hide ExitTrigger, Close, UpdateExcursions, AddDaily, IndexOf;
  }

  lemma ExitRemembers(c: FillConfig, st: State, ev: Event)
    ensures var r := ExitStep(c, st, ev);
      && r.last == st.last && r.book.lastPrices == st.book.lastPrices && r.counters.periods == st.counters.periods
  {
    hide Track;
    var p := Open(st, ev.symbol);
    if p.Some? {
      TrackRemembers(c, st, p.value, ev.candle, ev.time);
    }
  }

  lemma EntryRemembers(c: FillConfig, st: State, ev: Event)
    ensures var r := EntryStep(c, st, ev);
      r.Running? ==>
        && r.st.last == st.last && r.st.book.lastPrices == st.book.lastPrices
        && r.st.counters.periods == st.counters.periods
  {
    hide Track, Enter, Holds, IndexOf;
    if ev.symbol in st.pending && !Holds(st.book.open, ev.symbol) && st.pending[ev.symbol].delay <= 1 {
      var queued := st.pending[ev.symbol];
      var attempt := Enter(c, ev.symbol, queued.setup, queued.decision, ev.candle);
      if attempt.Filled? {
        var tried := st.(pending := st.pending - {ev.symbol},
                         counters := st.counters.(attempts := st.counters.attempts + 1));
        var added := tried.(book := Put(tried.book, attempt.position),
                            counters := tried.counters.(filled := tried.counters.filled + 1));
        TrackRemembers(c, added, attempt.position, ev.candle, ev.time);
      }
    }
  }

  lemma StepRemembers(env: Env, history: History, st: State, ev: Event)
    ensures var r := Step(env, history, st, ev); r.Running? ==>
      r.st.last == st.last[ev.symbol := ev.candle]
      && r.st.book.lastPrices == st.book.lastPrices[ev.symbol := ev.candle.close]
      && r.st.counters.periods == st.counters.periods + 1
  {
    hide ExitStep, EntryStep, Consider, View, FramesOf, AccountEquity;
    var c := env.config.fill;
    ExitRemembers(c, Begin(st, ev), ev);
    EntryRemembers(c, ExitStep(c, Begin(st, ev), ev), ev);
    var entered := Entered(env, st, ev);
    if entered.Running? {
      EvaluationCounts(env, history, entered.st, ev);
      EvaluateKeeps(env, history, entered.st, ev);
    }
  }

  lemma EvaluationCounts(env: Env, history: History, st: State, ev: Event)
    ensures var r := EvaluateStep(env, history, st, ev); r.Running? ==> r.st.counters.periods == st.counters.periods
  {
    hide Consider, View, FramesOf, AllRefused, Snapshot;
    if Asks(env, st, ev) {
      var view := ViewAt(history, ev);
      var setups := env.strategy(ev.symbol, view, ev.time);
      if setups.Some? {
        var asked := st.(counters := st.counters.(detected := st.counters.detected + |setups.value|));
        var k := FirstDecisive(env, asked, ev, view, setups.value);
        if k == |setups.value| {
          assert setups.value[..k] == setups.value;
          NoneAllowed(env, asked, ev, view, setups.value);
        } else if AnswerTo(env, asked, ev, view, setups.value[k]).None? {
          RaisingAnswerFails(env, asked, ev, view, setups.value, k);
        } else {
          FirstAllowedIsQueued(env, asked, ev, view, setups.value, k);
        }
      }
    }
  }

  lemma {:induction false} RunRemembers(env: Env, history: History, events: seq<Event>)
    ensures var r := Run(env, history, events);
      r.Running? ==> Remembers(r.st, events) && r.st.counters.periods == |events|
  {
    hide Step;
    if events != [] {
      var n := |events| - 1;
      RunRemembers(env, history, events[..n]);
      var r := Run(env, history, events[..n]);
      if r.Running? {
        StepRemembers(env, history, r.st, events[n]);
        var next := Step(env, history, r.st, events[n]);
        if next.Running? {
          RemembersNext(r.st, events, next.st);
        }
      }
    }
  }

  lemma RemembersNext(st: State, events: seq<Event>, next: State)
    requires events != [] && Remembers(st, events[..|events| - 1])
    requires var ev := events[|events| - 1];
      && next.last == st.last[ev.symbol := ev.candle]
      && next.book.lastPrices == st.book.lastPrices[ev.symbol := ev.candle.close]
    ensures Remembers(next, events)
  {
    var n := |events| - 1;
    var ev := events[n];
    assert events == events[..n] + [ev];
    forall s | s in next.last
      ensures exists i :: IsLast(events, s, i) && next.last[s] == events[i].candle
    {
      if s == ev.symbol {
        assert IsLast(events, s, n);
      } else {
        var i :| IsLast(events[..n], s, i) && st.last[s] == events[..n][i].candle;
        assert forall j :: i < j < n ==> events[..n][j] == events[j];
        assert IsLast(events, s, i);
      }
    }
  }

  // ---- The end of the run

  /** The trade that closes a position at the last close of its symbol. */
  function FinalTrade(c: FillConfig, last: map<string, Candle>): Position -> Trade
  {
    (p: Position) =>
      if p.symbol in last
      then Close(c, p, ExitFill(BacktestEnd, last[p.symbol].close),
                 last[p.symbol].timestamp + Duration(last[p.symbol].timeframe))
      else Close(c, p, ExitFill(BacktestEnd, p.entryPrice), 0)
  }

  lemma {:induction false} CloseEachTrades(c: FillConfig, st: State, open: seq<Position>)
    ensures var r := CloseEach(c, st, open);
      && (r == Failed <==> exists p <- open :: p.symbol !in st.last)
      && (r.Running? ==>
            r.st.book.trades
            == st.book.trades + seq(|open|, i requires 0 <= i < |open| => FinalTrade(c, st.last)(open[i])))
    decreases |open|
  {
    hide Close, AddDaily, Without, DayOf;
    if open != [] {
      if open[0].symbol in st.last {
        var candle := st.last[open[0].symbol];
        var next := CloseOne(c, st, open[0], ExitFill(BacktestEnd, candle.close), CloseTime(candle));
        assert next.last == st.last && next.book.trades == st.book.trades + [FinalTrade(c, st.last)(open[0])];
        CloseEachTrades(c, next, open[1..]);
        assert open == [open[0]] + open[1..];
        assert seq(|open|, i requires 0 <= i < |open| => FinalTrade(c, st.last)(open[i]))
            == [FinalTrade(c, st.last)(open[0])]
               + seq(|open[1..]|, i requires 0 <= i < |open[1..]| => FinalTrade(c, st.last)(open[1..][i]));
      } else {
        assert open[0] in open;
      }
    }
  }

  /** The end of a run closes each open position, in order, at the last close of its symbol. */
  lemma EndOfRun(env: Env, history: History)
    ensures var run, done := Run(env, history, Events(history, env.config)), Complete(env, history);
      run.Running? && done.Running? ==>
        && |done.st.book.trades| == |run.st.book.trades| + |run.st.book.open|
        && run.st.book.trades <= done.st.book.trades
        && forall i :: 0 <= i < |run.st.book.open| ==>
             done.st.book.trades[|run.st.book.trades| + i]
             == FinalTrade(env.config.fill, run.st.last)(run.st.book.open[i])
  {
    hide Run, Events, CloseEach, FinalTrade, AccountEquity;
    var run := Run(env, history, Events(history, env.config));
    if run.Running? {
      CloseEachTrades(env.config.fill, run.st, run.st.book.open);
    }
  }

  /** After that the curve gets one last point, at the time of the last event. */
  lemma EndOfCurve(env: Env, history: History)
    requires Run(env, history, Events(history, env.config)).Running? && Complete(env, history).Running?
    ensures var events, done := Events(history, env.config), Complete(env, history).st.book;
      var before := Run(env, history, events).st.book.curve;
      var n := |before|;
      && |done.curve| == (if events == [] then n else n + 1) && done.curve[..n] == before
      && (events != [] ==> done.curve[n].timestamp == events[|events| - 1].time
                           && done.curve[n].equity == AccountEquity(done))
  {
    hide Run, Events, CloseEach, AccountEquity;
    var run := Run(env, history, Events(history, env.config));
    CloseEachCurve(env.config.fill, run.st, run.st.book.open);
    var closed := CloseEach(env.config.fill, run.st, run.st.book.open);
    if closed.Running? {
      MarkKeepsEquity(closed.st.book);
    }
  }

  lemma {:induction false} CloseEachCurve(c: FillConfig, st: State, open: seq<Position>)
    ensures var r := CloseEach(c, st, open); r.Running? ==> r.st.book.curve == st.book.curve
    decreases |open|
  {
    hide Close, AddDaily, Without;
    if open != [] && open[0].symbol in st.last {
      var candle := st.last[open[0].symbol];
      CloseEachCurve(c, CloseOne(c, st, open[0], ExitFill(BacktestEnd, candle.close), CloseTime(candle)), open[1..]);
    }
  }

  lemma MarkKeepsEquity(b: Book)
    ensures forall now :: AccountEquity(Mark(b, now)) == AccountEquity(b)
  {
  }
}
