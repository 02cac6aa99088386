/** No entry precedes the decision that queued it, on grid-aligned data. */
module BacktestTiming {
  import opened Candles
  import opened BacktestExecution
  import opened BacktestPortfolio
  import opened BacktestEngine
  import opened BacktestLaws

  // ---- Per-symbol events are at least one candle apart

  /** What validated, grid-aligned five-minute data looks like. */
  ghost predicate Gridded(h: History) {
    && (forall i, j :: 0 <= i < j < |h| ==> h[i].0 != h[j].0)
    && (forall i :: 0 <= i < |h| ==> GriddedRows(Rows(h[i].1)))
  }

  predicate GriddedRows(rows: seq<Candle>) {
    && DistinctTimes(rows)
    && forall i :: 0 <= i < |rows| ==> rows[i].timestamp % STEP == 0
  }

  predicate OnStep(e: Event) {
    e.time == e.candle.timestamp + STEP && e.candle.timestamp % STEP == 0
  }

  predicate Apart(a: Event, b: Event) {
    a.symbol == b.symbol ==> a.time != b.time
  }

  ghost predicate AllApart(es: seq<Event>) {
    && (forall e <- es :: OnStep(e))
    && forall i, j :: 0 <= i < j < |es| ==> Apart(es[i], es[j])
  }

  lemma AllApartCons(e: Event, es: seq<Event>)
    requires AllApart(es) && OnStep(e) && forall x <- es :: Apart(e, x)
    ensures AllApart([e] + es)
  {
    hide OnStep, Apart;
  }

  lemma {:induction false} InsertApart(e: Event, es: seq<Event>)
    requires AllApart(es) && OnStep(e) && forall x <- es :: Apart(e, x)
    ensures AllApart(InsertEvent(e, es))
    ensures forall x :: x in InsertEvent(e, es) <==> x == e || x in es
  {
    hide KeyLe, OnStep;
    if es != [] && !KeyLe(e, es[0]) {
      assert es == [es[0]] + es[1..];
      InsertApart(e, es[1..]);
      forall x | x in InsertEvent(e, es[1..])
        ensures Apart(es[0], x)
      {
        if x == e {
          assert es[0] in es;
        } else {
          var k :| 0 <= k < |es[1..]| && es[1..][k] == x;
          assert Apart(es[0], es[k + 1]);
        }
      }
      AllApartCons(es[0], InsertEvent(e, es[1..]));
    } else {
      AllApartCons(e, es);
    }
  }

  lemma {:induction false} SortApart(es: seq<Event>)
    requires AllApart(es)
    ensures AllApart(SortEvents(es))
    ensures forall x :: x in SortEvents(es) <==> x in es
  {
    hide OnStep, Apart;
    if es != [] {
      assert es == [es[0]] + es[1..];
      SortApart(es[1..]);
      InsertApart(es[0], SortEvents(es[1..]));
    }
  }

  lemma {:induction false} EventsOfApart(symbol: string, rows: seq<Candle>, config: Config)
    requires GriddedRows(rows)
    ensures AllApart(EventsOf(symbol, rows, config))
    ensures forall e <- EventsOf(symbol, rows, config) ::
      e.symbol == symbol && e.candle in rows && e.time == e.candle.timestamp + STEP
  {
    if rows != [] {
      EventsOfApart(symbol, rows[1..], config);
      var rest := EventsOf(symbol, rows[1..], config);
      var e := Event(rows[0].timestamp + STEP, symbol, rows[0]);
      if config.start <= e.time <= config.end {
        forall x | x in rest
          ensures Apart(e, x)
        {
          var k :| 0 <= k < |rows[1..]| && rows[1..][k] == x.candle;
          assert rows[0].timestamp != rows[k + 1].timestamp;
        }
        AllApartCons(e, rest);
        assert EventsOf(symbol, rows, config) == [e] + rest;
      } else {
        assert EventsOf(symbol, rows, config) == rest;
      }
    }
  }

  lemma AllApartAppend(a: seq<Event>, b: seq<Event>)
    requires AllApart(a) && AllApart(b)
    requires forall x, y :: x in a && y in b ==> Apart(x, y)
    ensures AllApart(a + b)
  {
    hide OnStep, Apart;
  }

  lemma {:induction false} RawEventsApart(h: History, config: Config)
    requires Gridded(h)
    ensures AllApart(RawEvents(h, config))
    ensures forall e <- RawEvents(h, config) :: exists i :: 0 <= i < |h| && h[i].0 == e.symbol
  {
    hide OnStep, GriddedRows, Rows, EventsOf;
    if h != [] {
      assert forall i :: 0 <= i < |h[1..]| ==> h[1..][i] == h[i + 1];
      RawEventsApart(h[1..], config);
      EventsOfApart(h[0].0, Rows(h[0].1), config);
      var own, rest := EventsOf(h[0].0, Rows(h[0].1), config), RawEvents(h[1..], config);
      forall x, y | x in own && y in rest
        ensures Apart(x, y)
      {
        var i :| 0 <= i < |h[1..]| && h[1..][i].0 == y.symbol;
        assert h[0].0 != h[i + 1].0;
      }
      AllApartAppend(own, rest);
      forall e: Event | e in own + rest
        ensures exists i :: 0 <= i < |h| && h[i].0 == e.symbol
      {
        if e in own {
          assert h[0].0 == e.symbol;
        } else {
          var i :| 0 <= i < |h[1..]| && h[1..][i].0 == e.symbol;
          assert h[i + 1].0 == e.symbol;
        }
      }
    }
  }

  /** Later events of a symbol carry candles that open no earlier than the previous close. */
  ghost predicate Spaced(es: seq<Event>) {
    && (forall e <- es :: OnStep(e))
    && forall i, j :: 0 <= i < j < |es| && es[i].symbol == es[j].symbol ==>
         es[i].candle.timestamp + STEP <= es[j].candle.timestamp
  }

  lemma EventsSpaced(h: History, config: Config)
    requires Gridded(h)
    ensures Spaced(Events(h, config))
  {
    hide RawEvents, SortEvents, Gridded;
    var es := Events(h, config);
    RawEventsApart(h, config);
    SortApart(RawEvents(h, config));
    SortChronological(RawEvents(h, config));
    forall i, j | 0 <= i < j < |es| && es[i].symbol == es[j].symbol
      ensures es[i].candle.timestamp + STEP <= es[j].candle.timestamp
    {
      assert es[i].time <= es[j].time && Apart(es[i], es[j]);
      assert OnStep(es[i]) && OnStep(es[j]);
      GridGap(es[i].candle.timestamp, es[j].candle.timestamp);
    }
  }

  lemma GridGap(a: int, b: int)
    requires a % STEP == 0 && b % STEP == 0 && a < b
    ensures a + STEP <= b
  {
  }

  // ---- The run

  predicate Ordered(p: Position) { p.decision.decidedAt <= p.entryTime }

  ghost predicate Timed(st: State) {
    && (forall s <- st.pending :: s in st.last && st.pending[s].decision.decidedAt <= st.last[s].timestamp + STEP)
    && (forall p <- st.book.open :: Ordered(p) && p.symbol in st.last && p.entryTime <= st.last[p.symbol].timestamp)
    && (forall t <- st.book.trades :: Ordered(t.position) && t.position.entryTime <= t.exitTime)
  }

  /** The next event may enter on its candle: the queued decision is not later. */
  predicate Ready(st: State, ev: Event) {
    && OnStep(ev)
    && ev.symbol in st.last && st.last[ev.symbol] == ev.candle
    && (ev.symbol in st.pending ==> st.pending[ev.symbol].decision.decidedAt <= ev.candle.timestamp)
  }

  lemma BeginTimed(st: State, ev: Event)
    requires Timed(st) && OnStep(ev)
    requires ev.symbol in st.last ==> st.last[ev.symbol].timestamp + STEP <= ev.candle.timestamp
    ensures Timed(Begin(st, ev)) && Ready(Begin(st, ev), ev)
  {
  }

  lemma CloseOneTimed(c: FillConfig, st: State, p: Position, fill: ExitFill, now: int)
    requires Timed(st) && Ordered(p) && p.entryTime <= now
    ensures Timed(CloseOne(c, st, p, fill, now))
  {
    hide SlippedPrice, Fee, AddDaily, DayOf, IndexOf, Ordered;
    var t := Close(c, p, fill, now);
    assert t.position == p && t.exitTime == now;
    assert forall q <- Without(st.book.open, p.symbol) :: q in st.book.open;
  }

  lemma TrackTimed(c: FillConfig, st: State, p: Position, ev: Event)
    requires Timed(st) && Ready(st, ev)
    requires Ordered(p) && p.symbol == ev.symbol && p.entryTime <= ev.candle.timestamp
    ensures Timed(Track(c, st, p, ev.candle, ev.time))
    ensures Ready(Track(c, st, p, ev.candle, ev.time), ev)
  {
    hide IndexOf, ExitTrigger, CloseOne, Close;
    TrackKeeps(c, st, ev);
    var q := UpdateExcursions(p, ev.candle);
    var st1 := st.(book := Put(st.book, q));
    assert forall x <- With(st.book.open, q) :: x == q || x in st.book.open;
    assert Timed(st1);
    var fill := ExitTrigger(c, q, ev.candle, ev.time);
    if fill.Some? {
      CloseOneTimed(c, st1, q, fill.value, ev.time);
    }
  }

  lemma ExitStepTimed(c: FillConfig, st: State, ev: Event)
    requires Timed(st) && Ready(st, ev)
    ensures Timed(ExitStep(c, st, ev)) && Ready(ExitStep(c, st, ev), ev)
  {
    hide Track;
    var p := Open(st, ev.symbol);
    if p.Some? {
      TrackTimed(c, st, p.value, ev);
    }
  }

  lemma EntryStepTimed(c: FillConfig, st: State, ev: Event)
    requires Timed(st) && Ready(st, ev)
    ensures var r := EntryStep(c, st, ev); r.Running? ==> Timed(r.st) && r.st.last == st.last
  {
    hide Track, Enter, Holds, IndexOf;
    if ev.symbol in st.pending && !Holds(st.book.open, ev.symbol) && st.pending[ev.symbol].delay <= 1 {
      var queued := st.pending[ev.symbol];
      var attempt := Enter(c, ev.symbol, queued.setup, queued.decision, ev.candle);
      if attempt.Filled? {
        var p := attempt.position;
        assert p.decision == queued.decision && p.entryTime == ev.candle.timestamp && p.symbol == ev.symbol;
        var added := st.(pending := st.pending - {ev.symbol}, book := Put(st.book, p),
                         counters := st.counters.(attempts := st.counters.attempts + 1,
                                                  filled := st.counters.filled + 1));
        assert forall x <- With(st.book.open, p) :: x == p || x in st.book.open;
        TrackTimed(c, added, p, ev);
        TrackKeeps(c, added, ev);
      }
    }
  }

  lemma StepTimed(env: Env, history: History, st: State, ev: Event)
    requires Timed(st) && OnStep(ev)
    requires ev.symbol in st.last ==> st.last[ev.symbol].timestamp + STEP <= ev.candle.timestamp
    ensures var r := Step(env, history, st, ev);
      r.Running? ==> Timed(r.st) && r.st.last == st.last[ev.symbol := ev.candle]
  {
    hide EntryStep, ExitStep, EvaluateStep, Ordered;
    var c := env.config.fill;
    BeginTimed(st, ev);
    var begun := Begin(st, ev);
    ExitStepTimed(c, begun, ev);
    var exited := ExitStep(c, begun, ev);
    ExitStepLast(c, begun, ev);
    EntryStepTimed(c, exited, ev);
    var entered := EntryStep(c, exited, ev);
    if entered.Running? {
      EvaluateKeeps(env, history, entered.st, ev);
    }
  }

  lemma ExitStepLast(c: FillConfig, st: State, ev: Event)
    ensures ExitStep(c, st, ev).last == st.last
  {
    hide Track;
    TrackKeeps(c, st, ev);
  }

  lemma {:induction false} RunTimed(env: Env, history: History, events: seq<Event>)
    requires Spaced(events)
    ensures var r := Run(env, history, events); r.Running? ==>
      && Timed(r.st)
      && forall s <- r.st.last :: exists i ::
           0 <= i < |events| && events[i].symbol == s && events[i].candle == r.st.last[s]
  {
    hide Step, OnStep;
    if events != [] {
      var n := |events| - 1;
      RunTimed(env, history, events[..n]);
      var r := Run(env, history, events[..n]);
      if r.Running? {
        var ev := events[n];
        if ev.symbol in r.st.last {
          var i :| 0 <= i < n && events[..n][i].symbol == ev.symbol && events[..n][i].candle == r.st.last[ev.symbol];
          assert events[i].symbol == events[n].symbol;
        }
        StepTimed(env, history, r.st, ev);
        var stepped := Step(env, history, r.st, ev);
        if stepped.Running? {
          forall s | s in stepped.st.last
            ensures exists i :: 0 <= i < |events| && events[i].symbol == s && events[i].candle == stepped.st.last[s]
          {
            if s == ev.symbol {
              assert events[n].symbol == s;
            } else {
              var i :| 0 <= i < n && events[..n][i].symbol == s && events[..n][i].candle == r.st.last[s];
              assert events[i].symbol == s;
            }
          }
        }
      }
    }
  }

  lemma {:induction false} CloseEachTimed(c: FillConfig, st: State, open: seq<Position>)
    requires Timed(st)
    requires forall p <- open :: Ordered(p) && p.symbol in st.last && p.entryTime <= st.last[p.symbol].timestamp
    ensures var r := CloseEach(c, st, open); r.Running? ==> Timed(r.st)
    decreases |open|
  {
    hide Ordered, RecordClose, Close;
    if open != [] {
      var candle := st.last[open[0].symbol];
      var fill := ExitFill(BacktestEnd, candle.close);
      CloseOneTimed(c, st, open[0], fill, CloseTime(candle));
      CloseEachTimed(c, CloseOne(c, st, open[0], fill, CloseTime(candle)), open[1..]);
    }
  }

  /**
   In every completed run over gridded data each trade was decided no later than
   the open of the candle that filled it, and closed no earlier than it opened.
   */
  lemma NoEntryBeforeDecision(env: Env, history: History)
    requires Gridded(history)
    ensures var r := Complete(env, history);
      r.Running? ==> forall t <- r.st.book.trades ::
        t.position.decision.decidedAt <= t.position.entryTime <= t.exitTime
  {
    hide Run, Events, CloseEach, Gridded;
    var events := Events(history, env.config);
    EventsSpaced(history, env.config);
    RunTimed(env, history, events);
    var r := Run(env, history, events);
    if r.Running? {
      CloseEachTimed(env.config.fill, r.st, r.st.book.open);
    }
  }
}
