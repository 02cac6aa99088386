/** The daily totals when monitor passes overlap. */
module DayRaces {
  import opened Common
  import opened LivePositions
  import opened StopManager
  import opened DayTotals
  import Races = StopRaces

  // Each pass reads a position while it is open, awaits prices and the exchange, and
  // then writes what became of its copy.

  /** One position as a pass read it. */
  datatype Pass = Pass(index: nat, copy: Position)

  datatype Day = Day(positions: seq<Position>, totals: Totals, passes: map<nat, Pass>)

  datatype Event =
    | Read(task: nat, index: nat)
    | Finish(task: nat, feed: Feed)

  predicate Finishing(s: Day, ev: Event) {
    ev.Finish? && ev.task in s.passes && s.passes[ev.task].index < |s.positions|
  }

  /** The pass has something to write. */
  predicate Writing(s: Day, ev: Event) {
    Finishing(s, ev) && Races.TickWrites(s.passes[ev.task].copy, ev.feed.live, ev.feed.now, ev.feed.exitOk)
  }

  /** Writes the ticked copy over the stored position, and counts its close if it closed it. */
  function Apply(s: Day, ev: Event): Day {
    match ev
    case Read(task, index) =>
      if index < |s.positions| && s.positions[index].isOpen
      then s.(passes := s.passes[task := Pass(index, s.positions[index])]) else s
    case Finish(task, feed) =>
      if !Finishing(s, ev) then s
      else
        var rest, pass := s.passes - {task}, s.passes[task];
        if !Writing(s, ev) then s.(passes := rest)
        else
          var (q, reason) := Tick(pass.copy, feed.live, feed.now, feed.exitOk);
          Day(s.positions[pass.index := q], if reason.Some? then AfterClose(s.totals, q.realized) else s.totals, rest)
  }

  function ApplyAll(s: Day, events: seq<Event>): Day
    decreases |events|
  {
    if events == [] then s else ApplyAll(Apply(s, events[0]), events[1..])
  }

  /** A finishing pass is over, whether it wrote or not; any other event of that kind does nothing. */
  lemma FinishEnds(s: Day, ev: Event)
    requires ev.Finish?
    ensures Finishing(s, ev) ==> Apply(s, ev).passes == s.passes - {ev.task}
    ensures !Finishing(s, ev) ==> Apply(s, ev) == s
    ensures !Writing(s, ev) ==> Apply(s, ev).positions == s.positions && Apply(s, ev).totals == s.totals
  {
    hide Tick, Races.TickWrites;
  }

  /** The write would replace a position that another pass has closed. */
  predicate Stale(s: Day, ev: Event) { Writing(s, ev) && !s.positions[s.passes[ev.task].index].isOpen }

  /** No write along the schedule does. */
  predicate NoStaleWrite(s: Day, events: seq<Event>)
    decreases |events|
  {
    events == [] || (!Stale(s, events[0]) && NoStaleWrite(Apply(s, events[0]), events[1..]))
  }

  // ---- What the passes keep

  predicate Within(d: Scope, ev: Event) { ev.Finish? ==> InScope(d, ev.feed.now) }

  /** Copies were read open, and whatever a pass has closed since is counted today. */
  ghost predicate Ready(d: Scope, s: Day) {
    && Exact(d, s.positions)
    && (forall i :: 0 <= i < |s.positions| && s.positions[i].isOpen ==> s.positions[i].quantity > 0.0)
    && (forall t :: t in s.passes ==> PassReady(d, s, s.passes[t]))
  }

  ghost predicate PassReady(d: Scope, s: Day, pass: Pass) {
    && pass.index < |s.positions| && pass.copy.isOpen && pass.copy.quantity > 0.0
    && (s.positions[pass.index].isOpen || Counted(d, s.positions[pass.index]))
  }

  /** Agreement with recomputation, zero-result closes counted as losses, `offset` of them from before. */
  ghost predicate Matches(d: Scope, s: Day, offset: int) {
    var r := Recomputed(d, s.positions);
    && s.totals.profit == r.profit && s.totals.loss == r.loss && s.totals.wins == r.wins
    && s.totals.losses == r.losses + CountBy(FlatIn(d), s.positions) + offset
  }

  lemma MatchesIsAgreement(d: Scope, s: Day, flat: int)
    ensures Matches(d, s, flat - CountBy(FlatIn(d), s.positions)) <==> Agrees(d, s.positions, s.totals, flat)
  {
    hide Recomputed;
  }

  /** Trades the totals count beyond the closed positions of the day. */
  function Surplus(d: Scope, s: Day): int {
    s.totals.wins + s.totals.losses - CountBy(CountedIn(d), s.positions)
  }

  function CountedIn(d: Scope): Position -> bool { (p: Position) => Counted(d, p) }

  lemma {:induction false} CountedSplits(d: Scope, positions: seq<Position>)
    ensures CountBy(CountedIn(d), positions)
         == CountBy(WinIn(d), positions) + CountBy(LosingIn(d), positions) + CountBy(FlatIn(d), positions)
  {
    hide InScope;
    if positions != [] {
      CountedSplits(d, positions[1..]);
    }
  }

  lemma MatchesSurplus(d: Scope, s: Day, offset: int)
    requires Matches(d, s, offset)
    ensures Surplus(d, s) == offset
  {
    hide Counted, CountBy, Round4, SumBy;
    CountedSplits(d, s.positions);
  }

  // ---- One event

  lemma TickOutcome(d: Scope, p: Position, feed: Feed)
    requires p.isOpen && p.quantity > 0.0 && InScope(d, feed.now)
    ensures var (q, reason) := Tick(p, feed.live, feed.now, feed.exitOk);
      && q.quantity == p.quantity && (if reason.Some? then Closes(d, p, q) else q.isOpen)
  {
    hide Tick, InScope, FourDecimals;
    TickCloses(d, p, feed.live, feed.now, feed.exitOk);
    TickQuantity(p, feed);
  }

  lemma TickQuantity(p: Position, feed: Feed)
    ensures Tick(p, feed.live, feed.now, feed.exitOk).0.quantity == p.quantity
  {
    hide WithLevels, MarkOf, Tiers, ReasonToClose, Round4;
    if Managed(p) {
      var leveled := WithLevels(p);
      WithLevelsKeeps(p);
      var mark := MarkOf(leveled, feed.live);
      if mark > 0.0 {
        var priced := Repriced(leveled, mark);
        TiersKeep(priced, ProfitPercent(priced, mark));
      }
    }
  }

  lemma ApplyReady(d: Scope, s: Day, ev: Event)
    requires Ready(d, s) && Within(d, ev)
    ensures Ready(d, Apply(s, ev))
  {
    hide Tick, InScope, FourDecimals, Races.TickWrites;
    if Writing(s, ev) {
      TickOutcome(d, s.passes[ev.task].copy, ev.feed);
    }
  }

  /** A write over an open position moves totals and positions together. */
  lemma FreshWrite(d: Scope, s: Day, ev: Event, offset: int)
    requires Ready(d, s) && Within(d, ev) && Matches(d, s, offset)
    requires !Stale(s, ev)
    ensures Matches(d, Apply(s, ev), offset)
  {
    hide Tick, InScope, FourDecimals, Races.TickWrites, Recomputed, CountBy, Exact, AfterClose;
    if Writing(s, ev) {
      var pass := s.passes[ev.task];
      var i := pass.index;
      var (q, reason) := Tick(pass.copy, ev.feed.live, ev.feed.now, ev.feed.exitOk);
      TickOutcome(d, pass.copy, ev.feed);
      FlatChange(d, s.positions, i, q, reason.Some?);
      var flat := CountBy(FlatIn(d), s.positions) + offset;
      if reason.Some? {
        CloseAgrees(d, s.positions, i, q, s.totals, flat);
      } else {
        OpenAgrees(d, s.positions, i, q, s.totals, flat);
      }
    }
  }

  lemma SurplusSteps(d: Scope, s: Day, ev: Event)
    requires Ready(d, s) && Within(d, ev)
    ensures Surplus(d, Apply(s, ev)) == Surplus(d, s) + if Stale(s, ev) then 1 else 0
  {
    hide Tick, InScope, FourDecimals, Races.TickWrites, CountBy, Exact;
    if Writing(s, ev) {
      var pass := s.passes[ev.task];
      var (q, reason) := Tick(pass.copy, ev.feed.live, ev.feed.now, ev.feed.exitOk);
      TickOutcome(d, pass.copy, ev.feed);
      CountByUpdate(CountedIn(d), s.positions, pass.index, q);
    }
  }

  // ---- Whole schedules

  lemma {:induction false} SurplusGrows(d: Scope, s: Day, events: seq<Event>)
    requires Ready(d, s) && forall ev <- events :: Within(d, ev)
    ensures Surplus(d, ApplyAll(s, events)) >= Surplus(d, s)
    decreases |events|
  {
    hide Ready, Within, Surplus, Apply, Stale;
    if events != [] {
      assert events[0] in events;
      SurplusSteps(d, s, events[0]);
      ApplyReady(d, s, events[0]);
      SurplusGrows(d, Apply(s, events[0]), events[1..]);
    }
  }

  /**
   After any schedule of passes, overlap included, the totals agree with
   recomputation exactly when no write replaced a position that another pass had
   closed: neither a second accepted exit nor a reopening copy.
   */
  lemma {:induction false} TotalsAgreeExactly(d: Scope, s: Day, events: seq<Event>, offset: int)
    requires Ready(d, s) && Matches(d, s, offset) && forall ev <- events :: Within(d, ev)
    ensures Matches(d, ApplyAll(s, events), offset) <==> NoStaleWrite(s, events)
    decreases |events|
  {
    hide Ready, Within, Surplus, Apply, Matches, Stale;
    if events != [] {
      var ev, next := events[0], Apply(s, events[0]);
      assert ev in events;
      ApplyReady(d, s, ev);
      if Stale(s, ev) {
        MatchesSurplus(d, s, offset);
        SurplusSteps(d, s, ev);
        SurplusGrows(d, next, events[1..]);
        if Matches(d, ApplyAll(s, events), offset) {
          MatchesSurplus(d, ApplyAll(s, events), offset);
        }
      } else {
        FreshWrite(d, s, ev, offset);
        TotalsAgreeExactly(d, next, events[1..], offset);
      }
    }
  }

  lemma {:induction false} AllReady(d: Scope, s: Day, events: seq<Event>)
    requires Ready(d, s) && forall ev <- events :: Within(d, ev)
    ensures Ready(d, ApplyAll(s, events))
    decreases |events|
  {
    hide Ready, Within, Apply;
    if events != [] {
      assert events[0] in events;
      ApplyReady(d, s, events[0]);
      AllReady(d, Apply(s, events[0]), events[1..]);
    }
  }

  /** A recomputation in the middle, passes still in flight. */
  function Refreshed(d: Scope, s: Day): Day { s.(totals := Recomputed(d, s.positions)) }

  /** It repairs the totals; from there on they agree exactly while no write since is stale. */
  lemma SinceRecomputation(d: Scope, s: Day, before: seq<Event>, after: seq<Event>)
    requires Ready(d, s) && (forall ev <- before :: Within(d, ev)) && forall ev <- after :: Within(d, ev)
    ensures var t := Refreshed(d, ApplyAll(s, before));
      Matches(d, ApplyAll(t, after), 0 - CountBy(FlatIn(d), t.positions)) <==> NoStaleWrite(t, after)
  {
    hide Exact, Counted, Recomputed, Within, Apply, NoStaleWrite;
    AllReady(d, s, before);
    var t := Refreshed(d, ApplyAll(s, before));
    assert Matches(d, t, 0 - CountBy(FlatIn(d), t.positions));
    TotalsAgreeExactly(d, t, after, 0 - CountBy(FlatIn(d), t.positions));
  }

  // ---- Passes that do not overlap

  /** No pass reads a position that another has read and not finished. */
  predicate Serial(s: Day, events: seq<Event>)
    decreases |events|
  {
    events == []
    || ((events[0].Read? ==> forall t :: t in s.passes ==> s.passes[t].index != events[0].index)
        && Serial(Apply(s, events[0]), events[1..]))
  }

  /** Every copy out is of a position still open, and no other copy is of the same one. */
  ghost predicate Alone(s: Day) {
    && (forall t :: t in s.passes ==> s.passes[t].index < |s.positions| && s.positions[s.passes[t].index].isOpen)
    && (forall t, u :: t in s.passes && u in s.passes && s.passes[t].index == s.passes[u].index ==> t == u)
  }

  lemma AloneKept(s: Day, ev: Event)
    requires Alone(s) && (ev.Read? ==> forall t :: t in s.passes ==> s.passes[t].index != ev.index)
    ensures Alone(Apply(s, ev)) && !Stale(s, ev)
  {
    hide Tick, Races.TickWrites, AfterClose;
  }

  lemma {:induction false} SerialIsFresh(s: Day, events: seq<Event>)
    requires Alone(s) && Serial(s, events)
    ensures NoStaleWrite(s, events)
    decreases |events|
  {
    hide Apply, Stale, Alone;
    if events != [] {
      AloneKept(s, events[0]);
      SerialIsFresh(Apply(s, events[0]), events[1..]);
    }
  }

  /** Two passes that read one position open and both close it: the second write is stale. */
  lemma SecondCloseIsStale(p: Position, t: Totals, feed: Feed)
    requires p.isOpen && Tick(p, feed.live, feed.now, feed.exitOk).1.Some?
    ensures !NoStaleWrite(Day([p], t, map[]), [Read(0, 0), Read(1, 0), Finish(0, feed), Finish(1, feed)])
  {
    hide Tick, AfterClose, Races.TickWrites, Stale, Apply;
    var es, s := [Read(0, 0), Read(1, 0), Finish(0, feed), Finish(1, feed)], Day([p], t, map[]);
    ReadOpen(s, 0);
    var s1 := Apply(s, es[0]);
    ReadOpen(s1, 1);
    var s2 := Apply(s1, es[1]);
    FirstClose(s2, 0, p, feed);
    var s3 := Apply(s2, es[2]);
    SecondClose(s3, 1, p, feed);
    assert es[1..][0] == es[1] && es[1..][1..][0] == es[2] && es[1..][1..][1..][0] == es[3];
    assert !NoStaleWrite(s3, es[1..][1..][1..]);
    assert !NoStaleWrite(s2, es[1..][1..]);
    assert !NoStaleWrite(s1, es[1..]);
  }

  lemma ReadOpen(s: Day, task: nat)
    requires |s.positions| == 1 && s.positions[0].isOpen
    ensures Apply(s, Read(task, 0)) == s.(passes := s.passes[task := Pass(0, s.positions[0])])
  {
  }

  lemma FirstClose(s: Day, task: nat, p: Position, feed: Feed)
    requires |s.positions| == 1 && task in s.passes && s.passes[task] == Pass(0, p)
    requires p.isOpen && Tick(p, feed.live, feed.now, feed.exitOk).1.Some?
    ensures var t := Apply(s, Finish(task, feed));
      |t.positions| == 1 && !t.positions[0].isOpen && t.passes == s.passes - {task}
  {
    hide Tick, AfterClose, Races.TickWrites;
    ClosingWrites(p, feed);
  }

  lemma SecondClose(s: Day, task: nat, p: Position, feed: Feed)
    requires |s.positions| == 1 && !s.positions[0].isOpen && task in s.passes && s.passes[task] == Pass(0, p)
    requires p.isOpen && Tick(p, feed.live, feed.now, feed.exitOk).1.Some?
    ensures Stale(s, Finish(task, feed))
  {
    hide Tick, Races.TickWrites;
    ClosingWrites(p, feed);
  }

  lemma ClosingWrites(p: Position, feed: Feed)
    requires p.isOpen && Tick(p, feed.live, feed.now, feed.exitOk).1.Some?
    ensures Races.TickWrites(p, feed.live, feed.now, feed.exitOk)
    ensures !Tick(p, feed.live, feed.now, feed.exitOk).0.isOpen
  {
    hide WithLevels, MarkOf, Tiers, ReasonToClose, Round4;
  }

  /** Such an overlap occurs: a long at 100 with stop 99, met by both passes at 98. */
  lemma StaleWriteOccurs() returns (d: Scope, s: Day, events: seq<Event>)
    ensures Ready(d, s) && Alone(s) && Matches(d, s, 0) && forall ev <- events :: Within(d, ev)
    ensures |events| == 4 && !NoStaleWrite(s, events)
  {
    hide Tick, Exact, Agrees, Matches, InScope, CountBy, Counted, NoStaleWrite;
    var p := Position(0, "x", "pair", Long, 1.0, 100.0, None, Some(99.0), Some(102.0), 0.0, 0.0, true,
                      true, false, false, false, 0, None, 0);
    var feed := Feed(Some(98.0), 0, true);
    d, s := Scope(0, None), Day([p], Totals(0.0, 0.0, 0, 0), map[]);
    events := [Read(0, 0), Read(1, 0), Finish(0, feed), Finish(1, feed)];
    OverlappingPassesOccur();
    MatchesIsAgreement(d, s, 0);
    OneOpenIsNotFlat(d, p);
    SecondCloseIsStale(p, s.totals, feed);
  }

  lemma OneOpenIsNotFlat(d: Scope, p: Position)
    requires p.isOpen
    ensures CountBy(FlatIn(d), [p]) == 0
  {
    assert [p][1..] == [];
  }
}
