/** Ticks and reconciliations as the runtime interleaves them. */
module StopRaces {
  import opened Common
  import opened LivePositions
  import opened StopManager

  // Each reads the position, awaits the exchange or the database, and writes back what
  // it computed from the copy it read.

  /** The stored position, and the copies that passes in flight have read. */
  datatype Shared = Shared(stored: Position, copies: map<nat, Position>)

  datatype Event =
    | Read(task: nat)
    | Write(task: nat, action: Action)

  /** A tick writes on a reset, on repricing, or when a tier or a close changes the position. */
  predicate TickWrites(p: Position, live: Option<real>, now: int, exitOk: bool) {
    && Managed(p)
    && (WithLevels(p) != p || (MarkOf(p, live) > 0.0 && (p.quantity > 0.0 || Tick(p, live, now, exitOk).0 != p)))
  }

  predicate Writes(p: Position, a: Action) {
    match a
    case MonitorTick(live, now, exitOk) => TickWrites(p, live, now, exitOk)
    case Reconcile(_, _, _, _) => p.isOpen
  }

  function Apply(s: Shared, ev: Event): Shared {
    match ev
    case Read(task) => s.(copies := s.copies[task := s.stored])
    case Write(task, action) =>
      if task !in s.copies then s
      else Shared(if Writes(s.copies[task], action) then Step(s.copies[task], action) else s.stored, s.copies - {task})
  }

  function ApplyAll(s: Shared, events: seq<Event>): Shared
    decreases |events|
  {
    if events == [] then s else ApplyAll(Apply(s, events[0]), events[1..])
  }

  /** A pass that writes nothing computed the copy it read. */
  lemma NoWriteNoChange(p: Position, a: Action)
    requires !Writes(p, a)
    ensures Step(p, a) == p
  {
    hide LevelsSane, MonitorStop, DefaultTarget, Tiers, Repriced, ReasonToClose, ProfitPercent, Merged;
  }

  // ---- Windows that do not overlap

  /** No pass reads while another is between its read and its write. */
  predicate Serial(s: Shared, events: seq<Event>)
    decreases |events|
  {
    events == [] || ((events[0].Read? ==> s.copies == map[]) && Serial(Apply(s, events[0]), events[1..]))
  }

  /** The actions that completed. */
  function Completed(s: Shared, events: seq<Event>): seq<Action>
    decreases |events|
  {
    if events == [] then []
    else
      (if events[0].Write? && events[0].task in s.copies then [events[0].action] else [])
      + Completed(Apply(s, events[0]), events[1..])
  }

  /** At most one copy is out, and it is current. */
  ghost predicate Current(s: Shared) {
    && (forall t :: t in s.copies ==> s.copies[t] == s.stored)
    && (forall t, u :: t in s.copies && u in s.copies ==> t == u)
  }

  lemma SerialStep(s: Shared, ev: Event)
    requires Current(s) && (ev.Read? ==> s.copies == map[])
    ensures Current(Apply(s, ev))
    ensures Apply(s, ev).stored == if ev.Write? && ev.task in s.copies then Step(s.stored, ev.action) else s.stored
  {
    hide Step, Writes;
    if ev.Write? && ev.task in s.copies && !Writes(s.copies[ev.task], ev.action) {
      NoWriteNoChange(s.copies[ev.task], ev.action);
    }
  }

  /** Without overlap the schedule is a run of whole ticks and reconciliations. */
  lemma {:induction false} SerialIsRun(s: Shared, events: seq<Event>)
    requires Current(s) && Serial(s, events)
    ensures ApplyAll(s, events).stored == Run(s.stored, Completed(s, events))
    ensures Current(ApplyAll(s, events))
    decreases |events|
  {
    hide Step, Apply, Current;
    if events != [] {
      var ev, next := events[0], Apply(s, events[0]);
      SerialStep(s, ev);
      SerialIsRun(next, events[1..]);
      var rest := Completed(next, events[1..]);
      if ev.Write? && ev.task in s.copies {
        assert ([ev.action] + rest)[0] == ev.action && ([ev.action] + rest)[1..] == rest;
      } else {
        assert [] + rest == rest;
      }
    }
  }

  lemma {:induction false} ScheduleSplits(s: Shared, a: seq<Event>, b: seq<Event>)
    ensures ApplyAll(s, a + b) == ApplyAll(ApplyAll(s, a), b)
    ensures Completed(s, a + b) == Completed(s, a) + Completed(ApplyAll(s, a), b)
    ensures Serial(s, a + b) <==> Serial(s, a) && Serial(ApplyAll(s, a), b)
    decreases |a|
  {
    hide Apply;
    if a == [] {
      assert a + b == b;
    } else {
      assert (a + b)[1..] == a[1..] + b;
      ScheduleSplits(Apply(s, a[0]), a[1..], b);
    }
  }

  /** Any run of whole actions, as a schedule whose windows do not overlap. */
  function Schedule(actions: seq<Action>): seq<Event>
    decreases |actions|
  {
    if actions == [] then [] else [Read(0), Write(0, actions[0])] + Schedule(actions[1..])
  }

  lemma {:induction false} ScheduleIsSerial(p: Position, actions: seq<Action>)
    ensures var s := Shared(p, map[]);
      Serial(s, Schedule(actions)) && Completed(s, Schedule(actions)) == actions
      && ApplyAll(s, Schedule(actions)) == Shared(Run(p, actions), map[])
    decreases |actions|
  {
    hide Step, Writes;
    if actions != [] {
      var s, pair, rest := Shared(p, map[]), [Read(0), Write(0, actions[0])], Schedule(actions[1..]);
      OneWindow(p, actions[0]);
      ScheduleIsSerial(Step(p, actions[0]), actions[1..]);
      ScheduleSplits(s, pair, rest);
      assert actions == [actions[0]] + actions[1..];
    }
  }

  lemma OneWindow(p: Position, a: Action)
    ensures var s, pair := Shared(p, map[]), [Read(0), Write(0, a)];
      ApplyAll(s, pair) == Shared(Step(p, a), map[]) && Serial(s, pair) && Completed(s, pair) == [a]
  {
    hide Step, Writes;
    var s, pair := Shared(p, map[]), [Read(0), Write(0, a)];
    var read := Apply(s, Read(0));
    assert read.copies == map[0 := p] && pair[1..] == [Write(0, a)] && pair[1..][1..] == [];
    if !Writes(p, a) {
      NoWriteNoChange(p, a);
    }
    assert read.copies - {0} == map[];
    assert Apply(read, Write(0, a)) == Shared(Step(p, a), map[]);
    assert Serial(Shared(Step(p, a), map[]), []) && Serial(read, pair[1..]);
    assert Completed(read, pair[1..]) == [a] + Completed(Shared(Step(p, a), map[]), []) == [a];
    assert ApplyAll(read, pair[1..]) == Shared(Step(p, a), map[]);
  }

  /** Over schedules without overlap, and before the runner lock, the stop only tightens. */
  ghost predicate SerialNeverLoosens(p: Position) {
    forall before, after ::
      Serial(Shared(p, map[]), before + after) && BeforeRunner(p, Completed(Shared(p, map[]), before + after)) ==>
        Tightens(ApplyAll(Shared(p, map[]), before).stored, ApplyAll(Shared(p, map[]), before + after).stored)
  }

  /** Without overlapping windows the ratchet holds exactly when the guard does. */
  lemma SerialRatchetExactly(p: Position)
    requires Unlocked(p)
    ensures SerialNeverLoosens(p) <==> RatchetGuard(p)
  {
    hide RatchetGuard, Tightens, Apply, Run, BeforeRunner, Serial, Completed, ApplyAll, NeverLoosens;
    var s := Shared(p, map[]);
    RatchetExactly(p);
    if RatchetGuard(p) {
      forall before, after | Serial(s, before + after) && BeforeRunner(p, Completed(s, before + after))
        ensures Tightens(ApplyAll(s, before).stored, ApplyAll(s, before + after).stored)
      {
        SerialTightens(p, before, after);
      }
    } else if SerialNeverLoosens(p) {
      SerialCoversRuns(p);
    }
  }

  lemma SerialTightens(p: Position, before: seq<Event>, after: seq<Event>)
    requires Unlocked(p) && RatchetGuard(p)
    requires Serial(Shared(p, map[]), before + after) && BeforeRunner(p, Completed(Shared(p, map[]), before + after))
    ensures Tightens(ApplyAll(Shared(p, map[]), before).stored, ApplyAll(Shared(p, map[]), before + after).stored)
  {
    hide Unlocked, RatchetGuard, Tightens, Apply, Run, BeforeRunner, Serial, Completed, ApplyAll;
    var s := Shared(p, map[]);
    ScheduleSplits(s, before, after);
    SerialIsRun(s, before);
    SerialIsRun(s, before + after);
    StopNeverLoosens(p, Completed(s, before), Completed(ApplyAll(s, before), after));
  }

  lemma SerialCoversRuns(p: Position)
    requires SerialNeverLoosens(p)
    ensures NeverLoosens(p)
  {
    hide Tightens, Apply, Run, BeforeRunner, Serial, Completed, ApplyAll;
    var s := Shared(p, map[]);
    forall before, after | BeforeRunner(p, before + after)
      ensures Tightens(Run(p, before), Run(p, before + after))
    {
      ScheduleIsSerial(p, before);
      ScheduleIsSerial(p, before + after);
      ScheduleAppends(before, after);
      assert Serial(s, Schedule(before) + Schedule(after));
    }
  }

  lemma {:induction false} ScheduleAppends(a: seq<Action>, b: seq<Action>)
    ensures Schedule(a + b) == Schedule(a) + Schedule(b)
    decreases |a|
  {
    if a == [] {
      assert a + b == b;
    } else {
      assert (a + b)[1..] == a[1..] + b;
      ScheduleAppends(a[1..], b);
    }
  }

  // ---- Windows that overlap

  /** Two passes read; the first lifts the stop to tier 2; the second writes its older copy. */
  function Overlap(p: Position, second: Action): seq<Event>
    requires p.averagePrice > 0.0
  {
    [Read(0), Read(1), Write(0, MonitorTick(Some(MarkAt(p, 0.009)), p.createdAt, false)), Write(1, second)]
  }

  lemma OverlapEffect(p: Position, second: Action)
    requires Unlocked(p) && Small(p)
    ensures var s := Shared(p, map[]);
      && ApplyAll(s, Overlap(p, second)[..3]).stored == Step(p, MonitorTick(Some(MarkAt(p, 0.009)), p.createdAt, false))
      && (Writes(p, second) ==> ApplyAll(s, Overlap(p, second)).stored == Step(p, second))
      && !Serial(s, Overlap(p, second))
  {
    hide Step, Writes, MarkAt, Small;
    var s, es, lift := Shared(p, map[]), Overlap(p, second), MonitorTick(Some(MarkAt(p, 0.009)), p.createdAt, false);
    var both := Shared(p, map[0 := p, 1 := p]);
    LiftWrites(p);
    FourSteps(s, es);
    assert Apply(Apply(s, es[0]), es[1]) == both;
    assert es[1..][0] == Read(1) && !Serial(Apply(s, es[0]), es[1..]);
  }

  lemma LiftWrites(p: Position)
    requires Unlocked(p) && Small(p)
    ensures Writes(p, MonitorTick(Some(MarkAt(p, 0.009)), p.createdAt, false))
  {
    hide LevelsSane, MonitorStop, DefaultTarget, MarkAt, Tick;
    ProfitAt(p, 0.009);
  }

  lemma FourSteps(s: Shared, es: seq<Event>)
    requires |es| == 4
    ensures ApplyAll(s, es[..3]) == Apply(Apply(Apply(s, es[0]), es[1]), es[2])
    ensures ApplyAll(s, es) == Apply(Apply(Apply(Apply(s, es[0]), es[1]), es[2]), es[3])
  {
    hide Apply;
    var s1 := Apply(s, es[0]);
    var s2 := Apply(s1, es[1]);
    var s3 := Apply(s2, es[2]);
    assert ApplyAll(s3, es[3..]) == Apply(s3, es[3]) by {
      assert es[3..][1..] == [];
    }
    assert es[2..][1..] == es[3..] && es[1..][1..] == es[2..];
    assert ApplyAll(s2, es[2..]) == ApplyAll(s3, es[3..]);
    assert ApplyAll(s1, es[1..]) == ApplyAll(s2, es[2..]);
    var t := es[..3];
    assert t[1..][1..] == [es[2]] && t[1..][1..][1..] == [];
    assert ApplyAll(s2, [es[2]]) == ApplyAll(s3, []) == s3;
    assert ApplyAll(s1, t[1..]) == ApplyAll(s2, t[1..][1..]);
  }

  /**
   Overlap breaks the ratchet for every position with sane levels and a stop
   looser than the trailing stop, guard or not: a second pass of the monitor at the
   entry price, or a reconciliation, puts the old stop back.
   */
  lemma OverlapLoosens(p: Position, byReconciliation: bool)
    requires Unlocked(p) && Small(p) && LevelsSane(p.direction, p.averagePrice, p.stop, p.target)
    requires !NoLooser(p.direction, TrailStop(p.direction, p.averagePrice), p.stop.value)
    ensures var second := if byReconciliation then Shrink(p) else MonitorTick(Some(MarkAt(p, 0.0)), p.createdAt, false);
      var s, events := Shared(p, map[]), Overlap(p, second);
      && ApplyAll(s, events[..3]).stored.stop == Some(TrailStop(p.direction, p.averagePrice))
      && ApplyAll(s, events).stored.stop == p.stop
      && !ApplyAll(s, events[..3]).stored.runner && !ApplyAll(s, events).stored.runner
      && !Tightens(ApplyAll(s, events[..3]).stored, ApplyAll(s, events).stored)
  {
    hide LevelsSane, Step, MarkAt, Small, TrailStop, ApplyAll, Writes, Overlap, MonitorStop, DefaultTarget,
      BreakevenStop;
    var second := if byReconciliation then Shrink(p) else MonitorTick(Some(MarkAt(p, 0.0)), p.createdAt, false);
    OverlapEffect(p, second);
    var lift := MonitorTick(Some(MarkAt(p, 0.009)), p.createdAt, false);
    TickAt(p, 0.009, p.createdAt);
    TickStep(p, lift);
    ResetTarget(p);
    SecondWrites(p, second, byReconciliation);
    if byReconciliation {
      ShrinkEffect(p);
    } else {
      TickAt(p, 0.0, p.createdAt);
      TickStep(p, second);
    }
  }

  lemma SecondWrites(p: Position, second: Action, byReconciliation: bool)
    requires Unlocked(p) && Small(p)
    requires second == if byReconciliation then Shrink(p) else MonitorTick(Some(MarkAt(p, 0.0)), p.createdAt, false)
    ensures Writes(p, second)
  {
    hide LevelsSane, MonitorStop, DefaultTarget, MarkAt, Tick;
    ProfitAt(p, 0.0);
  }

  /** The same from any quantity: a reconciliation first, then the overlap. */
  lemma OverlapBreaksRatchet(p: Position)
    requires Unlocked(p) && LevelsSane(p.direction, p.averagePrice, p.stop, p.target)
    requires !NoLooser(p.direction, TrailStop(p.direction, p.averagePrice), p.stop.value)
    ensures exists before, after ::
      var s, t := ApplyAll(Shared(p, map[]), before).stored, ApplyAll(Shared(p, map[]), before + after).stored;
      !s.runner && !t.runner && !Tightens(s, t)
  {
    hide LevelsSane, Step, MarkAt, TrailStop, ApplyAll, Writes, Overlap, Tightens;
    var s, prefix, one := Shared(p, map[]), Schedule([Shrink(p)]), Step(p, Shrink(p));
    ShrinkEffect(p);
    OneShrink(p);
    var second := Shrink(one);
    OverlapLoosens(one, true);
    var events := Overlap(one, second);
    OverlapLength(one, second);
    var before, after := prefix + events[..3], events[3..];
    assert events == events[..3] + events[3..];
    assert before + after == prefix + events;
    ScheduleSplits(s, prefix, events[..3]);
    ScheduleSplits(s, prefix, events);
    assert ApplyAll(s, before).stored == ApplyAll(Shared(one, map[]), events[..3]).stored;
    assert ApplyAll(s, before + after).stored == ApplyAll(Shared(one, map[]), events).stored;
  }

  lemma OverlapLength(p: Position, second: Action)
    requires p.averagePrice > 0.0
    ensures |Overlap(p, second)| == 4
  {
  }

  lemma OneShrink(p: Position)
    requires p.averagePrice > 0.0
    ensures ApplyAll(Shared(p, map[]), Schedule([Shrink(p)])) == Shared(Step(p, Shrink(p)), map[])
  {
    hide Step, Apply;
    ScheduleIsSerial(p, [Shrink(p)]);
    RunOfOne(p, [Shrink(p)]);
  }

  // ---- Which positions keep the ratchet over all schedules

  /** No write along the schedule locks the runner. */
  predicate NoRunner(s: Shared, events: seq<Event>)
    decreases |events|
  {
    !s.stored.runner && (events == [] || NoRunner(Apply(s, events[0]), events[1..]))
  }

  /** Over every schedule, overlap included, the stop only tightens. */
  ghost predicate AlwaysTightens(p: Position) {
    forall before, after :: NoRunner(Shared(p, map[]), before + after) ==>
      Tightens(ApplyAll(Shared(p, map[]), before).stored, ApplyAll(Shared(p, map[]), before + after).stored)
  }

  /** Already at the trailing stop, where no step before the runner lock can move it. */
  predicate Settled(p: Position) {
    var d, e := p.direction, p.averagePrice;
    && p.stop == Some(TrailStop(d, e)) && BreakevenStop(d, e) == TrailStop(d, e)
    && (LevelsSane(d, e, p.stop, p.target) || StopsCoincide(d, e))
  }

  /** A settled copy of the same position. */
  predicate SettledCopy(q: Position, d: Direction, e: real) {
    q.botManaged && q.direction == d && q.averagePrice == e && Directed(q) && e > 0.0 && Settled(q)
  }

  lemma WithLevelsSettled(p: Position, d: Direction, e: real)
    requires SettledCopy(p, d, e)
    ensures SettledCopy(WithLevels(p), d, e)
  {
    hide Level, LevelsSane, BreakevenStop, TrailStop, ReconcileStop, MonitorStop, DefaultTarget;
    StopOrder(d, e);
  }

  lemma TiersSettled(p: Position, percent: real, d: Direction, e: real)
    requires SettledCopy(p, d, e) && !Tiers(p, percent).runner
    ensures SettledCopy(Tiers(p, percent), d, e)
  {
    hide Level, LevelsSane, BreakevenStop, TrailStop, RunnerStop, RunnerTarget, ReconcileStop;
  }

  lemma StepSettled(p: Position, a: Action, d: Direction, e: real)
    requires SettledCopy(p, d, e) && !Step(p, a).runner
    ensures SettledCopy(Step(p, a), d, e)
  {
    hide Level, LevelsSane, BreakevenStop, TrailStop, ReconcileStop, MonitorStop, DefaultTarget, WithLevels, Repriced,
      Tiers, ReasonToClose;
    StopOrder(d, e);
    if a.MonitorTick? && Managed(p) {
      WithLevelsSettled(p, d, e);
      var q := WithLevels(p);
      var mark := MarkOf(q, a.live);
      if mark > 0.0 {
        RepricedKeeps(q, mark);
        TiersSettled(Repriced(q, mark), ProfitPercent(Repriced(q, mark), mark), d, e);
      }
    }
  }

  ghost predicate AllSettled(s: Shared, d: Direction, e: real) {
    SettledCopy(s.stored, d, e) && forall t :: t in s.copies ==> SettledCopy(s.copies[t], d, e)
  }

  lemma {:induction false} ScheduleSettled(s: Shared, events: seq<Event>, d: Direction, e: real)
    requires AllSettled(s, d, e) && NoRunner(s, events)
    ensures AllSettled(ApplyAll(s, events), d, e)
    decreases |events|
  {
    hide SettledCopy, Step, Writes;
    if events != [] {
      var ev := events[0];
      if ev.Write? && ev.task in s.copies && Writes(s.copies[ev.task], ev.action) {
        StepSettled(s.copies[ev.task], ev.action, d, e);
      }
      ScheduleSettled(Apply(s, ev), events[1..], d, e);
    }
  }

  lemma {:induction false} NoRunnerPrefix(s: Shared, a: seq<Event>, b: seq<Event>)
    requires NoRunner(s, a + b)
    ensures NoRunner(s, a)
    decreases |a|
  {
    hide Apply;
    if a != [] {
      assert (a + b)[1..] == a[1..] + b;
      NoRunnerPrefix(Apply(s, a[0]), a[1..], b);
    } else if b != [] {
      assert a + b == b;
    }
  }

  lemma {:induction false} SerialNoRunner(s: Shared, events: seq<Event>)
    requires Current(s) && Serial(s, events) && BeforeRunner(s.stored, Completed(s, events))
    ensures NoRunner(s, events)
    decreases |events|
  {
    hide Step, Apply, Current;
    if events != [] {
      var ev, next := events[0], Apply(s, events[0]);
      SerialStep(s, ev);
      var rest := Completed(next, events[1..]);
      if ev.Write? && ev.task in s.copies {
        assert ([ev.action] + rest)[0] == ev.action && ([ev.action] + rest)[1..] == rest;
      } else {
        assert [] + rest == rest;
      }
      SerialNoRunner(next, events[1..]);
    }
  }

  /** A reconciliation that reads before a lift and then finds the position gone. */
  function LateClose(p: Position): seq<Event>
    requires p.averagePrice > 0.0
  {
    [Read(1), Read(0), Write(0, Shrink(p)), Read(0), Write(0, MonitorTick(Some(MarkAt(p, 0.009)), p.createdAt, false)),
     Write(1, Reconcile(0.0, None, 0.0, p.createdAt))]
  }

  lemma ReadStep(s: Shared, task: nat)
    ensures Apply(s, Read(task)) == Shared(s.stored, s.copies[task := s.stored])
  {
  }

  lemma WriteStep(s: Shared, task: nat, action: Action)
    requires task in s.copies && Writes(s.copies[task], action)
    ensures Apply(s, Write(task, action)) == Shared(Step(s.copies[task], action), s.copies - {task})
  {
    hide Step, Writes;
  }

  lemma UnlockedIsOpen(p: Position)
    requires Unlocked(p)
    ensures p.isOpen && p.averagePrice > 0.0 && !p.runner
  {
  }

  /** Two passes by one task while task 1 holds an older copy, which it then writes. */
  lemma LateEffect(p: Position, a: Action, b: Action, c: Action)
    requires Writes(p, a) && Writes(Step(p, a), b) && Writes(p, c)
    ensures var s, es := Shared(p, map[]), [Read(1), Read(0), Write(0, a), Read(0), Write(0, b), Write(1, c)];
      && ApplyAll(s, es[..5]).stored == Step(Step(p, a), b) && ApplyAll(s, es).stored == Step(p, c)
      && (NoRunner(s, es) <==> !p.runner && !Step(p, a).runner && !Step(Step(p, a), b).runner && !Step(p, c).runner)
  {
    hide Step, Writes, Apply, ApplyAll, NoRunner;
    var s, es := Shared(p, map[]), [Read(1), Read(0), Write(0, a), Read(0), Write(0, b), Write(1, c)];
    var one := Step(p, a);
    SixSteps(s, es);
    ReadStep(s, 1);
    var s1 := Shared(p, map[1 := p]);
    ReadStep(s1, 0);
    var s2 := Shared(p, map[1 := p, 0 := p]);
    WriteStep(s2, 0, a);
    var s3 := Shared(one, map[1 := p]);
    assert s2.copies - {0} == s3.copies;
    ReadStep(s3, 0);
    var s4 := Shared(one, map[1 := p, 0 := one]);
    WriteStep(s4, 0, b);
    var s5 := Shared(Step(one, b), map[1 := p]);
    assert s4.copies - {0} == s5.copies;
    WriteStep(s5, 1, c);
  }

  lemma LateCloseEffect(p: Position)
    requires Unlocked(p)
    ensures var s, events := Shared(p, map[]), LateClose(p);
      && ApplyAll(s, events[..5]).stored == Run(p, LiftActions(p))
      && ApplyAll(s, events).stored == GhostClosed(p, p.createdAt)
      && NoRunner(s, events)
  {
    hide Step, Writes, MarkAt, Shrink, Run, BeforeRunner, Managed, Unlocked, Apply, ApplyAll, NoRunner;
    UnlockedIsOpen(p);
    var one, lift := Step(p, Shrink(p)), MonitorTick(Some(MarkAt(p, 0.009)), p.createdAt, false);
    LateWritesOf(p);
    LiftEffect(p);
    RunOfTwo(p, LiftActions(p));
    GoneStep(p);
    LateEffect(p, Shrink(p), lift, Reconcile(0.0, None, 0.0, p.createdAt));
  }

  lemma LateWritesOf(p: Position)
    requires Unlocked(p)
    ensures p.averagePrice > 0.0 && Writes(p, Shrink(p))
      && Writes(Step(p, Shrink(p)), MonitorTick(Some(MarkAt(p, 0.009)), p.createdAt, false))
  {
    hide Step, Writes, MarkAt, Small;
    ShrinkEffect(p);
    LateWrites(p, Step(p, Shrink(p)));
  }

  lemma LateWrites(p: Position, one: Position)
    requires Unlocked(p) && Managed(one) && Directed(one) && Small(one)
    requires one.direction == p.direction && one.averagePrice == p.averagePrice
    ensures Writes(p, Shrink(p)) && Writes(one, MonitorTick(Some(MarkAt(p, 0.009)), p.createdAt, false))
  {
    hide LevelsSane, MonitorStop, DefaultTarget, MarkAt, Tick;
    ProfitAt(p, 0.009);
    ProfitAt(one, 0.009);
  }

  lemma GoneStep(p: Position)
    requires p.isOpen
    ensures var a := Reconcile(0.0, None, 0.0, p.createdAt); Writes(p, a) && Step(p, a) == GhostClosed(p, p.createdAt)
  {
    hide Tick, Merged;
  }

  lemma SixSteps(s: Shared, es: seq<Event>)
    requires |es| == 6
    ensures var s5 := Apply(Apply(Apply(Apply(Apply(s, es[0]), es[1]), es[2]), es[3]), es[4]);
      && ApplyAll(s, es[..5]) == s5 && ApplyAll(s, es) == Apply(s5, es[5])
      && (NoRunner(s, es) <==>
            && !s.stored.runner && !Apply(s, es[0]).stored.runner && !Apply(Apply(s, es[0]), es[1]).stored.runner
            && !Apply(Apply(Apply(s, es[0]), es[1]), es[2]).stored.runner
            && !Apply(Apply(Apply(Apply(s, es[0]), es[1]), es[2]), es[3]).stored.runner
            && !s5.stored.runner && !Apply(s5, es[5]).stored.runner)
  {
    hide Apply;
    TwoSteps(s, es[..5]);
    TwoSteps(s, es);
    var s2 := Apply(Apply(s, es[0]), es[1]);
    TwoSteps(s2, es[..5][2..]);
    TwoSteps(s2, es[2..]);
    var s4 := Apply(Apply(s2, es[2]), es[3]);
    assert es[2..][2..] == [es[4], es[5]] && es[..5][2..][2..] == [es[4]];
    TwoSteps(s4, [es[4], es[5]]);
    assert [es[4], es[5]][2..] == [];
    OneStep(s4, es[4]);
  }

  lemma TwoSteps(s: Shared, es: seq<Event>)
    requires |es| >= 2
    ensures var t := Apply(Apply(s, es[0]), es[1]);
      && ApplyAll(s, es) == ApplyAll(t, es[2..])
      && (NoRunner(s, es) <==> !s.stored.runner && !Apply(s, es[0]).stored.runner && NoRunner(t, es[2..]))
  {
    hide Apply;
    assert es[1..][0] == es[1] && es[1..][1..] == es[2..];
    assert ApplyAll(Apply(s, es[0]), es[1..]) == ApplyAll(Apply(Apply(s, es[0]), es[1]), es[2..]);
  }

  lemma OneStep(s: Shared, ev: Event)
    ensures ApplyAll(s, [ev]) == Apply(s, ev)
  {
    hide Apply;
    assert [ev][1..] == [];
  }

  /** A stop looser than the trailing stop is restored by an older copy after a lift. */
  lemma LateCloseLoosens(p: Position)
    requires Unlocked(p) && !NoLooser(p.direction, TrailStop(p.direction, p.averagePrice), p.stop.value)
    ensures !AlwaysTightens(p)
  {
    hide ApplyAll, NoRunner, TrailStop, LateClose;
    LateCloseEffect(p);
    LiftEffect(p);
    LateLength(p);
    var events := LateClose(p);
    assert events == events[..5] + events[5..];
  }

  lemma LateLength(p: Position)
    requires p.averagePrice > 0.0
    ensures |LateClose(p)| == 6
  {
  }

  /** Where the guard fails, even a schedule without overlap loosens the stop. */
  lemma GuardNeeded(p: Position)
    requires Unlocked(p) && !RatchetGuard(p)
    ensures !AlwaysTightens(p)
  {
    hide RatchetGuard, Tightens, Apply, Run, BeforeRunner, Serial, Completed, ApplyAll, NoRunner;
    SerialRatchetExactly(p);
    var before, after :| Serial(Shared(p, map[]), before + after)
      && BeforeRunner(p, Completed(Shared(p, map[]), before + after))
      && !Tightens(ApplyAll(Shared(p, map[]), before).stored, ApplyAll(Shared(p, map[]), before + after).stored);
    SerialNoRunner(Shared(p, map[]), before + after);
  }

  /**
   Over every schedule the ratchet holds exactly for positions that are settled
   from the start: their stop is the trailing stop and nothing can move it.
   */
  lemma AlwaysTightensExactly(p: Position)
    requires Unlocked(p)
    ensures AlwaysTightens(p) <==> Settled(p)
  {
    hide Level, LevelsSane, ApplyAll, NoRunner, TrailStop, BreakevenStop, ReconcileStop;
    var d, e, s := p.direction, p.averagePrice, Shared(p, map[]);
    if Settled(p) {
      forall before, after | NoRunner(s, before + after)
        ensures Tightens(ApplyAll(s, before).stored, ApplyAll(s, before + after).stored)
      {
        NoRunnerPrefix(s, before, after);
        ScheduleSettled(s, before, d, e);
        ScheduleSettled(s, before + after, d, e);
      }
    } else if !RatchetGuard(p) {
      GuardNeeded(p);
    } else {
      StopOrder(d, e);
      LateCloseLoosens(p);
    }
  }

  /** Above an entry of 0.001 no position keeps it. */
  lemma NoLargeEntrySettles(p: Position)
    requires Unlocked(p) && p.averagePrice > 0.001
    ensures !AlwaysTightens(p)
  {
    hide Round6, LevelsSane, AlwaysTightens;
    var e := p.averagePrice;
    Round6Error(e * 1.0015);
    Round6Error(e * (2.0 - 1.0015));
    Round6Error(e * 1.0045);
    Round6Error(e * (2.0 - 1.0045));
    AlwaysTightensExactly(p);
  }
}
