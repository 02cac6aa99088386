/** The tiered stop manager: one tick per open, bot-managed position. */
module StopManager {
  import opened Common
  import opened LivePositions

  datatype CloseReason =
    | RunnerTargetReached | RunnerTakeProfit | TakeProfit | StagnationCut
    | RunnerStopHit | TrailingStopHit | BreakevenHit | StopLossHit | MaxLossCap

  /** Levels that are missing or fail their tests are replaced by the defaults. */
  function WithLevels(p: Position): Position {
    if LevelsSane(p.direction, p.averagePrice, p.stop, p.target) then p
    else p.(target := Some(DefaultTarget(p.direction, p.averagePrice)),
            stop := Some(MonitorStop(p.direction, p.averagePrice)))
  }

  function MarkOf(p: Position, live: Option<real>): real {
    if Present(live) then live.value else if Present(p.markPrice) then p.markPrice.value else p.averagePrice
  }

  function Profit(p: Position, mark: real): real {
    if p.direction == Long then mark - p.averagePrice else p.averagePrice - mark
  }

  function Pnl(p: Position, mark: real): real { Profit(p, mark) * p.quantity }

  function Repriced(p: Position, mark: real): Position {
    if p.quantity > 0.0 then p.(unrealized := Round4(Pnl(p, mark)), markPrice := Some(mark)) else p
  }

  function ProfitPercent(p: Position, mark: real): real
    requires p.averagePrice > 0.0
  {
    Profit(p, mark) / p.averagePrice * 100.0
  }

  function Tier1(p: Position, percent: real): Position {
    if (p.unrealized >= 0.5 || percent >= 0.5) && !p.breakeven
    then p.(stop := Some(BreakevenStop(p.direction, p.averagePrice)), breakeven := true) else p
  }

  function Tier2(p: Position, percent: real): Position {
    if (p.unrealized >= 0.8 || percent >= 0.8) && !p.trailing
    then p.(stop := Some(TrailStop(p.direction, p.averagePrice)), trailing := true) else p
  }

  function Tier3(p: Position, percent: real): Position {
    if (p.unrealized >= 1.25 || percent >= 1.2) && !p.runner
    then p.(stop := Some(RunnerStop(p.direction, p.averagePrice)),
            target := Some(RunnerTarget(p.direction, p.averagePrice)),
            runner := true, trailing := true)
    else p
  }

  function Tiers(p: Position, percent: real): Position { Tier3(Tier2(Tier1(p, percent), percent), percent) }

  /** Why a repriced position is closed, if it is. */
  function ReasonToClose(p: Position, mark: real, percent: real, now: int): Option<CloseReason>
    requires p.stop.Some? && p.target.Some?
  {
    var long, stop, target := p.direction == Long, p.stop.value, p.target.value;
    var targetHit := if long then mark >= target else mark <= target;
    if p.runner && p.unrealized >= 2.6 then Some(RunnerTargetReached)
    else if p.runner && targetHit then Some(RunnerTakeProfit)
    else if !p.runner && targetHit then Some(TakeProfit)
    else if now - p.createdAt >= 900 && (percent <= -0.5 || p.unrealized <= -0.5) then Some(StagnationCut)
    else if (if long then mark <= stop else mark >= stop) then
      Some(if p.runner then RunnerStopHit else if p.trailing then TrailingStopHit
           else if p.breakeven then BreakevenHit else StopLossHit)
    else if (p.unrealized <= -1.15 || percent <= -0.95) && !p.breakeven then Some(MaxLossCap)
    else None
  }

  function ClosedAt(p: Position, now: int): Position {
    p.(isOpen := false, closedAt := Some(now), realized := p.unrealized, unrealized := 0.0, updatedAt := now)
  }

  predicate Managed(p: Position) { p.isOpen && p.botManaged && p.averagePrice > 0.0 }

  lemma TiersKeep(p: Position, percent: real)
    ensures var q := Tiers(p, percent);
      && q == p.(stop := q.stop, target := q.target, breakeven := q.breakeven, trailing := q.trailing,
                 runner := q.runner)
      && (p.stop.Some? ==> q.stop.Some?) && (p.target.Some? ==> q.target.Some?)
  {
    hide BreakevenStop, TrailStop, RunnerStop, RunnerTarget;
  }

  /** The position after reset, repricing and tiers; unchanged by them when the mark is not positive. */
  function Adjusted(p: Position, live: Option<real>): (r: (Position, real))
    requires Managed(p)
    ensures r.0.stop.Some? && r.0.target.Some? && r.0.averagePrice == p.averagePrice
  {
    hide DefaultTarget, MonitorStop, Tiers, Round4, StopSane, TargetSane;
    var q := WithLevels(p);
    var mark := MarkOf(q, live);
    if mark <= 0.0 then (q, mark)
    else
      var priced := Repriced(q, mark);
      TiersKeep(priced, ProfitPercent(priced, mark));
      (Tiers(priced, ProfitPercent(priced, mark)), mark)
  }

  /** One tick. `exitOk` says whether the exchange accepts the exit. */
  function Tick(p: Position, live: Option<real>, now: int, exitOk: bool): (Position, Option<CloseReason>) {
    if !Managed(p) then (p, None)
    else
      var (q, mark) := Adjusted(p, live);
      if mark <= 0.0 then (q, None)
      else
        var reason := ReasonToClose(q, mark, ProfitPercent(q, mark), now);
        if reason.Some? && exitOk then (ClosedAt(q, now), reason) else (q, None)
  }

  // ---- The ratchet

  /**
   What happens to one position: a tick, or a reconciliation that finds it active
   with some quantity at the same average price and side, or gone.
   */
  datatype Action =
    | MonitorTick(live: Option<real>, now: int, exitOk: bool)
    | Reconcile(quantity: real, markPrice: Option<real>, pnl: real, now: int)

  function Step(p: Position, a: Action): Position {
    match a
    case MonitorTick(live, now, exitOk) => Tick(p, live, now, exitOk).0
    case Reconcile(quantity, markPrice, pnl, now) =>
      if !p.isOpen then p
      else if quantity == 0.0 then GhostClosed(p, now)
      else
        var signed := if p.direction == Long then Abs(quantity) else -Abs(quantity);
        Merged(p, Row(p.exchangeId, p.pair, signed, p.averagePrice, markPrice, pnl, None, None), now)
  }

  function Run(p: Position, actions: seq<Action>): Position
    decreases |actions|
  {
    if actions == [] then p else Run(Step(p, actions[0]), actions[1..])
  }

  /** No tick of the run locks the runner. */
  predicate BeforeRunner(p: Position, actions: seq<Action>)
    decreases |actions|
  {
    !p.runner && (actions == [] || BeforeRunner(Step(p, actions[0]), actions[1..]))
  }

  predicate Directed(p: Position) { p.direction == Long || p.direction == Short }

  /** A managed position before any lock, with any stop and any target. */
  predicate Unlocked(p: Position) {
    Managed(p) && Directed(p) && p.stop.Some? && p.stop.value > 0.0 && !p.breakeven && !p.trailing && !p.runner
  }

  /** The trailing stop passes the manager's own sanity test. */
  predicate TrailSane(direction: Direction, entry: real) {
    TrailStop(direction, entry) != 0.0 && StopSane(direction, entry, TrailStop(direction, entry))
  }

  /** So does the target that a reset writes. */
  predicate DefaultTargetSane(direction: Direction, entry: real) {
    DefaultTarget(direction, entry) != 0.0 && TargetSane(direction, entry, DefaultTarget(direction, entry))
  }

  /** Every stop the manager writes before the runner lock is the same price. */
  predicate StopsCoincide(direction: Direction, entry: real) {
    ReconcileStop(direction, entry) == TrailStop(direction, entry)
  }

  /**
   The guard a caller can check on the position as it is handed over. With sane
   levels the stop is not beyond the breakeven stop and the trailing stop is sane.
   Otherwise the first tick or reconciliation resets the levels, so the stop is no
   tighter than both default stops and the default target is sane as well.
   */
  predicate RatchetGuard(p: Position)
    requires p.stop.Some?
  {
    var d, e := p.direction, p.averagePrice;
    if LevelsSane(d, e, p.stop, p.target) then
      NoLooser(d, p.stop.value, BreakevenStop(d, e)) && (TrailSane(d, e) || StopsCoincide(d, e))
    else
      NoLooser(d, p.stop.value, ReconcileStop(d, e))
        && ((TrailSane(d, e) && DefaultTargetSane(d, e)) || StopsCoincide(d, e))
  }

  /** What keeps a later reset from loosening the stop. */
  predicate Resettable(p: Position)
    requires p.stop.Some?
  {
    var d, e := p.direction, p.averagePrice;
    || StopsCoincide(d, e)
    || (TrailSane(d, e) && LevelsSane(d, e, p.stop, p.target)
        && (BreakevenStop(d, e) != 0.0 || DefaultTargetSane(d, e)))
    || (TrailSane(d, e) && DefaultTargetSane(d, e) && NoLooser(d, p.stop.value, ReconcileStop(d, e)))
  }

  /** Kept by every step before the runner lock. */
  predicate Ratcheted(p: Position) {
    var d, e := p.direction, p.averagePrice;
    && p.botManaged && e > 0.0 && Directed(p) && !p.runner && p.stop.Some?
    && (p.trailing ==> p.breakeven)
    && NoLooser(d, p.stop.value, TrailStop(d, e))
    && (!p.breakeven ==> NoLooser(d, p.stop.value, BreakevenStop(d, e)))
    && Resettable(p)
  }

  predicate Tightens(p: Position, q: Position) {
    p.stop.Some? && q.stop.Some? && NoLooser(p.direction, p.stop.value, q.stop.value)
    && q.direction == p.direction && q.averagePrice == p.averagePrice
  }

  /** The stops the manager writes, from loosest to tightest. */
  lemma StopOrder(d: Direction, e: real)
    requires e > 0.0
    ensures NoLooser(d, ReconcileStop(d, e), MonitorStop(d, e)) && NoLooser(d, MonitorStop(d, e), BreakevenStop(d, e))
    ensures NoLooser(d, BreakevenStop(d, e), TrailStop(d, e)) && NoLooser(d, TrailStop(d, e), RunnerStop(d, e))
  {
    hide Level;
    LevelMonotone(d, e, 0.9895, 0.9915);
    LevelMonotone(d, e, 0.9915, 1.0015);
    LevelMonotone(d, e, 1.0015, 1.0045);
    LevelMonotone(d, e, 1.0045, 1.0085);
  }

  lemma StopsNonNegative(d: Direction, e: real)
    requires e > 0.0
    ensures ReconcileStop(d, e) >= 0.0 && TrailStop(d, e) >= 0.0
  {
    hide Round6;
    Round6Monotone(0.0, e * 0.9895);
    Round6Monotone(0.0, e * (2.0 - 0.9895));
    Round6Monotone(0.0, e * 1.0045);
    Round6Monotone(0.0, e * (2.0 - 1.0045));
    assert Round6(0.0) == 0.0 by {
      Round6Zero();
    }
  }

  lemma Round6Zero()
    ensures Round6(0.0) == 0.0
  {
    RoundsTo(0.0 * 1000000.0, 0);
  }

  lemma UnlockedRatcheted(p: Position)
    requires Unlocked(p) && RatchetGuard(p)
    ensures Ratcheted(p)
  {
    hide Level, StopSane, TargetSane, BreakevenStop, TrailStop, MonitorStop, ReconcileStop, DefaultTarget;
    StopOrder(p.direction, p.averagePrice);
    StopsNonNegative(p.direction, p.averagePrice);
  }

  /** A stop between the reset stop and a sane trailing stop is sane, or zero like the reset stop itself. */
  lemma BetweenSane(d: Direction, e: real, stop: real)
    requires e > 0.0 && (d == Long || d == Short) && TrailSane(d, e)
    requires NoLooser(d, ReconcileStop(d, e), stop) && NoLooser(d, stop, TrailStop(d, e))
    ensures StopSane(d, e, stop)
    ensures stop == 0.0 ==> ReconcileStop(d, e) == 0.0
  {
    hide Level;
    StopsNonNegative(d, e);
  }

  lemma TiersRatchet(p: Position, percent: real)
    requires Ratcheted(p) && !Tiers(p, percent).runner
    requires LevelsSane(p.direction, p.averagePrice, p.stop, p.target) || StopsCoincide(p.direction, p.averagePrice)
      || (p.stop == Some(0.0) && ReconcileStop(p.direction, p.averagePrice) == 0.0
          && Some(DefaultTarget(p.direction, p.averagePrice)) == p.target)
    ensures Ratcheted(Tiers(p, percent)) && Tightens(p, Tiers(p, percent))
  {
    hide Level, StopSane, TargetSane, BreakevenStop, TrailStop, ReconcileStop, MonitorStop, RunnerStop, RunnerTarget,
      DefaultTarget;
    var d, e := p.direction, p.averagePrice;
    StopOrder(d, e);
    if TrailSane(d, e) {
      BetweenSane(d, e, TrailStop(d, e));
      BetweenSane(d, e, BreakevenStop(d, e));
    }
  }

  lemma RepricedRatchet(p: Position, mark: real)
    requires Ratcheted(p)
    ensures Ratcheted(Repriced(p, mark)) && Tightens(p, Repriced(p, mark))
  {
    hide Level, LevelsSane, BreakevenStop, TrailStop, ReconcileStop, DefaultTargetSane, Round4;
  }

  /** A reset tightens the stop, and leaves sane levels or a stop that is zero like every looser one. */
  lemma WithLevelsRatchet(p: Position)
    requires Ratcheted(p)
    ensures Ratcheted(WithLevels(p)) && Tightens(p, WithLevels(p))
    ensures var q := WithLevels(p);
      || LevelsSane(q.direction, q.averagePrice, q.stop, q.target) || StopsCoincide(q.direction, q.averagePrice)
      || (q.stop == Some(0.0) && ReconcileStop(q.direction, q.averagePrice) == 0.0
          && Some(DefaultTarget(q.direction, q.averagePrice)) == q.target)
  {
    hide Level, BreakevenStop, TrailStop, ReconcileStop, MonitorStop, DefaultTarget, StopSane, TargetSane;
    var d, e := p.direction, p.averagePrice;
    StopOrder(d, e);
    if TrailSane(d, e) {
      BetweenSane(d, e, MonitorStop(d, e));
    }
  }

  lemma TickRatchet(p: Position, live: Option<real>, now: int, exitOk: bool)
    requires Ratcheted(p) && !Tick(p, live, now, exitOk).0.runner
    ensures Ratcheted(Tick(p, live, now, exitOk).0) && Tightens(p, Tick(p, live, now, exitOk).0)
  {
    hide Level, LevelsSane, BreakevenStop, TrailStop, ReconcileStop, StopSane, DefaultTarget, WithLevels, Repriced,
      Tiers, ReasonToClose, TrailSane, DefaultTargetSane;
    if Managed(p) {
      WithLevelsRatchet(p);
      var q := WithLevels(p);
      var mark := MarkOf(q, live);
      if mark > 0.0 {
        RepricedRatchet(q, mark);
        RepricedKeeps(q, mark);
        TiersRatchet(Repriced(q, mark), ProfitPercent(Repriced(q, mark), mark));
      }
    }
  }

  lemma ReconcileRatchet(p: Position, a: Action)
    requires Ratcheted(p) && a.Reconcile?
    ensures Ratcheted(Step(p, a)) && Tightens(p, Step(p, a))
  {
    hide Level, BreakevenStop, TrailStop, MonitorStop, ReconcileStop, DefaultTarget, StopSane, TargetSane;
    StopOrder(p.direction, p.averagePrice);
  }

  lemma {:induction false} RunRatchet(p: Position, actions: seq<Action>)
    requires Ratcheted(p) && BeforeRunner(p, actions)
    ensures Ratcheted(Run(p, actions)) && Tightens(p, Run(p, actions))
    decreases |actions|
  {
    hide Ratcheted, Step;
    if actions == [] {
      assert Tightens(p, p) by {
        RatchetedHasStop(p);
      }
    } else {
      StepRatchet(p, actions[0]);
      RunRatchet(Step(p, actions[0]), actions[1..]);
    }
  }

  lemma RatchetedHasStop(p: Position)
    requires Ratcheted(p)
    ensures p.stop.Some?
  {
  }

  lemma StepRatchet(p: Position, a: Action)
    requires Ratcheted(p) && !Step(p, a).runner
    ensures Ratcheted(Step(p, a)) && Tightens(p, Step(p, a))
  {
    hide Ratcheted, Tick, Merged;
    match a
    case MonitorTick(live, now, exitOk) => TickRatchet(p, live, now, exitOk);
    case Reconcile(_, _, _, _) => ReconcileRatchet(p, a);
  }

  /** Between any two points of a run before the runner lock the stop only tightens. */
  lemma StopNeverLoosens(p: Position, before: seq<Action>, after: seq<Action>)
    requires Unlocked(p) && RatchetGuard(p) && BeforeRunner(p, before + after)
    ensures Tightens(Run(p, before), Run(p, before + after))
    ensures Run(p, before + after).trailing ==> Run(p, before + after).breakeven
  {
    hide Unlocked, RatchetGuard, Step;
    UnlockedRatcheted(p);
    RunSplits(p, before, after);
    RunRatchet(p, before);
    RunRatchet(Run(p, before), after);
    TrailingNeedsBreakeven(Run(p, before + after));
  }

  lemma TrailingNeedsBreakeven(p: Position)
    requires Ratcheted(p)
    ensures p.trailing ==> p.breakeven
  {
  }

  lemma {:induction false} RunSplits(p: Position, a: seq<Action>, b: seq<Action>)
    ensures Run(p, a + b) == Run(Run(p, a), b)
    ensures BeforeRunner(p, a + b) <==> BeforeRunner(p, a) && BeforeRunner(Run(p, a), b)
    decreases |a|
  {
    hide Step;
    if a == [] {
      assert a + b == b;
    } else {
      assert (a + b)[1..] == a[1..] + b;
      RunSplits(Step(p, a[0]), a[1..], b);
    }
  }

  // ---- Exactly when the ratchet holds

  /** Above this price the guard is only about the stop and target handed over. */
  lemma LargeEntriesRatchet(direction: Direction, entry: real)
    requires entry > 0.001
    ensures TrailSane(direction, entry) && DefaultTargetSane(direction, entry) && !StopsCoincide(direction, entry)
  {
    hide Round6;
    Round6Error(entry * 1.0045);
    Round6Error(entry * (2.0 - 1.0045));
    Round6Error(entry * 0.9895);
    Round6Error(entry * (2.0 - 0.9895));
    Round6Error(entry * 1.0135);
    Round6Error(entry * (2.0 - 1.0135));
  }

  /** A mark some fraction of the entry in profit. */
  function MarkAt(p: Position, fraction: real): real {
    p.averagePrice * (if p.direction == Long then 1.0 + fraction else 1.0 - fraction)
  }

  /** A quantity so small that only percentages fire the tiers. */
  predicate Small(p: Position) { p.quantity > 0.0 && p.averagePrice * p.quantity == 1.0 }

  lemma ProfitAt(p: Position, fraction: real)
    requires p.averagePrice > 0.0 && 0.0 <= fraction < 1.0
    ensures MarkAt(p, fraction) > 0.0 && Profit(p, MarkAt(p, fraction)) == p.averagePrice * fraction
    ensures ProfitPercent(p, MarkAt(p, fraction)) == fraction * 100.0
    ensures Small(p) ==> Pnl(p, MarkAt(p, fraction)) == fraction
  {
    var e, q := p.averagePrice, p.quantity;
    assert e * (1.0 + fraction) == e + e * fraction && e * (1.0 - fraction) == e - e * fraction;
    assert e * fraction < e by {
      assert e * (1.0 - fraction) > 0.0;
    }
    var r := e * fraction / e;
    assert r * e == e * fraction;
    assert (r - fraction) * e == 0.0;
    assert r == fraction;
    assert e * fraction * q == fraction * (e * q);
  }

  /** Which of the first two tiers fires. */
  lemma SmallTiers(p: Position, fraction: real)
    requires p.unrealized == fraction && !p.runner && (p.trailing ==> p.breakeven)
    requires fraction == 0.0 || fraction == 0.006 || fraction == 0.009
    ensures Tiers(p, fraction * 100.0) == p.(
      breakeven := p.breakeven || fraction > 0.0, trailing := p.trailing || fraction == 0.009,
      stop := if fraction == 0.009 && !p.trailing then Some(TrailStop(p.direction, p.averagePrice))
              else if fraction > 0.0 && !p.breakeven then Some(BreakevenStop(p.direction, p.averagePrice))
              else p.stop)
  {
    hide BreakevenStop, TrailStop, RunnerStop, RunnerTarget;
  }

  /** A tick at a known price whose exit is refused: reset, reprice, tiers. */
  lemma RefusedTick(p: Position, mark: real, now: int)
    requires Managed(p) && mark > 0.0
    ensures var q := Repriced(WithLevels(p), mark);
      q.averagePrice == p.averagePrice && Tick(p, Some(mark), now, false).0 == Tiers(q, ProfitPercent(q, mark))
  {
    hide LevelsSane, ReasonToClose, Pnl, MonitorStop, DefaultTarget, Tiers, Round4, ProfitPercent;
  }

  /** A tick at a small profit with an exit that is refused: only the reset and the first two tiers can act. */
  lemma TickAt(p: Position, fraction: real, now: int)
    requires Managed(p) && Directed(p) && Small(p) && p.stop.Some? && !p.runner && (p.trailing ==> p.breakeven)
    requires fraction == 0.0 || fraction == 0.006 || fraction == 0.009
    ensures var q, r := Tick(p, Some(MarkAt(p, fraction)), now, false).0, WithLevels(p);
      && Managed(q) && Directed(q) && Small(q) && !q.runner
      && q.direction == p.direction && q.averagePrice == p.averagePrice && q.target == r.target
        && q.createdAt == p.createdAt
      && q.breakeven == (p.breakeven || fraction > 0.0) && q.trailing == (p.trailing || fraction == 0.009)
      && q.stop == (if fraction == 0.009 && !p.trailing then Some(TrailStop(p.direction, p.averagePrice))
                    else if fraction > 0.0 && !p.breakeven then Some(BreakevenStop(p.direction, p.averagePrice))
                    else r.stop)
  {
    hide LevelsSane, ReasonToClose, MarkAt, ProfitPercent, Pnl, BreakevenStop, TrailStop, MonitorStop, DefaultTarget,
      Tiers, Round4, Tick;
    var q := WithLevels(p);
    SameMark(p, q, fraction);
    ProfitAt(q, fraction);
    SmallRounds(fraction);
    var priced := Repriced(q, MarkAt(p, fraction));
    SamePercent(q, priced);
    RefusedTick(p, MarkAt(p, fraction), now);
    SmallTiers(priced, fraction);
  }

  lemma SmallRounds(fraction: real)
    requires fraction == 0.0 || fraction == 0.006 || fraction == 0.009
    ensures Round4(fraction) == fraction
  {
    RoundsTo(fraction * 10000.0, if fraction == 0.0 then 0 else if fraction == 0.006 then 60 else 90);
  }

  lemma SameMark(p: Position, q: Position, fraction: real)
    requires p.direction == q.direction && p.averagePrice == q.averagePrice
    ensures MarkAt(p, fraction) == MarkAt(q, fraction)
  {
  }

  lemma SamePercent(p: Position, q: Position)
    requires p.direction == q.direction && p.averagePrice == q.averagePrice && p.averagePrice > 0.0
    ensures forall mark :: ProfitPercent(p, mark) == ProfitPercent(q, mark)
  {
  }

  /** A reconciliation that finds the position with a small quantity. */
  function Shrink(p: Position): Action
    requires p.averagePrice > 0.0
  {
    Reconcile(1.0 / p.averagePrice, None, 0.0, p.createdAt)
  }

  lemma ShrinkEffect(p: Position)
    requires Managed(p) && Directed(p) && p.stop.Some?
    ensures var q, sane := Step(p, Shrink(p)), LevelsSane(p.direction, p.averagePrice, p.stop, p.target);
      && Managed(q) && Directed(q) && Small(q) && !q.runner && !q.trailing
      && q.direction == p.direction && q.averagePrice == p.averagePrice && q.breakeven == p.breakeven
        && q.createdAt == p.createdAt
      && q.stop == (if sane then p.stop else Some(ReconcileStop(p.direction, p.averagePrice)))
      && q.target == (if sane then p.target else Some(DefaultTarget(p.direction, p.averagePrice)))
  {
    hide Level, LevelsSane, ReconcileStop, DefaultTarget;
    var q := 1.0 / p.averagePrice;
    assert p.averagePrice * q == 1.0;
    assert q > 0.0 by {
      assert q <= 0.0 ==> p.averagePrice * q <= 0.0;
    }
  }

  /** Shrink the position, then lift its stop to tier 2. */
  function LiftActions(p: Position): seq<Action>
    requires p.averagePrice > 0.0
  {
    [Shrink(p), MonitorTick(Some(MarkAt(p, 0.009)), p.createdAt, false)]
  }

  lemma LiftEffect(p: Position)
    requires Unlocked(p)
    ensures var q := Run(p, LiftActions(p));
      && Managed(q) && Directed(q) && Small(q) && !q.runner && q.trailing && q.breakeven
      && q.direction == p.direction && q.averagePrice == p.averagePrice && q.createdAt == p.createdAt
      && q.stop == Some(TrailStop(p.direction, p.averagePrice))
      && q.target == (if LevelsSane(p.direction, p.averagePrice, p.stop, p.target) then p.target
                      else Some(DefaultTarget(p.direction, p.averagePrice)))
      && BeforeRunner(p, LiftActions(p))
  {
    hide Level, LevelsSane, ReconcileStop, MonitorStop, DefaultTarget, TrailStop, Step, MarkAt, Small;
    RunOfTwo(p, LiftActions(p));
    ShrinkEffect(p);
    var one := Step(p, Shrink(p));
    SameMark(p, one, 0.009);
    TickAt(one, 0.009, p.createdAt);
    TickStep(one, LiftActions(p)[1]);
    ResetTarget(one);
  }

  lemma TickStep(p: Position, a: Action)
    requires a.MonitorTick?
    ensures Step(p, a) == Tick(p, a.live, a.now, a.exitOk).0
  {
    hide Tick;
  }

  lemma ResetTarget(p: Position)
    ensures WithLevels(p).target == (if LevelsSane(p.direction, p.averagePrice, p.stop, p.target) then p.target
                                     else Some(DefaultTarget(p.direction, p.averagePrice)))
    ensures WithLevels(p).stop == (if LevelsSane(p.direction, p.averagePrice, p.stop, p.target) then p.stop
                                   else Some(MonitorStop(p.direction, p.averagePrice)))
  {
    hide LevelsSane, DefaultTarget, MonitorStop;
  }

  /** A stop already beyond the one written next: one or two steps loosen it. */
  lemma TightStartBreaks(p: Position)
    requires Unlocked(p)
    requires var d, e := p.direction, p.averagePrice;
      if LevelsSane(d, e, p.stop, p.target) then !NoLooser(d, p.stop.value, BreakevenStop(d, e))
      else !NoLooser(d, p.stop.value, ReconcileStop(d, e))
    ensures exists after :: BeforeRunner(p, [] + after) && !Tightens(Run(p, []), Run(p, [] + after))
  {
    hide Level, LevelsSane, ReconcileStop, MonitorStop, BreakevenStop, DefaultTarget, Step, MarkAt, Small;
    ShrinkEffect(p);
    var one := Step(p, Shrink(p));
    if LevelsSane(p.direction, p.averagePrice, p.stop, p.target) {
      var after := [Shrink(p), MonitorTick(Some(MarkAt(p, 0.006)), p.createdAt, false)];
      RunOfTwo(p, after);
      SameMark(p, one, 0.006);
      TickAt(one, 0.006, p.createdAt);
      TickStep(one, after[1]);
      assert [] + after == after && Run(p, []) == p;
      assert BeforeRunner(p, [] + after) && !Tightens(Run(p, []), Run(p, [] + after));
    } else {
      var after := [Shrink(p)];
      RunOfOne(p, after);
      assert [] + after == after && Run(p, []) == p;
      assert BeforeRunner(p, [] + after) && !Tightens(Run(p, []), Run(p, [] + after));
    }
  }

  /** A lifted stop that is reset: the next tick or reconciliation loosens it. */
  lemma LiftedBreaks(p: Position)
    requires Unlocked(p) && !StopsCoincide(p.direction, p.averagePrice)
    requires var d, e := p.direction, p.averagePrice;
      !TrailSane(d, e) || (!LevelsSane(d, e, p.stop, p.target) && !DefaultTargetSane(d, e))
    ensures exists after ::
      BeforeRunner(p, LiftActions(p) + after) && !Tightens(Run(p, LiftActions(p)), Run(p, LiftActions(p) + after))
  {
    hide Level, ReconcileStop, MonitorStop, BreakevenStop, TrailStop, RunnerStop, DefaultTarget, Step, StopSane,
      TargetSane, MarkAt, Small, Run;
    var d, e, lift := p.direction, p.averagePrice, LiftActions(p);
    LiftEffect(p);
    var lifted := Run(p, lift);
    assert !LevelsSane(d, e, lifted.stop, lifted.target);
    StopOrder(d, e);
    var after;
    if MonitorStop(d, e) != TrailStop(d, e) {
      after := [MonitorTick(Some(MarkAt(lifted, 0.009)), p.createdAt, false)];
      TickAt(lifted, 0.009, p.createdAt);
      TickStep(lifted, after[0]);
      ResetTarget(lifted);
    } else {
      after := [Shrink(lifted)];
      ShrinkEffect(lifted);
    }
    RunSplits(p, lift, after);
    RunOfOne(lifted, after);
    assert !Tightens(lifted, Step(lifted, after[0]));
  }

  /** Where the guard fails, some run before the runner lock loosens the stop. */
  lemma RatchetBreaks(p: Position)
    requires Unlocked(p) && !RatchetGuard(p)
    ensures exists before, after :: BeforeRunner(p, before + after) && !Tightens(Run(p, before), Run(p, before + after))
  {
    hide Level, LevelsSane, ReconcileStop, BreakevenStop, TrailSane, DefaultTargetSane, StopsCoincide, Run,
      BeforeRunner, Tightens;
    var d, e := p.direction, p.averagePrice;
    if if LevelsSane(d, e, p.stop, p.target) then !NoLooser(d, p.stop.value, BreakevenStop(d, e))
       else !NoLooser(d, p.stop.value, ReconcileStop(d, e)) {
      TightStartBreaks(p);
    } else {
      LiftedBreaks(p);
    }
  }

  lemma RunOfOne(p: Position, a: seq<Action>)
    requires |a| == 1
    ensures Run(p, a) == Step(p, a[0])
    ensures BeforeRunner(p, a) <==> !p.runner && !Step(p, a[0]).runner
  {
    hide Step;
    assert a[1..] == [];
    assert Run(p, a) == Run(Step(p, a[0]), []);
  }

  lemma RunOfTwo(p: Position, a: seq<Action>)
    requires |a| == 2
    ensures Run(p, a) == Step(Step(p, a[0]), a[1])
    ensures BeforeRunner(p, a) <==> !p.runner && !Step(p, a[0]).runner && !Step(Step(p, a[0]), a[1]).runner
  {
    hide Step;
    RunOfOne(Step(p, a[0]), a[1..]);
  }

  /** No run loosens the stop: between any two points before the runner lock it only tightens. */
  ghost predicate NeverLoosens(p: Position) {
    forall before, after :: BeforeRunner(p, before + after) ==> Tightens(Run(p, before), Run(p, before + after))
  }

  /** The ratchet holds over all runs exactly when the guard does. */
  lemma RatchetExactly(p: Position)
    requires Unlocked(p)
    ensures NeverLoosens(p) <==> RatchetGuard(p)
  {
    hide RatchetGuard, Tightens;
    if RatchetGuard(p) {
      forall before, after | BeforeRunner(p, before + after)
        ensures Tightens(Run(p, before), Run(p, before + after))
      {
        StopNeverLoosens(p, before, after);
      }
    } else {
      RatchetBreaks(p);
    }
  }

  /** A price at which the guard fails: the trailing stop rounds up past its own sanity bound. */
  lemma CheapEntryBreaksRatchet(p: Position)
    requires p == Position(0, "x", "pair", Long, 1.0, 0.00010045, None, Some(0.0000995), Some(0.000102), 0.0, 0.0, true,
                           true, false, false, false, 0, None, 0)
    ensures Unlocked(p) && LevelsSane(Long, 0.00010045, p.stop, p.target) && !TrailSane(Long, 0.00010045)
      && !NeverLoosens(p)
  {
    hide NeverLoosens;
    RoundsTo(100.902025, 101);
    RoundsTo(99.395275, 99);
    RoundsTo(100.600675, 101);
    RatchetExactly(p);
  }

  /**
   An ordinary price at which it fails: the target lies within half a percent of
   the entry, so the first tick replaces both levels and loosens the stop.
   */
  lemma CloseTargetBreaksRatchet(p: Position)
    requires p == Position(0, "x", "pair", Long, 1.0, 100.0, None, Some(99.8), Some(100.4), 0.0, 0.0, true,
                           true, false, false, false, 0, None, 0)
    ensures Unlocked(p) && TrailSane(Long, 100.0) && !NeverLoosens(p)
    ensures Tick(p, Some(100.0), 0, false).0.stop == Some(99.15)
  {
    hide NeverLoosens, Tick, Round6, TrailSane, DefaultTargetSane;
    LargeEntriesRatchet(Long, 100.0);
    ExactLevel(98.95, 98950000);
    ExactLevel(99.15, 99150000);
    assert ReconcileStop(Long, 100.0) == 98.95 && MonitorStop(Long, 100.0) == 99.15;
    RatchetExactly(p);
    FlatTick(p);
  }

  lemma ExactLevel(x: real, k: int)
    requires x * 1000000.0 == k as real
    ensures Round6(x) == x
  {
    RoundsTo(x * 1000000.0, k);
  }

  /** A tick at the entry price only resets. */
  lemma FlatTick(p: Position)
    requires Managed(p) && Directed(p) && !p.runner && p.quantity > 0.0
    ensures Tick(p, Some(p.averagePrice), 0, false).0.stop == WithLevels(p).stop
  {
    hide LevelsSane, MonitorStop, DefaultTarget, ReasonToClose, BreakevenStop, TrailStop, RunnerStop, RunnerTarget;
    var q := WithLevels(p);
    assert Profit(q, p.averagePrice) == 0.0 && Pnl(q, p.averagePrice) == 0.0;
    RoundsTo(0.0, 0);
  }

  lemma RoundsTo(x: real, k: int)
    requires k as real - 0.5 < x < k as real + 0.5
    ensures RoundHalfEven(x) == k
  {
    assert x.Floor == k || x.Floor == k - 1;
  }

  // ---- After the runner lock the next tick undoes it

  predicate RunnerLocked(p: Position) {
    && Managed(p) && Directed(p) && p.runner && p.trailing && p.breakeven
    && p.stop == Some(RunnerStop(p.direction, p.averagePrice))
      && p.target == Some(RunnerTarget(p.direction, p.averagePrice))
  }

  /** A tick that fires tier 3 leaves the position runner-locked. */
  lemma TierThreeLocks(p: Position, percent: real)
    requires Managed(p) && Directed(p) && !p.runner && Tiers(p, percent).runner
    ensures RunnerLocked(Tiers(p, percent))
  {
    hide Level;
  }

  lemma RunnerStopInsane(direction: Direction, entry: real)
    requires entry > 0.001
    ensures !StopSane(direction, entry, RunnerStop(direction, entry))
    ensures RunnerStop(direction, entry) != MonitorStop(direction, entry)
  {
    hide Round6;
    Round6Error(entry * 1.0085);
    Round6Error(entry * (2.0 - 1.0085));
    Round6Error(entry * 0.9915);
    Round6Error(entry * (2.0 - 0.9915));
  }

  /** The runner levels survive the manager's own tests. */
  predicate RunnerSane(direction: Direction, entry: real) {
    LevelsSane(direction, entry, Some(RunnerStop(direction, entry)), Some(RunnerTarget(direction, entry)))
  }

  /**
   The tick after the runner lock resets the stop exactly when the runner levels are insane, and
   keeps it otherwise.
   */
  lemma RunnerLockExactly(p: Position, live: Option<real>, now: int, exitOk: bool)
    requires RunnerLocked(p)
    ensures var d, e, q := p.direction, p.averagePrice, Tick(p, live, now, exitOk).0;
      && q.stop == (if RunnerSane(d, e) then p.stop else Some(MonitorStop(d, e)))
      && (Tightens(p, q) <==> RunnerSane(d, e) || RunnerStop(d, e) == MonitorStop(d, e))
  {
    hide Level, LevelsSane, ReasonToClose, Repriced, MonitorStop, RunnerStop, RunnerTarget, DefaultTarget;
    StopOrder(p.direction, p.averagePrice);
    var q := WithLevels(p);
    RepricedKeeps(q, MarkOf(q, live));
  }

  /** For any entry above 0.001 it is reset, and the stop loosens. */
  lemma RunnerLockIsUndone(p: Position, live: Option<real>, now: int, exitOk: bool)
    requires RunnerLocked(p) && p.averagePrice > 0.001
    ensures var q := Tick(p, live, now, exitOk).0;
      q.stop == Some(MonitorStop(p.direction, p.averagePrice)) && !Tightens(p, q)
  {
    hide Level, StopSane, TargetSane, Tick, MonitorStop, RunnerStop, RunnerTarget;
    RunnerStopInsane(p.direction, p.averagePrice);
    RunnerLockExactly(p, live, now, exitOk);
  }

  /** A price at which the runner lock survives. */
  lemma RunnerLockCanSurvive()
    ensures RunnerSane(Long, 0.000055)
  {
    RoundsTo(55.4675, 55);
    RoundsTo(56.0175, 56);
  }

  lemma RepricedKeeps(p: Position, mark: real)
    ensures var q := Repriced(p, mark); q == p.(unrealized := q.unrealized, markPrice := q.markPrice)
  {
    hide Round4;
  }
}
