/** Why one tick closes a position, and which levels it leaves, in prices. */
module StopDecisions {
  import opened Common
  import opened LivePositions
  import opened StopManager
  import Races = StopRaces

  /** How far a price lies on the winning side of a level, for the direction. */
  function Gain(direction: Direction, level: real, price: real): real { Sign(direction) * (price - level) }

  /** The gain on the entry is at least this many percent of it. */
  predicate GainAtLeast(p: Position, mark: real, percent: real) {
    Gain(p.direction, p.averagePrice, mark) * 100.0 >= percent * p.averagePrice
  }

  predicate GainAtMost(p: Position, mark: real, percent: real) {
    Gain(p.direction, p.averagePrice, mark) * 100.0 <= percent * p.averagePrice
  }

  predicate TargetReached(p: Position, mark: real)
    requires p.target.Some?
  {
    Gain(p.direction, p.target.value, mark) >= 0.0
  }

  predicate StopReached(p: Position, mark: real)
    requires p.stop.Some?
  {
    Gain(p.direction, p.stop.value, mark) <= 0.0
  }

  lemma PercentExactly(p: Position, mark: real, percent: real)
    requires p.averagePrice > 0.0
    ensures ProfitPercent(p, mark) >= percent <==> GainAtLeast(p, mark, percent)
    ensures ProfitPercent(p, mark) <= percent <==> GainAtMost(p, mark, percent)
  {
    var g, e := Gain(p.direction, p.averagePrice, mark), p.averagePrice;
    assert Profit(p, mark) == g;
    var r := g / e;
    assert r * e == g;
    var d := r * 100.0 - percent;
    assert d * e == g * 100.0 - percent * e;
    assert d > 0.0 ==> d * e > 0.0;
    assert d < 0.0 ==> d * e < 0.0;
  }

  // ---- The close

  /** Long enough open while losing. */
  predicate Stagnant(p: Position, mark: real, now: int) {
    now - p.createdAt >= 900 && (GainAtMost(p, mark, -0.5) || p.unrealized <= -0.5)
  }

  /** Beyond the loss cap, which a breakeven lock lifts. */
  predicate Capped(p: Position, mark: real) {
    !p.breakeven && (p.unrealized <= -1.15 || GainAtMost(p, mark, -0.95))
  }

  /** The tests of an adjusted position at its mark, each with those before it excluded. */
  predicate ClosesFor(p: Position, mark: real, now: int, reason: CloseReason)
    requires p.stop.Some? && p.target.Some?
  {
    var target := TargetReached(p, mark);
    var stopped := StopReached(p, mark) && !target && !Stagnant(p, mark, now) && !(p.runner && p.unrealized >= 2.6);
    match reason
    case RunnerTargetReached => p.runner && p.unrealized >= 2.6
    case RunnerTakeProfit => p.runner && target && p.unrealized < 2.6
    case TakeProfit => !p.runner && target
    case StagnationCut => !target && Stagnant(p, mark, now) && !(p.runner && p.unrealized >= 2.6)
    case RunnerStopHit => stopped && p.runner
    case TrailingStopHit => stopped && p.trailing && !p.runner
    case BreakevenHit => stopped && p.breakeven && !p.trailing && !p.runner
    case StopLossHit => stopped && !p.breakeven && !p.trailing && !p.runner
    case MaxLossCap =>
      Capped(p, mark) && !StopReached(p, mark) && !target && !Stagnant(p, mark, now)
      && !(p.runner && p.unrealized >= 2.6)
  }

  /** None of the tests holds. */
  predicate Holds(p: Position, mark: real, now: int)
    requires p.stop.Some? && p.target.Some?
  {
    && !TargetReached(p, mark) && !StopReached(p, mark) && !Stagnant(p, mark, now) && !Capped(p, mark)
    && !(p.runner && p.unrealized >= 2.6)
  }

  lemma ReasonExactly(p: Position, mark: real, now: int)
    requires p.stop.Some? && p.target.Some? && p.averagePrice > 0.0
    ensures var r := ReasonToClose(p, mark, ProfitPercent(p, mark), now);
      && (r.None? <==> Holds(p, mark, now))
      && forall reason :: r == Some(reason) <==> ClosesFor(p, mark, now, reason)
  {
    hide ProfitPercent, GainAtMost;
    PercentExactly(p, mark, -0.5);
    PercentExactly(p, mark, -0.95);
  }

  /** A closed position realises what it showed, and shows nothing. */
  predicate ClosedFrom(p: Position, q: Position, now: int) {
    && !q.isOpen && q.realized == p.unrealized && q.unrealized == 0.0 && q.closedAt == Some(now) && q.updatedAt == now
    && q.stop == p.stop && q.target == p.target && q.quantity == p.quantity && q.averagePrice == p.averagePrice
    && q.direction == p.direction && q.exchangeId == p.exchangeId && q.positionId == p.positionId
  }

  /**
   A tick of a managed position with a positive mark and an accepted exit closes it
   for a reason exactly when that reason's test, and none before it, holds of the
   adjusted position; otherwise it leaves the adjusted position.
   */
  lemma TickExactly(p: Position, live: Option<real>, now: int)
    requires Managed(p) && Adjusted(p, live).1 > 0.0
    ensures var (a, mark), (q, reason) := Adjusted(p, live), Tick(p, live, now, true);
      && (forall why :: reason == Some(why) <==> ClosesFor(a, mark, now, why))
      && (reason.None? <==> Holds(a, mark, now))
      && (reason.None? ==> q == a) && (reason.Some? ==> ClosedFrom(a, q, now))
  {
    hide ReasonToClose, Adjusted, ClosesFor, Holds, ProfitPercent;
    var (a, mark) := Adjusted(p, live);
    ReasonExactly(a, mark, now);
  }

  /** A refused exit, a mark that is not positive or a position that is not managed closes nothing. */
  lemma TickWithoutClose(p: Position, live: Option<real>, now: int, exitOk: bool)
    ensures !Managed(p) ==> Tick(p, live, now, exitOk) == (p, None)
    ensures Managed(p) && (!exitOk || Adjusted(p, live).1 <= 0.0) ==>
      Tick(p, live, now, exitOk) == (Adjusted(p, live).0, None)
  {
    hide ReasonToClose, Adjusted, ProfitPercent;
  }

  /** Strictly between its levels, above the loss limits, and young or above the stagnation limits: it stays open. */
  lemma HealthyStaysOpen(p: Position, live: Option<real>, now: int, exitOk: bool)
    requires Managed(p) && Adjusted(p, live).1 > 0.0
    requires var (a, mark) := Adjusted(p, live);
      && Gain(a.direction, a.stop.value, mark) > 0.0 && Gain(a.direction, a.target.value, mark) < 0.0
      && a.unrealized > -1.15 && !GainAtMost(a, mark, -0.95) && (a.runner ==> a.unrealized < 2.6)
      && (now - a.createdAt < 900 || (a.unrealized > -0.5 && !GainAtMost(a, mark, -0.5)))
    ensures Tick(p, live, now, exitOk) == (Adjusted(p, live).0, None)
  {
    hide Adjusted, ReasonToClose, GainAtMost, ProfitPercent;
    TickExactly(p, live, now);
    TickWithoutClose(p, live, now, exitOk);
  }

  // ---- The adjusted position

  /** The mark is the live price, else the last mark, else the entry; absent and zero prices count alike. */
  lemma MarkExactly(p: Position, live: Option<real>)
    requires Managed(p)
    ensures var mark := Adjusted(p, live).1;
      && (live.Some? && live.value != 0.0 ==> mark == live.value)
      && (live in {None, Some(0.0)} && p.markPrice.Some? && p.markPrice.value != 0.0 ==> mark == p.markPrice.value)
      && (live in {None, Some(0.0)} && p.markPrice in {None, Some(0.0)} ==> mark == p.averagePrice)
  {
    hide Tiers, Repriced, LevelsSane, DefaultTarget, MonitorStop, ProfitPercent;
  }

  /** The levels the tick starts from: the position's own when both pass their tests, else both defaults. */
  predicate StartsFrom(p: Position, stop: real, target: real) {
    if LevelsSane(p.direction, p.averagePrice, p.stop, p.target) then Some(stop) == p.stop && Some(target) == p.target
    else stop == MonitorStop(p.direction, p.averagePrice) && target == DefaultTarget(p.direction, p.averagePrice)
  }

  /** Levels pass their tests when both are set, the stop is below, and the target above, their half percent. */
  lemma LevelsSaneExactly(p: Position)
    requires p.direction == Long || p.direction == Short
    ensures LevelsSane(p.direction, p.averagePrice, p.stop, p.target) <==>
      && p.stop.Some? && p.target.Some? && p.stop.value != 0.0 && p.target.value != 0.0
      && Gain(p.direction, p.averagePrice, p.stop.value) < p.averagePrice * 0.005
      && Gain(p.direction, p.averagePrice, p.target.value) > p.averagePrice * 0.005
  {
  }

  /** Each lock is taken once, and the last one taken sets the stop. */
  lemma TiersExactly(p: Position, percent: real)
    ensures var q := Tiers(p, percent);
      var first := !p.breakeven && (p.unrealized >= 0.5 || percent >= 0.5);
      var second := !p.trailing && (p.unrealized >= 0.8 || percent >= 0.8);
      var third := !p.runner && (p.unrealized >= 1.25 || percent >= 1.2);
      && q == p.(stop := q.stop, target := q.target, breakeven := p.breakeven || first,
                 trailing := p.trailing || second || third, runner := p.runner || third)
      && q.stop == (if third then Some(RunnerStop(p.direction, p.averagePrice))
                    else if second then Some(TrailStop(p.direction, p.averagePrice))
                    else if first then Some(BreakevenStop(p.direction, p.averagePrice)) else p.stop)
      && q.target == (if third then Some(RunnerTarget(p.direction, p.averagePrice)) else p.target)
  {
    hide BreakevenStop, TrailStop, RunnerStop, RunnerTarget;
  }

  /** What the position has gained at the mark. */
  function Worth(p: Position, mark: real): real { Gain(p.direction, p.averagePrice, mark) * p.quantity }

  /**
   A positive mark first reprices, then locks: breakeven from half a unit or half a
   percent of gain, trailing from 0.8, the runner from 1.25 units or 1.2 percent.
   Each lock is taken once; the stop is that of the last lock taken.
   */
  lemma AdjustedExactly(p: Position, live: Option<real>) returns (stop: real, target: real)
    requires Managed(p) && Adjusted(p, live).1 > 0.0
    ensures StartsFrom(p, stop, target)
    ensures var (a, mark) := Adjusted(p, live);
      var priced := p.quantity > 0.0;
      var pnl := if priced then Round4(Worth(p, mark)) else p.unrealized;
      var first := !p.breakeven && (pnl >= 0.5 || GainAtLeast(p, mark, 0.5));
      var second := !p.trailing && (pnl >= 0.8 || GainAtLeast(p, mark, 0.8));
      var third := !p.runner && (pnl >= 1.25 || GainAtLeast(p, mark, 1.2));
      && a == p.(unrealized := pnl, markPrice := if priced then Some(mark) else p.markPrice, stop := a.stop,
                 target := a.target, breakeven := a.breakeven, trailing := a.trailing, runner := a.runner)
      && (a.breakeven <==> p.breakeven || first) && (a.trailing <==> p.trailing || second || third)
      && (a.runner <==> p.runner || third)
      && (third ==> a.stop == Some(RunnerStop(p.direction, p.averagePrice)))
      && (!third && second ==> a.stop == Some(TrailStop(p.direction, p.averagePrice)))
      && (!third && !second && first ==> a.stop == Some(BreakevenStop(p.direction, p.averagePrice)))
      && (!third && !second && !first ==> a.stop == Some(stop))
      && a.target == Some(if third then RunnerTarget(p.direction, p.averagePrice) else target)
  {
    hide LevelsSane, Level, Round4, ProfitPercent, DefaultTarget, MonitorStop, BreakevenStop, TrailStop, RunnerStop,
      RunnerTarget, GainAtLeast, Tiers, Gain, Worth, Pnl;
    var q := WithLevels(p);
    SaneHaveLevels(p);
    stop, target := q.stop.value, q.target.value;
    var mark := MarkOf(q, live);
    var priced := Repriced(q, mark);
    PnlIsWorth(p, q, mark);
    assert p.quantity > 0.0 ==> priced.unrealized == Round4(Worth(p, mark));
    PercentExactly(priced, mark, 0.5);
    PercentExactly(priced, mark, 0.8);
    PercentExactly(priced, mark, 1.2);
    SameGain(p, priced, mark);
    TiersExactly(priced, ProfitPercent(priced, mark));
  }

  lemma PnlIsWorth(p: Position, q: Position, mark: real)
    requires p.direction == q.direction && p.averagePrice == q.averagePrice && p.quantity == q.quantity
    ensures Pnl(q, mark) == Worth(p, mark)
  {
    var gain := Gain(p.direction, p.averagePrice, mark);
    assert Profit(q, mark) == gain;
  }

  lemma SaneHaveLevels(p: Position)
    ensures LevelsSane(p.direction, p.averagePrice, p.stop, p.target) ==> p.stop.Some? && p.target.Some?
  {
  }

  lemma SameGain(p: Position, q: Position, mark: real)
    requires p.direction == q.direction && p.averagePrice == q.averagePrice
    ensures forall percent :: GainAtLeast(p, mark, percent) == GainAtLeast(q, mark, percent)
  {
  }

  /** The distances of the levels the manager writes, before rounding to six decimals. */
  lemma LevelsInPrices(d: Direction, e: real)
    requires d == Long || d == Short
    ensures MonitorStop(d, e) == Round6(e - Sign(d) * e * 0.0085)
    ensures ReconcileStop(d, e) == Round6(e - Sign(d) * e * 0.0105)
    ensures DefaultTarget(d, e) == Round6(e + Sign(d) * e * 0.0135)
    ensures BreakevenStop(d, e) == Round6(e + Sign(d) * e * 0.0015)
    ensures TrailStop(d, e) == Round6(e + Sign(d) * e * 0.0045)
    ensures RunnerStop(d, e) == Round6(e + Sign(d) * e * 0.0085)
    ensures RunnerTarget(d, e) == Round6(e + Sign(d) * e * 0.0185)
  {
    hide Round6;
  }

  /** The same position: its ids, pair, side, entry, creation and management. */
  predicate Same(p: Position, q: Position) {
    && q.positionId == p.positionId && q.exchangeId == p.exchangeId && q.pair == p.pair
    && q.direction == p.direction && q.averagePrice == p.averagePrice && q.createdAt == p.createdAt
    && q.botManaged == p.botManaged
  }

  lemma TickKeeps(p: Position, live: Option<real>, now: int, exitOk: bool)
    ensures Same(p, Tick(p, live, now, exitOk).0)
  {
    hide Tiers, Repriced, LevelsSane, ReasonToClose, ProfitPercent, Level;
    if Managed(p) {
      var q := WithLevels(p);
      var mark := MarkOf(q, live);
      RepricedKeeps(q, mark);
      TiersExactly(Repriced(q, mark), ProfitPercent(Repriced(q, mark), mark));
    }
  }

  lemma RepricedKeeps(p: Position, mark: real)
    ensures Same(p, Repriced(p, mark))
  {
    hide Round4, Pnl;
  }

  /** Over any sequence of ticks and reconciliations it stays the same position, and a closed one stays closed. */
  lemma {:induction false} IdentityKept(p: Position, actions: seq<Action>)
    requires Directed(p)
    ensures Same(p, Run(p, actions)) && (!p.isOpen ==> !Run(p, actions).isOpen)
    decreases |actions|
  {
    hide Tick, GhostClosed, Same;
    if actions != [] {
      StepKeeps(p, actions[0]);
      IdentityKept(Step(p, actions[0]), actions[1..]);
      SameTransitive(p, Step(p, actions[0]), Run(p, actions));
    } else {
      SameTransitive(p, p, p);
    }
  }

  lemma SameTransitive(p: Position, q: Position, r: Position)
    ensures Same(p, p) && (Same(p, q) && Same(q, r) ==> Same(p, r))
    ensures Same(p, q) && Directed(p) ==> Directed(q)
  {
  }

  lemma StepKeeps(p: Position, a: Action)
    requires Directed(p)
    ensures Same(p, Step(p, a)) && Directed(Step(p, a)) && (!p.isOpen ==> !Step(p, a).isOpen)
  {
    hide LevelsSane, DefaultTarget, ReconcileStop, Adjusted, ReasonToClose, ProfitPercent;
    match a
    case MonitorTick(live, now, exitOk) =>
      TickKeeps(p, live, now, exitOk);
      assert !p.isOpen ==> Tick(p, live, now, exitOk).0 == p;
    case Reconcile(_, _, _, _) =>
  }

  /** A tick writes exactly when it changes the position or, being managed, gives it the mark anew. */
  lemma WritesExactly(p: Position, live: Option<real>, now: int, exitOk: bool)
    ensures Races.TickWrites(p, live, now, exitOk)
      <==> Tick(p, live, now, exitOk).0 != p || (Managed(p) && p.quantity > 0.0 && MarkOf(p, live) > 0.0)
  {
    hide Tiers, Repriced, LevelsSane, ReasonToClose, ProfitPercent, Level;
    if Managed(p) && WithLevels(p) != p {
      ResetShows(p, live, now, exitOk);
    } else if !Races.TickWrites(p, live, now, exitOk) {
      Races.NoWriteNoChange(p, MonitorTick(live, now, exitOk));
    }
  }

  lemma ResetShows(p: Position, live: Option<real>, now: int, exitOk: bool)
    requires Managed(p) && WithLevels(p) != p
    ensures Tick(p, live, now, exitOk).0 != p
  {
    hide Tiers, Repriced, LevelsSane, ReasonToClose, ProfitPercent, Level, BreakevenStop, TrailStop, RunnerStop,
      RunnerTarget;
    var q := WithLevels(p);
    var mark := MarkOf(q, live);
    RepricedLevels(q, mark);
    TiersExactly(Repriced(q, mark), ProfitPercent(Repriced(q, mark), mark));
  }

  lemma RepricedLevels(p: Position, mark: real)
    ensures var r := Repriced(p, mark);
      r == p.(unrealized := r.unrealized, markPrice := r.markPrice)
  {
    hide Round4, Pnl;
  }
}
