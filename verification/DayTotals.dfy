/** The runtime's daily profit and loss: kept per close, and recomputed from closed positions. */
module DayTotals {
  import opened Common
  import opened LivePositions
  import opened StopManager
  import Candles

  const IST_OFFSET := 19800

  function IstDay(t: int): int { (t + IST_OFFSET) / Candles.DAY }

  /** The day in question and the manual reset, if one was triggered. */
  datatype Scope = Scope(today: int, resetAt: Option<int>)

  datatype Totals = Totals(profit: real, loss: real, wins: nat, losses: nat)

  function When(p: Position): int { if p.closedAt.Some? then p.closedAt.value else p.updatedAt }

  predicate InScope(d: Scope, t: int) {
    IstDay(t) == d.today && !(d.resetAt.Some? && t < d.resetAt.value)
  }

  /** The day in India begins at 18:30 UTC the evening before; a reset leaves out what closed before it. */
  lemma ScopeExactly(d: Scope, t: int)
    ensures InScope(d, t) <==>
      && 86400 * d.today - 19800 <= t < 86400 * (d.today + 1) - 19800
      && (d.resetAt.Some? ==> d.resetAt.value <= t)
  {
  }

  predicate Counted(d: Scope, p: Position) { !p.isOpen && InScope(d, When(p)) }

  /** A position counts once closed, at its closing time or, without one, at its last update. */
  lemma CountedExactly(d: Scope, p: Position)
    ensures !p.isOpen && p.closedAt.Some? ==> (Counted(d, p) <==> InScope(d, p.closedAt.value))
    ensures !p.isOpen && p.closedAt.None? ==> (Counted(d, p) <==> InScope(d, p.updatedAt))
    ensures p.isOpen ==> !Counted(d, p)
  {
    hide InScope;
  }

  function ProfitIn(d: Scope): Position -> real {
    (p: Position) => if Counted(d, p) && p.realized > 0.0 then p.realized else 0.0
  }

  function LossIn(d: Scope): Position -> real {
    (p: Position) => if Counted(d, p) && p.realized < 0.0 then -p.realized else 0.0
  }

  function WinIn(d: Scope): Position -> bool { (p: Position) => Counted(d, p) && p.realized > 0.0 }

  function LosingIn(d: Scope): Position -> bool { (p: Position) => Counted(d, p) && p.realized < 0.0 }

  function FlatIn(d: Scope): Position -> bool { (p: Position) => Counted(d, p) && p.realized == 0.0 }

  /** The totals by definition: folds over the closed positions, rounded to four decimals. */
  function Recomputed(d: Scope, positions: seq<Position>): Totals {
    Totals(Round4(SumBy(ProfitIn(d), positions)), Round4(SumBy(LossIn(d), positions)),
           CountBy(WinIn(d), positions), CountBy(LosingIn(d), positions))
  }

  /** The incremental update after one close. A close at exactly zero counts as a loss. */
  function AfterClose(t: Totals, pnl: real): Totals {
    if pnl > 0.0 then t.(wins := t.wins + 1, profit := t.profit + pnl)
    else t.(losses := t.losses + 1, loss := t.loss + Abs(pnl))
  }

  /** Every counted result is a whole number of ten-thousandths. */
  ghost predicate Exact(d: Scope, positions: seq<Position>) {
    forall i :: 0 <= i < |positions| && Counted(d, positions[i]) ==> FourDecimals(positions[i].realized)
  }

  lemma {:induction false} SumExact(d: Scope, positions: seq<Position>)
    requires Exact(d, positions)
    ensures FourDecimals(SumBy(ProfitIn(d), positions)) && FourDecimals(SumBy(LossIn(d), positions))
  {
    hide Counted, FourDecimals;
    ZeroExact();
    if positions != [] {
      SumExact(d, positions[1..]);
      if Counted(d, positions[0]) {
        FourDecimalsSum(positions[0].realized, positions[0].realized);
      }
      FourDecimalsSum(ProfitIn(d)(positions[0]), SumBy(ProfitIn(d), positions[1..]));
      FourDecimalsSum(LossIn(d)(positions[0]), SumBy(LossIn(d), positions[1..]));
    }
  }

  lemma ZeroExact()
    ensures FourDecimals(0.0)
  {
    assert IsTenThousandths(0.0, 0);
  }

  /** With four-decimal results the recomputed sums are not changed by rounding. */
  lemma RecomputedSums(d: Scope, positions: seq<Position>)
    requires Exact(d, positions)
    ensures var r := Recomputed(d, positions);
      r.profit == SumBy(ProfitIn(d), positions) && r.loss == SumBy(LossIn(d), positions)
  {
    hide Exact, Counted, FourDecimals, Round4, SumBy, CountBy;
    SumExact(d, positions);
    FourDecimalsRound(SumBy(ProfitIn(d), positions));
    FourDecimalsRound(SumBy(LossIn(d), positions));
  }

  /** Whatever was realised, a recomputed total has four decimals and is nearest to its sum. */
  lemma RecomputedRounds(d: Scope, positions: seq<Position>)
    ensures var r, profit, loss := Recomputed(d, positions), SumBy(ProfitIn(d), positions), SumBy(LossIn(d), positions);
      && FourDecimals(r.profit) && FourDecimals(r.loss)
      && profit - 0.00005 <= r.profit <= profit + 0.00005 && loss - 0.00005 <= r.loss <= loss + 0.00005
  {
    hide SumBy, FourDecimals, RoundHalfEven;
    var profit, loss := SumBy(ProfitIn(d), positions), SumBy(LossIn(d), positions);
    RoundedHasFourDecimals(profit);
    RoundedHasFourDecimals(loss);
    RoundError(profit * 10000.0);
    RoundError(loss * 10000.0);
  }

  /** Incremental totals agree with recomputation, up to zero-result closes counted as losses. */
  ghost predicate Agrees(d: Scope, positions: seq<Position>, t: Totals, flat: int) {
    var r := Recomputed(d, positions);
    t.profit == r.profit && t.loss == r.loss && t.wins == r.wins && t.losses == r.losses + flat
  }

  /** What a close replaces: an open position by its closed form, in scope. */
  ghost predicate Closes(d: Scope, p: Position, q: Position) {
    p.isOpen && Counted(d, q) && FourDecimals(q.realized)
  }

  lemma CloseUpdates(d: Scope, positions: seq<Position>, i: nat, q: Position)
    requires i < |positions| && Closes(d, positions[i], q)
    ensures var r := positions[i := q];
      && SumBy(ProfitIn(d), r) == SumBy(ProfitIn(d), positions) + (if q.realized > 0.0 then q.realized else 0.0)
      && SumBy(LossIn(d), r) == SumBy(LossIn(d), positions) + (if q.realized < 0.0 then -q.realized else 0.0)
      && CountBy(WinIn(d), r) == CountBy(WinIn(d), positions) + (if q.realized > 0.0 then 1 else 0)
      && CountBy(LosingIn(d), r) == CountBy(LosingIn(d), positions) + (if q.realized < 0.0 then 1 else 0)
  {
    hide FourDecimals, InScope, SumBy, CountBy;
    SumByUpdate(ProfitIn(d), positions, i, q);
    SumByUpdate(LossIn(d), positions, i, q);
    CountByUpdate(WinIn(d), positions, i, q);
    CountByUpdate(LosingIn(d), positions, i, q);
  }

  /** One close keeps the agreement; the losing count drifts by one exactly at a zero result. */
  lemma CloseAgrees(d: Scope, positions: seq<Position>, i: nat, q: Position, t: Totals, flat: int)
    requires i < |positions| && Closes(d, positions[i], q) && Exact(d, positions)
    requires Agrees(d, positions, t, flat)
    ensures Exact(d, positions[i := q])
    ensures Agrees(d, positions[i := q], AfterClose(t, q.realized), if q.realized == 0.0 then flat + 1 else flat)
    ensures Agrees(d, positions[i := q], AfterClose(t, q.realized), flat) <==> q.realized != 0.0
  {
    hide FourDecimals, InScope, SumBy, CountBy, Round4;
    RecomputedSums(d, positions);
    RecomputedSums(d, positions[i := q]);
    CloseUpdates(d, positions, i, q);
  }

  /** Repricing and tiers change no counted result. */
  lemma OpenAgrees(d: Scope, positions: seq<Position>, i: nat, q: Position, t: Totals, flat: int)
    requires i < |positions| && positions[i].isOpen && q.isOpen && Exact(d, positions)
    requires Agrees(d, positions, t, flat)
    ensures Exact(d, positions[i := q]) && Agrees(d, positions[i := q], t, flat)
  {
    hide FourDecimals, InScope, SumBy, CountBy, Round4;
    SumByUpdate(ProfitIn(d), positions, i, q);
    SumByUpdate(LossIn(d), positions, i, q);
    CountByUpdate(WinIn(d), positions, i, q);
    CountByUpdate(LosingIn(d), positions, i, q);
  }

  /** A close by the monitor, in scope, of a position whose unrealized result is exact. */
  lemma TickCloses(d: Scope, p: Position, live: Option<real>, now: int, exitOk: bool)
    requires InScope(d, now)
    requires p.quantity > 0.0
    ensures var (q, reason) := Tick(p, live, now, exitOk);
      && (reason.Some? ==> Closes(d, p, q))
      && (reason.None? ==> q.isOpen == p.isOpen && (!p.isOpen ==> q == p))
  {
    hide WithLevels, MarkOf, Tiers, ReasonToClose, Round4, FourDecimals, InScope, Profit;
    if Managed(p) {
      var leveled := WithLevels(p);
      WithLevelsKeeps(p);
      var mark := MarkOf(leveled, live);
      if mark > 0.0 {
        var priced := Repriced(leveled, mark);
        RepricedExact(leveled, mark);
        TiersKeep(priced, ProfitPercent(priced, mark));
      }
    }
  }

  lemma RepricedExact(p: Position, mark: real)
    requires p.quantity > 0.0
    ensures FourDecimals(Repriced(p, mark).unrealized)
  {
    hide Round4, Pnl, FourDecimals;
    RoundedHasFourDecimals(Pnl(p, mark));
  }

  lemma WithLevelsKeeps(p: Position)
    ensures var q := WithLevels(p); q == p.(stop := q.stop, target := q.target)
  {
    hide DefaultTarget, MonitorStop, LevelsSane;
  }

  /** What one monitor pass meets at each position: the live price, the clock, the exchange's answer. */
  datatype Feed = Feed(live: Option<real>, now: int, exitOk: bool)

  class Runtime {
    var positions: seq<Position>
    var totals: Totals

    constructor (ps: seq<Position>, t: Totals)
      ensures positions == ps && totals == t
    {
      positions, totals := ps, t;
    }

    /** Recomputes the day's totals from all closed positions. */
    method RecalculateToday(d: Scope)
      modifies this`totals
      ensures totals == Recomputed(d, positions)
    {
      hide Round4, Counted;
      var profit, loss, wins, losses := 0.0, 0.0, 0, 0;
      for i := 0 to |positions|
        invariant profit + SumBy(ProfitIn(d), positions[i..]) == SumBy(ProfitIn(d), positions)
        invariant loss + SumBy(LossIn(d), positions[i..]) == SumBy(LossIn(d), positions)
        invariant wins + CountBy(WinIn(d), positions[i..]) == CountBy(WinIn(d), positions)
        invariant losses + CountBy(LosingIn(d), positions[i..]) == CountBy(LosingIn(d), positions)
        invariant wins >= 0 && losses >= 0
      {
        var p := positions[i];
        assert positions[i..][0] == p && positions[i..][1..] == positions[i + 1..];
        if Counted(d, p) {
          if p.realized > 0.0 {
            profit, wins := profit + p.realized, wins + 1;
          } else if p.realized < 0.0 {
            loss, losses := loss + Abs(p.realized), losses + 1;
          }
        }
      }
      totals := Totals(Round4(profit), Round4(loss), wins, losses);
    }

    /**
     One pass of `monitor_and_auto_close_positions`. Within one day and without a
     reset, incremental totals stay equal to recomputation, except that each
     close at exactly zero adds one to the losing count.
     */
    method MonitorAndClose(d: Scope, feeds: seq<Feed>, ghost flat: nat)
      returns (closed: seq<CloseReason>, ghost flatAfter: nat)
      requires |feeds| == |positions|
      requires forall i :: 0 <= i < |feeds| ==> InScope(d, feeds[i].now)
      requires forall i :: 0 <= i < |positions| && positions[i].isOpen ==> positions[i].quantity > 0.0
      requires Exact(d, positions) && Agrees(d, positions, totals, flat)
      modifies this
      ensures |positions| == old(|positions|)
      ensures forall i :: 0 <= i < |positions| ==>
        positions[i] ==
          if old(positions[i]).isOpen then Tick(old(positions[i]), feeds[i].live, feeds[i].now, feeds[i].exitOk).0
                        else old(positions[i])
      ensures Exact(d, positions) && Agrees(d, positions, totals, flatAfter)
      ensures flatAfter - flat == CountBy(FlatIn(d), positions) - CountBy(FlatIn(d), old(positions))
    {
      hide Exact, Agrees, Tick, InScope, AfterClose, CountBy, FlatIn;
      closed, flatAfter := [], flat;
      ghost var before := positions;
      for i := 0 to |positions|
        invariant |positions| == |before|
        invariant forall k :: i <= k < |positions| ==> positions[k] == before[k]
        invariant forall k :: 0 <= k < i ==>
          positions[k] ==
            if before[k].isOpen then Tick(before[k], feeds[k].live, feeds[k].now, feeds[k].exitOk).0 else before[k]
        invariant Exact(d, positions) && Agrees(d, positions, totals, flatAfter)
        invariant flatAfter - flat == CountBy(FlatIn(d), positions) - CountBy(FlatIn(d), before)
      {
        var p, feed := positions[i], feeds[i];
        if p.isOpen {
          var (q, reason) := Tick(p, feed.live, feed.now, feed.exitOk);
          TickCloses(d, p, feed.live, feed.now, feed.exitOk);
          FlatChange(d, positions, i, q, reason.Some?);
          if reason.Some? {
            CloseAgrees(d, positions, i, q, totals, flatAfter);
            totals := AfterClose(totals, q.realized);
            flatAfter := if q.realized == 0.0 then flatAfter + 1 else flatAfter;
            closed := closed + [reason.value];
          } else {
            OpenAgrees(d, positions, i, q, totals, flatAfter);
          }
          positions := positions[i := q];
        }
      }
    }
  }

  lemma FlatChange(d: Scope, positions: seq<Position>, i: nat, q: Position, closes: bool)
    requires i < |positions| && positions[i].isOpen
    requires if closes then Closes(d, positions[i], q) else q.isOpen
    ensures CountBy(FlatIn(d), positions[i := q])
         == CountBy(FlatIn(d), positions) + (if closes && q.realized == 0.0 then 1 else 0)
  {
    hide FourDecimals, InScope, CountBy;
    CountByUpdate(FlatIn(d), positions, i, q);
  }

  /**
   Two passes that both read a position open and both have their exit accepted
   count its one close twice: the position is closed once, as the later pass
   wrote it, and the totals hold one trade too many.
   */
  lemma OverlappingPassesCountTwice(d: Scope, positions: seq<Position>, i: nat, first: Feed, second: Feed, t: Totals,
                                    flat: nat)
    requires i < |positions| && positions[i].quantity > 0.0 && Exact(d, positions) && Agrees(d, positions, t, flat)
    requires InScope(d, first.now) && InScope(d, second.now)
    requires Tick(positions[i], first.live, first.now, first.exitOk).1.Some?
    requires Tick(positions[i], second.live, second.now, second.exitOk).1.Some?
    ensures var p := Tick(positions[i], first.live, first.now, first.exitOk).0;
      var q := Tick(positions[i], second.live, second.now, second.exitOk).0;
      var counted := AfterClose(AfterClose(t, p.realized), q.realized);
      var after, flatAfter := positions[i := p][i := q], if q.realized == 0.0 then flat + 1 else flat;
      && Recomputed(d, after).wins + Recomputed(d, after).losses + flatAfter + 1 == counted.wins + counted.losses
      && !Agrees(d, after, counted, flatAfter)
  {
    hide Tick, Exact, InScope, Round4, Counted, Recomputed;
    var p := Tick(positions[i], first.live, first.now, first.exitOk).0;
    var q := Tick(positions[i], second.live, second.now, second.exitOk).0;
    TickCloses(d, positions[i], first.live, first.now, first.exitOk);
    TickCloses(d, positions[i], second.live, second.now, second.exitOk);
    assert positions[i := p][i := q] == positions[i := q];
    CloseAgrees(d, positions, i, q, t, flat);
  }

  /** A long that is marked at its stop, below its entry, is closed. */
  lemma StoppedTickCloses(p: Position, mark: real, now: int)
    requires Managed(p) && p.direction == Long && LevelsSane(Long, p.averagePrice, p.stop, p.target) && !p.runner
    requires p.quantity > 0.0 && 0.0 < mark <= p.stop.value && mark < p.averagePrice
    ensures Tick(p, Some(mark), now, true).1.Some?
  {
    hide LevelsSane, BreakevenStop, TrailStop, RunnerStop, RunnerTarget, Round4, Pnl, ProfitPercent;
    LossRoundsDown(p, mark);
    assert WithLevels(p) == p;
    var priced := Repriced(p, mark);
    NoTiers(priced, ProfitPercent(priced, mark));
  }

  lemma LossRoundsDown(p: Position, mark: real)
    requires p.direction == Long && p.quantity > 0.0 && 0.0 < p.averagePrice && mark < p.averagePrice
    ensures Round4(Pnl(p, mark)) <= 0.0
    ensures forall q: Position ::
      q.direction == Long && q.averagePrice == p.averagePrice ==> ProfitPercent(q, mark) < 0.0
  {
    var d := p.averagePrice - mark;
    ProductPositive(d, p.quantity);
    assert Pnl(p, mark) == -(d * p.quantity);
    RoundMonotone(Pnl(p, mark) * 10000.0, 0.0);
    RoundsTo(0.0, 0);
    var r := (mark - p.averagePrice) / p.averagePrice;
    assert r * p.averagePrice == -d;
    assert r >= 0.0 ==> r * p.averagePrice >= 0.0;
  }

  lemma NoTiers(p: Position, percent: real)
    requires p.unrealized <= 0.0 && percent < 0.0
    ensures Tiers(p, percent) == p
  {
    hide BreakevenStop, TrailStop, RunnerStop, RunnerTarget;
    assert Tier1(p, percent) == p;
    assert Tier2(p, percent) == p;
    assert Tier3(p, percent) == p;
  }

  lemma NothingClosed(d: Scope, p: Position)
    requires p.isOpen
    ensures Exact(d, [p]) && Agrees(d, [p], Totals(0.0, 0.0, 0, 0), 0)
  {
    hide InScope;
    assert [p] == [] + [p] && [p][1..] == [];
    RoundsTo(0.0, 0);
    SumBySnoc(ProfitIn(d), [], p);
    SumBySnoc(LossIn(d), [], p);
    assert CountBy(WinIn(d), [p][1..]) == 0 && CountBy(LosingIn(d), [p][1..]) == 0;
  }

  /** Such passes occur: a long at 100 with stop 99, met by both at 98 on the day of the epoch. */
  lemma OverlappingPassesOccur()
    ensures var p := Position(0, "x", "pair", Long, 1.0, 100.0, None, Some(99.0), Some(102.0), 0.0, 0.0, true,
                              true, false, false, false, 0, None, 0);
      var d, feed := Scope(0, None), Feed(Some(98.0), 0, true);
      && Exact(d, [p]) && Agrees(d, [p], Totals(0.0, 0.0, 0, 0), 0) && InScope(d, feed.now)
      && Tick(p, feed.live, feed.now, feed.exitOk).1.Some?
  {
    hide Tick, Exact, Agrees;
    var p := Position(0, "x", "pair", Long, 1.0, 100.0, None, Some(99.0), Some(102.0), 0.0, 0.0, true,
                      true, false, false, false, 0, None, 0);
    NothingClosed(Scope(0, None), p);
    StoppedTickCloses(p, 98.0, 0);
  }
}
