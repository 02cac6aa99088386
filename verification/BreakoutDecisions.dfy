/** What the breakout strategy decides, in prices and by the rows it reads. */
module BreakoutDecisions {
  import opened Common
  import opened Candles
  import opened Breakout
  import Sizing

  // ---- The rows

  /** The breakout candle is the last row, or the one before it when a retest is required. */
  function BreakoutAt(c: StrategyConfig, x: Context): int { if c.retest then |x.rows| - 2 else |x.rows| - 1 }

  /** Row i is in the range: one of the needed rows just before the breakout candle, as far as they exist. */
  predicate InRange(c: StrategyConfig, x: Context, i: int) {
    0 <= i < |x.rows| && i < BreakoutAt(c, x)
      && i + (if c.minimumCandles >= c.lookback then c.minimumCandles else c.lookback) >= BreakoutAt(c, x)
  }

  lemma RowsExactly(c: StrategyConfig, x: Context, i: int)
    requires ValidConfig(c) && Enough(c, x)
    ensures var start := BreakoutAt(c, x) - |Consolidation(c, x)|;
      && (InRange(c, x, i) <==> start <= i < BreakoutAt(c, x))
      && (InRange(c, x, i) ==> start >= 0 && Consolidation(c, x)[i - start] == x.rows[i])
    ensures 0 <= BreakoutAt(c, x) < |x.rows| && BreakoutCandle(c, x) == x.rows[BreakoutAt(c, x)]
  {
  }

  lemma PricesOf(c: StrategyConfig, x: Context, i: int)
    requires ValidConfig(c) && Enough(c, x) && InRange(c, x, i)
    ensures x.rows[i].high in Highs(Consolidation(c, x)) && x.rows[i].low in Lows(Consolidation(c, x))
  {
    RowsExactly(c, x, i);
    var rows := Consolidation(c, x);
    var k := i - (BreakoutAt(c, x) - |rows|);
    hide Consolidation, InRange, BreakoutAt, Enough;
    assert Highs(rows)[k] == rows[k].high && Lows(rows)[k] == rows[k].low;
  }

  lemma RowOf(c: StrategyConfig, x: Context, k: nat) returns (i: nat)
    requires ValidConfig(c) && Enough(c, x) && k < |Consolidation(c, x)|
    ensures InRange(c, x, i) && x.rows[i] == Consolidation(c, x)[k]
  {
    RowsExactly(c, x, BreakoutAt(c, x) - |Consolidation(c, x)| + k);
    i := BreakoutAt(c, x) - |Consolidation(c, x)| + k;
  }

  /** The two ends of the range: the highest high and the lowest low, with the rows that have them. */
  lemma EndsExactly(c: StrategyConfig, x: Context) returns (top: nat, bottom: nat)
    requires ValidConfig(c) && Enough(c, x)
    ensures InRange(c, x, top) && InRange(c, x, bottom) && top < |x.rows| && bottom < |x.rows|
    ensures x.rows[top].high == Breakout.Highest(Highs(Consolidation(c, x)))
    ensures x.rows[bottom].low == Breakout.Lowest(Lows(Consolidation(c, x)))
    ensures forall i :: InRange(c, x, i) ==> x.rows[bottom].low <= x.rows[i].low && x.rows[i].high <= x.rows[top].high
  {
    var rows := Consolidation(c, x);
    var highs, lows := Highs(rows), Lows(rows);
    var high, low := Breakout.Highest(highs), Breakout.Lowest(lows);
    assert forall p :: p in highs ==> p <= high;
    assert forall p :: p in lows ==> low <= p;
    assert high in highs && low in lows;
    hide Breakout.Highest, Breakout.Lowest, Consolidation, InRange, Enough, BreakoutAt;
    var k :| 0 <= k < |highs| && highs[k] == high;
    var m :| 0 <= m < |lows| && lows[m] == low;
    top := RowOf(c, x, k);
    bottom := RowOf(c, x, m);
    forall i | InRange(c, x, i)
      ensures low <= x.rows[i].low && x.rows[i].high <= high
    {
      PricesOf(c, x, i);
    }
  }

  /**
   For a long the level is a high of the range and no high of the range is above
   it; for a short it is a low and no low is below it.
   */
  lemma LevelExactly(c: StrategyConfig, x: Context) returns (at: nat)
    requires ValidConfig(c) && Enough(c, x)
    ensures InRange(c, x, at) && at < |x.rows|
    ensures Level(c, x) == if x.direction == Long then x.rows[at].high else x.rows[at].low
    ensures x.direction == Long ==> forall i :: InRange(c, x, i) ==> x.rows[i].high <= Level(c, x)
    ensures x.direction == Short ==> forall i :: InRange(c, x, i) ==> Level(c, x) <= x.rows[i].low
  {
    hide Consolidation, Breakout.Highest, Breakout.Lowest, InRange;
    var top, bottom := EndsExactly(c, x);
    at := if x.direction == Long then top else bottom;
  }

  /** No high of the range is more than the allowed ATR multiple above a low of it. */
  ghost predicate Narrow(c: StrategyConfig, x: Context)
    requires x.atr.Some?
  {
    forall i, j :: InRange(c, x, i) && InRange(c, x, j)
      ==> x.rows[i].high - x.rows[j].low <= c.maximumWidthAtr * x.atr.value
  }

  lemma WidthExactly(c: StrategyConfig, x: Context)
    requires ValidConfig(c) && Enough(c, x)
    ensures Consolidated(c, x) <==> Narrow(c, x)
  {
    hide Consolidation, Breakout.Highest, Breakout.Lowest, InRange;
    var top, bottom := EndsExactly(c, x);
    RatioExactly(x.rows[top].high - x.rows[bottom].low, x.atr.value, c.maximumWidthAtr);
    AtMostWide(c, x, top, bottom, c.maximumWidthAtr * x.atr.value);
  }

  lemma AtMostWide(c: StrategyConfig, x: Context, top: int, bottom: int, most: real)
    requires InRange(c, x, top) && InRange(c, x, bottom)
    requires forall i :: InRange(c, x, i) ==> x.rows[bottom].low <= x.rows[i].low && x.rows[i].high <= x.rows[top].high
    ensures x.rows[top].high - x.rows[bottom].low <= most
      <==> forall i, j :: InRange(c, x, i) && InRange(c, x, j) ==> x.rows[i].high - x.rows[j].low <= most
  {
    hide InRange;
  }

  // ---- Confirmation

  /** How far a move goes in the setup's favour. */
  function Gain(direction: Direction, start: real, end: real): real {
    if direction == Long then end - start else start - end
  }

  /** What is left of the candle on the side it broke out to, measured from the close. */
  function WickBeyondClose(x: Context, b: Candle): real {
    if x.direction == Long then b.high - b.close else b.close - b.low
  }

  /** The breakout candle: a close beyond the level, a body in its direction, a short wick, a fair distance. */
  predicate StrongCandle(c: StrategyConfig, x: Context, b: Candle, level: real)
    requires x.atr.Some?
  {
    && Gain(x.direction, level, b.close) > 0.0
    && Gain(x.direction, b.open, b.close) > 0.0
    && Shaped(c, x, b)
    && Fair(c, Gain(x.direction, level, b.close), x.atr.value)
  }

  /** Enough body and little enough wick for the range of the candle. */
  predicate Shaped(c: StrategyConfig, x: Context, b: Candle) {
    && Gain(x.direction, b.open, b.close) >= c.minimumBody * (b.high - b.low)
    && WickBeyondClose(x, b) <= c.maximumWick * (b.high - b.low)
  }

  /** Neither too near to the level nor too far from it, for the ATR. */
  predicate Fair(c: StrategyConfig, distance: real, atr: real) {
    c.minimumDistanceAtr * atr <= distance <= c.maximumDistanceAtr * atr
  }

  /** The last row comes back to the level and closes beyond it again. */
  predicate ComesBack(x: Context, level: real) {
    && x.rows != []
    && var last := x.rows[|x.rows| - 1];
      && Gain(x.direction, level, last.close) > 0.0
      && if x.direction == Long then last.low <= level else last.high >= level
  }

  /** Volume b is at least the multiple of the mean of n rows; without any volume only a zero multiple will do. */
  predicate Expands(multiple: real, b: real, n: int, total: real) {
    b * n as real >= multiple * total && (total == 0.0 ==> multiple == 0.0)
  }

  lemma VolumeRatio(multiple: NonNegReal, b: real, n: int, total: real)
    requires b >= 0.0 && total >= 0.0 && n > 0
    ensures var average := total / n as real;
      (if average != 0.0 then b / average else 0.0) >= multiple <==> Expands(multiple, b, n, total)
  {
    var k := n as real;
    var average := total / k;
    assert average * k == total;
    ProductNonNegative(b, k);
    if total > 0.0 {
      NonNegativeFactor(average, k);
      RatioExactly(b, average, multiple);
      var e := b - multiple * average;
      assert e * k == b * k - multiple * total;
      assert e < 0.0 ==> e * k < 0.0;
      assert e >= 0.0 ==> e * k >= 0.0;
    } else {
      ZeroFactor(average, k);
    }
  }

  lemma {:induction false} SumNonNegative(f: Candle -> real, rows: seq<Candle>)
    requires forall r :: r in rows ==> f(r) >= 0.0
    ensures SumBy(f, rows) >= 0.0
  {
    if rows != [] {
      SumNonNegative(f, rows[1..]);
    }
  }

  /** What confirms a breakout, read off the candles: every test on the breakout candle, the volume and the retest. */
  lemma ConfirmedExactly(c: StrategyConfig, x: Context)
    requires ValidConfig(c) && Enough(c, x) && forall r :: r in x.rows ==> WellFormed(r)
    ensures var b, level, range := x.rows[BreakoutAt(c, x)], Level(c, x), Consolidation(c, x);
      Confirmed(c, x) <==>
        && StrongCandle(c, x, b, level)
        && Expands(c.relativeVolume, b.volume, |range|, SumBy((r: Candle) => r.volume, range))
        && (c.retest ==> ComesBack(x, level))
  {
    RowsExactly(c, x, 0);
    var b, level := x.rows[BreakoutAt(c, x)], Level(c, x);
    VolumeExactly(c, x);
    CandleExactly(c, x, b, level);
    hide Level, Consolidation, VolumeOk, AdverseWick, StrongCandle, Expands;
  }

  lemma VolumeExactly(c: StrategyConfig, x: Context)
    requires ValidConfig(c) && Enough(c, x) && forall r :: r in x.rows ==> WellFormed(r)
    ensures var b, range := x.rows[BreakoutAt(c, x)], Consolidation(c, x);
      VolumeOk(c, x) <==> Expands(c.relativeVolume, b.volume, |range|, SumBy((r: Candle) => r.volume, range))
  {
    var rows := Consolidation(c, x);
    assert forall r :: r in rows ==> r in x.rows;
    RowsExactly(c, x, 0);
    assert x.rows[BreakoutAt(c, x)] in x.rows;
    hide Consolidation;
    SumNonNegative((r: Candle) => r.volume, rows);
    VolumeRatio(c.relativeVolume, BreakoutCandle(c, x).volume, |rows|, SumBy((r: Candle) => r.volume, rows));
  }

  function Ratio(x: real, y: real): real
    requires y != 0.0
  {
    x / y
  }

  function BodyRatio(b: Candle): real {
    if b.high - b.low != 0.0 then Abs(b.close - b.open) / (b.high - b.low) else 0.0
  }

  lemma CandleExactly(c: StrategyConfig, x: Context, b: Candle, level: real)
    requires x.direction != NoSetup && x.atr.Some? && x.atr.value > 0.0 && WellFormed(b)
    ensures StrongCandle(c, x, b, level) <==>
      && (if x.direction == Long then b.close > level else b.close < level)
      && (if x.direction == Long then b.close > b.open else b.close < b.open)
      && BodyRatio(b) >= c.minimumBody
      && AdverseWick(x.direction == Long, b) <= c.maximumWick
      && c.minimumDistanceAtr <= Ratio(Abs(b.close - level), x.atr.value) <= c.maximumDistanceAtr
  {
    DistanceExactly(c, Abs(b.close - level), x.atr.value);
    if Gain(x.direction, b.open, b.close) > 0.0 {
      ShapeExactly(c, x, b);
    }
    hide AdverseWick, Fair, Shaped, BodyRatio, Ratio;
  }

  lemma DistanceExactly(c: StrategyConfig, distance: real, atr: real)
    requires atr > 0.0
    ensures c.minimumDistanceAtr <= Ratio(distance, atr) <= c.maximumDistanceAtr <==> Fair(c, distance, atr)
  {
    RatioExactly(distance, atr, c.minimumDistanceAtr);
    RatioExactly(distance, atr, c.maximumDistanceAtr);
  }

  /** Of a candle with a body, the two ratios to its range. */
  lemma ShapeExactly(c: StrategyConfig, x: Context, b: Candle)
    requires WellFormed(b) && Gain(x.direction, b.open, b.close) > 0.0
    ensures BodyRatio(b) >= c.minimumBody && AdverseWick(x.direction == Long, b) <= c.maximumWick <==> Shaped(c, x, b)
  {
    var range := b.high - b.low;
    RatioExactly(Abs(b.close - b.open), range, c.minimumBody);
    RatioExactly(WickBeyondClose(x, b), range, c.maximumWick);
  }

  // ---- Setups

  /** The strategy has what it needs: open gates, a direction, an ATR, and enough rows. */
  predicate Analysable(c: StrategyConfig, x: Context) {
    && x.gates
    && x.direction in {Long, Short}
    && x.atr.Some?
    && x.atr.value > 0.0
    && |x.rows| > c.minimumCandles
    && |x.rows| > c.lookback
  }

  lemma EnoughExactly(c: StrategyConfig, x: Context)
    ensures Enough(c, x) <==> Analysable(c, x)
  {
  }

  /** A confirmed breakout enters at the last close, any other at the level; the stop is a buffer behind the level. */
  lemma EntryAndStop(c: StrategyConfig, x: Context)
    requires ValidConfig(c) && Enough(c, x)
    ensures Entry(c, x) == if Confirmed(c, x) then x.rows[|x.rows| - 1].close else Level(c, x)
    ensures Gain(x.direction, Stop(c, x), Level(c, x)) == c.stopAtrBuffer * x.atr.value
  {
    hide Confirmed, Level;
  }

  /** The way to the target is at least the minimum multiple of the way to the stop. */
  predicate Pays(c: StrategyConfig, direction: Direction, entry: real, stop: real, target: real) {
    Gain(direction, entry, target) >= c.minimumRiskReward * Gain(direction, stop, entry)
  }

  /**
   There is a setup exactly when the strategy can analyse a narrow range, the stop
   is as far from the entry as the ATR limits ask, the target pays the minimum
   multiple of that distance, and the quality suffices.
   */
  lemma SetupExactly(c: StrategyConfig, x: Context)
    requires ValidConfig(c)
    ensures Evaluate(c, x).Setup? <==>
      && Analysable(c, x)
      && Narrow(c, x)
      && (var entry, stop := Entry(c, x), Stop(c, x);
          && Distant(c, Gain(x.direction, stop, entry), x.atr.value)
          && Pays(c, x.direction, entry, stop, Target(c, x.direction, entry, stop, x.levels)))
      && x.quality >= c.minimumQuality
  {
    EnoughExactly(c, x);
    if Enough(c, x) {
      WidthExactly(c, x);
      RewardExactly(c, x);
    }
    hide Distant, Pays, Enough, Analysable, Consolidated, Narrow, Entry, Stop, Target, RiskReward, Level;
  }

  lemma RewardExactly(c: StrategyConfig, x: Context)
    requires ValidConfig(c) && Enough(c, x)
    ensures var entry, stop := Entry(c, x), Stop(c, x);
      && (c.minimumStopAtr <= Abs(entry - stop) / x.atr.value <= c.maximumStopAtr
          <==> Distant(c, Gain(x.direction, stop, entry), x.atr.value))
      && (RiskReward(c, x.direction, entry, stop, x.levels) >= c.minimumRiskReward
          <==> Pays(c, x.direction, entry, stop, Target(c, x.direction, entry, stop, x.levels)))
  {
    StopIsBehindLevel(c, x);
    var entry, stop := Entry(c, x), Stop(c, x);
    hide Entry, Stop, Target, RiskReward, Level, Sizing.StructuralRr, Distant, Pays, Gain;
    var target := Target(c, x.direction, entry, stop, x.levels);
    TargetGeometry(c, x.direction, entry, stop, x.levels);
    RatiosExactly(c, x.direction, entry, stop, target, x.atr.value);
  }

  lemma RatiosExactly(c: StrategyConfig, direction: Direction, entry: real, stop: real, target: real, atr: real)
    requires direction != NoSetup && atr > 0.0
    requires Sizing.ValidStop(direction == Long, entry, stop) && Sizing.ValidTarget(direction == Long, entry, target)
    ensures c.minimumStopAtr <= Abs(entry - stop) / atr <= c.maximumStopAtr
      <==> Distant(c, Gain(direction, stop, entry), atr)
    ensures Sizing.StructuralRr(entry, stop, target) >= c.minimumRiskReward
      <==> Pays(c, direction, entry, stop, target)
  {
    var risk := Abs(entry - stop);
    RatioExactly(risk, atr, c.minimumStopAtr);
    RatioExactly(risk, atr, c.maximumStopAtr);
    RatioExactly(Abs(target - entry), risk, c.minimumRiskReward);
  }

  /**
   What a setup holds: the level, an entry zone of a quarter buffer around it,
   the three prices, and a status that is TRIGGERED exactly when confirmed and
   ARMED exactly when the last close is within half an ATR of the level or the
   breakout candle reached past it.
   */
  lemma SetupHolds(c: StrategyConfig, x: Context)
    requires ValidConfig(c) && Evaluate(c, x).Setup?
    ensures Enough(c, x)
    ensures var s, level, quarter := Evaluate(c, x), Level(c, x), c.stopAtrBuffer * x.atr.value / 4.0;
      && s.trigger == level && s.zoneLow == level - quarter && s.zoneHigh == level + quarter
      && s.entry == Entry(c, x) && s.stop == Stop(c, x)
      && s.target == Target(c, x.direction, s.entry, s.stop, x.levels)
      && (s.status == Triggered <==> Confirmed(c, x))
      && (s.status == Armed <==> !Confirmed(c, x) && (CloseBy(x, level) || Reached(c, x, level)))
  {
    hide Consolidated, Entry, Stop, Target, RiskReward, Confirmed, Level;
  }

  predicate CloseBy(x: Context, level: real)
    requires x.atr.Some? && x.rows != []
  {
    2.0 * Abs(x.rows[|x.rows| - 1].close - level) <= x.atr.value
  }

  predicate Reached(c: StrategyConfig, x: Context, level: real)
    requires ValidConfig(c) && Enough(c, x)
  {
    var b := x.rows[BreakoutAt(c, x)];
    if x.direction == Long then b.high > level else b.low < level
  }

  // ---- The structural stop

  /** The level is one the stop can hide behind: a support below a long's entry, a resistance above a short's. */
  predicate Shelter(direction: Direction, entry: real, levels: Levels, p: real) {
    p in (if direction == Long then levels.supports else levels.resistances) && Gain(direction, p, entry) > 0.0
  }

  /** So far from the price, on the losing side. */
  function Behind(direction: Direction, price: real, pad: real): real {
    if direction == Long then price - pad else price + pad
  }

  /** The stop, if it is within the ATR limits. */
  function Within(c: StrategyConfig, entry: real, atr: real, stop: real): Option<real> {
    if Distant(c, Abs(entry - stop), atr) then Some(stop) else None
  }

  /**
   A structural stop lies a buffer behind the nearest shelter, or behind a whole
   ATR when there is none, and exists exactly when that is within the limits.
   */
  lemma StructureStopExactly(c: StrategyConfig, direction: Direction, entry: real, atr: real, levels: Levels)
    returns (anchor: real)
    requires direction != NoSetup
    ensures (exists p :: Shelter(direction, entry, levels, p)) ==> Shelter(direction, entry, levels, anchor)
    ensures forall p :: Shelter(direction, entry, levels, p) ==> Gain(direction, p, anchor) >= 0.0
    ensures (forall p :: !Shelter(direction, entry, levels, p)) ==> Gain(direction, anchor, entry) == atr
    ensures atr <= 0.0 ==> StopFromStructure(c, direction, entry, atr, levels) == None
    ensures atr > 0.0 ==> (StopFromStructure(c, direction, entry, atr, levels)
                           == Within(c, entry, atr, Behind(direction, anchor, atr * c.stopAtrBuffer)))
  {
    hide StopFromStructure, Shelter, Within, Behind;
    var f := Nearest(direction, entry, levels);
    anchor := if f.Some? then f.value else if direction == Long then entry - atr else entry + atr;
    StopIs(c, direction, entry, atr, levels, anchor, atr * c.stopAtrBuffer);
  }

  lemma StopIs(c: StrategyConfig, direction: Direction, entry: real, atr: real, levels: Levels, anchor: real, pad: real)
    requires pad == atr * c.stopAtrBuffer
    requires direction == Long ==> anchor == var f := Floor(levels.supports, entry);
      if f.Some? then f.value else entry - atr
    requires direction != Long ==> anchor == var f := Ceiling(levels.resistances, entry);
      if f.Some? then f.value else entry + atr
    ensures StopFromStructure(c, direction, entry, atr, levels)
      == if atr <= 0.0 then None else Within(c, entry, atr, Behind(direction, anchor, pad))
  {
    hide Floor, Ceiling, Distant;
  }

  lemma Nearest(direction: Direction, entry: real, levels: Levels) returns (level: Option<real>)
    ensures level == if direction == Long then Floor(levels.supports, entry) else Ceiling(levels.resistances, entry)
    ensures level.Some? ==> Shelter(direction, entry, levels, level.value)
    ensures forall p :: Shelter(direction, entry, levels, p) ==> level.Some? && Gain(direction, p, level.value) >= 0.0
  {
    hide Floor, Ceiling;
    level := if direction == Long then Floor(levels.supports, entry) else Ceiling(levels.resistances, entry);
  }
}
