/** Breakout setups: their price geometry, and what the risk engine can rely on. */
module Breakout {
  import opened Common
  import opened Candles
  import Sizing

  datatype StrategyConfig = StrategyConfig(
    minimumRiskReward: PosReal, preferredRiskReward: PosReal, stopAtrBuffer: PosReal,
    minimumStopAtr: PosReal, maximumStopAtr: PosReal, maximumWidthAtr: PosReal,
    minimumBody: NonNegReal, maximumWick: NonNegReal, relativeVolume: NonNegReal,
    minimumDistanceAtr: NonNegReal, maximumDistanceAtr: PosReal,
    lookback: nat, minimumCandles: nat, retest: bool, minimumQuality: NonNegReal)

  /** The configuration model's validator. */
  predicate ValidConfig(c: StrategyConfig) {
    c.minimumRiskReward <= c.preferredRiskReward && c.minimumStopAtr < c.maximumStopAtr && c.lookback >= 8
      && c.minimumCandles >= 5
  }

  datatype Status = Watch | Armed | Triggered

  /** `Rejected` is the NO_SETUP status, without its explanations. */
  datatype Result =
    | Rejected
    | Setup(status: Status, trigger: real, zoneLow: real, zoneHigh: real, entry: real, stop: real, target: real,
            riskReward: real)

  // ---- Price levels

  function Lowest(prices: seq<real>): (low: real)
    requires prices != []
    ensures low in prices && forall p :: p in prices ==> low <= p
  {
    assert prices == [prices[0]] + prices[1..];
    if |prices| == 1 then prices[0] else Min(prices[0], Lowest(prices[1..]))
  }

  function Highest(prices: seq<real>): (high: real)
    requires prices != []
    ensures high in prices && forall p :: p in prices ==> p <= high
  {
    assert prices == [prices[0]] + prices[1..];
    if |prices| == 1 then prices[0] else Max(prices[0], Highest(prices[1..]))
  }

  function Above(prices: seq<real>, entry: real): (kept: seq<real>)
    ensures forall p :: p in kept <==> p in prices && p > entry
  {
    if prices == [] then [] else (if prices[0] > entry then [prices[0]] else []) + Above(prices[1..], entry)
  }

  function Below(prices: seq<real>, entry: real): (kept: seq<real>)
    ensures forall p :: p in kept <==> p in prices && p < entry
  {
    if prices == [] then [] else (if prices[0] < entry then [prices[0]] else []) + Below(prices[1..], entry)
  }

  datatype Levels = Levels(supports: seq<real>, resistances: seq<real>)

  // ---- Stop and target

  /** The highest level below the entry, or nothing. */
  function Floor(prices: seq<real>, entry: real): (level: Option<real>)
    ensures level.Some? ==> level.value in prices && level.value < entry
    ensures forall p :: p in prices && p < entry ==> level.Some? && p <= level.value
  {
    var candidates := Below(prices, entry);
    if candidates != [] then Some(Highest(candidates)) else None
  }

  /** The lowest level above the entry, or nothing. */
  function Ceiling(prices: seq<real>, entry: real): (level: Option<real>)
    ensures level.Some? ==> level.value in prices && level.value > entry
    ensures forall p :: p in prices && p > entry ==> level.Some? && level.value <= p
  {
    var candidates := Above(prices, entry);
    if candidates != [] then Some(Lowest(candidates)) else None
  }

  /** A stop this far from the entry is within the ATR limits. */
  predicate Distant(c: StrategyConfig, distance: real, atr: real) {
    c.minimumStopAtr * atr <= distance <= c.maximumStopAtr * atr
  }

  function StopFromStructure(c: StrategyConfig, direction: Direction, entry: real, atr: real,
                             levels: Levels): Option<real> {
    if atr <= 0.0 then None
    else
      var stop :=
        if direction == Long then
          (var f := Floor(levels.supports, entry); if f.Some? then f.value else entry - atr) - atr * c.stopAtrBuffer
        else
          (var f := Ceiling(levels.resistances, entry); if f.Some? then f.value else entry + atr)
            + atr * c.stopAtrBuffer;
      if Distant(c, Abs(entry - stop), atr) then Some(stop) else None
  }

  /** The target at the preferred multiple, or the first barrier in the way. */
  function Target(c: StrategyConfig, direction: Direction, entry: real, stop: real, levels: Levels): real {
    var risk := Abs(entry - stop);
    if direction == Long then
      var preferred, barrier := entry + risk * c.preferredRiskReward, Ceiling(levels.resistances, entry);
      if barrier.Some? then Min(preferred, barrier.value) else preferred
    else
      var preferred, barrier := entry - risk * c.preferredRiskReward, Floor(levels.supports, entry);
      if barrier.Some? then Max(preferred, barrier.value) else preferred
  }

  function RiskReward(c: StrategyConfig, direction: Direction, entry: real, stop: real, levels: Levels): real {
    hide Floor, Ceiling;
    var risk, target := Abs(entry - stop), Target(c, direction, entry, stop, levels);
    var reward := if direction == Long then target - entry else entry - target;
    if risk != 0.0 then Max(0.0, reward / risk) else 0.0
  }

  // ---- The strategy

  /** `gates` and `quality` stand for the eligibility gates and the weighted quality score. */
  datatype Context = Context(gates: bool, direction: Direction, atr: Option<NonNegReal>, rows: seq<Candle>,
                             levels: Levels, quality: real)

  function Needed(c: StrategyConfig): nat { if c.minimumCandles >= c.lookback then c.minimumCandles else c.lookback }

  predicate Enough(c: StrategyConfig, x: Context) {
    x.gates && x.direction != NoSetup && x.atr.Some? && x.atr.value != 0.0 && |x.rows| >= Needed(c) + 1
  }

  /** The range before the breakout candle; a slice that starts before the first row starts at the first row. */
  function Consolidation(c: StrategyConfig, x: Context): (rows: seq<Candle>)
    requires ValidConfig(c) && Enough(c, x)
    ensures |rows| >= Needed(c) - 1
  {
    var end := |x.rows| - if c.retest then 2 else 1;
    var start := end - Needed(c);
    x.rows[if start < 0 then 0 else start..end]
  }

  function Highs(rows: seq<Candle>): (r: seq<real>)
    ensures |r| == |rows|
  {
    seq(|rows|, i requires 0 <= i < |rows| => rows[i].high)
  }

  function Lows(rows: seq<Candle>): (r: seq<real>)
    ensures |r| == |rows|
  {
    seq(|rows|, i requires 0 <= i < |rows| => rows[i].low)
  }

  function Level(c: StrategyConfig, x: Context): real
    requires ValidConfig(c) && Enough(c, x)
  {
    if x.direction == Long then Highest(Highs(Consolidation(c, x))) else Lowest(Lows(Consolidation(c, x)))
  }

  function BreakoutCandle(c: StrategyConfig, x: Context): Candle
    requires ValidConfig(c) && Enough(c, x)
  {
    x.rows[|x.rows| - if c.retest then 2 else 1]
  }

  function Current(x: Context): Candle
    requires x.rows != []
  {
    x.rows[|x.rows| - 1]
  }

  function AdverseWick(long: bool, b: Candle): real {
    var range := b.high - b.low;
    if range == 0.0 then 1.0
    else if long then (b.high - Max(b.open, b.close)) / range
    else (Min(b.open, b.close) - b.low) / range
  }

  predicate VolumeOk(c: StrategyConfig, x: Context)
    requires ValidConfig(c) && Enough(c, x)
  {
    var rows := Consolidation(c, x);
    var average := SumBy((r: Candle) => r.volume, rows) / |rows| as real;
    (if average != 0.0 then BreakoutCandle(c, x).volume / average else 0.0) >= c.relativeVolume
  }

  predicate Confirmed(c: StrategyConfig, x: Context)
    requires ValidConfig(c) && Enough(c, x)
  {
    var b, level, long := BreakoutCandle(c, x), Level(c, x), x.direction == Long;
    var range := b.high - b.low;
    && (if long then b.close > level else b.close < level)
    && (if long then b.close > b.open else b.close < b.open)
    && (if range != 0.0 then Abs(b.close - b.open) / range else 0.0) >= c.minimumBody
    && AdverseWick(long, b) <= c.maximumWick
    && VolumeOk(c, x)
    && c.minimumDistanceAtr <= Abs(b.close - level) / x.atr.value <= c.maximumDistanceAtr
    && RetestOk(c, x, level)
  }

  predicate RetestOk(c: StrategyConfig, x: Context, level: real)
    requires ValidConfig(c) && Enough(c, x)
  {
    var current := Current(x);
    !c.retest || (if x.direction == Long then current.low <= level < current.close
                  else current.high >= level > current.close)
  }

  predicate Consolidated(c: StrategyConfig, x: Context)
    requires ValidConfig(c) && Enough(c, x)
  {
    var rows := Consolidation(c, x);
    (Highest(Highs(rows)) - Lowest(Lows(rows))) / x.atr.value <= c.maximumWidthAtr
  }

  function Entry(c: StrategyConfig, x: Context): real
    requires ValidConfig(c) && Enough(c, x)
  {
    if Confirmed(c, x) then Current(x).close else Level(c, x)
  }

  function Buffer(c: StrategyConfig, x: Context): real
    requires Enough(c, x)
  {
    x.atr.value * c.stopAtrBuffer
  }

  function Stop(c: StrategyConfig, x: Context): real
    requires ValidConfig(c) && Enough(c, x)
  {
    if x.direction == Long then Level(c, x) - Buffer(c, x) else Level(c, x) + Buffer(c, x)
  }

  function StatusOf(c: StrategyConfig, x: Context): Status
    requires ValidConfig(c) && Enough(c, x)
  {
    var b, level := BreakoutCandle(c, x), Level(c, x);
    var near := Abs(Current(x).close - level) <= x.atr.value * 0.5;
    var wick := if x.direction == Long then b.high > level else b.low < level;
    if Confirmed(c, x) then Triggered else if near || wick then Armed else Watch
  }

  function Evaluate(c: StrategyConfig, x: Context): Result
    requires ValidConfig(c)
  {
    if !Enough(c, x) || !Consolidated(c, x) then Rejected
    else
      var entry, stop, level := Entry(c, x), Stop(c, x), Level(c, x);
      if !(c.minimumStopAtr <= Abs(entry - stop) / x.atr.value <= c.maximumStopAtr) then Rejected
      else
        var rr := RiskReward(c, x.direction, entry, stop, x.levels);
        if rr < c.minimumRiskReward || x.quality < c.minimumQuality then Rejected
        else
          var margin := Buffer(c, x) * 0.25;
          Setup(StatusOf(c, x), level, level - margin, level + margin, entry, stop,
                Target(c, x.direction, entry, stop, x.levels), rr)
  }

  // ---- Stop and target laws

  /**
   A structural stop lies on the losing side, beyond the nearest level it hides
   behind, and within the configured distance.
   */
  lemma StructureStopIsBeyondItsLevel(c: StrategyConfig, direction: Direction, entry: real, atr: real, levels: Levels)
    requires direction != NoSetup
    ensures var stop := StopFromStructure(c, direction, entry, atr, levels);
      stop.Some? ==>
        && Sizing.ValidStop(direction == Long, entry, stop.value)
        && c.minimumStopAtr * atr <= Abs(entry - stop.value) <= c.maximumStopAtr * atr
        && (direction == Long && Floor(levels.supports, entry).Some?
            ==> stop.value < Floor(levels.supports, entry).value)
        && (direction == Short && Ceiling(levels.resistances, entry).Some?
            ==> Ceiling(levels.resistances, entry).value < stop.value)
  {
    hide Floor, Ceiling;
    if atr > 0.0 {
      ProductPositive(atr, c.stopAtrBuffer);
    }
  }

  /** With a stop on its side, a target rewards, stops at the first barrier, and pays at most the preferred multiple. */
  lemma TargetGeometry(c: StrategyConfig, direction: Direction, entry: real, stop: real, levels: Levels)
    requires direction != NoSetup && Sizing.ValidStop(direction == Long, entry, stop)
    ensures var target, rr := Target(c, direction, entry, stop, levels), RiskReward(c, direction, entry, stop, levels);
      && Sizing.ValidTarget(direction == Long, entry, target)
      && rr == Sizing.StructuralRr(entry, stop, target)
      && 0.0 < rr <= c.preferredRiskReward
      && (direction == Long ==> forall p :: p in levels.resistances ==> !(entry < p < target))
      && (direction == Short ==> forall p :: p in levels.supports ==> !(target < p < entry))
      && (rr < c.preferredRiskReward ==> target in (if direction == Long then levels.resistances else levels.supports))
  {
    hide Floor, Ceiling;
    var risk, target := Abs(entry - stop), Target(c, direction, entry, stop, levels);
    ProductPositive(risk, c.preferredRiskReward);
    var reward := Abs(target - entry);
    var rr := reward / risk;
    assert rr * risk == reward;
    RatioBounds(reward, risk, c.preferredRiskReward, rr);
  }

  lemma RatioBounds(reward: real, risk: real, most: real, rr: real)
    requires reward > 0.0 && risk > 0.0 && rr * risk == reward && reward <= risk * most
    ensures 0.0 < rr <= most
    ensures reward < risk * most ==> rr < most
    ensures reward == risk * most ==> rr == most
  {
    if rr <= 0.0 {
      ProductLe(rr, 0.0, risk);
    }
    if rr > most {
      ProductLt(most, rr, risk);
    } else if rr < most {
      ProductLt(rr, most, risk);
    }
  }

  // ---- Setup laws

  /** A confirmed entry closes strictly beyond the broken level, with or without a retest. */
  lemma EntryIsBeyondLevel(c: StrategyConfig, x: Context)
    requires ValidConfig(c) && Enough(c, x)
    ensures var entry, level := Entry(c, x), Level(c, x);
      && (x.direction == Long ==> level <= entry) && (x.direction == Short ==> entry <= level)
      && (entry == level <==> !Confirmed(c, x))
  {
    hide Level, Consolidation, VolumeOk, AdverseWick;
  }

  lemma BufferRatio(c: StrategyConfig, x: Context)
    requires Enough(c, x)
    ensures Buffer(c, x) > 0.0 && Buffer(c, x) / x.atr.value == c.stopAtrBuffer
  {
    var atr: real, buffer: real := x.atr.value, c.stopAtrBuffer;
    ProductPositive(atr, buffer);
    var ratio := Buffer(c, x) / atr;
    assert ratio * atr == Buffer(c, x);
    if ratio < buffer {
      ProductLt(ratio, buffer, atr);
    } else if buffer < ratio {
      ProductLt(buffer, ratio, atr);
    }
  }

  lemma StopIsBehindLevel(c: StrategyConfig, x: Context)
    requires ValidConfig(c) && Enough(c, x)
    ensures var entry, stop, margin := Entry(c, x), Stop(c, x), Buffer(c, x) * 0.25;
      && Sizing.ValidStop(x.direction == Long, entry, stop)
      && (x.direction == Long ==> stop < Level(c, x) - margin <= entry)
      && (x.direction == Short ==> entry <= Level(c, x) + margin < stop)
  {
    hide Level, Consolidation, Confirmed, Entry, Buffer;
    EntryIsBeyondLevel(c, x);
    BufferRatio(c, x);
  }

  /**
   Every setup, triggered or not, has its entry strictly between stop and target
   on its side, its stop outside the entry zone and within the configured ATR
   distance, and a risk/reward that a recomputation from the three prices
   reproduces and that lies between the minimum and the preferred multiple.
   */
  lemma SetupGeometry(c: StrategyConfig, x: Context)
    requires ValidConfig(c) && Evaluate(c, x).Setup?
    ensures x.direction != NoSetup && x.atr.Some? && x.atr.value > 0.0
    ensures var s := Evaluate(c, x);
      && (x.direction == Long ==> s.stop < s.zoneLow < s.trigger <= s.entry < s.target)
      && (x.direction == Short ==> s.target < s.entry <= s.trigger < s.zoneHigh < s.stop)
      && c.minimumStopAtr <= Abs(s.entry - s.stop) / x.atr.value <= c.maximumStopAtr
      && s.riskReward == Sizing.StructuralRr(s.entry, s.stop, s.target)
      && c.minimumRiskReward <= s.riskReward <= c.preferredRiskReward
      && (s.status == Triggered <==> s.entry != s.trigger)
  {
    hide Level, Consolidation, Confirmed, Entry, Stop, Buffer, Consolidated, Target, RiskReward, Sizing.StructuralRr;
    EntryIsBeyondLevel(c, x);
    StopIsBehindLevel(c, x);
    BufferRatio(c, x);
    TargetGeometry(c, x.direction, Entry(c, x), Stop(c, x), x.levels);
  }

  /**
   The geometry carries over to the risk engine: given the same prices and ATR
   and limits at least as loose, its stop, target, risk/reward and stop-distance
   checks all pass.
   */
  lemma SetupPassesRiskGeometry(c: StrategyConfig, x: Context, limits: Sizing.RiskConfig, risk: Sizing.Context)
    requires ValidConfig(c) && Evaluate(c, x).Setup?
    requires Sizing.ValidConfig(limits) && limits.minimumRiskReward <= c.minimumRiskReward
    requires limits.minStopAtr <= c.minimumStopAtr && c.maximumStopAtr <= limits.maxStopAtr
    requires var s := Evaluate(c, x);
      && risk.long == (x.direction == Long)
      && risk.entry == s.entry && risk.stop == s.stop && risk.target == s.target && Some(risk.atr) == x.atr
    ensures var k := Sizing.Evaluate(limits, risk); k.stopValidity && k.targetValidity && k.riskReward && k.stopAtr
  {
    SetupGeometry(c, x);
    hide Evaluate, Sizing.SizeOf, Sizing.StructuralRr, Sizing.EstimatedLeverage, Sizing.SafeBalance;
  }

  /**
   Without confirmation the entry is the level itself, exactly one stop buffer
   away from its stop. So Watch and Armed setups exist only when the buffer lies
   within the allowed stop distances, whatever the candles say.
   */
  lemma UnconfirmedNeedsTheBuffer(c: StrategyConfig, x: Context)
    requires ValidConfig(c) && Enough(c, x) && Consolidated(c, x) && !Confirmed(c, x)
    ensures Evaluate(c, x).Setup? <==>
      && c.minimumStopAtr <= c.stopAtrBuffer <= c.maximumStopAtr
      && RiskReward(c, x.direction, Level(c, x), Stop(c, x), x.levels) >= c.minimumRiskReward
      && x.quality >= c.minimumQuality
  {
    hide Level, Consolidation, Confirmed, Consolidated, Target, RiskReward, Buffer;
    BufferRatio(c, x);
  }
}
