/** Rolling volume averages and the session VWAP. */
module VolumeIndicators {
  import opened Common
  import opened Candles
  import opened MovingAverages

  // ---- Rolling average

  predicate NonNegative(xs: seq<real>) { forall i :: 0 <= i < |xs| ==> xs[i] >= 0.0 }

  /** The window of the last `period` values, ending at index i. */
  function Window(xs: seq<real>, period: int, i: int): (w: seq<real>)
    requires 0 < period && period - 1 <= i < |xs|
    ensures |w| == period
  {
    xs[i + 1 - period..i + 1]
  }

  function Rolling(xs: seq<real>, period: int): (s: Series)
    requires period > 0
    ensures |s| == |xs|
    ensures forall i :: 0 <= i < |xs| ==> s[i] == if i + 1 < period then None else Some(Mean(Window(xs, period, i)))
  {
    seq(|xs|, i requires 0 <= i < |xs| => if i + 1 < period then None else Some(Mean(Window(xs, period, i))))
  }

  /** The index where the running window starts once k values have been added. */
  function WindowStart(period: int, k: int): int { if k <= period then 0 else k - period }

  /** Adding the newest value and dropping the one that leaves keeps the sum of the window. */
  lemma Slide(xs: seq<real>, period: int, k: nat)
    requires 0 < period && k < |xs|
    ensures SumBy(Self, xs[WindowStart(period, k + 1)..k + 1])
         == SumBy(Self, xs[WindowStart(period, k)..k]) + xs[k] - (if k >= period then xs[k - period] else 0.0)
  {
    var a := WindowStart(period, k);
    assert xs[a..k + 1] == xs[a..k] + [xs[k]];
    SumBySnoc(Self, xs[a..k], xs[k]);
    if k >= period {
      assert xs[a..k + 1][1..] == xs[a + 1..k + 1];
    }
  }

  /** The running sum is the sum of its window at every index. */
  method RollingAverage(values: seq<real>, period: int) returns (r: Option<Series>)
    ensures r == if period > 0 && NonNegative(values) then Some(Rolling(values, period)) else None
  {
    if period <= 0 || !NonNegative(values) {
      return None;
    }
    var output := Nones(|values|);
    var running := 0.0;
    var index := 0;
    while index < |values|
      invariant 0 <= index <= |values| == |output|
      invariant running == SumBy(Self, values[WindowStart(period, index)..index])
      invariant forall i :: 0 <= i < index ==> output[i] == Rolling(values, period)[i]
      invariant forall i :: index <= i < |values| ==> output[i] == None
    {
      Slide(values, period, index);
      running := running + values[index];
      if index >= period {
        running := running - values[index - period];
      }
      if index + 1 >= period {
        output := output[index := Some(running / period as real)];
      }
      index := index + 1;
    }
    assert output == Rolling(values, period);
    r := Some(output);
  }

  function RelativeVolume(xs: seq<real>, period: int, i: nat): Option<real>
    requires period > 0 && i < |xs|
  {
    var average := Rolling(xs, period)[i];
    if average.None? || average.value == 0.0 then None else Some(xs[i] / average.value)
  }

  lemma {:induction false} SumAtLeast(xs: seq<real>, i: nat)
    requires NonNegative(xs) && i < |xs|
    ensures SumBy(Self, xs) >= xs[i]
  {
    SumNonNegative(xs[1..]);
    if i > 0 {
      assert NonNegative(xs[1..]);
      SumAtLeast(xs[1..], i - 1);
    }
  }

  lemma {:induction false} SumNonNegative(xs: seq<real>)
    requires NonNegative(xs)
    ensures SumBy(Self, xs) >= 0.0
    ensures SumBy(Self, xs) == 0.0 <==> forall k :: 0 <= k < |xs| ==> xs[k] == 0.0
  {
    if xs != [] {
      assert NonNegative(xs[1..]);
      SumNonNegative(xs[1..]);
      assert forall k :: 1 <= k < |xs| ==> xs[k] == xs[1..][k - 1];
    }
  }

  /**
   Relative volume is missing exactly during warm-up and on a window without any
   volume. It never exceeds the period, so a larger threshold can never be met.
   */
  lemma RelativeVolumeRange(xs: seq<real>, period: int, i: nat)
    requires period > 0 && NonNegative(xs) && i < |xs|
    ensures RelativeVolume(xs, period, i).None? <==>
      (i + 1 < period || forall k :: i + 1 - period <= k <= i ==> xs[k] == 0.0)
    ensures RelativeVolume(xs, period, i).Some? ==> 0.0 <= RelativeVolume(xs, period, i).value <= period as real
  {
    hide SumBy;
    if i + 1 >= period {
      var w, n := Window(xs, period, i), period as real;
      assert NonNegative(w);
      SumNonNegative(w);
      SumAtLeast(w, period - 1);
      assert w[period - 1] == xs[i];
      assert forall k :: i + 1 - period <= k <= i ==> xs[k] == w[k - (i + 1 - period)];
      var sum, mean := SumBy(Self, w), Mean(w);
      assert mean * n == sum;
      MeanSign(mean, n, sum);
      if sum > 0.0 {
        Share(xs[i], mean, n, sum);
      }
    }
  }

  lemma MeanSign(mean: real, n: real, sum: real)
    requires n > 0.0 && mean * n == sum && sum >= 0.0
    ensures mean >= 0.0 && (mean == 0.0 <==> sum == 0.0)
  {
    assert mean < 0.0 ==> mean * n < 0.0;
    assert mean > 0.0 ==> mean * n > 0.0;
  }

  lemma Share(x: real, mean: real, n: real, sum: real)
    requires 0.0 <= x <= sum && mean > 0.0 && n > 0.0 && mean * n == sum
    ensures 0.0 <= x / mean <= n
  {
    var q := x / mean;
    assert q * mean == x;
    assert q < 0.0 ==> q * mean < 0.0;
    assert (n - q) * mean == sum - x;
    assert n - q < 0.0 ==> (n - q) * mean < 0.0;
  }

  // ---- Session VWAP

  function DayOf(c: Candle): int { c.timestamp / DAY }

  function TypicalPrice(c: Candle): real { (c.high + c.low + c.close) / 3.0 }

  function Value(c: Candle): real { TypicalPrice(c) * c.volume }

  /** The first index of the unbroken stretch of one day that ends at i. */
  function SessionStart(candles: seq<Candle>, i: nat): (start: nat)
    requires i < |candles|
    ensures start <= i
  {
    if i == 0 || DayOf(candles[i - 1]) != DayOf(candles[i]) then i else SessionStart(candles, i - 1)
  }

  function Session(candles: seq<Candle>, i: nat): seq<Candle>
    requires i < |candles|
  {
    candles[SessionStart(candles, i)..i + 1]
  }

  function Weighted(rows: seq<Candle>): Option<real> {
    var volume := SumBy(Volume, rows);
    if volume > 0.0 then Some(SumBy(Value, rows) / volume) else None
  }

  method UtcSessionVwap(candles: seq<Candle>) returns (output: Series)
    ensures |output| == |candles|
    ensures forall i :: 0 <= i < |candles| ==> output[i] == Weighted(Session(candles, i))
  {
    hide Session, SumBy, TypicalPrice;
    output := [];
    var session: Option<int> := None;
    var cumulativeVolume, cumulativeValue := 0.0, 0.0;
    var k := 0;
    while k < |candles|
      invariant 0 <= k <= |candles| && |output| == k
      invariant session == if k == 0 then None else Some(DayOf(candles[k - 1]))
      invariant k > 0 ==> cumulativeVolume == SumBy(Volume, Session(candles, k - 1))
      invariant k > 0 ==> cumulativeValue == SumBy(Value, Session(candles, k - 1))
      invariant forall i :: 0 <= i < k ==> output[i] == Weighted(Session(candles, i))
    {
      var candle := candles[k];
      if Some(DayOf(candle)) != session {
        session := Some(DayOf(candle));
        cumulativeVolume, cumulativeValue := 0.0, 0.0;
      }
      SessionGrows(candles, k);
      cumulativeVolume := cumulativeVolume + candle.volume;
      cumulativeValue := cumulativeValue + TypicalPrice(candle) * candle.volume;
      output := output + [if cumulativeVolume > 0.0 then Some(cumulativeValue / cumulativeVolume) else None];
      k := k + 1;
    }
  }

  lemma SessionGrows(candles: seq<Candle>, i: nat)
    requires i < |candles|
    ensures var c, s := candles[i], Session(candles, i);
      if i == 0 || DayOf(candles[i - 1]) != DayOf(c)
      then s == [c] && SumBy(Volume, s) == c.volume && SumBy(Value, s) == Value(c)
      else
        && s == Session(candles, i - 1) + [c]
        && SumBy(Volume, s) == SumBy(Volume, Session(candles, i - 1)) + c.volume
        && SumBy(Value, s) == SumBy(Value, Session(candles, i - 1)) + Value(c)
  {
    var c := candles[i];
    if i == 0 || DayOf(candles[i - 1]) != DayOf(c) {
      assert Session(candles, i) == [c] == [] + [c];
      SumBySnoc(Volume, [], c);
      SumBySnoc(Value, [], c);
    } else {
      assert Session(candles, i) == Session(candles, i - 1) + [c];
      SumBySnoc(Volume, Session(candles, i - 1), c);
      SumBySnoc(Value, Session(candles, i - 1), c);
    }
  }

  /** The candles of one day, in order. */
  function OfDay(candles: seq<Candle>, day: int): seq<Candle>
    decreases |candles|
  {
    if candles == [] then []
    else
      var last := candles[|candles| - 1];
      OfDay(candles[..|candles| - 1], day) + if DayOf(last) == day then [last] else []
  }

  lemma {:induction false} NoneOfDay(candles: seq<Candle>, day: int)
    requires forall i :: 0 <= i < |candles| ==> DayOf(candles[i]) != day
    ensures OfDay(candles, day) == []
    decreases |candles|
  {
    if candles != [] {
      NoneOfDay(candles[..|candles| - 1], day);
    }
  }

  /** On candles in time order the session is every candle of that day so far, so no other day matters. */
  lemma {:induction false} SessionIsDay(candles: seq<Candle>, i: nat)
    requires i < |candles| && Sorted(candles)
    ensures Session(candles, i) == OfDay(candles[..i + 1], DayOf(candles[i]))
    decreases i
  {
    SessionGrows(candles, i);
    var c, day := candles[i], DayOf(candles[i]);
    assert candles[..i + 1][..i] == candles[..i];
    if i == 0 {
      assert OfDay(candles[..0], day) == [];
    } else if DayOf(candles[i - 1]) == day {
      SessionIsDay(candles, i - 1);
    } else {
      forall k | 0 <= k < i
        ensures DayOf(candles[..i][k]) != day
      {
        EarlierDay(candles[k].timestamp, candles[i - 1].timestamp, c.timestamp);
      }
      NoneOfDay(candles[..i], day);
    }
  }

  lemma EarlierDay(x: int, y: int, z: int)
    requires x <= y <= z && y / DAY != z / DAY
    ensures x / DAY != z / DAY
  {
  }

  /** Two histories that agree on one day's candles give that day the same VWAP. */
  lemma VwapIsLocal(xs: seq<Candle>, ys: seq<Candle>, i: nat, j: nat)
    requires i < |xs| && j < |ys| && Sorted(xs) && Sorted(ys) && DayOf(xs[i]) == DayOf(ys[j])
    requires OfDay(xs[..i + 1], DayOf(xs[i])) == OfDay(ys[..j + 1], DayOf(xs[i]))
    ensures Weighted(Session(xs, i)) == Weighted(Session(ys, j))
  {
    SessionIsDay(xs, i);
    SessionIsDay(ys, j);
  }

  function Scaled(x: real, y: real): real { x * y }

  lemma {:induction false} ValueWithin(rows: seq<Candle>, lo: real, hi: real)
    requires forall c :: c in rows ==> WellFormed(c) && lo <= c.low && c.high <= hi
    ensures Scaled(lo, SumBy(Volume, rows)) <= SumBy(Value, rows) <= Scaled(hi, SumBy(Volume, rows))
    ensures SumBy(Volume, rows) >= 0.0
  {
    if rows != [] {
      var c, rest := rows[0], rows[1..];
      assert c in rows && forall r :: r in rest ==> r in rows;
      ValueWithin(rest, lo, hi);
      OneValue(c, lo, hi);
      ScaledSum(lo, c.volume, SumBy(Volume, rest));
      ScaledSum(hi, c.volume, SumBy(Volume, rest));
    }
  }

  lemma OneValue(c: Candle, lo: real, hi: real)
    requires WellFormed(c) && lo <= c.low && c.high <= hi
    ensures Scaled(lo, c.volume) <= Value(c) <= Scaled(hi, c.volume)
  {
    var p := TypicalPrice(c);
    ProductNonNegative(p - lo, c.volume);
    ProductNonNegative(hi - p, c.volume);
  }

  lemma ScaledSum(x: real, y: real, z: real)
    ensures Scaled(x, y + z) == Scaled(x, y) + Scaled(x, z)
  {
  }

  /**
   A VWAP lies between the lowest low and the highest high of its session so far; it is missing
   exactly when no volume traded.
   */
  lemma VwapWithinSession(candles: seq<Candle>, i: nat, lo: real, hi: real)
    requires i < |candles|
    requires forall c :: c in Session(candles, i) ==> WellFormed(c) && lo <= c.low && c.high <= hi
    ensures var v := Weighted(Session(candles, i));
      && (v.Some? ==> lo <= v.value <= hi)
      && (v.None? <==> SumBy(Volume, Session(candles, i)) == 0.0)
  {
    hide Session;
    var rows := Session(candles, i);
    ValueWithin(rows, lo, hi);
    var volume, value := SumBy(Volume, rows), SumBy(Value, rows);
    if volume > 0.0 {
      QuotientWithin(lo, hi, value, volume);
    }
  }

  lemma QuotientWithin(lo: real, hi: real, value: real, volume: real)
    requires volume > 0.0 && Scaled(lo, volume) <= value <= Scaled(hi, volume)
    ensures lo <= value / volume <= hi
  {
    var q := value / volume;
    assert q * volume == value;
    assert (q - lo) * volume >= 0.0 && (hi - q) * volume >= 0.0;
    assert q < lo ==> (q - lo) * volume < 0.0;
    assert q > hi ==> (hi - q) * volume < 0.0;
  }
}
