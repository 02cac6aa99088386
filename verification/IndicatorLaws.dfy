/** What fixes each indicator's values: its start, its step, and the weights in it. */
module IndicatorLaws {
  import opened Common
  import opened Candles
  import opened MovingAverages
  import opened Oscillators
  import Volumes = VolumeIndicators

  lemma MeanExactly(xs: seq<real>)
    requires xs != []
    ensures Mean(xs) * |xs| as real == SumBy(Self, xs)
  {
  }

  /** The exponential average starts as the mean and then moves by 2 / (period + 1) of the gap to each value. */
  lemma EmaRecurrence(xs: seq<real>, period: int, i: int)
    requires 0 < period && period - 1 <= i < |xs|
    ensures i == period - 1 ==> EmaAt(xs, period, i) * period as real == SumBy(Self, xs[..period])
    ensures i >= period ==>
      (EmaAt(xs, period, i) - EmaAt(xs, period, i - 1)) * (period as real + 1.0)
        == 2.0 * (xs[i] - EmaAt(xs, period, i - 1))
  {
    hide SumBy;
    if i == period - 1 {
      MeanExactly(xs[..period]);
    } else {
      var n, a, gap := period as real + 1.0, 2.0 / (period as real + 1.0), xs[i] - EmaAt(xs, period, i - 1);
      assert a * n == 2.0;
      assert a * gap * n == a * n * gap;
    }
  }

  /** Wilder's average starts as the mean and then keeps period - 1 parts of itself for one of each value. */
  lemma WilderRecurrence(xs: seq<real>, period: int, i: int)
    requires 1 < period && period - 1 <= i < |xs|
    ensures i == period - 1 ==> Wilder(xs, period, i) * period as real == SumBy(Self, xs[..period])
    ensures i >= period ==>
      (Wilder(xs, period, i) - Wilder(xs, period, i - 1)) * period as real == xs[i] - Wilder(xs, period, i - 1)
  {
    hide SumBy;
    if i == period - 1 {
      MeanExactly(xs[..period]);
    } else {
      var w, n := Wilder(xs, period, i - 1), period as real;
      SmoothTimes(period, w, xs[i]);
      assert (Smooth(period, w, xs[i]) - w) * n == Smooth(period, w, xs[i]) * n - w * n;
      assert w * (n - 1.0) == w * n - w;
    }
  }

  /** RSI is the share of gains in the smoothed moves, in percent, and 50 when nothing moved. */
  lemma RsiExactly(xs: seq<real>, period: int, i: int)
    requires 1 < period <= i < |xs|
    ensures var gains, losses := Wilder(Gains(Changes(xs)), period, i - 1), Wilder(Losses(Changes(xs)), period, i - 1);
      && RsiAt(xs, period, i) * (gains + losses) == 100.0 * gains
      && (gains == 0.0 && losses == 0.0 ==> RsiAt(xs, period, i) == 50.0)
  {
    hide Wilder, Gains, Losses, Changes;
    AveragesNonNegative(xs, period, i);
    var g, l := AverageGain(xs, period, i), AverageLoss(xs, period, i);
    if l > 0.0 {
      RsiIsShare(g, l);
    }
  }

  /** The moves: what a price gained on the one before, and what it lost. */
  lemma MovesExactly(xs: seq<real>, k: nat)
    requires k + 1 < |xs|
    ensures var g, l := Gains(Changes(xs))[k], Losses(Changes(xs))[k];
      g - l == xs[k + 1] - xs[k] && g >= 0.0 && l >= 0.0 && (g == 0.0 || l == 0.0)
  {
  }

  /** A true range is the largest of the three distances: the candle's own, and from the previous close to each end. */
  lemma TrueRangeExactly(candles: seq<Candle>, i: nat)
    requires i < |candles| && candles[i].low <= candles[i].high
    ensures var r, c := TrueRanges(candles)[i], candles[i];
      && (i == 0 ==> r == c.high - c.low)
      && (i > 0 ==>
            var p := candles[i - 1].close;
            && r >= c.high - c.low && r >= c.high - p && r >= p - c.low
            && r in {c.high - c.low, c.high - p, p - c.low})
  {
    if i > 0 {
      TrueRangeIsSpan(candles, i);
    }
  }

  /** MACD: the faster average less the slower, its own average as signal, and what separates them. */
  lemma MacdExactly(xs: seq<real>, fast: int, slow: int, signal: int, i: int)
    requires Periods(fast, slow, signal) && slow + signal - 2 <= i < |xs|
    ensures var m := MacdOf(xs, fast, slow, signal);
      && |m.line| == |m.signal| == |m.histogram| == |xs|
      && m.line[i] == Some(EmaAt(xs, fast, i) - EmaAt(xs, slow, i))
      && m.signal[i].Some? && m.histogram[i] == Some(m.line[i].value - m.signal[i].value)
  {
    hide MacdOf, EmaAt;
    MacdAt(xs, fast, slow, signal, i);
  }

  /** The relative volume times the mean of its window is the volume. */
  lemma RelativeVolumeExactly(xs: seq<real>, period: int, i: nat)
    requires period > 0 && i < |xs| && Volumes.RelativeVolume(xs, period, i).Some?
    ensures period - 1 <= i
    ensures Volumes.RelativeVolume(xs, period, i).value * Mean(xs[i + 1 - period..i + 1]) == xs[i]
  {
  }

  /** A candle belongs to the session at i exactly when no day begins after it, up to i. */
  lemma {:induction false} SessionExactly(candles: seq<Candle>, i: nat, k: nat)
    requires k <= i < |candles|
    ensures Volumes.SessionStart(candles, i) <= k
      <==> forall m :: k <= m <= i ==> candles[m].timestamp / 86400 == candles[i].timestamp / 86400
  {
    if k < i {
      if candles[i - 1].timestamp / 86400 == candles[i].timestamp / 86400 {
        SessionExactly(candles, i - 1, k);
      }
    }
  }

  /** Three times what the candle's volume costs at its typical price. */
  function ThreeValues(c: Candle): real { (c.high + c.low + c.close) * c.volume }

  /** The VWAP times three and the volume is the volume-weighted sum of high, low and close. */
  lemma VwapExactly(rows: seq<Candle>)
    requires Volumes.Weighted(rows).Some?
    ensures 3.0 * Volumes.Weighted(rows).value * SumBy((c: Candle) => c.volume, rows) == SumBy(ThreeValues, rows)
  {
    ValuesAgree(rows);
    var volume, value := SumBy(Volume, rows), SumBy(Volumes.Value, rows);
    var q := value / volume;
    assert q * volume == value;
    assert 3.0 * q * volume == 3.0 * value;
  }

  lemma {:induction false} ValuesAgree(rows: seq<Candle>)
    ensures SumBy(ThreeValues, rows) == 3.0 * SumBy(Volumes.Value, rows)
    ensures SumBy((c: Candle) => c.volume, rows) == SumBy(Volume, rows)
  {
    if rows != [] {
      ValuesAgree(rows[1..]);
      ValueIs(rows[0]);
    }
  }

  lemma ValueIs(c: Candle)
    ensures ThreeValues(c) == 3.0 * Volumes.Value(c)
  {
  }
}
