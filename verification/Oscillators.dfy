/** Wilder smoothing, and RSI and ATR built on it. */
module Oscillators {
  import opened Common
  import opened MovingAverages
  import opened Candles

  // ---- Wilder smoothing

  function Smooth(period: int, previous: real, x: real): real
    requires period > 1
  {
    (previous * (period - 1) as real + x) / period as real
  }

  function Wilder(xs: seq<real>, period: int, i: int): real
    requires 1 < period && period - 1 <= i < |xs|
    decreases i
  {
    if i == period - 1 then Mean(xs[..period]) else Smooth(period, Wilder(xs, period, i - 1), xs[i])
  }

  lemma SmoothTimes(period: int, previous: real, x: real)
    requires period > 1
    ensures var s, n := Smooth(period, previous, x), period as real;
      n > 1.0 && s * n == previous * (n - 1.0) + x
  {
    assert (period - 1) as real == period as real - 1.0;
  }

  lemma SmoothWithin(period: int, previous: real, x: real, lo: real, hi: real)
    requires period > 1 && lo <= previous <= hi && lo <= x <= hi
    ensures lo <= Smooth(period, previous, x) <= hi
  {
    var s, n := Smooth(period, previous, x), period as real;
    SmoothTimes(period, previous, x);
    assert (s - lo) * n == (previous - lo) * (n - 1.0) + (x - lo);
    assert (hi - s) * n == (hi - previous) * (n - 1.0) + (hi - x);
    ProductNonNegative(previous - lo, n - 1.0);
    ProductNonNegative(hi - previous, n - 1.0);
    NonNegativeFactor(s - lo, n);
    NonNegativeFactor(hi - s, n);
  }

  /** Smoothed values stay within the extremes of the inputs so far. */
  lemma {:induction false} WilderWithin(xs: seq<real>, period: int, i: int, lo: real, hi: real)
    requires 1 < period && period - 1 <= i < |xs| && Within(lo, hi, xs[..i + 1])
    ensures lo <= Wilder(xs, period, i) <= hi
    decreases i
  {
    hide Mean, Smooth;
    if i == period - 1 {
      MeanWithin(lo, hi, xs[..period]);
    } else {
      assert forall k :: 0 <= k < i ==> xs[..i][k] == xs[..i + 1][k];
      WilderWithin(xs, period, i - 1, lo, hi);
      assert xs[i] == xs[..i + 1][i];
      SmoothWithin(period, Wilder(xs, period, i - 1), xs[i], lo, hi);
    }
  }

  lemma SmoothScale(a: real, period: int, previous: real, x: real)
    requires period > 1
    ensures Smooth(period, Line(a, 0.0, previous), Line(a, 0.0, x)) == Line(a, 0.0, Smooth(period, previous, x))
  {
    var s, t, n := Smooth(period, previous, x), Smooth(period, Line(a, 0.0, previous), Line(a, 0.0, x)), period as real;
    SmoothTimes(period, previous, x);
    SmoothTimes(period, Line(a, 0.0, previous), Line(a, 0.0, x));
    assert (a * previous) * (n - 1.0) == a * (previous * (n - 1.0));
    assert t * n == a * (s * n);
    assert (t - a * s) * n == 0.0;
    ZeroFactor(t - a * s, n);
  }

  lemma {:induction false} WilderScale(a: real, xs: seq<real>, period: int, i: int)
    requires 1 < period && period - 1 <= i < |xs|
    ensures Wilder(Affine(a, 0.0, xs), period, i) == Line(a, 0.0, Wilder(xs, period, i))
    decreases i
  {
    hide Mean, Smooth, Line;
    if i == period - 1 {
      assert Affine(a, 0.0, xs)[..period] == Affine(a, 0.0, xs[..period]);
      MeanAffine(a, 0.0, xs[..period]);
    } else {
      WilderScale(a, xs, period, i - 1);
      SmoothScale(a, period, Wilder(xs, period, i - 1), xs[i]);
    }
  }

  // ---- RSI

  function Changes(xs: seq<real>): (c: seq<real>)
    ensures |c| == if xs == [] then 0 else |xs| - 1
    ensures forall i :: 0 <= i < |c| ==> c[i] == xs[i + 1] - xs[i]
  {
    if xs == [] then [] else seq(|xs| - 1, i requires 0 <= i < |xs| - 1 => xs[i + 1] - xs[i])
  }

  function Gains(c: seq<real>): (g: seq<real>)
    ensures |g| == |c| && forall i :: 0 <= i < |c| ==> g[i] == Max(c[i], 0.0)
  {
    seq(|c|, i requires 0 <= i < |c| => Max(c[i], 0.0))
  }

  function Losses(c: seq<real>): (g: seq<real>)
    ensures |g| == |c| && forall i :: 0 <= i < |c| ==> g[i] == Max(-c[i], 0.0)
  {
    seq(|c|, i requires 0 <= i < |c| => Max(-c[i], 0.0))
  }

  function RsiValue(gain: real, loss: real): real
    requires gain >= 0.0 && loss >= 0.0
  {
    if gain == 0.0 && loss == 0.0 then 50.0
    else if loss == 0.0 then 100.0
    else
      RatioSign(gain, loss);
      100.0 - 100.0 / (1.0 + gain / loss)
  }

  lemma RatioSign(gain: real, loss: real)
    requires gain >= 0.0 && loss > 0.0
    ensures gain / loss >= 0.0
  {
    var q := gain / loss;
    assert q * loss == gain;
    NonNegativeFactor(q, loss);
  }

  function AverageGain(xs: seq<real>, period: int, i: int): real
    requires 1 < period <= i < |xs|
  {
    Wilder(Gains(Changes(xs)), period, i - 1)
  }

  function AverageLoss(xs: seq<real>, period: int, i: int): real
    requires 1 < period <= i < |xs|
  {
    Wilder(Losses(Changes(xs)), period, i - 1)
  }

  ghost predicate AllZero(xs: seq<real>) { forall i :: 0 <= i < |xs| ==> xs[i] == 0.0 }

  /** A largest element bounds a list from above. */
  function Top(xs: seq<real>): (top: real)
    ensures top >= 0.0 && forall i :: 0 <= i < |xs| ==> xs[i] <= top
  {
    if xs == [] then 0.0
    else
      assert forall i :: 0 < i < |xs| ==> xs[i] == xs[1..][i - 1];
      Max(xs[0], Top(xs[1..]))
  }

  lemma AveragesNonNegative(xs: seq<real>, period: int, i: int)
    requires 1 < period <= i < |xs|
    ensures AverageGain(xs, period, i) >= 0.0 && AverageLoss(xs, period, i) >= 0.0
  {
    hide Wilder;
    var g, l := Gains(Changes(xs)), Losses(Changes(xs));
    WilderWithin(g, period, i - 1, 0.0, Top(g));
    WilderWithin(l, period, i - 1, 0.0, Top(l));
  }

  function RsiAt(xs: seq<real>, period: int, i: int): real
    requires 1 < period <= i < |xs|
  {
    AveragesNonNegative(xs, period, i);
    RsiValue(AverageGain(xs, period, i), AverageLoss(xs, period, i))
  }

  function Rsi(xs: seq<real>, period: int): (s: Series)
    requires period > 1
    ensures |s| == |xs|
    ensures forall i :: 0 <= i < |xs| ==> s[i] == if i < period then None else Some(RsiAt(xs, period, i))
  {
    seq(|xs|, i requires 0 <= i < |xs| => if i < period then None else Some(RsiAt(xs, period, i)))
  }

  lemma AverageStart(xs: seq<real>, period: int)
    requires 1 < period < |xs|
    ensures AverageGain(xs, period, period) == Mean(Gains(Changes(xs))[..period])
    ensures AverageLoss(xs, period, period) == Mean(Losses(Changes(xs))[..period])
  {
  }

  lemma AverageStep(xs: seq<real>, period: int, i: int)
    requires 1 < period < i < |xs|
    ensures AverageGain(xs, period, i) == Smooth(period, AverageGain(xs, period, i - 1), Max(Changes(xs)[i - 1], 0.0))
    ensures AverageLoss(xs, period, i) == Smooth(period, AverageLoss(xs, period, i - 1), Max(-Changes(xs)[i - 1], 0.0))
  {
    hide Mean, Smooth, Gains, Losses, Changes;
  }

  method ComputeRsi(values: seq<real>, period: int) returns (r: Option<Series>)
    ensures r == if period > 1 then Some(Rsi(values, period)) else None
  {
    hide Mean, Smooth, RsiValue, AverageGain, AverageLoss, Max;
    if period <= 1 {
      return None;
    }
    var output := Nones(|values|);
    if |values| <= period {
      assert output == Rsi(values, period);
      return Some(output);
    }
    var changes := Changes(values);
    var averageGain, averageLoss := Mean(Gains(changes)[..period]), Mean(Losses(changes)[..period]);
    AverageStart(values, period);
    AveragesNonNegative(values, period, period);
    output := output[period := Some(RsiValue(averageGain, averageLoss))];
    var index := period + 1;
    while index < |values|
      invariant period < index <= |values| == |output|
      invariant averageGain == AverageGain(values, period, index - 1)
        && averageLoss == AverageLoss(values, period, index - 1)
      invariant forall i :: 0 <= i < index ==> output[i] == Rsi(values, period)[i]
      invariant forall i :: index <= i < |values| ==> output[i] == None
    {
      var change := changes[index - 1];
      averageGain := Smooth(period, averageGain, Max(change, 0.0));
      averageLoss := Smooth(period, averageLoss, Max(-change, 0.0));
      AverageStep(values, period, index);
      AveragesNonNegative(values, period, index);
      output := output[index := Some(RsiValue(averageGain, averageLoss))];
      index := index + 1;
    }
    assert output == Rsi(values, period);
    r := Some(output);
  }

  /** The ratio form is the share of gains in all movement. */
  lemma RsiIsShare(gain: real, loss: real)
    requires gain >= 0.0 && loss > 0.0
    ensures RsiValue(gain, loss) * (gain + loss) == 100.0 * gain
  {
    RatioSign(gain, loss);
    var q := gain / loss;
    var d := 1.0 + q;
    var e := 100.0 / d;
    assert q * loss == gain && e * d == 100.0;
    assert d * loss == gain + loss;
    assert e * (d * loss) == (e * d) * loss;
  }

  /** The value of RSI in every case, in terms of the averages. */
  lemma RsiValueRange(gain: real, loss: real)
    requires gain >= 0.0 && loss >= 0.0
    ensures 0.0 <= RsiValue(gain, loss) <= 100.0
    ensures RsiValue(gain, loss) + RsiValue(loss, gain) == 100.0
    ensures RsiValue(gain, loss) == 100.0 <==> loss == 0.0 && gain != 0.0
  {
    hide RsiValue;
    if gain > 0.0 && loss > 0.0 {
      var r, s, t := RsiValue(gain, loss), RsiValue(loss, gain), gain + loss;
      RsiIsShare(gain, loss);
      RsiIsShare(loss, gain);
      NonNegativeFactor(r, t);
      assert (100.0 - r) * t == 100.0 * loss;
      assert r == 100.0 ==> (100.0 - r) * t == 0.0;
      NonNegativeFactor(100.0 - r, t);
      assert (r + s - 100.0) * t == 0.0;
      ZeroFactor(r + s - 100.0, t);
    } else {
      RsiAtZero(gain, loss);
      RsiAtZero(loss, gain);
    }
  }

  lemma RsiAtZero(gain: real, loss: real)
    requires gain >= 0.0 && loss >= 0.0 && (gain == 0.0 || loss == 0.0)
    ensures RsiValue(gain, loss) == if gain == 0.0 && loss == 0.0 then 50.0 else if loss == 0.0 then 100.0 else 0.0
  {
    if loss > 0.0 {
      var q := gain / loss;
      assert q * loss == 0.0;
      ZeroFactor(q, loss);
    }
  }

  /** RSI lies between 0 and 100. */
  lemma RsiInRange(xs: seq<real>, period: int, i: int)
    requires 1 < period <= i < |xs|
    ensures 0.0 <= RsiAt(xs, period, i) <= 100.0
  {
    hide RsiValue;
    AveragesNonNegative(xs, period, i);
    RsiValueRange(AverageGain(xs, period, i), AverageLoss(xs, period, i));
  }

  lemma MovesScaleUp(a: real, b: real, xs: seq<real>)
    requires a >= 0.0
    ensures Gains(Changes(Affine(a, b, xs))) == Affine(a, 0.0, Gains(Changes(xs)))
    ensures Losses(Changes(Affine(a, b, xs))) == Affine(a, 0.0, Losses(Changes(xs)))
  {
    hide Max, Line, Gains, Losses, Changes, Affine;
    forall i | 0 <= i < |Changes(xs)|
      ensures Gains(Changes(Affine(a, b, xs)))[i] == Line(a, 0.0, Gains(Changes(xs))[i])
      ensures Losses(Changes(Affine(a, b, xs)))[i] == Line(a, 0.0, Losses(Changes(xs))[i])
    {
      MoveScales(a, b, xs[i], xs[i + 1]);
    }
  }

  lemma MovesScaleDown(a: real, b: real, xs: seq<real>)
    requires a <= 0.0
    ensures Gains(Changes(Affine(a, b, xs))) == Affine(-a, 0.0, Losses(Changes(xs)))
    ensures Losses(Changes(Affine(a, b, xs))) == Affine(-a, 0.0, Gains(Changes(xs)))
  {
    hide Max, Line, Gains, Losses, Changes, Affine;
    forall i | 0 <= i < |Changes(xs)|
      ensures Gains(Changes(Affine(a, b, xs)))[i] == Line(-a, 0.0, Losses(Changes(xs))[i])
      ensures Losses(Changes(Affine(a, b, xs)))[i] == Line(-a, 0.0, Gains(Changes(xs))[i])
    {
      MoveScales(a, b, xs[i], xs[i + 1]);
    }
  }

  lemma MoveScales(a: real, b: real, x: real, y: real)
    ensures var c, d := y - x, Line(a, b, y) - Line(a, b, x);
      && (a >= 0.0 ==> Max(d, 0.0) == Line(a, 0.0, Max(c, 0.0)) && Max(-d, 0.0) == Line(a, 0.0, Max(-c, 0.0)))
      && (a <= 0.0 ==> Max(d, 0.0) == Line(-a, 0.0, Max(-c, 0.0)) && Max(-d, 0.0) == Line(-a, 0.0, Max(c, 0.0)))
  {
    var c := y - x;
    assert Line(a, b, y) - Line(a, b, x) == a * c;
    if a >= 0.0 {
      if c >= 0.0 { ProductNonNegative(a, c); } else { ProductNonNegative(a, -c); }
    } else {
      if c >= 0.0 { ProductNonNegative(-a, c); } else { ProductNonNegative(-a, -c); }
    }
  }

  lemma RsiValueScale(a: real, gain: real, loss: real)
    requires a > 0.0 && gain >= 0.0 && loss >= 0.0
    ensures Line(a, 0.0, gain) >= 0.0 && Line(a, 0.0, loss) >= 0.0
    ensures RsiValue(Line(a, 0.0, gain), Line(a, 0.0, loss)) == RsiValue(gain, loss)
  {
    hide RsiValue;
    ProductNonNegative(a, gain);
    ProductNonNegative(a, loss);
    if gain == 0.0 || loss == 0.0 {
      assert gain > 0.0 ==> a * gain > 0.0;
      assert loss > 0.0 ==> a * loss > 0.0;
      RsiAtZero(gain, loss);
      RsiAtZero(Line(a, 0.0, gain), Line(a, 0.0, loss));
    } else {
      var g, l, t := a * gain, a * loss, gain + loss;
      assert g > 0.0 && l > 0.0;
      var r, s := RsiValue(gain, loss), RsiValue(g, l);
      RsiIsShare(gain, loss);
      RsiIsShare(g, l);
      assert g + l == a * t;
      assert s * (a * t) == a * (s * t);
      assert a * (s * t) == a * (100.0 * gain);
      assert ((s - r) * t) * a == 0.0;
      ZeroFactor((s - r) * t, a);
      ZeroFactor(s - r, t);
    }
  }

  /** Shifting or enlarging the prices leaves RSI unchanged; mirroring them turns it into 100 - RSI. */
  lemma RsiMirrors(a: real, b: real, xs: seq<real>, period: int, i: int)
    requires 1 < period <= i < |xs| && a != 0.0
    ensures RsiAt(Affine(a, b, xs), period, i) == if a > 0.0 then RsiAt(xs, period, i) else 100.0 - RsiAt(xs, period, i)
  {
    hide Wilder, RsiValue, Line;
    if a > 0.0 {
      MovesScaleUp(a, b, xs);
    } else {
      MovesScaleDown(a, b, xs);
    }
    AveragesNonNegative(xs, period, i);
    AveragesNonNegative(Affine(a, b, xs), period, i);
    var gain, loss := AverageGain(xs, period, i), AverageLoss(xs, period, i);
    var factor := if a > 0.0 then a else -a;
    WilderScale(factor, Gains(Changes(xs)), period, i - 1);
    WilderScale(factor, Losses(Changes(xs)), period, i - 1);
    RsiValueScale(factor, gain, loss);
    RsiValueScale(factor, loss, gain);
    RsiValueRange(gain, loss);
  }

  /** A smoothed non-negative series is zero exactly when every input so far was zero. */
  lemma {:induction false} WilderZero(xs: seq<real>, period: int, i: int)
    requires 1 < period && period - 1 <= i < |xs| && forall k :: 0 <= k <= i ==> xs[k] >= 0.0
    ensures Wilder(xs, period, i) >= 0.0
    ensures Wilder(xs, period, i) == 0.0 <==> AllZero(xs[..i + 1])
    decreases i
  {
    hide Mean, Smooth;
    if i == period - 1 {
      MeanZero(xs[..period]);
    } else {
      WilderZero(xs, period, i - 1);
      var s, p, n := Wilder(xs, period, i), Wilder(xs, period, i - 1), period as real;
      SmoothTimes(period, p, xs[i]);
      SmoothZero(s, p, xs[i], n);
      assert xs[..i + 1] == xs[..i] + [xs[i]];
      assert AllZero(xs[..i + 1]) <==> AllZero(xs[..i]) && xs[i] == 0.0 by {
        assert forall k :: 0 <= k < i ==> xs[..i + 1][k] == xs[..i][k];
        assert xs[..i + 1][i] == xs[i];
      }
    }
  }

  lemma SmoothZero(s: real, p: real, x: real, n: real)
    requires n > 1.0 && p >= 0.0 && x >= 0.0 && s * n == p * (n - 1.0) + x
    ensures s >= 0.0
    ensures s == 0.0 <==> p == 0.0 && x == 0.0
  {
    ProductNonNegative(p, n - 1.0);
    NonNegativeFactor(s, n);
    assert p > 0.0 ==> p * (n - 1.0) > 0.0;
    if p == 0.0 && x == 0.0 {
      ZeroFactor(s, n);
    }
  }

  lemma MeanZero(xs: seq<real>)
    requires xs != [] && forall k :: 0 <= k < |xs| ==> xs[k] >= 0.0
    ensures Mean(xs) >= 0.0
    ensures Mean(xs) == 0.0 <==> AllZero(xs)
  {
    var n, m := |xs| as real, Mean(xs);
    SumZero(xs);
    assert m * n == SumBy(Self, xs);
    NonNegativeFactor(m, n);
    if AllZero(xs) {
      ZeroFactor(m, n);
    }
  }

  lemma {:induction false} SumZero(xs: seq<real>)
    requires forall k :: 0 <= k < |xs| ==> xs[k] >= 0.0
    ensures SumBy(Self, xs) >= 0.0
    ensures SumBy(Self, xs) == 0.0 <==> AllZero(xs)
  {
    if xs != [] {
      SumZero(xs[1..]);
      assert forall k :: 0 < k < |xs| ==> xs[k] == xs[1..][k - 1];
    }
  }

  ghost predicate NoFall(xs: seq<real>, i: int)
    requires i < |xs|
  {
    forall k :: 0 <= k < i ==> xs[k] <= xs[k + 1]
  }

  ghost predicate NoRise(xs: seq<real>, i: int)
    requires i < |xs|
  {
    forall k :: 0 <= k < i ==> xs[k] >= xs[k + 1]
  }

  lemma NoLossesIsNoFall(xs: seq<real>, i: nat)
    requires i < |xs|
    ensures AllZero(Losses(Changes(xs))[..i]) <==> NoFall(xs, i)
  {
    var l := Losses(Changes(xs))[..i];
    assert forall k :: 0 <= k < i ==> (l[k] == 0.0 <==> xs[k] <= xs[k + 1]);
  }

  lemma NoGainsIsNoRise(xs: seq<real>, i: nat)
    requires i < |xs|
    ensures AllZero(Gains(Changes(xs))[..i]) <==> NoRise(xs, i)
  {
    var g := Gains(Changes(xs))[..i];
    assert forall k :: 0 <= k < i ==> (g[k] == 0.0 <==> xs[k] >= xs[k + 1]);
  }

  /** RSI reaches 100 exactly when the prices so far rose somewhere and fell nowhere. */
  lemma RsiIsMaximal(xs: seq<real>, period: int, i: int)
    requires 1 < period <= i < |xs|
    ensures RsiAt(xs, period, i) == 100.0 <==> NoFall(xs, i) && !NoRise(xs, i)
  {
    hide RsiValue, Wilder, AllZero, NoFall, NoRise;
    AveragesNonNegative(xs, period, i);
    RsiValueRange(AverageGain(xs, period, i), AverageLoss(xs, period, i));
    WilderZero(Gains(Changes(xs)), period, i - 1);
    WilderZero(Losses(Changes(xs)), period, i - 1);
    NoLossesIsNoFall(xs, i);
    NoGainsIsNoRise(xs, i);
  }

  // ---- ATR

  function TrueRange(candles: seq<Candle>, i: nat): real
    requires i < |candles|
  {
    var c := candles[i];
    if i == 0 then c.high - c.low
    else Max(Max(c.high - c.low, Abs(c.high - candles[i - 1].close)), Abs(c.low - candles[i - 1].close))
  }

  function TrueRanges(candles: seq<Candle>): (r: seq<real>)
    ensures |r| == |candles| && forall i :: 0 <= i < |candles| ==> r[i] == TrueRange(candles, i)
  {
    seq(|candles|, i requires 0 <= i < |candles| => TrueRange(candles, i))
  }

  /** Every candle but the first is checked. */
  predicate Ordered(candles: seq<Candle>) { forall i :: 1 <= i < |candles| ==> candles[i].low <= candles[i].high }

  method ComputeTrueRanges(candles: seq<Candle>) returns (r: Option<seq<real>>)
    ensures r == if Ordered(candles) then Some(TrueRanges(candles)) else None
  {
    if candles == [] {
      assert TrueRanges(candles) == [];
      return Some([]);
    }
    var ranges := [candles[0].high - candles[0].low];
    var i := 1;
    while i < |candles|
      invariant 1 <= i <= |candles| && Ordered(candles[..i])
      invariant ranges == TrueRanges(candles)[..i]
    {
      var current, previous := candles[i], candles[i - 1];
      if current.high < current.low {
        assert !Ordered(candles);
        return None;
      }
      assert current == candles[..i + 1][i];
      ranges := ranges + [Max(Max(current.high - current.low, Abs(current.high - previous.close)),
                              Abs(current.low - previous.close))];
      i := i + 1;
    }
    assert candles[..i] == candles && TrueRanges(candles)[..i] == TrueRanges(candles);
    r := Some(ranges);
  }

  function Atr(candles: seq<Candle>, period: int): (s: Series)
    requires period > 1
    ensures |s| == |candles|
    ensures forall i :: 0 <= i < |candles| ==>
      s[i] == if i < period - 1 then None else Some(Wilder(TrueRanges(candles), period, i))
  {
    seq(|candles|, i requires 0 <= i < |candles| =>
        if i < period - 1 then None else Some(Wilder(TrueRanges(candles), period, i)))
  }

  method ComputeAtr(candles: seq<Candle>, period: int) returns (r: Option<Series>)
    ensures r == if period > 1 && Ordered(candles) then Some(Atr(candles, period)) else None
  {
    hide Mean, Smooth, TrueRange;
    if period <= 1 {
      return None;
    }
    var checked := ComputeTrueRanges(candles);
    if checked.None? {
      return None;
    }
    var ranges := checked.value;
    var output := Nones(|ranges|);
    if |ranges| < period {
      assert output == Atr(candles, period);
      return Some(output);
    }
    var current := Mean(ranges[..period]);
    output := output[period - 1 := Some(current)];
    var index := period;
    while index < |ranges|
      invariant period <= index <= |ranges| == |output|
      invariant current == Wilder(ranges, period, index - 1)
      invariant forall i :: 0 <= i < index ==> output[i] == Atr(candles, period)[i]
      invariant forall i :: index <= i < |ranges| ==> output[i] == None
    {
      current := Smooth(period, current, ranges[index]);
      output := output[index := Some(current)];
      index := index + 1;
    }
    assert output == Atr(candles, period);
    r := Some(output);
  }

  /** A true range spans the candle and the previous close. */
  lemma TrueRangeIsSpan(candles: seq<Candle>, i: nat)
    requires 1 <= i < |candles| && candles[i].low <= candles[i].high
    ensures var c, p := candles[i], candles[i - 1].close;
      TrueRange(candles, i) == Max(c.high, p) - Min(c.low, p)
  {
  }

  /** On well-formed candles ATR is never negative and never more than the whole price range so far. */
  lemma AtrWithinPriceRange(candles: seq<Candle>, period: int, i: int, lo: real, hi: real)
    requires 1 < period && period - 1 <= i < |candles|
    requires forall k :: 0 <= k <= i ==> WellFormed(candles[k]) && lo <= candles[k].low && candles[k].high <= hi
    ensures 0.0 <= Wilder(TrueRanges(candles), period, i) <= hi - lo
  {
    hide Wilder, TrueRange;
    var ranges := TrueRanges(candles);
    forall k | 0 <= k <= i
      ensures 0.0 <= ranges[k] <= hi - lo
    {
      RangeWithin(candles, k, lo, hi);
    }
    assert forall k :: 0 <= k <= i ==> ranges[..i + 1][k] == ranges[k];
    WilderWithin(ranges, period, i, 0.0, hi - lo);
  }

  lemma RangeWithin(candles: seq<Candle>, k: nat, lo: real, hi: real)
    requires k < |candles|
    requires forall j :: 0 <= j <= k ==> WellFormed(candles[j]) && lo <= candles[j].low && candles[j].high <= hi
    ensures 0.0 <= TrueRange(candles, k) <= hi - lo
  {
    assert WellFormed(candles[k]);
    if k > 0 {
      assert WellFormed(candles[k - 1]);
      TrueRangeIsSpan(candles, k);
    }
  }
}
