/** EMA and MACD: the loops against a recursive definition, and the laws of that definition. */
module MovingAverages {
  import opened Common

  type Series = seq<Option<real>>

  function Mean(xs: seq<real>): real
    requires xs != []
  {
    SumBy(Self, xs) / |xs| as real
  }

  /** The line a * x + b. */
  function Line(a: real, b: real, x: real): real { a * x + b }

  function Affine(a: real, b: real, xs: seq<real>): (ys: seq<real>)
    ensures |ys| == |xs| && forall i :: 0 <= i < |xs| ==> ys[i] == Line(a, b, xs[i])
  {
    seq(|xs|, i requires 0 <= i < |xs| => Line(a, b, xs[i]))
  }

  ghost predicate Within(lo: real, hi: real, xs: seq<real>) {
    forall i :: 0 <= i < |xs| ==> lo <= xs[i] <= hi
  }

  // ---- Means

  function Times(n: nat, x: real): real { n as real * x }

  lemma {:induction false} SumWithin(lo: real, hi: real, xs: seq<real>)
    requires Within(lo, hi, xs)
    ensures Times(|xs|, lo) <= SumBy(Self, xs) <= Times(|xs|, hi)
  {
    if xs != [] {
      assert Within(lo, hi, xs[1..]);
      SumWithin(lo, hi, xs[1..]);
      OneMore(|xs| - 1, lo);
      OneMore(|xs| - 1, hi);
    }
  }

  lemma OneMore(n: nat, x: real)
    ensures Times(n + 1, x) == Times(n, x) + x
  {
    assert (n + 1) as real == n as real + 1.0;
  }

  lemma Divide(n: nat, x: real, sum: real)
    requires n > 0
    ensures Times(n, x) <= sum <==> x <= sum / n as real
    ensures Times(n, x) == sum <==> x == sum / n as real
  {
    var d, q := n as real, sum / n as real;
    assert q * d == sum;
    assert (x - q) * d == x * d - sum;
    assert x > q ==> (x - q) * d > 0.0;
    assert x <= q ==> (q - x) * d >= 0.0;
    assert x < q ==> (q - x) * d > 0.0;
  }

  lemma MeanWithin(lo: real, hi: real, xs: seq<real>)
    requires xs != [] && Within(lo, hi, xs)
    ensures lo <= Mean(xs) <= hi
  {
    SumWithin(lo, hi, xs);
    Divide(|xs|, lo, SumBy(Self, xs));
    Divide(|xs|, hi, SumBy(Self, xs));
  }

  lemma {:induction false} SumAffine(a: real, b: real, xs: seq<real>)
    ensures SumBy(Self, Affine(a, b, xs)) == a * SumBy(Self, xs) + Times(|xs|, b)
  {
    if xs != [] {
      var rest := xs[1..];
      SumAffine(a, b, rest);
      assert Affine(a, b, xs) == [Line(a, b, xs[0])] + Affine(a, b, rest);
      OneMore(|rest|, b);
      Distribute(a, xs[0], SumBy(Self, rest));
    }
  }

  lemma Distribute(a: real, x: real, y: real)
    ensures a * (x + y) == a * x + a * y
  {
  }

  lemma MeanAffine(a: real, b: real, xs: seq<real>)
    requires xs != []
    ensures Mean(Affine(a, b, xs)) == Line(a, b, Mean(xs))
  {
    hide Line, Times;
    SumAffine(a, b, xs);
    var sum, mean := SumBy(Self, xs), Mean(xs);
    assert Times(|xs|, mean) == sum by {
      Divide(|xs|, mean, sum);
    }
    TimesLine(a, b, |xs|, mean);
    Divide(|xs|, Line(a, b, mean), SumBy(Self, Affine(a, b, xs)));
  }

  lemma TimesLine(a: real, b: real, n: nat, x: real)
    ensures Times(n, Line(a, b, x)) == a * Times(n, x) + Times(n, b)
  {
    var m := n as real;
    assert m * (a * x + b) == m * (a * x) + m * b;
    assert m * (a * x) == a * (m * x);
  }

  // ---- EMA

  function Alpha(period: int): real
    requires period > 0
  {
    2.0 / (period as real + 1.0)
  }

  function Blend(alpha: real, previous: real, x: real): real { previous + alpha * (x - previous) }

  function EmaAt(xs: seq<real>, period: int, i: int): real
    requires 0 < period && period - 1 <= i < |xs|
    decreases i
  {
    if i == period - 1 then Mean(xs[..period]) else Blend(Alpha(period), EmaAt(xs, period, i - 1), xs[i])
  }

  function Ema(xs: seq<real>, period: int): (s: Series)
    requires period > 0
    ensures |s| == |xs|
    ensures forall i :: 0 <= i < |xs| ==> s[i] == if i < period - 1 then None else Some(EmaAt(xs, period, i))
  {
    seq(|xs|, i requires 0 <= i < |xs| => if i < period - 1 then None else Some(EmaAt(xs, period, i)))
  }

  function Nones(n: nat): (s: Series)
    ensures |s| == n && forall i :: 0 <= i < n ==> s[i] == None
  {
    seq(n, _ => None)
  }

  /** A non-positive period is an error; too few values give no average at all. */
  method ComputeEma(values: seq<real>, period: int) returns (r: Option<Series>)
    ensures r == if period > 0 then Some(Ema(values, period)) else None
  {
    hide Mean, Blend, Alpha;
    if period <= 0 {
      return None;
    }
    var output := Nones(|values|);
    if |values| < period {
      assert output == Ema(values, period);
      return Some(output);
    }
    var current := Mean(values[..period]);
    output := output[period - 1 := Some(current)];
    var alpha := Alpha(period);
    var index := period;
    while index < |values|
      invariant period <= index <= |values| == |output|
      invariant current == EmaAt(values, period, index - 1)
      invariant forall i :: 0 <= i < index ==> output[i] == Ema(values, period)[i]
      invariant forall i :: index <= i < |values| ==> output[i] == None
    {
      current := Blend(alpha, current, values[index]);
      output := output[index := Some(current)];
      index := index + 1;
    }
    assert output == Ema(values, period);
    r := Some(output);
  }

  lemma AlphaRange(period: int)
    requires period > 0
    ensures 0.0 < Alpha(period) <= 1.0
  {
    var d := period as real + 1.0;
    var q := 2.0 / d;
    assert q * d == 2.0;
    assert q <= 0.0 ==> q * d <= 0.0;
    assert q > 1.0 ==> (q - 1.0) * d > 0.0;
    assert (q - 1.0) * d == 2.0 - d;
  }

  lemma BlendWithin(alpha: real, previous: real, x: real, lo: real, hi: real)
    requires 0.0 <= alpha <= 1.0 && lo <= previous <= hi && lo <= x <= hi
    ensures lo <= Blend(alpha, previous, x) <= hi
  {
    var beta := 1.0 - alpha;
    assert Blend(alpha, previous, x) - lo == beta * (previous - lo) + alpha * (x - lo);
    assert hi - Blend(alpha, previous, x) == beta * (hi - previous) + alpha * (hi - x);
    ProductNonNegative(beta, previous - lo);
    ProductNonNegative(alpha, x - lo);
    ProductNonNegative(beta, hi - previous);
    ProductNonNegative(alpha, hi - x);
  }

  /** An average stays within the extremes of the values up to its index. */
  lemma {:induction false} EmaWithinInputs(xs: seq<real>, period: int, i: int, lo: real, hi: real)
    requires 0 < period && period - 1 <= i < |xs| && Within(lo, hi, xs[..i + 1])
    ensures lo <= EmaAt(xs, period, i) <= hi
    decreases i
  {
    hide Mean, Blend, Alpha;
    if i == period - 1 {
      MeanWithin(lo, hi, xs[..period]);
    } else {
      assert forall k :: 0 <= k < i ==> xs[..i][k] == xs[..i + 1][k];
      EmaWithinInputs(xs, period, i - 1, lo, hi);
      AlphaRange(period);
      assert xs[i] == xs[..i + 1][i];
      BlendWithin(Alpha(period), EmaAt(xs, period, i - 1), xs[i], lo, hi);
    }
  }

  lemma BlendAffine(a: real, b: real, alpha: real, previous: real, x: real)
    ensures Blend(alpha, Line(a, b, previous), Line(a, b, x)) == Line(a, b, Blend(alpha, previous, x))
  {
    assert Line(a, b, x) - Line(a, b, previous) == a * (x - previous);
    assert alpha * (a * (x - previous)) == a * (alpha * (x - previous));
  }

  /** Scaling and shifting the prices scales and shifts the average. */
  lemma {:induction false} EmaAffine(a: real, b: real, xs: seq<real>, period: int, i: int)
    requires 0 < period && period - 1 <= i < |xs|
    ensures EmaAt(Affine(a, b, xs), period, i) == Line(a, b, EmaAt(xs, period, i))
    decreases i
  {
    hide Mean, Blend, Alpha, Line;
    if i == period - 1 {
      assert Affine(a, b, xs)[..period] == Affine(a, b, xs[..period]);
      MeanAffine(a, b, xs[..period]);
    } else {
      EmaAffine(a, b, xs, period, i - 1);
      BlendAffine(a, b, Alpha(period), EmaAt(xs, period, i - 1), xs[i]);
    }
  }

  /** An average depends on no later value. */
  lemma {:induction false} EmaIsCausal(xs: seq<real>, ys: seq<real>, period: int, i: int)
    requires 0 < period && period - 1 <= i < |xs| && i < |ys| && xs[..i + 1] == ys[..i + 1]
    ensures EmaAt(xs, period, i) == EmaAt(ys, period, i)
    decreases i
  {
    hide Mean, Blend, Alpha;
    assert forall k :: 0 <= k <= i ==> xs[k] == xs[..i + 1][k] == ys[..i + 1][k] == ys[k];
    if i == period - 1 {
      assert xs[..period] == ys[..period];
    } else {
      assert xs[..i] == ys[..i];
      EmaIsCausal(xs, ys, period, i - 1);
    }
  }

  // ---- EMA of a series with gaps at the front

  /** The index of the first value, or the length when there is none. */
  function First(s: Series): (n: nat)
    ensures n <= |s| && (n < |s| ==> s[n].Some?) && forall i :: 0 <= i < n ==> s[i].None?
  {
    if s == [] || s[0].Some? then 0 else 1 + First(s[1..])
  }

  /** The values that are there, in order. */
  function Present(s: Series): (xs: seq<real>)
    ensures |xs| <= |s|
  {
    if s == [] then [] else (if s[0].Some? then [s[0].value] else []) + Present(s[1..])
  }

  /** The average starts at the first value, is taken over the values present, and is written back from that index. */
  function EmaFromOptional(s: Series, period: int): (r: Series)
    requires period > 0
    ensures |r| == |s|
  {
    var first := First(s);
    var calculated := Ema(Present(s[first..]), period);
    Nones(first) + calculated + Nones(|s| - first - |calculated|)
  }

  /** Without any value the period is never looked at; otherwise it must be positive. */
  method ComputeEmaFromOptional(values: Series, period: int) returns (r: Option<Series>)
    ensures r == if First(values) == |values| then Some(Nones(|values|))
                 else if period > 0 then Some(EmaFromOptional(values, period)) else None
  {
    var output := Nones(|values|);
    var first := 0;
    while first < |values| && values[first].None?
      invariant 0 <= first <= |values| && first <= First(values)
    {
      first := first + 1;
    }
    assert first == First(values);
    if first == |values| {
      return Some(output);
    }
    var calculated := ComputeEma(Present(values[first..]), period);
    if calculated.None? {
      return None;
    }
    var index := 0;
    while index < |calculated.value|
      invariant 0 <= index <= |calculated.value| && |output| == |values|
      invariant forall i :: 0 <= i < index ==> output[first + i] == calculated.value[i]
      invariant forall i :: 0 <= i < |values| && !(first <= i < first + index) ==> output[i] == None
    {
      output := output[first + index := calculated.value[index]];
      index := index + 1;
    }
    assert output == EmaFromOptional(values, period);
    r := Some(output);
  }

  // ---- MACD

  datatype Macd = Macd(line: Series, signal: Series, histogram: Series)

  function Minus(x: Option<real>, y: Option<real>): Option<real> {
    if x.None? || y.None? then None else Some(x.value - y.value)
  }

  function Difference(s: Series, t: Series): (d: Series)
    requires |s| == |t|
    ensures |d| == |s| && forall i :: 0 <= i < |s| ==> d[i] == Minus(s[i], t[i])
  {
    seq(|s|, i requires 0 <= i < |s| => Minus(s[i], t[i]))
  }

  predicate Periods(fast: int, slow: int, signal: int) { 1 < fast < slow && signal > 1 }

  function MacdOf(xs: seq<real>, fast: int, slow: int, signal: int): Macd
    requires Periods(fast, slow, signal)
  {
    var line := Difference(Ema(xs, fast), Ema(xs, slow));
    var signals := EmaFromOptional(line, signal);
    Macd(line, signals, Difference(line, signals))
  }

  /** The values of the line once the slow average exists. */
  function LineValues(xs: seq<real>, fast: int, slow: int): (v: seq<real>)
    requires 1 < fast < slow
    ensures |v| == if |xs| < slow then 0 else |xs| - slow + 1
    ensures forall k :: 0 <= k < |v| ==> v[k] == EmaAt(xs, fast, slow - 1 + k) - EmaAt(xs, slow, slow - 1 + k)
  {
    if |xs| < slow then []
    else seq(|xs| - slow + 1, k requires 0 <= k < |xs| - slow + 1
             => EmaAt(xs, fast, slow - 1 + k) - EmaAt(xs, slow, slow - 1 + k))
  }

  /** A series that is None up to some index and present afterwards. */
  ghost predicate Suffix(s: Series, from: nat, v: seq<real>) {
    && |v| == (if |s| < from then 0 else |s| - from)
    && (forall i :: 0 <= i < |s| && i < from ==> s[i] == None)
    && (forall i :: from <= i < |s| ==> s[i] == Some(v[i - from]))
  }

  lemma {:induction false} PresentAll(s: Series, v: seq<real>)
    requires Suffix(s, 0, v)
    ensures Present(s) == v
  {
    if s != [] {
      assert Suffix(s[1..], 0, v[1..]) by {
        assert forall i :: 0 <= i < |s| - 1 ==> s[1..][i] == s[i + 1] && v[1..][i] == v[i + 1];
      }
      PresentAll(s[1..], v[1..]);
      assert v == [v[0]] + v[1..];
    }
  }

  /** The signal of a warmed-up line is the plain average of its values, placed after the line's own warm-up. */
  lemma SignalOfSuffix(s: Series, from: nat, v: seq<real>, period: int)
    requires period > 0 && Suffix(s, from, v)
    ensures |EmaFromOptional(s, period)| == |s|
    ensures forall i :: 0 <= i < |s| ==>
      EmaFromOptional(s, period)[i] == if i < from + period - 1 then None else Some(EmaAt(v, period, i - from))
  {
    hide EmaAt;
    if |s| <= from {
      assert First(s) == |s|;
      assert Present(s[|s|..]) == [];
    } else {
      assert s[from] == Some(v[0]);
      assert First(s) == from;
      assert Suffix(s[from..], 0, v);
      PresentAll(s[from..], v);
    }
  }

  lemma LineIsSuffix(xs: seq<real>, fast: int, slow: int, signal: int)
    requires Periods(fast, slow, signal)
    ensures Suffix(MacdOf(xs, fast, slow, signal).line, slow - 1, LineValues(xs, fast, slow))
  {
    hide EmaAt, EmaFromOptional;
  }

  lemma SuffixAt(s: Series, from: nat, v: seq<real>, i: nat)
    requires Suffix(s, from, v) && i < |s|
    ensures s[i] == (if i < from then None else Some(v[i - from]))
  {
  }

  /** What each of the three series holds at an index. */
  lemma MacdAt(xs: seq<real>, fast: int, slow: int, signal: int, i: int)
    requires Periods(fast, slow, signal) && 0 <= i < |xs|
    ensures var m, v := MacdOf(xs, fast, slow, signal), LineValues(xs, fast, slow);
      && |m.line| == |m.signal| == |m.histogram| == |xs|
      && m.line[i] == (if i < slow - 1 then None else Some(v[i - slow + 1]))
      && m.signal[i] == (if i < slow + signal - 2 then None else Some(EmaAt(v, signal, i - slow + 1)))
      && m.histogram[i] == (if i < slow + signal - 2 then None
                            else Some(v[i - slow + 1] - EmaAt(v, signal, i - slow + 1)))
  {
    hide EmaAt, EmaFromOptional, Ema, LineValues, Suffix;
    LineIsSuffix(xs, fast, slow, signal);
    var line, v := MacdOf(xs, fast, slow, signal).line, LineValues(xs, fast, slow);
    SignalOfSuffix(line, slow - 1, v, signal);
    SuffixAt(line, slow - 1, v, i);
  }

  /** The line is missing exactly on the first slow - 1 candles, signal and histogram on the first slow + signal - 2. */
  lemma MacdWarmUp(xs: seq<real>, fast: int, slow: int, signal: int)
    requires Periods(fast, slow, signal)
    ensures var m := MacdOf(xs, fast, slow, signal);
      && |m.line| == |m.signal| == |m.histogram| == |xs|
      && (forall i :: 0 <= i < |xs| ==> (m.line[i].None? <==> i < slow - 1))
      && (forall i :: 0 <= i < |xs| ==> (m.signal[i].None? <==> i < slow + signal - 2))
      && (forall i :: 0 <= i < |xs| ==> (m.histogram[i].None? <==> i < slow + signal - 2))
  {
    hide MacdOf, EmaAt, LineValues;
    var m := MacdOf(xs, fast, slow, signal);
    MacdLengths(xs, fast, slow, signal);
    forall i | 0 <= i < |xs|
      ensures m.line[i].None? <==> i < slow - 1
      ensures m.signal[i].None? <==> i < slow + signal - 2
      ensures m.histogram[i].None? <==> i < slow + signal - 2
    {
      MacdAt(xs, fast, slow, signal, i);
    }
  }

  lemma MacdLengths(xs: seq<real>, fast: int, slow: int, signal: int)
    requires Periods(fast, slow, signal)
    ensures var m := MacdOf(xs, fast, slow, signal); |m.line| == |m.signal| == |m.histogram| == |xs|
  {
    hide EmaAt;
  }

  function ScaledBy(a: real, x: Option<real>): Option<real> {
    if x.None? then None else Some(Line(a, 0.0, x.value))
  }

  lemma LineDifference(a: real, b: real, x: real, y: real)
    ensures Line(a, b, x) - Line(a, b, y) == Line(a, 0.0, x - y)
  {
    assert a * x - a * y == a * (x - y);
  }

  lemma LineValuesScale(a: real, b: real, xs: seq<real>, fast: int, slow: int)
    requires 1 < fast < slow
    ensures LineValues(Affine(a, b, xs), fast, slow) == Affine(a, 0.0, LineValues(xs, fast, slow))
  {
    hide EmaAt, Line;
    var ys, v, w := Affine(a, b, xs), LineValues(xs, fast, slow), LineValues(Affine(a, b, xs), fast, slow);
    forall k | 0 <= k < |v|
      ensures w[k] == Line(a, 0.0, v[k])
    {
      var i := slow - 1 + k;
      EmaAffine(a, b, xs, fast, i);
      EmaAffine(a, b, xs, slow, i);
      LineDifference(a, b, EmaAt(xs, fast, i), EmaAt(xs, slow, i));
    }
  }

  /** Shifting the prices leaves MACD unchanged and scaling them scales it: line, signal and histogram alike. */
  lemma MacdAffine(a: real, b: real, xs: seq<real>, fast: int, slow: int, signal: int, i: int)
    requires Periods(fast, slow, signal) && 0 <= i < |xs|
    ensures var m, n := MacdOf(xs, fast, slow, signal), MacdOf(Affine(a, b, xs), fast, slow, signal);
      && |m.line| == |m.signal| == |m.histogram| == |n.line| == |n.signal| == |n.histogram| == |xs|
      && n.line[i] == ScaledBy(a, m.line[i])
      && n.signal[i] == ScaledBy(a, m.signal[i])
      && n.histogram[i] == ScaledBy(a, m.histogram[i])
  {
    hide MacdOf, EmaAt, Line, LineValues;
    var ys, v := Affine(a, b, xs), LineValues(xs, fast, slow);
    MacdAt(xs, fast, slow, signal, i);
    MacdAt(ys, fast, slow, signal, i);
    LineValuesScale(a, b, xs, fast, slow);
    if i >= slow + signal - 2 {
      var k := i - slow + 1;
      EmaAffine(a, 0.0, v, signal, k);
      LineDifference(a, 0.0, v[k], EmaAt(v, signal, k));
    }
  }

  /** In particular MACD does not see a shift. */
  lemma MacdShiftInvariant(b: real, xs: seq<real>, fast: int, slow: int, signal: int)
    requires Periods(fast, slow, signal)
    ensures MacdOf(Affine(1.0, b, xs), fast, slow, signal) == MacdOf(xs, fast, slow, signal)
  {
    hide MacdOf, EmaAt;
    var m, n := MacdOf(xs, fast, slow, signal), MacdOf(Affine(1.0, b, xs), fast, slow, signal);
    MacdLengths(xs, fast, slow, signal);
    MacdLengths(Affine(1.0, b, xs), fast, slow, signal);
    forall i | 0 <= i < |xs|
      ensures n.line[i] == m.line[i] && n.signal[i] == m.signal[i] && n.histogram[i] == m.histogram[i]
    {
      MacdAffine(1.0, b, xs, fast, slow, signal, i);
    }
    assert n.line == m.line && n.signal == m.signal && n.histogram == m.histogram;
  }

  // ---- Crossover

  datatype Cross = Cross(bullish: bool, bearish: bool)

  /** The indices at which both series have a value. */
  function Valid(s: Series, t: Series): (v: seq<(real, real)>)
    requires |s| == |t|
    decreases |s|
  {
    if s == [] then []
    else
      var n := |s| - 1;
      Valid(s[..n], t[..n]) + if s[n].Some? && t[n].Some? then [(s[n].value, t[n].value)] else []
  }

  function Crossover(m: Macd): Cross
    requires |m.line| == |m.signal|
  {
    var valid := Valid(m.line, m.signal);
    if |valid| < 2 then Cross(false, false)
    else
      var previous, current := valid[|valid| - 2], valid[|valid| - 1];
      Cross(previous.0 <= previous.1 && current.0 > current.1, previous.0 >= previous.1 && current.0 < current.1)
  }

  /** Both lines have a value at k. */
  predicate BothPresent(m: Macd, k: int) { 0 <= k < |m.line| && k < |m.signal| && m.line[k].Some? && m.signal[k].Some? }

  lemma {:induction false} ValidEnd(s: Series, t: Series, k: nat)
    requires k < |s| == |t| && s[k].Some? && t[k].Some?
    requires forall i :: k < i < |s| ==> !(s[i].Some? && t[i].Some?)
    ensures Valid(s, t) == Valid(s[..k], t[..k]) + [(s[k].value, t[k].value)]
    decreases |s|
  {
    var n := |s| - 1;
    if k < n {
      ValidEnd(s[..n], t[..n], k);
      assert s[..n][..k] == s[..k] && t[..n][..k] == t[..k];
    }
  }

  lemma {:induction false} ValidNone(s: Series, t: Series)
    requires |s| == |t| && forall i :: 0 <= i < |s| ==> !(s[i].Some? && t[i].Some?)
    ensures Valid(s, t) == []
    decreases |s|
  {
    if s != [] {
      ValidNone(s[..|s| - 1], t[..|t| - 1]);
    }
  }

  /** A crossing compares the last two places where both lines have a value. */
  lemma CrossoverExactly(m: Macd, i: nat, j: nat)
    requires |m.line| == |m.signal| && i < j && BothPresent(m, i) && BothPresent(m, j)
    requires forall k :: i < k && k != j ==> !BothPresent(m, k)
    ensures Crossover(m).bullish
      <==> m.line[i].value <= m.signal[i].value && m.line[j].value > m.signal[j].value
    ensures Crossover(m).bearish
      <==> m.line[i].value >= m.signal[i].value && m.line[j].value < m.signal[j].value
  {
    var s, t := m.line, m.signal;
    forall k | i < k < |s| && k != j
      ensures !(s[k].Some? && t[k].Some?)
    {
      assert !BothPresent(m, k);
    }
    ValidEnd(s, t, j);
    ValidEnd(s[..j], t[..j], i);
    assert s[..j][..i] == s[..i] && t[..j][..i] == t[..i];
  }

  /** With fewer than two such places nothing crosses. */
  lemma NothingCrosses(m: Macd, j: int)
    requires |m.line| == |m.signal| && forall k :: BothPresent(m, k) ==> k == j
    ensures Crossover(m) == Cross(false, false)
  {
    var s, t := m.line, m.signal;
    forall k | 0 <= k < |s| && k != j
      ensures !(s[k].Some? && t[k].Some?)
    {
      assert !BothPresent(m, k);
    }
    if BothPresent(m, j) {
      ValidEnd(s, t, j);
      ValidNone(s[..j], t[..j]);
    } else {
      assert forall k :: 0 <= k < |s| ==> !(s[k].Some? && t[k].Some?) by {
        assert !BothPresent(m, j);
      }
      ValidNone(s, t);
    }
  }

  lemma {:induction false} ValidScales(a: real, s: Series, t: Series, p: Series, q: Series)
    requires |s| == |t| == |p| == |q|
    requires forall i :: 0 <= i < |s| ==> p[i] == ScaledBy(a, s[i]) && q[i] == ScaledBy(a, t[i])
    ensures |Valid(p, q)| == |Valid(s, t)|
    ensures forall k :: 0 <= k < |Valid(s, t)| ==>
      Valid(p, q)[k] == (Line(a, 0.0, Valid(s, t)[k].0), Line(a, 0.0, Valid(s, t)[k].1))
    decreases |s|
  {
    hide Line;
    if s != [] {
      var n := |s| - 1;
      ValidScales(a, s[..n], t[..n], p[..n], q[..n]);
    }
  }

  lemma LineOrder(a: real, x: real, y: real)
    ensures a > 0.0 ==> (x <= y <==> Line(a, 0.0, x) <= Line(a, 0.0, y))
    ensures a < 0.0 ==> (x <= y <==> Line(a, 0.0, y) <= Line(a, 0.0, x))
  {
    var d := y - x;
    assert a * d == a * y - a * x;
    assert a > 0.0 && d >= 0.0 ==> a * d >= 0.0;
    assert a > 0.0 && d < 0.0 ==> a * d < 0.0;
    assert a < 0.0 && d >= 0.0 ==> a * d <= 0.0;
    assert a < 0.0 && d < 0.0 ==> a * d > 0.0;
  }

  /** Mirrored prices mirror the crossover; shifting or enlarging them does not change it. */
  lemma CrossoverMirrors(a: real, b: real, xs: seq<real>, fast: int, slow: int, signal: int)
    requires Periods(fast, slow, signal) && a != 0.0
    ensures |MacdOf(xs, fast, slow, signal).line| == |MacdOf(xs, fast, slow, signal).signal|
    ensures var x, y := Crossover(MacdOf(xs, fast, slow, signal)),
      Crossover(MacdOf(Affine(a, b, xs), fast, slow, signal));
      y == if a > 0.0 then x else Cross(x.bearish, x.bullish)
  {
    hide MacdOf, EmaAt, Line, Valid;
    var m, n := MacdOf(xs, fast, slow, signal), MacdOf(Affine(a, b, xs), fast, slow, signal);
    MacdLengths(xs, fast, slow, signal);
    MacdLengths(Affine(a, b, xs), fast, slow, signal);
    forall i | 0 <= i < |xs|
      ensures n.line[i] == ScaledBy(a, m.line[i]) && n.signal[i] == ScaledBy(a, m.signal[i])
    {
      MacdAffine(a, b, xs, fast, slow, signal, i);
    }
    ValidScales(a, m.line, m.signal, n.line, n.signal);
    var valid := Valid(m.line, m.signal);
    if |valid| >= 2 {
      var p, c := valid[|valid| - 2], valid[|valid| - 1];
      LineOrder(a, p.0, p.1);
      LineOrder(a, p.1, p.0);
      LineOrder(a, c.0, c.1);
      LineOrder(a, c.1, c.0);
    }
  }
}
