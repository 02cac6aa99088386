/** Validation of historical candles, and walk-forward windows over them. */
module HistoryValidation {
  import opened Common
  import opened Candles

  // ---- Missing periods

  /** The grid points strictly between two timestamps, counted from the first. */
  function Between(previous: int, current: int, step: int): (gap: seq<int>)
    requires step > 0
    decreases current - previous
  {
    if previous + step >= current then [] else [previous + step] + Between(previous + step, current, step)
  }

  function Missing(stamps: seq<int>, step: int): seq<int>
    requires step > 0
    decreases |stamps|
  {
    if |stamps| < 2 then []
    else
      var n := |stamps| - 1;
      Missing(stamps[..n], step) + Between(stamps[n - 1], stamps[n], step)
  }

  /** The nested loop over neighbouring rows; rows in any order, on or off the grid. */
  method MissingPeriods(stamps: seq<int>, step: int) returns (missing: seq<int>)
    requires step > 0
    ensures missing == Missing(stamps, step)
  {
    missing := [];
    var k := 1;
    while k < |stamps|
      invariant 1 <= k && (|stamps| > 0 ==> k <= |stamps|)
      invariant |stamps| > 0 ==> missing == Missing(stamps[..k], step)
      invariant stamps == [] ==> missing == []
    {
      var cursor := stamps[k - 1] + step;
      ghost var before := missing;
      while cursor < stamps[k]
        invariant before + Between(stamps[k - 1], stamps[k], step) == missing + Between(cursor - step, stamps[k], step)
        decreases stamps[k] - cursor
      {
        missing := missing + [cursor];
        cursor := cursor + step;
      }
      assert stamps[..k + 1][..k] == stamps[..k];
      k := k + 1;
    }
    if |stamps| > 0 {
      assert stamps[..k] == stamps;
    }
  }

  predicate InOrder(stamps: seq<int>) { forall i, j :: 0 <= i < j < |stamps| ==> stamps[i] <= stamps[j] }

  predicate Strict(stamps: seq<int>) { forall i, j :: 0 <= i < j < |stamps| ==> stamps[i] < stamps[j] }

  /** A whole number of steps from the origin. */
  predicate Aligned(origin: int, step: int, t: int)
    requires step > 0
  {
    (t - origin) % step == 0
  }

  function StepsFrom(origin: int, step: int, t: int): int
    requires step > 0
  {
    (t - origin) / step
  }

  predicate OnGrid(origin: int, step: int, stamps: seq<int>)
    requires step > 0
  {
    forall i :: 0 <= i < |stamps| ==> Aligned(origin, step, stamps[i])
  }

  /** Alignment is transitive and the steps add up. */
  lemma AlignedTrans(origin: int, step: int, x: int, t: int)
    requires step > 0 && Aligned(origin, step, x)
    ensures Aligned(x, step, t) <==> Aligned(origin, step, t)
    ensures StepsFrom(origin, step, t) == StepsFrom(origin, step, x) + StepsFrom(x, step, t)
  {
    var p := (x - origin) / step;
    var q, r := (t - x) / step, (t - x) % step;
    assert x - origin == p * step;
    assert t - x == q * step + r;
    assert (p + q) * step == p * step + q * step;
    DivMod(t - origin, step, p + q, r);
  }

  /** Within one step after the origin only the next grid point is aligned. */
  lemma NextPoint(origin: int, step: int, t: int)
    requires step > 0 && origin < t <= origin + step
    ensures Aligned(origin, step, t) <==> t == origin + step
    ensures t == origin + step ==> StepsFrom(origin, step, t) == 1
  {
    if t < origin + step {
      DivMod(t - origin, step, 0, t - origin);
    } else {
      DivMod(step, step, 1, 0);
    }
  }

  lemma AtOrigin(origin: int, step: int)
    requires step > 0
    ensures Aligned(origin, step, origin) && StepsFrom(origin, step, origin) == 0
  {
    DivMod(0, step, 0, 0);
  }

  lemma {:induction false} BetweenOrdered(previous: int, current: int, step: int)
    requires step > 0
    ensures Strict(Between(previous, current, step))
    ensures forall t :: t in Between(previous, current, step) ==> previous < t < current
    decreases current - previous
  {
    if previous + step < current {
      BetweenOrdered(previous + step, current, step);
      StrictCons(previous + step, Between(previous + step, current, step));
    }
  }

  lemma StrictCons(x: int, xs: seq<int>)
    requires Strict(xs) && forall t :: t in xs ==> x < t
    ensures Strict([x] + xs)
  {
    assert forall j :: 0 <= j < |xs| ==> xs[j] in xs;
  }

  /** A gap between two grid points holds exactly the grid points inside it. */
  lemma {:induction false} BetweenHas(previous: int, current: int, step: int, t: int)
    requires step > 0 && previous <= current && Aligned(previous, step, current)
    ensures t in Between(previous, current, step) <==> previous < t < current && Aligned(previous, step, t)
    decreases current - previous
  {
    hide Aligned;
    var next := previous + step;
    if previous < t <= next {
      NextPoint(previous, step, t);
    }
    if next < current {
      NextPoint(previous, step, next);
      AlignedTrans(previous, step, next, current);
      AlignedTrans(previous, step, next, t);
      BetweenHas(next, current, step, t);
    }
  }

  lemma {:induction false} BetweenCount(previous: int, current: int, step: int)
    requires step > 0 && previous < current && Aligned(previous, step, current)
    ensures |Between(previous, current, step)| == StepsFrom(previous, step, current) - 1
    decreases current - previous
  {
    hide Aligned, StepsFrom;
    var next := previous + step;
    NextPoint(previous, step, next);
    if next < current {
      AlignedTrans(previous, step, next, current);
      BetweenCount(next, current, step);
    } else {
      NextPoint(previous, step, current);
    }
  }

  /**
   For rows in time order on the grid, the rows and the reported periods together
   are exactly the grid from the first row to the last, and nothing is in both.
   */
  lemma {:induction false} PresentOrMissing(stamps: seq<int>, step: int, t: int)
    requires step > 0 && stamps != [] && InOrder(stamps) && OnGrid(stamps[0], step, stamps)
    ensures (t in stamps || t in Missing(stamps, step)) <==>
      stamps[0] <= t <= stamps[|stamps| - 1] && Aligned(stamps[0], step, t)
    ensures !(t in stamps && t in Missing(stamps, step))
    decreases |stamps|
  {
    hide Aligned, Between;
    var n := |stamps| - 1;
    if n == 0 {
      AtOrigin(stamps[0], step);
    } else {
      var rest, origin, previous, current := stamps[..n], stamps[0], stamps[n - 1], stamps[n];
      PresentOrMissing(rest, step, t);
      LastOne(stamps, t);
      assert OnGrid(origin, step, rest);
      assert Aligned(origin, step, previous) && Aligned(origin, step, current);
      AlignedTrans(origin, step, previous, current);
      AlignedTrans(origin, step, previous, t);
      BetweenHas(previous, current, step, t);
    }
  }

  lemma LastOne(stamps: seq<int>, t: int)
    requires stamps != []
    ensures var n := |stamps| - 1; t in stamps <==> t in stamps[..n] || t == stamps[n]
  {
    var n := |stamps| - 1;
    assert stamps == stamps[..n] + [stamps[n]];
  }

  /** Present and missing periods add up to the length of the grid, and the missing ones come in order. */
  lemma {:induction false} MissingCount(stamps: seq<int>, step: int)
    requires step > 0 && stamps != [] && Strict(stamps) && OnGrid(stamps[0], step, stamps)
    ensures |stamps| + |Missing(stamps, step)| == StepsFrom(stamps[0], step, stamps[|stamps| - 1]) + 1
    ensures Strict(Missing(stamps, step)) && forall t :: t in Missing(stamps, step) ==> t < stamps[|stamps| - 1]
    decreases |stamps|
  {
    hide Aligned, Between, StepsFrom;
    var n := |stamps| - 1;
    if n == 0 {
      AtOrigin(stamps[0], step);
    } else {
      var rest, origin, previous, current := stamps[..n], stamps[0], stamps[n - 1], stamps[n];
      MissingCount(rest, step);
      assert Aligned(origin, step, previous) && Aligned(origin, step, current);
      AlignedTrans(origin, step, previous, current);
      BetweenCount(previous, current, step);
      BetweenOrdered(previous, current, step);
      StrictConcat(Missing(rest, step), Between(previous, current, step), previous);
    }
  }

  lemma StrictConcat(xs: seq<int>, ys: seq<int>, cut: int)
    requires Strict(xs) && Strict(ys)
    requires forall t :: t in xs ==> t < cut
    requires forall t :: t in ys ==> cut < t
    ensures Strict(xs + ys)
  {
    assert forall i :: 0 <= i < |xs| ==> xs[i] in xs;
    assert forall i :: 0 <= i < |ys| ==> ys[i] in ys;
  }

  // ---- Rows

  datatype Issue = ImpossibleOhlc(row: nat) | InvalidPriceOrVolume(row: nat)

  predicate Impossible(c: Candle) { c.high < Max(c.open, c.close) || c.low > Min(c.open, c.close) }

  predicate Invalid(c: Candle) { c.volume < 0.0 || Min(Min(c.open, c.high), Min(c.low, c.close)) <= 0.0 }

  function Stamps(rows: seq<Candle>): (s: seq<int>)
    ensures |s| == |rows| && forall i :: 0 <= i < |rows| ==> s[i] == rows[i].timestamp
  {
    seq(|rows|, i requires 0 <= i < |rows| => rows[i].timestamp)
  }

  /** The timestamps that occur more than once. */
  function Duplicates(stamps: seq<int>): set<int> {
    set t | t in stamps && multiset(stamps)[t] > 1
  }

  /** What is reported about one symbol and timeframe. */
  datatype Report = Report(issues: seq<Issue>, duplicates: set<int>, missing: seq<int>, insufficient: bool)

  predicate Accepted(r: Report) { r.issues == [] && r.duplicates == {} }

  method Validate(rows: seq<Candle>, step: int, minimumHistory: nat) returns (r: Report)
    requires step > 0
    ensures forall i :: 0 <= i < |rows| ==> (ImpossibleOhlc(i) in r.issues <==> Impossible(rows[i]))
    ensures forall i :: 0 <= i < |rows| ==> (InvalidPriceOrVolume(i) in r.issues <==> Invalid(rows[i]))
    ensures forall x :: x in r.issues ==> x.row < |rows|
    ensures r.duplicates == Duplicates(Stamps(rows)) && r.missing == Missing(Stamps(rows), step)
    ensures r.insufficient <==> |rows| < minimumHistory
    ensures Accepted(r) <==> AllWellFormed(rows) && DistinctTimes(rows)
  {
    var issues: seq<Issue> := [];
    var k := 0;
    while k < |rows|
      invariant 0 <= k <= |rows|
      invariant forall i :: 0 <= i < k ==> (ImpossibleOhlc(i) in issues <==> Impossible(rows[i]))
      invariant forall i :: 0 <= i < k ==> (InvalidPriceOrVolume(i) in issues <==> Invalid(rows[i]))
      invariant forall x :: x in issues ==> x.row < k
    {
      if Impossible(rows[k]) {
        issues := issues + [ImpossibleOhlc(k)];
      }
      if Invalid(rows[k]) {
        issues := issues + [InvalidPriceOrVolume(k)];
      }
      k := k + 1;
    }
    var missing := MissingPeriods(Stamps(rows), step);
    r := Report(issues, Duplicates(Stamps(rows)), missing, |rows| < minimumHistory);
    NoIssues(rows, issues);
    NoDuplicates(Stamps(rows));
  }

  /** A row without either issue is a well-formed candle, and the other way round. */
  lemma WellFormedOrReported(c: Candle)
    ensures WellFormed(c) <==> !Impossible(c) && !Invalid(c)
  {
  }

  /** What each issue means: a body outside the range, and a negative volume or a price that is not positive. */
  lemma IssuesExactly(c: Candle)
    ensures Impossible(c) <==> c.open > c.high || c.close > c.high || c.open < c.low || c.close < c.low
    ensures Invalid(c) <==> c.volume < 0.0 || c.open <= 0.0 || c.high <= 0.0 || c.low <= 0.0 || c.close <= 0.0
  {
  }

  lemma NoIssues(rows: seq<Candle>, issues: seq<Issue>)
    requires forall i :: 0 <= i < |rows| ==> (ImpossibleOhlc(i) in issues <==> Impossible(rows[i]))
    requires forall i :: 0 <= i < |rows| ==> (InvalidPriceOrVolume(i) in issues <==> Invalid(rows[i]))
    requires forall x :: x in issues ==> x.row < |rows|
    ensures issues == [] <==> AllWellFormed(rows)
  {
    hide Impossible, Invalid, WellFormed;
    forall i | 0 <= i < |rows|
      ensures WellFormed(rows[i]) <==> !Impossible(rows[i]) && !Invalid(rows[i])
    {
      WellFormedOrReported(rows[i]);
    }
    if issues != [] {
      var x := issues[0];
      assert x in issues;
      assert x == ImpossibleOhlc(x.row) || x == InvalidPriceOrVolume(x.row);
    }
  }

  lemma NoDuplicates(stamps: seq<int>)
    ensures Duplicates(stamps) == {} <==> forall i, j :: 0 <= i < j < |stamps| ==> stamps[i] != stamps[j]
  {
    if i, j :| 0 <= i < j < |stamps| && stamps[i] == stamps[j] {
      var t := stamps[i];
      assert stamps == stamps[..j] + [stamps[j]] + stamps[j + 1..];
      assert t in stamps[..j];
      assert multiset(stamps[..j])[t] >= 1;
      assert t in Duplicates(stamps);
    } else {
      forall t | t in stamps
        ensures multiset(stamps)[t] <= 1
      {
        OccursOnce(stamps, t);
      }
    }
  }

  lemma {:induction false} OccursOnce(stamps: seq<int>, t: int)
    requires forall i, j :: 0 <= i < j < |stamps| ==> stamps[i] != stamps[j]
    ensures multiset(stamps)[t] <= 1
    decreases |stamps|
  {
    if stamps != [] {
      var n := |stamps| - 1;
      assert stamps == stamps[..n] + [stamps[n]];
      OccursOnce(stamps[..n], t);
      if t == stamps[n] {
        assert t !in stamps[..n];
      }
    }
  }

  // ---- Walk-forward windows

  datatype Window = Window(inSampleStart: int, inSampleEnd: int, outOfSampleStart: int, outOfSampleEnd: int)

  function Days(n: int): int { n * DAY }

  /** The k-th window, stepping by whole test periods. */
  function WindowAt(start: int, train: int, test: int, k: nat): Window {
    var cursor := start + k * Days(test);
    Window(cursor, cursor + Days(train), cursor + Days(train), cursor + Days(train) + Days(test))
  }

  /** The loop ends when a step makes progress or when not even the first window fits. */
  predicate Terminates(start: int, end: int, train: int, test: int) { test > 0 || start + Days(train + test) > end }

  method BuildWalkForwardWindows(start: int, end: int, train: int, test: int) returns (windows: seq<Window>)
    requires Terminates(start, end, train, test)
    ensures forall k :: 0 <= k < |windows| ==>
      windows[k] == WindowAt(start, train, test, k) && windows[k].outOfSampleEnd <= end
    ensures WindowAt(start, train, test, |windows|).outOfSampleEnd > end
  {
    windows := [];
    var cursor := start;
    while cursor + Days(train + test) <= end
      invariant cursor == start + |windows| * Days(test)
      invariant cursor + Days(train + test) <= end ==> test > 0
      invariant forall k :: 0 <= k < |windows| ==>
        windows[k] == WindowAt(start, train, test, k) && windows[k].outOfSampleEnd <= end
      decreases end - cursor - Days(train + test)
    {
      var split := cursor + Days(train);
      windows := windows + [Window(cursor, split, split, split + Days(test))];
      Advance(|windows| - 1, Days(test));
      cursor := cursor + Days(test);
    }
  }

  lemma Advance(k: int, step: int)
    ensures (k + 1) * step == k * step + step
  {
  }

  /**
   With positive test periods the out-of-sample periods tile: each begins where the one before ends,
   after its own training data.
   */
  lemma OutOfSamplePeriodsTile(start: int, train: int, test: int, k: nat)
    ensures var w, next := WindowAt(start, train, test, k), WindowAt(start, train, test, k + 1);
      && next.outOfSampleStart == w.outOfSampleEnd
      && w.inSampleEnd == w.outOfSampleStart
      && (train >= 0 && test > 0 ==>
            w.inSampleStart <= w.inSampleEnd < w.outOfSampleEnd && w.inSampleStart < next.inSampleStart)
  {
    Advance(k, Days(test));
  }

  /** Without progress the loop condition that held once holds for ever. */
  lemma NoProgressNeverEnds(start: int, end: int, train: int, test: int, k: nat)
    requires !Terminates(start, end, train, test)
    ensures start + k * Days(test) + Days(train + test) <= end
  {
    assert Days(test) <= 0;
    var d := -Days(test);
    assert k * d >= 0;
    assert k * Days(test) == -(k * d);
  }
}
