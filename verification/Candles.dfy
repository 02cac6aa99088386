/** Candles and their aggregation; times are UTC epoch seconds. */
module Candles {
  import opened Common

  datatype Timeframe = M5 | M15 | H1 | H4 | D1 | W1

  datatype Candle = Candle(symbol: string, timeframe: Timeframe, timestamp: int,
                           open: real, high: real, low: real, close: real, volume: real)

  const DAY := 86400

  function Duration(tf: Timeframe): int {
    match tf
    case M5 => 300
    case M15 => 900
    case H1 => 3600
    case H4 => 14400
    case D1 => DAY
    case W1 => 7 * DAY
  }

  function CloseTime(c: Candle): int { c.timestamp + Duration(c.timeframe) }

  /** What the candle model's validator demands. */
  predicate WellFormed(c: Candle) {
    && 0.0 < c.low <= c.open <= c.high
    && c.low <= c.close <= c.high
    && 0.0 <= c.volume
  }

  /** Weeks start on Monday; day 0 of the epoch is a Thursday. */
  function BucketStart(moment: int, tf: Timeframe): int {
    if tf == W1 then
      var day := moment / DAY;
      (day - (day + 3) % 7) * DAY
    else
      moment - moment % Duration(tf)
  }

  function Rank(tf: Timeframe): nat {
    match tf case M5 => 0 case M15 => 1 case H1 => 2 case H4 => 3 case D1 => 4 case W1 => 5
  }

  /** Rounding down to a multiple of d first does not change rounding to one of k * d. */
  lemma FloorNests(m: int, d: int, k: int)
    requires d > 0 && k > 0
    ensures (m - m % d) - (m - m % d) % (k * d) == m - m % (k * d)
    ensures (m - m % d) / (k * d) == m / (k * d)
  {
    var n := k * d;
    assert n > 0;
    var q, r := m / n, m % n;
    var a, b := r / d, r % d;
    TwoDigits(q, a, b, d, k, r);
    assert m == (q * k + a) * d + b;
    DivMod((q * k + a) * d + b, d, q * k + a, b);
    DivMod(q * n + a * d, n, q, a * d);
  }

  lemma TwoDigits(q: int, a: int, b: int, d: int, k: int, r: int)
    requires d > 0 && k > 0 && 0 <= b < d && r == a * d + b && 0 <= r < k * d
    ensures (q * k + a) * d == q * (k * d) + a * d
    ensures 0 <= a * d <= r
  {
    assert a < 0 ==> a * d <= -d;
  }

  /** A bucket starts at or before its moment, ends after it, and is its own bucket. */
  lemma BucketContains(moment: int, tf: Timeframe)
    ensures BucketStart(moment, tf) <= moment < BucketStart(moment, tf) + Duration(tf)
    ensures BucketStart(BucketStart(moment, tf), tf) == BucketStart(moment, tf)
  {
    if tf == W1 {
      var monday := moment / DAY - (moment / DAY + 3) % 7;
      MondayIsItsOwn(moment / DAY);
      DivMod(monday * DAY, DAY, monday, 0);
    } else {
      FloorNests(moment, Duration(tf), 1);
    }
  }

  lemma MondayIsItsOwn(day: int)
    ensures var monday := day - (day + 3) % 7; (monday + 3) % 7 == 0 && monday <= day < monday + 7
  {
  }

  lemma BucketMonotone(a: int, b: int, tf: Timeframe)
    requires a <= b
    ensures BucketStart(a, tf) <= BucketStart(b, tf)
  {
    if tf == W1 {
      MondayMonotone(a / DAY, b / DAY);
    } else {
      FloorMonotone(a, b, Duration(tf));
    }
  }

  lemma FloorMonotone(a: int, b: int, d: int)
    requires a <= b && d > 0
    ensures a - a % d <= b - b % d
  {
    QuotientMonotone(a / d, a % d, b / d, b % d, d);
  }

  lemma QuotientMonotone(i: int, r: int, j: int, t: int, d: int)
    requires 0 <= r < d && 0 <= t < d
    requires i * d + r <= j * d + t
    ensures i * d <= j * d
  {
    var e := i - j;
    assert e * d == i * d - j * d;
    assert e > 0 ==> e * d >= d;
    assert e <= 0 ==> e * d <= 0;
  }

  lemma MondayMonotone(i: int, j: int)
    requires i <= j
    ensures i - (i + 3) % 7 <= j - (j + 3) % 7
  {
  }

  /** Each timeframe nests in the next one. */
  lemma BucketNestsInNext(moment: int, fine: Timeframe, coarse: Timeframe)
    requires Rank(fine) + 1 == Rank(coarse)
    ensures BucketStart(BucketStart(moment, fine), coarse) == BucketStart(moment, coarse)
  {
    if coarse == W1 {
      FloorNests(moment, DAY, 1);
    } else {
      FloorNests(moment, Duration(fine), Duration(coarse) / Duration(fine));
    }
  }

  /** Every timeframe nests in every coarser one. */
  lemma {:induction false} BucketNests(moment: int, fine: Timeframe, coarse: Timeframe)
    requires Rank(fine) <= Rank(coarse)
    ensures BucketStart(BucketStart(moment, fine), coarse) == BucketStart(moment, coarse)
    decreases Rank(coarse)
  {
    hide BucketStart;
    if fine == coarse {
      BucketContains(moment, fine);
    } else {
      var middle := [M5, M15, H1, H4, D1, W1][Rank(coarse) - 1];
      BucketNestsInNext(BucketStart(moment, fine), middle, coarse);
      BucketNests(moment, fine, middle);
      BucketNestsInNext(moment, middle, coarse);
    }
  }

  // ---- Sorting by open time: Python's stable sort

  predicate Sorted(cs: seq<Candle>) {
    forall i, j :: 0 <= i < j < |cs| ==> cs[i].timestamp <= cs[j].timestamp
  }

  function InsertByTime(c: Candle, cs: seq<Candle>): (r: seq<Candle>)
    ensures multiset(r) == multiset(cs) + multiset{c}
  {
    if cs == [] || c.timestamp <= cs[0].timestamp then [c] + cs
    else
      assert cs == [cs[0]] + cs[1..];
      [cs[0]] + InsertByTime(c, cs[1..])
  }

  function SortByTime(cs: seq<Candle>): (r: seq<Candle>)
    ensures multiset(r) == multiset(cs)
  {
    if cs == [] then []
    else
      assert cs == [cs[0]] + cs[1..];
      InsertByTime(cs[0], SortByTime(cs[1..]))
  }

  lemma {:induction false} InsertKeepsSorted(c: Candle, cs: seq<Candle>)
    requires Sorted(cs)
    ensures Sorted(InsertByTime(c, cs))
    ensures var r := InsertByTime(c, cs); r[0] == c || (cs != [] && r[0] == cs[0])
    ensures var r := InsertByTime(c, cs); r != [] && r[0].timestamp <= c.timestamp
  {
    if cs != [] && c.timestamp > cs[0].timestamp {
      InsertKeepsSorted(c, cs[1..]);
      var r := InsertByTime(c, cs[1..]);
      assert cs[0].timestamp <= r[0].timestamp;
      assert InsertByTime(c, cs) == [cs[0]] + r;
    }
  }

  lemma {:induction false} SortIsSorted(cs: seq<Candle>)
    ensures Sorted(SortByTime(cs))
  {
    if cs != [] {
      SortIsSorted(cs[1..]);
      InsertKeepsSorted(cs[0], SortByTime(cs[1..]));
    }
  }

  lemma {:induction false} SortSorted(cs: seq<Candle>)
    requires Sorted(cs)
    ensures SortByTime(cs) == cs
  {
    if cs != [] {
      SortSorted(cs[1..]);
      assert cs == [cs[0]] + cs[1..];
    }
  }

  predicate DistinctTimes(cs: seq<Candle>) {
    forall i, j :: 0 <= i < j < |cs| ==> cs[i].timestamp != cs[j].timestamp
  }

  // ---- Aggregation, specified by adding candles in front of the result

  /** The one-candle bucket. */
  function Single(c: Candle, tf: Timeframe): Candle {
    c.(timeframe := tf, timestamp := BucketStart(c.timestamp, tf))
  }

  /** The bucket of `rest` with the earlier candle `c` joined to it. */
  function Join(c: Candle, rest: Candle, tf: Timeframe): Candle {
    Candle(c.symbol, tf, rest.timestamp, c.open, Max(c.high, rest.high),
           Min(c.low, rest.low), rest.close, c.volume + rest.volume)
  }

  function Prepend(c: Candle, out: seq<Candle>, tf: Timeframe): seq<Candle> {
    if out != [] && out[0].timestamp == BucketStart(c.timestamp, tf)
    then [Join(c, out[0], tf)] + out[1..]
    else [Single(c, tf)] + out
  }

  function AggregateSorted(cs: seq<Candle>, tf: Timeframe): seq<Candle> {
    if cs == [] then [] else Prepend(cs[0], AggregateSorted(cs[1..], tf), tf)
  }

  function Aggregated(cs: seq<Candle>, tf: Timeframe): seq<Candle> {
    AggregateSorted(SortByTime(cs), tf)
  }

  // ---- The source's algorithm: group in first-seen order, then summarise each group

  datatype Group = Group(bucket: int, items: seq<Candle>)

  function Highest(items: seq<Candle>): real
    requires items != []
  {
    if |items| == 1 then items[0].high else Max(items[0].high, Highest(items[1..]))
  }

  function Lowest(items: seq<Candle>): real
    requires items != []
  {
    if |items| == 1 then items[0].low else Min(items[0].low, Lowest(items[1..]))
  }

  function Volume(c: Candle): real { c.volume }

  function Summary(g: Group, tf: Timeframe): Candle
    requires g.items != []
  {
    Candle(g.items[0].symbol, tf, g.bucket, g.items[0].open, Highest(g.items), Lowest(g.items),
           g.items[|g.items| - 1].close, SumBy(Volume, g.items))
  }

  function Flatten(groups: seq<Group>): seq<Candle> {
    if groups == [] then [] else groups[0].items + Flatten(groups[1..])
  }

  predicate InBucket(g: Group, tf: Timeframe) {
    && g.items != []
    && forall i :: 0 <= i < |g.items| ==> BucketStart(g.items[i].timestamp, tf) == g.bucket
  }

  ghost predicate Grouped(groups: seq<Group>, tf: Timeframe) {
    && (forall i :: 0 <= i < |groups| ==> InBucket(groups[i], tf))
    && forall i, j :: 0 <= i < j < |groups| ==> groups[i].bucket < groups[j].bucket
  }

  function Summaries(groups: seq<Group>, tf: Timeframe): (r: seq<Candle>)
    requires forall i :: 0 <= i < |groups| ==> groups[i].items != []
    ensures |r| == |groups| && forall i :: 0 <= i < |groups| ==> r[i] == Summary(groups[i], tf)
  {
    if groups == [] then [] else [Summary(groups[0], tf)] + Summaries(groups[1..], tf)
  }

  lemma {:induction false} FlattenAppend(a: seq<Group>, b: seq<Group>)
    ensures Flatten(a + b) == Flatten(a) + Flatten(b)
  {
    if a == [] {
      assert a + b == b;
    } else {
      assert (a + b)[1..] == a[1..] + b;
      FlattenAppend(a[1..], b);
    }
  }

  /** One whole group in front of an aggregate of later buckets gives its summary. */
  lemma {:induction false} AggregateGroup(g: Group, rest: seq<Candle>, tf: Timeframe)
    requires InBucket(g, tf)
    requires var out := AggregateSorted(rest, tf); out == [] || out[0].timestamp != g.bucket
    ensures AggregateSorted(g.items + rest, tf) == [Summary(g, tf)] + AggregateSorted(rest, tf)
    decreases |g.items|
  {
    hide BucketStart, SumBy, Highest, Lowest;
    var all := g.items + rest;
    assert all[1..] == g.items[1..] + rest;
    assert AggregateSorted(all, tf) == Prepend(g.items[0], AggregateSorted(all[1..], tf), tf);
    SummaryUnfolds(g, tf);
    if |g.items| == 1 {
      assert all[1..] == rest;
    } else {
      AggregateGroup(Group(g.bucket, g.items[1..]), rest, tf);
    }
  }

  lemma SummaryUnfolds(g: Group, tf: Timeframe)
    requires InBucket(g, tf)
    ensures |g.items| == 1 ==> Summary(g, tf) == Single(g.items[0], tf)
    ensures |g.items| > 1 ==>
      Summary(g, tf) == Join(g.items[0], Summary(Group(g.bucket, g.items[1..]), tf), tf)
  {
    hide BucketStart;
    if |g.items| == 1 {
      assert g.items[1..] == [];
      assert SumBy(Volume, g.items) == g.items[0].volume + SumBy(Volume, []);
    }
  }

  /** Summaries of any correct grouping are the specified aggregate. */
  lemma {:induction false} SummariesAggregate(groups: seq<Group>, tf: Timeframe)
    requires Grouped(groups, tf)
    ensures Summaries(groups, tf) == AggregateSorted(Flatten(groups), tf)
    decreases |groups|
  {
    hide BucketStart;
    if groups != [] {
      var rest := groups[1..];
      SummariesAggregate(rest, tf);
      if rest != [] {
        assert Summaries(rest, tf)[0] == Summary(rest[0], tf);
      }
      AggregateGroup(groups[0], Flatten(rest), tf);
    }
  }

  /** Position of a bucket in the ordered dictionary, or its length. */
  function Find(groups: seq<Group>, bucket: int): (i: nat)
    ensures i <= |groups|
    ensures i < |groups| ==> groups[i].bucket == bucket
    ensures forall k :: 0 <= k < i ==> groups[k].bucket != bucket
  {
    if groups == [] || groups[0].bucket == bucket then 0 else 1 + Find(groups[1..], bucket)
  }

  /** `groups.setdefault(bucket, []).append(candle)`. */
  function AddTo(groups: seq<Group>, bucket: int, candle: Candle): seq<Group> {
    var i := Find(groups, bucket);
    if i < |groups| then groups[i := Group(bucket, groups[i].items + [candle])]
    else groups + [Group(bucket, [candle])]
  }

  lemma AddToFlattens(groups: seq<Group>, bucket: int, candle: Candle)
    requires groups == [] || Find(groups, bucket) >= |groups| - 1
    ensures Flatten(AddTo(groups, bucket, candle)) == Flatten(groups) + [candle]
  {
    var i := Find(groups, bucket);
    var added := if i < |groups| then Group(bucket, groups[i].items + [candle]) else Group(bucket, [candle]);
    FlattenAppend(groups[..i], [added]);
    FlattenOne(added);
    assert AddTo(groups, bucket, candle) == groups[..i] + [added];
    if i < |groups| {
      FlattenOne(groups[i]);
      FlattenAppend(groups[..i], [groups[i]]);
      assert groups == groups[..i] + [groups[i]];
    } else {
      assert groups == groups[..i];
    }
  }

  lemma FlattenOne(g: Group)
    ensures Flatten([g]) == g.items
  {
    assert [g][1..] == [];
  }

  /** A candle no earlier than the last bucket joins it or opens a later one. */
  lemma AddToGrouped(groups: seq<Group>, bucket: int, candle: Candle, tf: Timeframe)
    requires Grouped(groups, tf)
    requires bucket == BucketStart(candle.timestamp, tf)
    requires groups != [] ==> groups[|groups| - 1].bucket <= bucket
    ensures groups == [] || Find(groups, bucket) >= |groups| - 1
    ensures Grouped(AddTo(groups, bucket, candle), tf)
    ensures var r := AddTo(groups, bucket, candle); r != [] && r[|r| - 1].bucket == bucket
  {
    hide BucketStart, Find;
    var i, r := Find(groups, bucket), AddTo(groups, bucket, candle);
    assert forall k :: 0 <= k < |groups| - 1 ==> groups[k].bucket < bucket;
    if i < |groups| {
      assert r == groups[..i] + [r[i]];
    }
    assert InBucket(r[|r| - 1], tf);
  }

  /** The grouping of the first n sorted candles. */
  ghost predicate GroupsPrefix(groups: seq<Group>, sorted: seq<Candle>, n: nat, tf: Timeframe) {
    && n <= |sorted|
    && Grouped(groups, tf)
    && Flatten(groups) == sorted[..n]
    && (groups == [] <==> n == 0)
    && (n > 0 ==> groups[|groups| - 1].bucket == BucketStart(sorted[n - 1].timestamp, tf))
  }

  lemma GroupsStart(sorted: seq<Candle>, tf: Timeframe)
    ensures GroupsPrefix([], sorted, 0, tf)
  {
  }

  lemma GroupsExtend(groups: seq<Group>, sorted: seq<Candle>, n: nat, tf: Timeframe)
    requires GroupsPrefix(groups, sorted, n, tf) && n < |sorted| && Sorted(sorted)
    ensures GroupsPrefix(AddTo(groups, BucketStart(sorted[n].timestamp, tf), sorted[n]), sorted, n + 1, tf)
  {
    hide BucketStart;
    var bucket := BucketStart(sorted[n].timestamp, tf);
    if n > 0 {
      BucketMonotone(sorted[n - 1].timestamp, sorted[n].timestamp, tf);
    }
    AddToGrouped(groups, bucket, sorted[n], tf);
    AddToFlattens(groups, bucket, sorted[n]);
    assert sorted[..n + 1] == sorted[..n] + [sorted[n]];
  }

  method Aggregate(candles: seq<Candle>, tf: Timeframe) returns (result: seq<Candle>)
    ensures result == Aggregated(candles, tf)
  {
    hide BucketStart, Flatten, AddTo, Find, Summaries, AggregateSorted, SortByTime;
    var sorted := SortByTime(candles);
    SortIsSorted(candles);
    var groups: seq<Group> := [];
    GroupsStart(sorted, tf);
    for n := 0 to |sorted|
      invariant GroupsPrefix(groups, sorted, n, tf)
    {
      GroupsExtend(groups, sorted, n, tf);
      groups := AddTo(groups, BucketStart(sorted[n].timestamp, tf), sorted[n]);
    }
    assert sorted[..|sorted|] == sorted;
    SummariesAggregate(groups, tf);
    result := Summarise(groups, tf);
  }

  method Summarise(groups: seq<Group>, tf: Timeframe) returns (result: seq<Candle>)
    requires forall i :: 0 <= i < |groups| ==> groups[i].items != []
    ensures result == Summaries(groups, tf)
  {
    hide Summary, Summaries;
    result := [];
    for n := 0 to |groups|
      invariant |result| == n && forall i :: 0 <= i < n ==> result[i] == Summary(groups[i], tf)
    {
      result := result + [Summary(groups[n], tf)];
    }
  }

  // ---- Properties of the result

  predicate StrictlyOrdered(out: seq<Candle>) {
    forall i, j :: 0 <= i < j < |out| ==> out[i].timestamp < out[j].timestamp
  }

  predicate OnGrid(out: seq<Candle>, tf: Timeframe) {
    forall i :: 0 <= i < |out| ==> out[i].timeframe == tf && BucketStart(out[i].timestamp, tf) == out[i].timestamp
  }

  lemma PrependOrdered(c: Candle, out: seq<Candle>, tf: Timeframe)
    requires StrictlyOrdered(out) && OnGrid(out, tf)
    requires out != [] ==> BucketStart(c.timestamp, tf) <= out[0].timestamp
    ensures StrictlyOrdered(Prepend(c, out, tf)) && OnGrid(Prepend(c, out, tf), tf)
    ensures Prepend(c, out, tf)[0].timestamp == BucketStart(c.timestamp, tf)
  {
    hide BucketStart;
    BucketContains(c.timestamp, tf);
  }

  /** The first output bucket is that of the first input; buckets rise strictly. */
  lemma {:induction false} AggregateOrdered(cs: seq<Candle>, tf: Timeframe)
    requires Sorted(cs)
    ensures var out := AggregateSorted(cs, tf);
      && (cs == [] <==> out == [])
      && (cs != [] ==> out[0].timestamp == BucketStart(cs[0].timestamp, tf))
      && StrictlyOrdered(out) && OnGrid(out, tf)
  {
    hide BucketStart;
    if cs != [] {
      AggregateOrdered(cs[1..], tf);
      if |cs| > 1 {
        BucketMonotone(cs[0].timestamp, cs[1].timestamp, tf);
      }
      PrependOrdered(cs[0], AggregateSorted(cs[1..], tf), tf);
    }
  }

  /** Output is strictly ordered and aligned to its own grid. */
  lemma AggregateIsOrderedAndAligned(cs: seq<Candle>, tf: Timeframe)
    ensures StrictlyOrdered(Aggregated(cs, tf)) && OnGrid(Aggregated(cs, tf), tf)
  {
    hide BucketStart;
    SortIsSorted(cs);
    AggregateOrdered(SortByTime(cs), tf);
  }

  lemma {:induction false} SortVolume(cs: seq<Candle>)
    ensures SumBy(Volume, SortByTime(cs)) == SumBy(Volume, cs)
  {
    if cs != [] {
      SortVolume(cs[1..]);
      InsertVolume(cs[0], SortByTime(cs[1..]));
    }
  }

  lemma {:induction false} InsertVolume(c: Candle, cs: seq<Candle>)
    ensures SumBy(Volume, InsertByTime(c, cs)) == c.volume + SumBy(Volume, cs)
  {
    if cs == [] || c.timestamp <= cs[0].timestamp {
      assert ([c] + cs)[1..] == cs;
    } else {
      InsertVolume(c, cs[1..]);
      assert InsertByTime(c, cs)[1..] == InsertByTime(c, cs[1..]);
    }
  }

  lemma {:induction false} AggregateSortedVolume(cs: seq<Candle>, tf: Timeframe)
    ensures SumBy(Volume, AggregateSorted(cs, tf)) == SumBy(Volume, cs)
  {
    hide BucketStart;
    if cs != [] {
      AggregateSortedVolume(cs[1..], tf);
      var out := AggregateSorted(cs[1..], tf);
      var r := Prepend(cs[0], out, tf);
      if out != [] && out[0].timestamp == BucketStart(cs[0].timestamp, tf) {
        assert r[1..] == out[1..];
      } else {
        assert r[1..] == out;
      }
    }
  }

  /** No volume is lost or invented. */
  lemma AggregatePreservesVolume(cs: seq<Candle>, tf: Timeframe)
    ensures SumBy(Volume, Aggregated(cs, tf)) == SumBy(Volume, cs)
  {
    hide BucketStart;
    SortVolume(cs);
    AggregateSortedVolume(SortByTime(cs), tf);
  }

  predicate AllWellFormed(cs: seq<Candle>) {
    forall i :: 0 <= i < |cs| ==> WellFormed(cs[i])
  }

  lemma PrependWellFormed(c: Candle, out: seq<Candle>, tf: Timeframe)
    requires WellFormed(c) && AllWellFormed(out)
    ensures AllWellFormed(Prepend(c, out, tf))
  {
    hide BucketStart;
    if out != [] {
      assert WellFormed(out[0]);
      assert WellFormed(Join(c, out[0], tf));
    }
    assert WellFormed(Single(c, tf));
  }

  lemma {:induction false} AggregateSortedWellFormed(cs: seq<Candle>, tf: Timeframe)
    requires AllWellFormed(cs)
    ensures AllWellFormed(AggregateSorted(cs, tf))
  {
    hide BucketStart;
    if cs != [] {
      AggregateSortedWellFormed(cs[1..], tf);
      PrependWellFormed(cs[0], AggregateSorted(cs[1..], tf), tf);
    }
  }

  /** The result's own validation can never fail: low <= open, close <= high again. */
  lemma AggregateWellFormed(cs: seq<Candle>, tf: Timeframe)
    requires AllWellFormed(cs)
    ensures AllWellFormed(Aggregated(cs, tf))
  {
    hide BucketStart;
    var sorted := SortByTime(cs);
    forall i | 0 <= i < |sorted|
      ensures WellFormed(sorted[i])
    {
      assert sorted[i] in multiset(sorted) && sorted[i] in multiset(cs);
    }
    AggregateSortedWellFormed(SortByTime(cs), tf);
  }

  /** Prepending a merged fine bucket equals prepending its two parts. */
  lemma PrependParts(c: Candle, inner: Candle, out: seq<Candle>, fine: Timeframe, coarse: Timeframe)
    requires Rank(fine) <= Rank(coarse)
    requires inner.timestamp == BucketStart(c.timestamp, fine)
    ensures Prepend(Join(c, inner, fine), out, coarse) == Prepend(c, Prepend(inner, out, coarse), coarse)
  {
    hide BucketStart;
    BucketNests(c.timestamp, fine, coarse);
    if out != [] && out[0].timestamp == BucketStart(inner.timestamp, coarse) {
      assert Prepend(inner, out, coarse)[1..] == out[1..];
    } else {
      assert Prepend(inner, out, coarse)[1..] == out;
    }
  }

  /** Aggregating coarsely after a fine prepend is a coarse prepend. */
  lemma AggregatePrepended(c: Candle, out: seq<Candle>, fine: Timeframe, coarse: Timeframe)
    requires Rank(fine) <= Rank(coarse)
    ensures AggregateSorted(Prepend(c, out, fine), coarse) == Prepend(c, AggregateSorted(out, coarse), coarse)
  {
    hide BucketStart;
    var r := Prepend(c, out, fine);
    if out != [] && out[0].timestamp == BucketStart(c.timestamp, fine) {
      assert r[1..] == out[1..];
      PrependParts(c, out[0], AggregateSorted(out[1..], coarse), fine, coarse);
    } else {
      BucketNests(c.timestamp, fine, coarse);
      assert r[1..] == out;
    }
  }

  lemma {:induction false} AggregateSortedComposes(cs: seq<Candle>, fine: Timeframe, coarse: Timeframe)
    requires Rank(fine) <= Rank(coarse)
    ensures AggregateSorted(AggregateSorted(cs, fine), coarse) == AggregateSorted(cs, coarse)
  {
    hide BucketStart;
    if cs != [] {
      var c, out := cs[0], AggregateSorted(cs[1..], fine);
      AggregateSortedComposes(cs[1..], fine, coarse);
      AggregatePrepended(c, out, fine, coarse);
    }
  }

  /** Aggregating in two nested steps is aggregating once. */
  lemma AggregateComposes(cs: seq<Candle>, fine: Timeframe, coarse: Timeframe)
    requires Rank(fine) <= Rank(coarse)
    ensures Aggregated(Aggregated(cs, fine), coarse) == Aggregated(cs, coarse)
  {
    hide BucketStart;
    var sorted := SortByTime(cs);
    SortIsSorted(cs);
    AggregateOrdered(sorted, fine);
    SortSorted(AggregateSorted(sorted, fine));
    AggregateSortedComposes(sorted, fine, coarse);
  }

  lemma HeadsAgree(a: seq<Candle>, b: seq<Candle>)
    requires a != [] && b != [] && Sorted(a) && Sorted(b) && DistinctTimes(a)
    requires multiset(a) == multiset(b)
    ensures a[0] == b[0]
  {
    assert a[0] in multiset(b) && b[0] in multiset(a);
    var i :| 0 <= i < |b| && b[i] == a[0];
    var j :| 0 <= j < |a| && a[j] == b[0];
    assert b[0].timestamp <= b[i].timestamp && a[0].timestamp <= a[j].timestamp;
    assert a[0].timestamp == a[j].timestamp;
  }

  lemma TailMultiset(a: seq<Candle>)
    requires a != []
    ensures multiset(a[1..]) == multiset(a) - multiset{a[0]}
  {
    assert a == [a[0]] + a[1..];
  }

  lemma {:induction false} SortedPermutationUnique(a: seq<Candle>, b: seq<Candle>)
    requires Sorted(a) && Sorted(b) && DistinctTimes(a) && DistinctTimes(b)
    requires multiset(a) == multiset(b)
    ensures a == b
  {
    if a == [] || b == [] {
      assert |a| == |multiset(a)| == |multiset(b)| == |b|;
    } else {
      HeadsAgree(a, b);
      TailMultiset(a);
      TailMultiset(b);
      SortedPermutationUnique(a[1..], b[1..]);
    }
  }

  lemma CountsTwice(b: seq<Candle>, i: nat, j: nat)
    requires i < j < |b| && b[i] == b[j]
    ensures multiset(b)[b[i]] >= 2
  {
    assert b == b[..j] + b[j..];
    assert b[i] in b[..j] && b[j] in b[j..];
  }

  lemma CountsOnce(a: seq<Candle>, k: nat)
    requires k < |a| && DistinctTimes(a)
    ensures multiset(a)[a[k]] == 1
  {
    assert a == a[..k] + ([a[k]] + a[k + 1..]);
    assert a[k] !in a[..k] && a[k] !in a[k + 1..];
  }

  /** A permutation of a list with distinct times has distinct times. */
  lemma DistinctPermutation(a: seq<Candle>, b: seq<Candle>)
    requires DistinctTimes(a) && multiset(a) == multiset(b)
    ensures DistinctTimes(b)
  {
    forall i, j | 0 <= i < j < |b|
      ensures b[i].timestamp != b[j].timestamp
    {
      assert b[i] in multiset(b) && b[j] in multiset(b);
      var k :| 0 <= k < |a| && a[k] == b[i];
      CountsOnce(a, k);
      if b[i] == b[j] {
        CountsTwice(b, i, j);
      }
    }
  }

  /** The order in which candles with distinct times arrive does not matter. */
  lemma AggregatePermutation(xs: seq<Candle>, ys: seq<Candle>, tf: Timeframe)
    requires multiset(xs) == multiset(ys)
    requires DistinctTimes(xs)
    ensures Aggregated(xs, tf) == Aggregated(ys, tf)
  {
    hide BucketStart;
    DistinctPermutation(xs, SortByTime(xs));
    DistinctPermutation(xs, SortByTime(ys));
    SortIsSorted(xs);
    SortIsSorted(ys);
    SortedPermutationUnique(SortByTime(xs), SortByTime(ys));
  }
}
