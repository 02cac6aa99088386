/** Which input candles each aggregated candle is made of, and what it takes from them. */
module CandleSources {
  import opened Common
  import opened Candles

  /** The moment lies in the period of the output candle. */
  predicate Covers(o: Candle, moment: int) { o.timestamp <= moment < o.timestamp + Duration(o.timeframe) }

  // ---- Buckets as periods

  lemma GridApart(a: int, b: int, tf: Timeframe)
    requires BucketStart(a, tf) == a && BucketStart(b, tf) == b && a < b
    ensures a + Duration(tf) <= b
  {
    if tf == W1 {
      MondayIsItsOwn(a / DAY);
      MondayIsItsOwn(b / DAY);
      WeeksApart(a / DAY - (a / DAY + 3) % 7, b / DAY - (b / DAY + 3) % 7);
    } else {
      var d := Duration(tf);
      MultiplesApart(a, b, a / d, b / d, d);
    }
  }

  lemma WeeksApart(i: int, j: int)
    requires (i + 3) % 7 == 0 && (j + 3) % 7 == 0 && i * DAY < j * DAY
    ensures i * DAY + 7 * DAY <= j * DAY
  {
  }

  lemma MultiplesApart(a: int, b: int, i: int, j: int, d: int)
    requires d > 0 && a == i * d && b == j * d && a < b
    ensures a + d <= b
  {
    var e := j - i;
    assert e * d == b - a;
    assert e <= 0 ==> e * d <= 0;
    assert (e - 1) * d == e * d - d;
    assert e >= 1 ==> (e - 1) * d >= 0;
  }

  /** On the grid, the period that covers a moment is its bucket. */
  lemma CoversExactly(o: Candle, moment: int, tf: Timeframe)
    requires o.timeframe == tf && BucketStart(o.timestamp, tf) == o.timestamp
    ensures Covers(o, moment) <==> BucketStart(moment, tf) == o.timestamp
  {
    hide BucketStart;
    BucketContains(moment, tf);
    var start := BucketStart(moment, tf);
    if start < o.timestamp {
      GridApart(start, o.timestamp, tf);
    } else if start > o.timestamp {
      GridApart(o.timestamp, start, tf);
    }
  }

  // ---- The earliest and the latest candle of a period, ties in order of arrival

  predicate In(c: Candle, start: int, tf: Timeframe) { BucketStart(c.timestamp, tf) == start }

  function Earliest(cs: seq<Candle>, start: int, tf: Timeframe): Option<Candle> {
    if cs == [] then None
    else
      var e := Earliest(cs[1..], start, tf);
      if In(cs[0], start, tf) && (e.None? || cs[0].timestamp <= e.value.timestamp) then Some(cs[0]) else e
  }

  function Latest(cs: seq<Candle>, start: int, tf: Timeframe): Option<Candle> {
    if cs == [] then None
    else
      var l := Latest(cs[1..], start, tf);
      if In(cs[0], start, tf) && (l.None? || cs[0].timestamp > l.value.timestamp) then Some(cs[0]) else l
  }

  function VolumeIn(start: int, tf: Timeframe): Candle -> real {
    (c: Candle) => if In(c, start, tf) then c.volume else 0.0
  }

  /** What one output takes from the candles of its bucket. */
  ghost predicate Built(cs: seq<Candle>, o: Candle, tf: Timeframe) {
    var e, l := Earliest(cs, o.timestamp, tf), Latest(cs, o.timestamp, tf);
    && e.Some? && l.Some?
    && o.symbol == e.value.symbol && o.open == e.value.open && o.close == l.value.close
    && (exists c <- cs :: In(c, o.timestamp, tf) && c.high == o.high)
    && (exists c <- cs :: In(c, o.timestamp, tf) && c.low == o.low)
    && (forall c <- cs :: In(c, o.timestamp, tf) ==> o.low <= c.low && c.high <= o.high)
    && o.volume == SumBy(VolumeIn(o.timestamp, tf), cs)
  }

  ghost predicate AllBuilt(cs: seq<Candle>, out: seq<Candle>, tf: Timeframe) {
    && (forall o <- out :: Built(cs, o, tf))
    && (forall c <- cs :: exists o :: o in out && In(c, o.timestamp, tf))
  }

  // ---- Sorted input

  lemma {:induction false} NoneIn(cs: seq<Candle>, start: int, tf: Timeframe)
    requires forall c <- cs :: !In(c, start, tf)
    ensures Earliest(cs, start, tf) == None && Latest(cs, start, tf) == None && SumBy(VolumeIn(start, tf), cs) == 0.0
  {
    hide In;
    if cs != [] {
      assert cs[0] in cs;
      NoneIn(cs[1..], start, tf);
    }
  }

  lemma {:induction false} EarliestMember(cs: seq<Candle>, start: int, tf: Timeframe)
    ensures var e := Earliest(cs, start, tf); e.Some? ==> e.value in cs
    ensures var l := Latest(cs, start, tf); l.Some? ==> l.value in cs
  {
    hide In;
    if cs != [] {
      EarliestMember(cs[1..], start, tf);
    }
  }

  lemma BuiltAside(c: Candle, cs: seq<Candle>, o: Candle, tf: Timeframe)
    requires Built(cs, o, tf) && !In(c, o.timestamp, tf)
    ensures Built([c] + cs, o, tf)
  {
    hide In, SumBy;
    assert ([c] + cs)[1..] == cs;
    SumByCons(VolumeIn(o.timestamp, tf), c, cs);
  }

  lemma SumByCons(f: Candle -> real, c: Candle, cs: seq<Candle>)
    ensures SumBy(f, [c] + cs) == f(c) + SumBy(f, cs)
  {
    assert ([c] + cs)[1..] == cs;
  }

  lemma BuiltJoin(c: Candle, cs: seq<Candle>, o: Candle, tf: Timeframe)
    requires Built(cs, o, tf) && In(c, o.timestamp, tf) && forall x <- cs :: c.timestamp <= x.timestamp
    ensures Built([c] + cs, Join(c, o, tf), tf)
  {
    hide In, SumBy;
    var all, j := [c] + cs, Join(c, o, tf);
    assert all[1..] == cs && all[0] == c;
    SumByCons(VolumeIn(o.timestamp, tf), c, cs);
    EarliestMember(cs, o.timestamp, tf);
    var h :| h in cs && In(h, o.timestamp, tf) && h.high == o.high;
    var l :| l in cs && In(l, o.timestamp, tf) && l.low == o.low;
    assert c in all && h in all && l in all;
    assert forall x <- all :: x == c || x in cs;
  }

  lemma BuiltSingle(c: Candle, cs: seq<Candle>, tf: Timeframe)
    requires forall x <- cs :: !In(x, BucketStart(c.timestamp, tf), tf)
    ensures Built([c] + cs, Single(c, tf), tf)
  {
    hide BucketStart, SumBy;
    var all, start := [c] + cs, BucketStart(c.timestamp, tf);
    assert all[1..] == cs && all[0] == c && c in all;
    NoneIn(cs, start, tf);
    SumByCons(VolumeIn(start, tf), c, cs);
    assert forall x <- all :: x == c || x in cs;
  }

  lemma {:induction false} SortedBuilt(cs: seq<Candle>, tf: Timeframe)
    requires Sorted(cs)
    ensures AllBuilt(cs, AggregateSorted(cs, tf), tf)
  {
    hide BucketStart, Built, Prepend, In;
    if cs != [] {
      var c, rest, inner := cs[0], cs[1..], AggregateSorted(cs[1..], tf);
      SortedBuilt(rest, tf);
      AggregateOrdered(rest, tf);
      if rest != [] {
        assert rest[0] == cs[1];
        BucketMonotone(c.timestamp, rest[0].timestamp, tf);
      }
      assert cs == [c] + rest;
      assert forall x <- rest :: c.timestamp <= x.timestamp by {
        assert forall k :: 0 <= k < |rest| ==> rest[k] == cs[k + 1];
      }
      PrependBuilt(c, rest, inner, tf);
      CoverAll(c, rest, inner, Prepend(c, inner, tf), tf);
    }
  }

  /** Joining the first output, or opening a new one, leaves every output built from the longer input. */
  lemma PrependBuilt(c: Candle, rest: seq<Candle>, inner: seq<Candle>, tf: Timeframe)
    requires AllBuilt(rest, inner, tf) && StrictlyOrdered(inner) && forall x <- rest :: c.timestamp <= x.timestamp
    requires inner != [] ==> BucketStart(c.timestamp, tf) <= inner[0].timestamp
    ensures forall o <- Prepend(c, inner, tf) :: Built([c] + rest, o, tf)
  {
    hide BucketStart, Built, Join, Single;
    var out, start := Prepend(c, inner, tf), BucketStart(c.timestamp, tf);
    var joined := inner != [] && inner[0].timestamp == start;
    if joined {
      BuiltJoin(c, rest, inner[0], tf);
    } else {
      BuiltSingle(c, rest, tf);
    }
    forall k | 0 < k < |out|
      ensures Built([c] + rest, out[k], tf)
    {
      var m := if joined then k else k - 1;
      assert inner[m] == out[k] && inner[m] in inner;
      BuiltAside(c, rest, out[k], tf);
    }
  }

  lemma CoverAll(c: Candle, rest: seq<Candle>, inner: seq<Candle>, out: seq<Candle>, tf: Timeframe)
    requires out == Prepend(c, inner, tf)
    requires forall x <- rest :: exists o :: o in inner && In(x, o.timestamp, tf)
    ensures forall x <- [c] + rest :: exists o :: o in out && In(x, o.timestamp, tf)
  {
    hide BucketStart;
    forall x | x in [c] + rest
      ensures exists o :: o in out && In(x, o.timestamp, tf)
    {
      if x == c {
        assert out[0] in out && In(c, out[0].timestamp, tf);
      } else {
        var o :| o in inner && In(x, o.timestamp, tf);
        var k :| 0 <= k < |inner| && inner[k] == o;
        if inner[0].timestamp == BucketStart(c.timestamp, tf) {
          assert out[k].timestamp == o.timestamp && out[k] in out;
        } else {
          assert out[k + 1] == o;
        }
      }
    }
  }

  // ---- Sorting keeps what is earliest and latest

  lemma SwapDistinct(a: Candle, b: Candle, cs: seq<Candle>, start: int, tf: Timeframe)
    requires a.timestamp != b.timestamp
    ensures Earliest([a] + ([b] + cs), start, tf) == Earliest([b] + ([a] + cs), start, tf)
    ensures Latest([a] + ([b] + cs), start, tf) == Latest([b] + ([a] + cs), start, tf)
  {
    hide In;
    assert ([a] + ([b] + cs))[1..] == [b] + cs && ([b] + cs)[1..] == cs;
    assert ([b] + ([a] + cs))[1..] == [a] + cs && ([a] + cs)[1..] == cs;
  }

  lemma SameTail(c: Candle, a: seq<Candle>, b: seq<Candle>, start: int, tf: Timeframe)
    requires Earliest(a, start, tf) == Earliest(b, start, tf) && Latest(a, start, tf) == Latest(b, start, tf)
    ensures Earliest([c] + a, start, tf) == Earliest([c] + b, start, tf)
    ensures Latest([c] + a, start, tf) == Latest([c] + b, start, tf)
  {
    hide In;
    assert ([c] + a)[1..] == a && ([c] + b)[1..] == b;
  }

  lemma {:induction false} InsertSame(c: Candle, cs: seq<Candle>, start: int, tf: Timeframe)
    ensures Earliest(InsertByTime(c, cs), start, tf) == Earliest([c] + cs, start, tf)
    ensures Latest(InsertByTime(c, cs), start, tf) == Latest([c] + cs, start, tf)
  {
    hide Earliest, Latest;
    if cs != [] && c.timestamp > cs[0].timestamp {
      InsertSame(c, cs[1..], start, tf);
      SameTail(cs[0], InsertByTime(c, cs[1..]), [c] + cs[1..], start, tf);
      SwapDistinct(c, cs[0], cs[1..], start, tf);
      assert cs == [cs[0]] + cs[1..];
    }
  }

  lemma {:induction false} SortSame(cs: seq<Candle>, start: int, tf: Timeframe)
    ensures Earliest(SortByTime(cs), start, tf) == Earliest(cs, start, tf)
    ensures Latest(SortByTime(cs), start, tf) == Latest(cs, start, tf)
    ensures SumBy(VolumeIn(start, tf), SortByTime(cs)) == SumBy(VolumeIn(start, tf), cs)
  {
    hide Earliest, Latest;
    if cs != [] {
      SortSame(cs[1..], start, tf);
      InsertSame(cs[0], SortByTime(cs[1..]), start, tf);
      SameTail(cs[0], SortByTime(cs[1..]), cs[1..], start, tf);
      InsertSum(VolumeIn(start, tf), cs[0], SortByTime(cs[1..]));
      assert cs == [cs[0]] + cs[1..];
    }
  }

  lemma {:induction false} InsertSum(f: Candle -> real, c: Candle, cs: seq<Candle>)
    ensures SumBy(f, InsertByTime(c, cs)) == f(c) + SumBy(f, cs)
  {
    if cs == [] || c.timestamp <= cs[0].timestamp {
      SumByCons(f, c, cs);
    } else {
      InsertSum(f, c, cs[1..]);
      SumByCons(f, cs[0], InsertByTime(c, cs[1..]));
    }
  }

  lemma SortMembers(cs: seq<Candle>)
    ensures forall c :: c in SortByTime(cs) <==> c in cs
  {
    hide SortByTime;
    forall c
      ensures c in SortByTime(cs) <==> c in cs
    {
      assert c in multiset(SortByTime(cs)) <==> c in multiset(cs);
    }
  }

  // ---- Positions in the input

  /** Index of the first candle to arrive among those with the earliest time in the period. */
  ghost predicate IsEarliest(cs: seq<Candle>, o: Candle, i: int) {
    && 0 <= i < |cs| && Covers(o, cs[i].timestamp)
    && forall j :: 0 <= j < |cs| && Covers(o, cs[j].timestamp) ==>
         cs[i].timestamp < cs[j].timestamp || (cs[i].timestamp == cs[j].timestamp && i <= j)
  }

  /** Index of the last candle to arrive among those with the latest time in the period. */
  ghost predicate IsLatest(cs: seq<Candle>, o: Candle, i: int) {
    && 0 <= i < |cs| && Covers(o, cs[i].timestamp)
    && forall j :: 0 <= j < |cs| && Covers(o, cs[j].timestamp) ==>
         cs[j].timestamp < cs[i].timestamp || (cs[j].timestamp == cs[i].timestamp && j <= i)
  }

  lemma {:induction false} EarliestAt(cs: seq<Candle>, o: Candle, tf: Timeframe) returns (i: nat)
    requires o.timeframe == tf && BucketStart(o.timestamp, tf) == o.timestamp
    requires Earliest(cs, o.timestamp, tf).Some?
    ensures IsEarliest(cs, o, i) && cs[i] == Earliest(cs, o.timestamp, tf).value
  {
    hide BucketStart;
    var rest := Earliest(cs[1..], o.timestamp, tf);
    CoversExactly(o, cs[0].timestamp, tf);
    if rest.None? {
      i := 0;
      NoneCovered(cs[1..], o, tf);
      assert forall j :: 0 < j < |cs| ==> cs[j] == cs[1..][j - 1];
    } else {
      var k := EarliestAt(cs[1..], o, tf);
      i := if Earliest(cs, o.timestamp, tf) == Some(cs[0]) && In(cs[0], o.timestamp, tf)
              && cs[0].timestamp <= rest.value.timestamp then 0 else k + 1;
      assert forall j :: 0 < j < |cs| ==> cs[j] == cs[1..][j - 1];
    }
  }

  lemma {:induction false} LatestAt(cs: seq<Candle>, o: Candle, tf: Timeframe) returns (i: nat)
    requires o.timeframe == tf && BucketStart(o.timestamp, tf) == o.timestamp
    requires Latest(cs, o.timestamp, tf).Some?
    ensures IsLatest(cs, o, i) && cs[i] == Latest(cs, o.timestamp, tf).value
  {
    hide BucketStart;
    var rest := Latest(cs[1..], o.timestamp, tf);
    CoversExactly(o, cs[0].timestamp, tf);
    assert forall j :: 0 < j < |cs| ==> cs[j] == cs[1..][j - 1];
    if rest.None? {
      i := 0;
      NoneCovered(cs[1..], o, tf);
    } else {
      var k := LatestAt(cs[1..], o, tf);
      i := if In(cs[0], o.timestamp, tf) && cs[0].timestamp > rest.value.timestamp then 0 else k + 1;
    }
  }

  lemma {:induction false} NoneCovered(cs: seq<Candle>, o: Candle, tf: Timeframe)
    requires o.timeframe == tf && BucketStart(o.timestamp, tf) == o.timestamp
    requires Earliest(cs, o.timestamp, tf).None? || Latest(cs, o.timestamp, tf).None?
    ensures forall j :: 0 <= j < |cs| ==> !Covers(o, cs[j].timestamp)
  {
    hide BucketStart;
    if cs != [] {
      CoversExactly(o, cs[0].timestamp, tf);
      NoneCovered(cs[1..], o, tf);
      assert forall j :: 0 < j < |cs| ==> cs[j] == cs[1..][j - 1];
    }
  }

  function CoveredVolume(o: Candle): Candle -> real {
    (c: Candle) => if Covers(o, c.timestamp) then c.volume else 0.0
  }

  lemma {:induction false} SameVolume(cs: seq<Candle>, o: Candle, tf: Timeframe)
    requires o.timeframe == tf && BucketStart(o.timestamp, tf) == o.timestamp
    ensures SumBy(VolumeIn(o.timestamp, tf), cs) == SumBy(CoveredVolume(o), cs)
  {
    hide BucketStart;
    if cs != [] {
      CoversExactly(o, cs[0].timestamp, tf);
      SameVolume(cs[1..], o, tf);
    }
  }

  // ---- The result, in terms of the input

  /** Every input lies in the period of exactly one output. */
  lemma EveryInputInOneOutput(cs: seq<Candle>, tf: Timeframe, i: nat) returns (k: nat)
    requires i < |cs|
    ensures var out := Aggregated(cs, tf);
      && k < |out| && Covers(out[k], cs[i].timestamp)
      && forall m :: 0 <= m < |out| && Covers(out[m], cs[i].timestamp) ==> m == k
  {
    hide BucketStart, Built, AggregateSorted;
    var out, sorted := Aggregated(cs, tf), SortByTime(cs);
    SortIsSorted(cs);
    SortedBuilt(sorted, tf);
    SortMembers(cs);
    AggregateOrdered(sorted, tf);
    assert cs[i] in sorted;
    var o :| o in out && In(cs[i], o.timestamp, tf);
    k :| k < |out| && out[k] == o;
    forall m | 0 <= m < |out|
      ensures Covers(out[m], cs[i].timestamp) <==> m == k
    {
      CoversExactly(out[m], cs[i].timestamp, tf);
    }
  }

  lemma OutputBuilt(cs: seq<Candle>, tf: Timeframe, k: nat)
    requires k < |Aggregated(cs, tf)|
    ensures var o := Aggregated(cs, tf)[k];
      o.timeframe == tf && BucketStart(o.timestamp, tf) == o.timestamp && Built(SortByTime(cs), o, tf)
  {
    hide BucketStart, AggregateSorted, Built, SortByTime;
    var sorted := SortByTime(cs);
    SortIsSorted(cs);
    SortedBuilt(sorted, tf);
    AggregateOrdered(sorted, tf);
    assert Aggregated(cs, tf)[k] in AggregateSorted(sorted, tf);
  }

  lemma BuiltEnds(cs: seq<Candle>, o: Candle, tf: Timeframe)
    requires Built(cs, o, tf)
    ensures var e, l := Earliest(cs, o.timestamp, tf), Latest(cs, o.timestamp, tf);
      && e.Some? && l.Some? && o.symbol == e.value.symbol && o.open == e.value.open && o.close == l.value.close
      && o.volume == SumBy(VolumeIn(o.timestamp, tf), cs)
  {
    hide Earliest, Latest, In, SumBy;
  }

  /**
   Every output's period holds an input; its open and symbol are those of the
   earliest input in the period, its close that of the latest, its high and low
   their extremes, and its volume their sum.
   */
  lemma OutputFromInputs(cs: seq<Candle>, tf: Timeframe, k: nat) returns (first: nat, last: nat, high: nat, low: nat)
    requires k < |Aggregated(cs, tf)|
    ensures var o := Aggregated(cs, tf)[k];
      && o.timeframe == tf
      && IsEarliest(cs, o, first) && o.open == cs[first].open && o.symbol == cs[first].symbol
      && IsLatest(cs, o, last) && o.close == cs[last].close
      && high < |cs| && Covers(o, cs[high].timestamp) && o.high == cs[high].high
      && low < |cs| && Covers(o, cs[low].timestamp) && o.low == cs[low].low
      && (forall i :: 0 <= i < |cs| && Covers(o, cs[i].timestamp) ==> o.low <= cs[i].low && cs[i].high <= o.high)
      && o.volume == SumBy(CoveredVolume(o), cs)
  {
    hide BucketStart, Aggregated, Built, SumBy, SortByTime, IsEarliest, IsLatest, Earliest, Latest, In, Covers;
    var o, sorted := Aggregated(cs, tf)[k], SortByTime(cs);
    OutputBuilt(cs, tf, k);
    BuiltEnds(sorted, o, tf);
    SortSame(cs, o.timestamp, tf);
    SortMembers(cs);
    SameVolume(cs, o, tf);
    first := EarliestAt(cs, o, tf);
    last := LatestAt(cs, o, tf);
    high, low := ExtremesAt(cs, sorted, o, tf);
  }

  lemma ExtremesAt(cs: seq<Candle>, sorted: seq<Candle>, o: Candle, tf: Timeframe) returns (high: nat, low: nat)
    requires o.timeframe == tf && BucketStart(o.timestamp, tf) == o.timestamp && Built(sorted, o, tf)
    requires forall c :: c in sorted <==> c in cs
    ensures high < |cs| && Covers(o, cs[high].timestamp) && o.high == cs[high].high
    ensures low < |cs| && Covers(o, cs[low].timestamp) && o.low == cs[low].low
    ensures forall i :: 0 <= i < |cs| && Covers(o, cs[i].timestamp) ==> o.low <= cs[i].low && cs[i].high <= o.high
  {
    hide BucketStart, SumBy, Earliest, Latest, Covers;
    var h :| h in sorted && In(h, o.timestamp, tf) && h.high == o.high;
    var l :| l in sorted && In(l, o.timestamp, tf) && l.low == o.low;
    high :| high < |cs| && cs[high] == h;
    low :| low < |cs| && cs[low] == l;
    forall i | 0 <= i < |cs|
      ensures Covers(o, cs[i].timestamp) <==> In(cs[i], o.timestamp, tf)
      ensures cs[i] in sorted
    {
      CoversExactly(o, cs[i].timestamp, tf);
    }
  }
}
