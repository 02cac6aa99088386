/** Performance metrics and the trade-order simulation. */
module Metrics {
  import opened Common

  datatype Trade = Trade(netPnl: real, rMultiple: real, strategy: string)

  datatype MetricSet = MetricSet(
    trades: nat, wins: nat, losses: nat, winRate: real, netPnl: real, profitFactor: Option<real>,
    expectancy: real, averageR: real, maximumDrawdown: real)

  predicate IsWin(x: real) { x > 0.0 }

  predicate IsLoss(x: real) { x < 0.0 }

  function GainPart(x: real): real { if x > 0.0 then x else 0.0 }

  function LossPart(x: real): real { if x < 0.0 then -x else 0.0 }

  function RMultiple(t: Trade): real { t.rMultiple }

  function NetPnl(t: Trade): real { t.netPnl }

  function Pnls(trades: seq<Trade>): (xs: seq<real>)
    ensures |xs| == |trades|
  {
    if trades == [] then [] else [trades[0].netPnl] + Pnls(trades[1..])
  }

  // ---- Streaks

  /** Every value from i up to j satisfies p. */
  predicate Run(p: real -> bool, xs: seq<real>, i: int, j: int) {
    0 <= i <= j <= |xs| && forall k :: i <= k < j ==> p(xs[k])
  }

  ghost predicate LongestRun(p: real -> bool, xs: seq<real>, n: nat) {
    && (exists i, j :: Run(p, xs, i, j) && j - i == n)
    && (forall i, j :: Run(p, xs, i, j) ==> j - i <= n)
  }

  ghost predicate TrailingRun(p: real -> bool, xs: seq<real>, n: nat) {
    && Run(p, xs, |xs| - n, |xs|)
    && (forall i :: Run(p, xs, i, |xs|) ==> |xs| - i <= n)
  }

  function Longer(a: nat, b: nat): nat { if a >= b then a else b }

  lemma RunSnoc(p: real -> bool, xs: seq<real>, x: real, n: nat, best: nat)
    requires TrailingRun(p, xs, n) && LongestRun(p, xs, best)
    ensures var m := if p(x) then n + 1 else 0;
      TrailingRun(p, xs + [x], m) && LongestRun(p, xs + [x], Longer(best, m))
  {
    var ys, m := xs + [x], if p(x) then n + 1 else 0;
    forall i, j | Run(p, ys, i, j)
      ensures if j == |ys| then j - i <= m else Run(p, xs, i, j)
    {
      if j == |ys| {
        if i < j {
          assert p(ys[|xs|]);
          assert forall k :: i <= k < |xs| ==> xs[k] == ys[k];
          assert Run(p, xs, i, |xs|);
        }
      } else {
        assert forall k :: i <= k < j ==> xs[k] == ys[k];
      }
    }
    assert Run(p, ys, |ys| - m, |ys|);
    var i, j :| Run(p, xs, i, j) && j - i == best;
    assert Run(p, ys, i, j);
  }

  /** The longest losing and the longest winning run; a zero ends both. */
  method Streaks(values: seq<real>) returns (maximumLosses: nat, maximumWins: nat)
    ensures LongestRun(IsLoss, values, maximumLosses)
    ensures LongestRun(IsWin, values, maximumWins)
  {
    var losses, wins := 0, 0;
    maximumLosses, maximumWins := 0, 0;
    assert Run(IsLoss, [], 0, 0) && Run(IsWin, [], 0, 0);
    var k := 0;
    while k < |values|
      invariant 0 <= k <= |values|
      invariant TrailingRun(IsLoss, values[..k], losses) && LongestRun(IsLoss, values[..k], maximumLosses)
      invariant TrailingRun(IsWin, values[..k], wins) && LongestRun(IsWin, values[..k], maximumWins)
    {
      var value := values[k];
      RunSnoc(IsLoss, values[..k], value, losses, maximumLosses);
      RunSnoc(IsWin, values[..k], value, wins, maximumWins);
      assert values[..k + 1] == values[..k] + [value];
      if value > 0.0 {
        wins := wins + 1;
        losses := 0;
      } else if value < 0.0 {
        losses := losses + 1;
        wins := 0;
      } else {
        wins, losses := 0, 0;
      }
      maximumLosses := Longer(maximumLosses, losses);
      maximumWins := Longer(maximumWins, wins);
      k := k + 1;
    }
    assert values[..k] == values;
  }

  // ---- Drawdown

  /** Cumulative P&L after the first i trades. */
  function Prefix(xs: seq<real>, i: nat): real
    requires i <= |xs|
  {
    SumBy(Self, xs[..i])
  }

  ghost predicate IsPeak(xs: seq<real>, peak: real) {
    && (exists i :: 0 <= i <= |xs| && peak == Prefix(xs, i))
    && (forall i :: 0 <= i <= |xs| ==> Prefix(xs, i) <= peak)
  }

  /** The largest fall from any point of the cumulative curve to any later one. */
  ghost predicate IsDrawdown(xs: seq<real>, d: real) {
    && (exists i, j :: 0 <= i <= j <= |xs| && d == Prefix(xs, i) - Prefix(xs, j))
    && (forall i, j :: 0 <= i <= j <= |xs| ==> Prefix(xs, i) - Prefix(xs, j) <= d)
  }

  lemma PrefixSnoc(xs: seq<real>, x: real)
    ensures forall i :: 0 <= i <= |xs| ==> Prefix(xs + [x], i) == Prefix(xs, i)
    ensures Prefix(xs + [x], |xs| + 1) == Prefix(xs, |xs|) + x
  {
    forall i | 0 <= i <= |xs|
      ensures Prefix(xs + [x], i) == Prefix(xs, i)
    {
      assert (xs + [x])[..i] == xs[..i];
    }
    assert (xs + [x])[..|xs| + 1] == xs + [x] && xs[..|xs|] == xs;
    SumBySnoc(Self, xs, x);
  }

  lemma DrawdownSnoc(xs: seq<real>, x: real, peak: real, d: real)
    requires IsPeak(xs, peak) && IsDrawdown(xs, d)
    ensures var now := Prefix(xs, |xs|) + x;
      && IsPeak(xs + [x], Max(peak, now))
      && IsDrawdown(xs + [x], Max(d, Max(peak, now) - now))
  {
    hide Prefix;
    PrefixSnoc(xs, x);
    var ys, now := xs + [x], Prefix(xs, |xs|) + x;
    var top := Max(peak, now);
    assert Prefix(ys, |ys|) == now;
    var t :| 0 <= t <= |xs| && peak == Prefix(xs, t);
    assert Prefix(ys, t) == peak;
    var i, j :| 0 <= i <= j <= |xs| && d == Prefix(xs, i) - Prefix(xs, j);
    assert Prefix(ys, i) - Prefix(ys, j) == d;
  }

  lemma EmptyDrawdown()
    ensures IsPeak([], 0.0) && IsDrawdown([], 0.0)
  {
    assert Prefix([], 0) == 0.0;
  }

  // ---- The metric set

  function Summary(trades: seq<Trade>, drawdown: real): MetricSet {
    var xs := Pnls(trades);
    var gains, losses, n := SumBy(GainPart, xs), SumBy(LossPart, xs), |xs| as real;
    MetricSet(|trades|, CountBy(IsWin, xs), CountBy(IsLoss, xs),
              if xs != [] then CountBy(IsWin, xs) as real / n * 100.0 else 0.0,
              SumBy(Self, xs),
              if losses != 0.0 then Some(gains / losses) else None,
              if xs != [] then SumBy(Self, xs) / n else 0.0,
              if trades != [] then SumBy(RMultiple, trades) / n else 0.0,
              drawdown)
  }

  /** One pass finds the largest fall over all pairs of points. */
  method MetricsOf(trades: seq<Trade>) returns (m: MetricSet)
    ensures m == Summary(trades, m.maximumDrawdown)
    ensures IsDrawdown(Pnls(trades), m.maximumDrawdown)
  {
    hide Prefix, IsPeak, IsDrawdown, Summary, SumBy;
    var pnls := Pnls(trades);
    var cumulative, peak, maximum := 0.0, 0.0, 0.0;
    EmptyDrawdown();
    var k := 0;
    assert pnls[..0] == [] && Prefix([], 0) == 0.0 by { EmptyPrefix(); }
    while k < |pnls|
      invariant 0 <= k <= |pnls|
      invariant cumulative == Prefix(pnls[..k], k)
      invariant IsPeak(pnls[..k], peak) && IsDrawdown(pnls[..k], maximum)
    {
      var value := pnls[k];
      DrawdownSnoc(pnls[..k], value, peak, maximum);
      PrefixSnoc(pnls[..k], value);
      assert pnls[..k + 1] == pnls[..k] + [value];
      cumulative := cumulative + value;
      peak := Max(peak, cumulative);
      maximum := Max(maximum, peak - cumulative);
      k := k + 1;
    }
    assert pnls[..k] == pnls;
    m := Summary(trades, maximum);
    SummaryTotals(trades, maximum);
  }

  lemma EmptyPrefix()
    ensures Prefix([], 0) == 0.0
  {
  }

  lemma {:induction false} GainsLessLosses(xs: seq<real>)
    ensures SumBy(Self, xs) == SumBy(GainPart, xs) - SumBy(LossPart, xs)
    ensures SumBy(GainPart, xs) >= 0.0 && SumBy(LossPart, xs) >= 0.0
    ensures SumBy(LossPart, xs) == 0.0 <==> CountBy(IsLoss, xs) == 0
    ensures CountBy(IsWin, xs) + CountBy(IsLoss, xs) <= |xs|
  {
    if xs != [] {
      GainsLessLosses(xs[1..]);
    }
  }

  /** The reported figures agree with one another. */
  lemma MetricLaws(trades: seq<Trade>, d: real)
    ensures var m := Summary(trades, d);
      && (m.profitFactor.None? <==> m.losses == 0)
      && (m.profitFactor.Some? ==> (m.profitFactor.value > 1.0 <==> m.netPnl > 0.0))
      && m.expectancy * m.trades as real == m.netPnl
      && 0.0 <= m.winRate <= 100.0 && m.wins + m.losses <= m.trades
  {
    hide Pnls, SumBy, CountBy;
    var xs, n := Pnls(trades), |trades| as real;
    GainsLessLosses(xs);
    var gains, losses := SumBy(GainPart, xs), SumBy(LossPart, xs);
    if losses != 0.0 {
      OverOne(gains, losses);
    }
    if xs == [] {
      EmptyScale(xs);
    } else {
      Share(CountBy(IsWin, xs) as real, n);
      var mean := SumBy(Self, xs) / n;
      assert mean * n == SumBy(Self, xs);
    }
  }

  lemma EmptyScale(xs: seq<real>)
    requires xs == []
    ensures SumBy(Self, xs) == 0.0 && 0.0 * 0.0 == 0.0
  {
  }

  lemma OverOne(a: real, b: real)
    requires b > 0.0
    ensures a / b > 1.0 <==> a > b
  {
    var q := a / b;
    assert q * b == a;
    assert (q - 1.0) * b == a - b;
    assert q > 1.0 ==> (q - 1.0) * b > 0.0;
    assert q <= 1.0 ==> (q - 1.0) * b <= 0.0;
  }

  lemma Share(part: real, whole: real)
    requires 0.0 <= part <= whole && whole > 0.0
    ensures 0.0 <= part / whole * 100.0 <= 100.0
  {
    var q := part / whole;
    assert q * whole == part;
    assert q < 0.0 ==> q * whole < 0.0;
    assert (q - 1.0) * whole == part - whole;
    assert q > 1.0 ==> (q - 1.0) * whole > 0.0;
  }

  ghost function Places(p: real -> bool, xs: seq<real>): set<int> { set i | 0 <= i < |xs| && p(xs[i]) }

  lemma {:induction false} CountMembers(p: real -> bool, xs: seq<real>)
    ensures CountBy(p, xs) == |Places(p, xs)|
  {
    if xs != [] {
      var n := |xs| - 1;
      var front := xs[..n];
      CountMembers(p, front);
      CountByAppend(p, front, [xs[n]]);
      assert xs == front + [xs[n]];
      assert CountBy(p, [xs[n]]) == if p(xs[n]) then 1 else 0;
      var last := if p(xs[n]) then {n} else {};
      assert Places(p, xs) == Places(p, front) + last;
      assert |last| == if p(xs[n]) then 1 else 0;
    }
  }

  lemma {:induction false} PnlAt(trades: seq<Trade>, i: nat)
    requires i < |trades|
    ensures Pnls(trades)[i] == trades[i].netPnl
  {
    if i > 0 {
      PnlAt(trades[1..], i - 1);
    }
  }

  ghost function Gained(trades: seq<Trade>): set<int> { set i | 0 <= i < |trades| && trades[i].netPnl > 0.0 }

  ghost function Lost(trades: seq<Trade>): set<int> { set i | 0 <= i < |trades| && trades[i].netPnl < 0.0 }

  lemma PlacesOf(trades: seq<Trade>)
    ensures Places(IsWin, Pnls(trades)) == Gained(trades) && Places(IsLoss, Pnls(trades)) == Lost(trades)
  {
    var xs := Pnls(trades);
    forall i | 0 <= i < |trades|
      ensures xs[i] == trades[i].netPnl
    {
      PnlAt(trades, i);
    }
    hide Pnls;
  }

  /** Trades that gained are wins, trades that lost are losses, and nothing else is either. */
  lemma CountsExactly(trades: seq<Trade>, d: real)
    ensures Summary(trades, d).wins == |Gained(trades)| && Summary(trades, d).losses == |Lost(trades)|
  {
    hide Pnls, CountBy, Places, Gained, Lost;
    CountMembers(IsWin, Pnls(trades));
    CountMembers(IsLoss, Pnls(trades));
    PlacesOf(trades);
  }

  /** q is the n-th part of x. */
  predicate NthPart(q: real, n: real, x: real) { q * n == x }

  /** The totals, what each ratio is a part of, and what an empty result reports. */
  lemma FiguresExactly(trades: seq<Trade>, d: real)
    ensures var m, n := Summary(trades, d), |trades| as real;
      && m.trades == |trades| && m.maximumDrawdown == d
      && m.netPnl == SumBy(Self, Pnls(trades))
      && (trades == [] ==> m.winRate == 0.0 && m.expectancy == 0.0 && m.averageR == 0.0)
      && (trades != [] ==> NthPart(m.winRate / 100.0, n, m.wins as real))
      && (trades != [] ==> NthPart(m.averageR, n, SumBy(RMultiple, trades)))
  {
    var wins, total := CountBy(IsWin, Pnls(trades)) as real, SumBy(RMultiple, trades);
    hide Pnls, CountBy, SumBy, NthPart;
    if trades != [] {
      Quotient(wins, |trades| as real);
      Quotient(total, |trades| as real);
      Percent(wins / |trades| as real);
    }
  }

  lemma Percent(q: real)
    ensures q * 100.0 / 100.0 == q
  {
  }

  lemma Quotient(x: real, n: real)
    requires n > 0.0
    ensures NthPart(x / n, n, x)
  {
  }

  // ---- Grouping

  datatype Group = Group(name: string, rows: seq<Trade>)

  function AddTo(groups: seq<Group>, name: string, t: Trade): seq<Group> {
    if groups == [] then [Group(name, [t])]
    else if groups[0].name == name then [Group(name, groups[0].rows + [t])] + groups[1..]
    else [groups[0]] + AddTo(groups[1..], name, t)
  }

  function GroupsOf(key: Trade -> string, trades: seq<Trade>): seq<Group>
    decreases |trades|
  {
    if trades == [] then []
    else
      var last := trades[|trades| - 1];
      AddTo(GroupsOf(key, trades[..|trades| - 1]), key(last), last)
  }

  /** The trades filed under a name, in their original order. */
  function Having(key: Trade -> string, trades: seq<Trade>, name: string): seq<Trade>
    decreases |trades|
  {
    if trades == [] then []
    else
      var last := trades[|trades| - 1];
      Having(key, trades[..|trades| - 1], name) + if key(last) == name then [last] else []
  }

  predicate Distinct(groups: seq<Group>) {
    forall i, j :: 0 <= i < j < |groups| ==> groups[i].name != groups[j].name
  }

  /** Adding a trade extends the one group of that name, or appends a new one. */
  lemma {:induction false} AddToEffect(groups: seq<Group>, name: string, t: Trade) returns (at: nat)
    requires Distinct(groups)
    ensures at <= |groups|
    ensures at < |groups| ==>
      groups[at].name == name && AddTo(groups, name, t) == groups[at := Group(name, groups[at].rows + [t])]
    ensures at == |groups| ==> AddTo(groups, name, t) == groups + [Group(name, [t])]
    ensures forall i :: 0 <= i < |groups| && i != at ==> groups[i].name != name
  {
    if groups == [] {
      at := 0;
    } else if groups[0].name == name {
      at := 0;
    } else {
      at := AddToEffect(groups[1..], name, t);
      at := at + 1;
    }
  }

  predicate Covers(groups: seq<Group>, key: Trade -> string, trades: seq<Trade>) {
    forall t :: t in trades ==> exists i :: 0 <= i < |groups| && groups[i].name == key(t)
  }

  predicate Files(groups: seq<Group>, key: Trade -> string, trades: seq<Trade>) {
    forall i :: 0 <= i < |groups| ==> groups[i].rows == Having(key, trades, groups[i].name)
  }

  /** The groups partition the trades by key and keep their order. */
  lemma {:induction false} GroupsPartition(key: Trade -> string, trades: seq<Trade>)
    ensures Distinct(GroupsOf(key, trades))
    ensures Files(GroupsOf(key, trades), key, trades) && Covers(GroupsOf(key, trades), key, trades)
    decreases |trades|
  {
    if trades != [] {
      var rest, last := trades[..|trades| - 1], trades[|trades| - 1];
      GroupsPartition(key, rest);
      var before := GroupsOf(key, rest);
      var at := AddToEffect(before, key(last), last);
      if at == |before| {
        NothingUnder(key, rest, key(last), before);
      }
      AddKeepsCover(before, GroupsOf(key, trades), key, trades, at);
    }
  }

  lemma AddKeepsCover(before: seq<Group>, after: seq<Group>, key: Trade -> string, trades: seq<Trade>, at: nat)
    requires trades != [] && Covers(before, key, trades[..|trades| - 1])
    requires |before| <= |after| && at < |after| && after[at].name == key(trades[|trades| - 1])
    requires forall i :: 0 <= i < |before| ==> after[i].name == before[i].name
    ensures Covers(after, key, trades)
  {
    var rest, last := trades[..|trades| - 1], trades[|trades| - 1];
    forall t | t in trades
      ensures exists i :: 0 <= i < |after| && after[i].name == key(t)
    {
      if t in rest {
        var i :| 0 <= i < |before| && before[i].name == key(t);
        assert after[i].name == key(t);
      } else {
        assert t == last;
      }
    }
  }

  lemma {:induction false} NothingUnder(key: Trade -> string, trades: seq<Trade>, name: string, groups: seq<Group>)
    requires Covers(groups, key, trades)
    requires forall i :: 0 <= i < |groups| ==> groups[i].name != name
    ensures Having(key, trades, name) == []
    decreases |trades|
  {
    if trades != [] {
      var rest, last := trades[..|trades| - 1], trades[|trades| - 1];
      assert last in trades;
      assert forall t :: t in rest ==> t in trades;
      NothingUnder(key, rest, name, groups);
    }
  }

  function RowCount(g: Group): real { |g.rows| as real }

  function RowPnl(g: Group): real { SumBy(NetPnl, g.rows) }

  lemma {:induction false} AddToSums(groups: seq<Group>, name: string, t: Trade)
    ensures SumBy(RowCount, AddTo(groups, name, t)) == SumBy(RowCount, groups) + 1.0
    ensures SumBy(RowPnl, AddTo(groups, name, t)) == SumBy(RowPnl, groups) + t.netPnl
  {
    if groups == [] {
      SumBySnoc(NetPnl, [], t);
      SumBySnoc(RowPnl, [], Group(name, [t]));
      assert [] + [t] == [t] && [] + [Group(name, [t])] == [Group(name, [t])];
    } else if groups[0].name == name {
      SumBySnoc(NetPnl, groups[0].rows, t);
    } else {
      AddToSums(groups[1..], name, t);
    }
  }

  /** Counts and P&L over the groups sum to the whole. */
  lemma {:induction false} GroupsSumToWhole(key: Trade -> string, trades: seq<Trade>)
    ensures SumBy(RowCount, GroupsOf(key, trades)) == |trades| as real
    ensures SumBy(RowPnl, GroupsOf(key, trades)) == SumBy(NetPnl, trades)
    decreases |trades|
  {
    if trades != [] {
      var rest, last := trades[..|trades| - 1], trades[|trades| - 1];
      GroupsSumToWhole(key, rest);
      AddToSums(GroupsOf(key, rest), key(last), last);
      assert trades == rest + [last];
      SumBySnoc(NetPnl, rest, last);
    }
  }

  lemma {:induction false} PnlsSum(trades: seq<Trade>)
    ensures SumBy(Self, Pnls(trades)) == SumBy(NetPnl, trades)
  {
    if trades != [] {
      PnlsSum(trades[1..]);
      assert Pnls(trades)[1..] == Pnls(trades[1..]);
    }
  }

  // ---- Groups in the order of their names

  predicate ByName(groups: seq<Group>) {
    forall i, j :: 0 <= i < j < |groups| ==> StringLe(groups[i].name, groups[j].name)
  }

  function InsertGroup(g: Group, groups: seq<Group>): (r: seq<Group>)
    ensures |r| == |groups| + 1 && forall x :: x in r <==> x == g || x in groups
  {
    if groups == [] || StringLe(g.name, groups[0].name) then [g] + groups
    else
      assert groups == [groups[0]] + groups[1..];
      [groups[0]] + InsertGroup(g, groups[1..])
  }

  function SortGroups(groups: seq<Group>): (r: seq<Group>)
    ensures |r| == |groups| && forall x :: x in r <==> x in groups
  {
    if groups == [] then []
    else
      assert groups == [groups[0]] + groups[1..];
      InsertGroup(groups[0], SortGroups(groups[1..]))
  }

  lemma ConsKeeps(g: Group, groups: seq<Group>)
    requires ByName(groups) && Distinct(groups)
    requires forall x :: x in groups ==> StringLe(g.name, x.name) && x.name != g.name
    ensures ByName([g] + groups) && Distinct([g] + groups)
  {
    hide StringLe;
    assert forall i :: 0 <= i < |groups| ==> groups[i] in groups;
  }

  lemma {:induction false} InsertKeeps(g: Group, groups: seq<Group>)
    requires ByName(groups) && Distinct(groups) && forall x :: x in groups ==> x.name != g.name
    ensures ByName(InsertGroup(g, groups)) && Distinct(InsertGroup(g, groups))
  {
    hide StringLe, ByName, Distinct;
    if groups == [] || StringLe(g.name, groups[0].name) {
      forall x | x in groups
        ensures StringLe(g.name, x.name)
      {
        var i :| 0 <= i < |groups| && groups[i] == x;
        HeadFirst(groups, i);
        if i > 0 {
          StringTransitive(g.name, groups[0].name, x.name);
        }
      }
      ConsKeeps(g, groups);
    } else {
      var head, tail := groups[0], groups[1..];
      assert groups == [head] + tail;
      TailKeeps(groups);
      InsertKeeps(g, tail);
      StringTotal(g.name, head.name);
      forall x | x in InsertGroup(g, tail)
        ensures StringLe(head.name, x.name) && x.name != head.name
      {
        if x != g {
          var i :| 0 <= i < |tail| && tail[i] == x;
          assert groups[i + 1] == x;
          HeadFirst(groups, i + 1);
        }
      }
      ConsKeeps(head, InsertGroup(g, tail));
    }
  }

  lemma TailKeeps(groups: seq<Group>)
    requires groups != [] && ByName(groups) && Distinct(groups)
    ensures ByName(groups[1..]) && Distinct(groups[1..])
  {
    hide StringLe;
  }

  lemma HeadFirst(groups: seq<Group>, i: nat)
    requires i < |groups| && ByName(groups) && Distinct(groups)
    ensures i > 0 ==> StringLe(groups[0].name, groups[i].name) && groups[0].name != groups[i].name
  {
    hide StringLe;
  }

  lemma {:induction false} InsertSums(g: Group, groups: seq<Group>)
    ensures SumBy(RowCount, InsertGroup(g, groups)) == RowCount(g) + SumBy(RowCount, groups)
    ensures SumBy(RowPnl, InsertGroup(g, groups)) == RowPnl(g) + SumBy(RowPnl, groups)
  {
    hide StringLe, RowCount, RowPnl;
    if groups == [] || StringLe(g.name, groups[0].name) {
      assert ([g] + groups)[1..] == groups;
    } else {
      InsertSums(g, groups[1..]);
      assert ([groups[0]] + InsertGroup(g, groups[1..]))[1..] == InsertGroup(g, groups[1..]);
    }
  }

  lemma {:induction false} SortKeeps(groups: seq<Group>)
    requires Distinct(groups)
    ensures ByName(SortGroups(groups)) && Distinct(SortGroups(groups))
    ensures SumBy(RowCount, SortGroups(groups)) == SumBy(RowCount, groups)
    ensures SumBy(RowPnl, SortGroups(groups)) == SumBy(RowPnl, groups)
  {
    hide StringLe, RowCount, RowPnl;
    if groups != [] {
      SortKeeps(groups[1..]);
      forall x | x in SortGroups(groups[1..])
        ensures x.name != groups[0].name
      {
        var i :| 0 <= i < |groups[1..]| && groups[1..][i] == x;
        assert groups[i + 1] == x;
      }
      InsertKeeps(groups[0], SortGroups(groups[1..]));
      InsertSums(groups[0], SortGroups(groups[1..]));
    }
  }

  function CountOf(m: MetricSet): real { m.trades as real }

  function PnlOf(m: MetricSet): real { m.netPnl }

  lemma SummaryTotals(trades: seq<Trade>, d: real)
    ensures CountOf(Summary(trades, d)) == |trades| as real && PnlOf(Summary(trades, d)) == SumBy(NetPnl, trades)
    ensures Summary(trades, d).maximumDrawdown == d
  {
    PnlsSum(trades);
  }

  /** The metric set of the trades filed under a name. */
  ghost predicate Describes(m: MetricSet, trades: seq<Trade>) {
    m == Summary(trades, m.maximumDrawdown) && IsDrawdown(Pnls(trades), m.maximumDrawdown)
  }

  method GroupTrades(key: Trade -> string, trades: seq<Trade>) returns (groups: seq<Group>)
    ensures groups == GroupsOf(key, trades)
  {
    hide AddTo;
    groups := [];
    var k := 0;
    while k < |trades|
      invariant 0 <= k <= |trades|
      invariant groups == GroupsOf(key, trades[..k])
    {
      assert trades[..k + 1][..k] == trades[..k];
      groups := AddTo(groups, key(trades[k]), trades[k]);
      k := k + 1;
    }
    assert trades[..k] == trades;
  }

  method MetricsOfGroups(groups: seq<Group>) returns (metrics: seq<MetricSet>)
    ensures |metrics| == |groups|
    ensures forall i :: 0 <= i < |groups| ==> Describes(metrics[i], groups[i].rows)
    ensures SumBy(CountOf, metrics) == SumBy(RowCount, groups)
    ensures SumBy(PnlOf, metrics) == SumBy(RowPnl, groups)
  {
    hide Summary, IsDrawdown, SumBy;
    metrics := [];
    var k := 0;
    EmptySums();
    assert groups[..0] == [];
    while k < |groups|
      invariant 0 <= k <= |groups| && |metrics| == k
      invariant forall i :: 0 <= i < k ==> Describes(metrics[i], groups[i].rows)
      invariant SumBy(CountOf, metrics) == SumBy(RowCount, groups[..k])
      invariant SumBy(PnlOf, metrics) == SumBy(RowPnl, groups[..k])
    {
      var m := MetricsOf(groups[k].rows);
      SummaryTotals(groups[k].rows, m.maximumDrawdown);
      SumBySnoc(CountOf, metrics, m);
      SumBySnoc(PnlOf, metrics, m);
      assert groups[..k + 1] == groups[..k] + [groups[k]];
      SumBySnoc(RowCount, groups[..k], groups[k]);
      SumBySnoc(RowPnl, groups[..k], groups[k]);
      metrics := metrics + [m];
      k := k + 1;
    }
    assert groups[..k] == groups;
  }

  lemma EmptySums()
    ensures SumBy(CountOf, []) == SumBy(RowCount, []) == SumBy(PnlOf, []) == SumBy(RowPnl, [])
  {
  }

  function Names(groups: seq<Group>): (names: seq<string>)
    ensures |names| == |groups| && forall i :: 0 <= i < |groups| ==> names[i] == groups[i].name
  {
    seq(|groups|, i requires 0 <= i < |groups| => groups[i].name)
  }

  lemma SortedCoverAndFile(groups: seq<Group>, key: Trade -> string, trades: seq<Trade>)
    requires Files(groups, key, trades) && Covers(groups, key, trades)
    ensures Files(SortGroups(groups), key, trades) && Covers(SortGroups(groups), key, trades)
  {
    hide SortGroups, Having;
    var sorted := SortGroups(groups);
    forall i | 0 <= i < |sorted|
      ensures sorted[i].rows == Having(key, trades, sorted[i].name)
    {
      assert sorted[i] in groups;
      var j :| 0 <= j < |groups| && groups[j] == sorted[i];
    }
    forall t | t in trades
      ensures exists i :: 0 <= i < |sorted| && sorted[i].name == key(t)
    {
      var j :| 0 <= j < |groups| && groups[j].name == key(t);
      assert groups[j] in sorted;
      var i :| 0 <= i < |sorted| && sorted[i] == groups[j];
    }
  }

  /**
   One metric set for each group, in the order of their names; together they account for every trade
   and every unit of P&L.
   */
  method Grouped(key: Trade -> string, trades: seq<Trade>) returns (names: seq<string>, metrics: seq<MetricSet>)
    ensures |names| == |metrics|
    ensures forall i, j :: 0 <= i < j < |names| ==> StringLe(names[i], names[j]) && names[i] != names[j]
    ensures forall t :: t in trades ==> key(t) in names
    ensures forall i :: 0 <= i < |names| ==> Describes(metrics[i], Having(key, trades, names[i]))
    ensures SumBy(CountOf, metrics) == |trades| as real && SumBy(PnlOf, metrics) == SumBy(NetPnl, trades)
  {
    hide Describes, SumBy, GroupsOf, Having, SortGroups, StringLe;
    var filed := GroupTrades(key, trades);
    GroupsPartition(key, trades);
    GroupsSumToWhole(key, trades);
    SortKeeps(filed);
    SortedCoverAndFile(filed, key, trades);
    var groups := SortGroups(filed);
    names := Names(groups);
    metrics := MetricsOfGroups(groups);
    forall t | t in trades
      ensures key(t) in names
    {
      var i :| 0 <= i < |groups| && groups[i].name == key(t);
      assert names[i] == key(t);
    }
  }

  // ---- Trade-order simulation

  /** Where a value sits in a list, and what is left without it. */
  lemma RemoveOne(x: real, ys: seq<real>) returns (i: nat)
    requires x in ys
    ensures i < |ys| && ys[i] == x && multiset(ys[..i] + ys[i + 1..]) == multiset(ys) - multiset{x}
  {
    i :| 0 <= i < |ys| && ys[i] == x;
    assert ys == ys[..i] + [ys[i]] + ys[i + 1..];
  }

  lemma HeadRemoved(xs: seq<real>)
    requires xs != []
    ensures multiset(xs[1..]) == multiset(xs) - multiset{xs[0]} && xs[0] in multiset(xs)
  {
    assert xs == [xs[0]] + xs[1..];
  }

  /** A sum does not depend on the order of its terms. */
  lemma {:induction false} SumPermutation(f: real -> real, xs: seq<real>, ys: seq<real>)
    requires multiset(xs) == multiset(ys)
    ensures SumBy(f, xs) == SumBy(f, ys)
    decreases |xs|
  {
    if xs == [] {
      assert |multiset(ys)| == 0;
    } else {
      HeadRemoved(xs);
      var i := RemoveOne(xs[0], ys);
      SumPermutation(f, xs[1..], ys[..i] + ys[i + 1..]);
      SumByRemove(f, ys, i);
    }
  }

  /** A fall between two points is at most the losses between them. */
  lemma {:induction false} FallWithinLosses(xs: seq<real>, i: nat, j: nat)
    requires i <= j <= |xs|
    ensures Prefix(xs, i) - Prefix(xs, j) <= SumBy(LossPart, xs)
  {
    var before, between, after := xs[..i], xs[i..j], xs[j..];
    assert xs[..j] == before + between && xs == xs[..j] + after;
    SumByAppend(Self, before, between);
    SumByAppend(LossPart, xs[..j], after);
    SumByAppend(LossPart, before, between);
    GainsLessLosses(before);
    GainsLessLosses(between);
    GainsLessLosses(after);
  }

  /** A drawdown is at least every single loss and at most the total of all losses. */
  lemma DrawdownBounds(xs: seq<real>, d: real)
    requires IsDrawdown(xs, d)
    ensures forall k :: 0 <= k < |xs| ==> LossPart(xs[k]) <= d
    ensures 0.0 <= d <= SumBy(LossPart, xs)
    ensures d == 0.0 <==> CountBy(IsLoss, xs) == 0
  {
    hide Prefix;
    assert Prefix(xs, 0) - Prefix(xs, 0) <= d;
    forall k | 0 <= k < |xs|
      ensures LossPart(xs[k]) <= d
    {
      OneStep(xs, k);
      assert Prefix(xs, k) - Prefix(xs, k + 1) <= d;
    }
    var i, j :| 0 <= i <= j <= |xs| && d == Prefix(xs, i) - Prefix(xs, j);
    FallWithinLosses(xs, i, j);
    GainsLessLosses(xs);
    if d == 0.0 {
      NoLosses(xs);
    }
  }

  lemma OneStep(xs: seq<real>, k: nat)
    requires k < |xs|
    ensures Prefix(xs, k + 1) == Prefix(xs, k) + xs[k]
  {
    assert xs[..k + 1] == xs[..k] + [xs[k]];
    SumBySnoc(Self, xs[..k], xs[k]);
  }

  lemma {:induction false} NoLosses(xs: seq<real>)
    requires forall k :: 0 <= k < |xs| ==> LossPart(xs[k]) <= 0.0
    ensures CountBy(IsLoss, xs) == 0
  {
    if xs != [] {
      assert LossPart(xs[0]) <= 0.0;
      NoLosses(xs[1..]);
    }
  }

  /** Keeps the values that satisfy p. */
  function Select(p: real -> bool, xs: seq<real>): seq<real> {
    if xs == [] then [] else (if p(xs[0]) then [xs[0]] else []) + Select(p, xs[1..])
  }

  predicate NotLoss(x: real) { !IsLoss(x) }

  lemma {:induction false} SelectSplits(xs: seq<real>)
    ensures multiset(Select(IsLoss, xs)) + multiset(Select(NotLoss, xs)) == multiset(xs)
  {
    if xs != [] {
      var x, rest := xs[0], xs[1..];
      SelectSplits(rest);
      assert xs == [x] + rest;
      assert multiset(xs) == multiset{x} + multiset(rest);
      if IsLoss(x) {
        assert Select(IsLoss, xs) == [x] + Select(IsLoss, rest);
        assert Select(NotLoss, xs) == Select(NotLoss, rest);
      } else {
        assert Select(NotLoss, xs) == [x] + Select(NotLoss, rest);
        assert Select(IsLoss, xs) == Select(IsLoss, rest);
      }
    }
  }

  lemma {:induction false} SelectedLosses(xs: seq<real>)
    ensures SumBy(Self, Select(IsLoss, xs)) == -SumBy(LossPart, xs)
  {
    if xs != [] {
      SelectedLosses(xs[1..]);
      SumByAppend(Self, if IsLoss(xs[0]) then [xs[0]] else [], Select(IsLoss, xs[1..]));
    }
  }

  /** The upper bound is sharp: with every loss first, the drawdown is the total of the losses. */
  lemma LossesFirstIsWorst(xs: seq<real>, d: real)
    requires IsDrawdown(Select(IsLoss, xs) + Select(NotLoss, xs), d)
    ensures multiset(Select(IsLoss, xs) + Select(NotLoss, xs)) == multiset(xs)
    ensures d == SumBy(LossPart, xs)
  {
    SelectSplits(xs);
    SelectedLosses(xs);
    var losses, ys := Select(IsLoss, xs), Select(IsLoss, xs) + Select(NotLoss, xs);
    SumPermutation(LossPart, ys, xs);
    DrawdownBounds(ys, d);
    assert ys[..|losses|] == losses && ys[..0] == [];
    assert Prefix(ys, 0) - Prefix(ys, |losses|) <= d;
  }

  /**
   Every run replays a shuffle of the outcomes. All runs end at the same equity,
   and no run's drawdown is below the worst single loss or above the total of the
   losses.
   */
  method TradeOrderMonteCarlo(outcomes: seq<real>, initialEquity: real, samples: seq<seq<real>>)
    returns (finals: seq<real>, drawdowns: seq<real>)
    requires forall s :: s in samples ==> multiset(s) == multiset(outcomes)
    ensures |finals| == |drawdowns| == |samples|
    ensures forall r :: 0 <= r < |samples| ==> finals[r] == initialEquity + SumBy(Self, outcomes)
    ensures forall r :: 0 <= r < |samples| ==> IsDrawdown(samples[r], drawdowns[r])
    ensures forall r :: 0 <= r < |samples| ==> 0.0 <= drawdowns[r] <= SumBy(LossPart, outcomes)
    ensures forall r, k :: 0 <= r < |samples| && 0 <= k < |outcomes| ==> LossPart(outcomes[k]) <= drawdowns[r]
  {
    finals, drawdowns := [], [];
    var r := 0;
    while r < |samples|
      invariant 0 <= r <= |samples| && |finals| == |drawdowns| == r
      invariant forall q :: 0 <= q < r ==> finals[q] == initialEquity + SumBy(Self, outcomes)
      invariant forall q :: 0 <= q < r ==> IsDrawdown(samples[q], drawdowns[q])
      invariant forall q :: 0 <= q < r ==> 0.0 <= drawdowns[q] <= SumBy(LossPart, outcomes)
      invariant forall q, k :: 0 <= q < r && 0 <= k < |outcomes| ==> LossPart(outcomes[k]) <= drawdowns[q]
    {
      assert samples[r] in samples;
      var equity, drawdown := OneRun(samples[r], initialEquity);
      SampleBounds(outcomes, samples[r], drawdown);
      finals, drawdowns := finals + [equity], drawdowns + [drawdown];
      r := r + 1;
    }
  }

  method OneRun(sample: seq<real>, initialEquity: real) returns (equity: real, maximum: real)
    ensures equity == initialEquity + SumBy(Self, sample)
    ensures IsDrawdown(sample, maximum)
  {
    hide Prefix, IsPeak, IsDrawdown, SumBy;
    equity := initialEquity;
    var peak := initialEquity;
    maximum := 0.0;
    EmptyDrawdown();
    EmptyPrefix();
    assert sample[..0] == [];
    var k := 0;
    while k < |sample|
      invariant 0 <= k <= |sample|
      invariant equity == initialEquity + Prefix(sample[..k], k)
      invariant IsPeak(sample[..k], peak - initialEquity) && IsDrawdown(sample[..k], maximum)
    {
      var outcome := sample[k];
      DrawdownSnoc(sample[..k], outcome, peak - initialEquity, maximum);
      PrefixSnoc(sample[..k], outcome);
      assert sample[..k + 1] == sample[..k] + [outcome];
      equity := equity + outcome;
      peak := Max(peak, equity);
      maximum := Max(maximum, peak - equity);
      k := k + 1;
    }
    assert sample[..k] == sample;
    WholePrefix(sample);
  }

  lemma WholePrefix(xs: seq<real>)
    ensures Prefix(xs, |xs|) == SumBy(Self, xs)
  {
    assert xs[..|xs|] == xs;
  }

  lemma SampleBounds(outcomes: seq<real>, sample: seq<real>, d: real)
    requires multiset(sample) == multiset(outcomes) && IsDrawdown(sample, d)
    ensures SumBy(Self, sample) == SumBy(Self, outcomes)
    ensures 0.0 <= d <= SumBy(LossPart, outcomes)
    ensures forall k :: 0 <= k < |outcomes| ==> LossPart(outcomes[k]) <= d
  {
    SumPermutation(Self, sample, outcomes);
    SumPermutation(LossPart, sample, outcomes);
    DrawdownBounds(sample, d);
    forall k | 0 <= k < |outcomes|
      ensures LossPart(outcomes[k]) <= d
    {
      assert outcomes[k] in multiset(sample);
    }
  }
}
