/** Walking one side of an order book to estimate slippage. */
module OrderBook {
  import opened Common

  /** A price level: price and base quantity. */
  datatype Level = Level(price: real, quantity: real)

  /** What the code leaves unfilled without complaint. */
  const TOLERANCE: real := 0.000000001

  predicate ValidLevel(l: Level) { l.price > 0.0 && l.quantity > 0.0 }

  /** The notional of a whole level. */
  function Worth(l: Level): real { l.price * l.quantity }

  /** The base quantity some notional buys. */
  function Bought(notional: real, price: real): real
    requires price > 0.0
  {
    notional / price
  }

  function Times(a: real, b: real): real { a * b }

  /** The walk stops at an invalid level, or with the base quantity bought and the notional left. */
  datatype Walk = BadLevel | Walked(base: real, remaining: real)

  function WalkLevels(levels: seq<Level>, remaining: real, tolerance: real): Walk
    decreases |levels|
  {
    if levels == [] then Walked(0.0, remaining)
    else if !ValidLevel(levels[0]) then BadLevel
    else
      var l := levels[0];
      var consumed := Min(remaining, Worth(l));
      if remaining - consumed <= tolerance then Walked(Bought(consumed, l.price), remaining - consumed)
      else
        match WalkLevels(levels[1..], remaining - consumed, tolerance)
        case BadLevel => BadLevel
        case Walked(base, left) => Walked(Bought(consumed, l.price) + base, left)
  }

  function Slippage(levels: seq<Level>, notional: real, tolerance: real): Option<real> {
    if notional <= 0.0 || levels == [] || levels[0].price <= 0.0 then None
    else
      match WalkLevels(levels, notional, tolerance)
      case BadLevel => None
      case Walked(base, remaining) =>
        if remaining > tolerance || base <= 0.0 then None
        else Some(Abs(notional / base - levels[0].price) / levels[0].price * 100.0)
  }

  /** One level alone gives an estimate, and then of nothing, exactly when it is valid and deep enough. */
  lemma OneLevelExactly(l: Level, notional: real, tolerance: real)
    requires tolerance >= 0.0
    ensures Slippage([l], notional, tolerance).Some?
      <==> notional > 0.0 && l.price > 0.0 && l.quantity > 0.0 && notional <= Worth(l) + tolerance
    ensures Slippage([l], notional, tolerance).Some? && notional <= Worth(l)
      ==> Slippage([l], notional, tolerance) == Some(0.0)
  {
    if notional > 0.0 && ValidLevel(l) {
      ProductPositive(l.price, l.quantity);
      var consumed := Min(notional, Worth(l));
      OneLevelPrice(notional, consumed, l.price);
      var rest := notional - consumed;
      assert [l][1..] == [] && WalkLevels([], rest, tolerance) == Walked(0.0, rest);
      hide Bought, Worth;
      assert WalkLevels([l], notional, tolerance) == Walked(Bought(consumed, l.price), rest);
    }
  }

  lemma OneLevelPrice(notional: real, consumed: real, price: real)
    requires consumed > 0.0 && price > 0.0
    ensures Bought(consumed, price) > 0.0
    ensures consumed == notional ==> notional / Bought(consumed, price) == price
  {
    var b := Bought(consumed, price);
    assert b * price == consumed;
    NonNegativeFactor(b, price);
  }

  method EstimateSlippagePercent(levels: seq<Level>, notional: real) returns (r: Option<real>)
    ensures r == Slippage(levels, notional, TOLERANCE)
  {
    hide Worth, Bought, Min;
    if notional <= 0.0 || levels == [] || levels[0].price <= 0.0 {
      return None;
    }
    ghost var total := WalkLevels(levels, notional, TOLERANCE);
    var remaining, base, done := notional, 0.0, false;
    var n := 0;
    while n < |levels| && !done
      invariant n <= |levels|
      invariant done ==> total == Walked(base, remaining)
      invariant !done ==>
        match WalkLevels(levels[n..], remaining, TOLERANCE)
        case BadLevel => total == BadLevel
        case Walked(b, left) => total == Walked(base + b, left)
      decreases |levels| - n, if done then 0 else 1
    {
      var l := levels[n];
      assert levels[n..][0] == l && levels[n..][1..] == levels[n + 1..];
      if !ValidLevel(l) {
        return None;
      }
      var consumed := Min(remaining, Worth(l));
      base := base + Bought(consumed, l.price);
      remaining := remaining - consumed;
      done := remaining <= TOLERANCE;
      n := n + 1;
    }
    if remaining > TOLERANCE || base <= 0.0 {
      return None;
    }
    var average := notional / base;
    r := Some(Abs(average - levels[0].price) / levels[0].price * 100.0);
  }

  // ---- When an estimate exists

  function Depth(levels: seq<Level>): real {
    if levels == [] then 0.0 else Worth(levels[0]) + Depth(levels[1..])
  }

  predicate AllValid(levels: seq<Level>) { forall i :: 0 <= i < |levels| ==> ValidLevel(levels[i]) }

  /** The levels before the first invalid one. */
  function ValidPrefix(levels: seq<Level>): (prefix: seq<Level>)
    ensures prefix <= levels && AllValid(prefix) && (AllValid(levels) ==> prefix == levels)
  {
    if levels == [] || !ValidLevel(levels[0]) then []
    else
      assert AllValid(levels) ==> forall i :: 0 <= i < |levels| - 1 ==> ValidLevel(levels[1..][i]) by {
        assert forall i :: 0 <= i < |levels| - 1 ==> levels[1..][i] == levels[i + 1];
      }
      [levels[0]] + ValidPrefix(levels[1..])
  }

  /** The walk ends within the tolerance exactly when the levels before an invalid one cover the notional. */
  lemma {:induction false} WalkCovers(levels: seq<Level>, remaining: real, tolerance: real)
    requires tolerance >= 0.0 && remaining > 0.0 && (remaining > tolerance || ValidPrefix(levels) != [])
    ensures var w := WalkLevels(levels, remaining, tolerance);
      && (w.Walked? && w.remaining <= tolerance <==> remaining - Depth(ValidPrefix(levels)) <= tolerance)
      && (w.Walked? ==> w.base >= 0.0 && (levels != [] ==> w.base > 0.0))
    decreases |levels|
  {
    hide Worth, Bought;
    if levels != [] && ValidLevel(levels[0]) {
      var l, tail := levels[0], levels[1..];
      WorthPositive(l);
      DepthNonNegative(ValidPrefix(tail));
      PrefixDepth(levels);
      BoughtPositive(Min(remaining, Worth(l)), l.price);
      if remaining - Min(remaining, Worth(l)) > tolerance {
        WalkCovers(tail, remaining - Min(remaining, Worth(l)), tolerance);
      }
    }
  }

  lemma PrefixDepth(levels: seq<Level>)
    requires levels != [] && ValidLevel(levels[0])
    ensures Depth(ValidPrefix(levels)) == Worth(levels[0]) + Depth(ValidPrefix(levels[1..]))
  {
    hide Worth, ValidLevel;
    assert ValidPrefix(levels)[1..] == ValidPrefix(levels[1..]);
  }

  lemma WorthPositive(l: Level)
    requires ValidLevel(l)
    ensures Worth(l) > 0.0 && Bought(Worth(l), l.price) == l.quantity
  {
  }

  lemma BoughtPositive(n: real, p: real)
    requires n > 0.0 && p > 0.0
    ensures Bought(n, p) > 0.0 && Times(p, Bought(n, p)) == n
  {
  }

  lemma {:induction false} DepthNonNegative(levels: seq<Level>)
    requires AllValid(levels)
    ensures Depth(levels) >= 0.0
  {
    hide Worth;
    if levels != [] {
      DepthNonNegative(levels[1..]);
      assert ValidLevel(levels[0]);
      WorthPositive(levels[0]);
    }
  }

  /**
   There is no estimate exactly when there is nothing to buy, no valid level to
   start with, or too little depth before the first invalid level.
   */
  lemma NoneExactlyWhenTooThin(levels: seq<Level>, notional: real)
    ensures Slippage(levels, notional, TOLERANCE) == None <==>
      notional <= 0.0 || ValidPrefix(levels) == [] || notional - Depth(ValidPrefix(levels)) > TOLERANCE
  {
    hide Depth;
    if notional > 0.0 && ValidPrefix(levels) != [] {
      assert ValidLevel(levels[0]);
      WalkCovers(levels, notional, TOLERANCE);
    }
  }

  // ---- Average fill on a sorted side

  /** Prices do not get better: rising asks, or falling bids. */
  predicate SortedSide(levels: seq<Level>, asks: bool) {
    forall i, j :: 0 <= i < j < |levels| ==>
      if asks then levels[i].price <= levels[j].price else levels[j].price <= levels[i].price
  }

  /** Base quantity for a notional that the depth covers, at tolerance zero. */
  function Base(levels: seq<Level>, notional: real): real
    requires AllValid(levels)
    decreases |levels|
  {
    if levels == [] || notional <= 0.0 then 0.0
    else
      var l := levels[0];
      assert ValidLevel(l);
      if notional <= Worth(l) then Bought(notional, l.price) else l.quantity + Base(levels[1..], notional - Worth(l))
  }

  /** Price of the last level consumed. */
  function LastPrice(levels: seq<Level>, notional: real): real
    requires AllValid(levels) && levels != []
    decreases |levels|
  {
    var l := levels[0];
    if |levels| == 1 || notional <= Worth(l) then l.price else LastPrice(levels[1..], notional - Worth(l))
  }

  lemma {:induction false} WalkIsBase(levels: seq<Level>, notional: real)
    requires AllValid(levels) && 0.0 < notional <= Depth(levels)
    ensures WalkLevels(levels, notional, 0.0) == Walked(Base(levels, notional), 0.0)
    decreases |levels|
  {
    hide Worth, Bought;
    assert ValidLevel(levels[0]);
    var l := levels[0];
    WorthPositive(l);
    if notional > Worth(l) {
      WalkIsBase(levels[1..], notional - Worth(l));
    }
  }

  /** `a` is no further from the best price than `b`. */
  predicate Ordered(asks: bool, a: real, b: real) { if asks then a <= b else b <= a }

  lemma MoreLevels(levels: seq<Level>, notional: real)
    requires levels != [] && notional <= Depth(levels) && notional > Worth(levels[0])
    ensures |levels| > 1
  {
    assert |levels| == 1 ==> Depth(levels) == Worth(levels[0]) + Depth([]);
  }

  /** The notional lies between the base quantity at the best and at the last price. */
  lemma {:induction false} CostBetween(levels: seq<Level>, notional: real, asks: bool)
    requires AllValid(levels) && SortedSide(levels, asks) && 0.0 < notional <= Depth(levels) && levels != []
    ensures var b, last, best := Base(levels, notional), LastPrice(levels, notional), levels[0].price;
      && b > 0.0 && last > 0.0 && Ordered(asks, best, last)
      && Ordered(asks, Times(best, b), notional) && Ordered(asks, notional, Times(last, b))
    decreases |levels|
  {
    hide Worth, Bought, Times;
    assert ValidLevel(levels[0]);
    var l := levels[0];
    WorthPositive(l);
    if notional <= Worth(l) {
      BoughtPositive(notional, l.price);
    } else {
      MoreLevels(levels, notional);
      var rest, left := levels[1..], notional - Worth(l);
      assert Ordered(asks, l.price, levels[1].price) && rest[0] == levels[1];
      CostBetween(rest, left, asks);
      SplitCost(l, rest[0].price, LastPrice(rest, left), Base(rest, left), left, asks);
    }
  }

  lemma SplitCost(l: Level, next: real, last: real, b: real, left: real, asks: bool)
    requires ValidLevel(l) && b > 0.0
    requires Ordered(asks, l.price, next) && Ordered(asks, next, last)
    requires Ordered(asks, Times(next, b), left) && Ordered(asks, left, Times(last, b))
    ensures Ordered(asks, Times(l.price, l.quantity + b), Worth(l) + left)
    ensures Ordered(asks, Worth(l) + left, Times(last, l.quantity + b))
  {
    hide Times, Worth;
    Distribute(l.price, l.quantity, b);
    Distribute(last, l.quantity, b);
    WorthIsTimes(l);
    if asks {
      TimesMonotone(l.price, next, b);
      TimesMonotone(l.price, last, l.quantity);
    } else {
      TimesMonotone(next, l.price, b);
      TimesMonotone(last, l.price, l.quantity);
    }
  }

  lemma Distribute(p: real, q: real, b: real)
    ensures Times(p, q + b) == Times(p, q) + Times(p, b)
  {
  }

  lemma WorthIsTimes(l: Level)
    ensures Worth(l) == Times(l.price, l.quantity)
  {
  }

  lemma TimesMonotone(x: real, y: real, k: real)
    requires x <= y && k >= 0.0
    ensures Times(x, k) <= Times(y, k)
  {
    ProductLe(x, y, k);
  }

  /** The average fill lies between the best price and the last consumed price. */
  lemma AverageBetween(levels: seq<Level>, notional: real, asks: bool)
    requires AllValid(levels) && SortedSide(levels, asks) && 0.0 < notional <= Depth(levels) && levels != []
    ensures Base(levels, notional) > 0.0
    ensures var average := notional / Base(levels, notional);
      Ordered(asks, levels[0].price, average) && Ordered(asks, average, LastPrice(levels, notional))
  {
    hide Base, LastPrice, Depth;
    CostBetween(levels, notional, asks);
    var b := Base(levels, notional);
    Ratio(notional, b, levels[0].price);
    Ratio(notional, b, LastPrice(levels, notional));
  }

  lemma Ratio(n: real, b: real, p: real)
    requires b > 0.0
    ensures p * b <= n <==> p <= n / b
    ensures n <= p * b <==> n / b <= p
  {
    assert n == n / b * b;
    var d := n / b - p;
    assert d * b == n - p * b;
    assert d > 0.0 ==> d * b > 0.0;
    assert d < 0.0 ==> d * b < 0.0;
  }

  /** Marginal quantity beyond n is bought no better than the last price at n. */
  lemma {:induction false} MarginalBase(levels: seq<Level>, n: real, m: real, asks: bool)
    requires AllValid(levels) && SortedSide(levels, asks) && 0.0 < n <= m <= Depth(levels) && levels != []
    ensures Ordered(asks, Times(LastPrice(levels, n), Base(levels, m) - Base(levels, n)), m - n)
    decreases |levels|
  {
    hide Worth, Bought, Times;
    assert ValidLevel(levels[0]);
    var l := levels[0];
    WorthPositive(l);
    if m <= Worth(l) {
      Difference(n, m, l.price);
    } else {
      MoreLevels(levels, m);
      var rest := levels[1..];
      if n > Worth(l) {
        MarginalBase(rest, n - Worth(l), m - Worth(l), asks);
      } else {
        assert Ordered(asks, l.price, levels[1].price) && rest[0] == levels[1];
        CostBetween(rest, m - Worth(l), asks);
        AcrossLevels(l, n, rest[0].price, Base(rest, m - Worth(l)), m - Worth(l), asks);
      }
    }
  }

  lemma Difference(n: real, m: real, p: real)
    requires p > 0.0
    ensures Times(p, Bought(m, p) - Bought(n, p)) == m - n
  {
    assert m / p * p == m && n / p * p == n;
  }

  lemma AcrossLevels(l: Level, n: real, next: real, b: real, left: real, asks: bool)
    requires ValidLevel(l) && b > 0.0
    requires Ordered(asks, Times(next, b), left) && Ordered(asks, l.price, next)
    ensures Ordered(asks, Times(l.price, l.quantity + b - Bought(n, l.price)), Worth(l) + left - n)
  {
    hide Times, Worth, Bought;
    var bought := Bought(n, l.price);
    Distribute(l.price, l.quantity + b - bought, bought);
    Distribute(l.price, l.quantity, b);
    WorthIsTimes(l);
    BoughtCost(n, l.price);
    if asks {
      TimesMonotone(l.price, next, b);
    } else {
      TimesMonotone(next, l.price, b);
    }
  }

  lemma BoughtCost(n: real, p: real)
    requires p > 0.0
    ensures Times(p, Bought(n, p)) == n
  {
  }

  /** The average price moves away from the best price as the notional grows. */
  lemma AverageMonotone(levels: seq<Level>, n: real, m: real, asks: bool)
    requires AllValid(levels) && SortedSide(levels, asks) && 0.0 < n <= m <= Depth(levels) && levels != []
    ensures Base(levels, n) > 0.0 && Base(levels, m) > 0.0
    ensures Ordered(asks, n / Base(levels, n), m / Base(levels, m))
  {
    hide Base, LastPrice, Depth, Times;
    CostBetween(levels, n, asks);
    CostBetween(levels, m, asks);
    MarginalBase(levels, n, m, asks);
    CrossMultiply(n, m, Base(levels, n), Base(levels, m), LastPrice(levels, n), asks);
    CompareRatios(n, Base(levels, n), m, Base(levels, m));
  }

  lemma CrossMultiply(n: real, m: real, b: real, c: real, last: real, asks: bool)
    requires 0.0 < n <= m && b > 0.0 && c > 0.0 && last > 0.0
    requires Ordered(asks, n, Times(last, b)) && Ordered(asks, Times(last, c - b), m - n)
    ensures if asks then Times(n, c) <= Times(m, b) else Times(m, b) <= Times(n, c)
  {
    hide Times;
    var e := c - b;
    Expand(n, m, b, c);
    Regroup(last, b, e);
    TimesSign(last, e);
    TimesSign(n, e);
    TimesSign(m - n, b);
    if asks {
      TimesMonotone(Times(last, e), m - n, b);
      if e >= 0.0 {
        TimesMonotone(n, Times(last, b), e);
      }
    } else {
      TimesMonotone(m - n, Times(last, e), b);
      TimesMonotone(Times(last, b), n, e);
    }
  }

  lemma Expand(n: real, m: real, b: real, c: real)
    ensures Times(n, c) - Times(m, b) == Times(n, c - b) - Times(m - n, b)
  {
  }

  lemma Regroup(last: real, b: real, e: real)
    ensures Times(Times(last, b), e) == Times(Times(last, e), b)
  {
  }

  lemma TimesSign(x: real, k: real)
    requires x >= 0.0
    ensures k <= 0.0 ==> Times(x, k) <= 0.0
    ensures k >= 0.0 ==> Times(x, k) >= 0.0
    ensures x > 0.0 && k < 0.0 ==> Times(x, k) < 0.0
  {
  }

  lemma CompareRatios(n: real, b: real, m: real, c: real)
    requires b > 0.0 && c > 0.0
    ensures Times(n, c) <= Times(m, b) <==> n / b <= m / c
    ensures Times(m, b) <= Times(n, c) <==> m / c <= n / b
  {
    var r := m / c;
    assert r * c == m;
    Ratio(n, b, r);
    assert m * b == r * b * c;
    var d := n - r * b;
    assert d * c == n * c - m * b;
    assert d > 0.0 ==> d * c > 0.0;
    assert d < 0.0 ==> d * c < 0.0;
  }

  /** Estimated slippage is nondecreasing in the notional, on either side, at tolerance zero. */
  lemma SlippageMonotone(levels: seq<Level>, n: real, m: real, asks: bool)
    requires AllValid(levels) && SortedSide(levels, asks) && 0.0 < n <= m <= Depth(levels) && levels != []
    ensures Slippage(levels, n, 0.0).Some? && Slippage(levels, m, 0.0).Some?
    ensures Slippage(levels, n, 0.0).value <= Slippage(levels, m, 0.0).value
  {
    hide Base, LastPrice, Depth, WalkLevels;
    assert ValidLevel(levels[0]);
    WalkIsBase(levels, n);
    WalkIsBase(levels, m);
    AverageBetween(levels, n, asks);
    AverageBetween(levels, m, asks);
    AverageMonotone(levels, n, m, asks);
    var best := levels[0].price;
    ScaledDistance(Abs(n / Base(levels, n) - best), Abs(m / Base(levels, m) - best), best);
  }

  lemma ScaledDistance(a: real, b: real, best: real)
    requires a <= b && best > 0.0
    ensures a / best * 100.0 <= b / best * 100.0
  {
    CompareRatios(a, best, b, best);
    assert a * best <= b * best;
  }

  // ---- The code's tolerance

  /** No cumulative depth lies below the notional by as little as the tolerance. */
  ghost predicate NoSliver(levels: seq<Level>, notional: real) {
    forall k :: 0 < k <= |levels| ==> !(Depth(levels[..k]) < notional <= Depth(levels[..k]) + TOLERANCE)
  }

  lemma NoSliverTail(levels: seq<Level>, notional: real)
    requires levels != [] && notional > Worth(levels[0]) + TOLERANCE
    ensures NoSliver(levels, notional) <==> NoSliver(levels[1..], notional - Worth(levels[0]))
  {
    hide Worth;
    var tail, rest := levels[1..], notional - Worth(levels[0]);
    forall k | 0 < k <= |levels|
      ensures Depth(levels[..k]) == Worth(levels[0]) + Depth(tail[..k - 1])
    {
      assert levels[..k][1..] == tail[..k - 1];
    }
    assert tail[..0] == [];
    if NoSliver(levels, notional) {
      forall k | 0 < k <= |tail|
        ensures !(Depth(tail[..k]) < rest <= Depth(tail[..k]) + TOLERANCE)
      {
        assert Depth(levels[..k + 1]) == Worth(levels[0]) + Depth(tail[..(k + 1) - 1]);
      }
    }
  }

  lemma NoSliverFirst(levels: seq<Level>, notional: real)
    requires levels != [] && AllValid(levels)
    ensures notional <= Worth(levels[0]) ==> NoSliver(levels, notional)
    ensures Worth(levels[0]) < notional <= Worth(levels[0]) + TOLERANCE ==> !NoSliver(levels, notional)
  {
    hide Worth;
    var l := levels[0];
    forall k | 0 < k <= |levels|
      ensures Depth(levels[..k]) >= Worth(l)
    {
      DepthNonNegative(levels[..k][1..]);
      assert levels[..k][0] == l;
    }
    assert levels[..1][1..] == [] && levels[..1][0] == l;
    assert Depth(levels[..1]) == Worth(l) + Depth([]);
  }

  /** The code's walk buys everything but a sliver within the tolerance, and everything exactly without a sliver. */
  lemma {:induction false} WalkLeavesSliver(levels: seq<Level>, notional: real) returns (sliver: real)
    requires AllValid(levels) && levels != [] && 0.0 < notional && notional - Depth(levels) <= TOLERANCE
    ensures 0.0 <= sliver <= TOLERANCE && sliver < notional && notional - sliver <= Depth(levels)
    ensures WalkLevels(levels, notional, TOLERANCE) == Walked(Base(levels, notional - sliver), sliver)
    ensures sliver == 0.0 <==> NoSliver(levels, notional)
    decreases |levels|
  {
    hide Worth, Bought, NoSliver;
    var l, tail := levels[0], levels[1..];
    assert ValidLevel(l);
    WorthPositive(l);
    DepthNonNegative(tail);
    NoSliverFirst(levels, notional);
    var rest := notional - Worth(l);
    if rest <= TOLERANCE {
      sliver := if rest > 0.0 then rest else 0.0;
    } else {
      NoSliverTail(levels, notional);
      assert tail != [];
      sliver := WalkLeavesSliver(tail, rest);
      assert Base(levels, notional - sliver) == l.quantity + Base(tail, rest - sliver);
    }
  }

  /**
   At the code's tolerance the average, less the sliver's share, still lies between
   the best and the last consumed price.
   */
  lemma CodeAverageBetween(levels: seq<Level>, notional: real, asks: bool) returns (sliver: real)
    requires AllValid(levels) && SortedSide(levels, asks) && levels != [] && 0.0 < notional
      && notional - Depth(levels) <= TOLERANCE
    ensures 0.0 <= sliver <= TOLERANCE && sliver < notional && (sliver == 0.0 <==> NoSliver(levels, notional))
    ensures var w := WalkLevels(levels, notional, TOLERANCE);
      && w.Walked? && w.base > 0.0 && w.remaining == sliver
      && var bought := notional / w.base - sliver / w.base;
      && Ordered(asks, levels[0].price, bought) && Ordered(asks, bought, LastPrice(levels, notional - sliver))
  {
    hide Base, LastPrice, Depth, WalkLevels, NoSliver;
    sliver := WalkLeavesSliver(levels, notional);
    AverageBetween(levels, notional - sliver, asks);
    SplitRatio(notional, sliver, Base(levels, notional - sliver));
  }

  lemma SplitRatio(x: real, y: real, b: real)
    requires b > 0.0
    ensures x / b - y / b == (x - y) / b
  {
    var p, q, r := x / b, y / b, (x - y) / b;
    assert p * b == x && q * b == y && r * b == x - y;
    assert (p - q - r) * b == 0.0;
    assert p - q - r > 0.0 ==> (p - q - r) * b > 0.0;
    assert p - q - r < 0.0 ==> (p - q - r) * b < 0.0;
  }

  /** The code's estimate is the exact one whenever there is no sliver. */
  lemma NoSliverIsExact(levels: seq<Level>, notional: real)
    requires AllValid(levels) && levels != [] && 0.0 < notional <= Depth(levels) && NoSliver(levels, notional)
    ensures Slippage(levels, notional, TOLERANCE) == Slippage(levels, notional, 0.0)
  {
    hide Base, Depth, WalkLevels, NoSliver;
    assert ValidLevel(levels[0]);
    var sliver := WalkLeavesSliver(levels, notional);
    WalkIsBase(levels, notional);
  }

  /** A larger notional never buys less. */
  lemma {:induction false} BaseMonotone(levels: seq<Level>, n: real, m: real)
    requires AllValid(levels) && n <= m
    ensures 0.0 <= Base(levels, n) <= Base(levels, m)
    decreases |levels|
  {
    hide Worth, Bought;
    if levels != [] {
      var l := levels[0];
      assert ValidLevel(l);
      WorthPositive(l);
      BaseMonotone(levels[1..], n - Worth(l), m - Worth(l));
      BoughtMonotone(n, m, l.price);
      BoughtMonotone(0.0, n, l.price);
      BoughtMonotone(n, Worth(l), l.price);
      BoughtMonotone(0.0, m, l.price);
    }
  }

  lemma BoughtMonotone(n: real, m: real, p: real)
    requires p > 0.0
    ensures n <= m ==> Bought(n, p) <= Bought(m, p)
    ensures n == 0.0 ==> Bought(n, p) == 0.0
  {
    var b, c := Bought(n, p), Bought(m, p);
    assert b * p == n && c * p == m;
    assert (c - b) * p == m - n;
    assert c - b < 0.0 ==> (c - b) * p < 0.0;
    assert n == 0.0 && b > 0.0 ==> b * p > 0.0;
    assert n == 0.0 && b < 0.0 ==> b * p < 0.0;
  }

  // ---- Spread

  function SpreadPercent(bids: seq<Level>, asks: seq<Level>): Option<real> {
    if bids == [] || asks == [] then None
    else
      var bid, ask := bids[0].price, asks[0].price;
      var mid := (bid + ask) / 2.0;
      if mid <= 0.0 || bid <= 0.0 || ask <= bid then None else Some((ask - bid) / mid * 100.0)
  }

  /** A spread is known exactly for an uncrossed, positive best bid and ask, and lies in (0, 200). */
  lemma SpreadRange(bids: seq<Level>, asks: seq<Level>)
    ensures var s := SpreadPercent(bids, asks);
      && (s.Some? <==> bids != [] && asks != [] && 0.0 < bids[0].price < asks[0].price)
      && (s.Some? ==> 0.0 < s.value < 200.0)
  {
    if bids != [] && asks != [] && 0.0 < bids[0].price < asks[0].price {
      var bid, ask := bids[0].price, asks[0].price;
      var mid := (bid + ask) / 2.0;
      Ratio(ask - bid, mid, 0.0);
      Ratio(ask - bid, mid, 2.0);
    }
  }
}
