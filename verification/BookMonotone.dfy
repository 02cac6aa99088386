/** When the slippage estimate grows with the notional, at the tolerance the walk really uses. */
module BookMonotone {
  import opened Common
  import opened OrderBook

  /** Both notionals have an estimate, and the larger one's is no smaller. */
  predicate NoFall(levels: seq<Level>, n: real, m: real) {
    var a, b := Slippage(levels, n, TOLERANCE), Slippage(levels, m, TOLERANCE);
    a.Some? && b.Some? && a.value <= b.value
  }

  predicate Estimated(levels: seq<Level>, n: real) { Slippage(levels, n, TOLERANCE).Some? }

  /** No notional with an estimate is estimated above a larger one. */
  ghost predicate NeverFalls(levels: seq<Level>) {
    forall n, m :: n <= m && Estimated(levels, n) && Estimated(levels, m) ==> NoFall(levels, n, m)
  }

  /** The same, only for notionals that the depth covers. */
  ghost predicate NeverFallsWithin(levels: seq<Level>) {
    forall n, m :: 0.0 < n <= m <= Depth(levels) ==> NoFall(levels, n, m)
  }

  /** On valid levels there is an estimate up to the depth and the tolerance. */
  lemma EstimatedExactly(levels: seq<Level>, n: real)
    requires AllValid(levels) && levels != []
    ensures Estimated(levels, n) <==> 0.0 < n && n - Depth(levels) <= TOLERANCE
  {
    hide Depth, Slippage;
    NoneExactlyWhenTooThin(levels, n);
  }

  /** Levels from the first invalid one on play no part in any estimate. */
  lemma OnlyValidLevelsCount(levels: seq<Level>, n: real)
    ensures Slippage(levels, n, TOLERANCE) == Slippage(ValidPrefix(levels), n, TOLERANCE)
  {
    hide WalkLevels, ValidPrefix, Depth;
    NoneExactlyWhenTooThin(levels, n);
    NoneExactlyWhenTooThin(ValidPrefix(levels), n);
    if levels != [] && ValidLevel(levels[0]) && n > 0.0 {
      PrefixWalksAlike(levels, n);
    }
  }

  lemma {:induction false} PrefixWalksAlike(levels: seq<Level>, n: real)
    ensures var w, v := WalkLevels(levels, n, TOLERANCE), WalkLevels(ValidPrefix(levels), n, TOLERANCE);
      w == v || (w.BadLevel? && v.Walked?)
    decreases |levels|
  {
    hide Worth, Bought;
    if levels != [] && ValidLevel(levels[0]) {
      var l := levels[0];
      assert ValidPrefix(levels)[0] == l && ValidPrefix(levels)[1..] == ValidPrefix(levels[1..]);
      PrefixWalksAlike(levels[1..], n - Min(n, Worth(l)));
    }
  }

  // ---- Estimates as distances from the best price

  /** How far the average of a walk lies from the best price. */
  function Off(best: real, n: real, base: real): real
    requires base > 0.0
  {
    Abs(n / base - best)
  }

  lemma EstimateIs(levels: seq<Level>, n: real, base: real, left: real)
    requires levels != [] && ValidLevel(levels[0]) && n > 0.0 && base > 0.0 && left <= TOLERANCE
    requires WalkLevels(levels, n, TOLERANCE) == Walked(base, left)
    ensures Slippage(levels, n, TOLERANCE) == Some(Off(levels[0].price, n, base) / levels[0].price * 100.0)
  {
    hide WalkLevels;
  }

  lemma PercentOrder(x: real, y: real, best: real)
    requires best > 0.0
    ensures x / best * 100.0 <= y / best * 100.0 <==> x <= y
  {
    var p, q := x / best, y / best;
    assert p * best == x && q * best == y;
    if p <= q {
      ProductLe(p, q, best);
    } else {
      ProductLt(q, p, best);
    }
  }

  /** Comparing two estimates is comparing the two distances. */
  lemma Compare(levels: seq<Level>, n: real, b: real, r: real, m: real, c: real, s: real)
    requires levels != [] && ValidLevel(levels[0]) && n > 0.0 && m > 0.0 && b > 0.0 && c > 0.0
    requires r <= TOLERANCE && WalkLevels(levels, n, TOLERANCE) == Walked(b, r)
    requires s <= TOLERANCE && WalkLevels(levels, m, TOLERANCE) == Walked(c, s)
    ensures NoFall(levels, n, m) <==> Off(levels[0].price, n, b) <= Off(levels[0].price, m, c)
  {
    hide WalkLevels, Off, Slippage;
    EstimateIs(levels, n, b, r);
    EstimateIs(levels, m, c, s);
    PercentOrder(Off(levels[0].price, n, b), Off(levels[0].price, m, c), levels[0].price);
  }

  // ---- The first level, with its sliver

  /** The walk of a notional that the first level covers up to the tolerance. */
  lemma FirstWalk(levels: seq<Level>, n: real)
    requires levels != [] && ValidLevel(levels[0]) && 0.0 < n <= Worth(levels[0]) + TOLERANCE
    ensures var l := levels[0];
      WalkLevels(levels, n, TOLERANCE)
      == if n <= Worth(l) then Walked(Bought(n, l.price), 0.0) else Walked(l.quantity, n - Worth(l))
  {
    hide Worth, Bought;
    WorthPositive(levels[0]);
  }

  /** Its distance from the best price: none within the level, the sliver's share beyond it. */
  function FirstOff(l: Level, n: real): real
    requires l.quantity > 0.0
  {
    if n <= Worth(l) then 0.0 else (n - Worth(l)) / l.quantity
  }

  lemma FirstOffIs(l: Level, n: real)
    requires ValidLevel(l) && n > 0.0
    ensures Bought(n, l.price) > 0.0
    ensures n <= Worth(l) ==> Off(l.price, n, Bought(n, l.price)) == FirstOff(l, n)
    ensures n > Worth(l) ==> Off(l.price, n, l.quantity) == FirstOff(l, n)
    ensures FirstOff(l, n) >= 0.0
  {
    var p, q := l.price, l.quantity;
    var b := Bought(n, p);
    assert b * p == n;
    BoughtPositive(n, p);
    var a := n / b;
    assert a * b == n;
    assert (a - p) * b == 0.0;
    ZeroFactor(a - p, b);
    var e, f := n / q, (n - Worth(l)) / q;
    assert e * q == n && f * q == n - p * q;
    assert (e - p - f) * q == 0.0;
    assert e - p - f > 0.0 ==> (e - p - f) * q > 0.0;
    assert e - p - f < 0.0 ==> (e - p - f) * q < 0.0;
    if n > Worth(l) {
      NonNegativeFactor(f, q);
    }
  }

  lemma FirstOffMonotone(l: Level, n: real, m: real)
    requires ValidLevel(l) && 0.0 < n <= m
    ensures FirstOff(l, n) <= FirstOff(l, m)
  {
    FirstOffIs(l, m);
    var x, y := n - Worth(l), m - Worth(l);
    var f, g := x / l.quantity, y / l.quantity;
    assert f * l.quantity == x && g * l.quantity == y;
    if f > g {
      ProductLt(g, f, l.quantity);
    }
  }

  /** Two notionals the first level covers up to the tolerance. */
  lemma FirstLevelRises(levels: seq<Level>, n: real, m: real)
    requires levels != [] && ValidLevel(levels[0]) && 0.0 < n <= m <= Worth(levels[0]) + TOLERANCE
    ensures NoFall(levels, n, m)
  {
    hide Worth, Bought, Off, FirstOff, WalkLevels, NoFall;
    var l := levels[0];
    FirstWalk(levels, n);
    FirstWalk(levels, m);
    FirstOffIs(l, n);
    FirstOffIs(l, m);
    FirstOffMonotone(l, n, m);
    var b, r := if n <= Worth(l) then Bought(n, l.price) else l.quantity, if n <= Worth(l) then 0.0 else n - Worth(l);
    var c, s := if m <= Worth(l) then Bought(m, l.price) else l.quantity, if m <= Worth(l) then 0.0 else m - Worth(l);
    Compare(levels, n, b, r, m, c, s);
  }

  // ---- Beyond the first level

  /** Past the first level's tolerance the walk is the first level and the walk of the rest. */
  lemma DeeperWalk(levels: seq<Level>, n: real)
    requires levels != [] && ValidLevel(levels[0]) && n > Worth(levels[0]) + TOLERANCE
    ensures var l, w := levels[0], WalkLevels(levels[1..], n - Worth(levels[0]), TOLERANCE);
      WalkLevels(levels, n, TOLERANCE) == if w.BadLevel? then BadLevel else Walked(l.quantity + w.base, w.remaining)
  {
    hide Worth, Bought;
    WorthPositive(levels[0]);
  }

  /** A walk buys at least what the first level it meets gives. */
  lemma WalkBuys(levels: seq<Level>, n: real)
    requires AllValid(levels) && levels != [] && 0.0 < n && n - Depth(levels) <= TOLERANCE
    ensures var w := WalkLevels(levels, n, TOLERANCE);
      w.Walked? && 0.0 <= w.remaining <= TOLERANCE && w.base >= Bought(Min(n, Worth(levels[0])), levels[0].price) > 0.0
  {
    hide Worth, Bought, WalkLevels, Depth, Base;
    var l := levels[0];
    assert ValidLevel(l);
    WorthPositive(l);
    BoughtPositive(Min(n, Worth(l)), l.price);
    var sliver := WalkLeavesSliver(levels, n);
    if n <= Worth(l) + TOLERANCE {
      FirstWalk(levels, n);
    } else {
      DeeperWalk(levels, n);
      TailDepth(levels);
      WalkCovers(levels[1..], n - Worth(l), TOLERANCE);
    }
  }

  lemma TailDepth(levels: seq<Level>)
    requires AllValid(levels) && levels != []
    ensures AllValid(levels[1..]) && Depth(levels) == Worth(levels[0]) + Depth(levels[1..])
    ensures Depth(levels) > Worth(levels[0]) ==> levels[1..] != []
  {
    hide Worth;
  }

  // ---- Asks

  /**
   On asks the average never falls below the best price, so a notional that leaves
   no sliver is never estimated above a larger one, whatever that one leaves.
   */
  lemma ExactAskRises(levels: seq<Level>, n: real, m: real)
    requires AllValid(levels) && SortedSide(levels, true) && levels != []
    requires 0.0 < n <= m && m - Depth(levels) <= TOLERANCE && NoSliver(levels, n)
    ensures NoFall(levels, n, m)
  {
    hide WalkLevels, Base, Depth, NoSliver, Off, NoFall, LastPrice, Times;
    assert ValidLevel(levels[0]);
    var r := WalkLeavesSliver(levels, n);
    var s := WalkLeavesSliver(levels, m);
    var b, c, d := Base(levels, n), Base(levels, m - s), Min(m, Depth(levels));
    AverageBetween(levels, n, true);
    AverageBetween(levels, m - s, true);
    AverageMonotone(levels, n, d, true);
    BaseMonotone(levels, m - s, d);
    LargerBase(d, c, Base(levels, d));
    LargerCost(d, m, c);
    OffAbove(levels[0].price, n, b, m, c);
    Compare(levels, n, b, r, m, c, s);
  }

  lemma LargerBase(m: real, c: real, d: real)
    requires m > 0.0 && 0.0 < c <= d
    ensures m / d <= m / c
  {
    var y := m / c;
    assert y * c == m;
    NonNegativeFactor(y, c);
    ProductLe(c, d, y);
    Ratio(m, d, y);
  }

  lemma LargerCost(d: real, m: real, c: real)
    requires d <= m && c > 0.0
    ensures d / c <= m / c
  {
    var x, y := d / c, m / c;
    assert x * c == d && y * c == m;
    if x > y {
      ProductLt(y, x, c);
    }
  }

  lemma OffAbove(best: real, n: real, b: real, m: real, c: real)
    requires b > 0.0 && c > 0.0 && best <= n / b <= m / c
    ensures Off(best, n, b) <= Off(best, m, c)
  {
  }

  /** Just above the first level's tolerance the estimate falls back. */
  lemma AskFalls(levels: seq<Level>) returns (n: real, m: real)
    requires AllValid(levels) && SortedSide(levels, true) && |levels| >= 2
    ensures 0.0 < n <= m && m - Depth(levels) <= TOLERANCE && !NoFall(levels, n, m)
    ensures Depth(levels) > Worth(levels[0]) + TOLERANCE ==> m <= Depth(levels)
  {
    hide WalkLevels, Depth, Off, NoFall, Worth, Bought, NoSliver, LastPrice;
    var l, tail := levels[0], levels[1..];
    assert ValidLevel(l);
    TailDepth(levels);
    assert ValidLevel(tail[0]);
    WorthPositive(l);
    WorthPositive(tail[0]);
    TailDepth(tail);
    DepthNonNegative(tail[1..]);
    n := Worth(l) + TOLERANCE;
    var room := if Depth(levels) > n then Depth(levels) - n else Depth(tail);
    var y := Bought(Min(TOLERANCE, Worth(tail[0])), tail[0].price);
    BoughtPositive(Min(TOLERANCE, Worth(tail[0])), tail[0].price);
    var step := SmallStep(n, y, l.quantity, room);
    m := n + step;
    FirstWalk(levels, n);
    DeeperWalk(levels, m);
    WalkBuys(tail, m - Worth(l));
    BoughtMonotone(Min(TOLERANCE, Worth(tail[0])), Min(m - Worth(l), Worth(tail[0])), tail[0].price);
    var w := WalkLevels(levels, m, TOLERANCE);
    var sliver := CodeAverageBetween(levels, m, true);
    AboveBest(levels[0].price, m, w.base, sliver);
    FirstOffIs(l, n);
    Fallback(l, n, m, step, y, w.base);
    Compare(levels, n, l.quantity, TOLERANCE, m, w.base, w.remaining);
  }

  /** A step so small that what it costs at the first level's average is less than y. */
  lemma SmallStep(n: real, y: real, q: real, room: real) returns (step: real)
    requires n > 0.0 && y > 0.0 && q > 0.0 && room > 0.0
    ensures 0.0 < step <= room && step * q < n * y
  {
    ProductPositive(n, y);
    var most := n * y / 2.0 / q;
    assert most * q == n * y / 2.0;
    assert most > 0.0 by {
      assert most <= 0.0 ==> most * q <= 0.0;
    }
    step := Min(room, most);
    ProductLe(step, most, q);
  }

  lemma AboveBest(best: real, m: real, base: real, sliver: real)
    requires base > 0.0 && sliver >= 0.0 && best <= m / base - sliver / base
    ensures best <= m / base
  {
    var s := sliver / base;
    assert s * base == sliver;
    NonNegativeFactor(s, base);
  }

  lemma Fallback(l: Level, n: real, m: real, step: real, y: real, base: real)
    requires ValidLevel(l) && n > Worth(l) && m == n + step && step * l.quantity < n * y && base >= l.quantity + y
      && y > 0.0
    requires base > 0.0 && l.price <= m / base
    ensures Off(l.price, m, base) < Off(l.price, n, l.quantity)
  {
    var q := l.quantity;
    ProductPositive(l.price, q);
    var a, b := m / base, n / q;
    assert a * base == m && b * q == n;
    assert m * q < n * base by {
      assert m * q == n * q + step * q;
      ProductLe(q + y, base, n);
      assert (q + y) * n == n * q + n * y;
    }
    if a >= b {
      ProductLe(b, a, base);
      ProductLe(b * base, m, q);
      assert b * base * q == n * base;
    }
  }

  /**
   For asks within the depth: the estimate never falls exactly when all depth lies
   within the first level and the tolerance.
   */
  lemma AsksWithin(levels: seq<Level>)
    requires AllValid(levels) && SortedSide(levels, true) && levels != []
    ensures NeverFallsWithin(levels) <==> Depth(levels) <= Worth(levels[0]) + TOLERANCE
  {
    hide NoFall, Worth, Depth;
    assert ValidLevel(levels[0]);
    if Depth(levels) <= Worth(levels[0]) + TOLERANCE {
      forall n, m | 0.0 < n <= m <= Depth(levels)
        ensures NoFall(levels, n, m)
      {
        FirstLevelRises(levels, n, m);
      }
    } else {
      TailDepth(levels);
      var n, m := AskFalls(levels);
    }
  }

  /** A plain book that breaks it: two equal levels, and a notional just above the first. */
  lemma SliverBreaksMonotone()
    ensures var levels, n := [Level(1.0, 1.0), Level(1.0, 1.0)], 1.0 + TOLERANCE / 10.0;
      && AllValid(levels) && SortedSide(levels, true) && n <= 2.0 <= Depth(levels)
      && Slippage(levels, n, TOLERANCE).Some? && Slippage(levels, 2.0, TOLERANCE).Some?
      && Slippage(levels, n, TOLERANCE).value > Slippage(levels, 2.0, TOLERANCE).value
  {
    hide WalkLevels, Worth;
    var levels, n, tail := [Level(1.0, 1.0), Level(1.0, 1.0)], 1.0 + TOLERANCE / 10.0, [Level(1.0, 1.0)];
    assert levels == [Level(1.0, 1.0)] + tail && tail == [Level(1.0, 1.0)] + [];
    UnitDepth(tail);
    UnitDepth([]);
    UnitStep(tail, n);
    UnitStep(tail, 2.0);
    UnitStep([], 1.0);
  }

  lemma UnitDepth(tail: seq<Level>)
    ensures Depth([Level(1.0, 1.0)] + tail) == 1.0 + Depth(tail)
  {
    assert ([Level(1.0, 1.0)] + tail)[1..] == tail;
  }

  lemma UnitStep(tail: seq<Level>, n: real)
    requires n >= 1.0
    ensures var levels, rest := [Level(1.0, 1.0)] + tail, WalkLevels(tail, n - 1.0, TOLERANCE);
      WalkLevels(levels, n, TOLERANCE)
      == if n - 1.0 <= TOLERANCE then Walked(1.0, n - 1.0)
         else if rest.BadLevel? then BadLevel else Walked(1.0 + rest.base, rest.remaining)
  {
    hide Worth, Bought, ValidLevel;
    var l := Level(1.0, 1.0);
    var levels := [l] + tail;
    assert levels[1..] == tail && levels[0] == l;
    UnitLevel();
    assert Min(n, Worth(l)) == 1.0;
  }

  lemma UnitLevel()
    ensures ValidLevel(Level(1.0, 1.0)) && Worth(Level(1.0, 1.0)) == 1.0 && Bought(1.0, 1.0) == 1.0
  {
  }

  // ---- Bids

  function Quantity(levels: seq<Level>): real {
    if levels == [] then 0.0 else levels[0].quantity + Quantity(levels[1..])
  }

  /** Just above the end of level k - 1 the walk has bought everything up to it, unless it stopped before. */
  lemma {:induction false} PrefixWalk(levels: seq<Level>, k: nat, extra: real)
    requires AllValid(levels) && 0 < k <= |levels| && 0.0 <= extra <= TOLERANCE < extra + Worth(levels[k - 1])
    ensures WalkLevels(levels, Depth(levels[..k]) + extra, TOLERANCE) == Walked(Quantity(levels[..k]), extra)
    ensures Depth(levels[..k]) > 0.0 && Quantity(levels[..k]) > 0.0
    decreases k
  {
    hide Worth, Bought, WalkLevels;
    var l, tail := levels[0], levels[1..];
    assert ValidLevel(l);
    WorthPositive(l);
    assert levels[..k][1..] == tail[..k - 1] && levels[..k][0] == l;
    assert Depth(levels[..k]) == Worth(l) + Depth(tail[..k - 1]);
    assert Quantity(levels[..k]) == l.quantity + Quantity(tail[..k - 1]);
    if k == 1 {
      assert tail[..0] == [];
      FirstWalk(levels, Worth(l) + extra);
    } else {
      PrefixWalk(tail, k - 1, extra);
      DepthAtLeast(tail, k - 1);
      DeeperWalk(levels, Depth(levels[..k]) + extra);
    }
  }

  /** A prefix is worth at least its last level. */
  lemma {:induction false} DepthAtLeast(levels: seq<Level>, k: nat)
    requires AllValid(levels) && 0 < k <= |levels|
    ensures Depth(levels[..k]) >= Worth(levels[k - 1])
    decreases k
  {
    hide Worth;
    assert levels[..k][1..] == levels[1..][..k - 1] && levels[..k][0] == levels[0];
    DepthNonNegative(levels[..k][1..]);
    WorthPositive(levels[0]);
    if k > 1 {
      DepthAtLeast(levels[1..], k - 1);
    }
  }

  /** A prefix that ends on a worse price costs less than its quantity at the best price. */
  lemma {:induction false} PrefixDiscount(levels: seq<Level>, k: nat, best: real)
    requires AllValid(levels) && 0 < k <= |levels| && levels[k - 1].price < best
    requires forall i :: 0 <= i < k ==> levels[i].price <= best
    ensures Depth(levels[..k]) < Times(best, Quantity(levels[..k]))
    decreases k
  {
    hide Times, Worth;
    var l, tail := levels[0], levels[1..];
    assert ValidLevel(l);
    assert levels[..k][1..] == tail[..k - 1] && levels[..k][0] == l;
    TimesAdds(best, l.quantity, Quantity(tail[..k - 1]));
    WorthDiscount(l, best);
    if k == 1 {
      assert tail[..0] == [];
      TimesAdds(best, 0.0, 0.0);
    } else {
      PrefixDiscount(tail, k - 1, best);
    }
  }

  lemma TimesAdds(x: real, y: real, z: real)
    ensures Times(x, y + z) == Times(x, y) + Times(x, z)
    ensures Times(x, 0.0) == 0.0
  {
  }

  lemma WorthDiscount(l: Level, best: real)
    requires ValidLevel(l)
    ensures l.price <= best ==> Worth(l) <= Times(best, l.quantity)
    ensures l.price < best ==> Worth(l) < Times(best, l.quantity)
  {
    if l.price < best {
      ProductLt(l.price, best, l.quantity);
    }
  }

  lemma {:induction false} PrefixShallower(levels: seq<Level>, k: nat)
    requires AllValid(levels) && k < |levels|
    ensures Depth(levels[..k]) < Depth(levels)
  {
    hide Worth;
    WorthPositive(levels[0]);
    DepthNonNegative(levels[1..]);
    if k > 0 {
      assert levels[..k][1..] == levels[1..][..k - 1] && levels[..k][0] == levels[0];
      PrefixShallower(levels[1..], k - 1);
    }
  }

  /** Averages below the best price: more notional for the same quantity moves the average towards it. */
  lemma CloserToBest(best: real, n: real, m: real, q: real)
    requires q > 0.0 && n < m <= Times(best, q)
    ensures Off(best, m, q) < Off(best, n, q)
  {
    var a, b := n / q, m / q;
    assert a * q == n && b * q == m;
    assert (b - a) * q == m - n && (best - b) * q == Times(best, q) - m;
    NonNegativeFactor(best - b, q);
    assert b - a <= 0.0 ==> (b - a) * q <= 0.0;
  }

  /** Bids, at the end of a level worse than the best: the sliver just above it lowers the estimate. */
  lemma BidFallsBehind(levels: seq<Level>, k: nat) returns (n: real, m: real)
    requires AllValid(levels) && SortedSide(levels, false) && 0 < k <= |levels|
    requires levels[k - 1].price < levels[0].price && Worth(levels[k - 1]) > TOLERANCE
    ensures 0.0 < n <= m && m - Depth(levels) <= TOLERANCE && !NoFall(levels, n, m)
    ensures k < |levels| ==> m <= Depth(levels)
  {
    hide WalkLevels, Depth, Quantity, Off, NoFall, Worth, Times;
    var best, q := levels[0].price, Quantity(levels[..k]);
    assert ValidLevel(levels[0]);
    n := Depth(levels[..k]);
    PrefixDiscount(levels, k, best);
    var room := TOLERANCE;
    if k < |levels| {
      PrefixShallower(levels, k);
      room := Min(TOLERANCE, Depth(levels) - n);
    } else {
      assert levels[..k] == levels;
    }
    var extra := Min(room, Times(best, q) - n);
    m := n + extra;
    PrefixWalk(levels, k, 0.0);
    PrefixWalk(levels, k, extra);
    CloserToBest(best, n, m, q);
    Compare(levels, n, q, 0.0, m, q, extra);
  }

  lemma {:induction false} QuantityAbove(levels: seq<Level>, best: real)
    requires AllValid(levels) && levels != [] && forall i :: 0 <= i < |levels| ==> levels[i].price <= best
    ensures Depth(levels) <= Times(best, Quantity(levels))
    ensures Quantity(levels) >= levels[0].quantity && (|levels| >= 2 ==> Quantity(levels) > levels[0].quantity)
  {
    hide Worth, Times;
    var l, tail := levels[0], levels[1..];
    assert ValidLevel(l);
    TimesAdds(best, l.quantity, Quantity(tail));
    WorthDiscount(l, best);
    if tail != [] {
      assert forall i :: 0 <= i < |tail| ==> tail[i] == levels[i + 1];
      QuantityAbove(tail, best);
      assert ValidLevel(tail[0]);
    }
  }

  /** The sliver of a whole tolerance takes less from the average of a larger quantity. */
  lemma SmallerShare(best: real, m: real, q: real, first: real)
    requires 0.0 < first < q && Times(best, q) < m && m - TOLERANCE <= Times(best, q)
    ensures Off(best, m, q) < TOLERANCE / first
  {
    var a, b := m / q, TOLERANCE / first;
    var e := a - best;
    assert a * q == m && b * first == TOLERANCE;
    assert e * q == m - Times(best, q);
    assert e <= 0.0 ==> e * q <= 0.0;
    NonNegativeFactor(b, first);
    assert b != 0.0;
    ProductLt(first, q, b);
    assert first * b == b * first && q * b == b * q;
    if e >= b {
      ProductLe(b, e, q);
    }
  }

  /** Bids with more than one level: the estimate falls at the end of the book or behind the first level. */
  lemma BidFalls(levels: seq<Level>) returns (n: real, m: real)
    requires AllValid(levels) && SortedSide(levels, false) && |levels| >= 2
    ensures 0.0 < n <= m && m - Depth(levels) <= TOLERANCE && !NoFall(levels, n, m)
  {
    hide WalkLevels, Depth, Quantity, Off, NoFall, Worth, Times, FirstOff;
    var l, last, best, q := levels[0], levels[|levels| - 1], levels[0].price, Quantity(levels);
    assert ValidLevel(l) && ValidLevel(last) && levels[..|levels|] == levels;
    WorthPositive(l);
    WorthPositive(last);
    QuantityAbove(levels, best);
    m := Depth(levels) + TOLERANCE;
    PrefixWalk(levels, |levels|, TOLERANCE);
    if m <= Times(best, q) {
      var extra := TOLERANCE - Min(TOLERANCE, Worth(last)) / 2.0;
      n := Depth(levels) + extra;
      PrefixWalk(levels, |levels|, extra);
      CloserToBest(best, n, m, q);
      Compare(levels, n, q, extra, m, q, TOLERANCE);
    } else {
      n := Worth(l) + TOLERANCE;
      TailDepth(levels);
      DepthNonNegative(levels[1..]);
      FirstWalk(levels, n);
      FirstOffIs(l, n);
      FirstOffEnd(l);
      SmallerShare(best, m, q, l.quantity);
      Compare(levels, n, l.quantity, TOLERANCE, m, q, TOLERANCE);
    }
  }

  lemma FirstOffEnd(l: Level)
    requires ValidLevel(l)
    ensures FirstOff(l, Worth(l) + TOLERANCE) == TOLERANCE / l.quantity
  {
  }

  // ---- The exact condition

  /** Over all notionals with an estimate, on either side: the estimate never falls exactly on a single level. */
  lemma SingleLevelExactly(levels: seq<Level>, asks: bool)
    requires AllValid(levels) && SortedSide(levels, asks) && levels != []
    ensures NeverFalls(levels) <==> |levels| == 1
  {
    hide NoFall, Worth, Depth, Estimated;
    assert ValidLevel(levels[0]);
    if |levels| == 1 {
      OneDepth(levels);
      forall n, m | n <= m && Estimated(levels, n) && Estimated(levels, m)
        ensures NoFall(levels, n, m)
      {
        EstimatedExactly(levels, n);
        EstimatedExactly(levels, m);
        FirstLevelRises(levels, n, m);
      }
    } else {
      var n, m;
      if asks {
        n, m := AskFalls(levels);
      } else {
        n, m := BidFalls(levels);
      }
      EstimatedExactly(levels, n);
      EstimatedExactly(levels, m);
    }
  }

  /** The same for any list of levels: only those before the first invalid one matter. */
  lemma NeverFallsExactly(levels: seq<Level>, asks: bool)
    requires SortedSide(ValidPrefix(levels), asks)
    ensures NeverFalls(levels) <==> |ValidPrefix(levels)| <= 1
  {
    hide Slippage, ValidPrefix;
    var prefix := ValidPrefix(levels);
    forall n
      ensures Slippage(levels, n, TOLERANCE) == Slippage(prefix, n, TOLERANCE)
    {
      OnlyValidLevelsCount(levels, n);
    }
    SameFalls(levels, prefix);
    if prefix != [] {
      SingleLevelExactly(prefix, asks);
    } else {
      NothingEstimated(prefix);
    }
  }

  lemma SameFalls(levels: seq<Level>, prefix: seq<Level>)
    requires forall n :: Slippage(levels, n, TOLERANCE) == Slippage(prefix, n, TOLERANCE)
    ensures NeverFalls(levels) <==> NeverFalls(prefix)
  {
    hide Slippage;
    forall n, m
      ensures NoFall(levels, n, m) <==> NoFall(prefix, n, m)
      ensures Estimated(levels, n) <==> Estimated(prefix, n)
    {
    }
  }

  lemma NothingEstimated(levels: seq<Level>)
    requires levels == []
    ensures NeverFalls(levels)
  {
  }

  // ---- Bids within the depth

  /** What a worse second price takes from the average, t beyond the first level. */
  function SecondOff(p: real, q: real, p1: real, t: real): real
    requires p1 * q + t > 0.0
  {
    t * (p - p1) / (p1 * q + t)
  }

  /** The walk of a notional that ends within the second level. */
  lemma SecondWalk(levels: seq<Level>, t: real)
    requires AllValid(levels) && |levels| >= 2 && TOLERANCE < t <= Worth(levels[1])
      && levels[1].price <= levels[0].price
    ensures levels[1].price * levels[0].quantity + t > 0.0
    ensures var l, r := levels[0], levels[1];
      var c := l.quantity + Bought(t, r.price);
      && c > 0.0 && WalkLevels(levels, Worth(l) + t, TOLERANCE) == Walked(c, 0.0)
      && Off(l.price, Worth(l) + t, c) == SecondOff(l.price, l.quantity, r.price, t)
  {
    hide WalkLevels, Off, SecondOff;
    var l, r := levels[0], levels[1];
    assert ValidLevel(l) && ValidLevel(r) && levels[1..][0] == r;
    BoughtPositive(t, r.price);
    WorthPositive(l);
    DeeperWalk(levels, Worth(l) + t);
    FirstWalk(levels[1..], t);
    ProductPositive(r.price, l.quantity);
    SecondAverage(l.price, l.quantity, r.price, t, Bought(t, r.price), Worth(l) + t);
  }

  lemma SecondAverage(p: real, q: real, p1: real, t: real, b: real, n: real)
    requires q > 0.0 && b > 0.0 && 0.0 < p1 <= p && t > 0.0 && b * p1 == t && p1 * q + t > 0.0 && n == p * q + t
    ensures Off(p, n, q + b) == SecondOff(p, q, p1, t)
  {
    var c, d := q + b, p1 * q + t;
    var a, f := n / c, SecondOff(p, q, p1, t);
    assert a * c == n && f * d == t * (p - p1);
    assert p1 * c == d;
    assert (p - a) * c == p * b - t;
    assert p1 * (p * b - t) == t * (p - p1);
    assert (p - a) * d == t * (p - p1) by {
      assert (p - a) * (p1 * c) == p1 * ((p - a) * c);
    }
    assert (p - a - f) * d == 0.0;
    ZeroFactor(p - a - f, d);
    ProductNonNegative(t, p - p1);
    NonNegativeFactor(f, d);
  }

  /** The second level's price is close enough to the best that crossing to it lowers the estimate. */
  predicate SmallStepDown(first: Level, second: Level) {
    Worth(first) < 2.0 * second.price * first.quantity + TOLERANCE
  }

  lemma CrossProducts(p: real, q: real, p1: real, t: real)
    requires p > 0.0 && q > 0.0 && 0.0 < p1 <= p && t > 0.0 && p1 * q + t > 0.0
    ensures SecondOff(p, q, p1, t) < TOLERANCE / q <==> t * (p * q - p1 * q) < TOLERANCE * (p1 * q + t)
    ensures SecondOff(p, q, p1, t) >= TOLERANCE / q <==> t * (p * q - p1 * q) >= TOLERANCE * (p1 * q + t)
  {
    var d := p1 * q + t;
    var x, y := t * (p - p1), TOLERANCE;
    CompareRatios(x, d, y, q);
    assert Times(x, q) == t * (p * q - p1 * q) && Times(y, d) == TOLERANCE * d;
  }

  /** Crossing into the second level. */
  lemma BidFallsAcross(levels: seq<Level>) returns (n: real, m: real)
    requires AllValid(levels) && SortedSide(levels, false) && |levels| >= 2
    requires Worth(levels[1]) > TOLERANCE && SmallStepDown(levels[0], levels[1])
    ensures 0.0 < n <= m <= Depth(levels) && !NoFall(levels, n, m)
  {
    hide WalkLevels, Depth, Off, NoFall, SecondOff, Bought;
    var l, r := levels[0], levels[1];
    assert ValidLevel(l) && ValidLevel(r);
    WorthPositive(l);
    TailDepth(levels);
    TailDepth(levels[1..]);
    DepthNonNegative(levels[1..][1..]);
    var u, g := r.price * l.quantity, 2.0 * (r.price * l.quantity) + TOLERANCE - Worth(l);
    var t := CrossingStep(Worth(l), u, g, Worth(r));
    n := Worth(l) + TOLERANCE;
    m := Worth(l) + t;
    FirstWalk(levels, n);
    FirstOffIs(l, n);
    SecondWalk(levels, t);
    CrossProducts(l.price, l.quantity, r.price, t);
    Compare(levels, n, l.quantity, TOLERANCE, m, l.quantity + Bought(t, r.price), 0.0);
  }

  lemma CrossingStep(w: real, u: real, g: real, room: real) returns (t: real)
    requires w > 0.0 && u > 0.0 && g == 2.0 * u + TOLERANCE - w && g > 0.0 && room > TOLERANCE
    ensures TOLERANCE < t <= room && t * (w - u) < TOLERANCE * (u + t)
  {
    var most := TOLERANCE * g / 2.0 / w;
    assert most * w == TOLERANCE * g / 2.0;
    assert most > 0.0 by {
      assert most <= 0.0 ==> most * w <= 0.0;
    }
    var e := Min(room - TOLERANCE, most);
    t := TOLERANCE + e;
    ProductLe(e, most, w);
    var h := w - u - TOLERANCE;
    ProductLe(h, w, e);
    ProductPositive(TOLERANCE, g);
    assert h * e < TOLERANCE * g;
    assert t * (w - u) - TOLERANCE * (u + t) == h * e - TOLERANCE * g;
  }

  /** Two levels with a large step down: the estimate rises throughout. */
  lemma TwoBidsRise(levels: seq<Level>, n: real, m: real)
    requires AllValid(levels) && SortedSide(levels, false) && |levels| == 2
    requires Worth(levels[1]) > TOLERANCE && !SmallStepDown(levels[0], levels[1]) && 0.0 < n <= m <= Depth(levels)
    ensures NoFall(levels, n, m)
  {
    hide WalkLevels, Depth, Off, NoFall, SecondOff, Bought, FirstOff;
    var l, r := levels[0], levels[1];
    assert ValidLevel(l) && ValidLevel(r);
    WorthPositive(l);
    TwoDepth(levels);
    if m <= Worth(l) + TOLERANCE {
      FirstLevelRises(levels, n, m);
    } else {
      var t := m - Worth(l);
      SecondWalk(levels, t);
      var c := l.quantity + Bought(t, r.price);
      if n <= Worth(l) + TOLERANCE {
        FirstWalk(levels, n);
        FirstOffIs(l, n);
        FirstOffMost(l, n);
        LargeStep(l.price, l.quantity, r.price, t);
        var b := if n <= Worth(l) then Bought(n, l.price) else l.quantity;
        var left := if n <= Worth(l) then 0.0 else n - Worth(l);
        Compare(levels, n, b, left, m, c, 0.0);
      } else {
        var s := n - Worth(l);
        SecondWalk(levels, s);
        SecondRises(l.price, l.quantity, r.price, s, t);
        Compare(levels, n, l.quantity + Bought(s, r.price), 0.0, m, c, 0.0);
      }
    }
  }

  lemma TwoDepth(levels: seq<Level>)
    requires |levels| == 2
    ensures Depth(levels) == Worth(levels[0]) + Worth(levels[1])
  {
    hide Worth;
    assert levels[1..][1..] == [] && levels[1..][0] == levels[1];
    assert Depth(levels[1..]) == Worth(levels[1]) + Depth([]);
  }

  lemma FirstOffMost(l: Level, n: real)
    requires ValidLevel(l) && 0.0 < n <= Worth(l) + TOLERANCE
    ensures FirstOff(l, n) <= TOLERANCE / l.quantity
  {
    FirstOffMonotone(l, n, Worth(l) + TOLERANCE);
  }

  lemma LargeStep(p: real, q: real, p1: real, t: real)
    requires p > 0.0 && q > 0.0 && 0.0 < p1 <= p && t > TOLERANCE && p * q >= 2.0 * p1 * q + TOLERANCE
    ensures p1 * q + t > 0.0 && SecondOff(p, q, p1, t) >= TOLERANCE / q
  {
    ProductPositive(p1, q);
    CrossProducts(p, q, p1, t);
    LargeStepProducts(p1 * q, p * q, t);
  }

  lemma LargeStepProducts(u: real, w: real, t: real)
    requires u > 0.0 && t > TOLERANCE && w >= 2.0 * u + TOLERANCE
    ensures t * (w - u) >= TOLERANCE * (u + t)
  {
    var v := w - u;
    ProductLe(u + TOLERANCE, v, t);
    ProductLe(TOLERANCE, t, u);
    assert (u + TOLERANCE) * t == t * u + TOLERANCE * t;
  }

  lemma SecondRises(p: real, q: real, p1: real, s: real, t: real)
    requires p > 0.0 && q > 0.0 && 0.0 < p1 <= p && 0.0 < s <= t && p1 * q + s > 0.0 && p1 * q + t > 0.0
    ensures SecondOff(p, q, p1, s) <= SecondOff(p, q, p1, t)
  {
    ProductPositive(p1, q);
    var u, d := p1 * q, p - p1;
    CompareRatios(s * d, u + s, t * d, u + t);
    ProductLe(s, t, u * d);
    ProductNonNegative(u, d);
    assert Times(s * d, u + t) == s * (u * d) + s * t * d && Times(t * d, u + s) == t * (u * d) + s * t * d;
  }

  /**
   For bids within the depth, with a second level worth more than the tolerance: the
   estimate never falls exactly on a single level, or on two with so large a step
   down that the second price is less than half the best.
   */
  lemma BidsWithin(levels: seq<Level>)
    requires AllValid(levels) && SortedSide(levels, false) && levels != []
    requires |levels| >= 2 ==> Worth(levels[1]) > TOLERANCE
    ensures NeverFallsWithin(levels) <==> |levels| == 1 || (|levels| == 2 && !SmallStepDown(levels[0], levels[1]))
  {
    hide NoFall, Worth, Depth, SmallStepDown;
    assert ValidLevel(levels[0]);
    if |levels| == 1 {
      OneDepth(levels);
      forall n, m | 0.0 < n <= m <= Depth(levels)
        ensures NoFall(levels, n, m)
      {
        FirstLevelRises(levels, n, m);
      }
    } else if |levels| == 2 && !SmallStepDown(levels[0], levels[1]) {
      forall n, m | 0.0 < n <= m <= Depth(levels)
        ensures NoFall(levels, n, m)
      {
        TwoBidsRise(levels, n, m);
      }
    } else if SmallStepDown(levels[0], levels[1]) {
      var n, m := BidFallsAcross(levels);
    } else {
      EqualPricesStep(levels[0], levels[1]);
      var n, m := BidFallsBehind(levels, 2);
    }
  }

  lemma OneDepth(levels: seq<Level>)
    requires |levels| == 1
    ensures Depth(levels) == Worth(levels[0])
  {
    assert levels[1..] == [];
  }

  lemma EqualPricesStep(first: Level, second: Level)
    requires ValidLevel(first) && ValidLevel(second) && !SmallStepDown(first, second)
    ensures second.price != first.price
  {
    ProductPositive(first.price, first.quantity);
  }

  /** The code's estimate rises between notionals without a sliver; on asks the larger one may leave one. */
  lemma CodeSlippageMonotone(levels: seq<Level>, n: real, m: real, asks: bool)
    requires AllValid(levels) && SortedSide(levels, asks) && levels != []
    requires 0.0 < n <= m && m - Depth(levels) <= TOLERANCE
    requires NoSliver(levels, n) && (asks || NoSliver(levels, m))
    ensures NoFall(levels, n, m)
  {
    hide Depth, NoSliver, Slippage;
    if asks {
      ExactAskRises(levels, n, m);
    } else {
      var r := WalkLeavesSliver(levels, m);
      NoSliverIsExact(levels, n);
      NoSliverIsExact(levels, m);
      SlippageMonotone(levels, n, m, asks);
    }
  }
}
