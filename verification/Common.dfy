/** Values and small facts shared by every component of the model. */
module Common {

  datatype Option<+T> = None | Some(value: T)

  /** A strategy's side. Code that tests only for `Long` treats both others alike. */
  datatype Direction = Long | Short | NoSetup

  /** Fields that the data models restrict to positive or non-negative numbers. */
  type PosReal = r: real | r > 0.0 witness 1.0
  type NonNegReal = r: real | r >= 0.0

  function Max(a: real, b: real): real { if a >= b then a else b }

  function Min(a: real, b: real): real { if a <= b then a else b }

  function Abs(a: real): real { if a < 0.0 then -a else a }

  function Sign(direction: Direction): real {
    if direction == Long then 1.0 else -1.0
  }

  function Self(x: real): real { x }

  // ---- Products and quotients

  lemma ProductPositive(x: real, y: real)
    requires x > 0.0 && y > 0.0
    ensures x * y > 0.0
  {
  }

  lemma ProductNonNegative(x: real, y: real)
    requires x >= 0.0 && y >= 0.0
    ensures x * y >= 0.0
  {
  }

  lemma ProductLe(x: real, y: real, k: real)
    requires x <= y && k >= 0.0
    ensures x * k <= y * k
  {
    var d := y - x;
    assert d * k >= 0.0;
    assert d * k == y * k - x * k;
  }

  lemma ProductLt(x: real, y: real, k: real)
    requires x < y && k > 0.0
    ensures x * k < y * k
  {
    var d := y - x;
    assert d * k > 0.0;
    assert d * k == y * k - x * k;
  }

  lemma NonNegativeFactor(x: real, k: real)
    requires k > 0.0 && x * k >= 0.0
    ensures x >= 0.0
  {
    assert x < 0.0 ==> x * k < 0.0;
  }

  /** Comparing a ratio is comparing products. */
  lemma RatioExactly(n: real, d: real, q: real)
    requires d > 0.0
    ensures n / d >= q <==> n >= q * d
    ensures n / d <= q <==> n <= q * d
  {
    var r := n / d;
    assert r * d == n;
    var e := r - q;
    assert e * d == n - q * d;
    assert e > 0.0 ==> e * d > 0.0;
    assert e < 0.0 ==> e * d < 0.0;
  }

  lemma ZeroFactor(x: real, k: real)
    requires k > 0.0 && x * k == 0.0
    ensures x == 0.0
  {
    assert x < 0.0 ==> x * k < 0.0;
    assert x > 0.0 ==> x * k > 0.0;
  }

  lemma WholeFactor(e: int, d: int)
    requires d > 0
    ensures e >= 1 ==> e * d >= d
    ensures e <= -1 ==> e * d <= -d
  {
    if e >= 1 {
      assert (e - 1) * d >= 0;
    } else if e <= -1 {
      assert (-e - 1) * d >= 0;
    }
  }

  /** Quotient and remainder are unique. */
  lemma DivMod(x: int, d: int, q: int, r: int)
    requires 0 <= r < d && x == q * d + r
    ensures x / d == q && x % d == r
  {
    var p, s := x / d, x % d;
    assert x == p * d + s;
    var e := p - q;
    WholeFactor(e, d);
    assert e * d == p * d - q * d;
  }

  // ---- Names

  /** The order of strings by their characters. */
  predicate StringLe(a: string, b: string) {
    if a == [] then true
    else if b == [] then false
    else if a[0] != b[0] then a[0] < b[0]
    else StringLe(a[1..], b[1..])
  }

  lemma {:induction false} StringTotal(a: string, b: string)
    ensures StringLe(a, b) || StringLe(b, a)
  {
    if a != [] && b != [] && a[0] == b[0] {
      StringTotal(a[1..], b[1..]);
    }
  }

  lemma {:induction false} StringTransitive(a: string, b: string, c: string)
    requires StringLe(a, b) && StringLe(b, c)
    ensures StringLe(a, c)
  {
    if a != [] && b != [] && c != [] && a[0] == b[0] == c[0] {
      StringTransitive(a[1..], b[1..], c[1..]);
    }
  }

  // ---- Runs

  /** k is the length of the run of losing results at the end of the list. */
  predicate IsTrailingRun<T>(net: T -> real, results: seq<T>, k: nat) {
    && k <= |results|
    && (forall i :: |results| - k <= i < |results| ==> net(results[i]) < 0.0)
    && (k < |results| ==> net(results[|results| - k - 1]) >= 0.0)
  }

  lemma TrailingRunSnoc<T>(net: T -> real, results: seq<T>, k: nat, t: T)
    requires IsTrailingRun(net, results, k)
    ensures IsTrailingRun(net, results + [t], if net(t) < 0.0 then k + 1 else 0)
  {
  }

  // ---- Sums and counts

  /** The sum of f over a list. */
  function SumBy<T>(f: T -> real, xs: seq<T>): real {
    if xs == [] then 0.0 else f(xs[0]) + SumBy(f, xs[1..])
  }

  lemma {:induction false} SumByAppend<T>(f: T -> real, xs: seq<T>, ys: seq<T>)
    ensures SumBy(f, xs + ys) == SumBy(f, xs) + SumBy(f, ys)
  {
    if xs == [] {
      assert xs + ys == ys;
    } else {
      assert (xs + ys)[1..] == xs[1..] + ys;
      SumByAppend(f, xs[1..], ys);
    }
  }

  lemma SumBySnoc<T>(f: T -> real, xs: seq<T>, x: T)
    ensures SumBy(f, xs + [x]) == SumBy(f, xs) + f(x)
  {
    SumByAppend(f, xs, [x]);
  }

  lemma {:induction false} SumByUpdate<T>(f: T -> real, xs: seq<T>, i: nat, x: T)
    requires i < |xs|
    ensures SumBy(f, xs[i := x]) == SumBy(f, xs) - f(xs[i]) + f(x)
  {
    if i > 0 {
      assert xs[i := x][1..] == xs[1..][i - 1 := x];
      SumByUpdate(f, xs[1..], i - 1, x);
    } else {
      assert xs[i := x][1..] == xs[1..];
    }
  }

  lemma {:induction false} SumByRemove<T>(f: T -> real, xs: seq<T>, i: nat)
    requires i < |xs|
    ensures SumBy(f, xs[..i] + xs[i + 1..]) == SumBy(f, xs) - f(xs[i])
  {
    SumByAppend(f, xs[..i], xs[i + 1..]);
    SumByAppend(f, xs[..i], xs[i..]);
    assert xs == xs[..i] + xs[i..];
  }

  /** How many members of a list satisfy p. */
  function CountBy<T>(p: T -> bool, xs: seq<T>): nat {
    if xs == [] then 0 else (if p(xs[0]) then 1 else 0) + CountBy(p, xs[1..])
  }

  lemma {:induction false} CountByUpdate<T>(p: T -> bool, xs: seq<T>, i: nat, x: T)
    requires i < |xs|
    ensures CountBy(p, xs[i := x]) + (if p(xs[i]) then 1 else 0) == CountBy(p, xs) + (if p(x) then 1 else 0)
  {
    if i > 0 {
      assert xs[i := x][1..] == xs[1..][i - 1 := x];
      CountByUpdate(p, xs[1..], i - 1, x);
    } else {
      assert xs[i := x][1..] == xs[1..];
    }
  }

  lemma {:induction false} CountByAppend<T>(p: T -> bool, xs: seq<T>, ys: seq<T>)
    ensures CountBy(p, xs + ys) == CountBy(p, xs) + CountBy(p, ys)
  {
    if xs == [] {
      assert xs + ys == ys;
    } else {
      assert (xs + ys)[1..] == xs[1..] + ys;
      CountByAppend(p, xs[1..], ys);
    }
  }
}
