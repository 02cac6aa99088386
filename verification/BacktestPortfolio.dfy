/** The backtester's money ledger. */
module BacktestPortfolio {
  import opened Common
  import opened Candles
  import opened BacktestExecution

  // `Portfolio` mutates its fields as the source does; `Book` is its value, on which
  // the ledger's laws are proved.

  datatype EquityPoint = EquityPoint(timestamp: int, equity: real, drawdown: real, drawdownPercent: real,
                                     dailyPnl: real)

  datatype AccountSnapshot = AccountSnapshot(
    equity: real, available: real, startingDayEquity: real, realizedToday: real, unrealized: real,
    consecutiveLosses: nat, open: seq<(string, Direction, real)>, timestamp: int)

  /**
   Open positions and daily totals are insertion-ordered dictionaries: lists
   keyed by the position's symbol and by the day.
   */
  datatype Book = Book(
    initialEquity: real, equity: real, peakEquity: real, realizedPnl: real, totalFees: real,
    open: seq<Position>, trades: seq<Trade>, curve: seq<EquityPoint>, daily: seq<(int, real)>,
    consecutiveLosses: nat, lastPrices: map<string, real>)

  function Fresh(initialEquity: real): Book {
    Book(initialEquity, initialEquity, initialEquity, 0.0, 0.0, [], [], [], [], 0, map[])
  }

  function DayOf(t: int): int { t / DAY }

  // ---- Dictionaries

  /** Position of a symbol among the open positions, or their number. */
  function IndexOf(open: seq<Position>, symbol: string): (i: nat)
    ensures i <= |open|
    ensures i < |open| ==> open[i].symbol == symbol
    ensures forall k :: 0 <= k < i ==> open[k].symbol != symbol
  {
    if open == [] || open[0].symbol == symbol then 0 else 1 + IndexOf(open[1..], symbol)
  }

  predicate Holds(open: seq<Position>, symbol: string) {
    IndexOf(open, symbol) < |open|
  }

  /** `open_positions.pop(symbol, None)`. */
  function Without(open: seq<Position>, symbol: string): seq<Position> {
    var i := IndexOf(open, symbol);
    if i < |open| then open[..i] + open[i + 1..] else open
  }

  /** `open_positions[p.symbol] = p`. */
  function With(open: seq<Position>, p: Position): seq<Position> {
    var i := IndexOf(open, p.symbol);
    if i < |open| then open[i := p] else open + [p]
  }

  function DailyPnl(daily: seq<(int, real)>, day: int): real {
    if daily == [] then 0.0 else if daily[0].0 == day then daily[0].1 else DailyPnl(daily[1..], day)
  }

  function AddDaily(daily: seq<(int, real)>, day: int, pnl: real): seq<(int, real)> {
    if daily == [] then [(day, pnl)]
    else if daily[0].0 == day then [(day, daily[0].1 + pnl)] + daily[1..]
    else [daily[0]] + AddDaily(daily[1..], day, pnl)
  }

  // ---- Derived quantities

  function UnrealizedOf(prices: map<string, real>, p: Position): real {
    ((if p.symbol in prices then prices[p.symbol] else p.entryPrice) - p.entryPrice) * p.quantity * Sign(p.direction)
  }

  function Unrealized(prices: map<string, real>, open: seq<Position>): real {
    if open == [] then 0.0 else UnrealizedOf(prices, open[0]) + Unrealized(prices, open[1..])
  }

  function AccountEquity(b: Book): real { b.equity + Unrealized(b.lastPrices, b.open) }

  function MarginOf(p: Position): real { p.notional / Max(p.leverage, 1.0) }

  function AvailableMargin(b: Book): real { Max(0.0, AccountEquity(b) - SumBy(MarginOf, b.open)) }

  function Exposures(open: seq<Position>): seq<(string, Direction, real)> {
    if open == [] then [] else [(open[0].symbol, open[0].direction, open[0].notional)] + Exposures(open[1..])
  }

  function Snapshot(b: Book, now: int): AccountSnapshot {
    AccountSnapshot(
      Max(AccountEquity(b), 0.000000001), AvailableMargin(b),
      Max(b.equity - DailyPnl(b.daily, DayOf(now)), 0.000000001), DailyPnl(b.daily, DayOf(now)),
      Unrealized(b.lastPrices, b.open), b.consecutiveLosses, Exposures(b.open), now)
  }

  // ---- Updates

  function UpdateMark(b: Book, symbol: string, price: real): Book {
    b.(lastPrices := b.lastPrices[symbol := price])
  }

  function Put(b: Book, p: Position): Book { b.(open := With(b.open, p)) }

  function RecordClose(b: Book, t: Trade): Book {
    b.(open := Without(b.open, t.position.symbol),
       realizedPnl := b.realizedPnl + t.net,
       equity := b.equity + t.net,
       totalFees := b.totalFees + t.fees,
       daily := AddDaily(b.daily, DayOf(t.exitTime), t.net),
       consecutiveLosses := if t.net < 0.0 then b.consecutiveLosses + 1 else 0,
       trades := b.trades + [t])
  }

  function Mark(b: Book, now: int): Book {
    var equity := AccountEquity(b);
    var peak := Max(b.peakEquity, equity);
    var drawdown := peak - equity;
    b.(peakEquity := peak,
       curve := b.curve + [EquityPoint(now, equity, drawdown, if peak != 0.0 then drawdown / peak * 100.0 else 0.0,
                                       DailyPnl(b.daily, DayOf(now)))])
  }

  class Portfolio {
    var initialEquity: real
    var equity: real
    var peakEquity: real
    var realizedPnl: real
    var totalFees: real
    var open: seq<Position>
    var trades: seq<Trade>
    var curve: seq<EquityPoint>
    var daily: seq<(int, real)>
    var consecutiveLosses: nat
    var lastPrices: map<string, real>

    function Value(): Book
      reads this
    {
      Book(initialEquity, equity, peakEquity, realizedPnl, totalFees, open, trades, curve, daily,
           consecutiveLosses, lastPrices)
    }

    constructor (initial: real)
      ensures Value() == Fresh(initial)
    {
      initialEquity, equity, peakEquity := initial, initial, initial;
      realizedPnl, totalFees := 0.0, 0.0;
      open, trades, curve, daily := [], [], [], [];
      consecutiveLosses, lastPrices := 0, map[];
    }

    method SetMark(symbol: string, price: real)
      modifies this
      ensures Value() == UpdateMark(old(Value()), symbol, price)
    {
      lastPrices := lastPrices[symbol := price];
    }

    /** Refuses a second position in the same symbol. */
    method Add(p: Position) returns (added: bool)
      modifies this
      ensures added <==> !Holds(old(open), p.symbol)
      ensures Value() == if added then Put(old(Value()), p) else old(Value())
    {
      if Holds(open, p.symbol) {
        return false;
      }
      open := open + [p];
      return true;
    }

    /** `open_positions[p.symbol] = p`. */
    method Replace(p: Position)
      modifies this
      ensures Value() == Put(old(Value()), p)
    {
      open := With(open, p);
    }

    method Record(t: Trade)
      modifies this
      ensures Value() == RecordClose(old(Value()), t)
    {
      open := Without(open, t.position.symbol);
      realizedPnl := realizedPnl + t.net;
      equity := equity + t.net;
      totalFees := totalFees + t.fees;
      daily := AddDaily(daily, DayOf(t.exitTime), t.net);
      consecutiveLosses := if t.net < 0.0 then consecutiveLosses + 1 else 0;
      trades := trades + [t];
    }

    method MarkEquity(now: int)
      modifies this
      ensures Value() == Mark(old(Value()), now)
    {
      var current := AccountEquity(Value());
      peakEquity := Max(peakEquity, current);
      var drawdown := peakEquity - current;
      curve := curve + [EquityPoint(now, current, drawdown,
                                    if peakEquity != 0.0 then drawdown / peakEquity * 100.0 else 0.0,
                                    DailyPnl(daily, DayOf(now)))];
    }
  }

  // ---- The ledger's laws

  function Net(t: Trade): real { t.net }

  function Fees(t: Trade): real { t.fees }

  function Amount(entry: (int, real)): real { entry.1 }

  /** The net result of the trades closed on one day. */
  function NetOnDay(trades: seq<Trade>, day: int): real {
    if trades == [] then 0.0
    else (if DayOf(trades[0].exitTime) == day then trades[0].net else 0.0) + NetOnDay(trades[1..], day)
  }

  predicate DistinctSymbols(open: seq<Position>) {
    forall i, j :: 0 <= i < j < |open| ==> open[i].symbol != open[j].symbol
  }

  /** The highest of the initial equity and the equities marked so far. */
  function PeakOf(initialEquity: real, curve: seq<EquityPoint>): real {
    if curve == [] then initialEquity
    else Max(PeakOf(initialEquity, curve[..|curve| - 1]), curve[|curve| - 1].equity)
  }

  predicate CurveSound(initialEquity: real, curve: seq<EquityPoint>) {
    forall i :: 0 <= i < |curve| ==>
      curve[i].drawdown == PeakOf(initialEquity, curve[..i + 1]) - curve[i].equity && curve[i].drawdown >= 0.0
  }

  /** Every scalar the ledger keeps is the total of the lists it keeps. */
  ghost predicate Balanced(b: Book) {
    && b.realizedPnl == SumBy(Net, b.trades)
    && b.equity == b.initialEquity + SumBy(Net, b.trades)
    && b.totalFees == SumBy(Fees, b.trades)
    && SumBy(Amount, b.daily) == b.realizedPnl
    && (forall day :: DailyPnl(b.daily, day) == NetOnDay(b.trades, day))
    && IsTrailingRun(Net, b.trades, b.consecutiveLosses)
    && DistinctSymbols(b.open)
    && b.peakEquity == PeakOf(b.initialEquity, b.curve)
    && CurveSound(b.initialEquity, b.curve)
  }

  lemma FreshBalanced(initialEquity: real)
    ensures Balanced(Fresh(initialEquity))
  {
  }

  lemma {:induction false} AddDailyTotal(daily: seq<(int, real)>, day: int, pnl: real)
    ensures SumBy(Amount, AddDaily(daily, day, pnl)) == SumBy(Amount, daily) + pnl
  {
    var r := AddDaily(daily, day, pnl);
    if daily == [] {
      assert r[1..] == [];
    } else if daily[0].0 == day {
      assert r[1..] == daily[1..];
    } else {
      AddDailyTotal(daily[1..], day, pnl);
      assert r[1..] == AddDaily(daily[1..], day, pnl);
    }
  }

  lemma {:induction false} AddDailyAt(daily: seq<(int, real)>, day: int, pnl: real, at: int)
    ensures DailyPnl(AddDaily(daily, day, pnl), at) == DailyPnl(daily, at) + (if at == day then pnl else 0.0)
  {
    var r := AddDaily(daily, day, pnl);
    if daily == [] {
      assert r[1..] == [];
    } else if daily[0].0 == day {
      assert r[1..] == daily[1..];
    } else {
      AddDailyAt(daily[1..], day, pnl, at);
      assert r[1..] == AddDaily(daily[1..], day, pnl);
    }
  }

  lemma {:induction false} NetOnDaySnoc(trades: seq<Trade>, t: Trade, day: int)
    ensures NetOnDay(trades + [t], day) == NetOnDay(trades, day) + (if DayOf(t.exitTime) == day then t.net else 0.0)
  {
    if trades == [] {
      assert ([] + [t])[1..] == [];
    } else {
      assert (trades + [t])[1..] == trades[1..] + [t];
      NetOnDaySnoc(trades[1..], t, day);
    }
  }

  lemma WithDistinct(open: seq<Position>, p: Position)
    requires DistinctSymbols(open)
    ensures DistinctSymbols(With(open, p))
    ensures |With(open, p)| == if Holds(open, p.symbol) then |open| else |open| + 1
    ensures forall s :: Holds(With(open, p), s) <==> s == p.symbol || Holds(open, s)
    ensures forall q :: q in With(open, p) ==> q == p || (q in open && q.symbol != p.symbol)
    ensures p in With(open, p)
  {
    hide IndexOf;
    var i, r := IndexOf(open, p.symbol), With(open, p);
    forall s
      ensures Holds(r, s) <==> s == p.symbol || Holds(open, s)
    {
      HoldsMember(r, s);
      HoldsMember(open, s);
      assert r[if i < |open| then i else |open|] == p;
      assert forall k :: 0 <= k < |open| && k != i ==> r[k] == open[k];
    }
  }

  lemma HoldsMember(open: seq<Position>, symbol: string)
    ensures Holds(open, symbol) <==> exists k :: 0 <= k < |open| && open[k].symbol == symbol
  {
  }

  lemma WithoutDistinct(open: seq<Position>, symbol: string)
    requires DistinctSymbols(open)
    ensures DistinctSymbols(Without(open, symbol))
    ensures |Without(open, symbol)| == if Holds(open, symbol) then |open| - 1 else |open|
    ensures !Holds(Without(open, symbol), symbol)
    ensures forall q :: q in Without(open, symbol) ==> q in open && q.symbol != symbol
  {
    hide IndexOf;
    var i, r := IndexOf(open, symbol), Without(open, symbol);
    if i < |open| {
      assert forall k :: 0 <= k < |r| ==> r[k] == open[if k < i then k else k + 1];
    }
  }

  lemma PutBalanced(b: Book, p: Position)
    requires Balanced(b)
    ensures Balanced(Put(b, p))
  {
    WithDistinct(b.open, p);
  }

  lemma RecordCloseBalanced(b: Book, t: Trade)
    requires Balanced(b)
    ensures Balanced(RecordClose(b, t))
  {
    hide SumBy, DailyPnl, AddDaily, NetOnDay, Without, DayOf, IsTrailingRun, CurveSound, PeakOf, DistinctSymbols;
    SumBySnoc(Net, b.trades, t);
    SumBySnoc(Fees, b.trades, t);
    AddDailyTotal(b.daily, DayOf(t.exitTime), t.net);
    TrailingRunSnoc(Net, b.trades, b.consecutiveLosses, t);
    WithoutDistinct(b.open, t.position.symbol);
    var r := RecordClose(b, t);
    forall day
      ensures DailyPnl(r.daily, day) == NetOnDay(r.trades, day)
    {
      AddDailyAt(b.daily, DayOf(t.exitTime), t.net, day);
      NetOnDaySnoc(b.trades, t, day);
    }
  }

  lemma MarkBalanced(b: Book, now: int)
    requires Balanced(b)
    ensures Balanced(Mark(b, now))
  {
    hide SumBy, DailyPnl, NetOnDay, IsTrailingRun, DistinctSymbols, AccountEquity;
    var r := Mark(b, now);
    assert r.curve[..|b.curve|] == b.curve;
    assert r.curve[..|r.curve|] == r.curve;
    forall i | 0 <= i < |r.curve|
      ensures r.curve[i].drawdown == PeakOf(b.initialEquity, r.curve[..i + 1]) - r.curve[i].equity
      ensures r.curve[i].drawdown >= 0.0
    {
      if i < |b.curve| {
        assert r.curve[..i + 1] == b.curve[..i + 1];
      }
    }
  }
}
