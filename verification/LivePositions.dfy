/** Live positions, their stop and target tests, and rounding to a price grid. */
module LivePositions {
  import opened Common

  // ---- Rounding, ties to even

  function RoundHalfEven(x: real): int {
    var f := x.Floor;
    var d := x - f as real;
    if d < 0.5 then f else if d > 0.5 then f + 1 else if f % 2 == 0 then f else f + 1
  }

  lemma RoundError(x: real)
    ensures -0.5 <= RoundHalfEven(x) as real - x <= 0.5
  {
  }

  /** The nearest whole number, and of two equally near ones the even one. */
  lemma RoundExactly(x: real, n: int)
    ensures RoundHalfEven(x) == n <==>
      -0.5 < n as real - x < 0.5 || ((n as real - x == 0.5 || x - n as real == 0.5) && n % 2 == 0)
  {
    var f := x.Floor;
    assert n < f ==> n as real <= f as real - 1.0;
    assert n > f + 1 ==> n as real >= f as real + 2.0;
  }

  lemma RoundMonotone(x: real, y: real)
    requires x <= y
    ensures RoundHalfEven(x) <= RoundHalfEven(y)
  {
    if x.Floor < y.Floor {
      assert RoundHalfEven(x) <= x.Floor + 1 <= y.Floor <= RoundHalfEven(y);
    }
  }

  function Round6(x: real): real { RoundHalfEven(x * 1000000.0) as real / 1000000.0 }

  function Round4(x: real): real { RoundHalfEven(x * 10000.0) as real / 10000.0 }

  lemma Round6Monotone(x: real, y: real)
    requires x <= y
    ensures Round6(x) <= Round6(y)
  {
    RoundMonotone(x * 1000000.0, y * 1000000.0);
  }

  lemma Round6Error(x: real)
    ensures x - 0.0000005 <= Round6(x) <= x + 0.0000005
  {
    RoundError(x * 1000000.0);
  }

  /** A whole number of ten-thousandths. */
  ghost predicate FourDecimals(x: real) {
    exists k: int :: IsTenThousandths(x, k)
  }

  predicate IsTenThousandths(x: real, k: int) { x * 10000.0 == k as real }

  lemma RoundedHasFourDecimals(x: real)
    ensures FourDecimals(Round4(x))
  {
    assert IsTenThousandths(Round4(x), RoundHalfEven(x * 10000.0));
  }

  lemma FourDecimalsRound(x: real)
    requires FourDecimals(x)
    ensures Round4(x) == x
  {
    var k: int :| IsTenThousandths(x, k);
    assert (k as real).Floor == k;
  }

  lemma FourDecimalsSum(x: real, y: real)
    requires FourDecimals(x) && FourDecimals(y)
    ensures FourDecimals(x + y) && FourDecimals(-x)
  {
    var i: int :| IsTenThousandths(x, i);
    var j: int :| IsTenThousandths(y, j);
    assert IsTenThousandths(x + y, i + j);
    assert IsTenThousandths(-x, -i);
  }

  // ---- Positions

  datatype Position = Position(
    positionId: nat, exchangeId: string, pair: string, direction: Direction, quantity: real, averagePrice: real,
    markPrice: Option<real>, stop: Option<real>, target: Option<real>, unrealized: real, realized: real, isOpen: bool,
    botManaged: bool, breakeven: bool, trailing: bool, runner: bool,
    createdAt: int, closedAt: Option<int>, updatedAt: int)

  /** An active exchange row: a signed, non-zero quantity. */
  datatype Row = Row(exchangeId: string, pair: string, quantity: real, averagePrice: real, markPrice: Option<real>,
                     pnl: real, stop: Option<real>, target: Option<real>)

  function Normalized(row: Row, freshId: nat, now: int): Position {
    var sign := if row.quantity > 0.0 then 1.0 else -1.0;
    Position(freshId, row.exchangeId, row.pair, if row.quantity > 0.0 then Long else Short, Abs(row.quantity),
             row.averagePrice, row.markPrice, row.stop, row.target,
             if row.markPrice.Some? && row.markPrice.value != 0.0
             then (row.markPrice.value - row.averagePrice) * Abs(row.quantity) * sign
             else row.pnl,
             0.0, row.quantity != 0.0, false, false, false, false, now, None, now)
  }

  // ---- Sanity of a stop and a target

  predicate Present(price: Option<real>) { price.Some? && price.value != 0.0 }

  predicate StopSane(direction: Direction, entry: real, stop: real) {
    if direction == Long then stop < entry * 1.005 else stop > entry * 0.995
  }

  predicate TargetSane(direction: Direction, entry: real, target: real) {
    if direction == Long then target > entry * 1.005 else target < entry * 0.995
  }

  /** Both levels are set and pass their sanity tests. */
  predicate LevelsSane(direction: Direction, entry: real, stop: Option<real>, target: Option<real>) {
    && Present(stop) && Present(target)
    && StopSane(direction, entry, stop.value) && TargetSane(direction, entry, target.value)
  }

  function Scaled(entry: real, factor: real): real { Round6(entry * factor) }

  /** A price a fraction away from the entry: the long factor, or its mirror for shorts. */
  function Level(direction: Direction, entry: real, longFactor: real): real {
    Scaled(entry, if direction == Long then longFactor else 2.0 - longFactor)
  }

  function DefaultTarget(direction: Direction, entry: real): real { Level(direction, entry, 1.0135) }
  function MonitorStop(direction: Direction, entry: real): real { Level(direction, entry, 0.9915) }
  function ReconcileStop(direction: Direction, entry: real): real { Level(direction, entry, 0.9895) }
  function BreakevenStop(direction: Direction, entry: real): real { Level(direction, entry, 1.0015) }
  function TrailStop(direction: Direction, entry: real): real { Level(direction, entry, 1.0045) }
  function RunnerStop(direction: Direction, entry: real): real { Level(direction, entry, 1.0085) }
  function RunnerTarget(direction: Direction, entry: real): real { Level(direction, entry, 1.0185) }

  /** `b` is at least as tight as `a` for the direction. */
  predicate NoLooser(direction: Direction, a: real, b: real) {
    if direction == Long then a <= b else b <= a
  }

  lemma ScaledMonotone(entry: real, f: real, g: real)
    requires entry > 0.0 && f <= g
    ensures Scaled(entry, f) <= Scaled(entry, g)
  {
    hide Round6;
    assert entry * f <= entry * g;
    Round6Monotone(entry * f, entry * g);
  }

  lemma LevelMonotone(direction: Direction, entry: real, f: real, g: real)
    requires entry > 0.0 && f <= g
    ensures NoLooser(direction, Level(direction, entry, f), Level(direction, entry, g))
  {
    hide Scaled;
    ScaledMonotone(entry, f, g);
    ScaledMonotone(entry, 2.0 - g, 2.0 - f);
  }

  // ---- Merging an exchange row into a local position

  /** Management fields come from the local position; trailing and runner locks do not survive. */
  function Merged(local: Position, row: Row, now: int): Position {
    var p := Normalized(row, local.positionId, now);
    var reset := local.botManaged && !LevelsSane(p.direction, p.averagePrice, local.stop, local.target);
    p.(createdAt := local.createdAt,
       target := if reset then Some(DefaultTarget(p.direction, p.averagePrice)) else local.target,
       stop := if reset then Some(ReconcileStop(p.direction, p.averagePrice)) else local.stop,
       botManaged := local.botManaged,
       breakeven := local.breakeven)
  }

  /** An unknown active position is adopted under bot management. */
  function Adopted(row: Row, freshId: nat, now: int): Position {
    var p := Normalized(row, freshId, now);
    p.(botManaged := true,
       target := Some(DefaultTarget(p.direction, p.averagePrice)),
       stop := Some(ReconcileStop(p.direction, p.averagePrice)))
  }

  /** A local position the exchange no longer shows. */
  function GhostClosed(local: Position, now: int): Position {
    local.(isOpen := false,
           realized := if local.realized != 0.0 then local.realized else local.unrealized,
           unrealized := 0.0,
           closedAt := if local.closedAt.Some? then local.closedAt else Some(now), updatedAt := now)
  }
}
