/** What reconciliation makes of each local position and each exchange row. */
module ReconcileDecisions {
  import opened Common
  import opened LivePositions
  import opened Reconciliation

  // ---- The rows that count

  /** Row n is the last to show its id with a quantity other than zero. */
  predicate Counts(rows: seq<Row>, n: int) {
    && 0 <= n < |rows| && (rows[n].quantity < 0.0 || rows[n].quantity > 0.0)
    && forall m :: n < m < |rows| && rows[m].quantity != 0.0 ==> rows[m].exchangeId != rows[n].exchangeId
  }

  lemma PutRowExactly(active: seq<Row>, row: Row, x: Row)
    requires UniqueRows(active)
    ensures x in PutRow(active, row) <==> x == row || (x in active && x.exchangeId != row.exchangeId)
  {
    hide RowIndex;
    var i, r := RowIndex(active, row.exchangeId), PutRow(active, row);
    if i < |active| {
      assert r[i] == row;
      assert forall k :: 0 <= k < |active| && k != i ==> r[k] == active[k];
    }
  }

  lemma {:induction false} ActiveExactly(rows: seq<Row>, x: Row)
    ensures x in Active(rows) <==> exists n :: Counts(rows, n) && rows[n] == x
  {
    hide PutRow;
    if rows != [] {
      var last, before := |rows| - 1, rows[..|rows| - 1];
      ActiveExactly(before, x);
      ActiveUnique(before);
      PutRowExactly(Active(before), rows[last], x);
      CountsShifts(rows);
      if n :| Counts(before, n) && before[n] == x {
        assert rows[n] == x;
      }
      if n :| Counts(rows, n) && rows[n] == x {
        assert n < last ==> before[n] == x;
      }
    }
  }

  lemma CountsShifts(rows: seq<Row>)
    requires rows != []
    ensures var last, before := |rows| - 1, rows[..|rows| - 1];
      && (Counts(rows, last) <==> rows[last].quantity != 0.0)
      && forall n :: n < last ==> (Counts(rows, n) <==>
           Counts(before, n) && (rows[last].quantity != 0.0 ==> rows[last].exchangeId != before[n].exchangeId))
  {
  }

  // ---- Where a row lands

  /** No later open local has the same exchange id. */
  predicate LastOpen(locals: seq<Position>, i: int)
    requires 0 <= i < |locals|
  {
    forall k :: i < k < |locals| && locals[k].isOpen ==> locals[k].exchangeId != locals[i].exchangeId
  }

  /** The row belongs to local i: by id to the last open one, or, when none has its id, by pair to the last open one. */
  predicate LandsOn(locals: seq<Position>, row: Row, i: int) {
    && 0 <= i < |locals| && locals[i].isOpen
    && ((locals[i].exchangeId == row.exchangeId && LastOpen(locals, i))
        || (locals[i].pair == row.pair
            && (forall k :: 0 <= k < |locals| && locals[k].isOpen ==> locals[k].exchangeId != row.exchangeId)
            && (forall k :: i < k < |locals| && locals[k].isOpen ==> locals[k].pair != row.pair)))
  }

  lemma {:induction false} IdIsLast(locals: seq<Position>, id: string)
    ensures var i := KnownById(locals, id);
      forall k :: i < k < |locals| && locals[k].isOpen ==> locals[k].exchangeId != id
  {
    if locals != [] {
      var n := |locals| - 1;
      if !(locals[n].isOpen && locals[n].exchangeId == id) {
        IdIsLast(locals[..n], id);
        assert forall k :: 0 <= k < n ==> locals[..n][k] == locals[k];
      }
    }
  }

  lemma {:induction false} PairIsLast(locals: seq<Position>, pair: string)
    ensures var i := KnownByPair(locals, pair);
      forall k :: i < k < |locals| && locals[k].isOpen ==> locals[k].pair != pair
  {
    if locals != [] {
      var n := |locals| - 1;
      if !(locals[n].isOpen && locals[n].pair == pair) {
        PairIsLast(locals[..n], pair);
        assert forall k :: 0 <= k < n ==> locals[..n][k] == locals[k];
      }
    }
  }

  lemma LandsExactly(locals: seq<Position>, row: Row, i: nat)
    requires i < |locals|
    ensures Match(locals, row) == i <==> LandsOn(locals, row, i)
  {
    hide KnownById, KnownByPair;
    IdIsLast(locals, row.exchangeId);
    PairIsLast(locals, row.pair);
  }

  /** A row that lands nowhere is unknown. */
  lemma UnknownExactly(locals: seq<Position>, row: Row)
    ensures Match(locals, row) == |locals| <==>
      forall k :: 0 <= k < |locals| && locals[k].isOpen
        ==> locals[k].exchangeId != row.exchangeId && locals[k].pair != row.pair
  {
    hide KnownById, KnownByPair;
  }

  /** The last active row that lands on local i. */
  ghost predicate LastLanding(locals: seq<Position>, active: seq<Row>, i: int, k: int) {
    && 0 <= k < |active| && LandsOn(locals, active[k], i)
    && forall m :: k < m < |active| ==> !LandsOn(locals, active[m], i)
  }

  lemma {:induction false} SlotExactly(locals: seq<Position>, active: seq<Row>, i: nat, now: int) returns (k: int)
    requires i < |locals|
    ensures if k < 0 then Slot(locals, active, i, now) == locals[i]
                          && forall m :: 0 <= m < |active| ==> !LandsOn(locals, active[m], i)
            else LastLanding(locals, active, i, k) && Slot(locals, active, i, now) == Merged(locals[i], active[k], now)
    decreases |active|
  {
    hide Match, LandsOn, Merged;
    if active == [] {
      k := -1;
    } else {
      var n := |active| - 1;
      LandsExactly(locals, active[n], i);
      if Match(locals, active[n]) == i {
        k := n;
      } else {
        k := SlotExactly(locals, active[..n], i, now);
        assert forall m :: 0 <= m < n ==> active[..n][m] == active[m];
      }
    }
  }

  // ---- What becomes of a position

  /** The exchange's view of a row. */
  predicate ShowsRow(p: Position, row: Row) {
    && p.exchangeId == row.exchangeId && p.pair == row.pair && p.isOpen
    && (row.quantity > 0.0 ==> p.direction == Long && p.quantity == row.quantity)
    && (row.quantity < 0.0 ==> p.direction == Short && p.quantity == -row.quantity)
    && p.averagePrice == row.averagePrice && p.markPrice == row.markPrice && p.realized == 0.0
    && (row.markPrice in {None, Some(0.0)} ==> p.unrealized == row.pnl)
    && (row.markPrice.Some? && row.markPrice.value != 0.0 ==>
          p.unrealized == row.quantity * (row.markPrice.value - row.averagePrice))
  }

  /** Management data survives, its stop and target unless a managed position's levels are missing or absurd. */
  predicate MergedAs(local: Position, row: Row, p: Position, now: int) {
    && ShowsRow(p, row) && p.positionId == local.positionId && p.createdAt == local.createdAt
    && p.botManaged == local.botManaged && p.breakeven == local.breakeven && !p.trailing && !p.runner
    && p.closedAt == None && p.updatedAt == now
    && if local.botManaged && !LevelsSane(p.direction, p.averagePrice, local.stop, local.target) then
         && p.stop == Some(ReconcileStop(p.direction, p.averagePrice))
         && p.target == Some(DefaultTarget(p.direction, p.averagePrice))
       else p.stop == local.stop && p.target == local.target
  }

  predicate AdoptedAs(row: Row, p: Position, id: nat, now: int) {
    && ShowsRow(p, row) && p.positionId == id && p.botManaged && !p.breakeven && !p.trailing && !p.runner
    && p.createdAt == now && p.closedAt == None && p.updatedAt == now
    && p.stop == Some(ReconcileStop(p.direction, p.averagePrice))
    && p.target == Some(DefaultTarget(p.direction, p.averagePrice))
  }

  /** A position gone from the exchange is closed; it realises its open result, unless it had realised one already. */
  predicate SettledAs(local: Position, p: Position, now: int) {
    && !p.isOpen && p.unrealized == 0.0 && p.updatedAt == now
    && (local.realized == 0.0 ==> p.realized + p.unrealized == local.realized + local.unrealized)
    && (local.realized != 0.0 ==> p.realized == local.realized)
    && p.closedAt == Some(if local.closedAt.Some? then local.closedAt.value else now)
    && p == local.(isOpen := false, realized := p.realized, unrealized := 0.0, closedAt := p.closedAt, updatedAt := now)
  }

  lemma NormalizedShows(row: Row, id: nat, now: int)
    requires row.quantity != 0.0
    ensures ShowsRow(Normalized(row, id, now), row)
  {
    if row.markPrice.Some? {
      var d, q := row.markPrice.value - row.averagePrice, row.quantity;
      assert d * q * 1.0 == q * d && d * -q * -1.0 == q * d;
    }
  }

  lemma MergedExactly(local: Position, row: Row, now: int)
    requires row.quantity != 0.0
    ensures MergedAs(local, row, Merged(local, row, now), now)
  {
    hide LevelsSane, ReconcileStop, DefaultTarget;
    NormalizedShows(row, local.positionId, now);
  }

  lemma AdoptedExactly(row: Row, id: nat, now: int)
    requires row.quantity != 0.0
    ensures AdoptedAs(row, Adopted(row, id, now), id, now)
  {
    hide ReconcileStop, DefaultTarget;
    NormalizedShows(row, id, now);
  }

  lemma GhostExactly(local: Position, now: int)
    ensures SettledAs(local, GhostClosed(local, now), now)
  {
  }

  /** Local i is gone: open, not shown by any row, and the one its id stands for. */
  ghost predicate Gone(locals: seq<Position>, active: seq<Row>, i: int) {
    && 0 <= i < |locals| && locals[i].isOpen && LastOpen(locals, i)
    && forall row <- active :: row.exchangeId != locals[i].exchangeId
  }

  /**
   What becomes of local i: one that is gone is closed and realises its result; any
   other takes over the last row that lands on it, or stays as it was. A row with its
   id always lands on the last open local of that id, and none on a closed one.
   */
  lemma LocalExactly(locals: seq<Position>, rows: seq<Row>, freshId: nat, now: int, i: nat) returns (k: int)
    requires i < |locals|
    ensures var active, r := Active(rows), Reconciled(locals, Active(rows), freshId, now);
      && i < |r|
      && (Gone(locals, active, i) ==> SettledAs(locals[i], r[i], now))
      && (!Gone(locals, active, i) && 0 <= k ==>
            LastLanding(locals, active, i, k) && MergedAs(locals[i], active[k], r[i], now))
      && (!Gone(locals, active, i) && k < 0 ==>
            r[i] == locals[i] && forall m :: 0 <= m < |active| ==> !LandsOn(locals, active[m], i))
  {
    hide Active, Slot, Merged, GhostClosed, MergedAs, SettledAs, KnownById, RowIndex, LandsOn, LastOpen;
    var active := Active(rows);
    ResultTail(locals, active, freshId, now);
    ActiveUnique(rows);
    k := SlotExactly(locals, active, i, now);
    if locals[i].isOpen {
      KnownExactly(locals, i);
    }
    GhostExactly(locals[i], now);
    if k >= 0 {
      MergedExactly(locals[i], active[k], now);
    }
    var j := RowIndex(active, locals[i].exchangeId);
  }

  lemma KnownExactly(locals: seq<Position>, i: nat)
    requires i < |locals| && locals[i].isOpen
    ensures KnownById(locals, locals[i].exchangeId) == i <==> LastOpen(locals, i)
  {
    hide KnownById;
    IdIsLast(locals, locals[i].exchangeId);
  }

  lemma OpenLanding(locals: seq<Position>, active: seq<Row>, i: nat)
    requires i < |locals|
    ensures !locals[i].isOpen ==> forall m :: 0 <= m < |active| ==> !LandsOn(locals, active[m], i)
    ensures locals[i].isOpen && LastOpen(locals, i) ==>
      forall m :: 0 <= m < |active| && active[m].exchangeId == locals[i].exchangeId ==> LandsOn(locals, active[m], i)
  {
  }

  /** Every unknown active row is adopted, at a fresh id behind the locals. */
  lemma UnknownIsAdopted(locals: seq<Position>, rows: seq<Row>, freshId: nat, now: int, k: nat) returns (m: nat)
    requires k < |Active(rows)|
    requires forall j :: 0 <= j < |locals| && locals[j].isOpen ==>
      locals[j].exchangeId != Active(rows)[k].exchangeId && locals[j].pair != Active(rows)[k].pair
    ensures var r := Reconciled(locals, Active(rows), freshId, now);
      |locals| + m < |r| && AdoptedAs(Active(rows)[k], r[|locals| + m], freshId + m, now)
  {
    hide Active, Adopted, AdoptedAs, Match;
    var active := Active(rows);
    ActiveUnique(rows);
    UnknownExactly(locals, active[k]);
    m := AdoptionIndex(locals, active, freshId, now, k);
    ResultTail(locals, active, freshId, now);
    AdoptedExactly(active[k], freshId + m, now);
  }

  lemma {:induction false} AdoptionIndex(locals: seq<Position>, active: seq<Row>, freshId: nat, now: int, k: nat)
    returns (m: nat)
    requires k < |active| && Match(locals, active[k]) == |locals|
    ensures var a := Adoptions(locals, active, freshId, now);
      m < |a| && a[m] == Adopted(active[k], freshId + m, now)
    decreases |active|
  {
    hide Adopted, Match;
    var n := |active| - 1;
    if k == n {
      m := |Adoptions(locals, active[..n], freshId, now)|;
    } else {
      m := AdoptionIndex(locals, active[..n], freshId, now, k);
    }
  }

  /** And nothing else is: there are as many adoptions as unknown active rows. */
  lemma {:induction false} AdoptionsCount(locals: seq<Position>, active: seq<Row>, freshId: nat, now: int)
    ensures |Adoptions(locals, active, freshId, now)| == CountBy((row: Row) => Match(locals, row) == |locals|, active)
    decreases |active|
  {
    hide Adopted, Match;
    var unknown := (row: Row) => Match(locals, row) == |locals|;
    if active != [] {
      var n := |active| - 1;
      AdoptionsCount(locals, active[..n], freshId, now);
      assert active == active[..n] + [active[n]];
      CountByAppend(unknown, active[..n], [active[n]]);
      assert [active[n]][1..] == [];
    }
  }
}
