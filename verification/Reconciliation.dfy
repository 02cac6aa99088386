/** Reconciliation of the local positions against the exchange. */
module Reconciliation {
  import opened LivePositions

  // The local map is an insertion-ordered list keyed by position id; `locals` is its
  // value before the run, which the loops keep reading through `known_positions` and
  // `known_by_pair`.

  // ---- The exchange side: a dictionary of active rows by exchange id

  function RowIndex(active: seq<Row>, id: string): (i: nat)
    ensures i <= |active|
    ensures i < |active| ==> active[i].exchangeId == id
    ensures i == |active| ==> forall k :: 0 <= k < |active| ==> active[k].exchangeId != id
  {
    if active == [] || active[0].exchangeId == id then 0 else 1 + RowIndex(active[1..], id)
  }

  /** `active_exchange[id] = row`. */
  function PutRow(active: seq<Row>, row: Row): seq<Row> {
    var i := RowIndex(active, row.exchangeId);
    if i < |active| then active[i := row] else active + [row]
  }

  /** Rows with a non-zero quantity; a repeated id keeps its place and takes the later row. */
  function Active(rows: seq<Row>): seq<Row> {
    if rows == [] then []
    else
      var before := Active(rows[..|rows| - 1]);
      var row := rows[|rows| - 1];
      if row.quantity != 0.0 then PutRow(before, row) else before
  }

  predicate UniqueRows(active: seq<Row>) {
    && (forall i :: 0 <= i < |active| ==> active[i].quantity != 0.0)
    && (forall i, j :: 0 <= i < j < |active| ==> active[i].exchangeId != active[j].exchangeId)
  }

  lemma {:induction false} ActiveUnique(rows: seq<Row>)
    ensures UniqueRows(Active(rows))
  {
    if rows != [] {
      ActiveUnique(rows[..|rows| - 1]);
    }
  }

  // ---- The local side

  /** Last open local with this exchange id, or the number of locals. */
  function KnownById(locals: seq<Position>, id: string): (i: nat)
    ensures i <= |locals|
    ensures i < |locals| ==> locals[i].isOpen && locals[i].exchangeId == id
    ensures i == |locals| ==> forall k :: 0 <= k < |locals| && locals[k].isOpen ==> locals[k].exchangeId != id
  {
    if locals == [] then 0
    else
      var n := |locals| - 1;
      if locals[n].isOpen && locals[n].exchangeId == id then n
      else
        var i := KnownById(locals[..n], id);
        if i < n then i else n + 1
  }

  /** Last open local with this pair, or the number of locals. */
  function KnownByPair(locals: seq<Position>, pair: string): (i: nat)
    ensures i <= |locals|
    ensures i < |locals| ==> locals[i].isOpen && locals[i].pair == pair
    ensures i == |locals| ==> forall k :: 0 <= k < |locals| && locals[k].isOpen ==> locals[k].pair != pair
  {
    if locals == [] then 0
    else
      var n := |locals| - 1;
      if locals[n].isOpen && locals[n].pair == pair then n
      else
        var i := KnownByPair(locals[..n], pair);
        if i < n then i else n + 1
  }

  /** The local a row is matched to: by id, else by pair. */
  function Match(locals: seq<Position>, row: Row): (i: nat)
    ensures i <= |locals|
    ensures i < |locals| ==> locals[i].isOpen
  {
    var i := KnownById(locals, row.exchangeId);
    if i < |locals| then i else KnownByPair(locals, row.pair)
  }

  predicate IsActive(active: seq<Row>, id: string) { RowIndex(active, id) < |active| }

  /** A known position the exchange no longer shows. */
  predicate IsGhost(locals: seq<Position>, active: seq<Row>, i: nat)
    requires i < |locals|
  {
    locals[i].isOpen && KnownById(locals, locals[i].exchangeId) == i && !IsActive(active, locals[i].exchangeId)
  }

  // ---- The result, slot by slot

  /** Slot i after the rows: the last row matched to it, merged; else as before. */
  function Slot(locals: seq<Position>, active: seq<Row>, i: nat, now: int): Position
    requires i < |locals|
    decreases |active|
  {
    if active == [] then locals[i]
    else
      var row := active[|active| - 1];
      if Match(locals, row) == i then Merged(locals[i], row, now) else Slot(locals, active[..|active| - 1], i, now)
  }

  function Adoptions(locals: seq<Position>, active: seq<Row>, freshId: nat, now: int): seq<Position> {
    if active == [] then []
    else
      var row := active[|active| - 1];
      var before := Adoptions(locals, active[..|active| - 1], freshId, now);
      if Match(locals, row) == |locals| then before + [Adopted(row, freshId + |before|, now)] else before
  }

  /** After the row loop. */
  function Matched(locals: seq<Position>, active: seq<Row>, freshId: nat, now: int): seq<Position> {
    seq(|locals|, i requires 0 <= i < |locals| => Slot(locals, active, i, now))
      + Adoptions(locals, active, freshId, now)
  }

  function FinalSlot(locals: seq<Position>, active: seq<Row>, i: nat, now: int): Position
    requires i < |locals|
  {
    if IsGhost(locals, active, i) then GhostClosed(locals[i], now) else Slot(locals, active, i, now)
  }

  /** After the ghost loop. */
  function Reconciled(locals: seq<Position>, active: seq<Row>, freshId: nat, now: int): seq<Position> {
    seq(|locals|, i requires 0 <= i < |locals| => FinalSlot(locals, active, i, now))
      + Adoptions(locals, active, freshId, now)
  }

  class Book {
    var locals: seq<Position>
    var freshId: nat

    constructor (ps: seq<Position>, next: nat)
      ensures locals == ps && freshId == next
    {
      locals, freshId := ps, next;
    }

    method Reconcile(rows: seq<Row>, now: int)
      modifies this
      ensures locals == Reconciled(old(locals), Active(rows), old(freshId), now)
      ensures freshId == old(freshId) + |Adoptions(old(locals), Active(rows), old(freshId), now)|
    {
      var known := locals;
      ghost var first := freshId;
      var active := CollectActive(rows);
      ApplyRows(active, now, known);
      CloseGhosts(active, now, known, first);
    }

    method CollectActive(rows: seq<Row>) returns (active: seq<Row>)
      ensures active == Active(rows)
    {
      active := [];
      for k := 0 to |rows|
        invariant active == Active(rows[..k])
      {
        assert rows[..k + 1][..k] == rows[..k];
        if rows[k].quantity != 0.0 {
          active := PutRow(active, rows[k]);
        }
      }
      assert rows[..|rows|] == rows;
    }

    /** The row loop: `known` is the list the lookups were built from. */
    method ApplyRows(active: seq<Row>, now: int, known: seq<Position>)
      requires locals == known
      modifies this
      ensures locals == Matched(known, active, old(freshId), now)
      ensures freshId == old(freshId) + |Adoptions(known, active, old(freshId), now)|
    {
      hide Match, Merged, Adopted;
      for k := 0 to |active|
        invariant |known| <= |locals|
        invariant forall i :: 0 <= i < |known| ==> locals[i] == Slot(known, active[..k], i, now)
        invariant locals[|known|..] == Adoptions(known, active[..k], old(freshId), now)
        invariant freshId == old(freshId) + |locals| - |known|
      {
        assert active[..k + 1][..k] == active[..k] && active[..k + 1][k] == active[k];
        var i := Match(known, active[k]);
        if i < |known| {
          ghost var adopted := locals[|known|..];
          locals := locals[i := Merged(known[i], active[k], now)];
          assert locals[|known|..] == adopted;
        } else {
          ghost var adopted := locals[|known|..];
          locals := locals + [Adopted(active[k], freshId, now)];
          assert locals[|known|..] == adopted + [Adopted(active[k], freshId, now)];
          freshId := freshId + 1;
        }
      }
      assert active[..|active|] == active;
      assert locals == locals[..|known|] + locals[|known|..];
      assert locals[..|known|] == seq(|known|, i requires 0 <= i < |known| => Slot(known, active, i, now));
    }

    /** The ghost loop writes each closed position over its own slot. */
    method CloseGhosts(active: seq<Row>, now: int, known: seq<Position>, ghost first: nat)
      requires locals == Matched(known, active, first, now)
      modifies this`locals
      ensures locals == Reconciled(known, active, first, now)
    {
      hide IsGhost, GhostClosed, Slot, Adoptions;
      ghost var before := locals;
      for i := 0 to |known|
        invariant |locals| == |before|
        invariant forall k :: 0 <= k < i ==> locals[k] == FinalSlot(known, active, k, now)
        invariant forall k :: i <= k < |before| ==> locals[k] == before[k]
      {
        assert before[i] == Slot(known, active, i, now);
        if IsGhost(known, active, i) {
          locals := locals[i := GhostClosed(known[i], now)];
        }
      }
      assert before[|known|..] == Adoptions(known, active, first, now);
      assert locals == locals[..|known|] + locals[|known|..];
      assert locals[|known|..] == before[|known|..];
      assert locals[..|known|] == seq(|known|, i requires 0 <= i < |known| => FinalSlot(known, active, i, now));
    }
  }

  // ---- What reconciliation achieves

  /** The report's orphans: active ids no open local carries. */
  function Orphans(locals: seq<Position>, active: seq<Row>): set<string> { ActiveIds(active) - OpenIds(locals) }

  /** The report's ghosts: open local ids the exchange does not show. */
  function Ghosts(locals: seq<Position>, active: seq<Row>): set<string> { OpenIds(locals) - ActiveIds(active) }

  function OpenIds(locals: seq<Position>): set<string> {
    set i | 0 <= i < |locals| && locals[i].isOpen :: locals[i].exchangeId
  }

  function ActiveIds(active: seq<Row>): set<string> {
    set i | 0 <= i < |active| :: active[i].exchangeId
  }

  predicate DistinctOpenIds(locals: seq<Position>) {
    forall i, j :: 0 <= i < j < |locals| && locals[i].isOpen && locals[j].isOpen
      ==> locals[i].exchangeId != locals[j].exchangeId
  }

  /** Row k is unknown by id but shares its pair with an open local. */
  predicate Clashes(locals: seq<Position>, row: Row) {
    KnownById(locals, row.exchangeId) == |locals| && KnownByPair(locals, row.pair) < |locals|
  }

  predicate NoPairClash(locals: seq<Position>, active: seq<Row>) {
    forall k :: 0 <= k < |active| ==> !Clashes(locals, active[k])
  }

  lemma KnownIndex(locals: seq<Position>, i: nat)
    requires DistinctOpenIds(locals) && i < |locals| && locals[i].isOpen
    ensures KnownById(locals, locals[i].exchangeId) == i
  {
    hide KnownById;
    var k := KnownById(locals, locals[i].exchangeId);
  }

  /** A slot is as before, with no row matched to it, or the merge of some row matched to it. */
  lemma {:induction false} SlotWriter(locals: seq<Position>, active: seq<Row>, i: nat, now: int) returns (k: nat)
    requires i < |locals|
    ensures k <= |active|
    ensures k < |active| ==>
      Match(locals, active[k]) == i && Slot(locals, active, i, now) == Merged(locals[i], active[k], now)
    ensures k == |active| ==> Slot(locals, active, i, now) == locals[i]
                              && forall j :: 0 <= j < |active| ==> Match(locals, active[j]) != i
    decreases |active|
  {
    hide Match, Merged;
    if active == [] {
      k := 0;
    } else {
      var n := |active| - 1;
      if Match(locals, active[n]) == i {
        k := n;
      } else {
        k := SlotWriter(locals, active[..n], i, now);
        if k == n {
          k := n + 1;
        }
      }
    }
  }

  lemma MergedFacts(p: Position, row: Row, now: int)
    requires row.quantity != 0.0
    ensures var m := Merged(p, row, now); m.isOpen && m.exchangeId == row.exchangeId && m.positionId == p.positionId
  {
    hide LevelsSane, DefaultTarget, ReconcileStop;
  }

  lemma AdoptedFacts(row: Row, freshId: nat, now: int)
    requires row.quantity != 0.0
    ensures var a := Adopted(row, freshId, now); a.isOpen && a.exchangeId == row.exchangeId && a.positionId == freshId
  {
    hide DefaultTarget, ReconcileStop;
  }

  /** Adoption m comes from the m-th row that matched nothing; it is open with the next fresh id. */
  lemma {:induction false} AdoptionAt(locals: seq<Position>, active: seq<Row>, freshId: nat, now: int, m: nat)
    returns (k: nat)
    requires UniqueRows(active) && m < |Adoptions(locals, active, freshId, now)|
    ensures k < |active| && Match(locals, active[k]) == |locals| && |Adoptions(locals, active[..k], freshId, now)| == m
    ensures var p := Adoptions(locals, active, freshId, now)[m];
      p.isOpen && p.positionId == freshId + m && p.exchangeId == active[k].exchangeId
    decreases |active|
  {
    hide Match, Adopted;
    var n := |active| - 1;
    var before := Adoptions(locals, active[..n], freshId, now);
    if m < |before| {
      k := AdoptionAt(locals, active[..n], freshId, now, m);
      assert active[..n][..k] == active[..k];
    } else {
      k := n;
      AdoptedFacts(active[n], freshId + |before|, now);
    }
  }

  /** A row that matched nothing is adopted. */
  lemma {:induction false} AdoptionOf(locals: seq<Position>, active: seq<Row>, freshId: nat, now: int, k: nat)
    returns (m: nat)
    requires UniqueRows(active) && k < |active| && Match(locals, active[k]) == |locals|
    ensures var a := Adoptions(locals, active, freshId, now);
      m < |a| && a[m].isOpen && a[m].exchangeId == active[k].exchangeId
    decreases |active|
  {
    hide Match, Adopted;
    var n := |active| - 1;
    var before := Adoptions(locals, active[..n], freshId, now);
    if k < n {
      m := AdoptionOf(locals, active[..n], freshId, now, k);
    } else {
      m := |before|;
      AdoptedFacts(active[n], freshId + |before|, now);
    }
  }

  lemma ResultTail(locals: seq<Position>, active: seq<Row>, freshId: nat, now: int)
    ensures var r, a := Reconciled(locals, active, freshId, now), Adoptions(locals, active, freshId, now);
      && |r| == |locals| + |a|
      && (forall i :: 0 <= i < |locals| ==> r[i] == FinalSlot(locals, active, i, now))
      && (forall i :: |locals| <= i < |r| ==> r[i] == a[i - |locals|])
  {
    hide FinalSlot, Adoptions;
  }

  /** An adopted id is never that of a matched row. */
  lemma AdoptedDiffers(locals: seq<Position>, active: seq<Row>, freshId: nat, now: int, m: nat, k: nat)
    requires UniqueRows(active) && k < |active| && Match(locals, active[k]) < |locals|
    requires m < |Adoptions(locals, active, freshId, now)|
    ensures Adoptions(locals, active, freshId, now)[m].exchangeId != active[k].exchangeId
  {
    hide Match, Adoptions;
    var j := AdoptionAt(locals, active, freshId, now, m);
    assert j < k || k < j;
  }

  /** Local position ids keep their slots; adoptions take fresh ids after them. */
  lemma PositionIdsPreserved(locals: seq<Position>, active: seq<Row>, freshId: nat, now: int)
    requires UniqueRows(active)
    ensures var r := Reconciled(locals, active, freshId, now);
      && |locals| <= |r|
      && (forall i :: 0 <= i < |locals| ==> r[i].positionId == locals[i].positionId)
      && (forall i :: |locals| <= i < |r| ==> r[i].positionId == freshId + (i - |locals|))
  {
    hide Slot, Merged, IsGhost, Adoptions;
    forall i | 0 <= i < |locals|
      ensures FinalSlot(locals, active, i, now).positionId == locals[i].positionId
    {
      var k := SlotWriter(locals, active, i, now);
      if k < |active| {
        MergedFacts(locals[i], active[k], now);
      }
    }
    ResultTail(locals, active, freshId, now);
    forall m | 0 <= m < |Adoptions(locals, active, freshId, now)|
      ensures Adoptions(locals, active, freshId, now)[m].positionId == freshId + m
    {
      var k := AdoptionAt(locals, active, freshId, now, m);
    }
  }

  lemma ActiveRow(active: seq<Row>, k: nat)
    requires UniqueRows(active) && k < |active|
    ensures IsActive(active, active[k].exchangeId) && active[k].exchangeId in ActiveIds(active)
  {
  }

  /** Slots of the result: closed, or open with the id of a row matched to them. */
  lemma OpenSlot(locals: seq<Position>, active: seq<Row>, i: nat, now: int) returns (k: nat)
    requires UniqueRows(active) && DistinctOpenIds(locals) && i < |locals|
    requires FinalSlot(locals, active, i, now).isOpen
    ensures k < |active| && Match(locals, active[k]) == i
    ensures FinalSlot(locals, active, i, now).exchangeId == active[k].exchangeId
    ensures locals[i].isOpen && IsActive(active, locals[i].exchangeId)
  {
    hide Slot, Merged, KnownById, KnownByPair;
    k := SlotWriter(locals, active, i, now);
    if k < |active| {
      MergedFacts(locals[i], active[k], now);
    }
    KnownIndexOrClosed(locals, i);
    if locals[i].isOpen {
      var j := RowIndex(active, locals[i].exchangeId);
      if j < |active| {
        assert Match(locals, active[j]) == i;
      }
    }
  }

  lemma KnownIndexOrClosed(locals: seq<Position>, i: nat)
    requires DistinctOpenIds(locals) && i < |locals|
    ensures locals[i].isOpen ==> KnownById(locals, locals[i].exchangeId) == i
  {
    if locals[i].isOpen {
      KnownIndex(locals, i);
    }
  }

  /** No open id is invented: every open local of the result is active on the exchange. */
  lemma OpenIdsAreActive(locals: seq<Position>, active: seq<Row>, freshId: nat, now: int)
    requires UniqueRows(active) && DistinctOpenIds(locals)
    ensures OpenIds(Reconciled(locals, active, freshId, now)) <= ActiveIds(active)
  {
    hide FinalSlot, Adoptions, Match;
    var r := Reconciled(locals, active, freshId, now);
    ResultTail(locals, active, freshId, now);
    forall i | 0 <= i < |r| && r[i].isOpen
      ensures r[i].exchangeId in ActiveIds(active)
    {
      if i < |locals| {
        var k := OpenSlot(locals, active, i, now);
        ActiveRow(active, k);
      } else {
        var k := AdoptionAt(locals, active, freshId, now, i - |locals|);
        ActiveRow(active, k);
      }
    }
  }

  /** Without a clash every active row ends as an open local. */
  lemma ActiveIdsAreOpen(locals: seq<Position>, active: seq<Row>, freshId: nat, now: int, k: nat)
    requires UniqueRows(active) && DistinctOpenIds(locals) && NoPairClash(locals, active) && k < |active|
    ensures active[k].exchangeId in OpenIds(Reconciled(locals, active, freshId, now))
  {
    hide Slot, Merged, Adoptions, KnownById, KnownByPair;
    var r, row := Reconciled(locals, active, freshId, now), active[k];
    var i := KnownById(locals, row.exchangeId);
    assert !Clashes(locals, row);
    if i < |locals| {
      assert Match(locals, row) == i;
      ActiveRow(active, k);
      var j := SlotWriter(locals, active, i, now);
      assert !Clashes(locals, active[j]);
      MergedFacts(locals[i], active[j], now);
      assert KnownById(locals, active[j].exchangeId) == i;
      assert r[i].isOpen && r[i].exchangeId == row.exchangeId;
    } else {
      var m := AdoptionOf(locals, active, freshId, now, k);
      ResultTail(locals, active, freshId, now);
      assert r[|locals| + m].isOpen && r[|locals| + m].exchangeId == row.exchangeId;
    }
  }

  /** A clashing row and the local it lands on compete for one slot, so an id is lost. */
  lemma ClashLosesId(locals: seq<Position>, active: seq<Row>, freshId: nat, now: int, k: nat)
    requires UniqueRows(active) && DistinctOpenIds(locals) && k < |active| && Clashes(locals, active[k])
    ensures !(ActiveIds(active) <= OpenIds(Reconciled(locals, active, freshId, now)))
  {
    hide FinalSlot, Adoptions, KnownById, KnownByPair;
    var r, row := Reconciled(locals, active, freshId, now), active[k];
    var i := Match(locals, row);
    assert i < |locals|;
    ActiveRow(active, k);
    IdOnlyInSlot(locals, active, freshId, now, k);
    if row.exchangeId in OpenIds(r) {
      assert r[i].isOpen && r[i].exchangeId == row.exchangeId;
      var j := OpenSlot(locals, active, i, now);
      var own := RowIndex(active, locals[i].exchangeId);
      KnownIndex(locals, i);
      assert Match(locals, active[own]) == i && active[own].exchangeId != row.exchangeId;
      ActiveRow(active, own);
      IdOnlyInSlot(locals, active, freshId, now, own);
      assert active[own].exchangeId !in OpenIds(r);
    }
  }

  /** A row's id can only be open in the slot the row is matched to. */
  lemma IdOnlyInSlot(locals: seq<Position>, active: seq<Row>, freshId: nat, now: int, k: nat)
    requires UniqueRows(active) && DistinctOpenIds(locals) && k < |active| && Match(locals, active[k]) < |locals|
    ensures var r := Reconciled(locals, active, freshId, now);
      active[k].exchangeId in OpenIds(r) ==>
        r[Match(locals, active[k])].isOpen && r[Match(locals, active[k])].exchangeId == active[k].exchangeId
  {
    hide FinalSlot, Adoptions, Match, Reconciled;
    var r := Reconciled(locals, active, freshId, now);
    ResultTail(locals, active, freshId, now);
    forall m | 0 <= m < |Adoptions(locals, active, freshId, now)|
      ensures Adoptions(locals, active, freshId, now)[m].exchangeId != active[k].exchangeId
    {
      AdoptedDiffers(locals, active, freshId, now, m, k);
    }
    forall i | 0 <= i < |r| && r[i].isOpen && r[i].exchangeId == active[k].exchangeId
      ensures i == Match(locals, active[k])
    {
      assert i < |locals|;
      var j := OpenSlot(locals, active, i, now);
      assert j == k;
    }
  }

  /**
   Afterwards the open local ids are the active exchange ids exactly when no
   unknown row shares its pair with an open local.
   */
  lemma RefinesExchange(locals: seq<Position>, rows: seq<Row>, freshId: nat, now: int)
    requires DistinctOpenIds(locals)
    ensures OpenIds(Reconciled(locals, Active(rows), freshId, now)) == ActiveIds(Active(rows))
      <==> NoPairClash(locals, Active(rows))
  {
    hide Reconciled, OpenIds, Clashes, Active;
    var active := Active(rows);
    ActiveUnique(rows);
    OpenIdsAreActive(locals, active, freshId, now);
    var r := Reconciled(locals, active, freshId, now);
    if NoPairClash(locals, active) {
      forall id | id in ActiveIds(active)
        ensures id in OpenIds(r)
      {
        var k :| 0 <= k < |active| && active[k].exchangeId == id;
        ActiveIdsAreOpen(locals, active, freshId, now, k);
      }
    } else {
      var k :| 0 <= k < |active| && Clashes(locals, active[k]);
      ClashLosesId(locals, active, freshId, now, k);
    }
  }

  /** A second run on the same snapshot reports no orphan and no ghost, and keeps the same open ids. */
  lemma SecondRunIsClean(locals: seq<Position>, rows: seq<Row>, freshId: nat, now: int, later: int)
    requires DistinctOpenIds(locals) && NoPairClash(locals, Active(rows))
    ensures var r := Reconciled(locals, Active(rows), freshId, now);
      && Orphans(r, Active(rows)) == {} && Ghosts(r, Active(rows)) == {}
      && DistinctOpenIds(r) && NoPairClash(r, Active(rows))
      && OpenIds(Reconciled(r, Active(rows), freshId + |r| - |locals|, later)) == ActiveIds(Active(rows))
  {
    hide Reconciled, OpenIds, ActiveIds, Active, DistinctOpenIds, NoPairClash;
    var active := Active(rows);
    var r := Reconciled(locals, active, freshId, now);
    PositionCount(locals, active, freshId, now);
    RefinesExchange(locals, rows, freshId, now);
    ResultDistinct(locals, rows, freshId, now);
    KnownHaveNoClash(r, active);
    RefinesExchange(r, rows, freshId + |r| - |locals|, later);
  }

  lemma PositionCount(locals: seq<Position>, active: seq<Row>, freshId: nat, now: int)
    ensures |Reconciled(locals, active, freshId, now)| >= |locals|
  {
    hide FinalSlot, Adoptions;
  }

  lemma KnownHaveNoClash(locals: seq<Position>, active: seq<Row>)
    requires OpenIds(locals) == ActiveIds(active)
    ensures NoPairClash(locals, active)
  {
    hide KnownById, KnownByPair;
    forall k | 0 <= k < |active|
      ensures !Clashes(locals, active[k])
    {
      assert active[k].exchangeId in ActiveIds(active);
      var i :| 0 <= i < |locals| && locals[i].isOpen && locals[i].exchangeId == active[k].exchangeId;
    }
  }

  lemma ResultDistinct(locals: seq<Position>, rows: seq<Row>, freshId: nat, now: int)
    requires DistinctOpenIds(locals)
    ensures DistinctOpenIds(Reconciled(locals, Active(rows), freshId, now))
  {
    hide FinalSlot, Adoptions, Match, Active;
    var active := Active(rows);
    ActiveUnique(rows);
    var r := Reconciled(locals, active, freshId, now);
    ResultTail(locals, active, freshId, now);
    forall i, j | 0 <= i < j < |r| && r[i].isOpen && r[j].isOpen
      ensures r[i].exchangeId != r[j].exchangeId
    {
      if i < |locals| {
        var x := OpenSlot(locals, active, i, now);
        if j < |locals| {
          var y := OpenSlot(locals, active, j, now);
          assert x != y;
        } else {
          AdoptedDiffers(locals, active, freshId, now, j - |locals|, x);
        }
      } else {
        var x := AdoptionAt(locals, active, freshId, now, i - |locals|);
        var y := AdoptionAt(locals, active, freshId, now, j - |locals|);
        assert x != y;
      }
    }
  }
}
