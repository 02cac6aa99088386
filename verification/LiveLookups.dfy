/** The polling loops and the order protocol in terms of the replies. */
module LiveLookups {
  import opened Common
  import opened LiveEntry

  // ---- The order

  /** The first row of the order, as a poll shows it. */
  predicate FirstOrder(rows: seq<OrderRow>, id: string, k: int) {
    0 <= k < |rows| && rows[k].id == id && forall j :: 0 <= j < k ==> rows[j].id != id
  }

  predicate QuantitiesReadable(row: OrderRow) { row.total.Some? && row.remaining.Some? }

  /** The row settles the order: reported filled in part or whole, refused, or with something filled. */
  predicate Settles(row: OrderRow) {
    && QuantitiesReadable(row)
    && (row.remaining.value < row.total.value || row.status !in {StatusOpen, StatusUnknown})
  }

  /** The poll came back and shows the order unsettled, or not at all. */
  ghost predicate StillWaiting(poll: Poll<OrderRow>, id: string) {
    && poll.Rows?
    && forall k :: FirstOrder(poll.rows, id, k) ==> QuantitiesReadable(poll.rows[k]) && !Settles(poll.rows[k])
  }

  /** `row` is row k of poll n and settles the order, and every earlier poll came back without doing so. */
  ghost predicate OrderAt(polls: seq<Poll<OrderRow>>, id: string, n: int, k: int, row: OrderRow) {
    && 0 <= n < |polls| && polls[n].Rows? && FirstOrder(polls[n].rows, id, k) && polls[n].rows[k] == row && Settles(row)
    && forall m :: 0 <= m < n ==> StillWaiting(polls[m], id)
  }

  lemma FirstOrderUnique(rows: seq<OrderRow>, id: string, i: int, j: int)
    requires FirstOrder(rows, id, i) && FirstOrder(rows, id, j)
    ensures i == j
  {
  }

  lemma IndexIsFirst(rows: seq<OrderRow>, id: string)
    ensures OrderIndex(rows, id) < |rows| ==> FirstOrder(rows, id, OrderIndex(rows, id))
    ensures OrderIndex(rows, id) == |rows| ==> forall k :: !FirstOrder(rows, id, k)
  {
    hide OrderIndex;
  }

  lemma DecisiveExactly(row: OrderRow)
    requires QuantitiesReadable(row)
    ensures Decisive(row) <==> Settles(row)
    ensures FilledQuantity(row) > 0.0 <==> row.remaining.value < row.total.value
  {
    match row.status
    case StatusOpen =>
    case StatusPartial =>
    case StatusFilled =>
    case StatusCancelled =>
    case StatusRejected =>
    case StatusUnknown =>
  }

  /** A poll that does not end the wait. */
  lemma WaitingExactly(polls: seq<Poll<OrderRow>>, id: string)
    requires polls != [] && polls[0].Rows?
    ensures var rows, i := polls[0].rows, OrderIndex(polls[0].rows, id);
      StillWaiting(polls[0], id) <==>
        i == |rows| || (QuantitiesReadable(rows[i]) && !Settles(rows[i]))
  {
    hide OrderIndex, Settles, QuantitiesReadable, FirstOrder;
    var rows, i := polls[0].rows, OrderIndex(polls[0].rows, id);
    IndexIsFirst(rows, id);
    if i < |rows| {
      forall k | FirstOrder(rows, id, k)
        ensures k == i
      {
        FirstOrderUnique(rows, id, k, i);
      }
    }
  }

  /** The wait for the order answers with the first row that settles it, reached through polls that do not. */
  lemma {:induction false} OrderExactly(polls: seq<Poll<OrderRow>>, id: string, row: OrderRow)
    ensures OrderAnswer(polls, id) == Some(row) <==> exists n, k :: OrderAt(polls, id, n, k, row)
  {
    hide OrderAt, StillWaiting, Settles, QuantitiesReadable, Decisive, OrderIndex;
    if polls == [] || polls[0].PollRaised? {
      NoOrderAt(polls, id, row);
    } else {
      var rows, i := polls[0].rows, OrderIndex(polls[0].rows, id);
      IndexIsFirst(rows, id);
      WaitingExactly(polls, id);
      if i < |rows| {
        Readability(rows[i]);
      }
      if StillWaiting(polls[0], id) {
        OrderExactly(polls[1..], id, row);
        OrderShifts(polls, id, row);
        if n, k :| OrderAt(polls[1..], id, n, k, row) {
          assert OrderAt(polls, id, n + 1, k, row);
        }
      } else {
        FirstPollSettles(polls, id, row);
      }
    }
  }

  lemma NoOrderAt(polls: seq<Poll<OrderRow>>, id: string, row: OrderRow)
    requires polls == [] || polls[0].PollRaised?
    ensures forall n, k :: !OrderAt(polls, id, n, k, row)
  {
    hide Settles, QuantitiesReadable, FirstOrder;
    forall n, k
      ensures !OrderAt(polls, id, n, k, row)
    {
      assert 0 < n < |polls| ==> !StillWaiting(polls[0], id);
    }
  }

  lemma FirstPollSettles(polls: seq<Poll<OrderRow>>, id: string, row: OrderRow)
    requires polls != [] && polls[0].Rows? && !StillWaiting(polls[0], id)
    ensures var rows, i := polls[0].rows, OrderIndex(polls[0].rows, id);
      (exists n, k :: OrderAt(polls, id, n, k, row)) <==> i < |rows| && rows[i] == row && Settles(row)
  {
    hide Settles, QuantitiesReadable, OrderIndex, FirstOrder;
    var rows, i := polls[0].rows, OrderIndex(polls[0].rows, id);
    IndexIsFirst(rows, id);
    forall n, k | OrderAt(polls, id, n, k, row)
      ensures n == 0 && k == i
    {
      SettledAtOnce(polls, id, n, k, row);
      AnyFirstIsIndex(rows, id, k);
    }
    if i < |rows| && rows[i] == row && Settles(row) {
      assert OrderAt(polls, id, 0, i, row);
    }
  }

  lemma SettledAtOnce(polls: seq<Poll<OrderRow>>, id: string, n: int, k: int, row: OrderRow)
    requires polls != [] && polls[0].Rows? && !StillWaiting(polls[0], id) && OrderAt(polls, id, n, k, row)
    ensures n == 0
  {
    hide StillWaiting, Settles, FirstOrder;
  }

  lemma AnyFirstIsIndex(rows: seq<OrderRow>, id: string, k: int)
    ensures FirstOrder(rows, id, k) ==> k == OrderIndex(rows, id)
  {
    hide OrderIndex;
  }

  lemma Readability(row: OrderRow)
    ensures QuantitiesReadable(row) <==> row.total.Some? && row.remaining.Some?
    ensures row.total.Some? && row.remaining.Some? ==> (Decisive(row) <==> Settles(row))
    ensures Settles(row) ==> QuantitiesReadable(row)
  {
    if QuantitiesReadable(row) {
      DecisiveExactly(row);
    }
  }

  lemma OrderShifts(polls: seq<Poll<OrderRow>>, id: string, row: OrderRow)
    requires polls != [] && StillWaiting(polls[0], id)
    ensures forall n, k :: OrderAt(polls, id, n, k, row) <==> n > 0 && OrderAt(polls[1..], id, n - 1, k, row)
    ensures forall n, k :: OrderAt(polls[1..], id, n, k, row) ==> n >= 0
  {
    hide Settles, QuantitiesReadable, FirstOrder, StillWaiting;
    forall n, k
      ensures OrderAt(polls, id, n, k, row) <==> n > 0 && OrderAt(polls[1..], id, n - 1, k, row)
    {
      if 0 < n < |polls| {
        assert polls[n] == polls[1..][n - 1];
        assert forall m :: 0 < m < n ==> polls[m] == polls[1..][m - 1];
        assert forall m :: 0 <= m < n - 1 ==> polls[1..][m] == polls[m + 1];
      } else if n == 0 {
        NotSettledYet(polls[0], id, k);
      }
    }
  }

  lemma NotSettledYet(poll: Poll<OrderRow>, id: string, k: int)
    requires StillWaiting(poll, id)
    ensures poll.Rows? && (FirstOrder(poll.rows, id, k) ==> !Settles(poll.rows[k]))
  {
  }

  // ---- The position

  /** The scan stops here: a row of the pair whose quantity is not zero, of either sign, or cannot be read. */
  predicate StopsScan(row: PositionRow, pair: string) {
    row.pair == pair && (row.active.Some? ==> row.active.value < 0.0 || row.active.value > 0.0)
  }

  predicate FirstPosition(rows: seq<PositionRow>, pair: string, k: int, row: PositionRow) {
    0 <= k < |rows| && rows[k] == row && StopsScan(row, pair) && forall j :: 0 <= j < k ==> !StopsScan(rows[j], pair)
  }

  predicate NoPosition(poll: Poll<PositionRow>, pair: string) {
    poll.Rows? && forall j :: 0 <= j < |poll.rows| ==> !StopsScan(poll.rows[j], pair)
  }

  /** `row` is readable and the first of poll n to stop the scan, and no earlier poll raised or has such a row. */
  ghost predicate PositionAt(polls: seq<Poll<PositionRow>>, pair: string, n: int, k: int, row: PositionRow) {
    && 0 <= n < |polls| && polls[n].Rows? && FirstPosition(polls[n].rows, pair, k, row) && row.active.Some?
    && forall m :: 0 <= m < n ==> NoPosition(polls[m], pair)
  }

  lemma {:induction false} ScanExactly(rows: seq<PositionRow>, pair: string)
    ensures match ScanPositions(rows, pair)
      case ScanNone => forall j :: 0 <= j < |rows| ==> !StopsScan(rows[j], pair)
      case ScanRaised => exists k, row :: FirstPosition(rows, pair, k, row) && row.active.None?
      case ScanFound(row) => row.active.Some? && exists k :: FirstPosition(rows, pair, k, row)
  {
    hide StopsScan;
    if rows != [] {
      StopsExactly(rows[0], pair);
      if StopsScan(rows[0], pair) {
        assert FirstPosition(rows, pair, 0, rows[0]);
      } else {
        var tail := rows[1..];
        ScanExactly(tail, pair);
        assert forall j :: 0 < j < |rows| ==> rows[j] == tail[j - 1];
        forall k, row | FirstPosition(tail, pair, k, row)
          ensures FirstPosition(rows, pair, k + 1, row)
        {
        }
      }
    }
  }

  lemma StopsExactly(row: PositionRow, pair: string)
    ensures StopsScan(row, pair) <==> row.pair == pair && (row.active.None? || row.active.value != 0.0)
  {
  }

  lemma FirstPositionUnique(rows: seq<PositionRow>, pair: string, i: int, a: PositionRow, j: int, b: PositionRow)
    requires FirstPosition(rows, pair, i, a) && FirstPosition(rows, pair, j, b)
    ensures i == j && a == b
  {
    hide StopsScan;
  }

  /** The wait for the position answers with the first row that stops the scan, if it is readable. */
  lemma {:induction false} PositionExactly(polls: seq<Poll<PositionRow>>, pair: string, row: PositionRow)
    ensures PositionAnswer(polls, pair) == Some(row) <==> exists n, k :: PositionAt(polls, pair, n, k, row)
  {
    hide PositionAt, FirstPosition, ScanPositions, NoPosition;
    if polls == [] || polls[0].PollRaised? {
      NoPositionAt(polls, pair, row);
    } else {
      ScanExactly(polls[0].rows, pair);
      NoneInPoll(polls[0], pair);
      if NoPosition(polls[0], pair) {
        PositionExactly(polls[1..], pair, row);
        PositionShifts(polls, pair, row);
        if n, k :| PositionAt(polls[1..], pair, n, k, row) {
          assert PositionAt(polls, pair, n + 1, k, row);
        }
      } else {
        FirstPollStops(polls, pair, row);
      }
    }
  }

  lemma NoPositionAt(polls: seq<Poll<PositionRow>>, pair: string, row: PositionRow)
    requires polls == [] || polls[0].PollRaised?
    ensures forall n, k :: !PositionAt(polls, pair, n, k, row)
  {
    hide StopsScan;
    forall n, k
      ensures !PositionAt(polls, pair, n, k, row)
    {
      assert 0 < n < |polls| ==> !NoPosition(polls[0], pair);
    }
  }

  lemma NoneInPoll(poll: Poll<PositionRow>, pair: string)
    requires poll.Rows?
    ensures NoPosition(poll, pair) <==> ScanPositions(poll.rows, pair) == ScanNone
  {
    hide StopsScan, ScanPositions;
    ScanExactly(poll.rows, pair);
  }

  lemma StoppedAtOnce(polls: seq<Poll<PositionRow>>, pair: string, n: int, k: int, row: PositionRow)
    requires polls != [] && !NoPosition(polls[0], pair) && PositionAt(polls, pair, n, k, row)
    ensures n == 0
  {
    hide NoPosition, FirstPosition;
  }

  lemma FirstPollStops(polls: seq<Poll<PositionRow>>, pair: string, row: PositionRow)
    requires polls != [] && polls[0].Rows? && !NoPosition(polls[0], pair)
    ensures (exists n, k :: PositionAt(polls, pair, n, k, row))
      <==> ScanPositions(polls[0].rows, pair) == ScanFound(row)
  {
    hide StopsScan, ScanPositions, FirstPosition;
    var rows, scan := polls[0].rows, ScanPositions(polls[0].rows, pair);
    ScanExactly(rows, pair);
    NoneInPoll(polls[0], pair);
    forall n, k | PositionAt(polls, pair, n, k, row)
      ensures n == 0 && scan == ScanFound(row)
    {
      StoppedAtOnce(polls, pair, n, k, row);
      if scan.ScanRaised? {
        var m, other :| FirstPosition(rows, pair, m, other) && other.active.None?;
        FirstPositionUnique(rows, pair, m, other, k, row);
      } else {
        var m :| FirstPosition(rows, pair, m, scan.row);
        FirstPositionUnique(rows, pair, m, scan.row, k, row);
      }
    }
    if scan == ScanFound(row) {
      var k :| FirstPosition(rows, pair, k, row);
      assert PositionAt(polls, pair, 0, k, row);
    }
  }

  lemma PositionShifts(polls: seq<Poll<PositionRow>>, pair: string, row: PositionRow)
    requires polls != [] && NoPosition(polls[0], pair)
    ensures forall n, k :: PositionAt(polls, pair, n, k, row) <==> n > 0 && PositionAt(polls[1..], pair, n - 1, k, row)
    ensures forall n, k :: PositionAt(polls[1..], pair, n, k, row) ==> n >= 0
  {
    hide StopsScan;
    forall n, k
      ensures PositionAt(polls, pair, n, k, row) <==> n > 0 && PositionAt(polls[1..], pair, n - 1, k, row)
    {
      if 0 < n < |polls| {
        assert polls[n] == polls[1..][n - 1];
        assert forall m :: 0 < m < n ==> polls[m] == polls[1..][m - 1];
        assert forall m :: 0 <= m < n - 1 ==> polls[1..][m] == polls[m + 1];
      }
    }
  }

  // ---- The protocol in terms of the replies

  /** The replies lead the entry to this position row. */
  ghost predicate LeadsTo(x: Script, pair: string, row: PositionRow) {
    && x.create.CreateOk? && x.create.orderId.Some?
    && (exists n, k, order :: OrderAt(x.orderPolls, x.create.orderId.value, n, k, order) && Pursuable(order))
    && (exists n, k :: PositionAt(x.positionPolls, pair, n, k, row))
  }

  /** An order row that reports a fill, not refused, with readable details. */
  predicate Pursuable(row: OrderRow) {
    row.detailsReadable && row.status !in {StatusRejected, StatusCancelled} && Settles(row)
    && row.remaining.value < row.total.value
  }

  lemma SeenExactly(x: Script, pair: string, row: PositionRow)
    ensures Seen(x, RiskRecheck, pair) == Some(row) <==> LeadsTo(x, pair, row)
  {
    hide OrderAnswer, PositionAnswer, OrderAt, PositionAt, AllowedTransitions, Settles, FilledQuantity;
    RecheckMaySubmit();
    PositionExactly(x.positionPolls, pair, row);
    if x.create.CreateOk? && x.create.orderId.Some? {
      var id := x.create.orderId.value;
      var answer := OrderAnswer(x.orderPolls, id);
      forall n, k, order | OrderAt(x.orderPolls, id, n, k, order)
        ensures answer == Some(order)
      {
        OrderExactly(x.orderPolls, id, order);
      }
      if answer.Some? {
        OrderExactly(x.orderPolls, id, answer.value);
        Readability(answer.value);
        DecisiveExactly(answer.value);
      }
    }
  }

  /** Both levels lie on their own side of the fill. */
  predicate OnOwnSides(fill: Fill, stop: real, target: real) {
    fill.direction != NoSetup && Sign(fill.direction) * (fill.averagePrice - stop) > 0.0
    && Sign(fill.direction) * (target - fill.averagePrice) > 0.0
  }

  /** The price is shown to within a ten-billionth of the average price, or 1e-12. */
  predicate ShownAs(shown: real, wanted: real, averagePrice: real) {
    || -0.000000000001 <= shown - wanted <= 0.000000000001
    || (shown - wanted <= averagePrice * 0.0000000001 && wanted - shown <= averagePrice * 0.0000000001)
    || (shown - wanted <= averagePrice * -0.0000000001 && wanted - shown <= averagePrice * -0.0000000001)
  }

  lemma ShownExactly(shown: real, wanted: real, averagePrice: real)
    ensures Abs(shown - wanted) <= Tolerance(averagePrice) <==> ShownAs(shown, wanted, averagePrice)
  {
  }

  lemma SidesExactly(fill: Fill, stop: real, target: real)
    ensures SidesValid(fill.direction, fill.averagePrice, stop, target) <==> OnOwnSides(fill, stop, target)
  {
  }

  /**
   A confirmation ends PROTECTED exactly when the replies lead to a position row that
   normalises to a fill with both levels on their own sides, both are accepted, and the
   first verification row of that position, with no unreadable row before it, shows both.
   */
  lemma ProtectedExactly(x: Script, pair: string, stop: real, target: real)
    ensures Last(Validating, Confirmed(x, pair, stop, target)) == Protected <==>
      exists row :: LeadsTo(x, pair, row) && row.fill.Some? && OnOwnSides(row.fill.value, stop, target)
        && !x.tpslRaises && x.tpslConfirmed && x.verify.Rows? && ShownFirst(x.verify.rows, row.fill.value, stop, target)
  {
    hide Entry, Seen, LeadsTo, ShownFirst, OnOwnSides, SidesValid, Readable, Shows, FirstMatch, AllowedTransitions;
    ProtectedIsVerified(x, RiskRecheck, pair, stop, target);
    ProtectedIsLast(x, pair, stop, target);
    forall row
      ensures Seen(x, RiskRecheck, pair) == Some(row) <==> LeadsTo(x, pair, row)
    {
      SeenExactly(x, pair, row);
    }
    var seen := Seen(x, RiskRecheck, pair);
    if seen.Some? && seen.value.fill.Some? {
      SidesExactly(seen.value.fill.value, stop, target);
      if x.verify.Rows? {
        ShownFirstExactly(x.verify.rows, seen.value.fill.value, stop, target);
      }
    }
  }

  /** The first row of the position shows both levels, and every row before it is a mapping. */
  ghost predicate ShownFirst(rows: seq<VerifyRow>, fill: Fill, stop: real, target: real) {
    exists k :: 0 <= k < |rows| && rows[k].VerifyRow? && rows[k].id == fill.exchangeId
      && (forall j :: 0 <= j < k ==> rows[j].VerifyRow? && rows[j].id != fill.exchangeId)
      && rows[k].stop.Some? && ShownAs(rows[k].stop.value, stop, fill.averagePrice)
      && rows[k].target.Some? && ShownAs(rows[k].target.value, target, fill.averagePrice)
  }

  lemma ShowsExactly(row: VerifyRow, fill: Fill, stop: real, target: real)
    ensures Shows(row, fill, stop, target) <==>
      && row.VerifyRow? && row.id == fill.exchangeId
      && row.stop.Some? && ShownAs(row.stop.value, stop, fill.averagePrice)
      && row.target.Some? && ShownAs(row.target.value, target, fill.averagePrice)
    ensures Shows(row, fill, stop, target) ==> Parses(row, fill, stop)
  {
    hide Tolerance, Abs, ShownAs;
    if row.VerifyRow? && row.stop.Some? {
      ShownExactly(row.stop.value, stop, fill.averagePrice);
    }
    if row.VerifyRow? && row.target.Some? {
      ShownExactly(row.target.value, target, fill.averagePrice);
    }
  }

  lemma FirstMatchUnique(rows: seq<VerifyRow>, id: string, i: int, j: int)
    requires FirstMatch(rows, id, i) && FirstMatch(rows, id, j)
    ensures i == j
  {
    hide Matches;
  }

  lemma ShownFirstExactly(rows: seq<VerifyRow>, fill: Fill, stop: real, target: real)
    ensures ShownFirst(rows, fill, stop, target) <==>
      && Readable(rows, fill, stop)
      && exists k :: FirstMatch(rows, fill.exchangeId, k) && Shows(rows[k], fill, stop, target)
  {
    hide Shows, Parses, ShownAs;
    var id := fill.exchangeId;
    forall k | 0 <= k < |rows|
      ensures Shows(rows[k], fill, stop, target) <==>
        && rows[k].VerifyRow? && rows[k].id == id
        && rows[k].stop.Some? && ShownAs(rows[k].stop.value, stop, fill.averagePrice)
        && rows[k].target.Some? && ShownAs(rows[k].target.value, target, fill.averagePrice)
      ensures Shows(rows[k], fill, stop, target) ==> Parses(rows[k], fill, stop)
    {
      ShowsExactly(rows[k], fill, stop, target);
    }
    if ShownFirst(rows, fill, stop, target) {
      var k :| 0 <= k < |rows| && rows[k].VerifyRow? && rows[k].id == id
        && (forall j :: 0 <= j < k ==> rows[j].VerifyRow? && rows[j].id != id)
        && Shows(rows[k], fill, stop, target);
      assert Matches(rows[k], id) && FirstMatch(rows, id, k);
      forall m | FirstMatch(rows, id, m)
        ensures m == k
      {
        FirstMatchUnique(rows, id, k, m);
      }
    }
    if k :| Readable(rows, fill, stop) && FirstMatch(rows, id, k) && Shows(rows[k], fill, stop, target) {
      forall j | 0 <= j < k
        ensures rows[j].VerifyRow? && rows[j].id != id
      {
        assert !Matches(rows[j], id);
        assert forall i :: 0 <= i < j ==> !Matches(rows[i], id);
      }
      assert Matches(rows[k], id);
    }
  }

  /** PROTECTED is only ever persisted last. */
  lemma ProtectedIsLast(x: Script, pair: string, stop: real, target: real)
    ensures Last(Validating, Confirmed(x, pair, stop, target)) == Protected
      <==> Protected in Entry(x, RiskRecheck, pair, stop, target).0
  {
    hide Entry, Protect, Seen;
    EntryStarts(x, pair, stop, target);
    if Seen(x, RiskRecheck, pair).None? {
      UnseenPath(x, RiskRecheck, pair, stop, target);
    } else {
      SeenPath(x, RiskRecheck, pair, stop, target);
      var row, entry := Seen(x, RiskRecheck, pair).value, Entry(x, RiskRecheck, pair, stop, target).0;
      if row.fill.Some? {
        assert entry == [entry[0], entry[1], entry[2]] + entry[3..];
      }
    }
  }

  /** The state persisted for a normalised position says whether its order was reported filled in part or whole. */
  lemma FillStateExactly(x: Script, pair: string, stop: real, target: real, n: int, k: int, order: OrderRow,
                         row: PositionRow)
    requires LeadsTo(x, pair, row) && row.fill.Some?
    requires OrderAt(x.orderPolls, x.create.orderId.value, n, k, order)
    ensures var path := Confirmed(x, pair, stop, target);
      |path| >= 4 && path[..2] == [RiskRecheck, Submitting] && path[3] == ProtectionPending
      && path[2] == (if order.status == StatusPartial then PartiallyFilled else Filled)
  {
    hide OrderAnswer, PositionAnswer, OrderAt, PositionAt, AllowedTransitions, AfterFill, LeadsTo;
    RecheckMaySubmit();
    SeenExactly(x, pair, row);
    OrderExactly(x.orderPolls, x.create.orderId.value, order);
    var entry := Entry(x, RiskRecheck, pair, stop, target).0;
    var (tail, _) := AfterFill(x, row.fill.value, stop, target);
    assert entry == [Submitting, entry[1], ProtectionPending] + tail;
  }

  /** The wait for the order answers with this row. */
  ghost predicate Found(x: Script, order: OrderRow) {
    && x.create.CreateOk? && x.create.orderId.Some?
    && exists n, k :: OrderAt(x.orderPolls, x.create.orderId.value, n, k, order)
  }

  /**
   What a confirmation persists when the replies lead to no position row: FAILED twice
   after a refusal, FAILED after a reply that cannot be read, nothing more when the order
   reports no fill, and ORDER_UNKNOWN otherwise.
   */
  lemma UnseenExactly(x: Script, pair: string, stop: real, target: real)
    requires forall row :: !LeadsTo(x, pair, row)
    ensures Confirmed(x, pair, stop, target) == [RiskRecheck, Submitting] +
      if x.create.CreateRefused?
         || (exists o :: Found(x, o) && o.detailsReadable && o.status in {StatusRejected, StatusCancelled})
      then [Failed, Failed]
      else if x.create.CreateBroken? || (exists o :: Found(x, o) && !o.detailsReadable) then [Failed]
      else if exists o :: Found(x, o) && o.remaining.value >= o.total.value then []
      else [OrderUnknown]
  {
    hide OrderAnswer, PositionAnswer, OrderAt, PositionAt, LeadsTo, AllowedTransitions, AfterFill;
    RecheckMaySubmit();
    forall row
      ensures Seen(x, RiskRecheck, pair) != Some(row)
    {
      SeenExactly(x, pair, row);
    }
    if x.create.CreateOk? && x.create.orderId.Some? {
      forall o
        ensures Found(x, o) <==> OrderAnswer(x.orderPolls, x.create.orderId.value) == Some(o)
      {
        OrderExactly(x.orderPolls, x.create.orderId.value, o);
      }
    }
  }

  // ---- The transition table, over all its paths

  /** States a path can show before SUBMITTING, and before PROTECTION_PENDING. */
  predicate EarlyOnly(s: IntentState) { s in {ExecutionRequested, Validating, RiskRecheck, Rejected} }

  lemma {:induction false} EarlyUntilSubmitting(from: IntentState, path: seq<IntentState>)
    requires EarlyOnly(from) && IsPath(from, path) && Submitting !in path
    ensures forall s <- path :: EarlyOnly(s)
    decreases |path|
  {
    if path != [] {
      assert path == [path[0]] + path[1..];
      EarlyUntilSubmitting(path[0], path[1..]);
    }
  }

  /** No path of the table reaches a state beyond the checks without SUBMITTING. */
  lemma NothingWithoutSubmitting(path: seq<IntentState>, s: IntentState)
    requires IsPath(ExecutionRequested, path) && s in path && Submitting !in path
    ensures s in {Validating, RiskRecheck, Rejected}
  {
    EarlyUntilSubmitting(ExecutionRequested, path);
    NeverRequestedAgain(ExecutionRequested, path);
  }

  lemma {:induction false} NeverRequestedAgain(from: IntentState, path: seq<IntentState>)
    requires IsPath(from, path)
    ensures ExecutionRequested !in path
    decreases |path|
  {
    if path != [] {
      NeverRequestedAgain(path[0], path[1..]);
    }
  }

  /** No path reaches PROTECTED without PROTECTION_PENDING. */
  lemma {:induction false} NotProtectedUnlessPending(from: IntentState, path: seq<IntentState>)
    requires from != ProtectionPending && IsPath(from, path) && ProtectionPending !in path
    ensures Protected !in path
    decreases |path|
  {
    if path != [] {
      assert path == [path[0]] + path[1..];
      NotProtectedUnlessPending(path[0], path[1..]);
    }
  }

  /** Exactly four states end every path, and from each of the others one of them can be reached. */
  lemma TerminalStates(s: IntentState)
    ensures AllowedTransitions(s) == {} <==> s in {Closed, Rejected, Failed, Critical}
    ensures AllowedTransitions(s) != {} ==>
      exists path :: path != [] && IsPath(s, path) && path[|path| - 1] in {Closed, Rejected, Failed, Critical}
  {
    var path := match s
      case ExecutionRequested => [Rejected]
      case Validating => [Rejected]
      case RiskRecheck => [Rejected]
      case Submitting => [Failed]
      case OrderOpen => [Failed]
      case PartiallyFilled => [ExitRequested, Closed]
      case Filled => [ExitRequested, Closed]
      case _ => [Critical];
    if AllowedTransitions(s) != {} {
      if |path| == 2 {
        assert path[1..] == [Closed] && [Closed][1..] == [];
      } else {
        assert path[1..] == [];
      }
      assert IsPath(s, path);
    }
  }
}
