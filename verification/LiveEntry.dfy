/** The live order protocol, for every behaviour of the exchange. */
module LiveEntry {
  import opened Common

  // A `Script` holds the replies one entry will receive; numbers that may fail to
  // parse are optional.

  datatype IntentState =
    | ExecutionRequested | Validating | RiskRecheck | Submitting | OrderUnknown | OrderOpen | PartiallyFilled | Filled
    | ProtectionPending | Protected | ExitRequested | Exiting | Closed | Reconciling | Rejected | Failed | Critical

  function AllowedTransitions(s: IntentState): set<IntentState> {
    match s
    case ExecutionRequested => {Validating, Rejected}
    case Validating => {RiskRecheck, Rejected}
    case RiskRecheck => {Submitting, Rejected}
    case Submitting => {OrderUnknown, OrderOpen, PartiallyFilled, Filled, Failed}
    case OrderUnknown => {Reconciling, Critical}
    case Reconciling => {OrderOpen, PartiallyFilled, Filled, Closed, Critical}
    case OrderOpen => {PartiallyFilled, Filled, ExitRequested, Failed}
    case PartiallyFilled => {PartiallyFilled, Filled, ProtectionPending, ExitRequested}
    case Filled => {ProtectionPending, ExitRequested}
    case ProtectionPending => {Protected, ExitRequested, Critical}
    case Protected => {ExitRequested, Reconciling, Closed, Critical}
    case ExitRequested => {Exiting, Closed, Critical}
    case Exiting => {Closed, Critical}
    case _ => {}
  }

  /** Every state follows from the one before it, starting from `from`. */
  predicate IsPath(from: IntentState, path: seq<IntentState>)
    decreases |path|
  {
    path == [] || (path[0] in AllowedTransitions(from) && IsPath(path[0], path[1..]))
  }

  function Last(from: IntentState, path: seq<IntentState>): IntentState {
    if path == [] then from else path[|path| - 1]
  }

  lemma {:induction false} PathSnoc(from: IntentState, path: seq<IntentState>, next: IntentState)
    requires IsPath(from, path)
    ensures IsPath(from, path + [next]) <==> next in AllowedTransitions(Last(from, path))
    decreases |path|
  {
    hide AllowedTransitions;
    if path == [] {
      assert ([] + [next])[1..] == [];
    } else {
      assert (path + [next])[1..] == path[1..] + [next];
      PathSnoc(path[0], path[1..], next);
    }
  }

  // ---- Replies

  datatype CreateReply = CreateUnknown | CreateRefused | CreateBroken | CreateOk(orderId: Option<string>)

  datatype OrderStatus = StatusOpen | StatusPartial | StatusFilled | StatusCancelled | StatusRejected | StatusUnknown

  datatype OrderRow = OrderRow(id: string, status: OrderStatus, total: Option<real>, remaining: Option<real>,
                               detailsReadable: bool)

  datatype Fill = Fill(exchangeId: string, direction: Direction, averagePrice: real)

  /** `fill` is what normalising the row yields, or None when that raises. */
  datatype PositionRow = PositionRow(pair: string, active: Option<real>, fill: Option<Fill>)

  datatype Poll<T> = PollRaised | Rows(rows: seq<T>)

  /** A trigger price in the verification reply: unreadable, or a number (0 when absent). */
  datatype VerifyRow = NotADict | VerifyRow(id: string, stop: Option<real>, target: Option<real>)

  datatype Script = Script(
    create: CreateReply, orderPolls: seq<Poll<OrderRow>>, positionPolls: seq<Poll<PositionRow>>,
    tpslRaises: bool, tpslConfirmed: bool, verify: Poll<VerifyRow>, exitRaises: bool)

  // ---- Waiting

  /** Index of an order among the rows, or their number. */
  function OrderIndex(rows: seq<OrderRow>, id: string): (i: nat)
    ensures i <= |rows|
    ensures i < |rows| ==> rows[i].id == id
    ensures forall k :: 0 <= k < i ==> rows[k].id != id
  {
    if rows == [] || rows[0].id == id then 0 else 1 + OrderIndex(rows[1..], id)
  }

  function FilledQuantity(row: OrderRow): real
    requires row.total.Some? && row.remaining.Some?
  {
    Max(0.0, row.total.value - row.remaining.value)
  }

  predicate Decisive(row: OrderRow)
    requires row.total.Some? && row.remaining.Some?
  {
    row.status in {StatusFilled, StatusPartial, StatusRejected, StatusCancelled}
      || row.total.value - row.remaining.value > 0.0
  }

  /** The first unambiguous row; None when a poll raises or the deadline passes. */
  function OrderAnswer(polls: seq<Poll<OrderRow>>, id: string): (r: Option<OrderRow>)
    ensures r.Some? ==> r.value.total.Some? && r.value.remaining.Some? && Decisive(r.value)
  {
    if polls == [] || polls[0].PollRaised? then None
    else
      var rows := polls[0].rows;
      var i := OrderIndex(rows, id);
      if i == |rows| then OrderAnswer(polls[1..], id)
      else if rows[i].total.None? || rows[i].remaining.None? then None
      else if Decisive(rows[i]) then Some(rows[i])
      else OrderAnswer(polls[1..], id)
  }

  datatype Scan = ScanRaised | ScanNone | ScanFound(row: PositionRow)

  function ScanPositions(rows: seq<PositionRow>, pair: string): Scan {
    if rows == [] then ScanNone
    else if rows[0].pair != pair then ScanPositions(rows[1..], pair)
    else if rows[0].active.None? then ScanRaised
    else if rows[0].active.value != 0.0 then ScanFound(rows[0])
    else ScanPositions(rows[1..], pair)
  }

  function PositionAnswer(polls: seq<Poll<PositionRow>>, pair: string): Option<PositionRow> {
    if polls == [] || polls[0].PollRaised? then None
    else
      match ScanPositions(polls[0].rows, pair)
      case ScanRaised => None
      case ScanNone => PositionAnswer(polls[1..], pair)
      case ScanFound(row) => Some(row)
  }

  // ---- Protection

  predicate SidesValid(direction: Direction, entry: real, stop: real, target: real) {
    match direction
    case Long => stop < entry < target
    case Short => target < entry < stop
    case NoSetup => false
  }

  function Tolerance(averagePrice: real): real {
    Max(Abs(averagePrice) * 0.0000000001, 0.000000000001)
  }

  datatype Protection = Verified | ProtectionFailed | Escaped

  /** Looks the position up by id; a row that is not a mapping raises before the match. */
  function VerifyRows(rows: seq<VerifyRow>, fill: Fill, stop: real, target: real): Protection {
    if rows == [] then ProtectionFailed
    else if rows[0].NotADict? then Escaped
    else if rows[0].id != fill.exchangeId then VerifyRows(rows[1..], fill, stop, target)
    else if rows[0].stop.None? then Escaped
    else if Abs(rows[0].stop.value - stop) > Tolerance(fill.averagePrice) then ProtectionFailed
    else if rows[0].target.None? then Escaped
    else if Abs(rows[0].target.value - target) > Tolerance(fill.averagePrice) then ProtectionFailed
    else Verified
  }

  function Protect(x: Script, fill: Fill, stop: real, target: real): Protection {
    if !SidesValid(fill.direction, fill.averagePrice, stop, target) then ProtectionFailed
    else if x.tpslRaises || !x.tpslConfirmed || x.verify.PollRaised? then ProtectionFailed
    else VerifyRows(x.verify.rows, fill, stop, target)
  }

  // ---- The protocol

  datatype Ending = Returned | BadTransition | RaisedUnknown | RaisedExchange | RaisedProtection | RaisedOther

  /** The states `execute_entry` persists, and how it ends. */
  function Entry(x: Script, from: IntentState, pair: string, stop: real, target: real): (seq<IntentState>, Ending) {
    if Submitting !in AllowedTransitions(from) then ([], BadTransition)
    else
      match x.create
      case CreateUnknown => ([Submitting, OrderUnknown], RaisedUnknown)
      case CreateRefused => ([Submitting, Failed], RaisedExchange)
      case CreateBroken => ([Submitting], RaisedOther)
      case CreateOk(orderId) =>
        if orderId.None? then ([Submitting, OrderUnknown], RaisedUnknown)
        else
          match OrderAnswer(x.orderPolls, orderId.value)
          case None => ([Submitting, OrderUnknown], RaisedUnknown)
          case Some(row) => AfterOrder(x, row, pair, stop, target)
  }

  function AfterOrder(x: Script, row: OrderRow, pair: string, stop: real, target: real): (seq<IntentState>, Ending)
    requires row.total.Some? && row.remaining.Some?
  {
    if !row.detailsReadable then ([Submitting], RaisedOther)
    else if row.status in {StatusRejected, StatusCancelled} then ([Submitting, Failed], RaisedExchange)
    else if FilledQuantity(row) <= 0.0 then ([Submitting], RaisedUnknown)
    else
      match PositionAnswer(x.positionPolls, pair)
      case None => ([Submitting, OrderUnknown], RaisedUnknown)
      case Some(position) =>
        if position.fill.None? then ([Submitting], RaisedOther)
        else
          var filled := if row.status == StatusPartial then PartiallyFilled else Filled;
          var (tail, ending) := AfterFill(x, position.fill.value, stop, target);
          ([Submitting, filled, ProtectionPending] + tail, ending)
  }

  function AfterFill(x: Script, fill: Fill, stop: real, target: real): (seq<IntentState>, Ending) {
    match Protect(x, fill, stop, target)
    case Verified => ([Protected], Returned)
    case Escaped => ([], RaisedOther)
    case ProtectionFailed =>
      if x.exitRaises then ([ExitRequested, Critical], RaisedProtection) else ([ExitRequested], RaisedProtection)
  }

  class Repository {
    var intents: seq<IntentState>

    constructor ()
      ensures intents == []
    {
      intents := [];
    }

    method Save(s: IntentState)
      modifies this
      ensures intents == old(intents) + [s]
    {
      intents := intents + [s];
    }
  }

  method WaitForOrder(polls: seq<Poll<OrderRow>>, id: string) returns (answer: Option<OrderRow>)
    ensures answer == OrderAnswer(polls, id)
  {
    for n := 0 to |polls|
      invariant OrderAnswer(polls, id) == OrderAnswer(polls[n..], id)
    {
      assert polls[n..][0] == polls[n] && polls[n..][1..] == polls[n + 1..];
      if polls[n].PollRaised? {
        return None;
      }
      var rows := polls[n].rows;
      var i := OrderIndex(rows, id);
      if i < |rows| {
        if rows[i].total.None? || rows[i].remaining.None? {
          return None;
        }
        if Decisive(rows[i]) {
          return Some(rows[i]);
        }
      }
    }
    return None;
  }

  method WaitForPosition(polls: seq<Poll<PositionRow>>, pair: string) returns (answer: Option<PositionRow>)
    ensures answer == PositionAnswer(polls, pair)
  {
    for n := 0 to |polls|
      invariant PositionAnswer(polls, pair) == PositionAnswer(polls[n..], pair)
    {
      assert polls[n..][0] == polls[n] && polls[n..][1..] == polls[n + 1..];
      if polls[n].PollRaised? {
        return None;
      }
      match ScanPositions(polls[n].rows, pair) {
        case ScanRaised => return None;
        case ScanFound(row) => return Some(row);
        case ScanNone =>
      }
    }
    return None;
  }

  method ExecuteEntry(repository: Repository, x: Script, from: IntentState, pair: string, stop: real, target: real)
    returns (ending: Ending)
    modifies repository
    ensures repository.intents == old(repository.intents) + Entry(x, from, pair, stop, target).0
    ensures ending == Entry(x, from, pair, stop, target).1
  {
    hide AllowedTransitions, OrderAnswer, PositionAnswer, Protect, Decisive;
    ghost var before := repository.intents;
    if Submitting !in AllowedTransitions(from) {
      return BadTransition;
    }
    repository.Save(Submitting);
    match x.create {
      case CreateUnknown =>
        repository.Save(OrderUnknown);
        assert repository.intents == before + [Submitting, OrderUnknown];
        return RaisedUnknown;
      case CreateRefused =>
        repository.Save(Failed);
        assert repository.intents == before + [Submitting, Failed];
        return RaisedExchange;
      case CreateBroken =>
        return RaisedOther;
      case CreateOk(orderId) =>
        if orderId.None? {
          repository.Save(OrderUnknown);
          assert repository.intents == before + [Submitting, OrderUnknown];
          return RaisedUnknown;
        }
        var answer := WaitForOrder(x.orderPolls, orderId.value);
        if answer.None? {
          repository.Save(OrderUnknown);
          assert repository.intents == before + [Submitting, OrderUnknown];
          return RaisedUnknown;
        }
        ending := FinishEntry(repository, x, answer.value, pair, stop, target);
        var path := AfterOrder(x, answer.value, pair, stop, target).0;
        assert path == [Submitting] + path[1..];
        assert repository.intents == before + path;
    }
  }

  /** The part of the entry after the order answer; SUBMITTING is already saved. */
  method FinishEntry(repository: Repository, x: Script, row: OrderRow, pair: string, stop: real, target: real)
    returns (ending: Ending)
    requires row.total.Some? && row.remaining.Some?
    modifies repository
    ensures repository.intents == old(repository.intents) + AfterOrder(x, row, pair, stop, target).0[1..]
    ensures ending == AfterOrder(x, row, pair, stop, target).1
  {
    hide PositionAnswer, Protect;
    ghost var before, path := repository.intents, AfterOrder(x, row, pair, stop, target).0;
    if !row.detailsReadable {
      return RaisedOther;
    }
    if row.status in {StatusRejected, StatusCancelled} {
      repository.Save(Failed);
      return RaisedExchange;
    }
    if FilledQuantity(row) <= 0.0 {
      return RaisedUnknown;
    }
    var position := WaitForPosition(x.positionPolls, pair);
    if position.None? {
      repository.Save(OrderUnknown);
      assert path[1..] == [OrderUnknown];
      return RaisedUnknown;
    }
    if position.value.fill.None? {
      return RaisedOther;
    }
    repository.Save(if row.status == StatusPartial then PartiallyFilled else Filled);
    repository.Save(ProtectionPending);
    match Protect(x, position.value.fill.value, stop, target) {
      case Verified =>
        repository.Save(Protected);
        ending := Returned;
      case Escaped =>
        ending := RaisedOther;
      case ProtectionFailed =>
        repository.Save(ExitRequested);
        if x.exitRaises {
          repository.Save(Critical);
        }
        ending := RaisedProtection;
    }
    assert repository.intents == before + path[1..];
  }

  // ---- What holds for every exchange

  /** The row that `_wait_for_position` returned, if the entry got that far. */
  function Seen(x: Script, from: IntentState, pair: string): Option<PositionRow> {
    if Submitting !in AllowedTransitions(from) || !x.create.CreateOk? || x.create.orderId.None? then None
    else
      match OrderAnswer(x.orderPolls, x.create.orderId.value)
      case None => None
      case Some(row) =>
        if !row.detailsReadable || row.status in {StatusRejected, StatusCancelled} || FilledQuantity(row) <= 0.0
        then None
        else PositionAnswer(x.positionPolls, pair)
  }

  /** Persisted states follow the transition table, although most saves bypass `transition`. */
  lemma EntryFollowsTable(x: Script, from: IntentState, pair: string, stop: real, target: real)
    ensures IsPath(from, Entry(x, from, pair, stop, target).0)
  {
    hide OrderAnswer, PositionAnswer, Protect;
    var (path, _) := Entry(x, from, pair, stop, target);
    if path != [] {
      assert path[0] == Submitting && Submitting in AllowedTransitions(from);
      TailFollowsTable(path[1..]);
    }
  }

  lemma TailFollowsTable(tail: seq<IntentState>)
    requires tail == [] || tail == [OrderUnknown] || tail == [Failed]
      || (|tail| in {2, 3, 4} && tail[0] in {PartiallyFilled, Filled} && tail[1] == ProtectionPending
          && tail[2..] in {[], [Protected], [ExitRequested], [ExitRequested, Critical]})
    ensures IsPath(Submitting, tail)
  {
    if |tail| >= 2 {
      var rest := tail[2..];
      assert tail[1..][0] == ProtectionPending && tail[1..][1..] == rest;
      assert IsPath(ProtectionPending, rest) by {
        if |rest| == 2 {
          assert rest[1..] == [Critical];
          assert [Critical][1..] == [];
        } else if |rest| == 1 {
          assert rest[1..] == [];
        }
      }
      assert IsPath(tail[0], tail[1..]);
    } else if |tail| == 1 {
      assert tail[1..] == [];
    }
  }

  predicate Matches(row: VerifyRow, id: string) { row.VerifyRow? && row.id == id }

  predicate FirstMatch(rows: seq<VerifyRow>, id: string, k: int) {
    0 <= k < |rows| && Matches(rows[k], id) && forall j :: 0 <= j < k ==> !Matches(rows[j], id)
  }

  predicate Parses(row: VerifyRow, fill: Fill, stop: real) {
    && row.VerifyRow? && row.stop.Some?
    && (Abs(row.stop.value - stop) <= Tolerance(fill.averagePrice) ==> row.target.Some?)
  }

  /**
   The verification reply can be read as far as the lookup needs: a row for the
   position comes before any row that is not a mapping, its stop parses, and its
   target parses if the stop agrees.
   */
  ghost predicate Readable(rows: seq<VerifyRow>, fill: Fill, stop: real) {
    && (forall j :: 0 <= j < |rows| && rows[j].NotADict? ==>
          exists i :: 0 <= i < j && Matches(rows[i], fill.exchangeId))
    && (forall k :: FirstMatch(rows, fill.exchangeId, k) ==> Parses(rows[k], fill, stop))
  }

  /** The exchange's own row for the position carries both levels within tolerance. */
  predicate Shows(row: VerifyRow, fill: Fill, stop: real, target: real) {
    && Matches(row, fill.exchangeId)
    && row.stop.Some? && Abs(row.stop.value - stop) <= Tolerance(fill.averagePrice)
    && row.target.Some? && Abs(row.target.value - target) <= Tolerance(fill.averagePrice)
  }

  /** Dropping a first row that is not the position's shifts the first match. */
  lemma ReadableTail(rows: seq<VerifyRow>, fill: Fill, stop: real)
    requires rows != [] && rows[0].VerifyRow? && !Matches(rows[0], fill.exchangeId)
    ensures forall k :: FirstMatch(rows, fill.exchangeId, k) <==> k > 0 && FirstMatch(rows[1..], fill.exchangeId, k - 1)
    ensures Readable(rows, fill, stop) <==> Readable(rows[1..], fill, stop)
  {
    hide Parses, Matches;
    var id, tail := fill.exchangeId, rows[1..];
    forall k
      ensures FirstMatch(rows, id, k) <==> k > 0 && FirstMatch(tail, id, k - 1)
    {
      if k > 0 && FirstMatch(tail, id, k - 1) {
        assert forall j :: 0 < j < k ==> rows[j] == tail[j - 1];
      }
    }
    ReadableDown(rows, fill, stop);
    ReadableUp(rows, fill, stop);
  }

  lemma ReadableDown(rows: seq<VerifyRow>, fill: Fill, stop: real)
    requires rows != [] && rows[0].VerifyRow? && !Matches(rows[0], fill.exchangeId)
    requires forall k ::
      FirstMatch(rows, fill.exchangeId, k) <==> k > 0 && FirstMatch(rows[1..], fill.exchangeId, k - 1)
    ensures Readable(rows, fill, stop) ==> Readable(rows[1..], fill, stop)
  {
    hide Parses, Matches;
    var id, tail := fill.exchangeId, rows[1..];
    if Readable(rows, fill, stop) {
      forall j | 0 <= j < |tail| && tail[j].NotADict?
        ensures exists i :: 0 <= i < j && Matches(tail[i], id)
      {
        assert rows[j + 1].NotADict?;
        var i :| 0 <= i < j + 1 && Matches(rows[i], id);
        assert tail[i - 1] == rows[i];
      }
      forall k | FirstMatch(tail, id, k)
        ensures Parses(tail[k], fill, stop)
      {
        assert FirstMatch(tail, id, (k + 1) - 1);
        assert FirstMatch(rows, id, k + 1) && tail[k] == rows[k + 1];
      }
    }
  }

  lemma ReadableUp(rows: seq<VerifyRow>, fill: Fill, stop: real)
    requires rows != [] && rows[0].VerifyRow? && !Matches(rows[0], fill.exchangeId)
    requires forall k ::
      FirstMatch(rows, fill.exchangeId, k) <==> k > 0 && FirstMatch(rows[1..], fill.exchangeId, k - 1)
    ensures Readable(rows[1..], fill, stop) ==> Readable(rows, fill, stop)
  {
    hide Parses, Matches;
    var id, tail := fill.exchangeId, rows[1..];
    if Readable(tail, fill, stop) {
      forall j | 0 <= j < |rows| && rows[j].NotADict?
        ensures exists i :: 0 <= i < j && Matches(rows[i], id)
      {
        assert tail[j - 1].NotADict?;
        var i :| 0 <= i < j - 1 && Matches(tail[i], id);
        assert rows[i + 1] == tail[i];
      }
      forall k | FirstMatch(rows, id, k)
        ensures Parses(rows[k], fill, stop)
      {
        assert rows[k] == tail[k - 1];
      }
    }
  }

  /** The lookup escapes exactly on an unreadable reply, and succeeds exactly when its first match shows both levels. */
  lemma {:induction false} LookupExactly(rows: seq<VerifyRow>, fill: Fill, stop: real, target: real)
    ensures VerifyRows(rows, fill, stop, target) != Escaped <==> Readable(rows, fill, stop)
    ensures VerifyRows(rows, fill, stop, target) == Verified <==>
      Readable(rows, fill, stop) && exists k ::
        FirstMatch(rows, fill.exchangeId, k) && Shows(rows[k], fill, stop, target)
  {
    hide Tolerance, Abs;
    if rows != [] {
      var id := fill.exchangeId;
      if rows[0].NotADict? {
        assert !Readable(rows, fill, stop);
      } else if Matches(rows[0], id) {
        assert FirstMatch(rows, id, 0);
        assert forall k :: FirstMatch(rows, id, k) ==> k == 0;
      } else {
        var tail := rows[1..];
        LookupExactly(tail, fill, stop, target);
        ReadableTail(rows, fill, stop);
        if k :| FirstMatch(tail, id, k) && Shows(tail[k], fill, stop, target) {
          assert FirstMatch(tail, id, (k + 1) - 1) && rows[k + 1] == tail[k];
        }
        if k :| FirstMatch(rows, id, k) && Shows(rows[k], fill, stop, target) {
          assert rows[k] == tail[k - 1];
        }
      }
    }
  }

  /**
   Every reply that matters for a seen position can be read: the position row
   normalises and, once both levels are accepted, so does the verification reply.
   */
  ghost predicate Answerable(x: Script, row: PositionRow, stop: real, target: real) {
    && row.fill.Some?
    && var fill := row.fill.value;
    (SidesValid(fill.direction, fill.averagePrice, stop, target) && !x.tpslRaises && x.tpslConfirmed
     && x.verify.Rows? ==>
       Readable(x.verify.rows, fill, stop))
  }

  lemma AnswerableExactly(x: Script, row: PositionRow, stop: real, target: real)
    requires row.fill.Some?
    ensures Answerable(x, row, stop, target) <==> Protect(x, row.fill.value, stop, target) != Escaped
  {
    hide VerifyRows, Readable, SidesValid;
    if x.verify.Rows? {
      LookupExactly(x.verify.rows, row.fill.value, stop, target);
    }
  }

  /** What the entry persists and how it ends, once a position has been seen. */
  lemma SeenPath(x: Script, from: IntentState, pair: string, stop: real, target: real)
    requires Seen(x, from, pair).Some?
    ensures var (path, ending), row := Entry(x, from, pair, stop, target), Seen(x, from, pair).value;
      if row.fill.None? then path == [Submitting] && ending == RaisedOther
      else
        var (tail, tailEnding) := AfterFill(x, row.fill.value, stop, target);
        && |path| == 3 + |tail| && path[0] == Submitting && path[1] in {PartiallyFilled, Filled}
        && path[2] == ProtectionPending && path[3..] == tail && ending == tailEnding
  {
    hide OrderAnswer, PositionAnswer, AfterFill, AllowedTransitions;
  }

  /** Without a seen position nothing beyond the order is persisted. */
  lemma UnseenPath(x: Script, from: IntentState, pair: string, stop: real, target: real)
    requires Seen(x, from, pair).None?
    ensures var (path, ending) := Entry(x, from, pair, stop, target);
      && path in {[], [Submitting], [Submitting, OrderUnknown], [Submitting, Failed]}
      && (path == [] <==> ending == BadTransition) && ending !in {Returned, RaisedProtection}
      && (path == [Submitting, OrderUnknown] ==> ending == RaisedUnknown)
      && (ending == RaisedExchange <==> path == [Submitting, Failed])
  {
    hide OrderAnswer, PositionAnswer, AllowedTransitions;
  }

  /**
   PROTECTED is persisted exactly when the entry returns: when a seen position
   has both levels on the correct sides, the exchange accepted them, and the first
   row it then shows for the position carries them within tolerance.
   */
  lemma ProtectedIsVerified(x: Script, from: IntentState, pair: string, stop: real, target: real)
    ensures var (path, ending) := Entry(x, from, pair, stop, target);
      && (ending == Returned <==> Protected in path)
      && (Protected in path <==>
            && Seen(x, from, pair).Some? && Seen(x, from, pair).value.fill.Some?
            && var fill := Seen(x, from, pair).value.fill.value;
            && SidesValid(fill.direction, fill.averagePrice, stop, target)
            && !x.tpslRaises && x.tpslConfirmed && x.verify.Rows? && Readable(x.verify.rows, fill, stop)
            && exists k :: FirstMatch(x.verify.rows, fill.exchangeId, k) && Shows(x.verify.rows[k], fill, stop, target))
  {
    hide Entry, VerifyRows, Shows, SidesValid, Seen, Readable, FirstMatch;
    if Seen(x, from, pair).None? {
      UnseenPath(x, from, pair, stop, target);
    } else {
      SeenPath(x, from, pair, stop, target);
      var row, path := Seen(x, from, pair).value, Entry(x, from, pair, stop, target).0;
      if row.fill.Some? {
        assert path == [path[0], path[1], path[2]] + path[3..];
        if x.verify.Rows? {
          LookupExactly(x.verify.rows, row.fill.value, stop, target);
        }
      }
    }
  }

  // ---- Around the executor: `confirm_execution` after the gate has passed

  /** An unexpected exception is persisted as FAILED; the protocol errors are not persisted again. */
  function Confirmed(x: Script, pair: string, stop: real, target: real): seq<IntentState> {
    var (path, ending) := Entry(x, RiskRecheck, pair, stop, target);
    [RiskRecheck] + path + (if ending in {RaisedExchange, RaisedOther, BadTransition} then [Failed] else [])
  }

  /** The intent kept in memory. */
  function InMemory(ending: Ending): IntentState {
    match ending
    case Returned => Protected
    case RaisedUnknown => OrderUnknown
    case RaisedProtection => Critical
    case _ => Failed
  }

  /** Drops a state saved twice in a row. */
  function Deduplicated(path: seq<IntentState>): seq<IntentState> {
    if |path| < 2 then path
    else if path[0] == path[1] then Deduplicated(path[1..])
    else [path[0]] + Deduplicated(path[1..])
  }

  /**
   A seen position ends protected, exiting or critical exactly when every reply
   about it can be read, and otherwise as FAILED. Without one the confirmation
   ends in none of the three.
   */
  lemma ObservedIsHandled(x: Script, pair: string, stop: real, target: real)
    ensures var last := Last(Validating, Confirmed(x, pair, stop, target));
      match Seen(x, RiskRecheck, pair)
      case Some(row) =>
        && (last in {Protected, ExitRequested, Critical} <==> Answerable(x, row, stop, target))
        && (last == Failed <==> !Answerable(x, row, stop, target))
        && (last in {ExitRequested, Critical} ==> (last == Critical <==> x.exitRaises))
      case None => last in {Submitting, OrderUnknown, Failed}
  {
    hide Entry, Protect, Seen, Answerable, AllowedTransitions;
    RecheckMaySubmit();
    if Seen(x, RiskRecheck, pair).None? {
      UnseenPath(x, RiskRecheck, pair, stop, target);
      EntryStarts(x, pair, stop, target);
    } else {
      SeenPath(x, RiskRecheck, pair, stop, target);
      var row := Seen(x, RiskRecheck, pair).value;
      if row.fill.Some? {
        AnswerableExactly(x, row, stop, target);
      } else {
        NoFillUnanswerable(x, row, stop, target);
      }
    }
  }

  lemma RecheckMaySubmit()
    ensures Submitting in AllowedTransitions(RiskRecheck)
  {
  }

  lemma NoFillUnanswerable(x: Script, row: PositionRow, stop: real, target: real)
    requires row.fill.None?
    ensures !Answerable(x, row, stop, target)
  {
  }

  lemma EntryStarts(x: Script, pair: string, stop: real, target: real)
    ensures Entry(x, RiskRecheck, pair, stop, target).0 != []
  {
    hide OrderAnswer, PositionAnswer, Protect;
    RecheckMaySubmit();
  }

  /**
   Everything one confirmation persists follows the table, up to saving FAILED
   twice, exactly unless a normalised position meets an unreadable verification
   reply: then FAILED is saved directly after PROTECTION_PENDING.
   */
  lemma ConfirmationFollowsTable(x: Script, pair: string, stop: real, target: real)
    ensures var path, seen := Confirmed(x, pair, stop, target), Seen(x, RiskRecheck, pair);
      && (IsPath(Validating, Deduplicated(path))
          <==> seen.None? || seen.value.fill.None? || Answerable(x, seen.value, stop, target))
      && (seen.Some? && seen.value.fill.Some? && !Answerable(x, seen.value, stop, target) ==>
            && |path| >= 2 && path[|path| - 2..] == [ProtectionPending, Failed]
            && InMemory(Entry(x, RiskRecheck, pair, stop, target).1) == Failed)
  {
    hide Entry, Answerable, Seen, IsPath, Deduplicated;
    var (entry, ending) := Entry(x, RiskRecheck, pair, stop, target);
    var path, base := Confirmed(x, pair, stop, target), [RiskRecheck] + entry;
    EntryFollowsTable(x, RiskRecheck, pair, stop, target);
    PathPrefixed(entry);
    EntryEnds(x, pair, stop, target);
    NoRepeats(base);
    if ending == RaisedExchange {
      assert path == base + [base[|base| - 1]];
      DropRepeat(base);
    } else if ending == RaisedOther {
      assert path == base + [Failed];
      NoRepeats(path);
      PathSnoc(Validating, base, Failed);
    } else {
      assert path == base;
    }
  }

  /** How the entry's persisted states relate to its ending. */
  lemma EntryEnds(x: Script, pair: string, stop: real, target: real)
    ensures var (entry, ending) := Entry(x, RiskRecheck, pair, stop, target);
      var base, seen := [RiskRecheck] + entry, Seen(x, RiskRecheck, pair);
      var last := base[|base| - 1];
      && ending != BadTransition
      && (forall i :: 0 <= i < |base| - 1 ==> base[i] != base[i + 1])
      && (ending == RaisedExchange ==> last == Failed)
      && (ending == RaisedOther ==> last in {Submitting, ProtectionPending})
      && (last == ProtectionPending <==>
            seen.Some? && seen.value.fill.Some? && !Answerable(x, seen.value, stop, target))
      && (last == ProtectionPending ==> ending == RaisedOther)
      && (last == Submitting && ending == RaisedOther ==> Failed in AllowedTransitions(last))
  {
    hide Entry, Protect, Seen, Answerable;
    EntryStarts(x, pair, stop, target);
    if Seen(x, RiskRecheck, pair).None? {
      UnseenPath(x, RiskRecheck, pair, stop, target);
    } else {
      SeenPath(x, RiskRecheck, pair, stop, target);
      var row, entry := Seen(x, RiskRecheck, pair).value, Entry(x, RiskRecheck, pair, stop, target).0;
      if row.fill.Some? {
        AnswerableExactly(x, row, stop, target);
        assert entry == [entry[0], entry[1], entry[2]] + entry[3..];
      }
    }
  }

  lemma PathPrefixed(entry: seq<IntentState>)
    requires IsPath(RiskRecheck, entry)
    ensures IsPath(Validating, [RiskRecheck] + entry)
  {
    assert ([RiskRecheck] + entry)[1..] == entry;
  }

  lemma {:induction false} NoRepeats(path: seq<IntentState>)
    ensures (forall i :: 0 <= i < |path| - 1 ==> path[i] != path[i + 1]) ==> Deduplicated(path) == path
  {
    if |path| >= 2 && forall i :: 0 <= i < |path| - 1 ==> path[i] != path[i + 1] {
      assert path[0] != path[0 + 1];
      assert forall i :: 0 <= i < |path[1..]| - 1 ==> path[1..][i] == path[i + 1];
      NoRepeats(path[1..]);
    }
  }

  lemma {:induction false} DropRepeat(path: seq<IntentState>)
    requires path != [] && forall i :: 0 <= i < |path| - 1 ==> path[i] != path[i + 1]
    ensures Deduplicated(path + [path[|path| - 1]]) == path
  {
    var longer := path + [path[|path| - 1]];
    if |path| == 1 {
      assert longer[1..] == path;
    } else {
      assert path[0] != path[0 + 1];
      assert forall i :: 0 <= i < |path[1..]| - 1 ==> path[1..][i] == path[i + 1];
      DropRepeat(path[1..]);
      assert longer[1..] == path[1..] + [path[1..][|path[1..]| - 1]];
    }
  }

  /**
   A reported fill ends as FAILED exactly when its order details cannot be read,
   the order is reported cancelled or rejected, or its position is seen and some
   reply about it cannot be read.
   */
  lemma ReportedFillEndsFailed(x: Script, pair: string, stop: real, target: real, id: string)
    requires x.create == CreateOk(Some(id))
    requires OrderAnswer(x.orderPolls, id).Some? && FilledQuantity(OrderAnswer(x.orderPolls, id).value) > 0.0
    ensures var row, seen := OrderAnswer(x.orderPolls, id).value, Seen(x, RiskRecheck, pair);
      && (Last(Validating, Confirmed(x, pair, stop, target)) == Failed <==>
            !row.detailsReadable || row.status in {StatusCancelled, StatusRejected}
            || (seen.Some? && !Answerable(x, seen.value, stop, target)))
      && (seen.None? && Pursued(row) ==> Last(Validating, Confirmed(x, pair, stop, target)) == OrderUnknown)
      && (Entry(x, RiskRecheck, pair, stop, target) == ([Submitting, Failed], RaisedExchange)
          <==> row.detailsReadable && row.status in {StatusCancelled, StatusRejected})
  {
    hide OrderAnswer, PositionAnswer, Protect, Answerable;
    RecheckMaySubmit();
    ObservedIsHandled(x, pair, stop, target);
  }

  /** The executor goes on to look for the position of this order. */
  predicate Pursued(row: OrderRow) {
    row.detailsReadable && row.status !in {StatusCancelled, StatusRejected}
  }

  // ---- Every failing reply occurs

  /** One filled order, one position row, both levels accepted, one verification reply. */
  function FilledScript(position: PositionRow, reply: seq<VerifyRow>): Script {
    Script(CreateOk(Some("1")), [Rows([OrderRow("1", StatusFilled, Some(1.0), Some(0.0), true)])], [Rows([position])],
           false, true, Rows(reply), false)
  }

  lemma FilledScriptSees(position: PositionRow, reply: seq<VerifyRow>)
    requires position.pair == "P" && position.active == Some(1.0)
    ensures Seen(FilledScript(position, reply), RiskRecheck, "P") == Some(position)
  {
    var x := FilledScript(position, reply);
    assert OrderAnswer(x.orderPolls, "1") == Some(x.orderPolls[0].rows[0]);
    assert ScanPositions([position], "P") == ScanFound(position);
  }

  /** A long filled at 100 with stop 99 and target 102; each reply that cannot be read leaves it FAILED. */
  lemma UnreadableRepliesEndFailed(reply: seq<VerifyRow>)
    requires reply in {[NotADict], [VerifyRow("7", None, Some(102.0))], [VerifyRow("7", Some(99.0), None)]}
    ensures var x := FilledScript(PositionRow("P", Some(1.0), Some(Fill("7", Long, 100.0))), reply);
      Seen(x, RiskRecheck, "P").Some? && Last(Validating, Confirmed(x, "P", 99.0, 102.0)) == Failed
  {
    var row := PositionRow("P", Some(1.0), Some(Fill("7", Long, 100.0)));
    var x := FilledScript(row, reply);
    FilledScriptSees(row, reply);
    ObservedIsHandled(x, "P", 99.0, 102.0);
    LookupExactly(reply, row.fill.value, 99.0, 102.0);
  }

  /** So does a position row that does not normalise, whatever follows. */
  lemma UnreadablePositionEndsFailed(reply: seq<VerifyRow>)
    ensures var x := FilledScript(PositionRow("P", Some(1.0), None), reply);
      Seen(x, RiskRecheck, "P").Some? && Confirmed(x, "P", 99.0, 102.0) == [RiskRecheck, Submitting, Failed]
  {
    var row := PositionRow("P", Some(1.0), None);
    FilledScriptSees(row, reply);
    SeenPath(FilledScript(row, reply), RiskRecheck, "P", 99.0, 102.0);
  }
}
