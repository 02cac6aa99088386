/** Requests and confirmations of live executions, as tasks that interleave. */
module Confirmations {
  // A request checks for an existing intent before its first await and stores the new
  // intent after it; a confirmation consumes its grant before its first await and
  // submits after the safety gate.

  datatype Grant = Grant(tokenHash: string, expiresAt: int, consumed: bool)

  /** Intents carry their setup; `requesting` and `confirming` are the tasks in flight. */
  datatype Desk = Desk(intents: map<nat, string>, grants: map<nat, Grant>, requesting: multiset<string>,
                       confirming: multiset<nat>, submitted: seq<nat>, nextId: nat)

  datatype Action =
    | BeginRequest(setup: string)
    | FinishRequest(setup: string, allowed: bool, issueGrant: bool, tokenHash: string, expiresAt: int)
    | Confirm(id: nat, hash: string, phraseOk: bool, now: int)
    | Gate(id: nat, passes: bool)

  predicate HasIntent(d: Desk, setup: string) {
    exists id <- d.intents :: d.intents[id] == setup
  }

  predicate Confirmable(d: Desk, id: nat, hash: string, phraseOk: bool, now: int) {
    && id in d.intents && id in d.grants
    && hash == d.grants[id].tokenHash && !d.grants[id].consumed && now < d.grants[id].expiresAt
    && phraseOk
  }

  function Begun(d: Desk, setup: string): Desk {
    if HasIntent(d, setup) then d else d.(requesting := d.requesting + multiset{setup})
  }

  function Finished(d: Desk, setup: string, allowed: bool, issueGrant: bool, tokenHash: string, expiresAt: int): Desk {
    if setup !in d.requesting then d
    else if !allowed then d.(requesting := d.requesting - multiset{setup})
    else d.(requesting := d.requesting - multiset{setup},
            intents := d.intents[d.nextId := setup],
            grants := if issueGrant then d.grants[d.nextId := Grant(tokenHash, expiresAt, false)] else d.grants,
            nextId := d.nextId + 1)
  }

  function Consume(d: Desk, id: nat, hash: string, phraseOk: bool, now: int): Desk {
    if !Confirmable(d, id, hash, phraseOk, now) then d
    else d.(grants := d.grants[id := d.grants[id].(consumed := true)], confirming := d.confirming + multiset{id})
  }

  function Gated(d: Desk, id: nat, passes: bool): Desk {
    if id !in d.confirming then d
    else d.(confirming := d.confirming - multiset{id}, submitted := if passes then d.submitted + [id] else d.submitted)
  }

  function Step(d: Desk, a: Action): Desk {
    match a
    case BeginRequest(setup) => Begun(d, setup)
    case FinishRequest(setup, allowed, issueGrant, tokenHash, expiresAt) =>
      Finished(d, setup, allowed, issueGrant, tokenHash, expiresAt)
    case Confirm(id, hash, phraseOk, now) => Consume(d, id, hash, phraseOk, now)
    case Gate(id, passes) => Gated(d, id, passes)
  }

  function Run(d: Desk, actions: seq<Action>): Desk
    decreases |actions|
  {
    if actions == [] then d else Run(Step(d, actions[0]), actions[1..])
  }

  const EMPTY_DESK := Desk(map[], map[], multiset{}, multiset{}, [], 0)

  // ---- One request is submitted at most once, under every interleaving

  function Uses(d: Desk, id: nat): nat { multiset(d.submitted)[id] + d.confirming[id] }

  ghost predicate OnceEach(d: Desk) {
    && (forall id <- d.grants :: id < d.nextId) && (forall id <- d.intents :: id < d.nextId)
    && forall id: nat :: Uses(d, id) <= Consumed(d, id)
  }

  function Consumed(d: Desk, id: nat): nat {
    if id in d.grants && d.grants[id].consumed then 1 else 0
  }

  lemma ConsumeUses(d: Desk, id: nat, hash: string, phraseOk: bool, now: int, other: nat)
    requires Uses(d, other) <= Consumed(d, other)
    ensures var e := Consume(d, id, hash, phraseOk, now); Uses(e, other) <= Consumed(e, other)
  {
  }

  lemma GatedUses(d: Desk, id: nat, passes: bool, other: nat)
    ensures var e := Gated(d, id, passes); Uses(e, other) <= Uses(d, other) && Consumed(e, other) == Consumed(d, other)
  {
    if passes {
      assert multiset(d.submitted + [id]) == multiset(d.submitted) + multiset{id};
    }
  }

  lemma StepUses(d: Desk, a: Action, id: nat)
    requires Uses(d, id) <= Consumed(d, id)
    requires id == d.nextId ==> id !in d.grants
    ensures Uses(Step(d, a), id) <= Consumed(Step(d, a), id)
  {
    hide HasIntent, Consume, Gated;
    match a
    case BeginRequest(_) =>
    case FinishRequest(_, _, _, _, _) =>
    case Confirm(other, hash, phraseOk, now) => ConsumeUses(d, other, hash, phraseOk, now, id);
    case Gate(gated, passes) => GatedUses(d, gated, passes, id);
  }

  lemma StepOnceEach(d: Desk, a: Action)
    requires OnceEach(d)
    ensures OnceEach(Step(d, a))
  {
    hide Uses, Consumed;
    forall id: nat
      ensures Uses(Step(d, a), id) <= Consumed(Step(d, a), id)
    {
      StepUses(d, a, id);
    }
    StepIds(d, a);
  }

  lemma StepIds(d: Desk, a: Action)
    requires (forall id <- d.grants :: id < d.nextId) && (forall id <- d.intents :: id < d.nextId)
    ensures var e := Step(d, a); (forall id <- e.grants :: id < e.nextId) && (forall id <- e.intents :: id < e.nextId)
  {
    hide HasIntent;
  }

  lemma {:induction false} SubmittedAtMostOnce(d: Desk, actions: seq<Action>)
    requires OnceEach(d)
    ensures OnceEach(Run(d, actions))
    ensures forall id: nat :: multiset(Run(d, actions).submitted)[id] <= 1
    decreases |actions|
  {
    hide Step;
    if actions == [] {
      assert forall id: nat :: multiset(d.submitted)[id] <= Uses(d, id);
    } else {
      StepOnceEach(d, actions[0]);
      SubmittedAtMostOnce(Step(d, actions[0]), actions[1..]);
    }
  }

  // ---- One setup: safe exactly while no two requests for it are in flight

  /** Every request starts when no request for its setup is in flight. */
  predicate Serial(d: Desk, actions: seq<Action>)
    decreases |actions|
  {
    actions == []
    || ((actions[0].BeginRequest? ==> actions[0].setup !in d.requesting) && Serial(Step(d, actions[0]), actions[1..]))
  }

  ghost predicate OneIntentPerSetup(d: Desk) {
    && (forall i, j :: i in d.intents && j in d.intents && i != j ==> d.intents[i] != d.intents[j])
    && (forall s :: d.requesting[s] <= 1)
    && (forall s :: s in d.requesting ==> !HasIntent(d, s))
    && (forall id <- d.intents :: id < d.nextId)
  }

  lemma FinishedOneIntent(d: Desk, setup: string, issueGrant: bool, tokenHash: string, expiresAt: int)
    requires OneIntentPerSetup(d) && setup in d.requesting
    ensures OneIntentPerSetup(Finished(d, setup, true, issueGrant, tokenHash, expiresAt))
  {
    var e := Finished(d, setup, true, issueGrant, tokenHash, expiresAt);
    forall s | s in e.requesting
      ensures !HasIntent(e, s)
    {
      assert d.requesting[s] <= 1 && s in d.requesting && s != setup && !HasIntent(d, s);
    }
    assert !HasIntent(d, setup);
  }

  /** `OneIntentPerSetup` looks only at the intents and the requests in flight. */
  lemma OneIntentFrame(d: Desk, e: Desk)
    requires OneIntentPerSetup(d) && d.intents == e.intents && e.nextId == d.nextId
    requires forall s :: e.requesting[s] <= 1 && (s in e.requesting ==> !HasIntent(d, s))
    ensures OneIntentPerSetup(e)
  {
    assert forall s :: HasIntent(e, s) == HasIntent(d, s);
  }

  lemma StepOneIntent(d: Desk, a: Action)
    requires OneIntentPerSetup(d)
    requires a.BeginRequest? ==> a.setup !in d.requesting
    ensures OneIntentPerSetup(Step(d, a))
  {
    hide HasIntent, Confirmable;
    if a.FinishRequest? && a.setup in d.requesting && a.allowed {
      FinishedOneIntent(d, a.setup, a.issueGrant, a.tokenHash, a.expiresAt);
    } else {
      OneIntentFrame(d, Step(d, a));
    }
  }

  /** Serial requests give each setup one intent, hence at most one submission. */
  lemma {:induction false} SerialRequestsAreSafe(d: Desk, actions: seq<Action>)
    requires OneIntentPerSetup(d) && Serial(d, actions)
    ensures OneIntentPerSetup(Run(d, actions))
    decreases |actions|
  {
    hide Step, OneIntentPerSetup;
    if actions != [] {
      StepOneIntent(d, actions[0]);
      SerialRequestsAreSafe(Step(d, actions[0]), actions[1..]);
    }
  }

  /** Both requests are approved, both grants confirmed, both gates passed. */
  function RaceActions(n: nat, setup: string, hash: string, now: int): seq<Action> {
    var finish := FinishRequest(setup, true, true, hash, now + 1);
    [finish, finish, Confirm(n, hash, true, now), Confirm(n + 1, hash, true, now), Gate(n, true), Gate(n + 1, true)]
  }

  lemma FinishFresh(d: Desk, setup: string, hash: string, now: int)
    requires d.requesting[setup] >= 1
    ensures var e := Step(d, FinishRequest(setup, true, true, hash, now + 1));
      && e.intents == d.intents[d.nextId := setup]
      && e.grants == d.grants[d.nextId := Grant(hash, now + 1, false)]
      && e.submitted == d.submitted && e.nextId == d.nextId + 1
      && e.requesting[setup] == d.requesting[setup] - 1
  {
  }

  lemma ConfirmFresh(d: Desk, id: nat, hash: string, now: int)
    requires id in d.intents && id in d.grants && d.grants[id] == Grant(hash, now + 1, false)
    ensures var e := Step(d, Confirm(id, hash, true, now));
      && e.intents == d.intents && e.submitted == d.submitted
      && e.grants == d.grants[id := Grant(hash, now + 1, true)]
      && e.confirming == d.confirming + multiset{id}
  {
  }

  lemma GateBoth(d: Desk, id: nat)
    requires id in d.confirming && id + 1 in d.confirming
    ensures var e := Step(Step(d, Gate(id, true)), Gate(id + 1, true));
      e.submitted == d.submitted + [id, id + 1] && e.intents == d.intents
  {
    assert id + 1 in d.confirming - multiset{id};
    assert d.submitted + [id] + [id + 1] == d.submitted + [id, id + 1];
  }

  /** Two stored intents with fresh grants can both be submitted. */
  lemma BothSubmit(d: Desk, n: nat, hash: string, now: int)
    requires n in d.intents && n + 1 in d.intents && n in d.grants && n + 1 in d.grants
    requires d.grants[n] == d.grants[n + 1] == Grant(hash, now + 1, false)
    ensures var e := Step(Step(Step(Step(d, Confirm(n, hash, true, now)), Confirm(n + 1, hash, true, now)),
                               Gate(n, true)), Gate(n + 1, true));
      e.submitted == d.submitted + [n, n + 1] && e.intents == d.intents
  {
    hide Step;
    ConfirmFresh(d, n, hash, now);
    var d3 := Step(d, Confirm(n, hash, true, now));
    ConfirmFresh(d3, n + 1, hash, now);
    GateBoth(Step(d3, Confirm(n + 1, hash, true, now)), n);
  }

  lemma BothStore(d: Desk, setup: string, hash: string, now: int)
    requires d.requesting[setup] >= 2
    ensures var finish := FinishRequest(setup, true, true, hash, now + 1);
      var e := Step(Step(d, finish), finish);
      && e.intents == d.intents[d.nextId := setup][d.nextId + 1 := setup] && e.submitted == d.submitted
      && d.nextId in e.grants && d.nextId + 1 in e.grants
      && e.grants[d.nextId] == e.grants[d.nextId + 1] == Grant(hash, now + 1, false)
  {
    hide Step;
    FinishFresh(d, setup, hash, now);
    FinishFresh(Step(d, FinishRequest(setup, true, true, hash, now + 1)), setup, hash, now);
  }

  /** Two requests in flight for one setup can both end in a submitted order. */
  lemma RacingRequestsSubmitTwice(d: Desk, setup: string, hash: string, now: int)
    requires d.requesting[setup] >= 2
    ensures var e := Run(d, RaceActions(d.nextId, setup, hash, now));
      && e.submitted == d.submitted + [d.nextId, d.nextId + 1]
      && e.intents == d.intents[d.nextId := setup][d.nextId + 1 := setup]
  {
    hide Step, Run;
    var finish := FinishRequest(setup, true, true, hash, now + 1);
    BothStore(d, setup, hash, now);
    BothSubmit(Step(Step(d, finish), finish), d.nextId, hash, now);
    RunSix(d, RaceActions(d.nextId, setup, hash, now));
  }

  lemma RunSix(d: Desk, a: seq<Action>)
    requires |a| == 6
    ensures Run(d, a) == Step(Step(Step(Step(Step(Step(d, a[0]), a[1]), a[2]), a[3]), a[4]), a[5])
  {
    hide Step;
    RunTwo(d, a);
    var e := Step(Step(d, a[0]), a[1]);
    RunTwo(e, a[2..]);
    var f := Step(Step(e, a[2..][0]), a[2..][1]);
    assert a[2..][2..] == a[4..];
    RunTwo(f, a[4..]);
    assert a[4..][2..] == [];
  }

  lemma RunTwo(d: Desk, a: seq<Action>)
    requires |a| >= 2
    ensures Run(d, a) == Run(Step(Step(d, a[0]), a[1]), a[2..])
  {
    hide Step;
    assert a[1..][0] == a[1] && a[1..][1..] == a[2..];
    assert Run(d, a) == Run(Step(d, a[0]), a[1..]);
  }

  /** The race is reachable: two requests that start before either has stored its intent. */
  lemma RaceIsReachable(setup: string)
    ensures var d := Run(EMPTY_DESK, [BeginRequest(setup), BeginRequest(setup)]);
      OnceEach(d) && d.requesting[setup] == 2 && !Serial(EMPTY_DESK, [BeginRequest(setup), BeginRequest(setup)])
  {
    var actions := [BeginRequest(setup), BeginRequest(setup)];
    RunTwo(EMPTY_DESK, actions);
    var d1 := Step(EMPTY_DESK, actions[0]);
    var d2 := Step(d1, actions[1]);
    assert Run(EMPTY_DESK, actions) == d2;
    assert actions[1..][0] == actions[1] && setup in d1.requesting;
    assert !Serial(d1, actions[1..]);
  }

  lemma RaceIsSerial(d: Desk, n: nat, setup: string, hash: string, now: int)
    ensures Serial(d, RaceActions(n, setup, hash, now))
  {
    NoBeginsAreSerial(d, RaceActions(n, setup, hash, now));
  }

  lemma {:induction false} NoBeginsAreSerial(d: Desk, actions: seq<Action>)
    requires forall i :: 0 <= i < |actions| ==> !actions[i].BeginRequest?
    ensures Serial(d, actions)
    decreases |actions|
  {
    hide Step;
    if actions != [] {
      NoBeginsAreSerial(Step(d, actions[0]), actions[1..]);
    }
  }

  /** Every serial continuation keeps one intent for each setup. */
  ghost predicate SafeFrom(d: Desk) {
    forall more :: Serial(d, more) ==> OneIntentPerSetup(Run(d, more))
  }

  /**
   A request may begin exactly while none for its setup is in flight; otherwise
   both can be stored for the setup and submitted.
   */
  lemma BeginSafeExactly(d: Desk, setup: string, hash: string, now: int)
    requires OneIntentPerSetup(d)
    ensures SafeFrom(Step(d, BeginRequest(setup))) <==> setup !in d.requesting
    ensures var begun := Step(d, BeginRequest(setup));
      var e := Run(begun, RaceActions(d.nextId, setup, hash, now));
      setup in d.requesting ==>
        && e.submitted == d.submitted + [d.nextId, d.nextId + 1]
        && e.intents == d.intents[d.nextId := setup][d.nextId + 1 := setup]
  {
    hide Run, Serial, RaceActions, OneIntentPerSetup;
    var begun := Step(d, BeginRequest(setup));
    if setup in d.requesting {
      SecondBegins(d, setup);
      RacingRequestsSubmitTwice(begun, setup, hash, now);
      RaceIsSerial(begun, d.nextId, setup, hash, now);
      var e := Run(begun, RaceActions(d.nextId, setup, hash, now));
      TwoIntentsClash(e, d.nextId, d.nextId + 1, setup);
    } else {
      StepOneIntent(d, BeginRequest(setup));
      forall more | Serial(begun, more)
        ensures OneIntentPerSetup(Run(begun, more))
      {
        SerialRequestsAreSafe(begun, more);
      }
    }
  }

  lemma SecondBegins(d: Desk, setup: string)
    requires OneIntentPerSetup(d) && setup in d.requesting
    ensures var e := Step(d, BeginRequest(setup));
      && e.requesting[setup] >= 2 && e.nextId == d.nextId && e.submitted == d.submitted && e.intents == d.intents
  {
    assert !HasIntent(d, setup);
  }

  lemma TwoIntentsClash(d: Desk, i: nat, j: nat, setup: string)
    requires i != j && i in d.intents && j in d.intents && d.intents[i] == d.intents[j] == setup
    ensures !OneIntentPerSetup(d)
  {
  }

  /** Every state along the schedule can go on serially without two intents for one setup. */
  ghost predicate SafeThroughout(d: Desk, actions: seq<Action>)
    decreases |actions|
  {
    SafeFrom(d) && (actions == [] || SafeThroughout(Step(d, actions[0]), actions[1..]))
  }

  /** A schedule is safe throughout exactly when its requests for one setup do not overlap. */
  lemma {:induction false} SafeExactlyWhenSerial(d: Desk, actions: seq<Action>)
    requires OneIntentPerSetup(d)
    ensures SafeThroughout(d, actions) <==> Serial(d, actions)
    decreases |actions|
  {
    hide Step, OneIntentPerSetup, Run;
    assert SafeFrom(d) by {
      forall more | Serial(d, more)
        ensures OneIntentPerSetup(Run(d, more))
      {
        SerialRequestsAreSafe(d, more);
      }
    }
    if actions != [] {
      var next := Step(d, actions[0]);
      if actions[0].BeginRequest? {
        BeginSafeExactly(d, actions[0].setup, "", 0);
      }
      if actions[0].BeginRequest? && actions[0].setup in d.requesting {
        assert !SafeThroughout(next, actions[1..]);
      } else {
        StepOneIntent(d, actions[0]);
        SafeExactlyWhenSerial(next, actions[1..]);
      }
    }
  }

  // ---- The runtime's own fields

  class Runtime {
    var intents: map<nat, string>
    var grants: map<nat, Grant>
    var requesting: multiset<string>
    var confirming: multiset<nat>
    var submitted: seq<nat>
    var nextId: nat

    ghost function Value(): Desk
      reads this
    {
      Desk(intents, grants, requesting, confirming, submitted, nextId)
    }

    /** True when a new request task starts; false when an intent already exists. */
    method StartRequest(setup: string) returns (started: bool)
      modifies this`requesting
      ensures Value() == Begun(old(Value()), setup)
      ensures started <==> !HasIntent(old(Value()), setup)
    {
      var ids := intents.Keys;
      started := true;
      while ids != {} && started
        invariant ids <= intents.Keys
        invariant started ==> forall id :: id in intents && intents[id] == setup ==> id in ids
        invariant !started ==> HasIntent(Value(), setup)
        decreases |ids|
      {
        var id :| id in ids;
        ids := ids - {id};
        started := intents[id] != setup;
      }
      if started {
        requesting := requesting + multiset{setup};
      }
    }

    /** Stores the approved intent, with a grant unless the stage only validates. */
    method StoreIntent(setup: string, issueGrant: bool, tokenHash: string, expiresAt: int) returns (id: nat)
      requires setup in requesting
      modifies this
      ensures Value() == Finished(old(Value()), setup, true, issueGrant, tokenHash, expiresAt)
      ensures id == old(nextId)
    {
      hide HasIntent, Confirmable;
      id := nextId;
      requesting := requesting - multiset{setup};
      intents := intents[id := setup];
      if issueGrant {
        grants := grants[id := Grant(tokenHash, expiresAt, false)];
      }
      nextId := nextId + 1;
    }

    /** Checks and consumes the grant without an await in between. */
    method ConsumeGrant(id: nat, hash: string, phraseOk: bool, now: int) returns (ok: bool)
      modifies this`grants, this`confirming
      ensures Value() == Consume(old(Value()), id, hash, phraseOk, now)
      ensures ok <==> Confirmable(old(Value()), id, hash, phraseOk, now)
    {
      if id !in intents || id !in grants {
        return false;
      }
      var grant := grants[id];
      if hash != grant.tokenHash || grant.consumed || now >= grant.expiresAt || !phraseOk {
        return false;
      }
      grants := grants[id := grant.(consumed := true)];
      confirming := confirming + multiset{id};
      ok := true;
    }
  }
}
