/** What must have happened before an execution is submitted. */
module ConfirmationTraces {
  import opened Confirmations

  /** Action i stored request id with a grant. */
  predicate IssuedAt(past: seq<Action>, id: nat, i: int) {
    && 0 <= i < |past| && past[i].FinishRequest? && past[i].allowed && past[i].issueGrant
    && Run(EMPTY_DESK, past[..i]).nextId == id
  }

  /** Action j confirmed it: the token of the grant, the phrase, and in time. */
  predicate ConfirmedAt(past: seq<Action>, id: nat, i: int, j: int) {
    && IssuedAt(past, id, i) && i < j < |past| && past[j].Confirm? && past[j].id == id
    && past[j].hash == past[i].tokenHash && past[j].phraseOk && past[j].now < past[i].expiresAt
  }

  /** Action k let it through the gate. */
  predicate PassedAt(past: seq<Action>, id: nat, i: int, j: int, k: int) {
    ConfirmedAt(past, id, i, j) && j < k < |past| && past[k] == Gate(id, true)
  }

  /** The grant is the one that action i stored. */
  predicate GrantedAt(past: seq<Action>, id: nat, g: Grant, i: int) {
    IssuedAt(past, id, i) && g.tokenHash == past[i].tokenHash && g.expiresAt == past[i].expiresAt
  }

  ghost predicate Explained(past: seq<Action>, d: Desk) {
    && (forall id <- d.grants :: exists i :: GrantedAt(past, id, d.grants[id], i))
    && (forall id <- d.confirming :: exists i, j :: ConfirmedAt(past, id, i, j))
    && (forall id <- d.submitted :: exists i, j, k :: PassedAt(past, id, i, j, k))
  }

  lemma {:induction false} RunSnoc(d: Desk, past: seq<Action>, a: Action)
    ensures Run(d, past + [a]) == Step(Run(d, past), a)
    decreases |past|
  {
    hide Step;
    if past == [] {
      assert [a][1..] == [];
    } else {
      assert (past + [a])[0] == past[0] && (past + [a])[1..] == past[1..] + [a];
      RunSnoc(Step(d, past[0]), past[1..], a);
    }
  }

  lemma StillIssued(past: seq<Action>, a: Action, id: nat, i: int)
    requires IssuedAt(past, id, i)
    ensures IssuedAt(past + [a], id, i) && (past + [a])[i] == past[i]
  {
    hide Run;
    assert (past + [a])[..i] == past[..i];
  }

  lemma StillExplained(past: seq<Action>, a: Action, d: Desk)
    requires Explained(past, d)
    ensures Explained(past + [a], d)
  {
    hide IssuedAt, Run;
    forall id | id in d.grants
      ensures exists i :: GrantedAt(past + [a], id, d.grants[id], i)
    {
      var i :| GrantedAt(past, id, d.grants[id], i);
      StillIssued(past, a, id, i);
      assert GrantedAt(past + [a], id, d.grants[id], i);
    }
    forall id | id in d.confirming
      ensures exists i, j :: ConfirmedAt(past + [a], id, i, j)
    {
      var i, j :| ConfirmedAt(past, id, i, j);
      StillIssued(past, a, id, i);
      assert ConfirmedAt(past + [a], id, i, j);
    }
    forall id | id in d.submitted
      ensures exists i, j, k :: PassedAt(past + [a], id, i, j, k)
    {
      var i, j, k :| PassedAt(past, id, i, j, k);
      StillIssued(past, a, id, i);
      assert PassedAt(past + [a], id, i, j, k);
    }
  }

  lemma NewlyIssued(past: seq<Action>, a: Action)
    requires a.FinishRequest? && a.allowed && a.issueGrant
    ensures GrantedAt(past + [a], Run(EMPTY_DESK, past).nextId, Grant(a.tokenHash, a.expiresAt, false), |past|)
  {
    hide Run;
    assert (past + [a])[..|past|] == past;
  }

  lemma FinishExplained(past: seq<Action>, a: Action)
    requires a.FinishRequest? && Explained(past, Run(EMPTY_DESK, past))
    ensures Explained(past + [a], Step(Run(EMPTY_DESK, past), a))
  {
    var d := Run(EMPTY_DESK, past);
    hide Run, GrantedAt, ConfirmedAt, PassedAt;
    StillExplained(past, a, d);
    if a.allowed && a.issueGrant {
      NewlyIssued(past, a);
    }
  }

  lemma ConfirmExplained(past: seq<Action>, a: Action)
    requires a.Confirm? && Explained(past, Run(EMPTY_DESK, past))
    ensures Explained(past + [a], Step(Run(EMPTY_DESK, past), a))
  {
    var d := Run(EMPTY_DESK, past);
    hide Run, IssuedAt, PassedAt;
    StillExplained(past, a, d);
    var next := Step(d, a);
    if next != d {
      var i :| GrantedAt(past, a.id, d.grants[a.id], i);
      StillIssued(past, a, a.id, i);
      assert GrantedAt(past + [a], a.id, next.grants[a.id], i);
      assert ConfirmedAt(past + [a], a.id, i, |past|) by {
        IssuedBefore(past, a.id, i);
      }
    }
  }

  lemma IssuedBefore(past: seq<Action>, id: nat, i: int)
    requires IssuedAt(past, id, i)
    ensures i < |past|
  {
  }

  lemma GateExplained(past: seq<Action>, a: Action)
    requires a.Gate? && Explained(past, Run(EMPTY_DESK, past))
    ensures Explained(past + [a], Step(Run(EMPTY_DESK, past), a))
  {
    var d := Run(EMPTY_DESK, past);
    hide Run, IssuedAt, GrantedAt;
    StillExplained(past, a, d);
    if a.id in d.confirming && a.passes {
      var i, j :| ConfirmedAt(past, a.id, i, j);
      StillIssued(past, a, a.id, i);
      assert PassedAt(past + [a], a.id, i, j, |past|);
    }
  }

  lemma {:induction false} RunExplained(actions: seq<Action>)
    ensures Explained(actions, Run(EMPTY_DESK, actions))
    decreases |actions|
  {
    hide Explained, Step;
    if actions == [] {
      assert Explained([], EMPTY_DESK) by {
        NothingToExplain();
      }
    } else {
      var n := |actions| - 1;
      var past, a := actions[..n], actions[n];
      assert actions == past + [a];
      RunExplained(past);
      RunSnoc(EMPTY_DESK, past, a);
      match a
      case BeginRequest(_) => BeginExplained(past, a);
      case FinishRequest(_, _, _, _, _) => FinishExplained(past, a);
      case Confirm(_, _, _, _) => ConfirmExplained(past, a);
      case Gate(_, _) => GateExplained(past, a);
    }
  }

  lemma NothingToExplain()
    ensures Explained([], EMPTY_DESK)
  {
  }

  lemma BeginExplained(past: seq<Action>, a: Action)
    requires a.BeginRequest? && Explained(past, Run(EMPTY_DESK, past))
    ensures Explained(past + [a], Step(Run(EMPTY_DESK, past), a))
  {
    hide Run, HasIntent, GrantedAt, ConfirmedAt, PassedAt;
    StillExplained(past, a, Run(EMPTY_DESK, past));
  }

  /**
   Under every interleaving, what is submitted was stored with a grant by an allowed
   request, then confirmed with that grant's token, with the phrase and in time, and
   then let through the gate.
   */
  lemma SubmittedWasConfirmed(actions: seq<Action>, id: nat) returns (i: int, j: int, k: int)
    requires id in Run(EMPTY_DESK, actions).submitted
    ensures 0 <= i < j < k < |actions|
    ensures actions[i].FinishRequest? && actions[i].allowed && actions[i].issueGrant
    ensures Run(EMPTY_DESK, actions[..i]).nextId == id
    ensures actions[j].Confirm? && actions[j].id == id && actions[j].hash == actions[i].tokenHash
    ensures actions[j].phraseOk && actions[j].now < actions[i].expiresAt
    ensures actions[k] == Gate(id, true)
  {
    hide Run;
    RunExplained(actions);
    i, j, k :| PassedAt(actions, id, i, j, k);
  }

  /** A request that is not allowed leaves the desk as it was. */
  lemma RefusedLeavesNoTrace(d: Desk, setup: string, issueGrant: bool, hash: string, expiresAt: int)
    ensures Step(Step(d, BeginRequest(setup)), FinishRequest(setup, false, issueGrant, hash, expiresAt)) ==
      if !HasIntent(d, setup) then d else d.(requesting := d.requesting - multiset{setup})
  {
    hide HasIntent;
    assert d.requesting + multiset{setup} - multiset{setup} == d.requesting;
    if setup !in d.requesting {
      assert d.requesting - multiset{setup} == d.requesting;
    }
  }
}
