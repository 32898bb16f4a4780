/** Short runs that show what interleaving, and going back to draft, can do. */
module Races {
  import opened Prelude
  import opened Actors
  import opened Snapshots
  import opened Scenarios
  import opened Interleaving
  import opened Guarantees
  import opened AuditLog

  const OPERATOR := Actor(1, "operator", "pki_operator", "PKI Platform")

  lemma SampleKeysAreUsable()
    ensures UsableKey("key") && UsableKey("first") && UsableKey("second")
  {
    AsciiLength("key");
    AsciiLength("first");
    AsciiLength("second");
  }

  lemma RunStep(env: Env, actions: seq<Action>, a: Action)
    ensures Run(env, actions + [a]) == Step(env, Run(env, actions), a)
  {
    assert (actions + [a])[..|actions|] == actions;
  }

  /** The run ends with scenario 1 alone in the table and the given requests under way. */
  ghost predicate Ends(env: Env, actions: seq<Action>, row: Scenario, pending: map<nat, Pending>) {
    var s := Run(env, actions);
    s.db.rows == map[1 := row] && s.pending == pending && row.id == 1
  }

  lemma {:induction false} Creates(env: Env, snapshot: Snapshot) returns (actions: seq<Action>)
    requires env.valid(snapshot)
    ensures Ends(env, actions, NewScenario(1, snapshot, env.hash(snapshot), OPERATOR), map[])
  {
    RunStep(env, [], Create(1, snapshot, OPERATOR, true));
    actions := [] + [Create(1, snapshot, OPERATOR, true)];
    var row := NewScenario(1, snapshot, env.hash(snapshot), OPERATOR);
    assert Run(env, actions).db.rows == map[1 := row];
  }

  /** Read and key lookup of a simulate request. */
  lemma {:induction false} Prepares(env: Env, actions: seq<Action>, row: Scenario, pending: map<nat, Pending>,
                                    req: nat, key: string) returns (more: seq<Action>)
    requires Ends(env, actions, row, pending) && req !in pending
    requires row.state == Draft && row.key != key && UsableKey(key) && env.valid(row.snapshot)
    ensures Ends(env, more, row, pending[req := SimulateReady(row, key, OPERATOR, env.result(row.snapshot))])
    ensures Run(env, more).db == Run(env, actions).db
  {
    var read := ReadForSimulate(req, 1, key, OPERATOR);
    RunStep(env, actions, read);
    RunStep(env, actions + [read], LookUpKey(req));
    more := actions + [read] + [LookUpKey(req)];
    assert Run(env, actions + [read]).pending == pending[req := SimulateLoaded(row, key, OPERATOR)];
  }

  ghost function CompletionEntry(p: Pending): Audit
    requires p.SimulateReady?
  {
    Audit(p.row.id, SimulateAction, p.actor.userId, Some(p.row), Apply(p.row, CompletionOf(p)))
  }

  lemma {:induction false} CompletesOnlyRow(env: Env, db: Db, row: Scenario, p: Pending)
    requires db.rows == map[1 := row] && p.SimulateReady? && p.row.id == 1
    requires row.state == Draft && p.result == env.result(row.snapshot)
    ensures CommitSimulate(db, p, true)
         == (Db(map[1 := Completed(env, row, p.key)], db.audits + [CompletionEntry(p)]), None)
  {
    assert Apply(row, CompletionOf(p)) == Completed(env, row, p.key);
    assert map[1 := row][1 := Completed(env, row, p.key)] == map[1 := Completed(env, row, p.key)];
  }

  lemma {:induction false} Finishes(env: Env, actions: seq<Action>, row: Scenario, pending: map<nat, Pending>,
                                    req: nat) returns (more: seq<Action>)
    requires Ends(env, actions, row, pending) && req in pending && pending[req].SimulateReady?
    requires row.state == Draft && pending[req].row.id == 1 && pending[req].result == env.result(row.snapshot)
    ensures Ends(env, more, Completed(env, row, pending[req].key), pending - {req})
    ensures TrailIn(Run(env, more), 1) == TrailIn(Run(env, actions), 1)
              + [CompletionEntry(pending[req])]
  {
    RunStep(env, actions, FinishSimulate(req, true));
    more := actions + [FinishSimulate(req, true)];
    var p := pending[req];
    var db := Run(env, actions).db;
    CompletesOnlyRow(env, db, row, p);
    assert Run(env, more)
        == System(Db(map[1 := Completed(env, row, p.key)], db.audits + [CompletionEntry(p)]), pending - {req});
    TrailOfAppend(db.audits, CompletionEntry(p), 1);
  }

  /** A simulate request served without interruption. */
  lemma {:induction false} Simulates(env: Env, actions: seq<Action>, row: Scenario, pending: map<nat, Pending>,
                                     req: nat, key: string) returns (more: seq<Action>)
    requires Ends(env, actions, row, pending) && req !in pending
    requires row.state == Draft && row.key != key && UsableKey(key) && env.valid(row.snapshot)
    ensures Ends(env, more, Completed(env, row, key), pending)
    ensures TrailIn(Run(env, more), 1) == TrailIn(Run(env, actions), 1)
              + [CompletionEntry(SimulateReady(row, key, OPERATOR, env.result(row.snapshot)))]
  {
    var ready := SimulateReady(row, key, OPERATOR, env.result(row.snapshot));
    more := Prepares(env, actions, row, pending, req, key);
    more := Finishes(env, more, row, pending[req := ready], req);
    assert pending[req := ready] - {req} == pending;
  }

  lemma {:induction false} MovesOnlyRow(db: Db, row: Scenario, to: ScenarioState)
    requires db.rows == map[1 := row] && row.id == 1 && (to == Draft || to == Ready)
    ensures CommitTransition(db, TransitionReady(row, to, "", OPERATOR), true)
         == (Db(map[1 := row.(state := to)], db.audits + [MoveEntry(row, to)]), None)
  {
    var ready := TransitionReady(row, to, "", OPERATOR);
    assert Apply(row, MoveOf(ready)) == row.(state := to);
    assert map[1 := row][1 := row.(state := to)] == map[1 := row.(state := to)];
  }

  ghost function MoveEntry(row: Scenario, to: ScenarioState): Audit {
    Audit(1, TransitionAction, 1, Some(row), row.(state := to))
  }

  /** The read of a transition request. */
  lemma {:induction false} ReadsToMove(env: Env, actions: seq<Action>, row: Scenario, pending: map<nat, Pending>,
                                       req: nat, to: ScenarioState) returns (more: seq<Action>)
    requires Ends(env, actions, row, pending) && req !in pending
    requires CanTransition(row.state, to) && (to == Draft || to == Ready)
    ensures Ends(env, more, row, pending[req := TransitionReady(row, to, "", OPERATOR)])
    ensures Run(env, more).db == Run(env, actions).db
  {
    var read := ReadForTransition(req, 1, to, "", OPERATOR);
    RunStep(env, actions, read);
    more := actions + [read];
    assert LoadTransition(Run(env, actions).db.rows, 1, to, "", OPERATOR)
        == Ok(TransitionReady(row, to, "", OPERATOR));
  }

  lemma {:induction false} Moves(env: Env, actions: seq<Action>, row: Scenario, pending: map<nat, Pending>,
                                 req: nat, to: ScenarioState) returns (more: seq<Action>)
    requires Ends(env, actions, row, pending) && req !in pending
    requires CanTransition(row.state, to) && (to == Draft || to == Ready)
    ensures Ends(env, more, row.(state := to), pending)
    ensures TrailIn(Run(env, more), 1) == TrailIn(Run(env, actions), 1) + [MoveEntry(row, to)]
  {
    more := ReadsToMove(env, actions, row, pending, req, to);
    var ready := TransitionReady(row, to, "", OPERATOR);
    var s := Run(env, more);
    RunStep(env, more, FinishTransition(req, true));
    more := more + [FinishTransition(req, true)];
    MovesOnlyRow(s.db, row, to);
    assert pending[req := ready] - {req} == pending;
    TrailOfAppend(s.db.audits, MoveEntry(row, to), 1);
  }

  /** Created and simulated once. */
  lemma {:induction false} StartsSimulated(env: Env, snapshot: Snapshot, key: string)
    returns (actions: seq<Action>, row: Scenario)
    requires env.valid(snapshot) && UsableKey(key)
    ensures row == Completed(env, NewScenario(1, snapshot, env.hash(snapshot), OPERATOR), key)
    ensures Ends(env, actions, row, map[])
    ensures exists e :: e in TrailIn(Run(env, actions), 1) && e.action == SimulateAction && e.after.key == key
  {
    var draft := NewScenario(1, snapshot, env.hash(snapshot), OPERATOR);
    actions := Creates(env, snapshot);
    actions := Simulates(env, actions, draft, map[], 0, key);
    row := Completed(env, draft, key);
    ghost var trail := TrailIn(Run(env, actions), 1);
    assert trail[|trail| - 1] in trail;
  }

  /** Back to draft and simulated again under another key. */
  lemma {:induction false} SimulatesAgain(env: Env, actions: seq<Action>, row: Scenario, pending: map<nat, Pending>,
                                          req: nat, key: string) returns (more: seq<Action>)
    requires Ends(env, actions, row, pending) && req !in pending
    requires row.state == Simulated && row.key != key && UsableKey(key) && env.valid(row.snapshot)
    ensures Ends(env, more, Completed(env, row, key), pending)
    ensures TrailIn(Run(env, actions), 1) <= TrailIn(Run(env, more), 1)
  {
    more := Moves(env, actions, row, pending, req, Draft);
    more := Simulates(env, more, row.(state := Draft), pending, req, key);
  }

  /** A key that completed a simulation does not return the stored result for ever: here it is refused. */
  lemma {:induction false} OldKeyIsForgotten(env: Env, snapshot: Snapshot) returns (actions: seq<Action>)
    requires env.valid(snapshot)
    ensures
      var s := Run(env, actions);
      && 1 in s.db.rows
      && (exists e :: e in TrailIn(s, 1) && e.action == SimulateAction && e.after.key == "first")
      && LookupSimulate(env, s.db.rows, SimulateLoaded(s.db.rows[1], "first", OPERATOR)) == Refused(NotDraft)
  {
    SampleKeysAreUsable();
    var row;
    actions, row := StartsSimulated(env, snapshot, "first");
    ghost var e :| e in TrailIn(Run(env, actions), 1) && e.action == SimulateAction && e.after.key == "first";
    actions := SimulatesAgain(env, actions, row, map[], 1, "second");
    assert e in TrailIn(Run(env, actions), 1);
  }

  /** A simulation was completed under the key that the scenario's latest completed simulation already had. */
  ghost predicate Repeats(trail: seq<Audit>) {
    exists i :: 0 <= i < |trail| && trail[i].action == SimulateAction && LastKey(trail[..i]) == trail[i].after.key
  }

  /**
   * Two requests with one key can complete one after the other, if the scenario goes back to draft between their
   * commits. Requests served alone never do: SimulateGoesThroughIff refuses the second.
   */
  lemma {:induction false} OneKeyCanCompleteTwice(env: Env, snapshot: Snapshot) returns (actions: seq<Action>)
    requires env.valid(snapshot)
    ensures Repeats(TrailIn(Run(env, actions), 1))
  {
    SampleKeysAreUsable();
    var row := NewScenario(1, snapshot, env.hash(snapshot), OPERATOR);
    var ready := SimulateReady(row, "key", OPERATOR, env.result(snapshot));
    actions := Creates(env, snapshot);
    actions := Prepares(env, actions, row, map[], 0, "key");
    actions := Simulates(env, actions, row, map[0 := ready], 1, "key");
    actions := Moves(env, actions, Completed(env, row, "key"), map[0 := ready], 2, Draft);
    ghost var before := TrailIn(Run(env, actions), 1);
    EveryRunKeepsInv(env, actions);
    assert TrailOk(before, Run(env, actions).db.rows, 1);
    actions := Finishes(env, actions, Completed(env, row, "key").(state := Draft), map[0 := ready], 0);
    ghost var trail := TrailIn(Run(env, actions), 1);
    assert trail == before + [CompletionEntry(ready)] && trail[..|before|] == before;
  }

  /** A replay served without interruption. */
  lemma {:induction false} Replays(env: Env, actions: seq<Action>, row: Scenario, pending: map<nat, Pending>, req: nat)
    returns (more: seq<Action>)
    requires Ends(env, actions, row, pending) && req !in pending
    requires row.state != Draft && row.createdBy == OPERATOR.userId
    requires env.valid(row.snapshot) && SameResult(row, env.result(row.snapshot))
    ensures Ends(env, more, row.(replayVerified := true), pending)
  {
    var replay := ReplayReady(row, OPERATOR, true);
    assert LoadReplay(env, Run(env, actions).db.rows, 1, OPERATOR) == Ok(replay);
    RunStep(env, actions, ReadForReplay(req, 1, OPERATOR));
    more := actions + [ReadForReplay(req, 1, OPERATOR)];
    assert Run(env, more).pending == pending[req := replay];
    RunStep(env, more, FinishReplay(req, true));
    more := more + [FinishReplay(req, true)];
    assert pending[req := replay] - {req} == pending;
  }

  /** A transition whose row has a stale key or mark by the time it commits, and commits all the same. */
  ghost predicate CommitsStaleMove(env: Env, actions: seq<Action>, k: nat) {
    && WaitingSince(env, actions, 0, k) && actions[k].id == 1
    && Run(env, actions).pending[0].TransitionReady?
    && CommitTransition(Run(env, actions).db, Run(env, actions).pending[0], true).1.None?
  }

  lemma {:induction false} StaleMoveCommits(env: Env, actions: seq<Action>, row: Scenario, p: Pending)
    returns (k: nat)
    requires Ends(env, actions, row, map[0 := p])
    requires p.TransitionReady? && p.row.id == 1 && p.row.state == row.state
    ensures CommitsStaleMove(env, actions, k)
    ensures p.row.key == row.key <==> KeyKept(Run(env, actions[..k]), Run(env, actions), 1)
    ensures p.row.replayVerified == row.replayVerified <==> MarkKept(Run(env, actions[..k]), Run(env, actions), 1)
  {
    k := EveryRequestWasRead(env, actions, 0);
    ReadAndFound(env, actions, 0, k);
  }

  /** The entry a waiting transition would leave. */
  ghost function EntryOf(env: Env, actions: seq<Action>): Audit
    requires 0 in Run(env, actions).pending && Run(env, actions).pending[0].TransitionReady?
    requires CommitTransition(Run(env, actions).db, Run(env, actions).pending[0], true).1.None?
  {
    var s := Run(env, actions);
    Step(env, s, FinishTransition(0, true)).db.audits[|s.db.audits|]
  }

  /** Simulated again between a transition's read and its commit: the entry records a key the scenario no longer has. */
  lemma {:induction false} AuditedKeyCanBeStale(env: Env, snapshot: Snapshot) returns (actions: seq<Action>, k: nat)
    requires env.valid(snapshot)
    ensures CommitsStaleMove(env, actions, k) && !KeyKept(Run(env, actions[..k]), Run(env, actions), 1)
    ensures
      var after := Step(env, Run(env, actions), FinishTransition(0, true)).db.rows;
      1 in after && EntryOf(env, actions).after.key != after[1].key
  {
    SampleKeysAreUsable();
    var row;
    actions, row := StartsSimulated(env, snapshot, "first");
    actions := ReadsToMove(env, actions, row, map[], 0, Ready);
    var stale := TransitionReady(row, Ready, "", OPERATOR);
    assert map[][0 := stale] == map[0 := stale];
    actions := SimulatesAgain(env, actions, row, map[0 := stale], 1, "second");
    k := StaleMoveCommits(env, actions, Completed(env, row, "second"), stale);
    TransitionEntryIsRightIff(env, actions, 0, k, true);
  }

  /** Replayed for the first time in between: the entry denies a replay mark the scenario has. */
  lemma {:induction false} AuditedMarkCanBeStale(env: Env, snapshot: Snapshot) returns (actions: seq<Action>, k: nat)
    requires env.valid(snapshot)
    ensures CommitsStaleMove(env, actions, k) && !MarkKept(Run(env, actions[..k]), Run(env, actions), 1)
    ensures
      var after := Step(env, Run(env, actions), FinishTransition(0, true)).db.rows;
      1 in after && !EntryOf(env, actions).after.replayVerified && after[1].replayVerified
  {
    SampleKeysAreUsable();
    var row;
    actions, row := StartsSimulated(env, snapshot, "key");
    actions := ReadsToMove(env, actions, row, map[], 0, Ready);
    var stale := TransitionReady(row, Ready, "", OPERATOR);
    assert map[][0 := stale] == map[0 := stale];
    actions := Replays(env, actions, row, map[0 := stale], 1);
    k := StaleMoveCommits(env, actions, row.(replayVerified := true), stale);
    TransitionEntryIsRightIff(env, actions, 0, k, true);
  }

  /** The replay mark can land on a scenario that has gone back to draft. */
  lemma {:induction false} ReplayCanMarkADraft(env: Env, snapshot: Snapshot) returns (actions: seq<Action>)
    requires env.valid(snapshot)
    ensures
      var s := Run(env, actions);
      1 in s.db.rows && s.db.rows[1].state == Draft && s.db.rows[1].replayVerified
  {
    SampleKeysAreUsable();
    var row;
    actions, row := StartsSimulated(env, snapshot, "key");
    RunStep(env, actions, ReadForReplay(0, 1, OPERATOR));
    actions := actions + [ReadForReplay(0, 1, OPERATOR)];
    var replay := ReplayReady(row, OPERATOR, true);
    assert Ends(env, actions, row, map[0 := replay]);
    actions := Moves(env, actions, row, map[0 := replay], 1, Draft);
    RunStep(env, actions, FinishReplay(0, true));
    actions := actions + [FinishReplay(0, true)];
  }
}
