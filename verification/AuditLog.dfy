/** What the audit log says about the table, and when an entry made from a stale row is right. */
module AuditLog {
  import opened Prelude
  import opened Actors
  import opened Snapshots
  import opened Scenarios
  import opened Interleaving
  import opened Guarantees

  // ----- what an audit entry says about the row it records

  ghost predicate SameButMarks(a: Scenario, b: Scenario) {
    a == b.(key := a.key, replayVerified := a.replayVerified)
  }

  ghost predicate SameButResults(a: Scenario, b: Scenario) {
    a == b.(key := a.key, replayVerified := a.replayVerified, findings := a.findings, explanation := a.explanation)
  }

  /**
   * An entry holds the row as it was read. Against the row it replaced, the `before` of a simulate or transition entry
   * can differ only in the key and the replay mark, of a simulate entry also in the results, and then only if the
   * scenario was simulated for the first time since. Its `after` can differ from the row stored only in the replay
   * mark, for a transition also in the key. A replay entry shows the frozen input and the results as they are, though
   * the scenario may have moved on. A replay mark is never shown that is not there.
   */
  ghost predicate TellsTrue(e: Audit, before: Rows, after: Rows) {
    && e.entityId in after
    && (e.after.replayVerified ==> after[e.entityId].replayVerified)
    && (e.action != CreateAction ==> e.before.Some? && e.entityId in before)
    && match e.action
       case CreateAction => e.before.None? && e.after == after[e.entityId]
       case SimulateAction =>
         && SameButResults(e.before.value, before[e.entityId])
         && (SameButMarks(e.before.value, before[e.entityId])
             <==> (e.before.value.key == "" <==> before[e.entityId].key == "") || NoResult(before[e.entityId]))
         && e.after == after[e.entityId].(replayVerified := e.after.replayVerified)
       case TransitionAction =>
         SameButMarks(e.before.value, before[e.entityId]) && SameButMarks(e.after, after[e.entityId])
       case ReplayAction =>
         && SameInput(e.before.value, before[e.entityId])
         && e.before.value.findings == before[e.entityId].findings
         && e.before.value.explanation == before[e.entityId].explanation
         && e.after == e.before.value.(replayVerified := true) && after[e.entityId].replayVerified
  }

  /** What the last step left in the log, if it left anything. */
  ghost predicate LastEntryTellsTrue(before: System, after: System) {
    |after.db.audits| > |before.db.audits|
    ==> TellsTrue(after.db.audits[|after.db.audits| - 1], before.db.rows, after.db.rows)
  }

  lemma CompletionEntryTellsTrue(env: Env, db: Db, p: Pending)
    requires p.SimulateReady? && PendingOk(env, db.rows, p) && RowOk(env, p.row.id, db.rows[p.row.id])
    requires CommitSimulate(db, p, true).1.None?
    ensures TellsTrue(CommitSimulate(db, p, true).0.audits[|db.audits|], db.rows, CommitSimulate(db, p, true).0.rows)
  {
  }

  lemma SimulateEntryTellsTrue(env: Env, s: System, req: nat, auditOk: bool)
    requires Inv(env, s)
    ensures LastEntryTellsTrue(s, Step(env, s, FinishSimulate(req, auditOk)))
  {
    if req in s.pending && s.pending[req].SimulateReady? && CommitSimulate(s.db, s.pending[req], auditOk).1.None? {
      CompletionEntryTellsTrue(env, s.db, s.pending[req]);
    }
  }

  lemma MoveEntryTellsTrue(env: Env, db: Db, p: Pending)
    requires p.TransitionReady? && PendingOk(env, db.rows, p) && RowOk(env, p.row.id, db.rows[p.row.id])
    requires CommitTransition(db, p, true).1.None?
    ensures
      TellsTrue(CommitTransition(db, p, true).0.audits[|db.audits|], db.rows, CommitTransition(db, p, true).0.rows)
  {
  }

  lemma TransitionEntryTellsTrue(env: Env, s: System, req: nat, auditOk: bool)
    requires Inv(env, s)
    ensures LastEntryTellsTrue(s, Step(env, s, FinishTransition(req, auditOk)))
  {
    if req in s.pending && s.pending[req].TransitionReady? && CommitTransition(s.db, s.pending[req], auditOk).1.None? {
      MoveEntryTellsTrue(env, s.db, s.pending[req]);
    }
  }

  lemma ReplayEntryTellsTrue(env: Env, s: System, req: nat, auditOk: bool)
    requires Inv(env, s)
    ensures LastEntryTellsTrue(s, Step(env, s, FinishReplay(req, auditOk)))
  {
    if req in s.pending && s.pending[req].ReplayReady? {
      var p := s.pending[req];
      assert PendingOk(env, s.db.rows, p) && RowOk(env, p.row.id, s.db.rows[p.row.id]);
    }
  }

  lemma CreateEntryTellsTrue(env: Env, s: System, id: Uint, snapshot: Snapshot, actor: Actor, auditOk: bool)
    ensures LastEntryTellsTrue(s, Step(env, s, Create(id, snapshot, actor, auditOk)))
  {
  }

  /** The entry any step of any run leaves tells the truth about the rows. */
  lemma {:induction false} EntriesTellTrue(env: Env, actions: seq<Action>, a: Action)
    ensures LastEntryTellsTrue(Run(env, actions), Step(env, Run(env, actions), a))
  {
    EveryRunKeepsInv(env, actions);
    var s := Run(env, actions);
    if !Writes(a) {
      OthersWriteNothing(env, s, a);
    } else {
      match a
      case Create(id, snapshot, actor, auditOk) => CreateEntryTellsTrue(env, s, id, snapshot, actor, auditOk);
      case FinishSimulate(req, auditOk) => SimulateEntryTellsTrue(env, s, req, auditOk);
      case FinishTransition(req, auditOk) => TransitionEntryTellsTrue(env, s, req, auditOk);
      case FinishReplay(req, auditOk) => ReplayEntryTellsTrue(env, s, req, auditOk);
    }
  }

  // ----- the log determines the table

  /** What an entry, whatever stale columns it holds, tells about the row it leaves. */
  function Recorded(rows: Rows, e: Audit): Rows {
    var id := e.entityId;
    if e.action == CreateAction then rows[id := e.after]
    else if id !in rows then rows
    else
      rows[id :=
        match e.action
        case CreateAction => e.after
        case SimulateAction =>
          rows[id].(state := e.after.state, findings := e.after.findings, explanation := e.after.explanation,
                    key := e.after.key)
        case TransitionAction =>
          rows[id].(state := e.after.state, verifiedBy := e.after.verifiedBy, rollbackRecord := e.after.rollbackRecord)
        case ReplayAction => rows[id].(replayVerified := e.after.replayVerified)]
  }

  function Rebuilt(audits: seq<Audit>): Rows {
    if audits == [] then map[] else Recorded(Rebuilt(audits[..|audits| - 1]), audits[|audits| - 1])
  }

  /** Nothing changed, or one entry was written and the table is as it says. */
  ghost predicate Logged(before: Db, after: Db) {
    || after == before
    || (&& |after.audits| == |before.audits| + 1 && after.audits[..|before.audits|] == before.audits
        && after.rows == Recorded(before.rows, after.audits[|before.audits|]))
  }

  lemma {:induction false} CompletionIsLogged(env: Env, db: Db, p: Pending, auditOk: bool)
    requires p.SimulateReady? && PendingOk(env, db.rows, p)
    ensures Logged(db, CommitSimulate(db, p, auditOk).0)
  {
  }

  lemma {:induction false} MoveIsLogged(env: Env, db: Db, p: Pending, auditOk: bool)
    requires p.TransitionReady? && PendingOk(env, db.rows, p) && RowOk(env, p.row.id, db.rows[p.row.id])
    ensures Logged(db, CommitTransition(db, p, auditOk).0)
  {
    if CommitTransition(db, p, auditOk).1.None? {
      var entry := Audit(p.row.id, TransitionAction, p.actor.userId, Some(p.row), Apply(p.row, MoveOf(p)));
      assert Apply(db.rows[p.row.id], MoveOf(p))
          == db.rows[p.row.id].(state := entry.after.state, verifiedBy := entry.after.verifiedBy,
                                rollbackRecord := entry.after.rollbackRecord);
    }
  }

  lemma {:induction false} MarkIsLogged(env: Env, db: Db, p: Pending, auditOk: bool)
    requires p.ReplayReady? && PendingOk(env, db.rows, p)
    ensures Logged(db, CommitReplay(db, p, auditOk).0)
  {
  }

  lemma {:induction false} StepIsLogged(env: Env, s: System, a: Action)
    requires Inv(env, s)
    ensures Logged(s.db, Step(env, s, a).db)
  {
    if !Writes(a) {
      OthersWriteNothing(env, s, a);
    } else if !a.Create? && a.req in s.pending {
      var p := s.pending[a.req];
      match p
      case SimulateReady(_, _, _, _) => CompletionIsLogged(env, s.db, p, a.auditOk);
      case TransitionReady(_, _, _, _) => MoveIsLogged(env, s.db, p, a.auditOk);
      case ReplayReady(_, _, _) => MarkIsLogged(env, s.db, p, a.auditOk);
      case _ =>
    }
  }

  /** In every run the table is what its log rebuilds. */
  lemma {:induction false} LogDeterminesTable(env: Env, actions: seq<Action>)
    ensures Run(env, actions).db.rows == Rebuilt(Run(env, actions).db.audits)
  {
    if actions != [] {
      var before := actions[..|actions| - 1];
      LogDeterminesTable(env, before);
      EveryRunKeepsInv(env, before);
      StepIsLogged(env, Run(env, before), actions[|actions| - 1]);
    }
  }

  // ----- which row a waiting request has read

  ghost predicate Reads(a: Action, req: nat) {
    (a.ReadForSimulate? || a.ReadForTransition? || a.ReadForReplay?) && a.req == req
  }

  /** The request has been under way since step `k`, its read. */
  ghost predicate WaitingSince(env: Env, actions: seq<Action>, req: nat, k: nat) {
    && k < |actions| && Reads(actions[k], req) && req !in Run(env, actions[..k]).pending
    && req in Run(env, actions).pending
    && forall j | k < j <= |actions| :: req in Run(env, actions[..j]).pending
  }

  lemma {:induction false} StepKeepsReadRow(env: Env, s: System, a: Action, req: nat)
    requires req in Step(env, s, a).pending
    ensures req in s.pending ==> Step(env, s, a).pending[req].row == s.pending[req].row
    ensures req !in s.pending ==>
              Reads(a, req) && a.id in s.db.rows && Step(env, s, a).pending[req].row == s.db.rows[a.id]
  {
  }

  /** It still holds the row as it was then. */
  lemma {:induction false} RowIsAsRead(env: Env, actions: seq<Action>, req: nat, k: nat)
    requires WaitingSince(env, actions, req, k)
    ensures
      var start, s := Run(env, actions[..k]), Run(env, actions);
      req in s.pending && actions[k].id in start.db.rows && s.pending[req].row == start.db.rows[actions[k].id]
  {
    var n := |actions|;
    assert actions[..n] == actions;
    StepKeepsReadRow(env, Run(env, actions[..n - 1]), actions[n - 1], req);
    if k < n - 1 {
      var before := actions[..n - 1];
      forall j | 0 <= j <= n - 1 ensures before[..j] == actions[..j] {
      }
      assert before[..n - 1] == before;
      RowIsAsRead(env, before, req, k);
    }
  }

  /** Every request under way has been so since some step. */
  lemma {:induction false} EveryRequestWasRead(env: Env, actions: seq<Action>, req: nat) returns (k: nat)
    requires req in Run(env, actions).pending
    ensures WaitingSince(env, actions, req, k)
  {
    var n := |actions|;
    var before := actions[..n - 1];
    assert actions[..n] == actions;
    StepKeepsReadRow(env, Run(env, before), actions[n - 1], req);
    if req in Run(env, before).pending {
      k := EveryRequestWasRead(env, before, req);
      forall j | 0 <= j <= n - 1 ensures before[..j] == actions[..j] {
      }
      forall j | k < j <= n ensures req in Run(env, actions[..j]).pending {
        if j < n { assert req in Run(env, before[..j]).pending; }
      }
    } else {
      k := n - 1;
    }
  }

  // ----- what the log tells about the columns that can be stale

  ghost predicate Replayed(audits: seq<Audit>, id: Uint) {
    exists i :: 0 <= i < |audits| && audits[i].entityId == id && audits[i].action == ReplayAction
  }

  lemma {:induction false} ReplayedExtends(before: seq<Audit>, after: seq<Audit>, id: Uint)
    requires |after| == |before| + 1 && after[..|before|] == before
    ensures Replayed(after, id)
       <==> Replayed(before, id) || (after[|before|].entityId == id && after[|before|].action == ReplayAction)
  {
    forall i | 0 <= i < |before| ensures after[i] == before[i] {
      assert after[i] == after[..|before|][i];
    }
  }

  /** How an operation changes the mark of its scenario, and that it leaves the others alone. */
  lemma {:induction false} MarkAfter(env: Env, rows: Rows, op: Op, id: Uint)
    requires Alone(env, rows, op).Some? && forall k | k in rows :: RowOk(env, k, rows[k])
    ensures
      var after := Alone(env, rows, op).value;
      if id != EntityOf(op) then (id in after <==> id in rows) && (id in rows ==> after[id] == rows[id])
      else
        && id in after && (id in rows <==> ActionOf(op) != CreateAction)
        && (after[id].replayVerified <==> ActionOf(op) == ReplayAction || (id in rows && rows[id].replayVerified))
  {
  }

  /** A scenario carries the replay mark exactly when the log has a replay of it. */
  lemma {:induction false} MarkIsReplayed(env: Env, actions: seq<Action>, id: Uint)
    ensures
      var db := Run(env, actions).db;
      Replayed(db.audits, id) <==> id in db.rows && db.rows[id].replayVerified
  {
    if actions != [] {
      var before := actions[..|actions| - 1];
      MarkIsReplayed(env, before, id);
      EveryRunKeepsInv(env, before);
      var s, a := Run(env, before), actions[|actions| - 1];
      var op := StepIsSerial(env, s, a);
      if op.Some? {
        ReplayedExtends(s.db.audits, Step(env, s, a).db.audits, id);
        MarkAfter(env, s.db.rows, op.value, id);
      }
    }
  }

  /** Key and mark of every row, read off the log. */
  lemma {:induction false} LoggedColumns(env: Env, actions: seq<Action>, id: Uint)
    requires id in Run(env, actions).db.rows
    ensures
      var s := Run(env, actions);
      && RowOk(env, id, s.db.rows[id])
      && s.db.rows[id].key == LastKey(TrailIn(s, id))
      && (s.db.rows[id].replayVerified <==> Replayed(s.db.audits, id))
  {
    EveryRunKeepsInv(env, actions);
    MarkIsReplayed(env, actions, id);
    assert TrailOk(TrailIn(Run(env, actions), id), Run(env, actions).db.rows, id);
  }

  // ----- when an entry is right

  /** No simulation under a different key was completed in between; one repeated under the same key does not matter. */
  ghost predicate KeyKept(start: System, s: System, id: Uint) {
    LastKey(TrailIn(start, id)) == LastKey(TrailIn(s, id))
  }

  /** The first replay of the scenario did not fall in between. */
  ghost predicate MarkKept(start: System, s: System, id: Uint) {
    Replayed(start.db.audits, id) <==> Replayed(s.db.audits, id)
  }

  ghost predicate EverSimulated(s: System, id: Uint) {
    LastKey(TrailIn(s, id)) != ""
  }

  /** The row as the request read it and as it finds it, with what the log tells about both. */
  lemma {:induction false} ReadAndFound(env: Env, actions: seq<Action>, req: nat, k: nat)
    requires WaitingSince(env, actions, req, k)
    ensures
      var start, s := Run(env, actions[..k]), Run(env, actions);
      var id := actions[k].id;
      && req in s.pending && PendingOk(env, s.db.rows, s.pending[req])
      && id in start.db.rows && id in s.db.rows && s.pending[req].row == start.db.rows[id] && start.db.rows[id].id == id
      && RowOk(env, id, start.db.rows[id]) && RowOk(env, id, s.db.rows[id])
      && SameInput(start.db.rows[id], s.db.rows[id])
      && (start.db.rows[id].key == s.db.rows[id].key <==> KeyKept(start, s, id))
      && (start.db.rows[id].key != "" <==> EverSimulated(start, id))
      && (s.db.rows[id].key != "" <==> EverSimulated(s, id))
      && (start.db.rows[id].replayVerified == s.db.rows[id].replayVerified <==> MarkKept(start, s, id))
  {
    RowIsAsRead(env, actions, req, k);
    EveryRunKeepsInv(env, actions);
    LoggedColumns(env, actions[..k], actions[k].id);
    assert PendingOk(env, Run(env, actions).db.rows, Run(env, actions).pending[req]);
    LoggedColumns(env, actions, actions[k].id);
  }

  /**
   * A transition's entry holds the row as it was read. It shows the right key exactly when no simulation under another
   * key was completed in between, the right mark exactly when the first replay did not fall in between, and is right
   * altogether, before and after, exactly when both hold.
   */
  lemma {:induction false} TransitionEntryIsRightIff(env: Env, actions: seq<Action>, req: nat, k: nat, auditOk: bool)
    requires WaitingSince(env, actions, req, k) && Run(env, actions).pending[req].TransitionReady?
    requires CommitTransition(Run(env, actions).db, Run(env, actions).pending[req], auditOk).1.None?
    ensures
      var start, s, id := Run(env, actions[..k]), Run(env, actions), actions[k].id;
      var after := Step(env, s, FinishTransition(req, auditOk)).db;
      && |after.audits| == |s.db.audits| + 1 && id in start.db.rows && id in s.db.rows && id in after.rows
      && var e := after.audits[|s.db.audits|];
      && e.entityId == id && e.before == Some(start.db.rows[id])
      && (e.before == Some(s.db.rows[id]) <==> KeyKept(start, s, id) && MarkKept(start, s, id))
      && (e.after == after.rows[id] <==> KeyKept(start, s, id) && MarkKept(start, s, id))
      && (e.after.key == after.rows[id].key <==> KeyKept(start, s, id))
      && (e.after.replayVerified == after.rows[id].replayVerified <==> MarkKept(start, s, id))
  {
    ReadAndFound(env, actions, req, k);
    MoveEntryTellsTrue(env, Run(env, actions).db, Run(env, actions).pending[req]);
  }

  /**
   * A simulate entry is right about the row it leaves exactly when the first replay did not fall in between. About the
   * row it replaced it is right exactly as a transition's is; its results are right exactly when the scenario had been
   * simulated both times or neither, or the simulation found nothing to tell.
   */
  lemma {:induction false} SimulateEntryIsRightIff(env: Env, actions: seq<Action>, req: nat, k: nat, auditOk: bool)
    requires WaitingSince(env, actions, req, k) && Run(env, actions).pending[req].SimulateReady?
    requires CommitSimulate(Run(env, actions).db, Run(env, actions).pending[req], auditOk).1.None?
    ensures
      var start, s, id := Run(env, actions[..k]), Run(env, actions), actions[k].id;
      var after := Step(env, s, FinishSimulate(req, auditOk)).db;
      && |after.audits| == |s.db.audits| + 1 && id in start.db.rows && id in s.db.rows && id in after.rows
      && var e := after.audits[|s.db.audits|];
      && e.entityId == id && e.before == Some(start.db.rows[id])
      && (e.before == Some(s.db.rows[id]) <==> KeyKept(start, s, id) && MarkKept(start, s, id))
      && (e.before.value.key == s.db.rows[id].key <==> KeyKept(start, s, id))
      && (e.before.value.replayVerified == s.db.rows[id].replayVerified <==> MarkKept(start, s, id))
      && (SameButMarks(e.before.value, s.db.rows[id])
          <==> (EverSimulated(start, id) <==> EverSimulated(s, id)) || NoResult(s.db.rows[id]))
      && (e.after == after.rows[id] <==> MarkKept(start, s, id))
  {
    ReadAndFound(env, actions, req, k);
    CompletionEntryTellsTrue(env, Run(env, actions).db, Run(env, actions).pending[req]);
  }

  /** A verified or rolled back scenario keeps its outcome to the end of every longer run. */
  lemma {:induction false} FinalOutcomeStays(env: Env, actions: seq<Action>, k: nat, id: Uint)
    requires k <= |actions| && id in Run(env, actions[..k]).db.rows
    requires
      var state := Run(env, actions[..k]).db.rows[id].state;
      state == Verified || state == Rollback
    ensures id in Run(env, actions).db.rows
    ensures SameOutcome(Run(env, actions[..k]).db.rows[id], Run(env, actions).db.rows[id])
  {
    var n := |actions|;
    if k == n {
      assert actions[..n] == actions;
    } else {
      var before := actions[..n - 1];
      assert before[..k] == actions[..k];
      FinalOutcomeStays(env, before, k, id);
      FinalStatesStay(env, before, actions[n - 1], id);
    }
  }

  /**
   * A replay's entry holds the row as it was read, with the mark. Its state can be wrong, since the update does not
   * depend on it; its reviewer exactly if the scenario was verified in between, its rollback record exactly if it was
   * rolled back in between with a comment. The entry is right about the row it leaves exactly when the state is the
   * same and no simulation under another key was completed in between.
   */
  lemma {:induction false} ReplayEntryIsRightIff(env: Env, actions: seq<Action>, req: nat, k: nat)
    requires WaitingSince(env, actions, req, k) && Run(env, actions).pending[req].ReplayReady?
    ensures
      var start, s, id := Run(env, actions[..k]), Run(env, actions), actions[k].id;
      var after := Step(env, s, FinishReplay(req, true)).db;
      && |after.audits| == |s.db.audits| + 1 && id in start.db.rows && id in s.db.rows && id in after.rows
      && var e, was, now := after.audits[|s.db.audits|], start.db.rows[id], s.db.rows[id];
      && e.entityId == id && e.before == Some(was)
      && (e.after.key == after.rows[id].key <==> KeyKept(start, s, id))
      && (e.after.state == after.rows[id].state <==> was.state == now.state)
      && (e.after.verifiedBy != after.rows[id].verifiedBy <==> was.state != Verified && now.state == Verified)
      && (e.after.rollbackRecord != after.rows[id].rollbackRecord
          <==> was.state != Rollback && now.state == Rollback && now.rollbackRecord != "")
      && (e.after == after.rows[id] <==> was.state == now.state && KeyKept(start, s, id))
  {
    ReadAndFound(env, actions, req, k);
    var id := actions[k].id;
    var was := Run(env, actions[..k]).db.rows[id];
    if was.state == Verified || was.state == Rollback {
      FinalOutcomeStays(env, actions, k, id);
    }
    ReplayEntryHolds(env, Run(env, actions).db, Run(env, actions).pending[req]);
  }

  lemma ReplayEntryHolds(env: Env, db: Db, p: Pending)
    requires p.ReplayReady? && PendingOk(env, db.rows, p) && RowOk(env, p.row.id, db.rows[p.row.id])
    ensures
      var after := CommitReplay(db, p, true).0;
      && after.rows == db.rows[p.row.id := db.rows[p.row.id].(replayVerified := true)]
      && after.audits
         == db.audits + [Audit(p.row.id, ReplayAction, p.actor.userId, Some(p.row), p.row.(replayVerified := true))]
      && p.row.findings == db.rows[p.row.id].findings && p.row.explanation == db.rows[p.row.id].explanation
  {
    var u := NO_UPDATES.(replayVerified := Some(true));
    assert Apply(p.row, u) == p.row.(replayVerified := true);
    assert Apply(db.rows[p.row.id], u) == db.rows[p.row.id].(replayVerified := true);
  }
}
