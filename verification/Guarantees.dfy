/** What holds of every run of the scenario service, however its requests interleave. */
module Guarantees {
  import opened Prelude
  import opened Actors
  import opened Snapshots
  import opened Simulation
  import opened Scenarios
  import opened Interleaving
  import Reports

  // ----- a serial account of every run

  /** Requests served one at a time, and the two effects that only interleaving can have. */
  datatype Op =
    | CreateOp(id: Uint, snapshot: Snapshot, actor: Actor)
    | SimulateOp(id: Uint, key: string, actor: Actor)
    | TransitionOp(id: Uint, to: ScenarioState, comment: string, actor: Actor)
    | ReplayOp(id: Uint, actor: Actor)
    | MarkDraftOp(id: Uint, actor: Actor)
    | RepeatOp(id: Uint, actor: Actor)

  ghost function RowsIfDone(outcome: (Db, Option<ScenarioError>)): Option<Rows> {
    if outcome.1.None? then Some(outcome.0.rows) else None
  }

  /** The request's read, decision and commit with nothing in between; None if it is refused. */
  ghost function Alone(env: Env, rows: Rows, op: Op): Option<Rows> {
    match op
    case CreateOp(id, snapshot, actor) =>
      if env.valid(snapshot) && id !in rows && id > 0
      then RowsIfDone(CreateStep(Db(rows, []), id, snapshot, env.hash(snapshot), actor, true)) else None
    case SimulateOp(id, key, actor) =>
      (match LoadSimulate(rows, id, key, actor)
       case Err(_) => None
       case Ok(p) =>
         match LookupSimulate(env, rows, p)
         case Proceed(ready) =>
           if ready.SimulateReady? then RowsIfDone(CommitSimulate(Db(rows, []), ready, true)) else None
         case _ => None)
    case TransitionOp(id, to, comment, actor) =>
      (match LoadTransition(rows, id, to, comment, actor)
       case Err(_) => None
       case Ok(p) => RowsIfDone(CommitTransition(Db(rows, []), p, true)))
    case ReplayOp(id, actor) =>
      (match LoadReplay(env, rows, id, actor)
       case Err(_) => None
       case Ok(p) => RowsIfDone(CommitReplay(Db(rows, []), p, true)))
    case MarkDraftOp(id, _) =>
      if id in rows && rows[id].state == Draft && rows[id].key != ""
      then Some(rows[id := rows[id].(replayVerified := true)]) else None
    case RepeatOp(id, _) =>
      if id in rows && rows[id].state == Draft && rows[id].key != ""
      then Some(rows[id := rows[id].(state := Simulated)]) else None
  }

  ghost function EntityOf(op: Op): Uint { op.id }

  ghost function ActionOf(op: Op): AuditAction {
    match op
    case CreateOp(_, _, _) => CreateAction
    case SimulateOp(_, _, _) => SimulateAction
    case TransitionOp(_, _, _, _) => TransitionAction
    case ReplayOp(_, _) => ReplayAction
    case MarkDraftOp(_, _) => ReplayAction
    case RepeatOp(_, _) => SimulateAction
  }

  /** Staff may do anything with a scenario, others only with those they created. */
  ghost predicate Permits(actor: Actor, createdBy: Uint) {
    actor.role in {"admin", "pki_operator"} || actor.userId == createdBy
  }

  /**
   * The entry is that of the operation: who did what to which scenario, with the key, target, comment or input, and
   * with the right to do it; verifying is for anyone but the creator.
   */
  ghost predicate Records(op: Op, e: Audit) {
    && e.entityId == EntityOf(op) && e.action == ActionOf(op) && e.actorId == op.actor.userId
    && (if op.CreateOp? then e.after.createdBy == op.actor.userId
        else if op.TransitionOp? && op.to == Verified then e.after.createdBy != op.actor.userId
        else Permits(op.actor, e.after.createdBy))
    && match op
       case CreateOp(_, snapshot, _) => e.after.snapshot == snapshot && e.after.state == Draft
       case SimulateOp(_, key, _) => e.after.key == key && e.after.state == Simulated
       case TransitionOp(_, to, comment, actor) =>
         && e.after.state == to
         && (to == Verified ==> e.after.verifiedBy == Some(actor.userId))
         && (to == Rollback ==> e.after.rollbackRecord == comment)
       case ReplayOp(_, _) => e.after.replayVerified
       case MarkDraftOp(_, _) => e.after.replayVerified
       case RepeatOp(_, _) => e.after.state == Simulated
  }

  /** The step changes nothing, or it is `op` served alone and leaves exactly one audit entry, which records it. */
  ghost predicate AccountsFor(env: Env, before: Db, after: Db, op: Option<Op>) {
    if op.None? then after == before
    else
      && Alone(env, before.rows, op.value) == Some(after.rows)
      && |after.audits| == |before.audits| + 1 && after.audits[..|before.audits|] == before.audits
      && Records(op.value, after.audits[|before.audits|])
  }

  lemma {:induction false} SimulateIsSerial(env: Env, s: System, req: nat, auditOk: bool) returns (op: Option<Op>)
    requires Inv(env, s)
    ensures AccountsFor(env, s.db, Step(env, s, FinishSimulate(req, auditOk)).db, op)
    ensures op.Some? ==>
              && req in s.pending && s.pending[req].SimulateReady? && s.pending[req].row.id in s.db.rows
              && (op.value.RepeatOp? <==> s.db.rows[s.pending[req].row.id].key == s.pending[req].key)
  {
    if !(req in s.pending && s.pending[req].SimulateReady?) {
      return None;
    }
    var p := s.pending[req];
    if CommitSimulate(s.db, p, auditOk).1.Some? {
      return None;
    }
    var done := CompletionOp(env, s, p);
    op := Some(done);
  }

  /** The account of one completion: an ordinary one, or the repetition of the latest. */
  lemma {:induction false} CompletionOp(env: Env, s: System, p: Pending) returns (op: Op)
    requires Inv(env, s) && p.SimulateReady? && PendingOk(env, s.db.rows, p) && CommitSimulate(s.db, p, true).1.None?
    ensures AccountsFor(env, s.db, CommitSimulate(s.db, p, true).0, Some(op))
    ensures op.RepeatOp? <==> s.db.rows[p.row.id].key == p.key
  {
    var id, rows := p.row.id, s.db.rows;
    assert RowOk(env, id, rows[id]);
    if rows[id].key == p.key {
      op := RepeatOp(id, p.actor);
      assert Apply(rows[id], CompletionOf(p)) == rows[id].(state := Simulated);
    } else {
      op := SimulateOp(id, p.key, p.actor);
      var ready := SimulateReady(rows[id], p.key, p.actor, env.result(rows[id].snapshot));
      assert LookupSimulate(env, rows, SimulateLoaded(rows[id], p.key, p.actor)) == Proceed(ready);
      assert CompletionOf(ready) == CompletionOf(p);
    }
  }

  /** A move by a request that read a stale row is the move it would make on the row as it is now. */
  lemma {:induction false} MoveIsSerial(env: Env, db: Db, p: Pending)
    requires p.TransitionReady? && PendingOk(env, db.rows, p) && CommitTransition(db, p, true).1.None?
    ensures AccountsFor(env, db, CommitTransition(db, p, true).0,
                        Some(TransitionOp(p.row.id, p.to, p.comment, p.actor)))
  {
    var current := TransitionReady(db.rows[p.row.id], p.to, p.comment, p.actor);
    assert MoveOf(current) == MoveOf(p);
    assert LoadTransition(db.rows, p.row.id, p.to, p.comment, p.actor) == Ok(current);
  }

  lemma {:induction false} TransitionIsSerial(env: Env, s: System, req: nat, auditOk: bool) returns (op: Option<Op>)
    requires Inv(env, s)
    ensures AccountsFor(env, s.db, Step(env, s, FinishTransition(req, auditOk)).db, op)
  {
    if !(req in s.pending && s.pending[req].TransitionReady?) {
      return None;
    }
    var p := s.pending[req];
    if CommitTransition(s.db, p, auditOk).1.Some? {
      return None;
    }
    MoveIsSerial(env, s.db, p);
    op := Some(TransitionOp(p.row.id, p.to, p.comment, p.actor));
  }

  /** A replay mark is that of a replay now, unless the scenario is back in draft. */
  lemma {:induction false} MarkIsSerial(env: Env, db: Db, p: Pending) returns (op: Op)
    requires p.ReplayReady? && PendingOk(env, db.rows, p) && RowOk(env, p.row.id, db.rows[p.row.id])
    ensures AccountsFor(env, db, CommitReplay(db, p, true).0, Some(op))
    ensures op.MarkDraftOp? <==> db.rows[p.row.id].state == Draft
  {
    var id, rows := p.row.id, db.rows;
    assert Apply(rows[id], NO_UPDATES.(replayVerified := Some(true))) == rows[id].(replayVerified := true);
    if rows[id].state == Draft {
      assert p.row.key != "" && rows[id].key != "";
      op := MarkDraftOp(id, p.actor);
    } else {
      assert LoadReplay(env, rows, id, p.actor) == Ok(ReplayReady(rows[id], p.actor, true));
      op := ReplayOp(id, p.actor);
    }
  }

  lemma {:induction false} ReplayIsSerial(env: Env, s: System, req: nat, auditOk: bool) returns (op: Option<Op>)
    requires Inv(env, s)
    ensures AccountsFor(env, s.db, Step(env, s, FinishReplay(req, auditOk)).db, op)
    ensures op.Some? ==>
              && req in s.pending && s.pending[req].ReplayReady? && s.pending[req].row.id in s.db.rows
              && (op.value.MarkDraftOp? <==> s.db.rows[s.pending[req].row.id].state == Draft)
  {
    if !(req in s.pending && s.pending[req].ReplayReady? && auditOk) {
      return None;
    }
    var done := MarkIsSerial(env, s.db, s.pending[req]);
    op := Some(done);
  }

  lemma CreateIsSerial(env: Env, s: System, id: Uint, snapshot: Snapshot, actor: Actor, auditOk: bool)
    returns (op: Option<Op>)
    ensures AccountsFor(env, s.db, Step(env, s, Create(id, snapshot, actor, auditOk)).db, op)
  {
    if env.valid(snapshot) && id !in s.db.rows && id > 0
       && CreateStep(s.db, id, snapshot, env.hash(snapshot), actor, auditOk).1.None?
    {
      return Some(CreateOp(id, snapshot, actor));
    }
    return None;
  }

  ghost predicate Writes(a: Action) {
    a.Create? || a.FinishSimulate? || a.FinishTransition? || a.FinishReplay?
  }

  lemma OthersWriteNothing(env: Env, s: System, a: Action)
    requires !Writes(a)
    ensures Step(env, s, a).db == s.db
  {
  }

  /** Every step is a request served alone, or one of the two anomalies, with one audit entry; or it changes nothing. */
  lemma {:induction false} StepIsSerial(env: Env, s: System, a: Action) returns (op: Option<Op>)
    requires Inv(env, s)
    ensures AccountsFor(env, s.db, Step(env, s, a).db, op)
  {
    if !Writes(a) {
      OthersWriteNothing(env, s, a);
      return None;
    }
    match a
    case Create(id, snapshot, actor, auditOk) => op := CreateIsSerial(env, s, id, snapshot, actor, auditOk);
    case FinishSimulate(req, auditOk) => op := SimulateIsSerial(env, s, req, auditOk);
    case FinishTransition(req, auditOk) => op := TransitionIsSerial(env, s, req, auditOk);
    case FinishReplay(req, auditOk) => op := ReplayIsSerial(env, s, req, auditOk);
  }

  ghost function AloneAll(env: Env, ops: seq<Op>): Option<Rows> {
    if ops == [] then Some(map[])
    else
      match AloneAll(env, ops[..|ops| - 1])
      case None => None
      case Some(rows) => Alone(env, rows, ops[|ops| - 1])
  }

  /** The table of any run is that of serving the audited requests one at a time, in commit order. */
  lemma {:induction false} RunIsSerial(env: Env, actions: seq<Action>) returns (ops: seq<Op>)
    ensures
      var db := Run(env, actions).db;
      && AloneAll(env, ops) == Some(db.rows)
      && |ops| == |db.audits|
      && forall i | 0 <= i < |ops| :: Records(ops[i], db.audits[i])
  {
    if actions == [] {
      return [];
    }
    var before := actions[..|actions| - 1];
    var earlier := RunIsSerial(env, before);
    EveryRunKeepsInv(env, before);
    var op := StepIsSerial(env, Run(env, before), actions[|actions| - 1]);
    if op.None? {
      return earlier;
    }
    ops := earlier + [op.value];
    assert ops[..|ops| - 1] == earlier;
    var db, db' := Run(env, before).db, Run(env, actions).db;
    forall i | 0 <= i < |ops| ensures Records(ops[i], db'.audits[i]) {
      if i < |earlier| {
        assert db'.audits[i] == db'.audits[..|db.audits|][i];
      }
    }
  }

  // ----- the walk of each scenario

  ghost function TrailIn(s: System, id: Uint): seq<Audit> {
    Trail(s.db.audits, id)
  }

  /** Per scenario the entries are a contiguous legal walk from draft to the stored state. */
  lemma {:induction false} AuditTrailIsContiguous(env: Env, actions: seq<Action>, id: Uint)
    ensures
      var s := Run(env, actions);
      var trail := TrailIn(s, id);
      && (id in s.db.rows <==> trail != [])
      && (trail != [] ==>
            && trail[0].action == CreateAction && trail[0].before.None? && trail[0].after.state == Draft
            && trail[|trail| - 1].after.state == s.db.rows[id].state)
      && forall i | 1 <= i < |trail| :: Follows(trail[i - 1], trail[i]) && SameInput(trail[0].after, trail[i].after)
  {
    EveryRunKeepsInv(env, actions);
    var s := Run(env, actions);
    assert TrailOk(TrailIn(s, id), s.db.rows, id);
    var trail := TrailIn(s, id);
    forall i | 1 <= i < |trail|
      ensures Follows(trail[i - 1], trail[i]) && SameInput(trail[0].after, trail[i].after)
    {
      TrailKeepsInput(trail, i);
    }
  }

  lemma {:induction false} TrailKeepsInput(trail: seq<Audit>, i: nat)
    requires i < |trail| && forall j | 1 <= j < |trail| :: Follows(trail[j - 1], trail[j])
    ensures SameInput(trail[0].after, trail[i].after)
  {
    if i > 0 {
      TrailKeepsInput(trail, i - 1);
      assert Follows(trail[i - 1], trail[i]);
    }
  }

  /** A verified scenario came straight through simulated, ready and executing, and someone else signed it off. */
  lemma {:induction false} VerifiedMeansReviewed(env: Env, actions: seq<Action>, id: Uint)
    requires id in Run(env, actions).db.rows
    ensures
      var row := Run(env, actions).db.rows[id];
      var trail := TrailIn(Run(env, actions), id);
      var n := |trail|;
      && (row.verifiedBy.Some? <==> row.state == Verified)
      && (row.rollbackRecord != "" ==> row.state == Rollback)
      && (row.state == Verified ==>
            && n >= 5
            && trail[n - 5].after.state == Draft && trail[n - 4].after.state == Simulated
            && trail[n - 3].after.state == Ready && trail[n - 2].after.state == Executing
            && row.verifiedBy == Some(trail[n - 1].actorId)
            && trail[0].actorId == row.createdBy && trail[n - 1].actorId != row.createdBy)
  {
    EveryRunKeepsInv(env, actions);
    var s := Run(env, actions);
    var trail := TrailIn(s, id);
    assert TrailOk(trail, s.db.rows, id) && RowOk(env, id, s.db.rows[id]);
    if s.db.rows[id].state == Verified {
      WalkToVerified(trail);
    }
  }

  lemma {:induction false} WalkToVerified(trail: seq<Audit>)
    requires trail != [] && trail[|trail| - 1].after.state == Verified && trail[0].after.state == Draft
    requires forall i | 1 <= i < |trail| :: Follows(trail[i - 1], trail[i])
    ensures
      var n := |trail|;
      && n >= 5
      && trail[n - 5].after.state == Draft && trail[n - 4].after.state == Simulated
      && trail[n - 3].after.state == Ready && trail[n - 2].after.state == Executing
  {
    var n := |trail|;
    assert n > 1 && Follows(trail[n - 2], trail[n - 1]);
    assert n > 2 && Follows(trail[n - 3], trail[n - 2]);
    assert n > 3 && Follows(trail[n - 4], trail[n - 3]);
    assert n > 4 && Follows(trail[n - 5], trail[n - 4]);
  }

  ghost predicate SameOutcome(a: Scenario, b: Scenario) {
    a.state == b.state && a.verifiedBy == b.verifiedBy && a.findings == b.findings && a.explanation == b.explanation
    && a.key == b.key && a.rollbackRecord == b.rollbackRecord
  }

  lemma AloneKeepsFinal(env: Env, rows: Rows, op: Op, id: Uint)
    requires id in rows && (rows[id].state == Verified || rows[id].state == Rollback)
    requires Alone(env, rows, op).Some?
    ensures id in Alone(env, rows, op).value && SameOutcome(rows[id], Alone(env, rows, op).value[id])
  {
  }

  /** Verified and rollback are final, whatever requests are still under way. */
  lemma {:induction false} FinalStatesStay(env: Env, actions: seq<Action>, a: Action, id: Uint)
    requires id in Run(env, actions).db.rows
    requires Run(env, actions).db.rows[id].state == Verified || Run(env, actions).db.rows[id].state == Rollback
    ensures
      var after := Step(env, Run(env, actions), a).db.rows;
      id in after && SameOutcome(Run(env, actions).db.rows[id], after[id])
  {
    EveryRunKeepsInv(env, actions);
    var op := StepIsSerial(env, Run(env, actions), a);
    if op.Some? {
      AloneKeepsFinal(env, Run(env, actions).db.rows, op.value, id);
    }
  }

  ghost function Completions(trail: seq<Audit>): nat {
    if trail == [] then 0
    else Completions(trail[..|trail| - 1]) + if trail[|trail| - 1].action == SimulateAction then 1 else 0
  }

  ghost function DraftEntries(trail: seq<Audit>): nat {
    if trail == [] then 0
    else DraftEntries(trail[..|trail| - 1]) + if trail[|trail| - 1].after.state == Draft then 1 else 0
  }

  lemma {:induction false} WalkBalances(trail: seq<Audit>)
    requires trail != [] && trail[0].action == CreateAction && trail[0].after.state == Draft
    requires forall i | 1 <= i < |trail| :: Follows(trail[i - 1], trail[i])
    ensures Completions(trail) + (if trail[|trail| - 1].after.state == Draft then 1 else 0) == DraftEntries(trail)
  {
    var n := |trail|;
    var before := trail[..n - 1];
    if n > 1 {
      WalkBalances(before);
      assert Follows(trail[n - 2], trail[n - 1]);
    } else {
      assert before == [];
    }
  }

  /** Each draft period ends in exactly one completed simulation; only the current one is still open. */
  lemma {:induction false} OneCompletionPerDraftPeriod(env: Env, actions: seq<Action>, id: Uint)
    requires id in Run(env, actions).db.rows
    ensures
      var s := Run(env, actions);
      Completions(TrailIn(s, id)) + (if s.db.rows[id].state == Draft then 1 else 0) == DraftEntries(TrailIn(s, id))
  {
    EveryRunKeepsInv(env, actions);
    var s := Run(env, actions);
    assert TrailOk(TrailIn(s, id), s.db.rows, id);
    WalkBalances(TrailIn(s, id));
  }

  // ----- frozen results

  /** A simulated scenario's stored result is the simulator's, and says exactly which services fail when. */
  lemma {:induction false} StoredResultsAreTrue(hash: Snapshot -> string, actions: seq<Action>, id: Uint)
    requires id in Run(Real(hash), actions).db.rows
    ensures
      var row := Run(Real(hash), actions).db.rows[id];
      && ValidSnapshot(row.snapshot) && row.inputHash == hash(row.snapshot)
      && (row.state != Draft ==> row.key != "")
      && (row.key == "" ==> NoResult(row))
      && (row.key != "" ==>
            && SameResult(row, SimulationOf(row.snapshot))
            && forall service, at :: Reports.Reported(row.findings, service, at)
                 <==> at in Points(row.snapshot.config) && Reports.ActiveService(row.snapshot, service)
                      && !Reports.TrulyReachable(row.snapshot, service, at))
  {
    EveryRunKeepsInv(Real(hash), actions);
    var row := Run(Real(hash), actions).db.rows[id];
    assert RowOk(Real(hash), id, row);
    forall service, at ensures Reports.Reported(SimulationOf(row.snapshot).findings, service, at)
                 <==> at in Points(row.snapshot.config) && Reports.ActiveService(row.snapshot, service)
                      && !Reports.TrulyReachable(row.snapshot, service, at) {
      Reports.ReportedIffUnreachable(row.snapshot, service, at);
    }
  }

  lemma AloneKeepsInput(env: Env, rows: Rows, op: Op, id: Uint)
    requires id in rows && Alone(env, rows, op).Some?
    ensures id in Alone(env, rows, op).value && SameInput(rows[id], Alone(env, rows, op).value[id])
  {
  }

  /** No step removes a scenario or changes what it froze. */
  lemma {:induction false} FrozenInputStays(env: Env, actions: seq<Action>, a: Action, id: Uint)
    requires id in Run(env, actions).db.rows
    ensures
      var s := Run(env, actions);
      id in Step(env, s, a).db.rows && SameInput(s.db.rows[id], Step(env, s, a).db.rows[id])
  {
    EveryRunKeepsInv(env, actions);
    var op := StepIsSerial(env, Run(env, actions), a);
    if op.Some? {
      AloneKeepsInput(env, Run(env, actions).db.rows, op.value, id);
    }
  }

  lemma ReplayOfSoundRow(env: Env, rows: Rows, id: Uint, actor: Actor)
    requires id in rows && RowOk(env, id, rows[id])
    ensures
      var r := LoadReplay(env, rows, id, actor);
      && (r.Ok? <==> MayManage(actor, rows[id]) && rows[id].state != Draft)
      && (r.Ok? ==> r.value.passed && r.value.row == rows[id])
  {
  }

  /** Replaying a simulated scenario always passes and marks it so; the simulator never rejects what was frozen. */
  lemma {:induction false} ReplayAlwaysPasses(env: Env, actions: seq<Action>, id: Uint, actor: Actor, key: string)
    requires id in Run(env, actions).db.rows
    ensures
      var db := Run(env, actions).db;
      var r := LoadReplay(env, db.rows, id, actor);
      && (r.Ok? <==> MayManage(actor, db.rows[id]) && db.rows[id].state != Draft)
      && (r.Ok? ==>
            && CommitReplay(db, r.value, true).1.None?
            && CommitReplay(db, r.value, true).0.rows[id].replayVerified)
      && LookupSimulate(env, db.rows, SimulateLoaded(db.rows[id], key, actor)) != Refused(InvalidRequest)
  {
    EveryRunKeepsInv(env, actions);
    var db := Run(env, actions).db;
    assert RowOk(env, id, db.rows[id]);
    ReplayOfSoundRow(env, db.rows, id, actor);
  }

  // ----- idempotency

  /** No two scenarios share a key or a frozen input; in particular at most one has never been simulated. */
  lemma {:induction false} IndexesHold(env: Env, actions: seq<Action>, a: Uint, b: Uint)
    requires a in Run(env, actions).db.rows && b in Run(env, actions).db.rows && a != b
    ensures Run(env, actions).db.rows[a].key != Run(env, actions).db.rows[b].key
    ensures Run(env, actions).db.rows[a].snapshot != Run(env, actions).db.rows[b].snapshot
  {
    EveryRunKeepsInv(env, actions);
    var rows := Run(env, actions).db.rows;
    assert RowOk(env, a, rows[a]) && RowOk(env, b, rows[b]);
  }

  /** Creation goes through exactly when audited, the input is new and every existing scenario has been simulated. */
  lemma {:induction false} CreateGoesThroughIff(env: Env, actions: seq<Action>, id: Uint, snapshot: Snapshot,
                                                actor: Actor, auditOk: bool)
    requires env.valid(snapshot) && id > 0 && id !in Run(env, actions).db.rows
    ensures
      var s := Run(env, actions);
      Step(env, s, Create(id, snapshot, actor, auditOk)).db != s.db
      <==> auditOk && forall k | k in s.db.rows ::
             && s.db.rows[k].key != ""
             && (s.db.rows[k].inputHash != env.hash(snapshot)
                 || s.db.rows[k].snapshot.config.simulationTime != snapshot.config.simulationTime)
  {
    var s := Run(env, actions);
    if auditOk && forall k | k in s.db.rows ::
         s.db.rows[k].key != ""
         && (s.db.rows[k].inputHash != env.hash(snapshot)
             || s.db.rows[k].snapshot.config.simulationTime != snapshot.config.simulationTime)
    {
      assert id in Step(env, s, Create(id, snapshot, actor, auditOk)).db.rows;
    }
  }

  ghost predicate KeyUnused(rows: Rows, key: string) {
    forall id | id in rows :: rows[id].key != key
  }

  function Completed(env: Env, row: Scenario, key: string): Scenario {
    row.(state := Simulated, findings := env.result(row.snapshot).findings,
         explanation := env.result(row.snapshot).explanation, key := key)
  }

  /**
   * What a call is told that has read its row, however many requests were served since: the stored row exactly when
   * its key is that of the scenario's latest completed simulation, a conflict exactly when the key belongs to another
   * scenario. Otherwise the row it read decides, and a completion at once succeeds exactly if the scenario still is,
   * or is again, a draft.
   */
  lemma {:induction false} KeyLookupIsExact(env: Env, actions: seq<Action>, req: nat)
    requires req in Run(env, actions).pending && Run(env, actions).pending[req].SimulateLoaded?
    ensures
      var s := Run(env, actions);
      var p := s.pending[req];
      var id, reply := p.row.id, LookupSimulate(env, s.db.rows, p);
      && id in s.db.rows
      && (reply.Reused? <==> LastKey(TrailIn(s, id)) == p.key)
      && (reply.Reused? ==> reply.row == s.db.rows[id] && SameResult(reply.row, env.result(reply.row.snapshot)))
      && (reply == Refused(KeyBoundElsewhere) <==> KeyTaken(s.db.rows, p.key, id))
      && (reply == Refused(NotDraft) <==> KeyUnused(s.db.rows, p.key) && p.row.state != Draft)
      && (reply.Proceed? <==> KeyUnused(s.db.rows, p.key) && p.row.state == Draft)
      && (reply.Proceed? ==>
            && reply.pending.SimulateReady?
            && CommitSimulate(s.db, reply.pending, true).1
               == (if s.db.rows[id].state == Draft then None else Some(StateChanged)))
  {
    EveryRunKeepsInv(env, actions);
    var s := Run(env, actions);
    var p := s.pending[req];
    assert PendingOk(env, s.db.rows, p);
    assert TrailOk(TrailIn(s, p.row.id), s.db.rows, p.row.id) && RowOk(env, p.row.id, s.db.rows[p.row.id]);
  }

  /**
   * What a prepared completion does in every reachable state. However stale the row it was prepared from, it either
   * stores the results of the scenario as it is now, under its key, or changes nothing.
   */
  lemma {:induction false} CompletionIsExact(env: Env, actions: seq<Action>, req: nat, auditOk: bool)
    requires req in Run(env, actions).pending && Run(env, actions).pending[req].SimulateReady?
    ensures
      var s := Run(env, actions);
      var p := s.pending[req];
      var id, (after, err) := p.row.id, CommitSimulate(s.db, p, auditOk);
      && id in s.db.rows
      && (err == Some(StateChanged) <==> s.db.rows[id].state != Draft)
      && (err == Some(Duplicate) <==> s.db.rows[id].state == Draft && KeyTaken(s.db.rows, p.key, id))
      && (err.None? <==> s.db.rows[id].state == Draft && !KeyTaken(s.db.rows, p.key, id) && auditOk)
      && (err.None? ==> after.rows == s.db.rows[id := Completed(env, s.db.rows[id], p.key)])
      && (err.Some? ==> after == s.db)
  {
    EveryRunKeepsInv(env, actions);
    var s := Run(env, actions);
    var p := s.pending[req];
    assert PendingOk(env, s.db.rows, p);
    assert Apply(s.db.rows[p.row.id], CompletionOf(p)) == Completed(env, s.db.rows[p.row.id], p.key);
  }

  /** A simulate request served alone goes through exactly on a draft, under a key no scenario has. */
  lemma {:induction false} SimulateGoesThroughIff(env: Env, rows: Rows, id: Uint, key: string, actor: Actor)
    requires id in rows ==> rows[id].id == id
    ensures Alone(env, rows, SimulateOp(id, key, actor)).Some?
       <==> && UsableKey(key) && id in rows && MayManage(actor, rows[id]) && rows[id].state == Draft
            && env.valid(rows[id].snapshot) && KeyUnused(rows, key)
    ensures Alone(env, rows, SimulateOp(id, key, actor)).Some? ==>
              Alone(env, rows, SimulateOp(id, key, actor)).value == rows[id := Completed(env, rows[id], key)]
  {
    if UsableKey(key) && id in rows && MayManage(actor, rows[id]) {
      var ready := SimulateReady(rows[id], key, actor, env.result(rows[id].snapshot));
      assert LoadSimulate(rows, id, key, actor) == Ok(SimulateLoaded(rows[id], key, actor));
      assert KeyUnused(rows, key) <==> !KeyBoundTo(rows, key, id) && !KeyTaken(rows, key, id);
      assert Apply(rows[id], CompletionOf(ready)) == Completed(env, rows[id], key);
    }
  }

  /** What a prepared transition does: the move it was checked for, while the state is the one it read, or nothing. */
  lemma {:induction false} MoveIsExact(env: Env, actions: seq<Action>, req: nat, auditOk: bool)
    requires req in Run(env, actions).pending && Run(env, actions).pending[req].TransitionReady?
    ensures
      var s := Run(env, actions);
      var p := s.pending[req];
      var id, (after, err) := p.row.id, CommitTransition(s.db, p, auditOk);
      && id in s.db.rows
      && (err == Some(StateChanged) <==> s.db.rows[id].state != p.row.state)
      && (err.None? <==> s.db.rows[id].state == p.row.state && auditOk)
      && (err.Some? ==> after == s.db)
      && (err.None? ==>
            && id in after.rows && after.rows == s.db.rows[id := after.rows[id]]
            && after.rows[id] == s.db.rows[id].(
                 state := p.to,
                 verifiedBy := if p.to == Verified then Some(p.actor.userId) else s.db.rows[id].verifiedBy,
                 rollbackRecord := if p.to == Rollback then p.comment else s.db.rows[id].rollbackRecord))
  {
    EveryRunKeepsInv(env, actions);
    assert PendingOk(env, Run(env, actions).db.rows, Run(env, actions).pending[req]);
  }

  /** What a replay does: it sets the mark whatever the state has become, and nothing else. */
  lemma {:induction false} MarkIsExact(env: Env, actions: seq<Action>, req: nat, auditOk: bool)
    requires req in Run(env, actions).pending && Run(env, actions).pending[req].ReplayReady?
    ensures
      var s := Run(env, actions);
      var id, (after, err) := s.pending[req].row.id, CommitReplay(s.db, s.pending[req], auditOk);
      && id in s.db.rows && (err.None? <==> auditOk)
      && (auditOk ==> after.rows == s.db.rows[id := s.db.rows[id].(replayVerified := true)])
      && (!auditOk ==> after == s.db)
  {
    EveryRunKeepsInv(env, actions);
    assert PendingOk(env, Run(env, actions).db.rows, Run(env, actions).pending[req]);
  }

  /** Whoever has a request under way is staff, the scenario's creator, or someone else about to verify it. */
  lemma {:induction false} RequestsArePermitted(env: Env, actions: seq<Action>, req: nat)
    requires req in Run(env, actions).pending
    ensures
      var s := Run(env, actions);
      var p := s.pending[req];
      && p.row.id in s.db.rows
      && if p.TransitionReady? && p.to == Verified then p.actor.userId != s.db.rows[p.row.id].createdBy
         else Permits(p.actor, s.db.rows[p.row.id].createdBy)
  {
    EveryRunKeepsInv(env, actions);
    assert PendingOk(env, Run(env, actions).db.rows, Run(env, actions).pending[req]);
  }
}
