/** Many requests at once: every reachable state of the scenario table. */
module Interleaving {
  import opened Prelude
  import opened Actors
  import opened Snapshots
  import opened Scenarios

  /** The database and the requests that have read but not yet committed. */
  datatype System = System(db: Db, pending: map<nat, Pending>)

  const INITIAL: System := System(Db(map[], []), map[])

  /** One atomic step of one request; `req` names the request. */
  datatype Action =
    | Create(id: Uint, snapshot: Snapshot, actor: Actor, auditOk: bool)
    | ReadForSimulate(req: nat, id: Uint, key: string, actor: Actor)
    | LookUpKey(req: nat)
    | FinishSimulate(req: nat, auditOk: bool)
    | ReadForTransition(req: nat, id: Uint, to: ScenarioState, comment: string, actor: Actor)
    | FinishTransition(req: nat, auditOk: bool)
    | ReadForReplay(req: nat, id: Uint, actor: Actor)
    | FinishReplay(req: nat, auditOk: bool)
    | Abandon(req: nat)

  ghost function Begin(s: System, req: nat, r: Result<Pending, ScenarioError>): System {
    if req !in s.pending && r.Ok? then s.(pending := s.pending[req := r.value]) else s
  }

  ghost function Drop(s: System, req: nat): System {
    s.(pending := s.pending - {req})
  }

  /** Steps that are not enabled change nothing. Identifiers are assigned by the database, so never reused. */
  ghost function Step(env: Env, s: System, a: Action): System {
    match a
    case Create(id, snapshot, actor, auditOk) =>
      if env.valid(snapshot) && id !in s.db.rows && id > 0
      then s.(db := CreateStep(s.db, id, snapshot, env.hash(snapshot), actor, auditOk).0) else s
    case ReadForSimulate(req, id, key, actor) => Begin(s, req, LoadSimulate(s.db.rows, id, key, actor))
    case LookUpKey(req) =>
      if req in s.pending && s.pending[req].SimulateLoaded? then
        match LookupSimulate(env, s.db.rows, s.pending[req])
        case Proceed(p) => s.(pending := s.pending[req := p])
        case _ => Drop(s, req)
      else s
    case FinishSimulate(req, auditOk) =>
      if req in s.pending && s.pending[req].SimulateReady?
      then Drop(s.(db := CommitSimulate(s.db, s.pending[req], auditOk).0), req) else s
    case ReadForTransition(req, id, to, comment, actor) =>
      Begin(s, req, LoadTransition(s.db.rows, id, to, comment, actor))
    case FinishTransition(req, auditOk) =>
      if req in s.pending && s.pending[req].TransitionReady?
      then Drop(s.(db := CommitTransition(s.db, s.pending[req], auditOk).0), req) else s
    case ReadForReplay(req, id, actor) => Begin(s, req, LoadReplay(env, s.db.rows, id, actor))
    case FinishReplay(req, auditOk) =>
      if req in s.pending && s.pending[req].ReplayReady?
      then Drop(s.(db := CommitReplay(s.db, s.pending[req], auditOk).0), req) else s
    case Abandon(req) => Drop(s, req)
  }

  ghost function Run(env: Env, actions: seq<Action>): System {
    if actions == [] then INITIAL else Step(env, Run(env, actions[..|actions| - 1]), actions[|actions| - 1])
  }

  // ----- what every reachable state satisfies

  /** What no step ever changes of a row. */
  ghost predicate SameInput(a: Scenario, b: Scenario) {
    a.id == b.id && a.snapshot == b.snapshot && a.inputHash == b.inputHash && a.createdBy == b.createdBy
  }

  /** How a row may change: its input is frozen, and it never loses its key or its replay mark. */
  ghost predicate Evolves(a: Scenario, b: Scenario) {
    SameInput(a, b) && (a.key != "" ==> b.key != "") && (a.replayVerified ==> b.replayVerified)
  }

  ghost predicate RowOk(env: Env, id: Uint, row: Scenario) {
    && row.id == id && env.valid(row.snapshot) && row.inputHash == env.hash(row.snapshot)
    && (if row.key == "" then NoResult(row) else SameResult(row, env.result(row.snapshot)))
    && (row.state != Draft || row.replayVerified ==> row.key != "")
    && (row.verifiedBy.Some? <==> row.state == Verified)
    && (row.verifiedBy.Some? ==> row.verifiedBy.value != row.createdBy)
    && (row.rollbackRecord != "" ==> row.state == Rollback)
  }

  ghost predicate IndexesOk(rows: Rows) {
    UniqueKeys(rows) &&
    forall a, b | a in rows && b in rows && a != b ::
      rows[a].inputHash != rows[b].inputHash
      || rows[a].snapshot.config.simulationTime != rows[b].snapshot.config.simulationTime
  }

  ghost predicate PendingOk(env: Env, rows: Rows, p: Pending) {
    && p.row.id in rows && Evolves(p.row, rows[p.row.id]) && RowOk(env, p.row.id, p.row)
    && match p
       case SimulateLoaded(row, key, actor) => UsableKey(key) && MayManage(actor, row)
       case SimulateReady(row, key, actor, result) =>
         UsableKey(key) && MayManage(actor, row) && row.state == Draft && result == env.result(row.snapshot)
       case TransitionReady(row, to, comment, actor) =>
         && to != Simulated && |comment| <= 1000 && CanTransition(row.state, to)
         && (if to == Verified then ReviewerSeparated(row, actor.userId) else MayManage(actor, row))
       case ReplayReady(row, actor, passed) => MayManage(actor, row) && row.state != Draft && passed
  }

  /** The entries that record a change of state, oldest first. */
  ghost function Trail(audits: seq<Audit>, id: Uint): seq<Audit> {
    if audits == [] then []
    else
      var rest := Trail(audits[..|audits| - 1], id);
      var a := audits[|audits| - 1];
      if a.entityId == id && a.action != ReplayAction then rest + [a] else rest
  }

  ghost predicate Follows(a: Audit, b: Audit) {
    && b.before.Some? && b.before.value.state == a.after.state
    && CanTransition(b.before.value.state, b.after.state)
    && b.action == (if b.after.state == Simulated then SimulateAction else TransitionAction)
    && SameInput(a.after, b.before.value) && SameInput(a.after, b.after)
  }

  /** The key of the last completed simulation the trail records. */
  ghost function LastKey(trail: seq<Audit>): string {
    if trail == [] then ""
    else
      var last := trail[|trail| - 1];
      if last.action == SimulateAction then last.after.key else LastKey(trail[..|trail| - 1])
  }

  /** The trail is a legal walk from draft to the stored state. */
  ghost predicate TrailOk(trail: seq<Audit>, rows: Rows, id: Uint) {
    && (id in rows <==> trail != [])
    && (id in rows ==>
          && trail[0].action == CreateAction && trail[0].before.None? && trail[0].after.state == Draft
          && trail[0].actorId == rows[id].createdBy
          && (forall i | 1 <= i < |trail| :: Follows(trail[i - 1], trail[i]))
          && trail[|trail| - 1].after.state == rows[id].state
          && SameInput(trail[|trail| - 1].after, rows[id])
          && rows[id].key == LastKey(trail)
          && (rows[id].state == Verified ==> rows[id].verifiedBy == Some(trail[|trail| - 1].actorId)))
  }

  ghost predicate Inv(env: Env, s: System) {
    && (forall id | id in s.db.rows :: RowOk(env, id, s.db.rows[id]))
    && IndexesOk(s.db.rows)
    && (forall req | req in s.pending :: PendingOk(env, s.db.rows, s.pending[req]))
    && forall id: Uint :: TrailOk(Trail(s.db.audits, id), s.db.rows, id)
  }

  lemma TrailOfAppend(audits: seq<Audit>, a: Audit, id: Uint)
    ensures Trail(audits + [a], id)
         == Trail(audits, id) + if a.entityId == id && a.action != ReplayAction then [a] else []
  {
    assert (audits + [a])[..|audits|] == audits;
  }

  /** Replacing one row by another with the same input keeps every waiting request in order. */
  lemma PendingSurvives(env: Env, s: System, id: Uint, row: Scenario)
    requires Inv(env, s)
    requires id in s.db.rows ==> Evolves(s.db.rows[id], row)
    ensures forall req | req in s.pending :: PendingOk(env, s.db.rows[id := row], s.pending[req])
  {
  }

  /** A committed write: one row and one entry, and all invariants. */
  lemma {:induction false} WriteKeepsInv(env: Env, s: System, id: Uint, row: Scenario, a: Audit)
    requires Inv(env, s) && RowOk(env, id, row) && IndexesOk(s.db.rows[id := row])
    requires id in s.db.rows ==> Evolves(s.db.rows[id], row)
    requires a.entityId == id
    requires TrailOk(Trail(s.db.audits, id) + (if a.action != ReplayAction then [a] else []), s.db.rows[id := row], id)
    ensures Inv(env, s.(db := Db(s.db.rows[id := row], s.db.audits + [a])))
  {
    PendingSurvives(env, s, id, row);
    forall k: Uint ensures TrailOk(Trail(s.db.audits + [a], k), s.db.rows[id := row], k) {
      TrailOfAppend(s.db.audits, a, k);
      assert TrailOk(Trail(s.db.audits, k), s.db.rows, k);
    }
  }

  lemma TrailGrows(trail: seq<Audit>, rows: Rows, id: Uint, row: Scenario, entry: Audit)
    requires id in rows && TrailOk(trail, rows, id) && SameInput(rows[id], row)
    requires Follows(trail[|trail| - 1], entry) && entry.after.state == row.state
    requires row.state == Verified ==> row.verifiedBy == Some(entry.actorId)
    requires row.key == if entry.action == SimulateAction then entry.after.key else rows[id].key
    ensures TrailOk(trail + [entry], rows[id := row], id)
  {
    assert (trail + [entry])[..|trail|] == trail;
  }

  lemma DropKeepsInv(env: Env, s: System, req: nat)
    requires Inv(env, s)
    ensures Inv(env, Drop(s, req))
  {
  }

  lemma TrailStarts(trail: seq<Audit>, rows: Rows, id: Uint, row: Scenario, entry: Audit)
    requires id !in rows && TrailOk(trail, rows, id)
    requires entry == Audit(id, CreateAction, row.createdBy, None, row)
    requires row.state == Draft && row.key == ""
    ensures TrailOk(trail + [entry], rows[id := row], id)
  {
    assert (trail + [entry])[..0] == [];
  }

  lemma NewIndexes(rows: Rows, id: Uint, row: Scenario)
    requires IndexesOk(rows) && id !in rows && !KeyTaken(rows, row.key, id)
    requires !InputTaken(rows, row.inputHash, row.snapshot.config.simulationTime)
    ensures IndexesOk(rows[id := row])
  {
  }

  lemma {:induction false} CreateKeepsInv(env: Env, s: System, id: Uint, snapshot: Snapshot, actor: Actor,
                                          auditOk: bool)
    requires Inv(env, s)
    ensures Inv(env, Step(env, s, Create(id, snapshot, actor, auditOk)))
  {
    if env.valid(snapshot) && id !in s.db.rows && id > 0
       && CreateStep(s.db, id, snapshot, env.hash(snapshot), actor, auditOk).1.None?
    {
      var row := NewScenario(id, snapshot, env.hash(snapshot), actor);
      var entry := Audit(id, CreateAction, actor.userId, None, row);
      NewIndexes(s.db.rows, id, row);
      TrailStarts(Trail(s.db.audits, id), s.db.rows, id, row, entry);
      WriteKeepsInv(env, s, id, row, entry);
    }
  }

  /** Rows whose indexed columns stay the same stay unique. */
  lemma SameIndexes(rows: Rows, id: Uint, row: Scenario)
    requires IndexesOk(rows) && id in rows && SameInput(rows[id], row)
    requires row.key == rows[id].key || !KeyTaken(rows, row.key, id)
    ensures IndexesOk(rows[id := row])
  {
  }

  lemma CompletedRow(env: Env, rows: Rows, p: Pending)
    requires p.SimulateReady? && PendingOk(env, rows, p)
    requires RowOk(env, p.row.id, rows[p.row.id]) && rows[p.row.id].state == Draft
    ensures RowOk(env, p.row.id, Apply(rows[p.row.id], CompletionOf(p)))
    ensures Evolves(rows[p.row.id], Apply(rows[p.row.id], CompletionOf(p)))
  {
  }

  lemma MovedRow(env: Env, rows: Rows, p: Pending)
    requires p.TransitionReady? && PendingOk(env, rows, p)
    requires RowOk(env, p.row.id, rows[p.row.id]) && rows[p.row.id].state == p.row.state
    ensures RowOk(env, p.row.id, Apply(rows[p.row.id], MoveOf(p)))
    ensures Evolves(rows[p.row.id], Apply(rows[p.row.id], MoveOf(p)))
  {
  }

  lemma {:induction false} SimulateKeepsInv(env: Env, s: System, req: nat, auditOk: bool)
    requires Inv(env, s)
    ensures Inv(env, Step(env, s, FinishSimulate(req, auditOk)))
  {
    if req in s.pending && s.pending[req].SimulateReady? {
      var p := s.pending[req];
      var id := p.row.id;
      var after := CommitSimulate(s.db, p, auditOk);
      if after.1.None? {
        var row := Apply(s.db.rows[id], CompletionOf(p));
        var entry := Audit(id, SimulateAction, p.actor.userId, Some(p.row), Apply(p.row, CompletionOf(p)));
        CompletedRow(env, s.db.rows, p);
        SameIndexes(s.db.rows, id, row);
        TrailGrows(Trail(s.db.audits, id), s.db.rows, id, row, entry);
        WriteKeepsInv(env, s, id, row, entry);
      }
      DropKeepsInv(env, s.(db := after.0), req);
    }
  }

  lemma {:induction false} TransitionKeepsInv(env: Env, s: System, req: nat, auditOk: bool)
    requires Inv(env, s)
    ensures Inv(env, Step(env, s, FinishTransition(req, auditOk)))
  {
    if req in s.pending && s.pending[req].TransitionReady? {
      var p := s.pending[req];
      var id := p.row.id;
      var after := CommitTransition(s.db, p, auditOk);
      if after.1.None? {
        var row := Apply(s.db.rows[id], MoveOf(p));
        var entry := Audit(id, TransitionAction, p.actor.userId, Some(p.row), Apply(p.row, MoveOf(p)));
        MovedRow(env, s.db.rows, p);
        SameIndexes(s.db.rows, id, row);
        TrailGrows(Trail(s.db.audits, id), s.db.rows, id, row, entry);
        WriteKeepsInv(env, s, id, row, entry);
      }
      DropKeepsInv(env, s.(db := after.0), req);
    }
  }

  lemma {:induction false} ReplayKeepsInv(env: Env, s: System, req: nat, auditOk: bool)
    requires Inv(env, s)
    ensures Inv(env, Step(env, s, FinishReplay(req, auditOk)))
  {
    if req in s.pending && s.pending[req].ReplayReady? {
      var p := s.pending[req];
      var id := p.row.id;
      if auditOk {
        var u := NO_UPDATES.(replayVerified := Some(p.passed));
        var row := Apply(s.db.rows[id], u);
        var entry := Audit(id, ReplayAction, p.actor.userId, Some(p.row), Apply(p.row, u));
        var trail := Trail(s.db.audits, id);
        assert TrailOk(trail, s.db.rows, id) && trail + [] == trail;
        SameIndexes(s.db.rows, id, row);
        WriteKeepsInv(env, s, id, row, entry);
      }
      DropKeepsInv(env, s.(db := CommitReplay(s.db, p, auditOk).0), req);
    }
  }

  /** Replacing what one request is waiting with keeps the invariants, if the new decision is in order too. */
  lemma WaitKeepsInv(env: Env, s: System, req: nat, p: Pending)
    requires Inv(env, s) && PendingOk(env, s.db.rows, p)
    ensures Inv(env, s.(pending := s.pending[req := p]))
  {
  }

  lemma BeginKeepsInv(env: Env, s: System, req: nat, r: Result<Pending, ScenarioError>)
    requires Inv(env, s) && (r.Ok? ==> PendingOk(env, s.db.rows, r.value))
    ensures Inv(env, Begin(s, req, r))
  {
    if req !in s.pending && r.Ok? {
      WaitKeepsInv(env, s, req, r.value);
    }
  }

  lemma LookUpDecides(env: Env, rows: Rows, p: Pending)
    requires p.SimulateLoaded? && PendingOk(env, rows, p) && LookupSimulate(env, rows, p).Proceed?
    ensures PendingOk(env, rows, LookupSimulate(env, rows, p).pending)
  {
  }

  lemma LookUpKeepsInv(env: Env, s: System, req: nat)
    requires Inv(env, s)
    ensures Inv(env, Step(env, s, LookUpKey(req)))
  {
    if req in s.pending && s.pending[req].SimulateLoaded? {
      match LookupSimulate(env, s.db.rows, s.pending[req])
      case Proceed(p) =>
        LookUpDecides(env, s.db.rows, s.pending[req]);
        WaitKeepsInv(env, s, req, p);
      case _ =>
        DropKeepsInv(env, s, req);
    }
  }

  lemma {:induction false} StepKeepsInv(env: Env, s: System, a: Action)
    requires Inv(env, s)
    ensures Inv(env, Step(env, s, a))
  {
    match a
    case Create(id, snapshot, actor, auditOk) =>
      CreateKeepsInv(env, s, id, snapshot, actor, auditOk);
    case FinishSimulate(req, auditOk) => SimulateKeepsInv(env, s, req, auditOk);
    case FinishTransition(req, auditOk) => TransitionKeepsInv(env, s, req, auditOk);
    case FinishReplay(req, auditOk) => ReplayKeepsInv(env, s, req, auditOk);
    case LookUpKey(req) => LookUpKeepsInv(env, s, req);
    case ReadForSimulate(req, id, key, actor) => BeginKeepsInv(env, s, req, LoadSimulate(s.db.rows, id, key, actor));
    case ReadForTransition(req, id, to, comment, actor) =>
      BeginKeepsInv(env, s, req, LoadTransition(s.db.rows, id, to, comment, actor));
    case ReadForReplay(req, id, actor) => BeginKeepsInv(env, s, req, LoadReplay(env, s.db.rows, id, actor));
    case Abandon(req) => DropKeepsInv(env, s, req);
  }

  lemma {:induction false} EveryRunKeepsInv(env: Env, actions: seq<Action>)
    ensures Inv(env, Run(env, actions))
  {
    if actions != [] {
      EveryRunKeepsInv(env, actions[..|actions| - 1]);
      StepKeepsInv(env, Run(env, actions[..|actions| - 1]), actions[|actions| - 1]);
    }
  }
}
