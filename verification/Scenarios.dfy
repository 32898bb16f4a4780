/** Rollover scenarios: rows, unique indexes, and the read and commit steps of each request. */
module Scenarios {
  import opened Prelude
  import opened Actors
  import opened Snapshots
  import opened Simulation

  datatype ScenarioState = Draft | Simulated | Ready | Executing | Verified | Rollback

  predicate CanTransition(from: ScenarioState, to: ScenarioState) {
    match from
    case Draft => to == Simulated
    case Simulated => to == Ready || to == Draft
    case Ready => to == Executing || to == Draft
    case Executing => to == Verified || to == Rollback
    case Verified => false
    case Rollback => false
  }

  /** The JSON columns are held as the values they encode. */
  datatype Scenario = Scenario(
    id: Uint, snapshot: Snapshot, inputHash: string, state: ScenarioState, findings: Findings, explanation: Explanation,
    createdBy: Uint, verifiedBy: Option<Uint>, key: string, replayVerified: bool, rollbackRecord: string)

  /** The columns a conditional update may set. */
  datatype Updates = Updates(
    state: Option<ScenarioState>, findings: Option<Findings>, explanation: Option<Explanation>, key: Option<string>,
    verifiedBy: Option<Uint>, rollbackRecord: Option<string>, replayVerified: Option<bool>)

  const NO_UPDATES := Updates(None, None, None, None, None, None, None)

  function Or<T>(o: Option<T>, default: T): T {
    if o.Some? then o.value else default
  }

  function Apply(row: Scenario, u: Updates): Scenario {
    row.(state := Or(u.state, row.state), findings := Or(u.findings, row.findings),
         explanation := Or(u.explanation, row.explanation), key := Or(u.key, row.key),
         verifiedBy := if u.verifiedBy.Some? then u.verifiedBy else row.verifiedBy,
         rollbackRecord := Or(u.rollbackRecord, row.rollbackRecord),
         replayVerified := Or(u.replayVerified, row.replayVerified))
  }

  datatype AuditAction = CreateAction | SimulateAction | TransitionAction | ReplayAction

  datatype Audit = Audit(
    entityId: Uint, action: AuditAction, actorId: Uint, before: Option<Scenario>, after: Scenario)

  type Rows = map<Uint, Scenario>

  datatype Db = Db(rows: Rows, audits: seq<Audit>)

  datatype ScenarioError =
    | InvalidRequest
    | InvalidInput(cause: SnapshotError)
    | NotFound
    | Forbidden
    | KeyBoundElsewhere
    | NotDraft
    | IllegalTransition
    | ReviewerConflict
    | NothingToReplay
    | ReplayDiffers
    | StateChanged
    | Duplicate
    | AuditFailed

  predicate MayManage(actor: Actor, row: Scenario) {
    IsPkiStaff(actor) || row.createdBy == actor.userId
  }

  predicate ReviewerSeparated(row: Scenario, userId: Uint) {
    row.createdBy != userId
  }

  predicate UsableKey(key: string) {
    key != "" && ByteLength(key) <= 128
  }

  /** A request between its read and its commit: what it read and what it means to write. */
  datatype Pending =
    | SimulateLoaded(row: Scenario, key: string, actor: Actor)
    | SimulateReady(row: Scenario, key: string, actor: Actor, result: SimulationResult)
    | TransitionReady(row: Scenario, to: ScenarioState, comment: string, actor: Actor)
    | ReplayReady(row: Scenario, actor: Actor, passed: bool)

  /** What the protocol uses of the simulator: acceptance, result and input hash as functions of the snapshot. */
  datatype Env = Env(hash: Snapshot -> string, valid: Snapshot -> bool, result: Snapshot -> SimulationResult)

  /** The simulator itself; of the hash only that it is a function is used. */
  ghost function Real(hash: Snapshot -> string): Env {
    Env(hash, s => ValidSnapshot(s), s => SimulationOf(s))
  }

  datatype LookupReply = Reused(row: Scenario) | Proceed(pending: Pending) | Refused(error: ScenarioError)

  // ----- unique indexes

  ghost predicate UniqueKeys(rows: Rows) {
    forall a, b | a in rows && b in rows && a != b :: rows[a].key != rows[b].key
  }

  ghost predicate KeyTaken(rows: Rows, key: string, except: Uint) {
    exists id :: id in rows && id != except && rows[id].key == key
  }

  ghost predicate InputTaken(rows: Rows, inputHash: string, simulationTime: Time) {
    exists id ::
      id in rows && rows[id].inputHash == inputHash && rows[id].snapshot.config.simulationTime == simulationTime
  }

  // ----- steps as functions of what they read

  function NewScenario(id: Uint, snapshot: Snapshot, inputHash: string, actor: Actor): Scenario {
    Scenario(id, snapshot, inputHash, Draft, Findings([], [], []), FrozenDraft, actor.userId, None, "", false, "")
  }

  ghost function CreateStep(db: Db, id: Uint, snapshot: Snapshot, inputHash: string, actor: Actor, auditOk: bool)
    : (Db, Option<ScenarioError>)
  {
    if InputTaken(db.rows, inputHash, snapshot.config.simulationTime) || KeyTaken(db.rows, "", id) then
      (db, Some(Duplicate))
    else if !auditOk then (db, Some(AuditFailed))
    else
      var row := NewScenario(id, snapshot, inputHash, actor);
      (Db(db.rows[id := row], db.audits + [Audit(id, CreateAction, actor.userId, None, row)]), None)
  }

  function LoadSimulate(rows: Rows, id: Uint, key: string, actor: Actor): Result<Pending, ScenarioError> {
    if !UsableKey(key) then Err(InvalidRequest)
    else if id !in rows then Err(NotFound)
    else if !MayManage(actor, rows[id]) then Err(Forbidden)
    else Ok(SimulateLoaded(rows[id], key, actor))
  }

  ghost predicate KeyBoundTo(rows: Rows, key: string, id: Uint) {
    id in rows && rows[id].key == key
  }

  ghost function LookupSimulate(env: Env, rows: Rows, p: Pending): LookupReply
    requires p.SimulateLoaded?
  {
    if KeyBoundTo(rows, p.key, p.row.id) then Reused(rows[p.row.id])
    else if KeyTaken(rows, p.key, p.row.id) then Refused(KeyBoundElsewhere)
    else if p.row.state != Draft then Refused(NotDraft)
    else if !env.valid(p.row.snapshot) then Refused(InvalidRequest)
    else Proceed(SimulateReady(p.row, p.key, p.actor, env.result(p.row.snapshot)))
  }

  function CompletionOf(p: Pending): Updates
    requires p.SimulateReady?
  {
    NO_UPDATES.(state := Some(Simulated), findings := Some(p.result.findings),
                explanation := Some(p.result.explanation), key := Some(p.key))
  }

  ghost function CommitSimulate(db: Db, p: Pending, auditOk: bool): (Db, Option<ScenarioError>)
    requires p.SimulateReady?
  {
    var id := p.row.id;
    if id !in db.rows || db.rows[id].state != Draft then (db, Some(StateChanged))
    else if KeyTaken(db.rows, p.key, id) then (db, Some(Duplicate))
    else if !auditOk then (db, Some(AuditFailed))
    else
      var u := CompletionOf(p);
      (Db(db.rows[id := Apply(db.rows[id], u)],
          db.audits + [Audit(id, SimulateAction, p.actor.userId, Some(p.row), Apply(p.row, u))]), None)
  }

  function LoadTransition(rows: Rows, id: Uint, to: ScenarioState, comment: string, actor: Actor)
    : Result<Pending, ScenarioError>
  {
    if to == Simulated || |comment| > 1000 then Err(InvalidRequest)
    else if id !in rows then Err(NotFound)
    else if to != Verified && !MayManage(actor, rows[id]) then Err(Forbidden)
    else if !CanTransition(rows[id].state, to) then Err(IllegalTransition)
    else if to == Verified && !ReviewerSeparated(rows[id], actor.userId) then Err(ReviewerConflict)
    else Ok(TransitionReady(rows[id], to, comment, actor))
  }

  function MoveOf(p: Pending): Updates
    requires p.TransitionReady?
  {
    NO_UPDATES.(state := Some(p.to),
                verifiedBy := if p.to == Verified then Some(p.actor.userId) else None,
                rollbackRecord := if p.to == Rollback then Some(p.comment) else None)
  }

  function CommitTransition(db: Db, p: Pending, auditOk: bool): (Db, Option<ScenarioError>)
    requires p.TransitionReady?
  {
    var id := p.row.id;
    if id !in db.rows || db.rows[id].state != p.row.state then (db, Some(StateChanged))
    else if !auditOk then (db, Some(AuditFailed))
    else
      var u := MoveOf(p);
      (Db(db.rows[id := Apply(db.rows[id], u)],
          db.audits + [Audit(id, TransitionAction, p.actor.userId, Some(p.row), Apply(p.row, u))]), None)
  }

  predicate SameResult(row: Scenario, r: SimulationResult) {
    row.findings == r.findings && row.explanation == r.explanation
  }

  /** The result columns as creation leaves them. */
  predicate NoResult(row: Scenario) {
    row.findings == Findings([], [], []) && row.explanation == FrozenDraft
  }

  ghost function LoadReplay(env: Env, rows: Rows, id: Uint, actor: Actor): Result<Pending, ScenarioError> {
    if id !in rows then Err(NotFound)
    else if !MayManage(actor, rows[id]) then Err(Forbidden)
    else if rows[id].state == Draft then Err(NothingToReplay)
    else if !env.valid(rows[id].snapshot) then Err(InvalidRequest)
    else Ok(ReplayReady(rows[id], actor, SameResult(rows[id], env.result(rows[id].snapshot))))
  }

  /** The update by identifier alone: the state is not part of its condition. */
  function CommitReplay(db: Db, p: Pending, auditOk: bool): (Db, Option<ScenarioError>)
    requires p.ReplayReady?
  {
    var id := p.row.id;
    if id !in db.rows then (db, Some(NotFound))
    else if !auditOk then (db, Some(AuditFailed))
    else
      var u := NO_UPDATES.(replayVerified := Some(p.passed));
      (Db(db.rows[id := Apply(db.rows[id], u)],
          db.audits + [Audit(id, ReplayAction, p.actor.userId, Some(p.row), Apply(p.row, u))]),
       if p.passed then None else Some(ReplayDiffers))
  }
}
