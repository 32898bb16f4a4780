/** The scenario table and the service's methods, split where other requests can run. */
module ScenarioService {
  import opened Prelude
  import opened Actors
  import opened Sorting
  import opened Snapshots
  import opened Simulation
  import opened Scenarios

  datatype CreateRequest = CreateRequest(
    config: ScenarioConfig, anchors: seq<AnchorSnapshot>, chains: seq<ChainSnapshot>, services: seq<ServiceSnapshot>)

  class Store {
    const hash: Snapshot -> string
    var rows: Rows
    var audits: seq<Audit>

    constructor (hash: Snapshot -> string)
      ensures this.hash == hash && Contents() == Db(map[], [])
    {
      this.hash, rows, audits := hash, map[], [];
    }

    ghost function Contents(): Db
      reads this
    {
      Db(rows, audits)
    }

    // ----- repository

    method FindByKey(key: string) returns (found: Option<Uint>)
      ensures found.None? <==> forall id | id in rows :: rows[id].key != key
      ensures found.Some? ==> found.value in rows && rows[found.value].key == key
    {
      if id :| id in rows && rows[id].key == key {
        return Some(id);
      }
      return None;
    }

    /** A conditional update, refused by the unique index on the key. */
    method UpdateWhere(id: Uint, from: ScenarioState, updates: Updates) returns (changed: bool, duplicate: bool)
      modifies this`rows
      ensures var hit := id in old(rows) && old(rows)[id].state == from;
              var clash := updates.key.Some? && KeyTaken(old(rows), updates.key.value, id);
              && (duplicate <==> hit && clash) && (changed <==> hit && !clash)
              && rows == if changed then old(rows)[id := Apply(old(rows)[id], updates)] else old(rows)
    {
      if id !in rows || rows[id].state != from {
        return false, false;
      }
      if updates.key.Some? && exists other :: other in rows && other != id && rows[other].key == updates.key.value {
        return false, true;
      }
      rows := rows[id := Apply(rows[id], updates)];
      return true, false;
    }

    method CompleteSimulation(id: Uint, updates: Updates) returns (changed: bool, duplicate: bool)
      modifies this`rows
      ensures var hit := id in old(rows) && old(rows)[id].state == Draft;
              var clash := updates.key.Some? && KeyTaken(old(rows), updates.key.value, id);
              && (duplicate <==> hit && clash) && (changed <==> hit && !clash)
              && rows == if changed
                         then old(rows)[id := Apply(old(rows)[id], updates.(state := Some(Simulated)))] else old(rows)
    {
      changed, duplicate := UpdateWhere(id, Draft, updates.(state := Some(Simulated)));
    }

    // ----- requests

    method Create(request: CreateRequest, newId: Uint, actor: Actor, auditOk: bool)
      returns (snapshot: Snapshot, err: Option<ScenarioError>)
      requires newId !in rows
      modifies this
      ensures Frozen(request.config, request.anchors, request.chains, request.services, snapshot)
      ensures err.Some? && err.value.InvalidInput? <==> !ValidSnapshot(snapshot)
      ensures !ValidSnapshot(snapshot) ==> Contents() == old(Contents())
      ensures ValidSnapshot(snapshot) ==>
                (Contents(), err) == CreateStep(old(Contents()), newId, snapshot, hash(snapshot), actor, auditOk)
    {
      var anchors := SliceOf(request.anchors);
      var chains := SliceOf(request.chains);
      var services := SliceOf(request.services);
      snapshot := NewSnapshot(request.config, anchors, chains, services);
      var invalid := ValidateSnapshot(snapshot);
      if invalid.Some? {
        err := Some(InvalidInput(invalid.value));
        return;
      }
      err := Insert(newId, snapshot, actor, auditOk);
    }

    /** The transaction of Create: insert the row, append its audit entry, or leave no trace. */
    method Insert(newId: Uint, snapshot: Snapshot, actor: Actor, auditOk: bool) returns (err: Option<ScenarioError>)
      requires newId !in rows
      modifies this
      ensures (Contents(), err) == CreateStep(old(Contents()), newId, snapshot, hash(snapshot), actor, auditOk)
      ensures err == Some(Duplicate) <==>
                exists id | id in old(rows) ::
                  || old(rows)[id].key == ""
                  || (old(rows)[id].inputHash == hash(snapshot)
                      && old(rows)[id].snapshot.config.simulationTime == snapshot.config.simulationTime)
      ensures err.None? ==>
                && newId in rows && rows == old(rows)[newId := rows[newId]]
                && rows[newId].id == newId && rows[newId].snapshot == snapshot && rows[newId].createdBy == actor.userId
                && rows[newId].state == Draft && rows[newId].key == "" && rows[newId].verifiedBy.None?
      ensures err.Some? ==> Contents() == old(Contents())
    {
      var inputHash := hash(snapshot);
      if exists id :: id in rows && rows[id].inputHash == inputHash
                      && rows[id].snapshot.config.simulationTime == snapshot.config.simulationTime {
        return Some(Duplicate);
      }
      if exists id :: id in rows && id != newId && rows[id].key == "" {
        return Some(Duplicate);
      }
      var row := NewScenario(newId, snapshot, inputHash, actor);
      var saved := rows;
      rows := rows[newId := row];
      if !auditOk {
        rows := saved;
        return Some(AuditFailed);
      }
      audits := audits + [Audit(newId, CreateAction, actor.userId, None, row)];
      return None;
    }

    method SimulateLoad(id: Uint, key: string, actor: Actor) returns (r: Result<Pending, ScenarioError>)
      ensures r == LoadSimulate(rows, id, key, actor)
      ensures r.Ok? <==>
                && key != "" && ByteLength(key) <= 128 && id in rows
                && (actor.role in {"admin", "pki_operator"} || rows[id].createdBy == actor.userId)
      ensures r.Ok? ==> r.value == SimulateLoaded(rows[id], key, actor)
      ensures r == Err(InvalidRequest) <==> key == "" || ByteLength(key) > 128
      ensures r == Err(Forbidden) <==>
                && key != "" && ByteLength(key) <= 128 && id in rows
                && actor.role !in {"admin", "pki_operator"} && rows[id].createdBy != actor.userId
    {
      if key == "" || ByteLength(key) > 128 {
        return Err(InvalidRequest);
      }
      if id !in rows {
        return Err(NotFound);
      }
      var scenario := rows[id];
      if !MayManage(actor, scenario) {
        return Err(Forbidden);
      }
      return Ok(SimulateLoaded(scenario, key, actor));
    }

    method SimulateLookup(p: Pending) returns (reply: LookupReply)
      requires p.SimulateLoaded?
      requires UniqueKeys(rows)
      ensures reply == LookupSimulate(Real(hash), rows, p)
    {
      var prior := FindByKey(p.key);
      if prior.Some? {
        if prior.value != p.row.id {
          return Refused(KeyBoundElsewhere);
        }
        return Reused(rows[prior.value]);
      }
      if p.row.state != Draft {
        return Refused(NotDraft);
      }
      var result := Simulate(p.row.snapshot);
      if result.Err? {
        return Refused(InvalidRequest);
      }
      return Proceed(SimulateReady(p.row, p.key, p.actor, result.value));
    }

    method SimulateCommit(p: Pending, auditOk: bool) returns (err: Option<ScenarioError>)
      requires p.SimulateReady?
      modifies this
      ensures (Contents(), err) == CommitSimulate(old(Contents()), p, auditOk)
    {
      var saved := rows;
      var updates := NO_UPDATES.(findings := Some(p.result.findings), explanation := Some(p.result.explanation),
                                 key := Some(p.key));
      var changed, duplicate := CompleteSimulation(p.row.id, updates);
      if duplicate {
        return Some(Duplicate);
      }
      if !changed {
        return Some(StateChanged);
      }
      var scenario := p.row;
      scenario := scenario.(state := Simulated, findings := p.result.findings, explanation := p.result.explanation,
                            key := p.key);
      if !auditOk {
        rows := saved;
        return Some(AuditFailed);
      }
      audits := audits + [Audit(p.row.id, SimulateAction, p.actor.userId, Some(p.row), scenario)];
      return None;
    }

    method TransitionLoad(id: Uint, to: ScenarioState, comment: string, actor: Actor)
      returns (r: Result<Pending, ScenarioError>)
      ensures r == LoadTransition(rows, id, to, comment, actor)
      ensures r.Ok? <==>
                && to != Simulated && |comment| <= 1000 && id in rows
                && (rows[id].state, to) in {(Simulated, Ready), (Simulated, Draft), (Ready, Executing), (Ready, Draft),
                                            (Executing, Verified), (Executing, Rollback)}
                && if to == Verified then rows[id].createdBy != actor.userId
                   else actor.role in {"admin", "pki_operator"} || rows[id].createdBy == actor.userId
      ensures r.Ok? ==> r.value == TransitionReady(rows[id], to, comment, actor)
      ensures r == Err(InvalidRequest) <==> to == Simulated || |comment| > 1000
      ensures r == Err(Forbidden) <==>
                && to != Simulated && |comment| <= 1000 && id in rows && to != Verified
                && actor.role !in {"admin", "pki_operator"} && rows[id].createdBy != actor.userId
      ensures r == Err(ReviewerConflict) <==>
                && to == Verified && |comment| <= 1000 && id in rows && rows[id].state == Executing
                && rows[id].createdBy == actor.userId
    {
      if to == Simulated || |comment| > 1000 {
        return Err(InvalidRequest);
      }
      if id !in rows {
        return Err(NotFound);
      }
      var scenario := rows[id];
      if to != Verified {
        if !MayManage(actor, scenario) {
          return Err(Forbidden);
        }
      }
      if !CanTransition(scenario.state, to) {
        return Err(IllegalTransition);
      }
      if to == Verified && !ReviewerSeparated(scenario, actor.userId) {
        return Err(ReviewerConflict);
      }
      return Ok(TransitionReady(scenario, to, comment, actor));
    }

    method TransitionCommit(p: Pending, auditOk: bool) returns (err: Option<ScenarioError>)
      requires p.TransitionReady?
      modifies this
      ensures (Contents(), err) == CommitTransition(old(Contents()), p, auditOk)
    {
      var saved := rows;
      var updates := NO_UPDATES;
      if p.to == Verified {
        updates := updates.(verifiedBy := Some(p.actor.userId));
      }
      if p.to == Rollback {
        updates := updates.(rollbackRecord := Some(p.comment));
      }
      var changed, _ := UpdateWhere(p.row.id, p.row.state, updates.(state := Some(p.to)));
      if !changed {
        return Some(StateChanged);
      }
      var scenario := p.row.(state := p.to);
      if p.to == Verified {
        scenario := scenario.(verifiedBy := Some(p.actor.userId));
      }
      if p.to == Rollback {
        scenario := scenario.(rollbackRecord := p.comment);
      }
      if !auditOk {
        rows := saved;
        return Some(AuditFailed);
      }
      audits := audits + [Audit(p.row.id, TransitionAction, p.actor.userId, Some(p.row), scenario)];
      return None;
    }

    method ReplayLoad(id: Uint, actor: Actor) returns (r: Result<Pending, ScenarioError>)
      ensures r == LoadReplay(Real(hash), rows, id, actor)
      ensures r == Err(NotFound) <==> id !in rows
      ensures r == Err(Forbidden) <==>
                id in rows && actor.role !in {"admin", "pki_operator"} && rows[id].createdBy != actor.userId
      ensures r == Err(NothingToReplay) <==>
                && id in rows && rows[id].state == Draft
                && (actor.role in {"admin", "pki_operator"} || rows[id].createdBy == actor.userId)
    {
      if id !in rows {
        return Err(NotFound);
      }
      var scenario := rows[id];
      if !MayManage(actor, scenario) {
        return Err(Forbidden);
      }
      if scenario.state == Draft {
        return Err(NothingToReplay);
      }
      var result := Simulate(scenario.snapshot);
      if result.Err? {
        return Err(InvalidRequest);
      }
      var passed := result.value.findings == scenario.findings && result.value.explanation == scenario.explanation;
      return Ok(ReplayReady(scenario, actor, passed));
    }

    method ReplayCommit(p: Pending, auditOk: bool) returns (err: Option<ScenarioError>)
      requires p.ReplayReady?
      modifies this
      ensures (Contents(), err) == CommitReplay(old(Contents()), p, auditOk)
    {
      if p.row.id !in rows {
        return Some(NotFound);
      }
      var saved := rows;
      rows := rows[p.row.id := rows[p.row.id].(replayVerified := p.passed)];
      if !auditOk {
        rows := saved;
        return Some(AuditFailed);
      }
      var after := p.row.(replayVerified := p.passed);
      audits := audits + [Audit(p.row.id, ReplayAction, p.actor.userId, Some(p.row), after)];
      return if p.passed then None else Some(ReplayDiffers);
    }
  }
}
