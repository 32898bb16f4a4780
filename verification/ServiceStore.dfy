/** Serial writes to the dependency table keep it acyclic and closed. */
module ServiceStore {
  import opened Prelude
  import opened Graphs
  import opened Sorting
  import opened Rewiring
  import opened StoredGraph
  import opened Actors

  type Table = map<Uint, DependentService>

  /** Row identifiers are signed 64-bit integers in the database; the placeholder is `^uint(0)`. */
  const MAX_ROW_ID: int := 0x7FFF_FFFF_FFFF_FFFF
  const PLACEHOLDER: Uint := MAX_UINT

  datatype ServiceRequest = ServiceRequest(
    code: string, name: string, ownerTeam: string, environment: string, chainId: Uint, trust: seq<Uint>,
    protocol: string, criticality: string, edges: seq<Uint>)

  datatype WriteError =
    | InvalidRequest
    | Forbidden
    | NotFound
    | ChainNotFound
    | AnchorNotFound
    | SelfDependency
    | UnknownDependency
    | WouldBeCyclic
    | DuplicateCode
    | AlreadyInactive

  datatype ServiceAudit = ServiceAudit(
    entityId: Uint, action: string, actorId: Uint, before: Option<DependentService>, after: DependentService)

  function TableGraph(rows: Table): Graph {
    map id | id in rows :: Decoded(rows[id].edges)
  }

  /** Every row is filed under its identifier, holds a list of dependencies and has a code of its own. */
  ghost predicate Filed(rows: Table) {
    && (forall id | id in rows :: rows[id].id == id && 0 < id <= MAX_ROW_ID && rows[id].edges.Listed?)
    && (forall a, b | a in rows && b in rows && a != b :: rows[a].code != rows[b].code)
  }

  /** What overlapping requests cannot break: the graph may have become cyclic, but every dependency is known. */
  ghost predicate Intact(rows: Table) {
    Filed(rows) && Closed(TableGraph(rows))
  }

  ghost predicate ValidTable(rows: Table) {
    Filed(rows) && Sound(TableGraph(rows))
  }

  predicate KnownEnvironment(environment: string) {
    environment == "development" || environment == "staging" || environment == "production"
    || environment == "disaster_recovery"
  }

  predicate KnownProtocol(protocol: string) {
    protocol == "tls" || protocol == "mtls" || protocol == "ldaps" || protocol == "smtps" || protocol == "kafka_tls"
  }

  predicate KnownCriticality(criticality: string) {
    criticality == "low" || criticality == "medium" || criticality == "high" || criticality == "critical"
  }

  /** The validation rules creation and update share. */
  predicate WellFormed(r: ServiceRequest) {
    && 2 <= |r.name| <= 160 && 2 <= |r.ownerTeam| <= 160
    && KnownEnvironment(r.environment) && KnownProtocol(r.protocol) && KnownCriticality(r.criticality)
    && r.chainId > 0
    && 1 <= |r.trust| <= 32 && (forall id | id in r.trust :: id > 0)
    && |r.edges| <= 64 && (forall id | id in r.edges :: id > 0)
  }

  predicate UsableCode(code: string) {
    3 <= |code| <= 80
  }

  predicate MayModify(actor: Actor, ownerTeam: string) {
    IsPkiStaff(actor) || (actor.role == "service_owner" && actor.team == ownerTeam)
  }

  /** What the request names exists. */
  ghost predicate ReferencesExist(rows: Table, r: ServiceRequest, chains: set<Uint>, anchors: set<Uint>) {
    && r.chainId in chains
    && (forall id | id in r.trust :: id in anchors)
    && Known(TableGraph(rows), r.edges)
  }

  /** The column holds exactly the identifiers requested, in ascending order. */
  ghost predicate Stores(column: IdList, ids: seq<Uint>) {
    column.Listed? && Ascending(column.ids) && forall id :: id in column.ids <==> id in ids
  }

  /** The columns that a request sets on creation and on update. */
  ghost predicate HoldsRequest(row: DependentService, r: ServiceRequest) {
    && row.name == r.name && row.ownerTeam == r.ownerTeam && row.environment == r.environment
    && row.chainId == r.chainId && row.protocol == r.protocol && row.criticality == r.criticality
    && Stores(row.trust, r.trust) && Stores(row.edges, r.edges)
  }

  /** The rules by value: which requests are answered as invalid. */
  lemma RequestRules(r: ServiceRequest)
    ensures WellFormed(r) <==>
              && 2 <= |r.name| <= 160 && 2 <= |r.ownerTeam| <= 160
              && r.environment in {"development", "staging", "production", "disaster_recovery"}
              && r.protocol in {"tls", "mtls", "ldaps", "smtps", "kafka_tls"}
              && r.criticality in {"low", "medium", "high", "critical"}
              && r.chainId != 0 && 1 <= |r.trust| <= 32 && 0 !in r.trust && |r.edges| <= 64 && 0 !in r.edges
    ensures UsableCode(r.code) <==> 3 <= |r.code| <= 80
  {
  }

  function NewRow(id: Uint, r: ServiceRequest): DependentService {
    DependentService(id, r.code, r.name, r.ownerTeam, r.environment, r.chainId, Listed(SortedUnique(r.trust)),
                     r.protocol, r.criticality, Listed(SortedUnique(r.edges)), "active")
  }

  function UpdatedRow(row: DependentService, r: ServiceRequest): DependentService {
    row.(name := r.name, ownerTeam := r.ownerTeam, environment := r.environment, chainId := r.chainId,
         trust := Listed(SortedUnique(r.trust)), protocol := r.protocol, criticality := r.criticality,
         edges := Listed(SortedUnique(r.edges)))
  }

  lemma {:induction false} NewRowHoldsRequest(id: Uint, r: ServiceRequest)
    requires WellFormed(r)
    ensures HoldsRequest(NewRow(id, r), r)
    ensures NewRow(id, r).id == id && NewRow(id, r).code == r.code && NewRow(id, r).state == "active"
  {
  }

  lemma {:induction false} UpdatedRowHoldsRequest(row: DependentService, r: ServiceRequest)
    requires WellFormed(r)
    ensures HoldsRequest(UpdatedRow(row, r), r)
    ensures UpdatedRow(row, r).id == row.id && UpdatedRow(row, r).code == row.code
    ensures UpdatedRow(row, r).state == row.state
  {
  }

  /** A list of the whole table, in any order. */
  ghost predicate Lists(all: seq<DependentService>, rows: Table) {
    && (forall s | s in all :: s.id in rows && rows[s.id] == s)
    && forall id | id in rows :: rows[id] in all
  }

  lemma {:induction false} GraphOfEntries(all: seq<DependentService>, rows: Table)
    requires forall s | s in all :: s.id in rows && rows[s.id] == s
    ensures forall id | id in GraphOf(all) :: id in rows && GraphOf(all)[id] == Decoded(rows[id].edges)
    ensures forall s | s in all :: s.id in GraphOf(all)
  {
    if all != [] {
      assert all == all[..|all| - 1] + [all[|all| - 1]];
      GraphOfEntries(all[..|all| - 1], rows);
    }
  }

  lemma {:induction false} ListingKeepsGraph(all: seq<DependentService>, rows: Table)
    requires Lists(all, rows) && forall id | id in rows :: rows[id].id == id
    ensures GraphOf(all) == TableGraph(rows)
  {
    GraphOfEntries(all, rows);
  }

  lemma {:induction false} EdgesOfRequest(r: ServiceRequest)
    requires WellFormed(r)
    ensures Decoded(Listed(SortedUnique(r.edges))) == SortedUnique(r.edges)
    ensures forall e: Uint :: e in SortedUnique(r.edges) <==> e in r.edges
  {
    SortedUniqueIsCanonical(r.edges, r.edges);
  }

  lemma {:induction false} RowChangesGraph(rows: Table, id: Uint, row: DependentService)
    ensures TableGraph(rows[id := row]) == TableGraph(rows)[id := Decoded(row.edges)]
  {
  }

  lemma {:induction false} UpdatedGraph(rows: Table, id: Uint, r: ServiceRequest)
    requires id in rows && WellFormed(r)
    ensures TableGraph(rows[id := UpdatedRow(rows[id], r)]) == TableGraph(rows)[id := SortedUnique(r.edges)]
    ensures forall e: Uint :: e in SortedUnique(r.edges) <==> e in r.edges
  {
    EdgesOfRequest(r);
    RowChangesGraph(rows, id, UpdatedRow(rows[id], r));
  }

  lemma {:induction false} CreatedGraph(rows: Table, newId: Uint, r: ServiceRequest)
    requires WellFormed(r)
    ensures TableGraph(rows[newId := NewRow(newId, r)]) == TableGraph(rows)[newId := SortedUnique(r.edges)]
    ensures forall e: Uint :: e in SortedUnique(r.edges) <==> e in r.edges
  {
    EdgesOfRequest(r);
    RowChangesGraph(rows, newId, NewRow(newId, r));
  }

  lemma {:induction false} DeactivatedGraph(rows: Table, id: Uint)
    requires id in rows
    ensures TableGraph(rows[id := rows[id].(state := "inactive")]) == TableGraph(rows)
  {
    var row := rows[id].(state := "inactive");
    RowChangesGraph(rows, id, row);
    assert TableGraph(rows)[id := Decoded(row.edges)] == TableGraph(rows);
  }

  lemma KeysAreNodes(g: Graph)
    requires Closed(g)
    ensures Nodes(g) == g.Keys
  {
  }

  /** The check under the placeholder identifier passes exactly on acyclic tables, as it would under the real one. */
  lemma {:induction false} CreateCheckIsExact(rows: Table, all: seq<DependentService>, r: ServiceRequest, newId: Uint)
    requires Intact(rows) && Lists(all, rows) && WellFormed(r) && Known(TableGraph(rows), r.edges)
    requires newId !in rows
    ensures
      var candidate, g, edges := all + [NewRow(PLACEHOLDER, r)], TableGraph(rows), SortedUnique(r.edges);
      && Decodable(candidate) && GraphOf(candidate) == g[PLACEHOLDER := edges]
      && (Sound(GraphOf(candidate)) <==> Acyclic(g))
      && (Sound(g[newId := edges]) <==> Acyclic(g))
  {
    var candidate := all + [NewRow(PLACEHOLDER, r)];
    var g, edges := TableGraph(rows), SortedUnique(r.edges);
    EdgesOfRequest(r);
    assert candidate[..|candidate| - 1] == all;
    ListingKeepsGraph(all, rows);
    KeysAreNodes(g);
    assert PLACEHOLDER !in rows && PLACEHOLDER !in edges && newId !in edges;
    FreshVertexVerdict(g, PLACEHOLDER, edges);
    PlaceholderVerdict(g, PLACEHOLDER, newId, edges);
    forall s | s in candidate ensures s.edges.Listed? {
      assert s in all || s == NewRow(PLACEHOLDER, r);
    }
  }

  /** What Update writes into the loaded slice before checking it. */
  function Overlay(row: DependentService, r: ServiceRequest): DependentService {
    row.(chainId := r.chainId, trust := Listed(SortedUnique(r.trust)), edges := Listed(SortedUnique(r.edges)))
  }

  ghost predicate Overlaid(loaded: seq<DependentService>, all: seq<DependentService>, id: Uint, r: ServiceRequest) {
    |all| == |loaded|
    && forall j | 0 <= j < |all| :: all[j] == if loaded[j].id == id then Overlay(loaded[j], r) else loaded[j]
  }

  lemma {:induction false} OverlaidListing(loaded: seq<DependentService>, all: seq<DependentService>, rows: Table,
                                           id: Uint, r: ServiceRequest)
    requires id in rows && Lists(loaded, rows) && Overlaid(loaded, all, id, r)
    requires forall k | k in rows :: rows[k].id == k
    ensures Lists(all, rows[id := Overlay(rows[id], r)])
  {
    var overlaid := rows[id := Overlay(rows[id], r)];
    forall k | k in overlaid ensures overlaid[k] in all {
      var j :| 0 <= j < |loaded| && loaded[j] == rows[k];
      assert all[j] == overlaid[k];
    }
  }

  /** The overwritten slice describes the table with the service's dependencies replaced. */
  lemma {:induction false} OverlaidGraph(rows: Table, loaded: seq<DependentService>, all: seq<DependentService>,
                                         id: Uint, r: ServiceRequest)
    requires Filed(rows) && id in rows && WellFormed(r)
    requires Lists(loaded, rows) && Overlaid(loaded, all, id, r)
    ensures Decodable(all) && GraphOf(all) == TableGraph(rows)[id := SortedUnique(r.edges)]
  {
    var overlaid := rows[id := Overlay(rows[id], r)];
    EdgesOfRequest(r);
    OverlaidListing(loaded, all, rows, id, r);
    RowChangesGraph(rows, id, Overlay(rows[id], r));
    ListingKeepsGraph(all, overlaid);
    forall s | s in all ensures s.edges.Listed? {
      assert overlaid[s.id] == s;
    }
  }

  /** The update's check passes exactly when no cycle avoids the service and no new dependency leads back to it. */
  lemma {:induction false} UpdateCheckIsExact(rows: Table, loaded: seq<DependentService>, all: seq<DependentService>,
                                              id: Uint, r: ServiceRequest)
    requires Intact(rows) && id in rows && WellFormed(r) && Known(TableGraph(rows), r.edges)
    requires Lists(loaded, rows) && Overlaid(loaded, all, id, r)
    ensures Decodable(all)
    ensures Sound(GraphOf(all)) <==> Acyclic(TableGraph(rows)[id := []]) && !LeadsTo(TableGraph(rows), r.edges, id)
    ensures GraphOf(all) == TableGraph(rows)[id := SortedUnique(r.edges)]
  {
    var g, edges := TableGraph(rows), SortedUnique(r.edges);
    OverlaidGraph(rows, loaded, all, id, r);
    EdgesOfRequest(r);
    RewiringAnyGraphIff(g, id, edges);
    RewiringKeepsClosed(g, id, edges);
  }

  lemma {:induction false} RewiringKeepsClosed(g: Graph, id: Uint, edges: seq<Uint>)
    requires Closed(g) && id in g && Known(g, edges)
    ensures Closed(g[id := edges])
  {
    var h := g[id := edges];
    forall v, d | v in h && d in h[v] ensures d in h {
      assert v == id || (v in g && d in g[v]);
    }
  }

  // ----- which writes are accepted

  /** What Create checks before it looks for a cycle; the unique code is the database's to refuse. */
  ghost predicate CreateChecks(rows: Table, r: ServiceRequest, actor: Actor, chains: set<Uint>, anchors: set<Uint>) {
    WellFormed(r) && UsableCode(r.code) && MayModify(actor, r.ownerTeam) && ReferencesExist(rows, r, chains, anchors)
  }

  ghost predicate CreateAccepts(rows: Table, r: ServiceRequest, actor: Actor, chains: set<Uint>, anchors: set<Uint>) {
    CreateChecks(rows, r, actor, chains, anchors) && !CodeTaken(rows, r.code)
  }

  ghost predicate CodeTaken(rows: Table, code: string) {
    exists id :: id in rows && rows[id].code == code
  }

  /** What Update checks before it looks for a cycle. */
  ghost predicate UpdateChecks(rows: Table, id: Uint, r: ServiceRequest, actor: Actor, chains: set<Uint>,
                               anchors: set<Uint>)
  {
    && WellFormed(r) && id in rows && MayModify(actor, rows[id].ownerTeam)
    && (actor.role == "service_owner" ==> r.ownerTeam == actor.team)
    && ReferencesExist(rows, r, chains, anchors)
  }

  ghost predicate UpdateAccepts(rows: Table, id: Uint, r: ServiceRequest, actor: Actor, chains: set<Uint>,
                                anchors: set<Uint>)
  {
    UpdateChecks(rows, id, r, actor, chains, anchors) && !LeadsTo(TableGraph(rows), r.edges, id)
  }

  ghost predicate DeactivateAccepts(rows: Table, id: Uint, actor: Actor) {
    id in rows && MayModify(actor, rows[id].ownerTeam) && rows[id].state == "active"
  }

  datatype Write =
    | Creating(newId: Uint, request: ServiceRequest, actor: Actor, chains: set<Uint>, anchors: set<Uint>)
    | Updating(id: Uint, request: ServiceRequest, actor: Actor, chains: set<Uint>, anchors: set<Uint>)
    | Deactivating(id: Uint, actor: Actor)

  /** The checks on request, rights and references. */
  ghost predicate PassesChecks(rows: Table, w: Write) {
    match w
    case Creating(_, r, actor, chains, anchors) => CreateChecks(rows, r, actor, chains, anchors)
    case Updating(id, r, actor, chains, anchors) => UpdateChecks(rows, id, r, actor, chains, anchors)
    case Deactivating(id, actor) => DeactivateAccepts(rows, id, actor)
  }

  /** The check for cycles, which reads the table again. */
  ghost predicate PassesCycleCheck(rows: Table, w: Write) {
    match w
    case Creating(_, r, _, _, _) => Sound(TableGraph(rows)[PLACEHOLDER := SortedUnique(r.edges)])
    case Updating(id, r, _, _, _) => Sound(TableGraph(rows)[id := SortedUnique(r.edges)])
    case Deactivating(_, _) => true
  }

  /** What a request checks before its transaction. */
  ghost predicate Checked(rows: Table, w: Write) {
    PassesChecks(rows, w) && PassesCycleCheck(rows, w)
  }

  /** What its transaction then does, whatever the table has become. */
  ghost function Committed(rows: Table, w: Write): Table {
    match w
    case Creating(newId, r, _, _, _) => if CodeTaken(rows, r.code) then rows else rows[newId := NewRow(newId, r)]
    case Updating(id, r, _, _, _) => if id in rows then rows[id := UpdatedRow(rows[id], r)] else rows
    case Deactivating(id, _) =>
      if id in rows && rows[id].state == "active" then rows[id := rows[id].(state := "inactive")] else rows
  }

  /** One request served to its end: the new table if accepted, else the same one. */
  ghost function Served(rows: Table, w: Write): Table {
    if Checked(rows, w) then Committed(rows, w) else rows
  }

  /** The database hands out identifiers it has not used. */
  ghost predicate Assignable(rows: Table, w: Write) {
    w.Creating? ==> w.newId !in rows && 0 < w.newId <= MAX_ROW_ID
  }

  // ----- what checks and transactions do to the graph

  /** What stays true of a checked write while others are served: rows are never removed. */
  ghost predicate Fits(rows: Table, w: Write) {
    match w
    case Creating(_, r, _, _, _) => WellFormed(r) && Known(TableGraph(rows), r.edges)
    case Updating(id, r, _, _, _) => WellFormed(r) && id in rows && Known(TableGraph(rows), r.edges)
    case Deactivating(id, _) => id in rows
  }

  /** The edges an update is about to write lead back to its service in the table as it is now. */
  ghost predicate LeadsBack(rows: Table, w: Write) {
    w.Updating? && LeadsTo(TableGraph(rows), w.request.edges, w.id)
  }

  /** What cycles there are go through the service an update is about to rewire; for other writes, there are none. */
  ghost predicate NoOtherCycle(rows: Table, w: Write) {
    Acyclic(if w.Updating? then TableGraph(rows)[w.id := []] else TableGraph(rows))
  }

  /**
   * One cycle, however it came about, blocks every creation, and every update except one that breaks it. On a valid
   * table no creation is blocked, and an update only if its new edges lead back.
   */
  lemma {:induction false} CycleCheckPassesIff(rows: Table, w: Write)
    requires Intact(rows) && Fits(rows, w)
    ensures PassesCycleCheck(rows, w) <==> w.Deactivating? || (NoOtherCycle(rows, w) && !LeadsBack(rows, w))
    ensures ValidTable(rows) ==> (PassesCycleCheck(rows, w) <==> !LeadsBack(rows, w))
  {
    var g := TableGraph(rows);
    match w
    case Creating(_, r, _, _, _) =>
      EdgesOfRequest(r);
      KeysAreNodes(g);
      FreshVertexVerdict(g, PLACEHOLDER, SortedUnique(r.edges));
    case Updating(id, r, _, _, _) =>
      EdgesOfRequest(r);
      RewiringAnyGraphIff(g, id, SortedUnique(r.edges));
      RewiringKeepsClosed(g, id, SortedUnique(r.edges));
      if Acyclic(g) { BareIsAcyclic(g, id); }
    case Deactivating(_, _) =>
  }

  lemma FiledStays(rows: Table, w: Write)
    requires Filed(rows) && Assignable(rows, w)
    ensures Filed(Committed(rows, w))
    ensures rows.Keys <= Committed(rows, w).Keys
  {
  }

  lemma {:induction false} ClosedStays(rows: Table, w: Write)
    requires Closed(TableGraph(rows)) && Fits(rows, w) && Assignable(rows, w)
    ensures Closed(TableGraph(Committed(rows, w)))
  {
    match w
    case Creating(newId, r, _, _, _) =>
      CreatedGraph(rows, newId, r);
      KeysAreNodes(TableGraph(rows));
      ClosedAfterAdding(TableGraph(rows), newId, SortedUnique(r.edges));
    case Updating(id, r, _, _, _) =>
      UpdatedGraph(rows, id, r);
      RewiringKeepsClosed(TableGraph(rows), id, SortedUnique(r.edges));
    case Deactivating(id, _) =>
      DeactivatedGraph(rows, id);
  }

  /** However stale its check, a transaction keeps identifiers, unique codes and known dependencies. */
  lemma {:induction false} CommitKeepsIntact(rows: Table, w: Write)
    requires Intact(rows) && Fits(rows, w) && Assignable(rows, w)
    ensures Intact(Committed(rows, w))
    ensures rows.Keys <= Committed(rows, w).Keys
  {
    FiledStays(rows, w);
    ClosedStays(rows, w);
  }

  /** It leaves the table sound exactly when the cycle check, made on the table as it is now, would pass. */
  lemma {:induction false} CommitIsSoundIff(rows: Table, w: Write)
    requires Intact(rows) && Fits(rows, w) && Assignable(rows, w)
    ensures ValidTable(Committed(rows, w)) <==> NoOtherCycle(rows, w) && !LeadsBack(rows, w)
  {
    CommitKeepsIntact(rows, w);
    match w
    case Creating(newId, r, _, _, _) =>
      CreatedGraph(rows, newId, r);
      KeysAreNodes(TableGraph(rows));
      FreshVertexVerdict(TableGraph(rows), newId, SortedUnique(r.edges));
    case Updating(id, r, _, _, _) =>
      UpdatedGraph(rows, id, r);
      RewiringAnyGraphIff(TableGraph(rows), id, SortedUnique(r.edges));
    case Deactivating(id, _) =>
      DeactivatedGraph(rows, id);
  }

  /** Served alone, a write that passes leaves the table sound, unless it is a deactivation on a cyclic one. */
  lemma {:induction false} ServedKeepsSound(rows: Table, w: Write)
    requires Intact(rows) && Assignable(rows, w)
    ensures Intact(Served(rows, w))
    ensures Checked(rows, w) && !w.Deactivating? ==> ValidTable(Served(rows, w))
    ensures ValidTable(rows) ==> ValidTable(Served(rows, w))
  {
    if Checked(rows, w) {
      CycleCheckPassesIff(rows, w);
      CommitKeepsIntact(rows, w);
      CommitIsSoundIff(rows, w);
    }
  }

  ghost function ServedAll(rows: Table, writes: seq<Write>): Table {
    if writes == [] then rows else Served(ServedAll(rows, writes[..|writes| - 1]), writes[|writes| - 1])
  }

  /** From an empty table, any sequence of serial writes leaves the graph acyclic, closed and free of self-edges. */
  lemma {:induction false} SerialWritesKeepGraphSound(writes: seq<Write>)
    requires forall i | 0 <= i < |writes| :: Assignable(ServedAll(map[], writes[..i]), writes[i])
    ensures ValidTable(ServedAll(map[], writes))
    ensures forall v: Uint :: v !in Succ(TableGraph(ServedAll(map[], writes)), v)
  {
    if writes == [] {
      assert forall v: Uint :: Succ(TableGraph(map[]), v) == [];
    } else {
      var before := writes[..|writes| - 1];
      forall i | 0 <= i < |before| ensures Assignable(ServedAll(map[], before[..i]), before[i]) {
        assert before[..i] == writes[..i];
      }
      SerialWritesKeepGraphSound(before);
      ServedKeepsSound(ServedAll(map[], before), writes[|writes| - 1]);
    }
    var g := TableGraph(ServedAll(map[], writes));
    forall v: Uint ensures v !in Succ(g, v) {
      ReachesSelf(g, v);
      assert v in Succ(g, v) ==> OnCycle(g, v);
    }
  }

  class Store {
    var rows: Table
    var audits: seq<ServiceAudit>

    constructor ()
      ensures rows == map[] && audits == [] && ValidTable(rows)
    {
      rows, audits := map[], [];
      new;
      assert forall v: Uint :: Succ(TableGraph(rows), v) == [];
    }

    method All() returns (all: seq<DependentService>)
      requires forall id | id in rows :: rows[id].id == id
      ensures Lists(all, rows)
    {
      var todo := rows.Keys;
      var found: seq<DependentService> := [];
      while todo != {}
        invariant todo <= rows.Keys
        invariant forall s | s in found :: s.id in rows && rows[s.id] == s
        invariant forall id | id in rows && id !in todo :: rows[id] in found
        decreases todo
      {
        var id :| id in todo;
        found := found + [rows[id]];
        todo := todo - {id};
      }
      var slice := SliceOf(found);
      SortSlice(slice, (s: DependentService) => s.id as int);
      all := slice[..];
      forall s: DependentService ensures s in all <==> s in found {
        assert s in all <==> s in multiset(all);
        assert s in found <==> s in multiset(found);
      }
    }

    method ValidateReferences(serviceId: Uint, r: ServiceRequest, chains: set<Uint>, anchors: set<Uint>)
      returns (err: Option<WriteError>)
      requires WellFormed(r)
      ensures err.None? <==> ReferencesExist(rows, r, chains, anchors) && (serviceId != 0 ==> serviceId !in r.edges)
      ensures err == Some(ChainNotFound) <==> r.chainId !in chains
      ensures err == Some(AnchorNotFound) <==> r.chainId in chains && exists id :: id in r.trust && id !in anchors
      ensures err == Some(SelfDependency) ==> serviceId != 0 && serviceId in r.edges
      ensures err == Some(UnknownDependency) ==> exists id :: id in r.edges && id !in rows
      ensures err in {None, Some(ChainNotFound), Some(AnchorNotFound), Some(SelfDependency), Some(UnknownDependency)}
    {
      if r.chainId !in chains {
        return Some(ChainNotFound);
      }
      var trust := UniqueIds(r.trust);
      assert forall id: Uint :: id in r.trust <==> id in trust;
      if i :| 0 <= i < |trust| && trust[i] !in anchors {
        assert trust[i] in r.trust;
        return Some(AnchorNotFound);
      }
      var edges := UniqueIds(r.edges);
      assert forall id: Uint :: id in r.edges <==> id in edges;
      err := ValidateEdges(serviceId, edges);
      assert Known(TableGraph(rows), r.edges) <==> forall id | id in edges :: id in rows;
    }

    method ValidateEdges(serviceId: Uint, edges: seq<Uint>) returns (err: Option<WriteError>)
      ensures err.None? <==> (forall id | id in edges :: id in rows) && (serviceId != 0 ==> serviceId !in edges)
      ensures err == Some(SelfDependency) ==> serviceId != 0 && serviceId in edges
      ensures err == Some(UnknownDependency) ==> exists id :: id in edges && id !in rows
      ensures err in {None, Some(SelfDependency), Some(UnknownDependency)}
    {
      for i := 0 to |edges|
        invariant forall j | 0 <= j < i :: edges[j] in rows && (serviceId != 0 ==> edges[j] != serviceId)
      {
        if edges[i] == serviceId && serviceId != 0 {
          return Some(SelfDependency);
        }
        if edges[i] !in rows {
          return Some(UnknownDependency);
        }
      }
      return None;
    }

    /** Loads the table, appends the new service under the placeholder and looks for a cycle. */
    method CreateWouldBeCyclic(r: ServiceRequest, ghost newId: Uint) returns (cyclic: bool)
      requires Intact(rows) && WellFormed(r) && Known(TableGraph(rows), r.edges) && newId !in rows
      ensures cyclic <==> !Acyclic(TableGraph(rows))
    {
      var all := All();
      CreateCheckIsExact(rows, all, r, newId);
      var candidate := all + [NewRow(PLACEHOLDER, r)];
      var cycle := ServicesContainCycle(candidate);
      return cycle.Some?;
    }

    /** Loads the table, overwrites the service's entry and looks for a cycle. */
    method UpdateWouldBeCyclic(id: Uint, r: ServiceRequest) returns (cyclic: bool)
      requires Intact(rows) && id in rows && WellFormed(r) && Known(TableGraph(rows), r.edges)
      ensures cyclic <==> !Acyclic(TableGraph(rows)[id := []]) || LeadsTo(TableGraph(rows), r.edges, id)
    {
      var all := All();
      ghost var loaded := all;
      all := OverlayLoaded(all, id, r);
      UpdateCheckIsExact(rows, loaded, all, id, r);
      var cycle := ServicesContainCycle(all);
      return cycle.Some?;
    }

    /** Everything Create checks before its transaction. */
    method CheckCreate(r: ServiceRequest, actor: Actor, ghost newId: Uint, chains: set<Uint>, anchors: set<Uint>)
      returns (err: Option<WriteError>)
      requires Intact(rows) && newId !in rows
      ensures err.None? <==> CreateChecks(rows, r, actor, chains, anchors) && Acyclic(TableGraph(rows))
      ensures err == Some(InvalidRequest) <==> !WellFormed(r) || !UsableCode(r.code)
      ensures err == Some(Forbidden) <==>
                && WellFormed(r) && UsableCode(r.code) && actor.role !in {"admin", "pki_operator"}
                && !(actor.role == "service_owner" && actor.team == r.ownerTeam)
      ensures err == Some(WouldBeCyclic) <==>
                CreateChecks(rows, r, actor, chains, anchors) && !Acyclic(TableGraph(rows))
      ensures err != Some(DuplicateCode)
    {
      if !WellFormed(r) || !UsableCode(r.code) {
        return Some(InvalidRequest);
      }
      if !MayModify(actor, r.ownerTeam) {
        return Some(Forbidden);
      }
      err := ValidateReferences(0, r, chains, anchors);
      if err.Some? {
        return err;
      }
      var cyclic := CreateWouldBeCyclic(r, newId);
      return if cyclic then Some(WouldBeCyclic) else None;
    }

    /** Succeeds exactly when request, references and code are in order and the table has no cycle. */
    method Create(r: ServiceRequest, actor: Actor, newId: Uint, chains: set<Uint>, anchors: set<Uint>)
      returns (result: Result<Uint, WriteError>)
      requires Intact(rows) && newId !in rows && 0 < newId <= MAX_ROW_ID
      modifies this
      ensures Intact(rows) && rows == Served(old(rows), Creating(newId, r, actor, chains, anchors))
      ensures result.Ok? <==> CreateAccepts(old(rows), r, actor, chains, anchors) && Acyclic(TableGraph(old(rows)))
      ensures result == Err(InvalidRequest) <==> !WellFormed(r) || !UsableCode(r.code)
      ensures result == Err(Forbidden) <==>
                && WellFormed(r) && UsableCode(r.code) && actor.role !in {"admin", "pki_operator"}
                && !(actor.role == "service_owner" && actor.team == r.ownerTeam)
      ensures result == Err(DuplicateCode) <==>
                && CreateChecks(old(rows), r, actor, chains, anchors) && Acyclic(TableGraph(old(rows)))
                && CodeTaken(old(rows), r.code)
      ensures result == Err(WouldBeCyclic) <==>
                CreateChecks(old(rows), r, actor, chains, anchors) && !Acyclic(TableGraph(old(rows)))
      ensures result.Ok? ==>
              && result.value == newId && ValidTable(rows) && newId in rows
              && rows == old(rows)[newId := rows[newId]] && HoldsRequest(rows[newId], r)
              && rows[newId].id == newId && rows[newId].code == r.code && rows[newId].state == "active"
              && audits == old(audits) + [ServiceAudit(newId, "create", actor.userId, None, rows[newId])]
      ensures result.Err? ==> rows == old(rows) && audits == old(audits)
    {
      ghost var write := Creating(newId, r, actor, chains, anchors);
      if Fits(rows, write) {
        CycleCheckPassesIff(rows, write);
      }
      var err := CheckCreate(r, actor, newId, chains, anchors);
      if err.Some? {
        return Err(err.value);
      }
      if id :| id in rows && rows[id].code == r.code {
        return Err(DuplicateCode);
      }
      ServedKeepsSound(rows, write);
      NewRowHoldsRequest(newId, r);
      rows := rows[newId := NewRow(newId, r)];
      audits := audits + [ServiceAudit(newId, "create", actor.userId, None, rows[newId])];
      return Ok(newId);
    }

    /** Everything Update checks before its transaction. */
    method CheckUpdate(id: Uint, r: ServiceRequest, actor: Actor, chains: set<Uint>, anchors: set<Uint>)
      returns (err: Option<WriteError>)
      requires Intact(rows)
      ensures err.None? <==>
                UpdateAccepts(rows, id, r, actor, chains, anchors) && Acyclic(TableGraph(rows)[id := []])
      ensures err == Some(InvalidRequest) <==> !WellFormed(r)
      ensures err == Some(NotFound) <==> WellFormed(r) && id !in rows
      ensures err == Some(Forbidden) <==>
                && WellFormed(r) && id in rows && actor.role !in {"admin", "pki_operator"}
                && !(actor.role == "service_owner" && actor.team == rows[id].ownerTeam == r.ownerTeam)
    {
      if !WellFormed(r) {
        return Some(InvalidRequest);
      }
      if id !in rows {
        return Some(NotFound);
      }
      var current := rows[id];
      if !MayModify(actor, current.ownerTeam) {
        return Some(Forbidden);
      }
      if actor.role == "service_owner" && r.ownerTeam != actor.team {
        return Some(Forbidden);
      }
      ReachesSelf(TableGraph(rows), id);
      err := ValidateReferences(id, r, chains, anchors);
      if err.Some? {
        return err;
      }
      var cyclic := UpdateWouldBeCyclic(id, r);
      return if cyclic then Some(WouldBeCyclic) else None;
    }

    /**
     * Succeeds exactly when request and references are in order, no new dependency leads back to the service and every
     * cycle the table may have goes through it.
     */
    method Update(id: Uint, r: ServiceRequest, actor: Actor, chains: set<Uint>, anchors: set<Uint>)
      returns (result: Result<Uint, WriteError>)
      requires Intact(rows)
      modifies this
      ensures Intact(rows) && rows == Served(old(rows), Updating(id, r, actor, chains, anchors))
      ensures result.Ok? <==>
                UpdateAccepts(old(rows), id, r, actor, chains, anchors) && Acyclic(TableGraph(old(rows))[id := []])
      ensures result == Err(InvalidRequest) <==> !WellFormed(r)
      ensures result == Err(NotFound) <==> WellFormed(r) && id !in old(rows)
      ensures result == Err(Forbidden) <==>
                && WellFormed(r) && id in old(rows) && actor.role !in {"admin", "pki_operator"}
                && !(actor.role == "service_owner" && actor.team == old(rows)[id].ownerTeam == r.ownerTeam)
      ensures result.Ok? ==>
              && result.value == id && ValidTable(rows) && id in rows
              && rows == old(rows)[id := rows[id]] && HoldsRequest(rows[id], r)
              && rows[id].id == id && rows[id].code == old(rows)[id].code && rows[id].state == old(rows)[id].state
              && audits == old(audits) + [ServiceAudit(id, "update", actor.userId, Some(old(rows)[id]), rows[id])]
      ensures result.Err? ==> rows == old(rows) && audits == old(audits)
    {
      ghost var write := Updating(id, r, actor, chains, anchors);
      if Fits(rows, write) {
        CycleCheckPassesIff(rows, write);
      }
      var err := CheckUpdate(id, r, actor, chains, anchors);
      if err.Some? {
        return Err(err.value);
      }
      ServedKeepsSound(rows, write);
      UpdatedRowHoldsRequest(rows[id], r);
      var current := rows[id];
      rows := rows[id := UpdatedRow(current, r)];
      audits := audits + [ServiceAudit(id, "update", actor.userId, Some(current), rows[id])];
      return Ok(id);
    }

    /** The loop that overwrites the service's entry in the loaded slice. */
    static method OverlayLoaded(loaded: seq<DependentService>, id: Uint, r: ServiceRequest)
      returns (all: seq<DependentService>)
      ensures Overlaid(loaded, all, id, r)
    {
      var trust := UniqueIds(r.trust);
      var dependencies := UniqueIds(r.edges);
      all := loaded;
      for i := 0 to |all|
        invariant |all| == |loaded|
        invariant forall j | 0 <= j < |all| ::
                    all[j] == if j < i && loaded[j].id == id then Overlay(loaded[j], r) else loaded[j]
      {
        if all[i].id == id {
          all := all[i := all[i].(chainId := r.chainId, trust := Listed(trust), edges := Listed(dependencies))];
        }
      }
    }

    method Deactivate(id: Uint, actor: Actor) returns (result: Result<Uint, WriteError>)
      modifies this
      ensures rows == Served(old(rows), Deactivating(id, actor)) && (Filed(old(rows)) ==> Filed(rows))
      ensures TableGraph(rows) == TableGraph(old(rows))
      ensures result.Ok? <==> DeactivateAccepts(old(rows), id, actor)
      ensures result == Err(NotFound) <==> id !in old(rows)
      ensures result == Err(Forbidden) <==>
                && id in old(rows) && actor.role !in {"admin", "pki_operator"}
                && !(actor.role == "service_owner" && actor.team == old(rows)[id].ownerTeam)
      ensures result == Err(AlreadyInactive) <==>
                && id in old(rows) && old(rows)[id].state != "active"
                && (actor.role in {"admin", "pki_operator"}
                    || (actor.role == "service_owner" && actor.team == old(rows)[id].ownerTeam))
      ensures result.Ok? ==>
              && result.value == id
              && rows == old(rows)[id := old(rows)[id].(state := "inactive")]
              && audits == old(audits) + [ServiceAudit(id, "deactivate", actor.userId, Some(old(rows)[id]), rows[id])]
      ensures result.Err? ==> rows == old(rows) && audits == old(audits)
    {
      if id !in rows {
        return Err(NotFound);
      }
      var current := rows[id];
      if !MayModify(actor, current.ownerTeam) {
        return Err(Forbidden);
      }
      if current.state != "active" {
        return Err(AlreadyInactive);
      }
      DeactivatedGraph(rows, id);
      rows := rows[id := current.(state := "inactive")];
      audits := audits + [ServiceAudit(id, "deactivate", actor.userId, Some(current), rows[id])];
      return Ok(id);
    }
  }
}
