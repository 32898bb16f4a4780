/** The stored dependency table, its own cycle check, and how it becomes the services of a frozen snapshot. */
module StoredGraph {
  import opened Prelude
  import opened Graphs
  import opened Sorting
  import opened Rewiring
  import opened CycleDetection
  import Snapshots

  /** The content of a text column holding a JSON identifier list. */
  datatype IdList = Malformed | Listed(ids: seq<Uint>)

  datatype DependentService = DependentService(
    id: Uint, code: string, name: string, ownerTeam: string, environment: string, chainId: Uint, trust: IdList,
    protocol: string, criticality: string, edges: IdList, state: string)

  datatype GraphError =
    | ListMalformed(serviceId: Uint)
    | CycleThrough(serviceId: Uint)
    | DependencyMissing(serviceId: Uint)

  /** decodeUintList on a well-formed column. */
  function Decoded(raw: IdList): seq<Uint> {
    if raw.Listed? then SortedUnique(raw.ids) else []
  }

  ghost predicate Decodable(services: seq<DependentService>) {
    forall service | service in services :: service.edges.Listed?
  }

  /** The adjacency map: later rows win. */
  function GraphOf(services: seq<DependentService>): Graph {
    if services == [] then map[]
    else
      var last := services[|services| - 1];
      GraphOf(services[..|services| - 1])[last.id := Decoded(last.edges)]
  }

  /** Of several rows with one identifier the last counts. */
  lemma {:induction false} LastRowCounts(services: seq<DependentService>, k: nat)
    requires k < |services| && forall j | k < j < |services| :: services[j].id != services[k].id
    ensures services[k].id in GraphOf(services) && GraphOf(services)[services[k].id] == Decoded(services[k].edges)
  {
    if k < |services| - 1 {
      LastRowCounts(services[..|services| - 1], k);
    }
  }

  /** The second closure `visit`: it also stops at an edge to an unknown service. */
  class GraphChecker {
    const edges: Graph
    var state: Colours

    constructor (edges: Graph)
      ensures this.edges == edges && state == map[]
    {
      this.edges := edges;
      state := map[];
    }

    method Visit(id: Uint, ghost stack: seq<Uint>) returns (err: Option<GraphError>)
      requires Coloured(edges, state, stack) && state.Keys <= edges.Keys
      requires id in edges && Extends(edges, stack, id)
      modifies this`state
      ensures err.None? ==> Coloured(edges, state, stack) && state.Keys <= edges.Keys
      ensures err.None? ==> id in Black(state) && old(Black(state)) <= Black(state)
      ensures old(state.Keys) <= state.Keys
      ensures err.Some? ==> GraphErrorIsReal(edges, err.value)
      decreases edges.Keys - state.Keys
    {
      if id in state && state[id] == 1 {
        GreyOnCycle(edges, state, stack, id);
        return Some(CycleThrough(id));
      }
      if id in state && state[id] == 2 {
        return None;
      }
      Enter(edges, state, stack, id);
      state := state[id := 1];
      ghost var below := stack + [id];
      var next := edges[id];
      for i := 0 to |next|
        invariant Coloured(edges, state, below) && state.Keys <= edges.Keys
        invariant old(Black(state)) <= Black(state)
        invariant old(state.Keys) + {id} <= state.Keys
        invariant forall j | 0 <= j < i :: next[j] in Black(state)
      {
        if next[i] !in edges {
          assert next[i] in edges[id];
          return Some(DependencyMissing(next[i]));
        }
        err := Visit(next[i], below);
        if err.Some? {
          return err;
        }
      }
      Leave(edges, state, stack, id);
      state := state[id := 2];
      return None;
    }

    method Check() returns (err: Option<GraphError>)
      modifies this`state
      ensures err.None? <==> Sound(edges)
      ensures err.Some? ==> GraphErrorIsReal(edges, err.value)
    {
      state := map[];
      var todo := edges.Keys;
      while todo != {}
        invariant Coloured(edges, state, []) && state.Keys <= edges.Keys
        invariant todo <= edges.Keys
        invariant edges.Keys - todo <= Black(state)
        decreases todo
      {
        var id :| id in todo;
        err := Visit(id, []);
        if err.Some? {
          return;
        }
        todo := todo - {id};
      }
      AllFinished(edges, state);
      return None;
    }
  }

  ghost predicate GraphErrorIsReal(g: Graph, err: GraphError) {
    match err
    case ListMalformed(_) => false
    case CycleThrough(id) => OnCycle(g, id)
    case DependencyMissing(d) => d !in g && exists v :: v in g && d in g[v]
  }

  method ServicesContainCycle(services: seq<DependentService>) returns (err: Option<GraphError>)
    ensures err.None? <==> Decodable(services) && Sound(GraphOf(services))
    ensures err.Some? ==>
              if err.value.ListMalformed?
              then exists service ::
                     service in services && service.id == err.value.serviceId && service.edges.Malformed?
              else GraphErrorIsReal(GraphOf(services), err.value)
  {
    var edges: Graph := map[];
    for i := 0 to |services|
      invariant edges == GraphOf(services[..i])
      invariant forall j | 0 <= j < i :: services[j].edges.Listed?
    {
      assert services[..i + 1][..i] == services[..i];
      match services[i].edges
      case Malformed =>
        assert services[i] in services;
        return Some(ListMalformed(services[i].id));
      case Listed(values) =>
        var ids := UniqueIds(values);
        edges := edges[services[i].id := ids];
    }
    assert services[..|services|] == services;
    var checker := new GraphChecker(edges);
    err := checker.Check();
  }

  // ----- freezing the table

  /** The services part of buildSnapshot, before normalisation. */
  function Freeze(services: seq<DependentService>): seq<Snapshots.ServiceSnapshot> {
    seq(|services|, i requires 0 <= i < |services| => FreezeOne(services[i]))
  }

  function FreezeOne(s: DependentService): Snapshots.ServiceSnapshot {
    Snapshots.ServiceSnapshot(s.id, s.code, s.chainId, Decoded(s.trust), Decoded(s.edges), s.criticality, s.state)
  }

  /** The list holds exactly the non-zero identifiers of the column, in ascending order. */
  ghost predicate HoldsIds(ids: seq<Uint>, column: IdList) {
    column.Listed? && Ascending(ids) && forall id :: id in ids <==> id > 0 && id in column.ids
  }

  ghost predicate FreezesRow(row: DependentService, s: Snapshots.ServiceSnapshot) {
    && s.id == row.id && s.code == row.code && s.chainId == row.chainId && s.criticality == row.criticality
    && s.state == row.state && HoldsIds(s.trustAnchorIds, row.trust) && HoldsIds(s.dependencyIds, row.edges)
  }

  method BuildServices(services: seq<DependentService>) returns (r: Result<seq<Snapshots.ServiceSnapshot>, Uint>)
    ensures r.Ok? <==> forall s | s in services :: s.trust.Listed? && s.edges.Listed?
    ensures r.Ok? ==> r.value == Freeze(services)
    ensures r.Ok? ==>
              |r.value| == |services| && forall i | 0 <= i < |services| :: FreezesRow(services[i], r.value[i])
    ensures r.Err? ==> exists s :: s in services && s.id == r.error && (s.trust.Malformed? || s.edges.Malformed?)
  {
    var frozen := [];
    for i := 0 to |services|
      invariant frozen == Freeze(services[..i])
      invariant forall j | 0 <= j < i :: services[j].trust.Listed? && services[j].edges.Listed?
    {
      var service := services[i];
      if service.trust.Malformed? || service.edges.Malformed? {
        assert service in services;
        return Err(service.id);
      }
      var trust := UniqueIds(service.trust.ids);
      var dependencies := UniqueIds(service.edges.ids);
      frozen := frozen + [Snapshots.ServiceSnapshot(service.id, service.code, service.chainId, trust, dependencies,
                                                    service.criticality, service.state)];
    }
    assert services[..|services|] == services;
    return Ok(frozen);
  }

  lemma {:induction false} FreezeKeepsGraph(services: seq<DependentService>)
    ensures Snapshots.Edges(Snapshots.ServicesById(Freeze(services))) == GraphOf(services)
  {
    if services != [] {
      FreezeKeepsGraph(services[..|services| - 1]);
      assert Freeze(services)[..|services| - 1] == Freeze(services[..|services| - 1]);
    }
  }

  /** On one table the two checks see one graph, and disagree only when an edge leads to an unknown service. */
  lemma {:induction false} ChecksAgreeOnClosedTables(services: seq<DependentService>)
    requires Decodable(services)
    ensures Acyclic(Snapshots.Edges(Snapshots.ServicesById(Freeze(services)))) && Closed(GraphOf(services))
       <==> Sound(GraphOf(services))
  {
    FreezeKeepsGraph(services);
  }
}
