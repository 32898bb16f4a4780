/** From the stored dependency table to the graph a scenario freezes. */
module FrozenTables {
  import opened Prelude
  import opened Graphs
  import opened Sorting
  import opened Snapshots
  import opened StoredGraph
  import opened ServiceStore
  import Reports

  lemma {:induction false} FrozenServiceHasStoredEdges(rows: Table, all: seq<DependentService>, s: Snapshot,
                                                       service: ServiceSnapshot)
    requires Filed(rows) && Lists(all, rows)
    requires multiset(s.services) == multiset(NormalizeAll(Freeze(all))) && service in s.services
    ensures service.id in rows && service.dependencyIds == TableGraph(rows)[service.id]
  {
    assert service in multiset(NormalizeAll(Freeze(all)));
    var k :| 0 <= k < |all| && NormalizeAll(Freeze(all))[k] == service;
    assert all[k] in all;
    SortedUniqueIsCanonical(all[k].edges.ids, all[k].edges.ids);
  }

  lemma {:induction false} StoredServiceIsFrozen(rows: Table, all: seq<DependentService>, s: Snapshot, id: Uint)
    requires Filed(rows) && Lists(all, rows) && id in rows
    requires multiset(s.services) == multiset(NormalizeAll(Freeze(all)))
    ensures id in ServicesById(s.services)
  {
    Reports.ServicesByIdComesFromList(s.services);
    var k :| 0 <= k < |all| && all[k] == rows[id];
    var service := NormalizeAll(Freeze(all))[k];
    assert service in multiset(s.services);
  }

  lemma {:induction false} FrozenEdgesAreStored(rows: Table, all: seq<DependentService>, s: Snapshot)
    requires Filed(rows) && Lists(all, rows)
    requires multiset(s.services) == multiset(NormalizeAll(Freeze(all)))
    ensures forall id | id in ServicesById(s.services) ::
              id in rows && ServicesById(s.services)[id].dependencyIds == TableGraph(rows)[id]
  {
    var byId := ServicesById(s.services);
    Reports.ServicesByIdComesFromList(s.services);
    forall id | id in byId ensures id in rows && byId[id].dependencyIds == TableGraph(rows)[id] {
      FrozenServiceHasStoredEdges(rows, all, s, byId[id]);
    }
  }

  /**
   * The dependency graph of a scenario is the stored one, whatever overlapping writes have made of it: creation meets a
   * cycle only if the table has one, and never after serial writes.
   */
  lemma {:induction false} FreezingKeepsTheStoredGraph(
    rows: Table, all: seq<DependentService>, config: ScenarioConfig, anchors: seq<AnchorSnapshot>,
    chains: seq<ChainSnapshot>, s: Snapshot)
    requires Filed(rows) && Lists(all, rows)
    requires Frozen(config, anchors, chains, Freeze(all), s)
    ensures Edges(ServicesById(s.services)) == TableGraph(rows)
    ensures ValidTable(rows) ==> Acyclic(Edges(ServicesById(s.services)))
  {
    FrozenEdgesAreStored(rows, all, s);
    forall id | id in rows ensures id in ServicesById(s.services) {
      StoredServiceIsFrozen(rows, all, s, id);
    }
    assert Edges(ServicesById(s.services)) == TableGraph(rows);
  }
}
