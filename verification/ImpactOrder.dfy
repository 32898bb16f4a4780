/** Loosening a plan never makes it worse. */
module ImpactOrder {
  import opened Prelude
  import opened Graphs
  import opened Snapshots
  import opened DirectPaths
  import opened Resolution
  import opened Simulation
  import opened Reports

  ghost predicate Within(a: seq<Uint>, b: seq<Uint>) {
    forall id | id in a :: id in b
  }

  /** Same service, larger trust set, fewer dependencies. */
  ghost predicate ServiceRelaxes(a: ServiceSnapshot, b: ServiceSnapshot) {
    && b.id == a.id && b.chainId == a.chainId && b.state == a.state
    && Within(a.trustAnchorIds, b.trustAnchorIds) && Within(b.dependencyIds, a.dependencyIds)
  }

  ghost predicate ServicesRelax(a: seq<ServiceSnapshot>, b: seq<ServiceSnapshot>) {
    |a| == |b| && forall i | 0 <= i < |a| :: ServiceRelaxes(a[i], b[i])
  }

  ghost predicate ChainsExtend(a: map<Uint, ChainSnapshot>, b: map<Uint, ChainSnapshot>) {
    forall id | id in a :: id in b && b[id] == a[id]
  }

  /** `b` is `a` with larger trust sets, more chains, more candidates or fewer dependency edges. */
  ghost predicate Relaxes(a: Snapshot, b: Snapshot) {
    && b.config == a.config.(candidateChainIds := b.config.candidateChainIds, name := b.config.name)
    && Within(a.config.candidateChainIds, b.config.candidateChainIds)
    && ChainsExtend(ChainsById(a.chains), ChainsById(b.chains))
    && ServicesRelax(a.services, b.services)
  }

  lemma {:induction false} DirectOfIsMonotone(
    a: seq<ServiceSnapshot>, b: seq<ServiceSnapshot>, at: Time, active: set<Uint>, ca: seq<Uint>, cb: seq<Uint>,
    chainsA: map<Uint, ChainSnapshot>, chainsB: map<Uint, ChainSnapshot>, id: Uint)
    requires ServicesRelax(a, b) && Within(ca, cb) && ChainsExtend(chainsA, chainsB)
    requires DirectOk(DirectOf(a, at, active, ca, chainsA), id)
    ensures DirectOk(DirectOf(b, at, active, cb, chainsB), id)
  {
    var last, last' := a[|a| - 1], b[|b| - 1];
    assert ServiceRelaxes(last, last');
    if last.state == "active" && last.id == id {
      DirectPicksLeastUsable(last, at, active, ca, chainsA);
      DirectPicksLeastUsable(last', at, active, cb, chainsB);
      var chosen := Direct(last, at, active, ca, chainsA).selectedChainId;
      assert Considered(last', cb, chosen) && Usable(last', at, active, chainsB, chosen);
    } else {
      DirectOfIsMonotone(a[..|a| - 1], b[..|b| - 1], at, active, ca, cb, chainsA, chainsB, id);
    }
  }

  lemma {:induction false} EdgesShrink(a: seq<ServiceSnapshot>, b: seq<ServiceSnapshot>)
    requires ServicesRelax(a, b)
    ensures Subgraph(Edges(ServicesById(b)), Edges(ServicesById(a)))
    ensures ServicesById(a).Keys == ServicesById(b).Keys
  {
    if a != [] {
      assert ServiceRelaxes(a[|a| - 1], b[|b| - 1]);
      EdgesShrink(a[..|a| - 1], b[..|b| - 1]);
      var ga, gb := Edges(ServicesById(a[..|a| - 1])), Edges(ServicesById(b[..|b| - 1]));
      forall v: Uint, d | d in Succ(Edges(ServicesById(b)), v) ensures d in Succ(Edges(ServicesById(a)), v) {
        assert v != b[|b| - 1].id ==> d in Succ(gb, v) && d in Succ(ga, v);
      }
    }
  }

  /** What was reachable stays reachable, at every instant. */
  lemma {:induction false} RelaxingKeepsReachability(a: Snapshot, b: Snapshot, id: Uint, at: Time)
    requires Relaxes(a, b) && TrulyReachable(a, id, at)
    ensures TrulyReachable(b, id, at)
  {
    var ga, gb := Edges(ServicesById(a.services)), Edges(ServicesById(b.services));
    EdgesShrink(a.services, b.services);
    forall n: Uint | Reaches(gb, id, n) ensures DirectOk(DirectAt(b, at), n) && !OnCycle(gb, n) {
      SubgraphReaches(gb, ga, id, n);
      DirectOfIsMonotone(a.services, b.services, at, ActiveAnchors(a.config, at), a.config.candidateChainIds,
                         b.config.candidateChainIds, ChainsById(a.chains), ChainsById(b.chains), n);
      if OnCycle(gb, n) {
        SubgraphCycle(gb, ga, n);
      }
    }
  }

  lemma {:induction false} ActiveServicesAgree(a: Snapshot, b: Snapshot, id: Uint)
    requires ServicesRelax(a.services, b.services) && ActiveService(b, id)
    ensures ActiveService(a, id)
  {
    var k :| 0 <= k < |b.services| && b.services[k].id == id && b.services[k].state == "active";
    assert ServiceRelaxes(a.services[k], b.services[k]);
  }

  lemma UnreachableWasUnreachable(a: Snapshot, b: Snapshot, id: Uint, at: Time)
    requires Relaxes(a, b) && !TrulyReachable(b, id, at)
    ensures !TrulyReachable(a, id, at)
  {
    if TrulyReachable(a, id, at) {
      RelaxingKeepsReachability(a, b, id, at);
    }
  }

  lemma SamePoints(a: Snapshot, b: Snapshot)
    requires Relaxes(a, b)
    ensures Points(a.config) == Points(b.config)
  {
  }

  /** Relaxing never adds an affected (service, instant) pair. */
  lemma {:induction false} RelaxingNeverAddsImpact(a: Snapshot, b: Snapshot, id: Uint, at: Time)
    requires Relaxes(a, b) && Reported(SimulationOf(b).findings, id, at)
    ensures Reported(SimulationOf(a).findings, id, at)
  {
    ReportedIffUnreachable(b, id, at);
    ActiveServicesAgree(a, b, id);
    UnreachableWasUnreachable(a, b, id, at);
    SamePoints(a, b);
    ReportedIffUnreachable(a, id, at);
  }

  /** Relaxing keeps an accepted snapshot accepted and a clean verdict clean. */
  lemma {:induction false} RelaxingKeepsAcceptance(a: Snapshot, b: Snapshot)
    requires Relaxes(a, b) && ValidSnapshot(a) && b.anchors == a.anchors
    requires forall id | id in b.config.candidateChainIds :: KnowsChain(b, id)
    ensures ValidSnapshot(b)
    ensures SimulationOf(a).explanation.AllReachable? ==> SimulationOf(b).explanation.AllReachable?
  {
    EdgesShrink(a.services, b.services);
    var ga, gb := Edges(ServicesById(a.services)), Edges(ServicesById(b.services));
    forall v: Uint ensures !OnCycle(gb, v) {
      if OnCycle(gb, v) {
        SubgraphCycle(gb, ga, v);
      }
    }
    assert KnowsAnchor(b, b.config.oldAnchorId) && KnowsAnchor(b, b.config.newAnchorId);
    var f := SimulationOf(b).findings;
    if f.affected != [] {
      var first := f.affected[0];
      assert Reported(f, first.serviceId, first.at);
      RelaxingNeverAddsImpact(a, b, first.serviceId, first.at);
    }
  }
}
