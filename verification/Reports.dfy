/** What a simulation result says about the snapshot. */
module Reports {
  import opened Prelude
  import opened Graphs
  import opened Sorting
  import opened Snapshots
  import opened DirectPaths
  import opened Resolution
  import opened Simulation

  ghost predicate ActiveService(s: Snapshot, id: Uint) {
    exists service :: service in s.services && service.id == id && service.state == "active"
  }

  /** The meaning of reachability at any instant, sampled or not. */
  ghost predicate TrulyReachable(s: Snapshot, id: Uint, at: Time) {
    FullyReachable(DirectAt(s, at), Edges(ServicesById(s.services)), id)
  }

  ghost predicate Reported(f: Findings, id: Uint, at: Time) {
    exists a :: a in f.affected && a.serviceId == id && a.at == at
  }

  lemma {:induction false} FailingAre(s: Snapshot, at: Time, services: seq<ServiceSnapshot>)
    ensures forall service :: service in Failing(s, at, services) <==> service in services && Fails(s, at, service)
  {
    if services != [] {
      var rest := services[..|services| - 1];
      assert services == rest + [services[|services| - 1]];
      FailingAre(s, at, rest);
    }
  }

  /** The two entries of one failure: same service, instant and reason. */
  ghost predicate Paired(s: Snapshot, a: AffectedService, b: PathEntry) {
    exists service :: service in s.services && Fails(s, a.at, service)
      && a == AffectedEntry(s, a.at, service) && b == BrokenEntry(s, a.at, service)
  }

  ghost predicate AllPaired(s: Snapshot, xs: seq<AffectedService>, bs: seq<PathEntry>, times: seq<Time>) {
    |xs| == |bs| && forall i | 0 <= i < |xs| :: xs[i].at in times && Paired(s, xs[i], bs[i])
  }

  lemma {:induction false} FailingArePaired(s: Snapshot, at: Time)
    ensures AllPaired(s, AffectedBy(s, at, Failing(s, at, s.services)),
                      BrokenBy(s, at, Failing(s, at, s.services)), [at])
  {
    var failing := Failing(s, at, s.services);
    FailingAre(s, at, s.services);
    forall i | 0 <= i < |failing| ensures Paired(s, AffectedEntry(s, at, failing[i]), BrokenEntry(s, at, failing[i])) {
      assert failing[i] in failing;
    }
  }

  lemma PairingConcatenates(s: Snapshot, xs: seq<AffectedService>, bs: seq<PathEntry>, times: seq<Time>,
                            xs': seq<AffectedService>, bs': seq<PathEntry>, times': seq<Time>)
    requires AllPaired(s, xs, bs, times) && AllPaired(s, xs', bs', times')
    ensures AllPaired(s, xs + xs', bs + bs', times + times')
  {
    forall i | 0 <= i < |xs + xs'|
      ensures (xs + xs')[i].at in times + times' && Paired(s, (xs + xs')[i], (bs + bs')[i])
    {
      if i < |xs| {
        assert (xs + xs')[i] == xs[i] && (bs + bs')[i] == bs[i];
      } else {
        assert (xs + xs')[i] == xs'[i - |xs|] && (bs + bs')[i] == bs'[i - |xs|];
      }
    }
  }

  lemma {:induction false} FindingsArePaired(s: Snapshot, times: seq<Time>)
    ensures AllPaired(s, FindingsOver(s, times).affected, FindingsOver(s, times).broken, times)
  {
    if times != [] {
      var at, before := times[|times| - 1], times[..|times| - 1];
      var rest, failing := FindingsOver(s, before), Failing(s, at, s.services);
      FindingsArePaired(s, before);
      FailingArePaired(s, at);
      PairingConcatenates(s, rest.affected, rest.broken, before,
                          AffectedBy(s, at, failing), BrokenBy(s, at, failing), [at]);
      assert times == before + [at];
    }
  }

  /** Every failure is reported under its service's own identifier, code and criticality, at a sampled instant. */
  lemma {:induction false} AffectedNameTheirService(s: Snapshot, i: nat)
    requires i < |SimulationOf(s).findings.affected|
    ensures
      var a := SimulationOf(s).findings.affected[i];
      && a.at in SampledTimes(s.config)
      && exists service :: service in s.services && service.state == "active" && a.serviceId == service.id
           && a.serviceCode == service.code && a.criticality == service.criticality
  {
    var f := SimulationOf(s).findings;
    FindingsArePaired(s, SampledTimes(s.config));
    assert Paired(s, f.affected[i], f.broken[i]);
  }

  ghost predicate AscendingServices(services: seq<ServiceSnapshot>) {
    forall i, j | 0 <= i < j < |services| :: services[i].id < services[j].id
  }

  ghost predicate Before(a: AffectedService, b: AffectedService) {
    a.at < b.at || (a.at == b.at && a.serviceId < b.serviceId)
  }

  lemma {:induction false} FailingAscends(s: Snapshot, at: Time, services: seq<ServiceSnapshot>)
    requires AscendingServices(services)
    ensures AscendingServices(Failing(s, at, services))
  {
    if services != [] {
      var rest := services[..|services| - 1];
      FailingAscends(s, at, rest);
      FailingAre(s, at, rest);
      forall service | service in Failing(s, at, rest) ensures service.id < services[|services| - 1].id {
        var k :| 0 <= k < |rest| && rest[k] == service;
      }
    }
  }

  lemma {:induction false} AffectedAscend(s: Snapshot, times: seq<Time>)
    requires AscendingServices(s.services) && forall i, j | 0 <= i < j < |times| :: times[i] < times[j]
    ensures forall i, j | 0 <= i < j < |FindingsOver(s, times).affected| ::
              Before(FindingsOver(s, times).affected[i], FindingsOver(s, times).affected[j])
  {
    if times != [] {
      var at, before := times[|times| - 1], times[..|times| - 1];
      AffectedAscend(s, before);
      FailingAscends(s, at, s.services);
      FindingsArePaired(s, before);
      forall a | a in FindingsOver(s, before).affected ensures a.at < at {
        var i :| 0 <= i < |FindingsOver(s, before).affected| && FindingsOver(s, before).affected[i] == a;
        assert a.at in before;
      }
    }
  }

  /** In a snapshot with ascending services failures are listed by instant, then by service, none twice. */
  lemma {:induction false} AffectedAreInOrder(s: Snapshot, i: nat, j: nat)
    requires AscendingServices(s.services) && i < j < |SimulationOf(s).findings.affected|
    ensures Before(SimulationOf(s).findings.affected[i], SimulationOf(s).findings.affected[j])
  {
    SampledTimesAreExact(s.config);
    AffectedAscend(s, SampledTimes(s.config));
  }

  lemma {:induction false} FindingsAreComplete(s: Snapshot, times: seq<Time>, t: Time, service: ServiceSnapshot)
    requires t in times && service in s.services && Fails(s, t, service)
    ensures AffectedEntry(s, t, service) in FindingsOver(s, times).affected
  {
    var at := times[|times| - 1];
    var before := times[..|times| - 1];
    assert times == before + [at];
    var rest, failing := FindingsOver(s, before), Failing(s, at, s.services);
    if t in before {
      FindingsAreComplete(s, before, t, service);
    } else {
      FailingAre(s, at, s.services);
      var k :| 0 <= k < |failing| && failing[k] == service;
      assert AffectedBy(s, at, failing)[k] == AffectedEntry(s, t, service);
    }
  }

  lemma {:induction false} EvidenceFollowsTimes(s: Snapshot, times: seq<Time>)
    ensures |FindingsOver(s, times).evidence| == |times|
    ensures forall i | 0 <= i < |times| :: FindingsOver(s, times).evidence[i] == EvidenceAt(s, times[i])
  {
    if times != [] {
      EvidenceFollowsTimes(s, times[..|times| - 1]);
    }
  }

  /** A pair is reported exactly when the instant is sampled and the service is active and unreachable then. */
  lemma {:induction false} ReportedIffUnreachable(s: Snapshot, id: Uint, at: Time)
    ensures Reported(SimulationOf(s).findings, id, at)
       <==> at in Points(s.config) && ActiveService(s, id) && !TrulyReachable(s, id, at)
  {
    var times := SampledTimes(s.config);
    var f := FindingsOver(s, times);
    SampledTimesAreExact(s.config);
    FindingsArePaired(s, times);
    ResolvedIffFullyReachable(id, DirectAt(s, at), ServicesById(s.services));
    if Reported(f, id, at) {
      var i :| 0 <= i < |f.affected| && f.affected[i].serviceId == id && f.affected[i].at == at;
      assert Paired(s, f.affected[i], f.broken[i]);
    }
    if at in Points(s.config) && ActiveService(s, id) && !TrulyReachable(s, id, at) {
      var service :| service in s.services && service.id == id && service.state == "active";
      FindingsAreComplete(s, times, at, service);
    }
  }

  /** The reassuring explanation is given exactly when every active service is reachable at all six points. */
  lemma {:induction false} AllReachableIff(s: Snapshot)
    ensures SimulationOf(s).explanation.AllReachable?
       <==> forall id, at | at in Points(s.config) && ActiveService(s, id) :: TrulyReachable(s, id, at)
  {
    var f := SimulationOf(s).findings;
    forall id, at ensures Reported(f, id, at)
                     <==> at in Points(s.config) && ActiveService(s, id) && !TrulyReachable(s, id, at) {
      ReportedIffUnreachable(s, id, at);
    }
    if f.affected != [] {
      var a := f.affected[0];
      assert Reported(f, a.serviceId, a.at);
    }
  }

  /** The hints about timing are true: they name failures before the overlap starts and after it ends. */
  lemma {:induction false} FailureHintsAreTrue(s: Snapshot)
    requires SimulationOf(s).explanation.Failures?
    ensures SimulationOf(s).explanation.affected == |SimulationOf(s).findings.affected| > 0
    ensures SimulationOf(s).explanation.paths == |SimulationOf(s).findings.broken|
    ensures SimulationOf(s).explanation.beforeOverlap
       <==> exists id, at ::
              at in Points(s.config) && ActiveService(s, id) && !TrulyReachable(s, id, at) && at < s.config.overlapStart
    ensures SimulationOf(s).explanation.afterOverlap
       <==> exists id, at ::
              at in Points(s.config) && ActiveService(s, id) && !TrulyReachable(s, id, at) && at > s.config.overlapEnd
  {
    var f := SimulationOf(s).findings;
    forall id, at ensures Reported(f, id, at)
                     <==> at in Points(s.config) && ActiveService(s, id) && !TrulyReachable(s, id, at) {
      ReportedIffUnreachable(s, id, at);
    }
    forall i | 0 <= i < |f.affected| ensures Reported(f, f.affected[i].serviceId, f.affected[i].at) {
    }
  }

  function ActiveCount(services: seq<ServiceSnapshot>): nat {
    if services == [] then 0
    else ActiveCount(services[..|services| - 1]) + if services[|services| - 1].state == "active" then 1 else 0
  }

  ghost predicate DistinctIds(services: seq<ServiceSnapshot>) {
    forall i, j | 0 <= i < j < |services| :: services[i].id != services[j].id
  }

  /** The item names the chain its service can use by itself: the least usable one, or none if there is none. */
  ghost predicate TrueSelection(s: Snapshot, at: Time, e: ServiceEvidence) {
    exists service :: service in s.services && service.id == e.serviceId && service.state == "active"
      && e.serviceCode == service.code && Selects(s, at, service, e.selectedChainId, e.selectedAnchorId)
  }

  ghost predicate Selects(s: Snapshot, at: Time, service: ServiceSnapshot, chainId: Uint, anchorId: Uint) {
    var chains, active := ChainsById(s.chains), ActiveAnchors(s.config, at);
    if chainId == 0 then
      && anchorId == 0
      && (service.chainId in chains ==>
            forall id | Considered(service, s.config.candidateChainIds, id) :: !Usable(service, at, active, chains, id))
    else
      && service.chainId in chains
      && Considered(service, s.config.candidateChainIds, chainId) && Usable(service, at, active, chains, chainId)
      && anchorId == chains[chainId].anchorId
      && forall id | Considered(service, s.config.candidateChainIds, id) && Usable(service, at, active, chains, id) ::
           chainId <= id
  }

  ghost predicate TrueItem(s: Snapshot, at: Time, e: ServiceEvidence) {
    TrueSelection(s, at, e) && (e.reachable <==> TrulyReachable(s, e.serviceId, at))
  }

  ghost predicate Listed(items: seq<ServiceEvidence>, id: Uint) {
    exists e :: e in items && e.serviceId == id
  }

  /** One true item per active service. */
  ghost predicate TrueItems(s: Snapshot, at: Time, items: seq<ServiceEvidence>) {
    && |items| == ActiveCount(s.services)
    && (forall e | e in items :: TrueItem(s, at, e))
    && (forall id | ActiveService(s, id) :: Listed(items, id))
  }

  /** In identifier order, and without repetition if the services have identifiers of their own. */
  ghost predicate InOrder(s: Snapshot, items: seq<ServiceEvidence>) {
    && SortedBy(items, EvidenceKey)
    && (DistinctIds(s.services) ==> forall i, j | 0 <= i < j < |items| :: items[i].serviceId < items[j].serviceId)
  }

  /** The evidence of the sampled instants: true items, and the anchors active then. */
  lemma {:induction false} EvidenceIsTrue(s: Snapshot, i: nat)
    requires ValidSnapshot(s) && i < |SampledTimes(s.config)|
    ensures |SimulationOf(s).findings.evidence| == |SampledTimes(s.config)|
    ensures SimulationOf(s).findings.evidence[i].at == SampledTimes(s.config)[i]
    ensures TrueItems(s, SampledTimes(s.config)[i], SimulationOf(s).findings.evidence[i].services)
    ensures InOrder(s, SimulationOf(s).findings.evidence[i].services)
    ensures forall a :: a in SimulationOf(s).findings.evidence[i].activeAnchorIds
                   <==> a in ActiveAnchors(s.config, SampledTimes(s.config)[i])
  {
    EvidenceFollowsTimes(s, SampledTimes(s.config));
    EvidenceItemsAreTrue(s, SampledTimes(s.config)[i]);
    AnchorsAreListed(s, SampledTimes(s.config)[i]);
  }

  lemma AnchorsAreListed(s: Snapshot, at: Time)
    requires DistinctAnchors(s.config)
    ensures forall a :: a in EvidenceAt(s, at).activeAnchorIds <==> a in ActiveAnchors(s.config, at)
  {
  }

  lemma {:induction false} ItemsAreTrue(s: Snapshot, at: Time)
    ensures TrueItems(s, at, Items(s, at, s.services))
  {
    var items := Items(s, at, s.services);
    ItemsCover(s, at, s.services);
    forall e | e in items ensures TrueItem(s, at, e) {
      ItemIsTrue(s, at, e);
    }
    forall id | ActiveService(s, id) ensures Listed(items, id) {
      assert OutcomeAt(s, id, at).0 in items;
    }
  }

  lemma {:induction false} PermutedItemsAreTrue(s: Snapshot, at: Time, items: seq<ServiceEvidence>,
                                                permuted: seq<ServiceEvidence>)
    requires TrueItems(s, at, items) && multiset(permuted) == multiset(items)
    ensures TrueItems(s, at, permuted)
  {
    SamePermutedElements(permuted, items);
    assert |permuted| == |multiset(permuted)| == |items|;
    forall id | ActiveService(s, id) ensures Listed(permuted, id) {
      assert Listed(items, id);
    }
  }

  lemma {:induction false} EvidenceItemsAreTrue(s: Snapshot, at: Time)
    ensures TrueItems(s, at, EvidenceAt(s, at).services) && InOrder(s, EvidenceAt(s, at).services)
  {
    var items := Items(s, at, s.services);
    var sorted := SortBy(items, EvidenceKey);
    SortByIsSorted(items, EvidenceKey);
    ItemsAreTrue(s, at);
    PermutedItemsAreTrue(s, at, items, sorted);
    if DistinctIds(s.services) {
      ItemsAreDistinct(s, at, s.services);
      DistinctKeysAscend(items, sorted, EvidenceKey);
      assert forall i, j | 0 <= i < j < |sorted| :: EvidenceKey(sorted[i]) < EvidenceKey(sorted[j]);
    }
  }

  lemma {:induction false} ItemIsTrue(s: Snapshot, at: Time, e: ServiceEvidence)
    requires e in Items(s, at, s.services)
    ensures TrueItem(s, at, e)
  {
    ItemsCover(s, at, s.services);
    ItemsAreKeyed(s, at, s.services);
    assert ActiveService(s, e.serviceId);
    ResolvedIffFullyReachable(e.serviceId, DirectAt(s, at), ServicesById(s.services));
    OutcomeSelection(s, e.serviceId, at);
  }

  lemma {:induction false} ItemsAreDistinct(s: Snapshot, at: Time, services: seq<ServiceSnapshot>)
    requires DistinctIds(services)
    ensures forall i, j | 0 <= i < j < |Items(s, at, services)| ::
              Items(s, at, services)[i].serviceId != Items(s, at, services)[j].serviceId
  {
    if services != [] {
      var before, last := services[..|services| - 1], services[|services| - 1];
      ItemsAreDistinct(s, at, before);
      ItemsCover(s, at, before);
      OutcomeKeepsId(s, last.id, at);
      forall e | e in Items(s, at, before) ensures e.serviceId != last.id {
        var k :| 0 <= k < |before| && before[k].id == e.serviceId;
      }
    }
  }

  /** The selection of an active service's evidence, whatever the verdict. */
  lemma {:induction false} OutcomeSelection(s: Snapshot, id: Uint, at: Time)
    requires ActiveService(s, id)
    ensures TrueSelection(s, at, OutcomeAt(s, id, at).0)
  {
    var active, candidates, chains := ActiveAnchors(s.config, at), s.config.candidateChainIds, ChainsById(s.chains);
    DirectOfIsOwn(s.services, at, active, candidates, chains);
    OutcomeKeepsId(s, id, at);
    var service := DirectComesFromList(s.services, at, active, candidates, chains, id);
    DirectPicksLeastUsable(service, at, active, candidates, chains);
    assert Selects(s, at, service, DirectAt(s, at)[id].selectedChainId, DirectAt(s, at)[id].selectedAnchorId);
  }

  lemma {:induction false} DirectComesFromList(
    services: seq<ServiceSnapshot>, at: Time, active: set<Uint>, candidates: seq<Uint>,
    chains: map<Uint, ChainSnapshot>, id: Uint) returns (service: ServiceSnapshot)
    requires id in DirectOf(services, at, active, candidates, chains)
    ensures service in services && service.id == id && service.state == "active"
    ensures DirectOf(services, at, active, candidates, chains)[id] == Direct(service, at, active, candidates, chains)
  {
    service := services[|services| - 1];
    if service.state != "active" || service.id != id {
      service := DirectComesFromList(services[..|services| - 1], at, active, candidates, chains, id);
    }
  }

  lemma {:induction false} ItemsCover(s: Snapshot, at: Time, services: seq<ServiceSnapshot>)
    ensures |Items(s, at, services)| == ActiveCount(services)
    ensures forall e | e in Items(s, at, services) ::
              exists service :: service in services && service.id == e.serviceId && service.state == "active"
    ensures forall service | service in services && service.state == "active" ::
              && OutcomeAt(s, service.id, at).0 in Items(s, at, services)
              && OutcomeAt(s, service.id, at).0.serviceId == service.id
  {
    if services != [] {
      var last := services[|services| - 1];
      assert services == services[..|services| - 1] + [last];
      ItemsCover(s, at, services[..|services| - 1]);
      OutcomeKeepsId(s, last.id, at);
    }
  }

  /** Where all services of a path but perhaps the last are known, the codes name the known ones step by step. */
  lemma {:induction false} CodesNameKnownPath(path: seq<Uint>, services: ServiceMap)
    requires forall i | 0 <= i < |path| - 1 :: path[i] in services
    ensures |CodesOf(path, services)| == if path == [] || path[|path| - 1] in services then |path| else |path| - 1
    ensures forall i | 0 <= i < |CodesOf(path, services)| ::
              path[i] in services && CodesOf(path, services)[i] == services[path[i]].code
  {
    if path != [] {
      CodesNameKnownPath(path[..|path| - 1], services);
    }
  }

  /** In an ascending list the first failing dependency is the failing one with the least identifier. */
  ghost predicate LeastFailing(s: Snapshot, at: Time, from: Uint, to: Uint) {
    var g := Edges(ServicesById(s.services));
    && to in Succ(g, from) && !TrulyReachable(s, to, at)
    && forall d | d in Succ(g, from) && !TrulyReachable(s, d, at) :: to <= d
  }

  /** The path behind an entry: a repeat-free walk along least failing dependencies to the root cause. */
  ghost predicate Witness(s: Snapshot, at: Time, id: Uint, w: seq<Uint>) {
    && |w| > 0 && w[0] == id
    && (forall i | 0 <= i < |w| - 1 :: DirectOk(DirectAt(s, at), w[i]) && LeastFailing(s, at, w[i], w[i + 1]))
    && (forall i, j | 0 <= i < j < |w| :: w[i] != w[j])
    && !DirectOk(DirectAt(s, at), w[|w| - 1])
  }

  ghost predicate AscendingDependencies(s: Snapshot) {
    forall service | service in s.services :: Ascending(service.dependencyIds)
  }

  lemma {:induction false} ServicesByIdComesFromList(services: seq<ServiceSnapshot>)
    ensures forall id | id in ServicesById(services) ::
              ServicesById(services)[id] in services && ServicesById(services)[id].id == id
    ensures forall service | service in services :: service.id in ServicesById(services)
  {
    if services != [] {
      assert services == services[..|services| - 1] + [services[|services| - 1]];
      ServicesByIdComesFromList(services[..|services| - 1]);
    }
  }

  /** Services with identifiers of their own are frozen in strictly ascending order. */
  lemma {:induction false} FrozenServicesAscend(
    config: ScenarioConfig, anchors: seq<AnchorSnapshot>, chains: seq<ChainSnapshot>, services: seq<ServiceSnapshot>,
    s: Snapshot)
    requires Frozen(config, anchors, chains, services, s) && DistinctIds(services)
    ensures AscendingServices(s.services)
  {
    DistinctKeysAscend(NormalizeAll(services), s.services, ServiceKey);
    assert forall i, j | 0 <= i < j < |s.services| :: ServiceKey(s.services[i]) < ServiceKey(s.services[j]);
  }

  /** What NewSnapshot returns meets the hypothesis of the theorem below. */
  lemma {:induction false} FrozenDependenciesAscend(
    config: ScenarioConfig, anchors: seq<AnchorSnapshot>, chains: seq<ChainSnapshot>, services: seq<ServiceSnapshot>,
    s: Snapshot)
    requires Frozen(config, anchors, chains, services, s)
    ensures AscendingDependencies(s)
  {
    forall i | 0 <= i < |s.services| ensures Ascending(s.services[i].dependencyIds) {
      FrozenServiceIsNormal(services, s.services, i);
    }
  }

  /** Every reported failure of an accepted canonical snapshot comes with a true account of its cause. */
  lemma {:induction false} BrokenPathsAreWitnesses(s: Snapshot, i: nat) returns (w: seq<Uint>)
    requires ValidSnapshot(s) && AscendingDependencies(s)
    requires i < |SimulationOf(s).findings.affected|
    ensures
      var f := SimulationOf(s).findings;
      && |f.broken| == |f.affected| && f.broken[i].at == f.affected[i].at
      && f.broken[i].reason == f.affected[i].reason
      && Witness(s, f.affected[i].at, f.affected[i].serviceId, w)
      && f.broken[i].serviceCodes == CodesOf(w, ServicesById(s.services))
      && Explained(DirectAt(s, f.affected[i].at), f.affected[i].reason, w)
      && !RootCause(f.affected[i].reason).CycleEncountered?
  {
    var f := SimulationOf(s).findings;
    FindingsArePaired(s, SampledTimes(s.config));
    var at := f.affected[i].at;
    assert Paired(s, f.affected[i], f.broken[i]);
    var service :| service in s.services && Fails(s, at, service)
      && f.affected[i] == AffectedEntry(s, at, service) && f.broken[i] == BrokenEntry(s, at, service);
    w := OutcomeWitness(s, service.id, at);
  }

  lemma {:induction false} StepIsLeastFailing(s: Snapshot, at: Time, from: Uint, to: Uint)
    requires AscendingDependencies(s)
    requires FirstFailing(DirectAt(s, at), Edges(ServicesById(s.services)),
                          Succ(Edges(ServicesById(s.services)), from), to)
    ensures LeastFailing(s, at, from, to)
  {
    var g := Edges(ServicesById(s.services));
    ServicesByIdComesFromList(s.services);
    FirstFailingIsLeast(DirectAt(s, at), g, Succ(g, from), to);
  }

  lemma {:induction false} BrokenPathIsWitness(s: Snapshot, at: Time, id: Uint, w: seq<Uint>)
    requires ValidSnapshot(s) && AscendingDependencies(s)
    requires BrokenPath(DirectAt(s, at), ServicesById(s.services), id, w)
    ensures Witness(s, at, id, w)
  {
    forall i | 0 <= i < |w| - 1 ensures LeastFailing(s, at, w[i], w[i + 1]) {
      StepIsLeastFailing(s, at, w[i], w[i + 1]);
    }
    forall i, j | 0 <= i < j < |w| ensures w[i] != w[j] {
      BrokenPathHasNoRepeats(DirectAt(s, at), ServicesById(s.services), id, w, i, j);
    }
  }

  lemma {:induction false} OutcomeWitness(s: Snapshot, id: Uint, at: Time) returns (w: seq<Uint>)
    requires ValidSnapshot(s) && AscendingDependencies(s) && !ReachableAt(s, id, at)
    ensures Witness(s, at, id, w)
    ensures OutcomeAt(s, id, at).1 == w
    ensures Explained(DirectAt(s, at), OutcomeAt(s, id, at).0.reason, w)
    ensures !RootCause(OutcomeAt(s, id, at).0.reason).CycleEncountered?
  {
    var direct, services := DirectAt(s, at), ServicesById(s.services);
    DirectOfIsOwn(s.services, at, ActiveAnchors(s.config, at), s.config.candidateChainIds, ChainsById(s.chains));
    w := ResolveWitness(id, direct, services, {}, []);
    AcceptedGraphNeverReportsCycle(id, direct, services);
    BrokenPathIsWitness(s, at, id, w);
  }

  lemma FirstFailingIsLeast(direct: DirectMap, g: Graph, deps: seq<Uint>, d: Uint)
    requires Ascending(deps) && FirstFailing(direct, g, deps, d)
    ensures forall e | e in deps && !FullyReachable(direct, g, e) :: d <= e
  {
    var k :| 0 <= k < |deps| && deps[k] == d && forall j | 0 <= j < k :: FullyReachable(direct, g, deps[j]);
    forall e | e in deps && !FullyReachable(direct, g, e) ensures d <= e {
      var j :| 0 <= j < |deps| && deps[j] == e;
      assert j >= k;
    }
  }
}
