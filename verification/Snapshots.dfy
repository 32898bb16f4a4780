/** The frozen input of a simulation: how it is put in canonical form and when it is accepted. */
module Snapshots {
  import opened Prelude
  import opened Graphs
  import opened Sorting
  import CycleDetection

  const VERSION := "trust-path-window-v1.0.0"

  datatype AnchorSnapshot = AnchorSnapshot(
    id: Uint, code: string, state: string, notBefore: Time, notAfter: Time, revoked: bool)

  datatype ChainSnapshot = ChainSnapshot(
    id: Uint, code: string, anchorId: Uint, leafSubject: string, validFrom: Time, validTo: Time,
    state: string, validationValid: bool)

  datatype ServiceSnapshot = ServiceSnapshot(
    id: Uint, code: string, chainId: Uint, trustAnchorIds: seq<Uint>, dependencyIds: seq<Uint>,
    criticality: string, state: string)

  datatype ScenarioConfig = ScenarioConfig(
    name: string, oldAnchorId: Uint, newAnchorId: Uint, overlapStart: Time, overlapEnd: Time,
    candidateChainIds: seq<Uint>, simulationTime: Time)

  datatype Snapshot = Snapshot(
    algorithmVersion: string, config: ScenarioConfig, anchors: seq<AnchorSnapshot>,
    chains: seq<ChainSnapshot>, services: seq<ServiceSnapshot>)

  datatype SnapshotError =
    | AnchorsNotDistinct
    | OverlapEmpty
    | SimulationTimeMissing
    | AnchorsMissing
    | CandidateMissing(chainId: Uint)
    | CycleAt(serviceId: Uint)

  /** The map built by assigning entries in list order: a later entry with the same identifier wins. */
  function ChainsById(chains: seq<ChainSnapshot>): map<Uint, ChainSnapshot> {
    if chains == [] then map[]
    else
      var last := chains[|chains| - 1];
      ChainsById(chains[..|chains| - 1])[last.id := last]
  }

  function ServicesById(services: seq<ServiceSnapshot>): map<Uint, ServiceSnapshot> {
    if services == [] then map[]
    else
      var last := services[|services| - 1];
      ServicesById(services[..|services| - 1])[last.id := last]
  }

  function Edges(byId: map<Uint, ServiceSnapshot>): Graph {
    map id | id in byId :: byId[id].dependencyIds
  }

  /** Of several entries with one identifier the last counts. */
  lemma {:induction false} LastServiceCounts(services: seq<ServiceSnapshot>, k: nat)
    requires k < |services| && forall j | k < j < |services| :: services[j].id != services[k].id
    ensures services[k].id in ServicesById(services) && ServicesById(services)[services[k].id] == services[k]
  {
    if k < |services| - 1 {
      LastServiceCounts(services[..|services| - 1], k);
    }
  }

  lemma {:induction false} LastChainCounts(chains: seq<ChainSnapshot>, k: nat)
    requires k < |chains| && forall j | k < j < |chains| :: chains[j].id != chains[k].id
    ensures chains[k].id in ChainsById(chains) && ChainsById(chains)[chains[k].id] == chains[k]
  {
    if k < |chains| - 1 {
      LastChainCounts(chains[..|chains| - 1], k);
    }
  }

  ghost predicate DistinctAnchors(cfg: ScenarioConfig) {
    cfg.oldAnchorId != 0 && cfg.newAnchorId != 0 && cfg.oldAnchorId != cfg.newAnchorId
  }

  ghost predicate KnowsAnchor(s: Snapshot, id: Uint) {
    exists anchor :: anchor in s.anchors && anchor.id == id
  }

  ghost predicate KnowsChain(s: Snapshot, id: Uint) {
    exists chain :: chain in s.chains && chain.id == id
  }

  ghost predicate ValidSnapshot(s: Snapshot) {
    && DistinctAnchors(s.config)
    && s.config.overlapStart < s.config.overlapEnd
    && s.config.simulationTime != ZERO_TIME
    && KnowsAnchor(s, s.config.oldAnchorId) && KnowsAnchor(s, s.config.newAnchorId)
    && (forall id | id in s.config.candidateChainIds :: KnowsChain(s, id))
    && Acyclic(Edges(ServicesById(s.services)))
  }

  /** What a rejection tells the caller about the snapshot. */
  ghost predicate Explains(s: Snapshot, err: SnapshotError) {
    match err
    case AnchorsNotDistinct => !DistinctAnchors(s.config)
    case OverlapEmpty => s.config.overlapStart >= s.config.overlapEnd
    case SimulationTimeMissing => s.config.simulationTime == ZERO_TIME
    case AnchorsMissing => !KnowsAnchor(s, s.config.oldAnchorId) || !KnowsAnchor(s, s.config.newAnchorId)
    case CandidateMissing(id) => id in s.config.candidateChainIds && !KnowsChain(s, id)
    case CycleAt(id) => OnCycle(Edges(ServicesById(s.services)), id)
  }

  method DetectCycle(services: seq<ServiceSnapshot>) returns (err: Option<Uint>)
    ensures err.None? <==> Acyclic(Edges(ServicesById(services)))
    ensures err.Some? ==> OnCycle(Edges(ServicesById(services)), err.value)
  {
    var edges: Graph := map[];
    for i := 0 to |services|
      invariant edges == Edges(ServicesById(services[..i]))
    {
      edges := edges[services[i].id := services[i].dependencyIds];
      assert services[..i + 1][..i] == services[..i];
    }
    assert services[..|services|] == services;
    var detector := new CycleDetection.CycleDetector(edges);
    err := detector.Detect();
  }

  method ValidateSnapshot(s: Snapshot) returns (err: Option<SnapshotError>)
    ensures err.None? <==> ValidSnapshot(s)
    ensures err.None? <==>
              && s.config.oldAnchorId != 0 && s.config.newAnchorId != 0 && s.config.oldAnchorId != s.config.newAnchorId
              && s.config.overlapStart < s.config.overlapEnd && s.config.simulationTime != 0
              && (exists a :: a in s.anchors && a.id == s.config.oldAnchorId)
              && (exists a :: a in s.anchors && a.id == s.config.newAnchorId)
              && (forall id | id in s.config.candidateChainIds :: exists c :: c in s.chains && c.id == id)
              && Acyclic(Edges(ServicesById(s.services)))
    ensures err.Some? ==> Explains(s, err.value)
  {
    var cfg := s.config;
    if cfg.oldAnchorId == 0 || cfg.newAnchorId == 0 || cfg.oldAnchorId == cfg.newAnchorId {
      return Some(AnchorsNotDistinct);
    }
    if !(cfg.overlapStart < cfg.overlapEnd) {
      return Some(OverlapEmpty);
    }
    if cfg.simulationTime == ZERO_TIME {
      return Some(SimulationTimeMissing);
    }
    var anchorSeen: set<Uint> := {};
    for i := 0 to |s.anchors|
      invariant forall id :: id in anchorSeen <==> exists j | 0 <= j < i :: s.anchors[j].id == id
    {
      anchorSeen := anchorSeen + {s.anchors[i].id};
    }
    assert forall id :: id in anchorSeen <==> KnowsAnchor(s, id);
    if cfg.oldAnchorId !in anchorSeen || cfg.newAnchorId !in anchorSeen {
      return Some(AnchorsMissing);
    }
    var chainSeen: set<Uint> := {};
    for i := 0 to |s.chains|
      invariant forall id :: id in chainSeen <==> exists j | 0 <= j < i :: s.chains[j].id == id
    {
      chainSeen := chainSeen + {s.chains[i].id};
    }
    assert forall id :: id in chainSeen <==> KnowsChain(s, id);
    for i := 0 to |cfg.candidateChainIds|
      invariant forall j | 0 <= j < i :: KnowsChain(s, cfg.candidateChainIds[j])
    {
      if cfg.candidateChainIds[i] !in chainSeen {
        return Some(CandidateMissing(cfg.candidateChainIds[i]));
      }
    }
    var cycle := DetectCycle(s.services);
    return if cycle.Some? then Some(CycleAt(cycle.value)) else None;
  }

  // ----- freezing

  function Normalize(s: ServiceSnapshot): ServiceSnapshot {
    s.(trustAnchorIds := SortedUnique(s.trustAnchorIds), dependencyIds := SortedUnique(s.dependencyIds))
  }

  function NormalizeAll(services: seq<ServiceSnapshot>): seq<ServiceSnapshot> {
    seq(|services|, i requires 0 <= i < |services| => Normalize(services[i]))
  }

  function AnchorKey(a: AnchorSnapshot): int { a.id }

  function ChainKey(c: ChainSnapshot): int { c.id }

  function ServiceKey(s: ServiceSnapshot): int { s.id }

  /** `s` is what freezing the given input yields; equal identifiers leave the order open. */
  ghost predicate Frozen(config: ScenarioConfig, anchors: seq<AnchorSnapshot>, chains: seq<ChainSnapshot>,
                         services: seq<ServiceSnapshot>, s: Snapshot)
  {
    && s.algorithmVersion == VERSION
    && s.config == config.(candidateChainIds := SortedUnique(config.candidateChainIds))
    && SortedBy(s.anchors, AnchorKey) && multiset(s.anchors) == multiset(anchors)
    && SortedBy(s.chains, ChainKey) && multiset(s.chains) == multiset(chains)
    && SortedBy(s.services, ServiceKey) && multiset(s.services) == multiset(NormalizeAll(services))
  }

  method NormalizeLists(services: array<ServiceSnapshot>)
    requires SortedBy(services[..], ServiceKey)
    modifies services
    ensures services[..] == NormalizeAll(old(services[..]))
    ensures SortedBy(services[..], ServiceKey)
  {
    for i := 0 to services.Length
      invariant forall j | 0 <= j < i :: services[j] == Normalize(old(services[j]))
      invariant forall j | i <= j < services.Length :: services[j] == old(services[j])
    {
      var trust := UniqueIds(services[i].trustAnchorIds);
      var dependencies := UniqueIds(services[i].dependencyIds);
      services[i] := services[i].(trustAnchorIds := trust, dependencyIds := dependencies);
    }
    assert services[..] == NormalizeAll(old(services[..]));
    forall i, j | 0 <= i <= j < services.Length ensures ServiceKey(services[i]) <= ServiceKey(services[j]) {
      assert ServiceKey(old(services[..])[i]) <= ServiceKey(old(services[..])[j]);
    }
  }

  /** Sorts the caller's slices in place; the snapshot holds what they then contain. */
  method NewSnapshot(config: ScenarioConfig, anchors: array<AnchorSnapshot>, chains: array<ChainSnapshot>,
                     services: array<ServiceSnapshot>) returns (s: Snapshot)
    modifies anchors, chains, services
    ensures Frozen(config, old(anchors[..]), old(chains[..]), old(services[..]), s)
    ensures s.algorithmVersion == "trust-path-window-v1.0.0"
    ensures s.anchors == anchors[..] && s.chains == chains[..] && s.services == services[..]
  {
    var candidates := UniqueIds(config.candidateChainIds);
    SortSlice(anchors, AnchorKey);
    SortSlice(chains, ChainKey);
    SortSlice(services, ServiceKey);
    NormalizePermutes(services[..], old(services[..]));
    NormalizeLists(services);
    return Snapshot(VERSION, config.(candidateChainIds := candidates), anchors[..], chains[..], services[..]);
  }

  lemma {:induction false} NormalizePermutes(a: seq<ServiceSnapshot>, b: seq<ServiceSnapshot>)
    requires multiset(a) == multiset(b)
    ensures multiset(NormalizeAll(a)) == multiset(NormalizeAll(b))
    decreases |a|
  {
    assert |a| == |multiset(a)| && |b| == |multiset(b)|;
    if |a| > 0 {
      var k := Position(b, a);
      WithoutPermutes(a, b, 0, k);
      NormalizePermutes(Without(a, 0), Without(b, k));
      assert NormalizeAll(Without(a, 0)) == Without(NormalizeAll(a), 0);
      assert NormalizeAll(Without(b, k)) == Without(NormalizeAll(b), k);
      WithoutPermutes(NormalizeAll(a), NormalizeAll(b), 0, k);
    }
  }

  ghost predicate SameIds(a: seq<Uint>, b: seq<Uint>) {
    forall id | id > 0 :: id in a <==> id in b
  }

  /** Two entries that differ only in the order and repetition of their identifier lists. */
  ghost predicate Relisted(s: ServiceSnapshot, t: ServiceSnapshot) {
    && t == s.(trustAnchorIds := t.trustAnchorIds, dependencyIds := t.dependencyIds)
    && SameIds(s.trustAnchorIds, t.trustAnchorIds) && SameIds(s.dependencyIds, t.dependencyIds)
  }

  /**
   * One canonical snapshot for every presentation of the input: anchors, chains and services in any order,
   * identifier lists in any order and with any repetitions.
   */
  lemma {:induction false} FreezingIsCanonical(
    config: ScenarioConfig, candidates: seq<Uint>,
    anchors: seq<AnchorSnapshot>, chains: seq<ChainSnapshot>, services: seq<ServiceSnapshot>,
    anchors': seq<AnchorSnapshot>, chains': seq<ChainSnapshot>, services': seq<ServiceSnapshot>,
    relisted: seq<ServiceSnapshot>, s: Snapshot, s': Snapshot)
    requires KeyedBy(anchors, AnchorKey) && KeyedBy(chains, ChainKey) && KeyedBy(NormalizeAll(services), ServiceKey)
    requires SameIds(config.candidateChainIds, candidates)
    requires multiset(anchors) == multiset(anchors') && multiset(chains) == multiset(chains')
    requires |relisted| == |services| && forall i | 0 <= i < |services| :: Relisted(services[i], relisted[i])
    requires multiset(relisted) == multiset(services')
    requires Frozen(config, anchors, chains, services, s)
    requires Frozen(config.(candidateChainIds := candidates), anchors', chains', services', s')
    ensures s == s'
  {
    SortedUniqueIsCanonical(config.candidateChainIds, candidates);
    forall i | 0 <= i < |services| ensures Normalize(services[i]) == Normalize(relisted[i]) {
      SortedUniqueIsCanonical(services[i].trustAnchorIds, relisted[i].trustAnchorIds);
      SortedUniqueIsCanonical(services[i].dependencyIds, relisted[i].dependencyIds);
    }
    assert NormalizeAll(services) == NormalizeAll(relisted);
    NormalizePermutes(relisted, services');
    KeyedByTransfers(anchors, s.anchors, AnchorKey);
    KeyedByTransfers(chains, s.chains, ChainKey);
    KeyedByTransfers(NormalizeAll(services), s.services, ServiceKey);
    SortedIsUnique(s.anchors, s'.anchors, AnchorKey);
    SortedIsUnique(s.chains, s'.chains, ChainKey);
    SortedIsUnique(s.services, s'.services, ServiceKey);
  }

  lemma KeyedByTransfers<T>(a: seq<T>, b: seq<T>, key: T -> int)
    requires KeyedBy(a, key) && multiset(a) == multiset(b)
    ensures KeyedBy(b, key)
  {
    forall x | x in b ensures x in a {
      assert x in multiset(b);
    }
  }

  /** Freezing a frozen snapshot changes nothing. */
  lemma {:induction false} FreezingIsIdempotent(
    config: ScenarioConfig, anchors: seq<AnchorSnapshot>, chains: seq<ChainSnapshot>, services: seq<ServiceSnapshot>,
    s: Snapshot, again: Snapshot)
    requires KeyedBy(anchors, AnchorKey) && KeyedBy(chains, ChainKey) && KeyedBy(NormalizeAll(services), ServiceKey)
    requires Frozen(config, anchors, chains, services, s)
    requires Frozen(s.config, s.anchors, s.chains, s.services, again)
    ensures again == s
  {
    SortedUniqueIsCanonical(config.candidateChainIds, config.candidateChainIds);
    forall i | 0 <= i < |s.services| ensures Normalize(s.services[i]) == s.services[i] {
      FrozenServiceIsNormal(services, s.services, i);
    }
    assert NormalizeAll(s.services) == s.services;
    KeyedByTransfers(anchors, s.anchors, AnchorKey);
    KeyedByTransfers(chains, s.chains, ChainKey);
    KeyedByTransfers(NormalizeAll(services), s.services, ServiceKey);
    SortedIsUnique(s.anchors, again.anchors, AnchorKey);
    SortedIsUnique(s.chains, again.chains, ChainKey);
    SortedIsUnique(s.services, again.services, ServiceKey);
  }

  lemma {:induction false} FrozenServiceIsNormal(services: seq<ServiceSnapshot>, frozen: seq<ServiceSnapshot>, i: nat)
    requires i < |frozen| && multiset(frozen) == multiset(NormalizeAll(services))
    ensures Normalize(frozen[i]) == frozen[i]
    ensures Ascending(frozen[i].trustAnchorIds) && Ascending(frozen[i].dependencyIds)
  {
    assert frozen[i] in multiset(NormalizeAll(services));
    var k :| 0 <= k < |services| && Normalize(services[k]) == frozen[i];
    SortedUniqueIsCanonical(services[k].trustAnchorIds, services[k].trustAnchorIds);
    SortedUniqueIsCanonical(services[k].dependencyIds, services[k].dependencyIds);
  }

  /** The scenario's own columns and every anchor and chain are kept; the entries are put in order of identifier. */
  lemma {:induction false} FreezingKeepsContents(
    config: ScenarioConfig, anchors: seq<AnchorSnapshot>, chains: seq<ChainSnapshot>, services: seq<ServiceSnapshot>,
    s: Snapshot)
    requires Frozen(config, anchors, chains, services, s)
    ensures s.config == config.(candidateChainIds := s.config.candidateChainIds)
    ensures Ascending(s.config.candidateChainIds) && SameIds(s.config.candidateChainIds, config.candidateChainIds)
    ensures multiset(s.anchors) == multiset(anchors) && multiset(s.chains) == multiset(chains)
    ensures forall i, j | 0 <= i <= j < |s.anchors| :: s.anchors[i].id <= s.anchors[j].id
    ensures forall i, j | 0 <= i <= j < |s.chains| :: s.chains[i].id <= s.chains[j].id
    ensures forall i, j | 0 <= i <= j < |s.services| :: s.services[i].id <= s.services[j].id
  {
    assert forall i, j | 0 <= i <= j < |s.anchors| :: AnchorKey(s.anchors[i]) <= AnchorKey(s.anchors[j]);
    assert forall i, j | 0 <= i <= j < |s.chains| :: ChainKey(s.chains[i]) <= ChainKey(s.chains[j]);
    assert forall i, j | 0 <= i <= j < |s.services| :: ServiceKey(s.services[i]) <= ServiceKey(s.services[j]);
  }

  /** Every frozen service is one of the input, save that its lists hold their non-zero identifiers in order. */
  lemma {:induction false} FreezingInventsNoService(
    config: ScenarioConfig, anchors: seq<AnchorSnapshot>, chains: seq<ChainSnapshot>, services: seq<ServiceSnapshot>,
    s: Snapshot, i: nat) returns (j: nat)
    requires Frozen(config, anchors, chains, services, s) && i < |s.services|
    ensures |s.services| == |services|
    ensures j < |services| && Relisted(services[j], s.services[i])
    ensures Ascending(s.services[i].trustAnchorIds) && Ascending(s.services[i].dependencyIds)
  {
    assert |s.services| == |multiset(s.services)| == |NormalizeAll(services)|;
    FrozenServiceIsNormal(services, s.services, i);
    assert s.services[i] in multiset(NormalizeAll(services));
    j :| 0 <= j < |services| && NormalizeAll(services)[j] == s.services[i];
  }

  /** And every service of the input is frozen. */
  lemma {:induction false} FreezingLosesNoService(
    config: ScenarioConfig, anchors: seq<AnchorSnapshot>, chains: seq<ChainSnapshot>, services: seq<ServiceSnapshot>,
    s: Snapshot, j: nat) returns (i: nat)
    requires Frozen(config, anchors, chains, services, s) && j < |services|
    ensures i < |s.services| && Relisted(services[j], s.services[i])
  {
    assert NormalizeAll(services)[j] in multiset(s.services);
    i :| 0 <= i < |s.services| && s.services[i] == NormalizeAll(services)[j];
  }
}
