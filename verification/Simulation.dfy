/** The simulator: which instants it samples and what it reports at each. */
module Simulation {
  import opened Prelude
  import opened Sorting
  import opened Snapshots
  import opened DirectPaths
  import opened Resolution

  datatype AffectedService = AffectedService(
    serviceId: Uint, serviceCode: string, criticality: string, at: Time, reason: Reason)

  datatype PathEntry = PathEntry(at: Time, serviceCodes: seq<string>, reason: Reason)

  datatype TimepointEvidence = TimepointEvidence(
    at: Time, activeAnchorIds: seq<Uint>, services: seq<ServiceEvidence>)

  /** The explanation's content; its wording is not modelled. */
  datatype Explanation =
    | FrozenDraft
    | AllReachable
    | Failures(affected: nat, paths: nat, beforeOverlap: bool, afterOverlap: bool)

  datatype Findings = Findings(
    affected: seq<AffectedService>, broken: seq<PathEntry>, evidence: seq<TimepointEvidence>)

  datatype SimulationResult = SimulationResult(findings: Findings, explanation: Explanation)

  // ----- sampled instants

  /** Go's integer division truncates toward zero. */
  function Half(d: int): int {
    if d >= 0 then d / 2 else -((-d) / 2)
  }

  function Midpoint(cfg: ScenarioConfig): Time {
    cfg.overlapStart + Half(Sub(cfg.overlapEnd, cfg.overlapStart))
  }

  function Points(cfg: ScenarioConfig): seq<Time> {
    [cfg.overlapStart - MINUTE, cfg.overlapStart, Midpoint(cfg), cfg.overlapEnd, cfg.overlapEnd + MINUTE,
     cfg.simulationTime]
  }

  function TimeKey(t: Time): int { t }

  function Compact(s: seq<Time>): seq<Time> {
    if s == [] then []
    else
      var c := Compact(s[..|s| - 1]);
      var t := s[|s| - 1];
      if c == [] || t != c[|c| - 1] then c + [t] else c
  }

  function SampledTimes(cfg: ScenarioConfig): seq<Time> {
    Compact(SortBy(Points(cfg), TimeKey))
  }

  lemma {:induction false} CompactOfSorted(s: seq<Time>)
    requires SortedBy(s, TimeKey)
    ensures forall i, j | 0 <= i < j < |Compact(s)| :: Compact(s)[i] < Compact(s)[j]
    ensures s != [] ==> Compact(s) != [] && Compact(s)[|Compact(s)| - 1] == s[|s| - 1]
    ensures forall t :: t in Compact(s) <==> t in s
    ensures |Compact(s)| <= |s|
  {
    if s != [] {
      var rest := s[..|s| - 1];
      CompactOfSorted(rest);
      assert s == rest + [s[|s| - 1]];
      if rest != [] {
        assert TimeKey(s[|s| - 2]) <= TimeKey(s[|s| - 1]);
      }
    }
  }

  /** Between one and six instants, strictly ascending, and exactly the six the configuration names. */
  lemma {:induction false} SampledTimesAreExact(cfg: ScenarioConfig)
    ensures forall i, j | 0 <= i < j < |SampledTimes(cfg)| :: SampledTimes(cfg)[i] < SampledTimes(cfg)[j]
    ensures forall t :: t in SampledTimes(cfg) <==> t in Points(cfg)
    ensures 1 <= |SampledTimes(cfg)| <= 6
    ensures cfg.overlapStart < cfg.overlapEnd ==> cfg.overlapStart <= Midpoint(cfg) < cfg.overlapEnd
  {
    var sorted := SortBy(Points(cfg), TimeKey);
    SortByIsSorted(Points(cfg), TimeKey);
    CompactOfSorted(sorted);
    assert |sorted| == |multiset(sorted)| == |Points(cfg)|;
    forall t ensures t in sorted <==> t in Points(cfg) {
      assert t in sorted <==> t in multiset(sorted);
    }
  }

  /** The instants by name. The midpoint rounds toward the start, of a duration that saturates as Go's does. */
  lemma {:induction false} SampledTimesByName(cfg: ScenarioConfig) returns (middle: Time)
    ensures forall t :: t in SampledTimes(cfg) <==>
              || t == cfg.overlapStart - 60_000_000_000 || t == cfg.overlapStart || t == middle
              || t == cfg.overlapEnd || t == cfg.overlapEnd + 60_000_000_000 || t == cfg.simulationTime
    ensures
      var overlap, half := cfg.overlapEnd - cfg.overlapStart, middle - cfg.overlapStart;
      if overlap > 0x7FFF_FFFF_FFFF_FFFF then half == 0x3FFF_FFFF_FFFF_FFFF
      else if overlap >= 0 then 2 * half <= overlap < 2 * half + 2
      else if overlap >= -0x8000_0000_0000_0000 then 2 * half - 2 < overlap <= 2 * half
      else half == -0x4000_0000_0000_0000
  {
    SampledTimesAreExact(cfg);
    middle := Midpoint(cfg);
  }

  /** Compacts over the slice it reads, as `result := points[:0]` does. */
  method CompactInPlace(points: array<Time>) returns (n: nat)
    modifies points
    ensures n <= points.Length && points[..n] == Compact(old(points[..]))
  {
    ghost var sorted := points[..];
    n := 0;
    for i := 0 to points.Length
      invariant n <= i
      invariant points[..n] == Compact(sorted[..i])
      invariant forall j | i <= j < points.Length :: points[j] == sorted[j]
    {
      assert sorted[..i + 1][..i] == sorted[..i] && points[i] == sorted[i];
      if n == 0 || points[i] != points[n - 1] {
        ghost var kept := points[..n];
        points[n] := points[i];
        n := n + 1;
        assert points[..n] == kept + [sorted[i]];
      }
    }
    assert sorted[..points.Length] == sorted;
  }

  /** Sorts the six points and compacts them over their own slice. */
  method CriticalTimes(cfg: ScenarioConfig) returns (times: seq<Time>)
    ensures times == SampledTimes(cfg)
  {
    var six := Points(cfg);
    var points := SliceOf(six);
    SortSlice(points, TimeKey);
    SortByIsSorted(six, TimeKey);
    SortedIsUnique(points[..], SortBy(six, TimeKey), TimeKey);
    var n := CompactInPlace(points);
    return points[..n];
  }

  // ----- one instant

  function DirectOf(services: seq<ServiceSnapshot>, at: Time, active: set<Uint>, candidates: seq<Uint>,
                    chains: map<Uint, ChainSnapshot>): DirectMap
  {
    if services == [] then map[]
    else
      var last := services[|services| - 1];
      var rest := DirectOf(services[..|services| - 1], at, active, candidates, chains);
      if last.state != "active" then rest else rest[last.id := Direct(last, at, active, candidates, chains)]
  }

  function DirectAt(s: Snapshot, at: Time): DirectMap {
    DirectOf(s.services, at, ActiveAnchors(s.config, at), s.config.candidateChainIds, ChainsById(s.chains))
  }

  function OutcomeAt(s: Snapshot, id: Uint, at: Time): (ServiceEvidence, seq<Uint>) {
    Resolve(id, DirectAt(s, at), ServicesById(s.services), {}, [])
  }

  predicate ReachableAt(s: Snapshot, id: Uint, at: Time) {
    OutcomeAt(s, id, at).0.reachable
  }

  function CodesOf(path: seq<Uint>, services: ServiceMap): seq<string> {
    if path == [] then []
    else
      var id := path[|path| - 1];
      CodesOf(path[..|path| - 1], services) + if id in services then [services[id].code] else []
  }

  function Items(s: Snapshot, at: Time, services: seq<ServiceSnapshot>): seq<ServiceEvidence> {
    if services == [] then []
    else
      var last := services[|services| - 1];
      var rest := Items(s, at, services[..|services| - 1]);
      if last.state != "active" then rest else rest + [OutcomeAt(s, last.id, at).0]
  }

  function AffectedEntry(s: Snapshot, at: Time, service: ServiceSnapshot): AffectedService {
    AffectedService(service.id, service.code, service.criticality, at, OutcomeAt(s, service.id, at).0.reason)
  }

  function BrokenEntry(s: Snapshot, at: Time, service: ServiceSnapshot): PathEntry {
    var outcome := OutcomeAt(s, service.id, at);
    PathEntry(at, CodesOf(outcome.1, ServicesById(s.services)), outcome.0.reason)
  }

  predicate Fails(s: Snapshot, at: Time, service: ServiceSnapshot) {
    service.state == "active" && !ReachableAt(s, service.id, at)
  }

  function Failing(s: Snapshot, at: Time, services: seq<ServiceSnapshot>): seq<ServiceSnapshot> {
    if services == [] then []
    else
      var last := services[|services| - 1];
      var rest := Failing(s, at, services[..|services| - 1]);
      if Fails(s, at, last) then rest + [last] else rest
  }

  function AffectedBy(s: Snapshot, at: Time, services: seq<ServiceSnapshot>): seq<AffectedService> {
    seq(|services|, i requires 0 <= i < |services| => AffectedEntry(s, at, services[i]))
  }

  function BrokenBy(s: Snapshot, at: Time, services: seq<ServiceSnapshot>): seq<PathEntry> {
    seq(|services|, i requires 0 <= i < |services| => BrokenEntry(s, at, services[i]))
  }

  function EvidenceKey(e: ServiceEvidence): int { e.serviceId }

  function AnchorList(cfg: ScenarioConfig, at: Time): seq<Uint> {
    SortedUnique(
      if at < cfg.overlapStart then [cfg.oldAnchorId]
      else if at > cfg.overlapEnd then [cfg.newAnchorId]
      else [cfg.oldAnchorId, cfg.newAnchorId])
  }

  function EvidenceAt(s: Snapshot, at: Time): TimepointEvidence {
    TimepointEvidence(at, AnchorList(s.config, at), SortBy(Items(s, at, s.services), EvidenceKey))
  }

  /** Everything found at the given instants, in order. */
  function FindingsOver(s: Snapshot, times: seq<Time>): Findings {
    if times == [] then Findings([], [], [])
    else
      var at := times[|times| - 1];
      var rest := FindingsOver(s, times[..|times| - 1]);
      var failing := Failing(s, at, s.services);
      Findings(rest.affected + AffectedBy(s, at, failing), rest.broken + BrokenBy(s, at, failing),
               rest.evidence + [EvidenceAt(s, at)])
  }

  function ExplanationOf(cfg: ScenarioConfig, f: Findings): Explanation {
    if f.affected == [] then AllReachable
    else
      Failures(|f.affected|, |f.broken|,
               exists i | 0 <= i < |f.affected| :: f.affected[i].at < cfg.overlapStart,
               exists i | 0 <= i < |f.affected| :: f.affected[i].at > cfg.overlapEnd)
  }

  /** The result as a function of the snapshot alone. */
  function SimulationOf(s: Snapshot): SimulationResult {
    var f := FindingsOver(s, SampledTimes(s.config));
    SimulationResult(f, ExplanationOf(s.config, f))
  }

  // ----- the program

  method MapKeys(values: set<Uint>) returns (result: seq<Uint>)
    ensures Ascending(result) && forall y :: y in result <==> y in values
  {
    var todo := values;
    var found := [];
    while todo != {}
      invariant todo <= values
      invariant forall y :: y in found <==> y in values && y !in todo
      invariant forall j, k | 0 <= j < k < |found| :: found[j] != found[k]
      decreases todo
    {
      var key :| key in todo;
      found := found + [key];
      todo := todo - {key};
    }
    result := SortIds(found);
    SortedDistinctIsAscending(found, result);
    forall y ensures y in result <==> y in found {
      assert y in result <==> y in multiset(result);
      assert y in found <==> y in multiset(found);
    }
  }

  method Explain(cfg: ScenarioConfig, f: Findings) returns (e: Explanation)
    ensures e == ExplanationOf(cfg, f)
  {
    if |f.affected| == 0 {
      return AllReachable;
    }
    var before, after := 0, 0;
    for i := 0 to |f.affected|
      invariant before >= 0 && (before > 0 <==> exists j | 0 <= j < i :: f.affected[j].at < cfg.overlapStart)
      invariant after >= 0 && (after > 0 <==> exists j | 0 <= j < i :: f.affected[j].at > cfg.overlapEnd)
    {
      if f.affected[i].at < cfg.overlapStart { before := before + 1; }
      if f.affected[i].at > cfg.overlapEnd { after := after + 1; }
    }
    return Failures(|f.affected|, |f.broken|, before > 0, after > 0);
  }

  method DirectEvidence(s: Snapshot, at: Time, active: set<Uint>, chains: map<Uint, ChainSnapshot>)
    returns (direct: DirectMap)
    ensures direct == DirectOf(s.services, at, active, s.config.candidateChainIds, chains)
  {
    direct := map[];
    for i := 0 to |s.services|
      invariant direct == DirectOf(s.services[..i], at, active, s.config.candidateChainIds, chains)
    {
      assert s.services[..i + 1][..i] == s.services[..i];
      if s.services[i].state != "active" { continue; }
      var item := EvaluateDirect(s.services[i], at, active, s.config.candidateChainIds, chains);
      direct := direct[s.services[i].id := item];
    }
    assert s.services[..|s.services|] == s.services;
  }

  method PathCodes(path: seq<Uint>, services: ServiceMap) returns (codes: seq<string>)
    ensures codes == CodesOf(path, services)
  {
    codes := [];
    for i := 0 to |path|
      invariant codes == CodesOf(path[..i], services)
    {
      assert path[..i + 1][..i] == path[..i];
      if path[i] in services {
        codes := codes + [services[path[i]].code];
      }
    }
    assert path[..|path|] == path;
  }

  method SortEvidence(items: seq<ServiceEvidence>) returns (r: seq<ServiceEvidence>)
    requires KeyedBy(items, EvidenceKey)
    ensures r == SortBy(items, EvidenceKey)
  {
    var slice := SliceOf(items);
    SortSlice(slice, EvidenceKey);
    SortByIsSorted(items, EvidenceKey);
    KeyedByTransfers(items, slice[..], EvidenceKey);
    SortedIsUnique(slice[..], SortBy(items, EvidenceKey), EvidenceKey);
    return slice[..];
  }

  /** The body of the loop over instants. */
  method SimulateAt(s: Snapshot, at: Time, chains: map<Uint, ChainSnapshot>, services: ServiceMap)
    returns (affected: seq<AffectedService>, broken: seq<PathEntry>, evidence: TimepointEvidence)
    requires ValidSnapshot(s) && chains == ChainsById(s.chains) && services == ServicesById(s.services)
    ensures affected == AffectedBy(s, at, Failing(s, at, s.services))
    ensures broken == BrokenBy(s, at, Failing(s, at, s.services))
    ensures evidence == EvidenceAt(s, at)
  {
    var active := ActiveAnchors(s.config, at);
    var keys := MapKeys(active);
    AscendingIsUnique(keys, AnchorList(s.config, at));
    var direct := DirectEvidence(s, at, active, chains);
    var items;
    items, affected, broken := ResolveActive(s, at, direct, services);
    ItemsAreKeyed(s, at, s.services);
    var sorted := SortEvidence(items);
    evidence := TimepointEvidence(at, keys, sorted);
  }

  /** The loop over active services at one instant. */
  method ResolveActive(s: Snapshot, at: Time, direct: DirectMap, services: ServiceMap)
    returns (items: seq<ServiceEvidence>, affected: seq<AffectedService>, broken: seq<PathEntry>)
    requires direct == DirectAt(s, at) && services == ServicesById(s.services)
    ensures items == Items(s, at, s.services)
    ensures affected == AffectedBy(s, at, Failing(s, at, s.services))
    ensures broken == BrokenBy(s, at, Failing(s, at, s.services))
  {
    items, affected, broken := [], [], [];
    for i := 0 to |s.services|
      invariant items == Items(s, at, s.services[..i])
      invariant affected == AffectedBy(s, at, Failing(s, at, s.services[..i]))
      invariant broken == BrokenBy(s, at, Failing(s, at, s.services[..i]))
    {
      assert s.services[..i + 1][..i] == s.services[..i];
      var service := s.services[i];
      if service.state != "active" { continue; }
      var resolver := new Resolver(direct, services);
      var item, path := resolver.ResolveService(service.id, []);
      assert (item, path) == OutcomeAt(s, service.id, at);
      items := items + [item];
      if !item.reachable {
        affected := affected + [AffectedService(service.id, service.code, service.criticality, at, item.reason)];
        var codes := PathCodes(path, services);
        broken := broken + [PathEntry(at, codes, item.reason)];
      }
    }
    assert s.services[..|s.services|] == s.services;
  }

  method IndexById(s: Snapshot) returns (chainById: map<Uint, ChainSnapshot>, serviceById: ServiceMap)
    ensures chainById == ChainsById(s.chains) && serviceById == ServicesById(s.services)
  {
    chainById, serviceById := map[], map[];
    for i := 0 to |s.chains|
      invariant chainById == ChainsById(s.chains[..i])
    {
      assert s.chains[..i + 1][..i] == s.chains[..i];
      chainById := chainById[s.chains[i].id := s.chains[i]];
    }
    assert s.chains[..|s.chains|] == s.chains;
    for i := 0 to |s.services|
      invariant serviceById == ServicesById(s.services[..i])
    {
      assert s.services[..i + 1][..i] == s.services[..i];
      serviceById := serviceById[s.services[i].id := s.services[i]];
    }
    assert s.services[..|s.services|] == s.services;
  }

  /** The loop over instants. */
  method SimulateOver(s: Snapshot, points: seq<Time>) returns (f: Findings)
    requires ValidSnapshot(s)
    ensures f == FindingsOver(s, points)
  {
    var chainById, serviceById := IndexById(s);
    f := Findings([], [], []);
    for i := 0 to |points|
      invariant f == FindingsOver(s, points[..i])
    {
      assert points[..i + 1][..i] == points[..i];
      var affected, broken, evidence := SimulateAt(s, points[i], chainById, serviceById);
      f := Findings(f.affected + affected, f.broken + broken, f.evidence + [evidence]);
    }
    assert points[..|points|] == points;
  }

  method Simulate(s: Snapshot) returns (r: Result<SimulationResult, SnapshotError>)
    ensures r.Ok? <==> ValidSnapshot(s)
    ensures r.Ok? ==> r.value == SimulationOf(s)
    ensures r.Err? ==> Explains(s, r.error)
  {
    var err := ValidateSnapshot(s);
    if err.Some? {
      return Err(err.value);
    }
    var points := CriticalTimes(s.config);
    var f := SimulateOver(s, points);
    var explanation := Explain(s.config, f);
    return Ok(SimulationResult(f, explanation));
  }

  /** Direct evidence is filed under its own service and never blames a dependency or a cycle. */
  lemma {:induction false} DirectOfIsOwn(services: seq<ServiceSnapshot>, at: Time, active: set<Uint>,
                                         candidates: seq<Uint>, chains: map<Uint, ChainSnapshot>)
    ensures OwnReasons(DirectOf(services, at, active, candidates, chains))
    ensures forall id: Uint :: id in DirectOf(services, at, active, candidates, chains)
                         <==> exists service :: service in services && service.id == id && service.state == "active"
  {
    if services != [] {
      var last := services[|services| - 1];
      assert services == services[..|services| - 1] + [last];
      DirectOfIsOwn(services[..|services| - 1], at, active, candidates, chains);
      DirectPicksLeastUsable(last, at, active, candidates, chains);
      DirectReason(last, at, active, candidates, chains);
    }
  }

  lemma DirectReason(service: ServiceSnapshot, at: Time, active: set<Uint>, candidates: seq<Uint>,
                     chains: map<Uint, ChainSnapshot>)
    ensures !Direct(service, at, active, candidates, chains).reason.Upstream?
    ensures !Direct(service, at, active, candidates, chains).reason.CycleEncountered?
  {
    if service.chainId in chains {
      ScanReason(service, at, active, chains, chains[service.chainId].leafSubject, Candidates(service, candidates), []);
    }
  }

  lemma ScanReason(service: ServiceSnapshot, at: Time, active: set<Uint>, chains: map<Uint, ChainSnapshot>,
                   leaf: string, ids: seq<Uint>, reasons: seq<Rejection>)
    ensures !Scan(service, at, active, chains, leaf, ids, reasons).reason.Upstream?
    ensures !Scan(service, at, active, chains, leaf, ids, reasons).reason.CycleEncountered?
  {
  }

  lemma {:induction false} ItemsAreKeyed(s: Snapshot, at: Time, services: seq<ServiceSnapshot>)
    ensures KeyedBy(Items(s, at, services), EvidenceKey)
    ensures forall e | e in Items(s, at, services) :: e == OutcomeAt(s, e.serviceId, at).0
  {
    if services != [] {
      ItemsAreKeyed(s, at, services[..|services| - 1]);
      OutcomeKeepsId(s, services[|services| - 1].id, at);
    }
  }

  lemma OutcomeKeepsId(s: Snapshot, id: Uint, at: Time)
    ensures OutcomeAt(s, id, at).0.serviceId == id
    ensures id in DirectAt(s, at) ==> SameSelection(OutcomeAt(s, id, at).0, DirectAt(s, at)[id])
  {
    DirectOfIsOwn(s.services, at, ActiveAnchors(s.config, at), s.config.candidateChainIds, ChainsById(s.chains));
    ResolveKeepsSelection(id, DirectAt(s, at), ServicesById(s.services), {}, []);
  }
}
