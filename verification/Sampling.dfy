/** When the six sampled instants speak for the whole window around the overlap. */
module Sampling {
  import opened Prelude
  import opened Graphs
  import opened Snapshots
  import opened DirectPaths
  import opened Resolution
  import opened Simulation
  import opened Reports

  predicate InSpan(cfg: ScenarioConfig, t: Time) {
    cfg.overlapStart - MINUTE <= t <= cfg.overlapEnd + MINUTE
  }

  /** Before, during or after the overlap. */
  ghost predicate SamePhase(cfg: ScenarioConfig, a: Time, b: Time) {
    (a < cfg.overlapStart <==> b < cfg.overlapStart) && (a > cfg.overlapEnd <==> b > cfg.overlapEnd)
  }

  /** Some chain starts or stops being valid at `x`. */
  ghost predicate Boundary(s: Snapshot, x: Time) {
    exists chain :: chain in s.chains && (chain.validFrom == x || chain.validTo == x)
  }

  ghost predicate NoBoundaryIn(s: Snapshot, a: Time, b: Time) {
    forall x | a < x <= b :: !Boundary(s, x)
  }

  lemma {:induction false} ChainsByIdComesFromList(chains: seq<ChainSnapshot>)
    ensures forall id | id in ChainsById(chains) :: ChainsById(chains)[id] in chains
  {
    if chains != [] {
      assert chains == chains[..|chains| - 1] + [chains[|chains| - 1]];
      ChainsByIdComesFromList(chains[..|chains| - 1]);
    }
  }

  ghost predicate SameWindows(chains: map<Uint, ChainSnapshot>, a: Time, b: Time) {
    forall id | id in chains :: InWindow(chains[id], a) <==> InWindow(chains[id], b)
  }

  lemma {:induction false} ScanIsConstant(service: ServiceSnapshot, a: Time, b: Time, active: set<Uint>,
                                          chains: map<Uint, ChainSnapshot>, leaf: string, ids: seq<Uint>,
                                          reasons: seq<Rejection>)
    requires SameWindows(chains, a, b)
    ensures Scan(service, a, active, chains, leaf, ids, reasons) == Scan(service, b, active, chains, leaf, ids, reasons)
  {
    if ids != [] {
      if ids[0] !in chains || chains[ids[0]].leafSubject != leaf {
        ScanIsConstant(service, a, b, active, chains, leaf, ids[1..], reasons);
      } else {
        assert RejectionOf(service, a, active, chains[ids[0]]) == RejectionOf(service, b, active, chains[ids[0]]);
        match RejectionOf(service, a, active, chains[ids[0]])
        case Some(r) => ScanIsConstant(service, a, b, active, chains, leaf, ids[1..], reasons + [r]);
        case None =>
      }
    }
  }

  lemma {:induction false} DirectOfIsConstant(services: seq<ServiceSnapshot>, a: Time, b: Time, active: set<Uint>,
                                              candidates: seq<Uint>, chains: map<Uint, ChainSnapshot>)
    requires SameWindows(chains, a, b)
    ensures DirectOf(services, a, active, candidates, chains) == DirectOf(services, b, active, candidates, chains)
  {
    if services != [] {
      var last := services[|services| - 1];
      DirectOfIsConstant(services[..|services| - 1], a, b, active, candidates, chains);
      if last.chainId in chains {
        ScanIsConstant(last, a, b, active, chains, chains[last.chainId].leafSubject, Candidates(last, candidates), []);
      }
    }
  }

  /** Within a phase and between chain boundaries nothing changes: same evidence, same reasons, same paths. */
  lemma {:induction false} OutcomeIsConstant(s: Snapshot, a: Time, b: Time)
    requires SamePhase(s.config, a, b) && a <= b && NoBoundaryIn(s, a, b)
    ensures DirectAt(s, a) == DirectAt(s, b)
    ensures forall id :: OutcomeAt(s, id, a) == OutcomeAt(s, id, b)
    ensures forall id: Uint :: TrulyReachable(s, id, a) <==> TrulyReachable(s, id, b)
  {
    var chains := ChainsById(s.chains);
    ChainsByIdComesFromList(s.chains);
    forall id | id in chains ensures InWindow(chains[id], a) <==> InWindow(chains[id], b) {
      assert Boundary(s, chains[id].validFrom) && Boundary(s, chains[id].validTo);
    }
    DirectOfIsConstant(s.services, a, b, ActiveAnchors(s.config, a), s.config.candidateChainIds, chains);
  }

  /** Where each chain starts and stops being valid. */
  function Boundaries(chains: seq<ChainSnapshot>): seq<Time> {
    if chains == [] then []
    else
      var last := chains[|chains| - 1];
      Boundaries(chains[..|chains| - 1]) + [last.validFrom, last.validTo]
  }

  /** The instants where something can change: where each phase of the span begins, and the chain boundaries. */
  function Breakpoints(s: Snapshot): seq<Time> {
    [s.config.overlapStart - MINUTE, s.config.overlapStart, s.config.overlapEnd + 1] + Boundaries(s.chains)
  }

  lemma {:induction false} BoundariesAreListed(chains: seq<ChainSnapshot>)
    ensures |Boundaries(chains)| == 2 * |chains|
    ensures forall x :: x in Boundaries(chains)
                  <==> exists chain :: chain in chains && (chain.validFrom == x || chain.validTo == x)
  {
    if chains != [] {
      var last := chains[|chains| - 1];
      assert chains == chains[..|chains| - 1] + [last];
      BoundariesAreListed(chains[..|chains| - 1]);
    }
  }

  function PhaseStart(cfg: ScenarioConfig, t: Time): Time {
    if t < cfg.overlapStart then cfg.overlapStart - MINUTE
    else if t > cfg.overlapEnd then cfg.overlapEnd + 1
    else cfg.overlapStart
  }

  /** The last boundary at or before `t` and after `low`, or `low` if there is none. */
  lemma {:induction false} LastBoundary(s: Snapshot, low: Time, t: Time) returns (x: Time)
    requires low <= t
    ensures low <= x <= t && NoBoundaryIn(s, x, t)
    ensures x == low || Boundary(s, x)
    decreases t - low
  {
    if low == t || Boundary(s, t) {
      x := t;
    } else {
      x := LastBoundary(s, low, t - 1);
      forall y | x < y <= t ensures !Boundary(s, y) {
        if y < t { assert x < y <= t - 1; }
      }
    }
  }

  /** The breakpoint whose evidence is also that of `t`. */
  lemma {:induction false} NearestBreakpoint(s: Snapshot, t: Time) returns (x: Time)
    requires s.config.overlapStart < s.config.overlapEnd && InSpan(s.config, t)
    ensures x in Breakpoints(s) && InSpan(s.config, x) && x <= t
    ensures forall id :: OutcomeAt(s, id, x) == OutcomeAt(s, id, t)
    ensures forall id: Uint :: TrulyReachable(s, id, x) <==> TrulyReachable(s, id, t)
  {
    x := LastBoundary(s, PhaseStart(s.config, t), t);
    BoundariesAreListed(s.chains);
    OutcomeIsConstant(s, x, t);
  }

  /** At most three instants and two more for each chain decide the whole span: no condition on the chains. */
  lemma {:induction false} BreakpointsDecideSpan(s: Snapshot, id: Uint)
    requires s.config.overlapStart < s.config.overlapEnd
    ensures |Breakpoints(s)| == 3 + 2 * |s.chains|
    ensures (forall t | InSpan(s.config, t) :: TrulyReachable(s, id, t))
       <==> (forall x | x in Breakpoints(s) && InSpan(s.config, x) :: TrulyReachable(s, id, x))
  {
    BoundariesAreListed(s.chains);
    if forall x | x in Breakpoints(s) && InSpan(s.config, x) :: TrulyReachable(s, id, x) {
      forall t | InSpan(s.config, t) ensures TrulyReachable(s, id, t) {
        var x := NearestBreakpoint(s, t);
      }
    }
  }

  ghost predicate ReachableThroughout(s: Snapshot) {
    forall id, t | ActiveService(s, id) && InSpan(s.config, t) :: TrulyReachable(s, id, t)
  }

  /** Those of the given instants that lie in the span and are not sampled. */
  function Unsampled(cfg: ScenarioConfig, times: seq<Time>): (r: seq<Time>)
    ensures |r| <= |times|
    ensures forall x :: x in r <==> x in times && InSpan(cfg, x) && x !in Points(cfg)
  {
    if times == [] then []
    else
      var last := times[|times| - 1];
      assert times == times[..|times| - 1] + [last];
      Unsampled(cfg, times[..|times| - 1]) + if InSpan(cfg, last) && last !in Points(cfg) then [last] else []
  }

  /** What a caller can compute: the search itself, run at the given instants. */
  predicate PassesAt(s: Snapshot, times: seq<Time>) {
    forall service | service in s.services && service.state == "active" ::
      forall x | x in times :: ReachableAt(s, service.id, x)
  }

  lemma {:induction false} PassesAtIff(s: Snapshot, times: seq<Time>)
    ensures PassesAt(s, times) <==> forall id, x | ActiveService(s, id) && x in times :: TrulyReachable(s, id, x)
  {
    forall id: Uint, x ensures ReachableAt(s, id, x) <==> TrulyReachable(s, id, x) {
      ResolvedIffFullyReachable(id, DirectAt(s, x), ServicesById(s.services));
    }
    forall service | service in s.services && service.state == "active" ensures ActiveService(s, service.id) {
    }
  }

  /**
   * The exact condition under which "all reachable" is true of the whole span: the search also passes at the unsampled
   * breakpoints, a list of at most three instants and two more for each chain.
   */
  lemma {:induction false} AllReachableIsSoundIff(s: Snapshot)
    requires ValidSnapshot(s) && SimulationOf(s).explanation.AllReachable?
    ensures ReachableThroughout(s) <==> PassesAt(s, Unsampled(s.config, Breakpoints(s)))
    ensures |Unsampled(s.config, Breakpoints(s))| <= 3 + 2 * |s.chains|
  {
    AllReachableIff(s);
    PassesAtIff(s, Unsampled(s.config, Breakpoints(s)));
    if forall id, x | ActiveService(s, id) && x in Unsampled(s.config, Breakpoints(s)) :: TrulyReachable(s, id, x) {
      forall id, t | ActiveService(s, id) && InSpan(s.config, t) ensures TrulyReachable(s, id, t) {
        forall x | x in Breakpoints(s) && InSpan(s.config, x) ensures TrulyReachable(s, id, x) {
          assert x in Points(s.config) || x in Unsampled(s.config, Breakpoints(s));
        }
        BreakpointsDecideSpan(s, id);
      }
    }
    BoundariesAreListed(s.chains);
  }

  lemma {:induction false} PhaseSample(s: Snapshot, t: Time) returns (p: Time)
    requires s.config.overlapStart < s.config.overlapEnd && InSpan(s.config, t)
    requires NoBoundaryIn(s, s.config.overlapStart - MINUTE, s.config.overlapEnd + MINUTE)
    ensures p in Points(s.config) && InSpan(s.config, p)
    ensures forall id: Uint :: TrulyReachable(s, id, p) <==> TrulyReachable(s, id, t)
  {
    if t > s.config.overlapEnd {
      p := s.config.overlapEnd + MINUTE;
      OutcomeIsConstant(s, t, p);
    } else {
      p := PhaseStart(s.config, t);
      OutcomeIsConstant(s, p, t);
    }
  }

  /** With no chain boundary in the span the six samples suffice. */
  lemma {:induction false} SamplingSuffices(s: Snapshot)
    requires ValidSnapshot(s) && SimulationOf(s).explanation.AllReachable?
    requires NoBoundaryIn(s, s.config.overlapStart - MINUTE, s.config.overlapEnd + MINUTE)
    ensures ReachableThroughout(s)
  {
    AllReachableIff(s);
    forall id, t | ActiveService(s, id) && InSpan(s.config, t) ensures TrulyReachable(s, id, t) {
      var p := PhaseSample(s, t);
    }
  }

  // ----- between two samples, whatever the boundaries

  ghost predicate SameChoice(s: Snapshot, id: Uint, t1: Time, t2: Time) {
    id in DirectAt(s, t1) && id in DirectAt(s, t2)
    && DirectAt(s, t1)[id].selectedChainId == DirectAt(s, t2)[id].selectedChainId
  }

  lemma {:induction false} DirectOfIsConvex(services: seq<ServiceSnapshot>, id: Uint, t1: Time, t: Time, t2: Time,
                                            active: set<Uint>, candidates: seq<Uint>, chains: map<Uint, ChainSnapshot>)
    requires t1 <= t <= t2
    requires
      var d1 := DirectOf(services, t1, active, candidates, chains);
      var d2 := DirectOf(services, t2, active, candidates, chains);
      DirectOk(d1, id) && DirectOk(d2, id) && d1[id].selectedChainId == d2[id].selectedChainId
    ensures DirectOk(DirectOf(services, t, active, candidates, chains), id)
  {
    if services != [] {
      var last := services[|services| - 1];
      if last.state == "active" && last.id == id {
        DirectPicksLeastUsable(last, t1, active, candidates, chains);
        DirectPicksLeastUsable(last, t2, active, candidates, chains);
        DirectPicksLeastUsable(last, t, active, candidates, chains);
        var chosen := Direct(last, t1, active, candidates, chains).selectedChainId;
        assert Usable(last, t, active, chains, chosen);
      } else {
        DirectOfIsConvex(services[..|services| - 1], id, t1, t, t2, active, candidates, chains);
      }
    }
  }

  /** Reachable at both ends through the same chains, in one phase: reachable at every instant in between. */
  lemma {:induction false} ReachabilityInterpolates(s: Snapshot, id: Uint, t1: Time, t: Time, t2: Time)
    requires t1 <= t <= t2 && SamePhase(s.config, t1, t2)
    requires TrulyReachable(s, id, t1) && TrulyReachable(s, id, t2)
    requires forall n: Uint | Reaches(Edges(ServicesById(s.services)), id, n) :: SameChoice(s, n, t1, t2)
    ensures TrulyReachable(s, id, t)
  {
    var g := Edges(ServicesById(s.services));
    forall n: Uint | Reaches(g, id, n) ensures DirectOk(DirectAt(s, t), n) {
      assert DirectOk(DirectAt(s, t1), n) && DirectOk(DirectAt(s, t2), n) && SameChoice(s, n, t1, t2);
      DirectOfIsConvex(s.services, n, t1, t, t2, ActiveAnchors(s.config, t), s.config.candidateChainIds,
                       ChainsById(s.chains));
    }
  }

  // ----- a gap the samples miss

  /** One service, an old chain that lapses and a new chain that starts a second later, both between two samples. */
  function GapSnapshot(): Snapshot {
    var start := 10 * MINUTE;
    Snapshot(
      VERSION,
      ScenarioConfig("gap", 1, 2, start, start + 20 * MINUTE, [1, 2], start),
      [AnchorSnapshot(1, "old", "valid", 0, 100 * MINUTE, false),
       AnchorSnapshot(2, "new", "valid", 0, 100 * MINUTE, false)],
      [ChainSnapshot(1, "old", 1, "leaf", 0, start + MINUTE, "validated", true),
       ChainSnapshot(2, "new", 2, "leaf", start + 2 * MINUTE, 100 * MINUTE, "validated", true)],
      [ServiceSnapshot(1, "api", 1, [1, 2], [], "critical", "active")])
  }

  lemma {:induction false} GapMaps(at: Time)
    ensures
      var s := GapSnapshot();
      && ServicesById(s.services) == map[1 := s.services[0]]
      && ChainsById(s.chains) == map[1 := s.chains[0], 2 := s.chains[1]]
      && DirectAt(s, at)
         == map[1 := Direct(s.services[0], at, ActiveAnchors(s.config, at), [1, 2], ChainsById(s.chains))]
  {
    var s := GapSnapshot();
    assert s.services[..0] == [] && s.chains[..1] == [s.chains[0]] && [s.chains[0]][..0] == [];
    assert ChainsById([s.chains[0]]) == map[1 := s.chains[0]];
    assert DirectOf([], at, ActiveAnchors(s.config, at), [1, 2], ChainsById(s.chains)) == map[];
  }

  lemma {:induction false} GapDirect(at: Time)
    ensures DirectOk(DirectAt(GapSnapshot(), at), 1) <==> 0 <= at < 11 * MINUTE || 12 * MINUTE <= at < 100 * MINUTE
  {
    var s := GapSnapshot();
    GapMaps(at);
    var service, chains, active := s.services[0], ChainsById(s.chains), ActiveAnchors(s.config, at);
    DirectPicksLeastUsable(service, at, active, [1, 2], chains);
    assert Considered(service, [1, 2], 1) && Considered(service, [1, 2], 2);
    assert Usable(service, at, active, chains, 1) <==> 0 <= at < 11 * MINUTE;
    assert Usable(service, at, active, chains, 2) <==> 12 * MINUTE <= at < 100 * MINUTE;
  }

  lemma {:induction false} GapReachableIff(at: Time)
    ensures TrulyReachable(GapSnapshot(), 1, at) <==> 0 <= at < 11 * MINUTE || 12 * MINUTE <= at < 100 * MINUTE
  {
    var s := GapSnapshot();
    GapMaps(at);
    GapDirect(at);
    var g := Edges(ServicesById(s.services));
    assert Succ(g, 1) == [];
    forall n: Uint ensures Reaches(g, 1, n) <==> n == 1 { ReachesUnfold(g, 1, n); }
    assert TrulyReachable(s, 1, at) <==> DirectOk(DirectAt(s, at), 1) by {
      assert !OnCycle(g, 1) && Reaches(g, 1, 1);
    }
  }

  lemma GapIsValid()
    ensures ValidSnapshot(GapSnapshot())
  {
    var s := GapSnapshot();
    GapMaps(0);
    assert s.anchors[0] in s.anchors && s.anchors[1] in s.anchors;
    assert KnowsAnchor(s, 1) && KnowsAnchor(s, 2);
    assert s.chains[0] in s.chains && s.chains[1] in s.chains;
    assert KnowsChain(s, 1) && KnowsChain(s, 2);
    forall v: Uint ensures !OnCycle(Edges(ServicesById(s.services)), v) {
      assert Succ(Edges(ServicesById(s.services)), v) == [];
    }
  }

  /** The hypothesis on boundaries is needed: all samples pass, yet the service is cut off for a minute. */
  lemma {:induction false} SamplesCanMissAGap()
    ensures ValidSnapshot(GapSnapshot()) && SimulationOf(GapSnapshot()).explanation.AllReachable?
    ensures ActiveService(GapSnapshot(), 1) && InSpan(GapSnapshot().config, 11 * MINUTE)
    ensures forall t | 11 * MINUTE <= t < 12 * MINUTE :: !TrulyReachable(GapSnapshot(), 1, t)
  {
    var s := GapSnapshot();
    GapIsValid();
    forall t | 11 * MINUTE <= t < 12 * MINUTE ensures !TrulyReachable(s, 1, t) {
      GapReachableIff(t);
    }
    assert s.services[0] in s.services && ActiveService(s, 1);
    forall id, at | at in Points(s.config) && ActiveService(s, id) ensures TrulyReachable(s, id, at) {
      assert id == 1;
      GapReachableIff(at);
    }
    AllReachableIff(s);
  }
}
