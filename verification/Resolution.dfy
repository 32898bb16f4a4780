/** Reachability through dependencies: the unmemoised search, its exact meaning, and the broken path it reports. */
module Resolution {
  import opened Prelude
  import opened Graphs
  import opened Snapshots
  import opened DirectPaths

  type DirectMap = map<Uint, ServiceEvidence>
  type ServiceMap = map<Uint, ServiceSnapshot>

  function Dependencies(services: ServiceMap, id: Uint): seq<Uint> {
    if id in services then services[id].dependencyIds else []
  }

  function Absent(id: Uint): ServiceEvidence {
    ServiceEvidence(id, "", false, 0, 0, AbsentOrInactive)
  }

  function Blame(item: ServiceEvidence, dep: ServiceEvidence): ServiceEvidence {
    item.(reachable := false, reason := Upstream(dep.serviceCode, dep.reason))
  }

  function Resolve(id: Uint, direct: DirectMap, services: ServiceMap, visiting: set<Uint>, path: seq<Uint>)
    : (ServiceEvidence, seq<Uint>)
    decreases direct.Keys - visiting, 0
  {
    if id !in direct then (Absent(id), path + [id])
    else if id in visiting then
      (direct[id].(reachable := false, reason := CycleEncountered), path + [id])
    else if !direct[id].reachable then (direct[id], path + [id])
    else
      ResolveAll(direct[id], Dependencies(services, id), direct, services, visiting + {id}, path + [id])
  }

  function ResolveAll(item: ServiceEvidence, deps: seq<Uint>, direct: DirectMap, services: ServiceMap,
                      visiting: set<Uint>, path: seq<Uint>): (ServiceEvidence, seq<Uint>)
    decreases direct.Keys - visiting, |deps|
  {
    if deps == [] then (item, path)
    else
      var (dep, broken) := Resolve(deps[0], direct, services, visiting, path);
      if !dep.reachable then (Blame(item, dep), broken)
      else ResolveAll(item, deps[1..], direct, services, visiting, path)
  }

  /** One top-level resolution and the `visiting` map its calls share. */
  class Resolver {
    const direct: DirectMap
    const services: ServiceMap
    var visiting: set<Uint>

    constructor (direct: DirectMap, services: ServiceMap)
      ensures this.direct == direct && this.services == services && visiting == {}
    {
      this.direct, this.services, visiting := direct, services, {};
    }

    method ResolveService(id: Uint, path: seq<Uint>) returns (item: ServiceEvidence, broken: seq<Uint>)
      modifies this`visiting
      ensures (item, broken) == Resolve(id, direct, services, old(visiting), path)
      ensures visiting == old(visiting)
      decreases direct.Keys - visiting
    {
      if id !in direct {
        return Absent(id), path + [id];
      }
      item := direct[id];
      var currentPath := path + [id];
      if id in visiting {
        item := item.(reachable := false, reason := CycleEncountered);
        return item, currentPath;
      }
      if !item.reachable {
        return item, currentPath;
      }
      visiting := visiting + {id};
      var deps := Dependencies(services, id);
      for i := 0 to |deps|
        invariant visiting == old(visiting) + {id}
        invariant Resolve(id, direct, services, old(visiting), path)
               == ResolveAll(item, deps[i..], direct, services, visiting, currentPath)
      {
        var dep, brokenPath := ResolveService(deps[i], currentPath);
        assert deps[i..][0] == deps[i] && deps[i..][1..] == deps[i + 1..];
        if !dep.reachable {
          item := item.(reachable := false, reason := Upstream(dep.serviceCode, dep.reason));
          visiting := visiting - {id};
          return item, brokenPath;
        }
      }
      visiting := visiting - {id};
      return item, currentPath;
    }
  }

  // ----- what the search decides

  predicate DirectOk(direct: DirectMap, id: Uint) {
    id in direct && direct[id].reachable
  }

  /** The whole dependency closure is active and directly reachable, and holds no cycle. */
  ghost predicate FullyReachable(direct: DirectMap, g: Graph, id: Uint) {
    forall n: Uint :: Reaches(g, id, n) ==> DirectOk(direct, n) && !OnCycle(g, n)
  }

  ghost predicate Avoids(g: Graph, id: Uint, visiting: set<Uint>) {
    forall n: Uint :: Reaches(g, id, n) ==> n !in visiting
  }

  /** One unfolding: a service is fully reachable when it is fine itself and its dependencies avoid it and are. */
  lemma {:induction false} FullyReachableUnfolds(direct: DirectMap, g: Graph, id: Uint, visiting: set<Uint>)
    ensures FullyReachable(direct, g, id) && Avoids(g, id, visiting)
       <==> DirectOk(direct, id) && id !in visiting
            && forall d | d in Succ(g, id) :: FullyReachable(direct, g, d) && Avoids(g, d, visiting + {id})
  {
    ReachesSelf(g, id);
    if FullyReachable(direct, g, id) && Avoids(g, id, visiting) {
      forall d, n: Uint | d in Succ(g, id) && Reaches(g, d, n)
        ensures DirectOk(direct, n) && !OnCycle(g, n) && n !in visiting + {id}
      {
        ReachesFirst(g, id, d, n);
      }
    }
    if DirectOk(direct, id) && id !in visiting
       && forall d | d in Succ(g, id) :: FullyReachable(direct, g, d) && Avoids(g, d, visiting + {id})
    {
      forall n: Uint | Reaches(g, id, n) ensures DirectOk(direct, n) && !OnCycle(g, n) && n !in visiting {
        ReachesUnfold(g, id, n);
      }
    }
  }

  /** The search is exact on every graph, cyclic or not, from every set of ancestors in progress. */
  lemma {:induction false} ResolveIsExact(id: Uint, direct: DirectMap, services: ServiceMap, visiting: set<Uint>,
                                          path: seq<Uint>)
    ensures Resolve(id, direct, services, visiting, path).0.reachable
       <==> FullyReachable(direct, Edges(services), id) && Avoids(Edges(services), id, visiting)
    decreases direct.Keys - visiting, 0
  {
    var g := Edges(services);
    FullyReachableUnfolds(direct, g, id, visiting);
    if id in direct && id !in visiting && direct[id].reachable {
      ResolveAllIsExact(direct[id], Dependencies(services, id), direct, services, visiting + {id}, path + [id]);
    }
  }

  lemma {:induction false} ResolveAllIsExact(item: ServiceEvidence, deps: seq<Uint>, direct: DirectMap,
                                             services: ServiceMap, visiting: set<Uint>, path: seq<Uint>)
    requires item.reachable
    ensures ResolveAll(item, deps, direct, services, visiting, path).0.reachable
       <==> forall d | d in deps :: FullyReachable(direct, Edges(services), d) && Avoids(Edges(services), d, visiting)
    decreases direct.Keys - visiting, |deps|
  {
    if deps != [] {
      assert deps == [deps[0]] + deps[1..];
      ResolveIsExact(deps[0], direct, services, visiting, path);
      ResolveAllIsExact(item, deps[1..], direct, services, visiting, path);
    }
  }

  /** The top-level question: no ancestor is in progress. */
  lemma {:induction false} ResolvedIffFullyReachable(id: Uint, direct: DirectMap, services: ServiceMap)
    ensures Resolve(id, direct, services, {}, []).0.reachable <==> FullyReachable(direct, Edges(services), id)
  {
    ResolveIsExact(id, direct, services, {}, []);
  }

  // ----- the reported reason and path

  function RootCause(r: Reason): Reason {
    if r.Upstream? then RootCause(r.cause) else r
  }

  function Wraps(r: Reason): nat {
    if r.Upstream? then 1 + Wraps(r.cause) else 0
  }

  /** Direct evidence never blames a dependency. */
  ghost predicate OwnReasons(direct: DirectMap) {
    forall id | id in direct ::
      direct[id].serviceId == id && !direct[id].reason.Upstream? && !direct[id].reason.CycleEncountered?
  }

  /** Every vertex of `visiting` can reach `id`: how the search always calls itself. */
  ghost predicate Ancestors(g: Graph, visiting: set<Uint>, id: Uint) {
    forall v | v in visiting :: exists d :: d in Succ(g, v) && Reaches(g, d, id)
  }

  lemma {:induction false} AncestorsExtend(g: Graph, visiting: set<Uint>, id: Uint, d: Uint)
    requires Ancestors(g, visiting, id) && d in Succ(g, id)
    ensures Ancestors(g, visiting + {id}, d)
  {
    ReachesSelf(g, d);
    ReachesFirst(g, id, d, d);
    forall v | v in visiting ensures exists e :: e in Succ(g, v) && Reaches(g, e, d) {
      var e :| e in Succ(g, v) && Reaches(g, e, id);
      ReachesTransitive(g, e, id, d);
    }
  }

  /** A reported cycle is a real one that the service depends on. */
  lemma {:induction false} ReportedCycleIsReal(id: Uint, direct: DirectMap, services: ServiceMap, visiting: set<Uint>,
                                               path: seq<Uint>)
    requires OwnReasons(direct) && Ancestors(Edges(services), visiting, id)
    requires RootCause(Resolve(id, direct, services, visiting, path).0.reason).CycleEncountered?
    ensures exists n :: Reaches(Edges(services), id, n) && OnCycle(Edges(services), n)
    decreases direct.Keys - visiting, 0
  {
    var g := Edges(services);
    ReachesSelf(g, id);
    if id in visiting {
      assert OnCycle(g, id);
    } else {
      ReportedCycleAmongDependencies(id, Dependencies(services, id), direct, services, visiting, path);
    }
  }

  lemma {:induction false} ReportedCycleAmongDependencies(
    id: Uint, deps: seq<Uint>, direct: DirectMap, services: ServiceMap, visiting: set<Uint>, path: seq<Uint>)
    requires OwnReasons(direct) && Ancestors(Edges(services), visiting, id)
    requires DirectOk(direct, id) && id !in visiting
    requires forall d | d in deps :: d in Succ(Edges(services), id)
    requires
      var item := ResolveAll(direct[id], deps, direct, services, visiting + {id}, path + [id]).0;
      RootCause(item.reason).CycleEncountered?
    ensures exists n :: Reaches(Edges(services), id, n) && OnCycle(Edges(services), n)
    decreases direct.Keys - visiting - {id}, |deps|
  {
    var g := Edges(services);
    assert direct.Keys - visiting - {id} == direct.Keys - (visiting + {id});
    var d := deps[0];
    if Resolve(d, direct, services, visiting + {id}, path + [id]).0.reachable {
      ReportedCycleAmongDependencies(id, deps[1..], direct, services, visiting, path);
    } else {
      AncestorsExtend(g, visiting, id, d);
      ReportedCycleIsReal(d, direct, services, visiting + {id}, path + [id]);
      var n :| Reaches(g, d, n) && OnCycle(g, n);
      ReachesFirst(g, id, d, n);
    }
  }

  // ----- the cycle branch

  /** In this call or one below it a service is met among its own ancestors. */
  ghost predicate TakesCycleBranch(id: Uint, direct: DirectMap, services: ServiceMap, visiting: set<Uint>,
                                   path: seq<Uint>)
    decreases direct.Keys - visiting, 0
  {
    id in direct &&
    (id in visiting
     || (direct[id].reachable
         && DependenciesTakeBranch(Dependencies(services, id), direct, services, visiting + {id}, path + [id])))
  }

  ghost predicate DependenciesTakeBranch(deps: seq<Uint>, direct: DirectMap, services: ServiceMap,
                                         visiting: set<Uint>, path: seq<Uint>)
    decreases direct.Keys - visiting, |deps|
  {
    deps != [] &&
    (TakesCycleBranch(deps[0], direct, services, visiting, path)
     || (Resolve(deps[0], direct, services, visiting, path).0.reachable
         && DependenciesTakeBranch(deps[1..], direct, services, visiting, path)))
  }

  /** On every graph the branch is taken exactly when the reason carries it to the top. */
  lemma {:induction false} CycleBranchIsReported(id: Uint, direct: DirectMap, services: ServiceMap,
                                                 visiting: set<Uint>, path: seq<Uint>)
    requires OwnReasons(direct)
    ensures TakesCycleBranch(id, direct, services, visiting, path)
       <==> RootCause(Resolve(id, direct, services, visiting, path).0.reason).CycleEncountered?
    ensures Resolve(id, direct, services, visiting, path).0.reachable ==>
              id in direct && Resolve(id, direct, services, visiting, path).0 == direct[id]
    decreases direct.Keys - visiting, 0
  {
    if DirectOk(direct, id) && id !in visiting {
      CycleBranchIsReportedBelow(direct[id], Dependencies(services, id), direct, services, visiting + {id},
                                 path + [id]);
    }
  }

  lemma {:induction false} CycleBranchIsReportedBelow(item: ServiceEvidence, deps: seq<Uint>, direct: DirectMap,
                                                      services: ServiceMap, visiting: set<Uint>, path: seq<Uint>)
    requires OwnReasons(direct) && !RootCause(item.reason).CycleEncountered?
    ensures DependenciesTakeBranch(deps, direct, services, visiting, path)
       <==> RootCause(ResolveAll(item, deps, direct, services, visiting, path).0.reason).CycleEncountered?
    ensures ResolveAll(item, deps, direct, services, visiting, path).0.reachable ==>
              ResolveAll(item, deps, direct, services, visiting, path).0 == item
    decreases direct.Keys - visiting, |deps|
  {
    if deps != [] {
      CycleBranchIsReported(deps[0], direct, services, visiting, path);
      CycleBranchIsReportedBelow(item, deps[1..], direct, services, visiting, path);
    }
  }

  /** On an accepted graph no call takes the branch. */
  lemma {:induction false} CycleBranchIsNeverTaken(id: Uint, direct: DirectMap, services: ServiceMap,
                                                   visiting: set<Uint>, path: seq<Uint>)
    requires Acyclic(Edges(services)) && Ancestors(Edges(services), visiting, id)
    ensures !TakesCycleBranch(id, direct, services, visiting, path)
    decreases direct.Keys - visiting, 0
  {
    var g := Edges(services);
    NoAncestorAhead(g, visiting, id);
    ReachesSelf(g, id);
    if DirectOk(direct, id) {
      forall d | d in Dependencies(services, id) ensures Ancestors(g, visiting + {id}, d) {
        AncestorsExtend(g, visiting, id, d);
      }
      CycleBranchIsNeverTakenBelow(Dependencies(services, id), direct, services, visiting + {id}, path + [id]);
    }
  }

  lemma {:induction false} CycleBranchIsNeverTakenBelow(deps: seq<Uint>, direct: DirectMap, services: ServiceMap,
                                                        visiting: set<Uint>, path: seq<Uint>)
    requires Acyclic(Edges(services)) && forall d | d in deps :: Ancestors(Edges(services), visiting, d)
    ensures !DependenciesTakeBranch(deps, direct, services, visiting, path)
    decreases direct.Keys - visiting, |deps|
  {
    if deps != [] {
      CycleBranchIsNeverTaken(deps[0], direct, services, visiting, path);
      CycleBranchIsNeverTakenBelow(deps[1..], direct, services, visiting, path);
    }
  }

  lemma {:induction false} AcceptedGraphNeverReportsCycle(id: Uint, direct: DirectMap, services: ServiceMap)
    requires OwnReasons(direct) && Acyclic(Edges(services))
    ensures !RootCause(Resolve(id, direct, services, {}, []).0.reason).CycleEncountered?
  {
    CycleBranchIsReported(id, direct, services, {}, []);
    CycleBranchIsNeverTaken(id, direct, services, {}, []);
  }

  /** The two searches agree: where all are directly reachable, all resolve exactly when detectCycle accepts. */
  lemma {:induction false} SearchesAgree(direct: DirectMap, services: ServiceMap)
    requires Closed(Edges(services)) && forall id | id in services :: DirectOk(direct, id)
    ensures (forall id | id in services :: Resolve(id, direct, services, {}, []).0.reachable)
       <==> Acyclic(Edges(services))
  {
    var g := Edges(services);
    assert ClosedUnderSucc(g, g.Keys);
    forall id | id in services
      ensures Resolve(id, direct, services, {}, []).0.reachable ==> !OnCycle(g, id)
      ensures Acyclic(g) ==> Resolve(id, direct, services, {}, []).0.reachable
    {
      ResolvedIffFullyReachable(id, direct, services);
      ReachesSelf(g, id);
      forall n: Uint | Reaches(g, id, n) ensures DirectOk(direct, n) {
        ReachesStaysInside(g, g.Keys, id, n);
      }
    }
    forall v: Uint | v !in services ensures !OnCycle(g, v) {
      assert Succ(g, v) == [];
    }
  }

  /**
   * `w` leads from `id` to the root of its failure: each step goes to the first dependency in list order that is not
   * fully reachable, and only the last service is itself absent, inactive or directly unreachable.
   */
  ghost predicate BrokenPath(direct: DirectMap, services: ServiceMap, id: Uint, w: seq<Uint>) {
    var g := Edges(services);
    && |w| > 0 && w[0] == id
    && (forall i | 0 <= i < |w| - 1 :: DirectOk(direct, w[i]) && FirstFailing(direct, g, Succ(g, w[i]), w[i + 1]))
    && !DirectOk(direct, w[|w| - 1])
  }

  ghost predicate FirstFailing(direct: DirectMap, g: Graph, deps: seq<Uint>, d: Uint) {
    exists k :: 0 <= k < |deps| && deps[k] == d && !FullyReachable(direct, g, d)
                && forall j | 0 <= j < k :: FullyReachable(direct, g, deps[j])
  }

  /**
   * The reason unwraps along the path: each step blames the next service by its code, and the last gives the root's own
   * reason.
   */
  ghost predicate Explained(direct: DirectMap, reason: Reason, w: seq<Uint>)
    requires |w| > 0
  {
    if |w| == 1 then reason == if w[0] in direct then direct[w[0]].reason else AbsentOrInactive
    else
      && reason.Upstream? && reason.serviceCode == (if w[1] in direct then direct[w[1]].serviceCode else "")
      && Explained(direct, reason.cause, w[1..])
  }

  /** So it wraps the root's reason exactly once per step. */
  lemma {:induction false} ExplainedWraps(direct: DirectMap, reason: Reason, w: seq<Uint>)
    requires |w| > 0 && OwnReasons(direct) && Explained(direct, reason, w)
    ensures Wraps(reason) == |w| - 1
    ensures
      var root := w[|w| - 1];
      RootCause(reason) == if root in direct then direct[root].reason else AbsentOrInactive
  {
    if |w| > 1 {
      ExplainedWraps(direct, reason.cause, w[1..]);
    }
  }

  /** Resolving changes only the verdict and its reason: a selected chain stays even when a dependency fails. */
  ghost predicate SameSelection(a: ServiceEvidence, b: ServiceEvidence) {
    a == b.(reachable := a.reachable, reason := a.reason)
  }

  lemma ResolveKeepsSelection(id: Uint, direct: DirectMap, services: ServiceMap, visiting: set<Uint>, path: seq<Uint>)
    requires OwnReasons(direct)
    ensures Resolve(id, direct, services, visiting, path).0.serviceId == id
    ensures id !in direct ==> Resolve(id, direct, services, visiting, path).0.serviceCode == ""
    ensures id in direct ==> SameSelection(Resolve(id, direct, services, visiting, path).0, direct[id])
  {
    if id in direct && id !in visiting && direct[id].reachable {
      ResolveAllKeepsSelection(direct[id], Dependencies(services, id), direct, services, visiting + {id}, path + [id]);
    }
  }

  lemma ResolveAllKeepsSelection(item: ServiceEvidence, deps: seq<Uint>, direct: DirectMap, services: ServiceMap,
                                 visiting: set<Uint>, path: seq<Uint>)
    ensures SameSelection(ResolveAll(item, deps, direct, services, visiting, path).0, item)
    decreases |deps|
  {
    if deps != [] {
      ResolveAllKeepsSelection(item, deps[1..], direct, services, visiting, path);
    }
  }

  lemma {:induction false} ResolveWitness(id: Uint, direct: DirectMap, services: ServiceMap, visiting: set<Uint>,
                                          path: seq<Uint>) returns (w: seq<Uint>)
    requires OwnReasons(direct) && Acyclic(Edges(services)) && Ancestors(Edges(services), visiting, id)
    requires !Resolve(id, direct, services, visiting, path).0.reachable
    ensures Resolve(id, direct, services, visiting, path).1 == path + w
    ensures BrokenPath(direct, services, id, w)
    ensures Explained(direct, Resolve(id, direct, services, visiting, path).0.reason, w)
    decreases direct.Keys - visiting, 0
  {
    var g := Edges(services);
    assert id in visiting ==> OnCycle(g, id);
    if DirectOk(direct, id) {
      w := DependenciesWitness(id, 0, direct, services, visiting, path);
    } else {
      w := [id];
    }
  }

  /** The outcome of the loop over the dependencies of `id` from the `k`th on. */
  function DependenciesOutcome(id: Uint, k: nat, direct: DirectMap, services: ServiceMap, visiting: set<Uint>,
                               path: seq<Uint>): (ServiceEvidence, seq<Uint>)
    requires id in direct && k <= |Dependencies(services, id)|
  {
    ResolveAll(direct[id], Dependencies(services, id)[k..], direct, services, visiting + {id}, path + [id])
  }

  lemma {:induction false} DependenciesWitness(
    id: Uint, k: nat, direct: DirectMap, services: ServiceMap, visiting: set<Uint>, path: seq<Uint>)
    returns (w: seq<Uint>)
    requires OwnReasons(direct) && Acyclic(Edges(services)) && Ancestors(Edges(services), visiting, id)
    requires DirectOk(direct, id) && id !in visiting
    requires k <= |Dependencies(services, id)|
    requires forall j | 0 <= j < k :: FullyReachable(direct, Edges(services), Dependencies(services, id)[j])
    requires !DependenciesOutcome(id, k, direct, services, visiting, path).0.reachable
    ensures DependenciesOutcome(id, k, direct, services, visiting, path).1 == path + w
    ensures BrokenPath(direct, services, id, w)
    ensures Explained(direct, DependenciesOutcome(id, k, direct, services, visiting, path).0.reason, w)
    decreases direct.Keys - (visiting + {id}), |Dependencies(services, id)| - k
  {
    var g := Edges(services);
    var deps := Dependencies(services, id);
    var d := deps[k];
    assert deps[k..][1..] == deps[k + 1..];
    AncestorsExtend(g, visiting, id, d);
    ResolveIsExact(d, direct, services, visiting + {id}, path + [id]);
    NoAncestorAhead(g, visiting + {id}, d);
    if Resolve(d, direct, services, visiting + {id}, path + [id]).0.reachable {
      w := DependenciesWitness(id, k + 1, direct, services, visiting, path);
    } else {
      var rest := ResolveWitness(d, direct, services, visiting + {id}, path + [id]);
      w := [id] + rest;
      assert path + [id] + rest == path + w;
      ResolveKeepsSelection(d, direct, services, visiting + {id}, path + [id]);
      WitnessExtends(id, d, direct, services, Resolve(d, direct, services, visiting + {id}, path + [id]).0, rest);
    }
  }

  /** Blaming a failing dependency prepends the service to the dependency's own path. */
  lemma {:induction false} WitnessExtends(id: Uint, d: Uint, direct: DirectMap, services: ServiceMap,
                                          dep: ServiceEvidence, rest: seq<Uint>)
    requires DirectOk(direct, id) && FirstFailing(direct, Edges(services), Succ(Edges(services), id), d)
    requires BrokenPath(direct, services, d, rest) && Explained(direct, dep.reason, rest)
    requires dep.serviceCode == if d in direct then direct[d].serviceCode else ""
    ensures BrokenPath(direct, services, id, [id] + rest)
    ensures Explained(direct, Blame(direct[id], dep).reason, [id] + rest)
  {
    var g, w := Edges(services), [id] + rest;
    forall i | 0 <= i < |w| - 1 ensures DirectOk(direct, w[i]) && FirstFailing(direct, g, Succ(g, w[i]), w[i + 1]) {
      if i > 0 { assert w[i] == rest[i - 1] && w[i + 1] == rest[i]; }
    }
    assert w[1..] == rest;
  }

  lemma {:induction false} NoAncestorAhead(g: Graph, visiting: set<Uint>, d: Uint)
    requires Acyclic(g) && Ancestors(g, visiting, d)
    ensures Avoids(g, d, visiting)
  {
    forall n: Uint | Reaches(g, d, n) && n in visiting ensures false {
      var e :| e in Succ(g, n) && Reaches(g, e, d);
      ReachesTransitive(g, e, d, n);
      assert OnCycle(g, n);
    }
  }

  lemma {:induction false} BrokenPathHasNoRepeats(direct: DirectMap, services: ServiceMap, id: Uint, w: seq<Uint>,
                                                  i: nat, j: nat)
    requires Acyclic(Edges(services)) && BrokenPath(direct, services, id, w) && i < j < |w|
    ensures w[i] != w[j]
  {
    var g := Edges(services);
    var tail := w[i + 1..j + 1];
    forall k | 0 <= k < |w| - 1 ensures w[k + 1] in Succ(g, w[k]) {
      assert FirstFailing(direct, g, Succ(g, w[k]), w[k + 1]);
    }
    assert IsWalk(g, tail, w[i + 1], w[j]);
    assert w[i + 1] in Succ(g, w[i]) && Reaches(g, w[i + 1], w[j]);
    assert w[i] == w[j] ==> OnCycle(g, w[i]);
  }
}
