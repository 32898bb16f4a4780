/** Which certificate chain, if any, a service can use by itself at one instant. */
module DirectPaths {
  import opened Prelude
  import opened Sorting
  import opened Snapshots

  datatype Rejection =
    | NotActive(chainCode: string)
    | OutsideWindow(chainCode: string)
    | NotValidated(chainCode: string)
    | AnchorUnavailable(chainCode: string)
    | NotTrusted(serviceCode: string, anchorId: Uint)

  datatype Reason =
    | PathReachable
    | ChainMissing
    | NoIdentityMatch
    | Rejected(details: seq<Rejection>)
    | AbsentOrInactive
    | CycleEncountered
    | Upstream(serviceCode: string, cause: Reason)

  datatype ServiceEvidence = ServiceEvidence(
    serviceId: Uint, serviceCode: string, reachable: bool, selectedChainId: Uint, selectedAnchorId: Uint,
    reason: Reason)

  function ActiveAnchors(cfg: ScenarioConfig, at: Time): set<Uint> {
    if at < cfg.overlapStart then {cfg.oldAnchorId}
    else if at > cfg.overlapEnd then {cfg.newAnchorId}
    else {cfg.oldAnchorId, cfg.newAnchorId}
  }

  function Unreachable(service: ServiceSnapshot, reason: Reason): ServiceEvidence {
    ServiceEvidence(service.id, service.code, false, 0, 0, reason)
  }

  function Candidates(service: ServiceSnapshot, candidates: seq<Uint>): seq<Uint> {
    SortedUnique([service.chainId] + candidates)
  }

  /** The half-open validity window: the end instant is outside. */
  predicate InWindow(chain: ChainSnapshot, at: Time) {
    chain.validFrom <= at < chain.validTo
  }

  ghost predicate MatchesIdentity(service: ServiceSnapshot, chains: map<Uint, ChainSnapshot>, id: Uint)
    requires service.chainId in chains
  {
    id in chains && chains[id].leafSubject == chains[service.chainId].leafSubject
  }

  /** The six conditions a chain must meet. */
  ghost predicate Usable(service: ServiceSnapshot, at: Time, active: set<Uint>, chains: map<Uint, ChainSnapshot>,
                         id: Uint)
    requires service.chainId in chains
  {
    && MatchesIdentity(service, chains, id)
    && chains[id].state != "revoked" && chains[id].state != "deprecated"
    && InWindow(chains[id], at)
    && chains[id].validationValid
    && chains[id].anchorId in active
    && chains[id].anchorId in service.trustAnchorIds
  }

  /** The first condition a chain of the right identity fails. */
  function RejectionOf(service: ServiceSnapshot, at: Time, active: set<Uint>, chain: ChainSnapshot): Option<Rejection> {
    if chain.state == "revoked" || chain.state == "deprecated" then Some(NotActive(chain.code))
    else if !InWindow(chain, at) then Some(OutsideWindow(chain.code))
    else if !chain.validationValid then Some(NotValidated(chain.code))
    else if chain.anchorId !in active then Some(AnchorUnavailable(chain.code))
    else if chain.anchorId !in service.trustAnchorIds then Some(NotTrusted(service.code, chain.anchorId))
    else None
  }

  function Scan(service: ServiceSnapshot, at: Time, active: set<Uint>, chains: map<Uint, ChainSnapshot>, leaf: string,
                ids: seq<Uint>, reasons: seq<Rejection>): ServiceEvidence
  {
    if ids == [] then
      Unreachable(service, if reasons == [] then NoIdentityMatch else Rejected(reasons))
    else if ids[0] !in chains || chains[ids[0]].leafSubject != leaf then
      Scan(service, at, active, chains, leaf, ids[1..], reasons)
    else
      var chain := chains[ids[0]];
      match RejectionOf(service, at, active, chain)
      case Some(r) => Scan(service, at, active, chains, leaf, ids[1..], reasons + [r])
      case None => ServiceEvidence(service.id, service.code, true, ids[0], chain.anchorId, PathReachable)
  }

  function Direct(service: ServiceSnapshot, at: Time, active: set<Uint>, candidates: seq<Uint>,
                  chains: map<Uint, ChainSnapshot>): ServiceEvidence
  {
    if service.chainId !in chains then Unreachable(service, ChainMissing)
    else
      Scan(service, at, active, chains, chains[service.chainId].leafSubject, Candidates(service, candidates), [])
  }

  method EvaluateDirect(service: ServiceSnapshot, at: Time, active: set<Uint>, candidates: seq<Uint>,
                        chains: map<Uint, ChainSnapshot>) returns (item: ServiceEvidence)
    ensures item == Direct(service, at, active, candidates, chains)
  {
    if service.chainId !in chains {
      return Unreachable(service, ChainMissing);
    }
    var current := chains[service.chainId];
    var ids := UniqueIds([service.chainId] + candidates);
    var reasons := [];
    for i := 0 to |ids|
      invariant Direct(service, at, active, candidates, chains)
             == Scan(service, at, active, chains, current.leafSubject, ids[i..], reasons)
    {
      assert ids[i..][1..] == ids[i + 1..];
      if ids[i] !in chains || chains[ids[i]].leafSubject != current.leafSubject {
        continue;
      }
      var chain := chains[ids[i]];
      if chain.state == "revoked" || chain.state == "deprecated" {
        reasons := reasons + [NotActive(chain.code)];
        continue;
      }
      if at < chain.validFrom || !(at < chain.validTo) {
        reasons := reasons + [OutsideWindow(chain.code)];
        continue;
      }
      if !chain.validationValid {
        reasons := reasons + [NotValidated(chain.code)];
        continue;
      }
      if chain.anchorId !in active {
        reasons := reasons + [AnchorUnavailable(chain.code)];
        continue;
      }
      if chain.anchorId !in service.trustAnchorIds {
        reasons := reasons + [NotTrusted(service.code, chain.anchorId)];
        continue;
      }
      return ServiceEvidence(service.id, service.code, true, ids[i], chain.anchorId, PathReachable);
    }
    item := Unreachable(service, if reasons == [] then NoIdentityMatch else Rejected(reasons));
  }

  ghost predicate LeastUsable(service: ServiceSnapshot, at: Time, active: set<Uint>, chains: map<Uint, ChainSnapshot>,
                              ids: seq<Uint>, least: Uint)
    requires service.chainId in chains
  {
    && least in ids && Usable(service, at, active, chains, least)
    && forall id | id in ids && Usable(service, at, active, chains, id) :: least <= id
  }

  lemma {:induction false} ScanFindsLeastUsable(
    service: ServiceSnapshot, at: Time, active: set<Uint>, chains: map<Uint, ChainSnapshot>,
    ids: seq<Uint>, reasons: seq<Rejection>)
    requires service.chainId in chains && Ascending(ids)
    ensures
      var item := Scan(service, at, active, chains, chains[service.chainId].leafSubject, ids, reasons);
      && item.serviceId == service.id && item.serviceCode == service.code
      && (item.reachable ==>
            && LeastUsable(service, at, active, chains, ids, item.selectedChainId)
            && item.selectedAnchorId == chains[item.selectedChainId].anchorId)
      && (!item.reachable ==>
            && item.selectedChainId == 0 && item.selectedAnchorId == 0
            && forall id | id in ids :: !Usable(service, at, active, chains, id))
  {
    if ids != [] {
      assert ids == [ids[0]] + ids[1..];
      if !Usable(service, at, active, chains, ids[0]) {
        var leaf := chains[service.chainId].leafSubject;
        var more := if ids[0] !in chains || chains[ids[0]].leafSubject != leaf then reasons
                    else reasons + [RejectionOf(service, at, active, chains[ids[0]]).value];
        ScanFindsLeastUsable(service, at, active, chains, ids[1..], more);
      }
    }
  }

  ghost predicate Considered(service: ServiceSnapshot, candidates: seq<Uint>, id: Uint) {
    id > 0 && (id == service.chainId || id in candidates)
  }

  /** The choice is the least non-zero identifier among configured and candidate chains that meets the conditions. */
  lemma {:induction false} DirectPicksLeastUsable(
    service: ServiceSnapshot, at: Time, active: set<Uint>, candidates: seq<Uint>, chains: map<Uint, ChainSnapshot>)
    ensures
      var item := Direct(service, at, active, candidates, chains);
      && item.serviceId == service.id && item.serviceCode == service.code
      && (item.reachable <==>
            service.chainId in chains &&
            exists id :: Considered(service, candidates, id) && Usable(service, at, active, chains, id))
      && (item.reachable ==>
            && Considered(service, candidates, item.selectedChainId)
            && Usable(service, at, active, chains, item.selectedChainId)
            && item.selectedAnchorId == chains[item.selectedChainId].anchorId
            && forall id :: Considered(service, candidates, id) && Usable(service, at, active, chains, id)
                            ==> item.selectedChainId <= id)
      && (!item.reachable ==> item.selectedChainId == 0 && item.selectedAnchorId == 0)
  {
    if service.chainId in chains {
      var ids := Candidates(service, candidates);
      assert forall id: Uint :: Considered(service, candidates, id) <==> id in ids;
      ScanFindsLeastUsable(service, at, active, chains, ids, []);
    }
  }

  // ----- what an unreachable service is told

  /** The rejection names a condition the chain fails, and the conditions checked before it hold. */
  ghost predicate Blames(d: Rejection, service: ServiceSnapshot, at: Time, active: set<Uint>, chain: ChainSnapshot) {
    var retired := chain.state == "revoked" || chain.state == "deprecated";
    var valid := chain.validFrom <= at < chain.validTo;
    match d
    case NotActive(code) => code == chain.code && retired
    case OutsideWindow(code) => code == chain.code && !retired && !valid
    case NotValidated(code) => code == chain.code && !retired && valid && !chain.validationValid
    case AnchorUnavailable(code) =>
      code == chain.code && !retired && valid && chain.validationValid && chain.anchorId !in active
    case NotTrusted(code, anchorId) =>
      && code == service.code && anchorId == chain.anchorId && anchorId !in service.trustAnchorIds
      && !retired && valid && chain.validationValid && anchorId in active
  }

  /** Every chain of the right identity among `ids`, in order, with what is wrong with it. */
  ghost predicate BlamesAll(details: seq<Rejection>, service: ServiceSnapshot, at: Time, active: set<Uint>,
                            chains: map<Uint, ChainSnapshot>, blamed: seq<Uint>)
  {
    && |details| == |blamed| && Ascending(blamed)
    && forall k | 0 <= k < |blamed| :: blamed[k] in chains && Blames(details[k], service, at, active, chains[blamed[k]])
  }

  lemma {:induction false} BlamesOneMore(d: Rejection, details: seq<Rejection>, service: ServiceSnapshot, at: Time,
                                         active: set<Uint>, chains: map<Uint, ChainSnapshot>, id: Uint,
                                         blamed: seq<Uint>)
    requires id in chains && Blames(d, service, at, active, chains[id])
    requires BlamesAll(details, service, at, active, chains, blamed) && (blamed != [] ==> id < blamed[0])
    ensures BlamesAll([d] + details, service, at, active, chains, [id] + blamed)
  {
    Prepend(id, blamed);
  }

  lemma {:induction false} ScanBlames(
    service: ServiceSnapshot, at: Time, active: set<Uint>, chains: map<Uint, ChainSnapshot>, leaf: string,
    ids: seq<Uint>, reasons: seq<Rejection>) returns (blamed: seq<Uint>, more: seq<Rejection>)
    requires Ascending(ids) && !Scan(service, at, active, chains, leaf, ids, reasons).reachable
    ensures Scan(service, at, active, chains, leaf, ids, reasons).reason
         == if reasons + more == [] then NoIdentityMatch else Rejected(reasons + more)
    ensures BlamesAll(more, service, at, active, chains, blamed)
    ensures forall id: Uint :: id in blamed <==> id in ids && id in chains && chains[id].leafSubject == leaf
  {
    if ids == [] {
      blamed, more := [], [];
      assert reasons + more == reasons;
    } else {
      assert ids == [ids[0]] + ids[1..];
      if ids[0] !in chains || chains[ids[0]].leafSubject != leaf {
        blamed, more := ScanBlames(service, at, active, chains, leaf, ids[1..], reasons);
      } else {
        var d := RejectionOf(service, at, active, chains[ids[0]]).value;
        blamed, more := ScanBlames(service, at, active, chains, leaf, ids[1..], reasons + [d]);
        assert reasons + [d] + more == reasons + ([d] + more);
        assert blamed != [] ==> blamed[0] in ids[1..];
        BlamesOneMore(d, more, service, at, active, chains, ids[0], blamed);
        blamed, more := [ids[0]] + blamed, [d] + more;
      }
    }
  }

  /**
   * An unreachable service is told that its chain is missing, that none matches its identity, or what is wrong with
   * each considered chain of its identity, in ascending order and leaving none out.
   */
  lemma {:induction false} ReasonIsTrue(
    service: ServiceSnapshot, at: Time, active: set<Uint>, candidates: seq<Uint>, chains: map<Uint, ChainSnapshot>)
    returns (blamed: seq<Uint>)
    requires !Direct(service, at, active, candidates, chains).reachable
    ensures
      var reason := Direct(service, at, active, candidates, chains).reason;
      if service.chainId !in chains then reason == ChainMissing
      else
        && (forall id: Uint :: id in blamed
              <==> Considered(service, candidates, id) && MatchesIdentity(service, chains, id))
        && if blamed == [] then reason == NoIdentityMatch
           else reason.Rejected? && BlamesAll(reason.details, service, at, active, chains, blamed)
  {
    blamed := [];
    if service.chainId in chains {
      var ids := Candidates(service, candidates);
      assert forall id: Uint :: Considered(service, candidates, id) <==> id in ids;
      var more;
      blamed, more :=
        ScanBlames(service, at, active, chains, chains[service.chainId].leafSubject, ids, []);
      assert [] + more == more;
    }
  }

  /** A reachable one is told so. */
  lemma {:induction false} ReachableIsToldSo(
    service: ServiceSnapshot, at: Time, active: set<Uint>, candidates: seq<Uint>, chains: map<Uint, ChainSnapshot>)
    ensures Direct(service, at, active, candidates, chains).reachable
       <==> Direct(service, at, active, candidates, chains).reason == PathReachable
  {
    if service.chainId in chains {
      ScanTellsReachable(service, at, active, chains, chains[service.chainId].leafSubject,
                         Candidates(service, candidates), []);
    }
  }

  lemma ScanTellsReachable(service: ServiceSnapshot, at: Time, active: set<Uint>, chains: map<Uint, ChainSnapshot>,
                           leaf: string, ids: seq<Uint>, reasons: seq<Rejection>)
    ensures Scan(service, at, active, chains, leaf, ids, reasons).reachable
       <==> Scan(service, at, active, chains, leaf, ids, reasons).reason == PathReachable
  {
  }
}
