/** The validity window an imported chain is stored with, and what it means for the path the simulator selects. */
module ChainWindows {
  import opened Prelude
  import opened Snapshots
  import opened DirectPaths

  datatype Window = Window(notBefore: Time, notAfter: Time)

  predicate Holds(w: Window, t: Time) {
    w.notBefore <= t < w.notAfter
  }

  ghost predicate AllHold(certificates: seq<Window>, t: Time) {
    forall c | c in certificates :: Holds(c, t)
  }

  /** The window is inside that of the anchor and of every bundled certificate, and no smaller than it need be. */
  ghost predicate Intersects(w: Window, anchor: Window, certificates: seq<Window>) {
    forall t :: Holds(w, t) <==> Holds(anchor, t) && AllHold(certificates, t)
  }

  /** The narrowing loop of the import. */
  method ImportWindow(anchor: Window, certificates: seq<Window>) returns (w: Window)
    ensures Intersects(w, anchor, certificates)
    ensures w.notBefore == anchor.notBefore || exists c :: c in certificates && w.notBefore == c.notBefore
    ensures w.notAfter == anchor.notAfter || exists c :: c in certificates && w.notAfter == c.notAfter
  {
    var validFrom, validTo := anchor.notBefore, anchor.notAfter;
    for i := 0 to |certificates|
      invariant Intersects(Window(validFrom, validTo), anchor, certificates[..i])
      invariant validFrom == anchor.notBefore || exists c :: c in certificates && validFrom == c.notBefore
      invariant validTo == anchor.notAfter || exists c :: c in certificates && validTo == c.notAfter
    {
      var certificate := certificates[i];
      ghost var before := Window(validFrom, validTo);
      if certificate.notBefore > validFrom {
        validFrom := certificate.notBefore;
      }
      if certificate.notAfter < validTo {
        validTo := certificate.notAfter;
      }
      Narrow(before, Window(validFrom, validTo), anchor, certificates[..i], certificate);
      assert certificates[..i + 1] == certificates[..i] + [certificate];
    }
    assert certificates[..|certificates|] == certificates;
    return Window(validFrom, validTo);
  }

  lemma Narrow(before: Window, after: Window, anchor: Window, certificates: seq<Window>, c: Window)
    requires Intersects(before, anchor, certificates)
    requires forall t :: Holds(after, t) <==> Holds(before, t) && Holds(c, t)
    ensures Intersects(after, anchor, certificates + [c])
  {
    forall t ensures AllHold(certificates + [c], t) <==> AllHold(certificates, t) && Holds(c, t) {
      assert c in certificates + [c];
      assert forall d | d in certificates :: d in certificates + [c];
    }
  }

  /** The comparison's overlap flag is true exactly when some instant is in both windows. */
  method CompareWindows(first: Window, second: Window) returns (overlap: Window, hasOverlap: bool)
    ensures forall t :: Holds(overlap, t) <==> Holds(first, t) && Holds(second, t)
    ensures hasOverlap <==> exists t :: Holds(first, t) && Holds(second, t)
  {
    var overlapStart := first.notBefore;
    if second.notBefore > overlapStart { overlapStart := second.notBefore; }
    var overlapEnd := first.notAfter;
    if second.notAfter < overlapEnd { overlapEnd := second.notAfter; }
    overlap := Window(overlapStart, overlapEnd);
    hasOverlap := overlapStart < overlapEnd;
    assert hasOverlap ==> Holds(first, overlapStart) && Holds(second, overlapStart);
  }

  /** What a chain was imported from: the anchor it was validated against, that anchor's window and the bundle's. */
  datatype Origin = Origin(anchorId: Uint, anchor: Window, certificates: seq<Window>)

  /** Every chain is stored with its anchor's identifier and the window the import computed for it. */
  ghost predicate StoredByImport(chains: map<Uint, ChainSnapshot>, origins: map<Uint, Origin>) {
    forall id | id in chains ::
      && id in origins && chains[id].anchorId == origins[id].anchorId
      && Intersects(Window(chains[id].validFrom, chains[id].validTo), origins[id].anchor, origins[id].certificates)
  }

  /** A selected path is inside every window it is made of, through an anchor that is trusted and active then. */
  lemma {:induction false} SelectedPathIsInsideEveryWindow(
    service: ServiceSnapshot, at: Time, cfg: ScenarioConfig, chains: map<Uint, ChainSnapshot>,
    origins: map<Uint, Origin>)
    requires StoredByImport(chains, origins)
    requires Direct(service, at, ActiveAnchors(cfg, at), cfg.candidateChainIds, chains).reachable
    ensures
      var item := Direct(service, at, ActiveAnchors(cfg, at), cfg.candidateChainIds, chains);
      && item.selectedChainId > 0 && item.selectedChainId in origins
      && origins[item.selectedChainId].anchorId == item.selectedAnchorId
      && Holds(origins[item.selectedChainId].anchor, at)
      && AllHold(origins[item.selectedChainId].certificates, at)
      && item.selectedAnchorId in service.trustAnchorIds
      && ((item.selectedAnchorId == cfg.oldAnchorId && (at < cfg.overlapStart || at <= cfg.overlapEnd))
          || (item.selectedAnchorId == cfg.newAnchorId && at >= cfg.overlapStart))
  {
    DirectPicksLeastUsable(service, at, ActiveAnchors(cfg, at), cfg.candidateChainIds, chains);
    var chain := chains[Direct(service, at, ActiveAnchors(cfg, at), cfg.candidateChainIds, chains).selectedChainId];
    assert Holds(Window(chain.validFrom, chain.validTo), at);
  }
}
