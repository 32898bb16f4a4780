/** What changing one vertex's edges does to cycles. */
module Rewiring {
  import opened Prelude
  import opened Graphs

  ghost predicate Sound(g: Graph) {
    Acyclic(g) && Closed(g)
  }

  ghost predicate Known(g: Graph, edges: seq<Uint>) {
    forall e | e in edges :: e in g
  }

  /** Some of the edges is the start of a walk to `id`. */
  ghost predicate LeadsTo(g: Graph, edges: seq<Uint>, id: Uint) {
    exists e :: e in edges && Reaches(g, e, id)
  }

  /** Reaching the rewired vertex does not use its own edges. */
  lemma {:induction false} ReachesTarget(g: Graph, h: Graph, id: Uint, a: Uint, p: seq<Uint>)
    requires forall v: Uint | v != id :: Succ(g, v) == Succ(h, v)
    requires IsWalk(g, p, a, id)
    ensures Reaches(h, a, id)
    decreases |p|
  {
    if a == id {
      ReachesSelf(h, id);
    } else {
      assert p[1] in Succ(g, p[0]);
      ReachesTarget(g, h, id, p[1], p[1..]);
      ReachesFirst(h, a, p[1], id);
    }
  }

  /** A walk of the rewired graph is one of the old graph or goes through the rewired vertex. */
  lemma {:induction false} WalkSplits(g: Graph, h: Graph, id: Uint, a: Uint, b: Uint, p: seq<Uint>)
    requires forall v: Uint | v != id :: Succ(g, v) == Succ(h, v)
    requires IsWalk(h, p, a, b)
    ensures Reaches(g, a, b) || (Reaches(h, a, id) && Reaches(h, id, b))
    decreases |p|
  {
    if |p| == 1 {
      ReachesSelf(g, a);
    } else if a == id {
      ReachesSelf(h, id);
      assert Reaches(h, id, b);
    } else {
      assert p[1] in Succ(h, p[0]);
      WalkSplits(g, h, id, p[1], b, p[1..]);
      if Reaches(g, p[1], b) {
        ReachesFirst(g, a, p[1], b);
      } else {
        ReachesFirst(h, a, p[1], id);
      }
    }
  }

  /** Giving `id` the edges `edges` keeps an acyclic graph acyclic exactly when none of them leads back to `id`. */
  lemma {:induction false} RewiringIsAcyclicIff(g: Graph, id: Uint, edges: seq<Uint>)
    requires Acyclic(g)
    ensures Acyclic(g[id := edges]) <==> !LeadsTo(g, edges, id)
  {
    var h := g[id := edges];
    forall e | e in edges && Reaches(g, e, id) ensures OnCycle(h, id) {
      var p :| IsWalk(g, p, e, id);
      ReachesTarget(g, h, id, e, p);
      assert e in Succ(h, id);
    }
    forall v: Uint | OnCycle(h, v) ensures LeadsTo(g, edges, id) {
      CycleUsesRewired(g, id, edges, v);
    }
  }

  /**
   * On any graph, cyclic or not: new edges leave it acyclic exactly when every cycle went through `id` by its old edges
   * and none of the new ones leads back.
   */
  lemma {:induction false} RewiringAnyGraphIff(g: Graph, id: Uint, edges: seq<Uint>)
    ensures Acyclic(g[id := edges]) <==> Acyclic(g[id := []]) && !LeadsTo(g, edges, id)
  {
    var bare, h := g[id := []], g[id := edges];
    forall e: Uint ensures Reaches(g, e, id) <==> Reaches(bare, e, id) {
      if Reaches(g, e, id) {
        var p :| IsWalk(g, p, e, id);
        ReachesTarget(g, bare, id, e, p);
      }
      if Reaches(bare, e, id) {
        var p :| IsWalk(bare, p, e, id);
        ReachesTarget(bare, g, id, e, p);
      }
    }
    if Acyclic(bare) {
      assert bare[id := edges] == h;
      RewiringIsAcyclicIff(bare, id, edges);
    } else {
      var v: Uint :| OnCycle(bare, v);
      SubgraphCycle(bare, h, v);
    }
  }

  /** An acyclic graph stays so without the edges of one vertex. */
  lemma {:induction false} BareIsAcyclic(g: Graph, id: Uint)
    requires Acyclic(g)
    ensures Acyclic(g[id := []])
  {
    RewiringIsAcyclicIff(g, id, []);
  }

  lemma {:induction false} CycleUsesRewired(g: Graph, id: Uint, edges: seq<Uint>, v: Uint)
    requires Acyclic(g) && OnCycle(g[id := edges], v)
    ensures LeadsTo(g, edges, id)
  {
    var h := g[id := edges];
    var d :| d in Succ(h, v) && Reaches(h, d, v);
    var e := d;
    if v != id {
      var p :| IsWalk(h, p, d, v);
      WalkSplits(g, h, id, d, v, p);
      assert Reaches(g, d, v) ==> OnCycle(g, v);
      ReachesUnfold(h, id, v);
      e :| e in Succ(h, id) && Reaches(h, e, v);
      ReachesFirst(h, v, d, id);
      ReachesTransitive(h, e, v, id);
    }
    var q :| IsWalk(h, q, e, id);
    ReachesTarget(h, g, id, e, q);
  }

  /**
   * A vertex nothing points to passes the check exactly when the rest is sound and its edges end at known vertices, so
   * its identifier is irrelevant.
   */
  lemma {:induction false} FreshVertexVerdict(g: Graph, added: Uint, edges: seq<Uint>)
    requires added !in Nodes(g) && added !in edges
    ensures Sound(g[added := edges]) <==> Sound(g) && Known(g, edges)
  {
    var h := g[added := edges];
    forall v: Uint, d | d in Succ(g, v) ensures d in Succ(h, v) {
      assert v in g;
    }
    assert Subgraph(g, h);
    forall v: Uint | OnCycle(g, v) ensures OnCycle(h, v) {
      SubgraphCycle(g, h, v);
    }
    if Acyclic(g) {
      RewiringIsAcyclicIff(g, added, edges);
      forall e | e in edges ensures !Reaches(g, e, added) {
        if Reaches(g, e, added) {
          ReachedIsNode(g, e, added);
        }
      }
    }
    ClosedAfterAdding(g, added, edges);
  }

  lemma {:induction false} ClosedAfterAdding(g: Graph, added: Uint, edges: seq<Uint>)
    requires added !in Nodes(g) && added !in edges
    ensures Closed(g[added := edges]) <==> Closed(g) && Known(g, edges)
  {
    var h := g[added := edges];
    forall v, d | v in g && d in g[v] ensures d != added && d in Succ(h, v) {
      assert d in Nodes(g) && v in Nodes(g);
    }
    if Closed(h) {
      forall v, d | v in g && d in g[v] ensures d in g {
        assert v in h && d in h[v] && d in h;
      }
      forall e | e in edges ensures e in g {
        assert added in h && e in h[added] && e in h;
      }
    }
    if Closed(g) && Known(g, edges) {
      forall v, d | v in h && d in h[v] ensures d in h {
        assert v == added || (v in g && d in g[v]);
      }
    }
  }

  lemma {:induction false} ReachedIsNode(g: Graph, a: Uint, b: Uint)
    requires Reaches(g, a, b) && a != b
    ensures b in Nodes(g)
  {
    var p :| IsWalk(g, p, a, b);
    var v := p[|p| - 2];
    assert p[|p| - 1] in Succ(g, v);
    assert v in g && b in g[v];
  }

  /** The placeholder identifier and the real one get the same verdict. */
  lemma {:induction false} PlaceholderVerdict(g: Graph, placeholder: Uint, actual: Uint, edges: seq<Uint>)
    requires placeholder !in Nodes(g) && actual !in Nodes(g) && placeholder !in edges && actual !in edges
    ensures Sound(g[placeholder := edges]) <==> Sound(g[actual := edges])
  {
    FreshVertexVerdict(g, placeholder, edges);
    FreshVertexVerdict(g, actual, edges);
  }

  /**
   * Rewiring two vertices after checking each against the same graph closes a cycle exactly when, in that graph, each
   * one's new edges lead to the other.
   */
  lemma {:induction false} TwoRewiringsAreAcyclicIff(g: Graph, a: Uint, ea: seq<Uint>, b: Uint, eb: seq<Uint>)
    requires a != b && Acyclic(g) && Acyclic(g[a := ea]) && Acyclic(g[b := eb])
    ensures Acyclic(g[a := ea][b := eb]) <==> !(LeadsTo(g, ea, b) && LeadsTo(g, eb, a))
  {
    var h := g[a := ea];
    RewiringIsAcyclicIff(g, a, ea);
    RewiringIsAcyclicIff(g, b, eb);
    RewiringIsAcyclicIff(h, b, eb);
    if LeadsTo(h, eb, b) {
      LeadsThroughRewired(g, a, ea, b, eb);
    }
    if LeadsTo(g, ea, b) && LeadsTo(g, eb, a) {
      var e :| e in ea && Reaches(g, e, b);
      var f :| f in eb && Reaches(g, f, a);
      var p :| IsWalk(g, p, e, b);
      WalkSplits(h, g, a, e, b, p);
      var q :| IsWalk(g, q, f, a);
      ReachesTarget(g, h, a, f, q);
      ReachesFirst(h, a, e, b);
      ReachesTransitive(h, f, a, b);
    }
  }

  /** New edges that lead back only since `a` was rewired do so through `a` and its new edges. */
  lemma {:induction false} LeadsThroughRewired(g: Graph, a: Uint, ea: seq<Uint>, b: Uint, eb: seq<Uint>)
    requires a != b && Acyclic(g[a := ea]) && !LeadsTo(g, eb, b) && LeadsTo(g[a := ea], eb, b)
    ensures LeadsTo(g, ea, b) && LeadsTo(g, eb, a)
  {
    var h := g[a := ea];
    var f :| f in eb && Reaches(h, f, b);
    var p :| IsWalk(h, p, f, b);
    WalkSplits(g, h, a, f, b, p);
    var q :| IsWalk(h, q, f, a);
    ReachesTarget(h, g, a, f, q);
    ReachesUnfold(h, a, b);
    var e :| e in Succ(h, a) && Reaches(h, e, b);
    var r :| IsWalk(h, r, e, b);
    WalkSplits(g, h, a, e, b, r);
    assert Reaches(h, e, a) ==> OnCycle(h, a);
  }

  /** Adding a vertex nothing points to does not change where known edges lead. */
  lemma {:induction false} FreshVertexLeadsNowhere(g: Graph, added: Uint, own: seq<Uint>, edges: seq<Uint>, id: Uint)
    requires Closed(g) && added !in g && id in g && Known(g, edges)
    ensures LeadsTo(g[added := own], edges, id) <==> LeadsTo(g, edges, id)
  {
    var h := g[added := own];
    forall e | e in edges ensures Reaches(h, e, id) <==> Reaches(g, e, id) {
      if Reaches(h, e, id) {
        var p :| IsWalk(h, p, e, id);
        WalkSplits(g, h, added, e, id, p);
        if Reaches(h, e, added) {
          ReachesStaysInside(h, g.Keys, e, added);
        }
      }
      if Reaches(g, e, id) {
        SubgraphReaches(g, h, e, id);
      }
    }
  }
}
