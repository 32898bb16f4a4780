/** Directed graphs over identifiers: walks, reachability, cycles. A missing key has no successors, as in a Go map. */
module Graphs {
  import opened Prelude

  type Graph = map<Uint, seq<Uint>>

  function Succ(g: Graph, v: Uint): seq<Uint> {
    if v in g then g[v] else []
  }

  ghost predicate IsWalk(g: Graph, p: seq<Uint>, a: Uint, b: Uint) {
    && |p| > 0 && p[0] == a && p[|p| - 1] == b
    && forall i | 0 <= i < |p| - 1 :: p[i + 1] in Succ(g, p[i])
  }

  /** Reflexive-transitive closure of the edge relation. */
  ghost predicate Reaches(g: Graph, a: Uint, b: Uint) {
    exists p :: IsWalk(g, p, a, b)
  }

  ghost predicate OnCycle(g: Graph, v: Uint) {
    exists d :: d in Succ(g, v) && Reaches(g, d, v)
  }

  ghost predicate Acyclic(g: Graph) {
    forall v: Uint :: !OnCycle(g, v)
  }

  /** Every edge ends at a known key. */
  ghost predicate Closed(g: Graph) {
    forall v, d :: v in g && d in g[v] ==> d in g
  }

  /** All the identifiers the graph mentions, unknown targets included. */
  ghost function Nodes(g: Graph): set<Uint> {
    g.Keys + set v, d | v in g && d in g[v] :: d
  }

  lemma {:induction false} ReachesSelf(g: Graph, a: Uint)
    ensures Reaches(g, a, a)
  {
    assert IsWalk(g, [a], a, a);
  }

  lemma {:induction false} ReachesFirst(g: Graph, a: Uint, d: Uint, b: Uint)
    requires d in Succ(g, a) && Reaches(g, d, b)
    ensures Reaches(g, a, b)
  {
    var p :| IsWalk(g, p, d, b);
    var q := [a] + p;
    forall i | 0 <= i < |q| - 1 ensures q[i + 1] in Succ(g, q[i]) {
      if i > 0 {
        assert q[i] == p[i - 1] && q[i + 1] == p[i];
      }
    }
    assert IsWalk(g, q, a, b);
  }

  /** A walk of one or more edges starts with an edge. */
  lemma {:induction false} ReachesUnfold(g: Graph, a: Uint, b: Uint)
    ensures Reaches(g, a, b) <==> a == b || exists d :: d in Succ(g, a) && Reaches(g, d, b)
  {
    if a == b {
      ReachesSelf(g, a);
    } else if Reaches(g, a, b) {
      var p :| IsWalk(g, p, a, b);
      assert p[1] in Succ(g, a);
      assert IsWalk(g, p[1..], p[1], b);
    } else {
      forall d | d in Succ(g, a) && Reaches(g, d, b) ensures false {
        ReachesFirst(g, a, d, b);
      }
    }
  }

  lemma {:induction false} ReachesTransitive(g: Graph, a: Uint, b: Uint, c: Uint)
    requires Reaches(g, a, b) && Reaches(g, b, c)
    ensures Reaches(g, a, c)
  {
    var p :| IsWalk(g, p, a, b);
    var q :| IsWalk(g, q, b, c);
    var r := p + q[1..];
    forall i | 0 <= i < |r| - 1 ensures r[i + 1] in Succ(g, r[i]) {
      if i >= |p| - 1 {
        assert r[i] == q[i - |p| + 1] && r[i + 1] == q[i - |p| + 2];
      }
    }
    assert IsWalk(g, r, a, c);
  }

  ghost predicate ClosedUnderSucc(g: Graph, s: set<Uint>) {
    forall v, d :: v in s && d in Succ(g, v) ==> d in s
  }

  lemma {:induction false} WalkStaysInside(g: Graph, s: set<Uint>, p: seq<Uint>, a: Uint, b: Uint)
    requires ClosedUnderSucc(g, s) && a in s && IsWalk(g, p, a, b)
    ensures b in s
    decreases |p|
  {
    if |p| > 1 {
      assert p[1] in Succ(g, p[0]);
      WalkStaysInside(g, s, p[1..], p[1], b);
    }
  }

  lemma {:induction false} ReachesStaysInside(g: Graph, s: set<Uint>, a: Uint, b: Uint)
    requires ClosedUnderSucc(g, s) && a in s && Reaches(g, a, b)
    ensures b in s
  {
    var p :| IsWalk(g, p, a, b);
    WalkStaysInside(g, s, p, a, b);
  }

  /** g's edges are among h's. */
  ghost predicate Subgraph(g: Graph, h: Graph) {
    forall v: Uint, d :: d in Succ(g, v) ==> d in Succ(h, v)
  }

  lemma {:induction false} SubgraphReaches(g: Graph, h: Graph, a: Uint, b: Uint)
    requires Subgraph(g, h) && Reaches(g, a, b)
    ensures Reaches(h, a, b)
  {
    var p :| IsWalk(g, p, a, b);
    assert IsWalk(h, p, a, b);
  }

  lemma {:induction false} SubgraphCycle(g: Graph, h: Graph, v: Uint)
    requires Subgraph(g, h) && OnCycle(g, v)
    ensures OnCycle(h, v)
  {
    var d :| d in Succ(g, v) && Reaches(g, d, v);
    SubgraphReaches(g, h, d, v);
  }
}
