/** Three-colour depth-first search: its invariant, and the frozen graph's check. */
module CycleDetection {
  import opened Prelude
  import opened Graphs

  /** Absent is white, 1 is grey, 2 is black. */
  type Colours = map<Uint, int>

  ghost function Black(state: Colours): set<Uint> {
    set v | v in state && state[v] == 2
  }

  /** `stack` is the chain of calls in progress: exactly the grey vertices. Black vertices are finished for good. */
  ghost predicate Coloured(g: Graph, state: Colours, stack: seq<Uint>) {
    && (forall v | v in state :: state[v] == 1 || state[v] == 2)
    && (forall v: Uint :: v in stack <==> v in state && state[v] == 1)
    && (forall i | 0 <= i < |stack| - 1 :: stack[i + 1] in Succ(g, stack[i]))
    && ClosedUnderSucc(g, Black(state))
    && forall v | v in Black(state) :: !OnCycle(g, v)
  }

  ghost predicate Extends(g: Graph, stack: seq<Uint>, id: Uint) {
    stack != [] ==> id in Succ(g, stack[|stack| - 1])
  }

  lemma Enter(g: Graph, state: Colours, stack: seq<Uint>, id: Uint)
    requires Coloured(g, state, stack) && Extends(g, stack, id) && id !in state
    ensures Coloured(g, state[id := 1], stack + [id])
    ensures Black(state[id := 1]) == Black(state)
  {
    assert Black(state[id := 1]) == Black(state);
  }

  /** A vertex whose successors are all finished is on no cycle, so it can be finished too. */
  lemma {:induction false} Leave(g: Graph, state: Colours, stack: seq<Uint>, id: Uint)
    requires Coloured(g, state, stack + [id]) && id !in stack
    requires forall d | d in Succ(g, id) :: d in Black(state)
    ensures Coloured(g, state[id := 2], stack)
    ensures Black(state[id := 2]) == Black(state) + {id}
  {
    assert Black(state[id := 2]) == Black(state) + {id};
    assert id in stack + [id] && id !in Black(state);
    forall v: Uint ensures v in stack <==> v in state[id := 2] && state[id := 2][v] == 1 {
      assert v in stack + [id] <==> v in stack || v == id;
    }
    forall i | 0 <= i < |stack| - 1 ensures stack[i + 1] in Succ(g, stack[i]) {
      assert (stack + [id])[i + 1] in Succ(g, (stack + [id])[i]);
    }
    if OnCycle(g, id) {
      var d :| d in Succ(g, id) && Reaches(g, d, id);
      ReachesStaysInside(g, Black(state), d, id);
    }
  }

  /** Meeting a grey vertex again closes a cycle through it. */
  lemma {:induction false} GreyOnCycle(g: Graph, state: Colours, stack: seq<Uint>, id: Uint)
    requires Coloured(g, state, stack) && Extends(g, stack, id) && id in state && state[id] == 1
    ensures OnCycle(g, id)
  {
    assert id in stack;
    var k :| 0 <= k < |stack| && stack[k] == id;
    var walk := stack[k..] + [id];
    forall i | 0 <= i < |walk| - 1 ensures walk[i + 1] in Succ(g, walk[i]) {
      if i < |stack| - k - 1 {
        assert walk[i] == stack[k + i] && walk[i + 1] == stack[k + i + 1];
      }
    }
    assert IsWalk(g, walk[1..], walk[1], id);
    assert walk[1] in Succ(g, walk[0]);
  }

  lemma EdgeTargetIsNode(g: Graph, v: Uint, d: Uint)
    requires d in Succ(g, v)
    ensures d in Nodes(g)
  {
    assert v in g && d in g[v];
  }

  /** When every key is finished nothing is on a cycle. */
  lemma AllFinished(g: Graph, state: Colours)
    requires Coloured(g, state, []) && g.Keys <= Black(state)
    ensures Acyclic(g)
    ensures forall v, d | v in g && d in g[v] :: d in state
  {
    forall v: Uint ensures !OnCycle(g, v) {
      if v !in g {
        assert Succ(g, v) == [];
      }
    }
    forall v, d | v in g && d in g[v] ensures d in state {
      assert d in Succ(g, v) && d in Black(state);
    }
  }

  /** The closure `visit` of detectCycle with the colour map it captures. */
  class CycleDetector {
    const edges: Graph
    var state: Colours

    constructor (edges: Graph)
      ensures this.edges == edges && state == map[]
    {
      this.edges := edges;
      state := map[];
    }

    method Visit(id: Uint, ghost stack: seq<Uint>) returns (err: Option<Uint>)
      requires Coloured(edges, state, stack) && state.Keys <= Nodes(edges)
      requires id in Nodes(edges) && Extends(edges, stack, id)
      modifies this`state
      ensures err.None? ==> Coloured(edges, state, stack) && state.Keys <= Nodes(edges)
      ensures err.None? ==> id in Black(state) && old(Black(state)) <= Black(state)
      ensures old(state.Keys) <= state.Keys
      ensures err.Some? ==> OnCycle(edges, err.value)
      decreases Nodes(edges) - state.Keys
    {
      if id in state && state[id] == 1 {
        GreyOnCycle(edges, state, stack, id);
        return Some(id);
      }
      if id in state && state[id] == 2 {
        return None;
      }
      Enter(edges, state, stack, id);
      state := state[id := 1];
      ghost var below := stack + [id];
      var next := if id in edges then edges[id] else [];
      for i := 0 to |next|
        invariant Coloured(edges, state, below) && state.Keys <= Nodes(edges)
        invariant old(Black(state)) <= Black(state)
        invariant old(state.Keys) + {id} <= state.Keys
        invariant forall j | 0 <= j < i :: next[j] in Black(state)
      {
        EdgeTargetIsNode(edges, id, next[i]);
        err := Visit(next[i], below);
        if err.Some? {
          return err;
        }
      }
      Leave(edges, state, stack, id);
      state := state[id := 2];
      return None;
    }

    method Detect() returns (err: Option<Uint>)
      modifies this`state
      ensures err.None? <==> Acyclic(edges)
      ensures err.Some? ==> OnCycle(edges, err.value)
    {
      state := map[];
      var todo := edges.Keys;
      while todo != {}
        invariant Coloured(edges, state, []) && state.Keys <= Nodes(edges)
        invariant todo <= edges.Keys
        invariant edges.Keys - todo <= Black(state)
        decreases todo
      {
        var id :| id in todo;
        err := Visit(id, []);
        if err.Some? {
          return;
        }
        todo := todo - {id};
      }
      AllFinished(edges, state);
      return None;
    }
  }
}
