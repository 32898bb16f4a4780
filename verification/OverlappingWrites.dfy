/**
 * Writes to the dependency table whose check and transaction are separated by other writes. The service checks outside
 * the transaction, so what it decided may rest on a table that has changed.
 */
module OverlappingWrites {
  import opened Prelude
  import opened Graphs
  import opened Sorting
  import opened Actors
  import opened Rewiring
  import opened StoredGraph
  import opened ServiceStore

  // ----- one transaction

  /** However stale its check, a transaction keeps a valid table so exactly when its edges do not lead back now. */
  lemma {:induction false} CommitIsSafeIff(rows: Table, w: Write)
    requires ValidTable(rows) && Fits(rows, w) && Assignable(rows, w)
    ensures ValidTable(Committed(rows, w)) <==> !LeadsBack(rows, w)
  {
    CommitIsSoundIff(rows, w);
    if w.Updating? {
      BareIsAcyclic(TableGraph(rows), w.id);
    }
  }

  /** Only updates change where an update's new edges lead. */
  lemma {:induction false} OthersKeepLeadsBack(rows: Table, v: Write, w: Write)
    requires ValidTable(rows) && Fits(rows, v) && Fits(rows, w) && Assignable(rows, v) && !v.Updating?
    ensures LeadsBack(Committed(rows, v), w) <==> LeadsBack(rows, w)
  {
    match v
    case Creating(newId, r, _, _, _) =>
      CreatedGraph(rows, newId, r);
      if w.Updating? {
        FreshVertexLeadsNowhere(TableGraph(rows), newId, SortedUnique(r.edges), w.request.edges, w.id);
      }
    case Deactivating(id, _) =>
      DeactivatedGraph(rows, id);
  }

  // ----- two writes checked on one table

  /** Updates of two services, each of which makes its service depend on the other. */
  ghost predicate Entangled(rows: Table, v: Write, w: Write) {
    && v.Updating? && w.Updating? && v.id != w.id
    && LeadsTo(TableGraph(rows), v.request.edges, w.id) && LeadsTo(TableGraph(rows), w.request.edges, v.id)
  }

  /** Two writes that pass their checks on one table leave it sound exactly when they are not entangled in it. */
  lemma {:induction false} TwoStaleWritesAreSafeIff(rows: Table, v: Write, w: Write)
    requires ValidTable(rows) && Checked(rows, v) && Checked(rows, w)
    requires Assignable(rows, v) && Assignable(Committed(rows, v), w)
    ensures ValidTable(Committed(rows, v))
    ensures ValidTable(Committed(Committed(rows, v), w)) <==> !Entangled(rows, v, w)
  {
    CycleCheckPassesIff(rows, v);
    CycleCheckPassesIff(rows, w);
    CommitIsSafeIff(rows, v);
    var between := Committed(rows, v);
    FitsStays(rows, v, w);
    CommitIsSafeIff(between, w);
    if !v.Updating? {
      OthersKeepLeadsBack(rows, v, w);
    } else if w.Updating? {
      UpdatesLeadBackIff(rows, v, w);
    }
  }

  lemma {:induction false} UpdatesLeadBackIff(rows: Table, v: Write, w: Write)
    requires ValidTable(rows) && Checked(rows, v) && Checked(rows, w) && v.Updating? && w.Updating?
    ensures LeadsBack(Committed(rows, v), w) <==> Entangled(rows, v, w)
  {
    CycleCheckPassesIff(rows, v);
    CycleCheckPassesIff(rows, w);
    UpdatedGraph(rows, v.id, v.request);
    RewiredLeadsBackIff(TableGraph(rows), v.id, SortedUnique(v.request.edges), w.id, w.request.edges);
  }

  lemma {:induction false} RewiredLeadsBackIff(g: Graph, a: Uint, ea: seq<Uint>, b: Uint, eb: seq<Uint>)
    requires Acyclic(g) && !LeadsTo(g, ea, a) && !LeadsTo(g, eb, b)
    ensures LeadsTo(g[a := ea], eb, b) <==> a != b && LeadsTo(g, ea, b) && LeadsTo(g, eb, a)
  {
    var h := g[a := ea];
    RewiringIsAcyclicIff(g, a, ea);
    RewiringIsAcyclicIff(g, b, eb);
    RewiringIsAcyclicIff(h, b, eb);
    if a == b {
      assert h[b := eb] == g[b := eb];
    } else {
      TwoRewiringsAreAcyclicIff(g, a, ea, b, eb);
    }
  }

  lemma {:induction false} FitsStays(rows: Table, v: Write, w: Write)
    requires Intact(rows) && Fits(rows, v) && Fits(rows, w) && Assignable(rows, v)
    ensures Fits(Committed(rows, v), w)
  {
    CommitKeepsIntact(rows, v);
    assert TableGraph(rows).Keys <= TableGraph(Committed(rows, v)).Keys;
  }

  // ----- any number of requests

  /** A write that has passed its first checks, or all; `seen` counts the updates committed before the last check. */
  datatype Waiting =
    | Referenced(write: Write)
    | Ready(write: Write, seen: nat)

  datatype System = System(rows: Table, waiting: map<nat, Waiting>, updates: nat)

  const INITIAL: System := System(map[], map[], 0)

  datatype Action =
    | Check(req: nat, write: Write)
    | CheckCycle(req: nat)
    | Commit(req: nat, newId: Uint)
    | Abandon(req: nat)

  /** The identifier of a new row is assigned by the database, in the transaction. */
  function WithId(w: Write, newId: Uint): Write {
    if w.Creating? then w.(newId := newId) else w
  }

  ghost predicate Commits(s: System, a: Action) {
    && a.Commit? && a.req in s.waiting && s.waiting[a.req].Ready?
    && Assignable(s.rows, WithId(s.waiting[a.req].write, a.newId))
  }

  ghost function Step(s: System, a: Action): System {
    match a
    case Check(req, w) =>
      if req !in s.waiting && PassesChecks(s.rows, w) then s.(waiting := s.waiting[req := Referenced(w)]) else s
    case CheckCycle(req) =>
      if req in s.waiting && PassesCycleCheck(s.rows, s.waiting[req].write)
      then s.(waiting := s.waiting[req := Ready(s.waiting[req].write, s.updates)]) else s
    case Commit(req, newId) =>
      if Commits(s, a) then
        var w := WithId(s.waiting[req].write, newId);
        System(Committed(s.rows, w), s.waiting - {req}, s.updates + if w.Updating? then 1 else 0)
      else s
    case Abandon(req) => s.(waiting := s.waiting - {req})
  }

  ghost function Run(actions: seq<Action>): System {
    if actions == [] then INITIAL else Step(Run(actions[..|actions| - 1]), actions[|actions| - 1])
  }

  ghost predicate Inv(s: System) {
    && Intact(s.rows)
    && forall req | req in s.waiting ::
         Fits(s.rows, s.waiting[req].write) && (s.waiting[req].Ready? ==> s.waiting[req].seen <= s.updates)
  }

  lemma {:induction false} StepKeepsInv(s: System, a: Action)
    requires Inv(s)
    ensures Inv(Step(s, a))
  {
    if Commits(s, a) {
      var w := WithId(s.waiting[a.req].write, a.newId);
      CommitKeepsIntact(s.rows, w);
      forall req | req in s.waiting ensures Fits(Committed(s.rows, w), s.waiting[req].write) {
        FitsStays(s.rows, w, s.waiting[req].write);
      }
    }
  }

  /** Whatever overlaps, every row keeps its identifier and its own code, and every dependency is known. */
  lemma {:induction false} EveryRunStaysIntact(actions: seq<Action>)
    ensures Inv(Run(actions))
  {
    if actions == [] {
      assert TableGraph(map[]) == map[];
    } else {
      EveryRunStaysIntact(actions[..|actions| - 1]);
      StepKeepsInv(Run(actions[..|actions| - 1]), actions[|actions| - 1]);
    }
  }

  /**
   * In every run, cyclic tables included: a waiting creation passes its check for cycles exactly when there is none, a
   * waiting update exactly when it breaks the ones there are and closes none.
   */
  lemma {:induction false} WaitingChecksPassIff(actions: seq<Action>, req: nat)
    requires req in Run(actions).waiting
    ensures
      var rows, w := Run(actions).rows, Run(actions).waiting[req].write;
      && (w.Creating? ==> (PassesCycleCheck(rows, w) <==> Acyclic(TableGraph(rows))))
      && (w.Updating? ==>
            (PassesCycleCheck(rows, w) <==> Acyclic(TableGraph(rows)[w.id := []]) && !LeadsBack(rows, w)))
  {
    EveryRunStaysIntact(actions);
    CycleCheckPassesIff(Run(actions).rows, Run(actions).waiting[req].write);
  }

  /** Its transaction leaves the table sound exactly when the check would still pass. */
  lemma {:induction false} TransactionIsSoundIff(actions: seq<Action>, a: Action)
    requires Commits(Run(actions), a)
    ensures
      var rows, w := Run(actions).rows, Run(actions).waiting[a.req].write;
      ValidTable(Step(Run(actions), a).rows) <==> NoOtherCycle(rows, w) && !LeadsBack(rows, w)
  {
    EveryRunStaysIntact(actions);
    CommitIsSoundIff(Run(actions).rows, WithId(Run(actions).waiting[a.req].write, a.newId));
  }

  /** The step writes edges that lead back to their service in the table it finds. */
  ghost predicate ClosesCycle(s: System, a: Action) {
    Commits(s, a) && LeadsBack(s.rows, s.waiting[a.req].write)
  }

  ghost predicate SoundThroughout(actions: seq<Action>) {
    ValidTable(Run(actions).rows) && (actions != [] ==> SoundThroughout(actions[..|actions| - 1]))
  }

  ghost predicate ClosesCycleSometime(actions: seq<Action>) {
    actions != [] &&
    (ClosesCycle(Run(actions[..|actions| - 1]), actions[|actions| - 1])
     || ClosesCycleSometime(actions[..|actions| - 1]))
  }

  /** A run keeps the graph acyclic throughout exactly when no update finds its own edges leading back. */
  lemma {:induction false} RunStaysSoundIff(actions: seq<Action>)
    ensures SoundThroughout(actions) <==> !ClosesCycleSometime(actions)
  {
    if actions == [] {
      NoRowsAreValid();
    } else {
      var before := actions[..|actions| - 1];
      RunStaysSoundIff(before);
      EveryRunStaysIntact(before);
      if SoundThroughout(before) {
        StepIsSafeIff(Run(before), actions[|actions| - 1]);
      }
    }
  }

  lemma NoRowsAreValid()
    ensures ValidTable(map[])
  {
    assert forall v: Uint :: Succ(TableGraph(map[]), v) == [];
  }

  lemma {:induction false} StepIsSafeIff(s: System, a: Action)
    requires Inv(s) && ValidTable(s.rows)
    ensures ValidTable(Step(s, a).rows) <==> !ClosesCycle(s, a)
  {
    if Commits(s, a) {
      CommitIsSafeIff(s.rows, WithId(s.waiting[a.req].write, a.newId));
    }
  }

  /** Some update was committed since this one was checked for cycles. */
  ghost predicate Overtaken(s: System, a: Action) {
    Commits(s, a) && s.waiting[a.req].write.Updating? && s.waiting[a.req].seen != s.updates
  }

  ghost predicate UpToDateChecksHold(s: System) {
    forall req | req in s.waiting && s.waiting[req].Ready? && s.waiting[req].seen == s.updates ::
      !LeadsBack(s.rows, s.waiting[req].write)
  }

  /**
   * As long as no update overtakes another between its check for cycles and its transaction the graph stays sound;
   * creations and deactivations may overlap with anything.
   */
  lemma {:induction false} OnlyUpdatesEndangerUpdates(actions: seq<Action>)
    requires forall i | 0 <= i < |actions| :: !Overtaken(Run(actions[..i]), actions[i])
    ensures ValidTable(Run(actions).rows) && UpToDateChecksHold(Run(actions))
  {
    if actions == [] {
      NoRowsAreValid();
    } else {
      var before, a := actions[..|actions| - 1], actions[|actions| - 1];
      forall i | 0 <= i < |before| ensures !Overtaken(Run(before[..i]), before[i]) {
        assert before[..i] == actions[..i];
      }
      OnlyUpdatesEndangerUpdates(before);
      EveryRunStaysIntact(before);
      assert !Overtaken(Run(before), a);
      UpToDateStep(Run(before), a);
    }
  }

  lemma {:induction false} UpToDateStep(s: System, a: Action)
    requires Inv(s) && ValidTable(s.rows) && UpToDateChecksHold(s) && !Overtaken(s, a)
    ensures ValidTable(Step(s, a).rows) && UpToDateChecksHold(Step(s, a))
  {
    StepIsSafeIff(s, a);
    if a.CheckCycle? && a.req in s.waiting {
      CycleCheckPassesIff(s.rows, s.waiting[a.req].write);
    }
    if Commits(s, a) {
      var w := WithId(s.waiting[a.req].write, a.newId);
      if !w.Updating? {
        forall req | req in s.waiting
          ensures LeadsBack(Committed(s.rows, w), s.waiting[req].write) <==> LeadsBack(s.rows, s.waiting[req].write)
        {
          OthersKeepLeadsBack(s.rows, w, s.waiting[req].write);
        }
      }
    }
  }

  // ----- a cycle closed by two accepted updates

  function RequestOf(code: string, edges: seq<Uint>): ServiceRequest {
    ServiceRequest(code, "service", "team", "production", 1, [1], "tls", "high", edges)
  }

  function TwoServices(): Table {
    map[1 := NewRow(1, RequestOf("one", [])), 2 := NewRow(2, RequestOf("two", []))]
  }

  function Admin(): Actor {
    Actor(1, "admin", "admin", "PKI Platform")
  }

  function CreationOf(id: Uint, code: string): Write {
    Creating(id, RequestOf(code, []), Admin(), {1}, {1})
  }

  function UpdateOf(id: Uint, code: string, dependency: Uint): Write {
    Updating(id, RequestOf(code, [dependency]), Admin(), {1}, {1})
  }

  lemma {:induction false} RowsWithoutEdgesAreValid(rows: Table)
    requires Filed(rows) && forall id | id in rows :: rows[id].edges == Listed([])
    ensures ValidTable(rows) && forall v: Uint :: Succ(TableGraph(rows), v) == []
  {
    assert SortedUnique([]) == [];
    assert forall v: Uint :: Succ(TableGraph(rows), v) == [];
  }

  lemma {:induction false} FirstIsServed()
    ensures Served(map[], CreationOf(1, "one")) == map[1 := NewRow(1, RequestOf("one", []))]
  {
    assert Filed(map[]) && TableGraph(map[]) == map[];
    NoRowsAreValid();
    CycleCheckPassesIff(map[], CreationOf(1, "one"));
  }

  lemma {:induction false} SecondIsServed()
    ensures Served(map[1 := NewRow(1, RequestOf("one", []))], CreationOf(2, "two")) == TwoServices()
  {
    var start: Table := map[1 := NewRow(1, RequestOf("one", []))];
    assert SortedUnique([]) == [];
    RowsWithoutEdgesAreValid(start);
    CycleCheckPassesIff(start, CreationOf(2, "two"));
    assert "one"[0] != "two"[0];
    assert !CodeTaken(start, "two");
  }

  lemma {:induction false} TwoServicesAreServed()
    ensures ServedAll(map[], [CreationOf(1, "one"), CreationOf(2, "two")]) == TwoServices()
  {
    var first, second := CreationOf(1, "one"), CreationOf(2, "two");
    assert [first, second][..1] == [first] && [first][..0] == [];
    FirstIsServed();
    SecondIsServed();
    assert ServedAll(map[], [first]) == Served(map[], first);
  }

  lemma {:induction false} TwoServicesAreFiled()
    ensures Filed(TwoServices()) && forall id | id in TwoServices() :: TwoServices()[id].edges == Listed([])
  {
    assert "one"[0] != "two"[0];
    assert SortedUnique([]) == [];
  }

  lemma {:induction false} MutualUpdatePasses(id: Uint, code: string, dependency: Uint)
    requires id in TwoServices() && dependency in TwoServices() && id != dependency
    ensures Checked(TwoServices(), UpdateOf(id, code, dependency))
    ensures LeadsTo(TableGraph(TwoServices()), [dependency], dependency)
  {
    TwoServicesAreFiled();
    RowsWithoutEdgesAreValid(TwoServices());
    var g := TableGraph(TwoServices());
    ReachesUnfold(g, dependency, id);
    ReachesSelf(g, dependency);
    assert dependency in [dependency];
    CycleCheckPassesIff(TwoServices(), UpdateOf(id, code, dependency));
  }

  /**
   * Two services created serially, then two updates that both pass their checks on the resulting table and close a
   * cycle together, in either order.
   */
  lemma {:induction false} StaleUpdatesCanCloseACycle()
    ensures
      var rows := ServedAll(map[], [CreationOf(1, "one"), CreationOf(2, "two")]);
      var v, w := UpdateOf(1, "one", 2), UpdateOf(2, "two", 1);
      && ValidTable(rows) && Checked(rows, v) && Checked(rows, w)
      && !Acyclic(TableGraph(Committed(Committed(rows, v), w)))
      && !Acyclic(TableGraph(Committed(Committed(rows, w), v)))
  {
    TwoServicesAreServed();
    TwoServicesAreFiled();
    RowsWithoutEdgesAreValid(TwoServices());
    MutualUpdatePasses(1, "one", 2);
    MutualUpdatePasses(2, "two", 1);
    EntangledUpdatesCloseACycle(TwoServices(), UpdateOf(1, "one", 2), UpdateOf(2, "two", 1));
    EntangledUpdatesCloseACycle(TwoServices(), UpdateOf(2, "two", 1), UpdateOf(1, "one", 2));
  }

  lemma {:induction false} EntangledUpdatesCloseACycle(rows: Table, v: Write, w: Write)
    requires ValidTable(rows) && Checked(rows, v) && Checked(rows, w) && Entangled(rows, v, w)
    ensures !Acyclic(TableGraph(Committed(Committed(rows, v), w)))
  {
    TwoStaleWritesAreSafeIff(rows, v, w);
    CommitKeepsIntact(rows, v);
    FitsStays(rows, v, w);
    CommitKeepsIntact(Committed(rows, v), w);
  }
}
