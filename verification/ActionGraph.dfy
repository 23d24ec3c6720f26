/**
 The graph of a recipe's actions: construction-time validation (Kahn with a stack) and the deterministic
 sort (Kahn with a heap on (order, id)). Both work on action ids, so two actions that share an id are one node.
 */
module ActionGraph {
  import opened Wrappers
  import opened Schema
  import opened RecipeGraph

  datatype GraphError =
    | NoActions
    | DuplicateState(state: string)
    | DanglingState(action: string, state: string)
    | SelfLoop(action: string)
    | Cyclic(stuck: set<string>)
    | NoTerminal

  // ----- the graph an action list describes ------------------------------------------

  /** `produced_states`: food-state id to producing action id, a later action winning. */
  function ProducedStates(actions: seq<Action>): map<string, string> {
    if actions == [] then map[]
    else
      var last := actions[|actions| - 1];
      ProducedStates(actions[..|actions| - 1])[last.produces.id := last.id]
  }

  /** `by_id`, a later action winning. */
  function ById(actions: seq<Action>): (m: map<string, Action>)
    ensures forall id :: id in m ==> m[id].id == id && m[id] in actions
  {
    if actions == [] then map[]
    else
      var last := actions[|actions| - 1];
      ById(actions[..|actions| - 1])[last.id := last]
  }

  predicate NoDangling(actions: seq<Action>, producer: map<string, string>) {
    forall a :: a in actions ==> Resolves(a, |a.uses|, producer)
  }

  /** The first n states the action uses have a producer. */
  predicate Resolves(a: Action, n: nat, producer: map<string, string>)
    requires n <= |a.uses|
  {
    forall k :: 0 <= k < n ==> a.uses[k] in producer
  }

  function EdgesOf(a: Action, n: nat, producer: map<string, string>): seq<(string, string)>
    requires n <= |a.uses| && Resolves(a, n, producer)
  {
    seq(n, j requires 0 <= j < n => (producer[a.uses[j]], a.id))
  }

  /** One (producer, consumer) edge for every use, in the order the loops visit them; duplicates are kept. */
  function EdgeList(actions: seq<Action>, producer: map<string, string>): seq<(string, string)>
    requires NoDangling(actions, producer)
  {
    if actions == [] then []
    else
      var last := actions[|actions| - 1];
      EdgeList(actions[..|actions| - 1], producer) + EdgesOf(last, |last.uses|, producer)
  }

  ghost function GraphOf(actions: seq<Action>): Digraph
    requires NoDangling(actions, ProducedStates(actions))
  {
    Digraph(ById(actions).Keys, Elements(EdgeList(actions, ProducedStates(actions))),
            map id | id in ById(actions) :: ById(actions)[id].order)
  }

  lemma {:induction false} ByIdKeys(actions: seq<Action>)
    ensures forall a :: a in actions ==> a.id in ById(actions)
    ensures forall s :: s in ProducedStates(actions) ==> ProducedStates(actions)[s] in ById(actions)
    ensures forall a :: a in actions ==> a.produces.id in ProducedStates(actions)
  {
    if actions != [] {
      var init := actions[..|actions| - 1];
      ByIdKeys(init);
      assert forall a :: a in actions ==> a in init || a == actions[|actions| - 1];
    }
  }

  predicate UsesFrom(a: Action, producer: map<string, string>, id: string) {
    exists k :: 0 <= k < |a.uses| && a.uses[k] in producer && producer[a.uses[k]] == id
  }

  lemma EdgesOfMembers(a: Action, producer: map<string, string>, e: (string, string))
    requires Resolves(a, |a.uses|, producer)
    ensures e in Elements(EdgesOf(a, |a.uses|, producer)) <==> UsesFrom(a, producer, e.0) && a.id == e.1
  {
    var F := EdgesOf(a, |a.uses|, producer);
    if UsesFrom(a, producer, e.0) && a.id == e.1 {
      var k :| 0 <= k < |a.uses| && a.uses[k] in producer && producer[a.uses[k]] == e.0;
      assert F[k] == e;
    }
  }

  /** The edges are exactly the (producer of a used state, user) pairs. */
  lemma {:induction false} EdgeListMembers(actions: seq<Action>, producer: map<string, string>, e: (string, string))
    requires NoDangling(actions, producer)
    ensures e in Elements(EdgeList(actions, producer))
       <==> exists a :: a in actions && UsesFrom(a, producer, e.0) && a.id == e.1
  {
    if actions != [] {
      var init, last := actions[..|actions| - 1], actions[|actions| - 1];
      var E, F := EdgeList(init, producer), EdgesOf(last, |last.uses|, producer);
      EdgeListMembers(init, producer, e);
      ElementsConcat(E, F);
      EdgesOfMembers(last, producer, e);
      assert forall a :: a in actions <==> a in init || a == last;
    }
  }

  lemma ElementsConcat<T>(s: seq<T>, t: seq<T>)
    ensures Elements(s + t) == Elements(s) + Elements(t)
  {
    var r := s + t;
    assert forall i :: 0 <= i < |s| ==> r[i] == s[i];
    assert forall i :: 0 <= i < |t| ==> r[|s| + i] == t[i];
  }

  lemma GraphWellFormed(actions: seq<Action>)
    requires NoDangling(actions, ProducedStates(actions))
    ensures WellFormed(GraphOf(actions))
  {
    var producer := ProducedStates(actions);
    ByIdKeys(actions);
    forall e | e in GraphOf(actions).edges ensures e.0 in ById(actions) && e.1 in ById(actions) {
      EdgeListMembers(actions, producer, e);
    }
  }

  // ----- what validation accepts --------------------------------------------------------

  predicate SingleWriter(actions: seq<Action>) {
    forall i, j :: 0 <= i < j < |actions| ==> actions[i].produces.id != actions[j].produces.id
  }

  predicate Consumed(actions: seq<Action>, state: string) {
    exists a :: a in actions && state in a.uses
  }

  /** The graph invariants `Recipe` enforces. */
  ghost predicate ValidGraph(actions: seq<Action>) {
    && actions != []
    && SingleWriter(actions)
    && NoDangling(actions, ProducedStates(actions))
    && !HasCycle(GraphOf(actions))
    && exists a :: a in actions && !Consumed(actions, a.produces.id)
  }

  lemma {:induction false} ProducerUnique(actions: seq<Action>, a: Action)
    requires SingleWriter(actions) && a in actions
    ensures a.produces.id in ProducedStates(actions) && ProducedStates(actions)[a.produces.id] == a.id
  {
    var init, last := actions[..|actions| - 1], actions[|actions| - 1];
    if a != last {
      var i :| 0 <= i < |actions| && actions[i] == a;
      assert init[i] == a;
      ProducerUnique(init, a);
    }
  }

  /** The terminal check can never fail once the others pass. */
  lemma {:induction false} TerminalExists(actions: seq<Action>)
    requires actions != [] && SingleWriter(actions) && NoDangling(actions, ProducedStates(actions))
    requires !HasCycle(GraphOf(actions))
    ensures exists a :: a in actions && !Consumed(actions, a.produces.id)
  {
    var g := GraphOf(actions);
    GraphWellFormed(actions);
    ByIdKeys(actions);
    assert actions[0].id in g.nodes;
    var v := SinkExists(g);
    SinkNotConsumed(actions, ById(actions)[v]);
  }

  lemma SinkNotConsumed(actions: seq<Action>, a: Action)
    requires SingleWriter(actions) && NoDangling(actions, ProducedStates(actions)) && a in actions
    requires forall e :: e in GraphOf(actions).edges ==> e.0 != a.id
    ensures !Consumed(actions, a.produces.id)
  {
    ProducerUnique(actions, a);
    forall b | b in actions && a.produces.id in b.uses ensures false {
      var k :| 0 <= k < |b.uses| && b.uses[k] == a.produces.id;
      assert UsesFrom(b, ProducedStates(actions), a.id);
      EdgeListMembers(actions, ProducedStates(actions), (a.id, b.id));
    }
  }

  // ----- in-degrees -----------------------------------------------------------------------

  /** Edges of the list into v whose source is not done. */
  function CountInto(E: seq<(string, string)>, v: string, done: set<string>): nat {
    if E == [] then 0
    else
      var e := E[|E| - 1];
      CountInto(E[..|E| - 1], v, done) + if e.1 == v && e.0 !in done then 1 else 0
  }

  /** Targets of the edges of the list out of u, in order. */
  function Targets(E: seq<(string, string)>, u: string): seq<string> {
    if E == [] then []
    else
      var e := E[|E| - 1];
      Targets(E[..|E| - 1], u) + if e.0 == u then [e.1] else []
  }

  lemma {:induction false} CountAfter(E: seq<(string, string)>, v: string, done: set<string>, u: string)
    requires u !in done
    ensures CountInto(E, v, done) == CountInto(E, v, done + {u}) + multiset(Targets(E, u))[v]
  {
    if E != [] {
      CountAfter(E[..|E| - 1], v, done, u);
    }
  }

  lemma {:induction false} CountZero(E: seq<(string, string)>, v: string, done: set<string>)
    ensures CountInto(E, v, done) == 0 <==> forall e :: e in Elements(E) && e.1 == v ==> e.0 in done
  {
    if E != [] {
      var init := E[..|E| - 1];
      CountZero(init, v, done);
      ElementsTake(E, |E| - 1);
      assert E[..|E|] == E;
    }
  }

  lemma {:induction false} TargetsMembers(E: seq<(string, string)>, u: string, v: string)
    ensures v in Targets(E, u) <==> (u, v) in Elements(E)
  {
    if E != [] {
      TargetsMembers(E[..|E| - 1], u, v);
      ElementsTake(E, |E| - 1);
      assert E[..|E|] == E;
    }
  }

  /** The nodes ready after `done` are those not done whose remaining in-degree is zero. */
  lemma ReadyByCount(g: Digraph, E: seq<(string, string)>, done: set<string>)
    requires g.edges == Elements(E)
    ensures forall v :: v in Ready(g, done) <==> v in g.nodes && v !in done && CountInto(E, v, done) == 0
  {
    forall v ensures CountInto(E, v, done) == 0 <==> Released(g, done, v) {
      CountZero(E, v, done);
    }
  }

  // ----- the two tables both algorithms build ------------------------------------------------

  datatype Tables = Tables(indegree: map<string, int>, dependents: map<string, seq<string>>)

  ghost predicate TablesOf(t: Tables, ids: set<string>, E: seq<(string, string)>) {
    && t.indegree.Keys == ids && t.dependents.Keys == ids
    && (forall v :: v in ids ==> t.indegree[v] == CountInto(E, v, {}))
    && (forall v :: v in ids ==> t.dependents[v] == Targets(E, v))
  }

  function AddEdge(t: Tables, e: (string, string)): Tables
    requires e.1 in t.indegree && e.0 in t.dependents
  {
    Tables(t.indegree[e.1 := t.indegree[e.1] + 1], t.dependents[e.0 := t.dependents[e.0] + [e.1]])
  }

  lemma AddEdgeCounts(t: Tables, ids: set<string>, E: seq<(string, string)>, e: (string, string))
    requires TablesOf(t, ids, E) && e.0 in ids && e.1 in ids
    ensures TablesOf(AddEdge(t, e), ids, E + [e])
  {
    assert (E + [e])[..|E|] == E;
  }

  /** The first n uses of the action have a producer and, for the validator, none is its own output. */
  predicate Countable(a: Action, n: nat, producer: map<string, string>, rejectLoops: bool)
    requires n <= |a.uses|
  {
    Resolves(a, n, producer) && (rejectLoops ==> forall k :: 0 <= k < n ==> producer[a.uses[k]] != a.id)
  }

  predicate AllCountable(actions: seq<Action>, producer: map<string, string>, rejectLoops: bool) {
    forall a :: a in actions ==> Countable(a, |a.uses|, producer, rejectLoops)
  }

  function EmptyTables(ids: set<string>): (t: Tables)
    ensures TablesOf(t, ids, [])
  {
    Tables(map id | id in ids :: 0, map id | id in ids :: [])
  }

  lemma TakeNone(actions: seq<Action>, producer: map<string, string>, rejectLoops: bool)
    ensures actions[..|actions|] == actions
    ensures AllCountable(actions[..0], producer, rejectLoops) && NoDangling(actions[..0], producer)
    ensures EdgeList(actions[..0], producer) == []
  {
  }

  lemma OneMoreAction(actions: seq<Action>, i: nat, producer: map<string, string>, rejectLoops: bool)
    requires i < |actions| && NoDangling(actions[..i], producer)
    ensures AllCountable(actions[..i + 1], producer, rejectLoops) <==>
              (AllCountable(actions[..i], producer, rejectLoops)
                && Countable(actions[i], |actions[i].uses|, producer, rejectLoops))
    ensures AllCountable(actions[..i + 1], producer, rejectLoops) ==>
              && NoDangling(actions[..i + 1], producer)
              && EdgeList(actions[..i + 1], producer)
              == EdgeList(actions[..i], producer) + EdgesOf(actions[i], |actions[i].uses|, producer)
  {
    var more := actions[..i + 1];
    assert more[..|more| - 1] == actions[..i];
    assert forall b :: b in more <==> b in actions[..i] || b == actions[i];
  }

  lemma KnownIds(actions: seq<Action>, i: nat)
    requires i < |actions|
    ensures actions[i].id in ById(actions)
    ensures forall s :: s in ProducedStates(actions) ==> ProducedStates(actions)[s] in ById(actions)
  {
    ByIdKeys(actions);
    assert actions[i] in actions;
  }

  /** Fills the tables; raises on a state nothing produces and, for the validator, on a self-loop. */
  method CountEdges(actions: seq<Action>, producer: map<string, string>, rejectLoops: bool)
      returns (r: Result<Tables, GraphError>)
    requires producer == ProducedStates(actions)
    ensures r.Success? <==> AllCountable(actions, producer, rejectLoops)
    ensures r.Success? ==>
              NoDangling(actions, producer) && TablesOf(r.value, ById(actions).Keys, EdgeList(actions, producer))
    ensures r.Failure? ==> r.error.DanglingState? || r.error.SelfLoop?
  {
    var ids := ById(actions).Keys;
    var t := EmptyTables(ids);
    TakeNone(actions, producer, rejectLoops);
    for i := 0 to |actions|
      invariant AllCountable(actions[..i], producer, rejectLoops) && NoDangling(actions[..i], producer)
      invariant TablesOf(t, ids, EdgeList(actions[..i], producer))
    {
      KnownIds(actions, i);
      OneMoreAction(actions, i, producer, rejectLoops);
      t :- AddUses(actions[i], producer, rejectLoops, t, ids, EdgeList(actions[..i], producer));
    }
    r := Success(t);
  }

  lemma NoUseYet(E: seq<(string, string)>, a: Action, producer: map<string, string>)
    ensures E + EdgesOf(a, 0, producer) == E
  {
  }

  lemma OneMoreUse(t: Tables, ids: set<string>, E: seq<(string, string)>, a: Action, j: nat,
                   producer: map<string, string>)
    requires j < |a.uses| && Resolves(a, j + 1, producer)
    requires TablesOf(t, ids, E + EdgesOf(a, j, producer)) && a.id in ids && producer[a.uses[j]] in ids
    ensures TablesOf(AddEdge(t, (producer[a.uses[j]], a.id)), ids, E + EdgesOf(a, j + 1, producer))
  {
    var e := (producer[a.uses[j]], a.id);
    AddEdgeCounts(t, ids, E + EdgesOf(a, j, producer), e);
    assert E + EdgesOf(a, j, producer) + [e] == E + EdgesOf(a, j + 1, producer);
  }

  /** The producer of the action's j-th use, or the error its edge raises. */
  function Upstream(a: Action, j: nat, producer: map<string, string>,
                    rejectLoops: bool): (r: Result<string, GraphError>)
    requires j < |a.uses|
    ensures r.Success? <==> a.uses[j] in producer && !(rejectLoops && producer[a.uses[j]] == a.id)
    ensures r.Success? ==> r.value == producer[a.uses[j]]
    ensures r.Failure? ==> r.error.DanglingState? || r.error.SelfLoop?
  {
    if a.uses[j] !in producer then Failure(DanglingState(a.id, a.uses[j]))
    else if rejectLoops && producer[a.uses[j]] == a.id then Failure(SelfLoop(a.id))
    else Success(producer[a.uses[j]])
  }

  /** The inner loop over one action's uses. */
  method AddUses(a: Action, producer: map<string, string>, rejectLoops: bool, t0: Tables,
                 ghost ids: set<string>, ghost E: seq<(string, string)>) returns (r: Result<Tables, GraphError>)
    requires TablesOf(t0, ids, E) && a.id in ids && forall s :: s in producer ==> producer[s] in ids
    ensures r.Success? <==> Countable(a, |a.uses|, producer, rejectLoops)
    ensures r.Success? ==> TablesOf(r.value, ids, E + EdgesOf(a, |a.uses|, producer))
    ensures r.Failure? ==> r.error.DanglingState? || r.error.SelfLoop?
  {
    var t := t0;
    NoUseYet(E, a, producer);
    for j := 0 to |a.uses|
      invariant Countable(a, j, producer, rejectLoops)
      invariant TablesOf(t, ids, E + EdgesOf(a, j, producer))
    {
      var upstream :- Upstream(a, j, producer, rejectLoops);
      OneMoreUse(t, ids, E, a, j, producer);
      t := AddEdge(t, (upstream, a.id));
    }
    r := Success(t);
  }

  /** Decrements the in-degree of every dependent and collects those that reach zero. */
  method Release(dependents: seq<string>, indegree: map<string, int>)
      returns (after: map<string, int>, freed: seq<string>)
    requires forall v :: v in dependents ==> v in indegree && indegree[v] >= multiset(dependents)[v]
    ensures after.Keys == indegree.Keys
    ensures forall v :: v in indegree ==> after[v] == indegree[v] - multiset(dependents)[v]
    ensures NoRepeats(freed)
    ensures forall v :: v in freed <==> v in dependents && after[v] == 0
  {
    after, freed := indegree, [];
    for j := 0 to |dependents|
      invariant after.Keys == indegree.Keys
      invariant forall v :: v in indegree ==> after[v] == indegree[v] - multiset(dependents[..j])[v]
      invariant NoRepeats(freed)
      invariant forall v :: v in freed <==> v in dependents[..j] && after[v] == 0
    {
      var nxt := dependents[j];
      assert dependents[..j + 1] == dependents[..j] + [nxt];
      MorePrefix(dependents, j);
      after := after[nxt := after[nxt] - 1];
      if after[nxt] == 0 {
        freed := freed + [nxt];
      }
    }
    assert dependents[..|dependents|] == dependents;
  }

  lemma MorePrefix(s: seq<string>, j: nat)
    requires j < |s|
    ensures multiset(s)[s[j]] > multiset(s[..j])[s[j]]
  {
    assert s == s[..j] + [s[j]] + s[j + 1..];
  }
}
