/** Validation and the deterministic sort: the two loops of Kahn's algorithm over the tables of `ActionGraph`. */
module Kahn {
  import opened Wrappers
  import opened Schema
  import opened RecipeGraph
  import opened ActionGraph

  // ----- one emission step, shared by both loops ---------------------------------------

  /** The remaining in-degrees once the nodes of `done` are emitted. */
  ghost predicate Counts(g: Digraph, E: seq<(string, string)>, indegree: map<string, int>, done: set<string>) {
    && g.edges == Elements(E)
    && indegree.Keys == g.nodes
    && forall v :: v in g.nodes ==> indegree[v] == CountInto(E, v, done)
  }

  ghost predicate Closed(g: Digraph, done: set<string>) {
    forall e :: e in g.edges && e.1 in done ==> e.0 in done
  }

  lemma BeforeRelease(g: Digraph, E: seq<(string, string)>, indegree: map<string, int>, done: set<string>, u: string)
    requires WellFormed(g) && Counts(g, E, indegree, done) && u !in done
    ensures forall v :: v in Targets(E, u) ==> v in indegree && indegree[v] >= multiset(Targets(E, u))[v]
  {
    forall v | v in Targets(E, u) ensures v in indegree && indegree[v] >= multiset(Targets(E, u))[v] {
      TargetsMembers(E, u, v);
      CountAfter(E, v, done, u);
    }
  }

  /** Releasing the dependents of a ready node u leaves exactly the old ready nodes but u, and the freed ones. */
  lemma AfterRelease(g: Digraph, E: seq<(string, string)>, before: map<string, int>, after: map<string, int>,
                     done: set<string>, u: string, freed: seq<string>)
    requires WellFormed(g) && Counts(g, E, before, done) && Closed(g, done) && u in Ready(g, done)
    requires after.Keys == before.Keys
    requires forall v :: v in before ==> after[v] == before[v] - multiset(Targets(E, u))[v]
    requires forall v :: v in freed <==> v in Targets(E, u) && v in after && after[v] == 0
    ensures Counts(g, E, after, done + {u}) && Closed(g, done + {u})
    ensures Ready(g, done + {u}) == Ready(g, done) - {u} + Elements(freed)
    ensures Ready(g, done) !! Elements(freed)
  {
    forall v | v in g.nodes ensures after[v] == CountInto(E, v, done + {u}) {
      CountAfter(E, v, done, u);
    }
    ReadyByCount(g, E, done);
    ReadyByCount(g, E, done + {u});
    forall v ensures v in Elements(freed) ==> v in g.nodes && v !in done && v != u && v !in Ready(g, done) {
      if v in Elements(freed) {
        FreedEdge(g, E, u, v, freed);
      }
    }
    forall v | v in g.nodes && v !in done && v != u
      ensures v in Ready(g, done + {u}) <==> v in Ready(g, done) || v in freed {
      CountAfter(E, v, done, u);
    }
  }

  lemma FreedEdge(g: Digraph, E: seq<(string, string)>, u: string, v: string, freed: seq<string>)
    requires g.edges == Elements(E) && v in Elements(freed)
    requires forall w :: w in freed ==> w in Targets(E, u)
    ensures (u, v) in g.edges
  {
    assert v in freed;
    TargetsMembers(E, u, v);
  }

  lemma IdsSnoc(actions: seq<Action>, i: nat)
    requires i < |actions|
    ensures ById(actions[..i + 1]).Keys == ById(actions[..i]).Keys + {actions[i].id}
    ensures actions[i].id in ById(actions)
  {
    assert actions[..i + 1][..i] == actions[..i];
    ByIdKeys(actions);
    assert actions[i] in actions;
  }

  /** The ids whose in-degree is zero, in dictionary order. */
  method InitialReady(actions: seq<Action>, indegree: map<string, int>) returns (ready: seq<string>)
    requires indegree.Keys == ById(actions).Keys
    ensures NoRepeats(ready)
    ensures forall v :: v in ready <==> v in indegree && indegree[v] == 0
  {
    ready := [];
    for i := 0 to |actions|
      invariant NoRepeats(ready)
      invariant forall v :: v in ready <==> v in ById(actions[..i]) && v in indegree && indegree[v] == 0
    {
      IdsSnoc(actions, i);
      var id := actions[i].id;
      if indegree[id] == 0 && id !in ready {
        ready := ready + [id];
      }
    }
    TakeAll(actions);
  }

  lemma TakeAll<T>(s: seq<T>)
    ensures s[..|s|] == s
  {
  }

  lemma ElementsIff<T>(s: seq<T>, t: set<T>)
    requires forall v :: v in s <==> v in t
    ensures Elements(s) == t
  {
  }

  lemma PopLast(s: seq<string>)
    requires s != [] && NoRepeats(s)
    ensures var init := s[..|s| - 1];
            NoRepeats(init) && Elements(init) == Elements(s) - {s[|s| - 1]} && s[|s| - 1] in Elements(s)
  {
    ElementsTake(s, |s| - 1);
    assert s[..|s|] == s;
    NotBefore(s, |s| - 1);
  }

  lemma Disjoint(s: seq<string>, t: seq<string>)
    requires NoRepeats(s) && NoRepeats(t) && Elements(s) !! Elements(t)
    ensures NoRepeats(s + t) && Elements(s + t) == Elements(s) + Elements(t)
  {
    ElementsConcat(s, t);
    assert forall i :: 0 <= i < |s| ==> s[i] in Elements(s);
    assert forall i :: 0 <= i < |t| ==> t[i] in Elements(t);
  }

  /** Emitting a ready node keeps the emitted sequence duplicate-free and dependency-ordered. */
  lemma EmitOne(g: Digraph, done: seq<string>, u: string)
    requires u in Ready(g, Elements(done)) && NoRepeats(done) && Elements(done) <= g.nodes
    requires forall k :: 0 <= k < |done| ==> Released(g, Elements(done[..k]), done[k])
    ensures var more := done + [u];
            && NoRepeats(more) && Elements(more) == Elements(done) + {u} && Elements(more) <= g.nodes
            && (forall k :: 0 <= k < |more| ==> Released(g, Elements(more[..k]), more[k]))
            && |g.nodes - Elements(more)| < |g.nodes - Elements(done)|
  {
    var more := done + [u];
    ElementsSnoc(done, u);
    assert forall i :: 0 <= i < |done| ==> done[i] in Elements(done);
    forall k | 0 <= k < |more| ensures Released(g, Elements(more[..k]), more[k]) {
      assert more[..k] == if k < |done| then done[..k] else done;
    }
    assert u in g.nodes - Elements(done);
    SmallerSet(g.nodes - Elements(more), g.nodes - Elements(done));
  }

  /** Duplicate-free, within the graph, each node after everything it depends on. */
  ghost predicate Emitted(g: Digraph, done: seq<string>) {
    && NoRepeats(done) && Elements(done) <= g.nodes
    && forall k :: 0 <= k < |done| ==> Released(g, Elements(done[..k]), done[k])
  }

  /** What both loops keep: the in-degrees left, and the waiting nodes are exactly the ready ones. */
  ghost predicate Frontier(g: Digraph, E: seq<(string, string)>, indegree: map<string, int>, waiting: seq<string>,
                           done: seq<string>) {
    && WellFormed(g) && Counts(g, E, indegree, Elements(done)) && Closed(g, Elements(done))
    && Emitted(g, done)
    && NoRepeats(waiting) && Elements(waiting) == Ready(g, Elements(done))
  }

  lemma FrontierStart(g: Digraph, E: seq<(string, string)>, indegree: map<string, int>, waiting: seq<string>)
    requires WellFormed(g) && Counts(g, E, indegree, {}) && NoRepeats(waiting)
    requires forall v :: v in waiting <==> v in indegree && indegree[v] == 0
    ensures Frontier(g, E, indegree, waiting, [])
  {
    assert Elements<string>([]) == {};
    ReadyByCount(g, E, {});
    ElementsIff(waiting, Ready(g, {}));
  }

  lemma FrontierStep(g: Digraph, E: seq<(string, string)>, before: map<string, int>, waiting: seq<string>,
                     done: seq<string>,
                     u: string, rest: seq<string>, after: map<string, int>, freed: seq<string>)
    requires Frontier(g, E, before, waiting, done) && u in Elements(waiting)
    requires NoRepeats(rest) && Elements(rest) == Elements(waiting) - {u}
    requires after.Keys == before.Keys
    requires forall v :: v in before ==> after[v] == before[v] - multiset(Targets(E, u))[v]
    requires NoRepeats(freed) && forall v :: v in freed <==> v in Targets(E, u) && v in after && after[v] == 0
    ensures Frontier(g, E, after, rest + freed, done + [u])
    ensures |g.nodes - Elements(done + [u])| < |g.nodes - Elements(done)|
  {
    AfterRelease(g, E, before, after, Elements(done), u, freed);
    EmitOne(g, done, u);
    Disjoint(rest, freed);
  }

  // ----- validation: a stack -----------------------------------------------------------------

  /** `_assert_acyclic`: the emission order is irrelevant to the verdict, and `stuck` holds a cycle. */
  method AssertAcyclic(actions: seq<Action>, producer: map<string, string>) returns (e: Option<GraphError>)
    requires producer == ProducedStates(actions) && NoDangling(actions, producer)
    ensures e.None? <==> !HasCycle(GraphOf(actions))
    ensures e.Some? ==> e.value.SelfLoop? || e.value.DanglingState? || e.value.Cyclic?
    ensures e.Some? && e.value.Cyclic? ==> HoldsCycle(GraphOf(actions), e.value.stuck)
  {
    ghost var g := GraphOf(actions);
    ghost var E := EdgeList(actions, producer);
    GraphWellFormed(actions);
    var counted := CountEdges(actions, producer, true);
    if counted.Failure? {
      SelfUseCycle(actions, producer);
      return Some(counted.error);
    }
    var indegree, dependents := counted.value.indegree, counted.value.dependents;
    var ready := InitialReady(actions, indegree);
    ghost var done: seq<string> := [];
    FrontierStart(g, E, indegree, ready);
    var emitted := 0;
    while ready != []
      invariant Frontier(g, E, indegree, ready, done) && emitted == |done|
      decreases |g.nodes - Elements(done)|
    {
      var current, rest := ready[|ready| - 1], ready[..|ready| - 1];
      PopLast(ready);
      BeforeRelease(g, E, indegree, Elements(done), current);
      var after, freed := Release(dependents[current], indegree);
      FrontierStep(g, E, indegree, ready, done, current, rest, after, freed);
      indegree, ready, done, emitted := after, rest + freed, done + [current], emitted + 1;
    }
    LoopVerdict(g, E, indegree, done);
    if emitted != |indegree| {
      return Some(Cyclic(set v | v in indegree && indegree[v] > 0));
    }
    return None;
  }

  /** When nothing waits, all nodes were emitted exactly if there is no cycle; otherwise those left hold one. */
  lemma LoopVerdict(g: Digraph, E: seq<(string, string)>, indegree: map<string, int>, done: seq<string>)
    requires Frontier(g, E, indegree, [], done)
    ensures |done| == |indegree| <==> !HasCycle(g)
    ensures |done| != |indegree| ==> HoldsCycle(g, set v | v in indegree && indegree[v] > 0)
  {
    assert Elements<string>([]) == {};
    KahnExact(g, done);
    assert indegree.Keys == g.nodes;
    if |done| != |indegree| {
      var stuck := set v | v in indegree && indegree[v] > 0;
      var c := StuckCycle(g, Elements(done));
      ReadyByCount(g, E, Elements(done));
      assert g.nodes - Elements(done) <= stuck;
    }
  }

  /** The set contains every node of some cycle. */
  ghost predicate HoldsCycle(g: Digraph, s: set<string>) {
    exists c :: IsCycle(g, c) && Elements(c) <= s
  }

  lemma SelfUseCycle(actions: seq<Action>, producer: map<string, string>)
    requires producer == ProducedStates(actions) && NoDangling(actions, producer)
    requires !AllCountable(actions, producer, true)
    ensures HasCycle(GraphOf(actions))
  {
    var a :| a in actions && !Countable(a, |a.uses|, producer, true);
    assert UsesFrom(a, producer, a.id);
    EdgeListMembers(actions, producer, (a.id, a.id));
    assert IsCycle(GraphOf(actions), [a.id, a.id]);
  }

  /** The producer table, or the first state two actions produce. */
  method SingleWriters(actions: seq<Action>) returns (r: Result<map<string, string>, GraphError>)
    ensures r.Success? <==> SingleWriter(actions)
    ensures r.Success? ==> r.value == ProducedStates(actions)
    ensures r.Failure? ==> r.error.DuplicateState?
  {
    var producer: map<string, string> := map[];
    for i := 0 to |actions|
      invariant producer == ProducedStates(actions[..i]) && SingleWriter(actions[..i])
      invariant forall s :: s in producer <==> exists k :: 0 <= k < i && actions[k].produces.id == s
    {
      var a := actions[i];
      assert actions[..i + 1][..i] == actions[..i];
      if a.produces.id in producer {
        return Failure(DuplicateState(a.produces.id));
      }
      producer := producer[a.produces.id := a.id];
    }
    TakeAll(actions);
    r := Success(producer);
  }

  /** The first use, in order, of a state nothing produces. */
  method FindDangling(actions: seq<Action>, producer: map<string, string>) returns (e: Option<GraphError>)
    ensures e.None? <==> NoDangling(actions, producer)
    ensures e.Some? ==> e.value.DanglingState?
  {
    for i := 0 to |actions|
      invariant forall k :: 0 <= k < i ==> Resolves(actions[k], |actions[k].uses|, producer)
    {
      var a := actions[i];
      for j := 0 to |a.uses|
        invariant Resolves(a, j, producer)
      {
        if a.uses[j] !in producer {
          assert a in actions;
          return Some(DanglingState(a.id, a.uses[j]));
        }
      }
    }
    return None;
  }

  /** `_validate_graph`. */
  method ValidateGraph(actions: seq<Action>) returns (e: Option<GraphError>)
    ensures e.None? <==> ValidGraph(actions)
    ensures e.Some? ==> !e.value.NoTerminal?
    ensures e.Some? && e.value.Cyclic? ==>
              NoDangling(actions, ProducedStates(actions)) && HoldsCycle(GraphOf(actions), e.value.stuck)
  {
    if actions == [] {
      return Some(NoActions);
    }
    var written := SingleWriters(actions);
    if written.Failure? {
      return Some(written.error);
    }
    var producer := written.value;
    e := FindDangling(actions, producer);
    if e.Some? {
      return;
    }
    e := AssertAcyclic(actions, producer);
    if e.Some? {
      return;
    }
    TerminalExists(actions);
    if TerminalStates(actions) == [] {
      assert false;
      return Some(NoTerminal);
    }
  }

  /** `terminal_state_ids`. */
  function TerminalStates(actions: seq<Action>): (s: seq<string>)
    ensures forall id :: id in s <==> exists a :: a in actions && a.produces.id == id && !Consumed(actions, id)
  {
    TerminalsAmong(actions, actions)
  }

  function TerminalsAmong(some: seq<Action>, actions: seq<Action>): (s: seq<string>)
    ensures forall id :: id in s <==> exists a :: a in some && a.produces.id == id && !Consumed(actions, id)
  {
    if some == [] then []
    else
      var rest := TerminalsAmong(some[1..], actions);
      assert forall a :: a in some <==> a == some[0] || a in some[1..];
      if Consumed(actions, some[0].produces.id) then rest else [some[0].produces.id] + rest
  }

  // ----- the deterministic sort: a heap ---------------------------------------------------------

  /** The order `topological_actions` returns when it succeeds. */
  ghost function SortedActions(actions: seq<Action>): (s: seq<Action>)
    requires NoDangling(actions, ProducedStates(actions))
    ensures forall k :: 0 <= k < |s| ==> s[k] in actions
  {
    GraphWellFormed(actions);
    var order := GreedyOrder(GraphOf(actions));
    assert forall k :: 0 <= k < |order| ==> order[k] in ById(actions) by {
      GreedyNoRepeats(GraphOf(actions), order);
      assert forall k :: 0 <= k < |order| ==> order[k] in Elements(order);
    }
    seq(|order|, k requires 0 <= k < |order| => ById(actions)[order[k]])
  }

  /** `heapq.heappop` on entries (order, id): removes the least entry. */
  method PopLeast(ghost g: Digraph, rank: map<string, int>, heap: seq<string>)
      returns (least: string, rest: seq<string>)
    requires heap != [] && NoRepeats(heap) && g.rank == rank && Elements(heap) <= rank.Keys
    ensures IsLeast(g, Elements(heap), least)
    ensures NoRepeats(rest) && Elements(rest) == Elements(heap) - {least}
  {
    var at := 0;
    assert forall k :: 0 <= k < |heap| ==> heap[k] in Elements(heap);
    for i := 1 to |heap|
      invariant at < i
      invariant forall k :: 0 <= k < i && k != at ==> KeyLess(g, heap[at], heap[k])
    {
      KeyTotal(g, heap[at], heap[i]);
      if rank[heap[i]] < rank[heap[at]] || (rank[heap[i]] == rank[heap[at]] && Text.LexLess(heap[i], heap[at])) {
        forall k | 0 <= k < i && k != at ensures KeyLess(g, heap[i], heap[k]) {
          KeyTransitive(g, heap[i], heap[at], heap[k]);
        }
        at := i;
      }
    }
    least := heap[at];
    rest := heap[..at] + heap[at + 1..];
    RemoveAt(heap, at);
  }

  lemma RemoveAt(s: seq<string>, at: nat)
    requires NoRepeats(s) && at < |s|
    ensures var rest := s[..at] + s[at + 1..];
            NoRepeats(rest) && Elements(rest) == Elements(s) - {s[at]}
  {
    var rest := s[..at] + s[at + 1..];
    assert forall i :: 0 <= i < |rest| ==> rest[i] == if i < at then s[i] else s[i + 1];
    forall v | v in Elements(s) && v != s[at] ensures v in Elements(rest) {
      var i :| 0 <= i < |s| && s[i] == v;
      assert rest[if i < at then i else i - 1] == v;
    }
  }

  /** `topological_actions`. */
  method TopologicalActions(actions: seq<Action>) returns (r: Result<seq<Action>, GraphError>)
    ensures !NoDangling(actions, ProducedStates(actions)) ==> r.Failure?
    ensures NoDangling(actions, ProducedStates(actions)) ==>
              r == if HasCycle(GraphOf(actions)) then Failure(Cyclic({})) else Success(SortedActions(actions))
  {
    var byId := ById(actions);
    var producer := ProducedStates(actions);
    var counted := CountEdges(actions, producer, false);
    if counted.Failure? {
      return Failure(counted.error);
    }
    GraphWellFormed(actions);
    var heap := InitialReady(actions, counted.value.indegree);
    ghost var g, E := GraphOf(actions), EdgeList(actions, producer);
    ghost var done;
    var ordered;
    ordered, done := EmitAll(g, E, byId, counted.value, heap);
    KahnExact(g, done);
    GreedyUnique(g, done, GreedyOrder(g));
    if |ordered| != |byId| {
      return Failure(Cyclic({}));
    }
    assert ordered == SortedActions(actions);
    return Success(ordered);
  }

  /** The loop of `topological_actions`: pop the least ready action, emit it, push what it frees. */
  method EmitAll(ghost g: Digraph, ghost E: seq<(string, string)>, byId: map<string, Action>, tables: Tables,
                 start: seq<string>) returns (ordered: seq<Action>, ghost done: seq<string>)
    requires WellFormed(g) && g.edges == Elements(E) && g.nodes == byId.Keys && TablesOf(tables, byId.Keys, E)
    requires g.rank == map id | id in byId :: byId[id].order
    requires NoRepeats(start) && forall v :: v in start <==> v in tables.indegree && tables.indegree[v] == 0
    ensures IsGreedy(g, done) && Emitted(g, done)
    ensures LookedUp(byId, done, ordered)
  {
    var rank := map id | id in byId :: byId[id].order;
    var indegree, heap := tables.indegree, start;
    done, ordered := [], [];
    FrontierStart(g, E, indegree, heap);
    while heap != []
      invariant Frontier(g, E, indegree, heap, done) && GreedySoFar(g, done)
      invariant LookedUp(byId, done, ordered)
      decreases |g.nodes - Elements(done)|
    {
      var current, rest := PopLeast(g, rank, heap);
      BeforeRelease(g, E, indegree, Elements(done), current);
      var after, freed := Release(tables.dependents[current], indegree);
      FrontierStep(g, E, indegree, heap, done, current, rest, after, freed);
      GreedyStep(g, done, current);
      LookUpOne(byId, done, ordered, current);
      ordered := ordered + [byId[current]];
      indegree, heap, done := after, rest + freed, done + [current];
    }
    TakeAll(done);
  }

  ghost predicate LookedUp(byId: map<string, Action>, ids: seq<string>, actions: seq<Action>) {
    |actions| == |ids| && forall k :: 0 <= k < |ids| ==> ids[k] in byId && actions[k] == byId[ids[k]]
  }

  lemma LookUpOne(byId: map<string, Action>, ids: seq<string>, actions: seq<Action>, id: string)
    requires LookedUp(byId, ids, actions) && id in byId
    ensures LookedUp(byId, ids + [id], actions + [byId[id]])
  {
  }

  ghost predicate GreedySoFar(g: Digraph, done: seq<string>)
    requires WellFormed(g)
  {
    forall k :: 0 <= k < |done| ==> IsLeast(g, Ready(g, Elements(done[..k])), done[k])
  }

  lemma GreedyStep(g: Digraph, done: seq<string>, u: string)
    requires WellFormed(g) && GreedySoFar(g, done) && IsLeast(g, Ready(g, Elements(done)), u)
    ensures GreedySoFar(g, done + [u])
  {
    var more := done + [u];
    forall k | 0 <= k < |more| ensures IsLeast(g, Ready(g, Elements(more[..k])), more[k]) {
      assert more[..k] == if k < |done| then done[..k] else done;
    }
  }
}
