/** What the deterministic sort means for the actions themselves. */
module SortLaws {
  import opened Text
  import opened Schema
  import opened RecipeGraph
  import opened ActionGraph
  import opened Kahn

  predicate DistinctIds(actions: seq<Action>) {
    forall i, j :: 0 <= i < j < |actions| ==> actions[i].id != actions[j].id
  }

  /** A recipe the model classes accept, no two of whose actions share an id. */
  ghost predicate ValidRecipe(actions: seq<Action>) {
    && ValidGraph(actions) && DistinctIds(actions)
    && forall k :: 0 <= k < |actions| ==> ValidAction(actions[k])
  }

  /** The sort key (order, id) of `a` precedes that of `b`. */
  predicate Before(a: Action, b: Action) {
    a.order < b.order || (a.order == b.order && LexLess(a.id, b.id))
  }

  /** Every state an action uses is produced by an earlier action of the list. */
  ghost predicate ProducersFirst(s: seq<Action>) {
    forall i, u :: 0 <= i < |s| && u in s[i].uses ==> exists j :: 0 <= j < i && s[j].produces.id == u
  }

  ghost function Ids(s: seq<Action>): (ids: seq<string>)
    ensures |ids| == |s|
  {
    seq(|s|, k requires 0 <= k < |s| => s[k].id)
  }

  lemma {:induction false} ByIdDistinct(actions: seq<Action>)
    requires DistinctIds(actions)
    ensures forall a :: a in actions ==> a.id in ById(actions) && ById(actions)[a.id] == a
  {
    if actions != [] {
      var init, last := actions[..|actions| - 1], actions[|actions| - 1];
      ByIdDistinct(init);
      forall a | a in actions ensures a.id in ById(actions) && ById(actions)[a.id] == a {
        var i :| 0 <= i < |actions| && actions[i] == a;
        assert a != last ==> init[i] == a;
      }
    }
  }

  lemma {:induction false} MultisetOfDistinct<T>(s: seq<T>, t: seq<T>)
    requires NoRepeats(s) && NoRepeats(t) && Elements(s) == Elements(t)
    ensures multiset(s) == multiset(t)
  {
    forall x ensures multiset(s)[x] == multiset(t)[x] {
      CountDistinct(s, x);
      CountDistinct(t, x);
    }
  }

  lemma {:induction false} CountDistinct<T>(s: seq<T>, x: T)
    requires NoRepeats(s)
    ensures multiset(s)[x] == if x in Elements(s) then 1 else 0
  {
    if s != [] {
      var init := s[..|s| - 1];
      CountDistinct(init, x);
      ElementsTake(s, |s| - 1);
      NotBefore(s, |s| - 1);
      assert s == init + [s[|s| - 1]] && s[..|s|] == s;
    }
  }

  lemma IdsElements(s: seq<Action>, actions: seq<Action>)
    requires DistinctIds(actions)
    requires forall k :: 0 <= k < |s| ==> s[k] in actions
    ensures Elements(Ids(s)) == Elements(Ids(actions)) <==> Elements(s) == Elements(actions)
    ensures NoRepeats(Ids(s)) <==> NoRepeats(s)
  {
    ByIdDistinct(actions);
    assert forall i, j :: 0 <= i < |s| && 0 <= j < |s| && s[i].id == s[j].id ==> s[i] == s[j];
    IdsMembers(s);
    IdsMembers(actions);
    if Elements(Ids(s)) == Elements(Ids(actions)) {
      forall a | a in Elements(actions) ensures a in Elements(s) {
        assert a.id in Elements(Ids(actions));
      }
    }
  }

  lemma IdsMembers(s: seq<Action>)
    ensures forall id :: id in Elements(Ids(s)) <==> exists a :: a in Elements(s) && a.id == id
    ensures forall i, j :: 0 <= i < |s| && 0 <= j < |s| ==> (Ids(s)[i] == Ids(s)[j] <==> s[i].id == s[j].id)
  {
    forall id | id in Elements(Ids(s)) ensures exists a :: a in Elements(s) && a.id == id {
      var k :| 0 <= k < |s| && Ids(s)[k] == id;
      assert s[k] in Elements(s);
    }
    forall id | exists a :: a in Elements(s) && a.id == id ensures id in Elements(Ids(s)) {
      var a :| a in Elements(s) && a.id == id;
      var k :| 0 <= k < |s| && s[k] == a;
      assert Ids(s)[k] == id;
    }
  }

  /** The ids of the sorted actions are the greedy order of the graph, and a topological order of it. */
  lemma SortedIds(actions: seq<Action>)
    requires NoDangling(actions, ProducedStates(actions)) && !HasCycle(GraphOf(actions))
    ensures var s := SortedActions(actions);
            && WellFormed(GraphOf(actions)) && Ids(s) == GreedyOrder(GraphOf(actions))
            && IsTopological(GraphOf(actions), Ids(s)) && Elements(Ids(s)) == ById(actions).Keys
  {
    GraphWellFormed(actions);
    var g := GraphOf(actions);
    var order := GreedyOrder(g);
    GreedyNoRepeats(g, order);
    forall k | 0 <= k < |order| ensures Released(g, Elements(order[..k]), order[k]) {
      assert IsLeast(g, Ready(g, Elements(order[..k])), order[k]);
    }
    KahnExact(g, order);
    GreedyTopological(g, order);
    assert Ids(SortedActions(actions)) == order;
  }

  lemma {:induction false} ByIdIds(actions: seq<Action>)
    ensures ById(actions).Keys == Elements(Ids(actions))
  {
    if actions != [] {
      var init, last := actions[..|actions| - 1], actions[|actions| - 1];
      ByIdIds(init);
      assert Ids(actions) == Ids(init) + [last.id];
      ElementsSnoc(Ids(init), last.id);
    }
  }

  lemma {:induction false} DistinctSize<T>(s: seq<T>)
    ensures |Elements(s)| <= |s|
    ensures |Elements(s)| == |s| <==> NoRepeats(s)
  {
    if s != [] {
      var init, x := s[..|s| - 1], s[|s| - 1];
      DistinctSize(init);
      ElementsTake(s, |s| - 1);
      assert s[..|s|] == s;
      RepeatsLast(s);
      hide NoRepeats, Elements;
      if x in Elements(init) {
        assert Elements(init) + {x} == Elements(init);
      }
    }
  }

  /** A list repeats nothing exactly if its beginning does not and its last element is new. */
  lemma RepeatsLast<T>(s: seq<T>)
    requires s != []
    ensures NoRepeats(s) <==> NoRepeats(s[..|s| - 1]) && s[|s| - 1] !in Elements(s[..|s| - 1])
  {
    var init := s[..|s| - 1];
    if NoRepeats(s) {
      NotBefore(s, |s| - 1);
    } else if NoRepeats(init) {
      var i, j :| 0 <= i < j < |s| && s[i] == s[j];
      assert init[i] == s[|s| - 1];
    }
  }

  lemma ByIdSize(actions: seq<Action>)
    ensures ById(actions).Keys == Elements(Ids(actions))
    ensures |ById(actions)| == |actions| <==> DistinctIds(actions)
  {
    ByIdIds(actions);
    DistinctSize(Ids(actions));
    IdsDistinct(actions);
  }

  lemma IdsDistinct(actions: seq<Action>)
    ensures NoRepeats(Ids(actions)) <==> DistinctIds(actions)
  {
    var ids := Ids(actions);
    assert forall k :: 0 <= k < |actions| ==> ids[k] == actions[k].id;
  }

  /** The sort keeps every action exactly when no two share an id. */
  lemma {:induction false} SortKeepsAllIff(actions: seq<Action>)
    requires NoDangling(actions, ProducedStates(actions)) && !HasCycle(GraphOf(actions))
    ensures multiset(SortedActions(actions)) == multiset(actions) <==> DistinctIds(actions)
  {
    var s := SortedActions(actions);
    SortedIds(actions);
    ByIdSize(actions);
    NoRepeatsSize(Ids(s));
    assert |s| == |ById(actions)|;
    if DistinctIds(actions) {
      IdsElements(s, actions);
      IdsElements(actions, actions);
      MultisetOfDistinct(s, actions);
    } else {
      assert |multiset(s)| == |s| && |multiset(actions)| == |actions|;
    }
  }

  /** Producers come before consumers. */
  lemma {:induction false} SortedProducersFirst(actions: seq<Action>)
    requires NoDangling(actions, ProducedStates(actions)) && !HasCycle(GraphOf(actions))
    requires SingleWriter(actions) && DistinctIds(actions)
    ensures ProducersFirst(SortedActions(actions))
  {
    var s := SortedActions(actions);
    SortedIds(actions);
    forall i, u | 0 <= i < |s| && u in s[i].uses ensures exists j :: 0 <= j < i && s[j].produces.id == u {
      SortedProducerIndex(actions, i, u);
    }
  }

  lemma SortedDistinct(actions: seq<Action>)
    requires ValidRecipe(actions)
    ensures var s := SortedActions(actions); s != [] && ProducersFirst(s) && SingleWriter(s) && DistinctIds(s)
  {
    var s := SortedActions(actions);
    SortedProducersFirst(actions);
    SortedIds(actions);
    GreedyNoRepeats(GraphOf(actions), Ids(s));
    IdsDistinct(s);
    SortKeepsAllIff(actions);
    assert actions[0] in multiset(actions);
    assert actions[0] in multiset(s);
    forall i, j | 0 <= i < j < |s| ensures s[i].produces.id != s[j].produces.id {
      var x :| 0 <= x < |actions| && actions[x] == s[i];
      var y :| 0 <= y < |actions| && actions[y] == s[j];
      assert s[i].id != s[j].id;
    }
  }

  lemma SortedProducerIndex(actions: seq<Action>, i: nat, u: string)
    requires NoDangling(actions, ProducedStates(actions)) && !HasCycle(GraphOf(actions))
    requires SingleWriter(actions) && DistinctIds(actions)
    requires i < |SortedActions(actions)| && u in SortedActions(actions)[i].uses
    ensures exists j :: 0 <= j < i && SortedActions(actions)[j].produces.id == u
  {
    var s, producer := SortedActions(actions), ProducedStates(actions);
    SortedIds(actions);
    UsedStateHasEdge(actions, s[i], u);
    var e := (producer[u], s[i].id);
    assert Released(GraphOf(actions), Elements(Ids(s)[..i]), Ids(s)[i]);
    var j :| 0 <= j < i && Ids(s)[..i][j] == e.0;
    ProducerOf(actions, u, s[j]);
  }

  lemma UsedStateHasEdge(actions: seq<Action>, a: Action, u: string)
    requires NoDangling(actions, ProducedStates(actions)) && a in actions && u in a.uses
    ensures u in ProducedStates(actions)
    ensures (ProducedStates(actions)[u], a.id) in GraphOf(actions).edges
  {
    var k :| 0 <= k < |a.uses| && a.uses[k] == u;
    assert Resolves(a, |a.uses|, ProducedStates(actions));
    assert UsesFrom(a, ProducedStates(actions), ProducedStates(actions)[u]);
    EdgeListMembers(actions, ProducedStates(actions), (ProducedStates(actions)[u], a.id));
  }

  /** The action whose id the producer table gives for a state is the one that produces it. */
  lemma ProducerOf(actions: seq<Action>, u: string, a: Action)
    requires DistinctIds(actions) && SingleWriter(actions)
    requires u in ProducedStates(actions) && a in actions && a.id == ProducedStates(actions)[u]
    ensures a.produces.id == u
  {
    var b := ProducerExists(actions, u);
    ProducerUnique(actions, b);
    ByIdDistinct(actions);
  }

  // ----- least among all admissible orders -------------------------------------------------

  lemma ProducersFirstTopological(actions: seq<Action>, t: seq<Action>)
    requires NoDangling(actions, ProducedStates(actions)) && SingleWriter(actions) && DistinctIds(actions)
    requires NoRepeats(t) && Elements(t) == Elements(actions) && ProducersFirst(t)
    ensures IsTopological(GraphOf(actions), Ids(t))
  {
    var g, producer := GraphOf(actions), ProducedStates(actions);
    assert forall k :: 0 <= k < |t| ==> t[k] in Elements(t);
    assert forall k :: 0 <= k < |t| ==> t[k] in actions;
    IdsElements(t, actions);
    ByIdSize(actions);
    forall k | 0 <= k < |t| ensures Released(g, Elements(Ids(t)[..k]), Ids(t)[k]) {
      forall e | e in g.edges && e.1 == Ids(t)[k] ensures e.0 in Elements(Ids(t)[..k]) {
        ProducerPrecedes(actions, t, k, e);
      }
    }
  }

  lemma ProducerPrecedes(actions: seq<Action>, t: seq<Action>, k: nat, e: (string, string))
    requires NoDangling(actions, ProducedStates(actions)) && SingleWriter(actions) && DistinctIds(actions)
    requires forall i :: 0 <= i < |t| ==> t[i] in actions
    requires ProducersFirst(t) && k < |t| && e in GraphOf(actions).edges && e.1 == t[k].id
    ensures e.0 in Elements(Ids(t)[..k])
  {
    var producer := ProducedStates(actions);
    EdgeListMembers(actions, producer, e);
    var a :| a in actions && UsesFrom(a, producer, e.0) && a.id == e.1;
    var x :| 0 <= x < |a.uses| && a.uses[x] in producer && producer[a.uses[x]] == e.0;
    ByIdDistinct(actions);
    assert a.uses[x] in t[k].uses;
    var j :| 0 <= j < k && t[j].produces.id == a.uses[x];
    ProducerUnique(actions, t[j]);
    assert Ids(t)[..k][j] == e.0;
  }

  /** Of all ways to list the actions with producers first, the sort returns the least by (order, id). */
  lemma {:induction false} SortedLeast(actions: seq<Action>, t: seq<Action>)
    requires NoDangling(actions, ProducedStates(actions)) && SingleWriter(actions) && DistinctIds(actions)
    requires multiset(t) == multiset(actions) && ProducersFirst(t)
    ensures var s := SortedActions(actions);
            s == t || exists k :: 0 <= k < |s| && k < |t| && s[..k] == t[..k] && Before(s[k], t[k])
  {
    var g, s := GraphOf(actions), SortedActions(actions);
    SamePermutation(actions, t);
    GraphWellFormed(actions);
    ProducersFirstTopological(actions, t);
    TopologicalAcyclic(g, Ids(t));
    SortedIds(actions);
    GreedyLeast(g, Ids(s), Ids(t));
    LeastByKey(actions, s, t);
  }

  /** From ids back to actions: the first difference of the ids is the first difference of the lists. */
  lemma LeastByKey(actions: seq<Action>, s: seq<Action>, t: seq<Action>)
    requires NoDangling(actions, ProducedStates(actions)) && DistinctIds(actions)
    requires forall i :: 0 <= i < |s| ==> s[i] in actions
    requires Elements(t) == Elements(actions)
    requires Elements(Ids(s)) <= GraphOf(actions).rank.Keys && Elements(Ids(t)) <= GraphOf(actions).rank.Keys
    requires Ids(s) == Ids(t) || SeqLess(GraphOf(actions), Ids(s), Ids(t))
    ensures s == t || exists k :: 0 <= k < |s| && k < |t| && s[..k] == t[..k] && Before(s[k], t[k])
  {
    ByIdDistinct(actions);
    if Ids(s) == Ids(t) {
      SameIdsSameActions(actions, s, t, |s|);
    } else {
      var k: nat :| DiffersAt(GraphOf(actions), Ids(s), Ids(t), k);
      SameIdsSameActions(actions, s, t, k);
      KeyOfAction(actions, s[k]);
      assert t[k] in Elements(t);
      KeyOfAction(actions, t[k]);
    }
  }

  lemma KeyOfAction(actions: seq<Action>, a: Action)
    requires NoDangling(actions, ProducedStates(actions)) && DistinctIds(actions) && a in actions
    ensures a.id in GraphOf(actions).rank && GraphOf(actions).rank[a.id] == a.order
  {
    ByIdDistinct(actions);
  }

  lemma SamePermutation(actions: seq<Action>, t: seq<Action>)
    requires DistinctIds(actions) && multiset(t) == multiset(actions)
    ensures NoRepeats(t) && Elements(t) == Elements(actions)
  {
    forall a ensures a in Elements(t) <==> a in Elements(actions) {
      assert a in t <==> a in multiset(t);
      assert a in actions <==> a in multiset(actions);
    }
    forall i, j | 0 <= i < j < |t| ensures t[i] != t[j] {
      assert NoRepeats(actions);
      CountDistinct(actions, t[i]);
      TwiceCounted(t, i, j);
    }
  }

  lemma TwiceCounted(t: seq<Action>, i: nat, j: nat)
    requires i < j < |t|
    ensures t[i] == t[j] ==> multiset(t)[t[i]] >= 2
  {
    assert t == t[..i] + [t[i]] + t[i + 1..j] + [t[j]] + t[j + 1..];
  }

  lemma SameIdsSameActions(actions: seq<Action>, s: seq<Action>, t: seq<Action>, k: nat)
    requires forall a :: a in actions ==> a.id in ById(actions) && ById(actions)[a.id] == a
    requires forall i :: 0 <= i < |s| ==> s[i] in actions
    requires Elements(t) == Elements(actions)
    ensures k <= |s| && k <= |t| && Ids(s)[..k] == Ids(t)[..k] ==> s[..k] == t[..k]
    ensures Ids(s) == Ids(t) ==> s == t
  {
    forall i | 0 <= i < |t| ensures t[i] in actions {
      assert t[i] in Elements(t);
      assert t[i] in Elements(actions);
    }
    hide Elements;
    if k <= |s| && k <= |t| && Ids(s)[..k] == Ids(t)[..k] {
      forall i | 0 <= i < k ensures s[i] == t[i] {
        assert Ids(s)[..k][i] == s[i].id && Ids(t)[..k][i] == t[i].id;
        assert ById(actions)[s[i].id] == s[i] && ById(actions)[t[i].id] == t[i];
      }
    }
    if Ids(s) == Ids(t) {
      forall i | 0 <= i < |s| ensures s[i] == t[i] {
        assert Ids(s)[i] == s[i].id && Ids(t)[i] == t[i].id;
        assert ById(actions)[s[i].id] == s[i] && ById(actions)[t[i].id] == t[i];
      }
    }
  }

  // ----- independence of presentation ------------------------------------------------------

  /** Same node, same key, same output, same set of used states. */
  ghost predicate SameNode(a: Action, b: Action) {
    && a.id == b.id && a.order == b.order && a.produces.id == b.produces.id
    && (forall u :: u in a.uses <==> u in b.uses)
  }

  ghost predicate Presents(s: seq<Action>, t: seq<Action>) {
    forall a :: a in s ==> exists b :: b in t && SameNode(a, b)
  }

  lemma ProducedAgree(s: seq<Action>, t: seq<Action>, u: string)
    requires SingleWriter(s) && SingleWriter(t) && Presents(s, t)
    requires u in ProducedStates(s)
    ensures u in ProducedStates(t) && ProducedStates(t)[u] == ProducedStates(s)[u]
  {
    var a := ProducerExists(s, u);
    var b :| b in t && SameNode(a, b);
    ProducerUnique(s, a);
    ProducerUnique(t, b);
  }

  lemma {:induction false} ProducerExists(s: seq<Action>, u: string) returns (a: Action)
    requires u in ProducedStates(s)
    ensures a in s && a.produces.id == u
  {
    a := s[|s| - 1];
    if a.produces.id != u {
      a := ProducerExists(s[..|s| - 1], u);
    }
  }

  lemma EdgesAgree(s: seq<Action>, t: seq<Action>)
    requires SingleWriter(s) && SingleWriter(t) && Presents(s, t)
    requires NoDangling(s, ProducedStates(s)) && NoDangling(t, ProducedStates(t))
    ensures GraphOf(s).edges <= GraphOf(t).edges
  {
    forall e | e in GraphOf(s).edges ensures e in GraphOf(t).edges {
      EdgeListMembers(s, ProducedStates(s), e);
      var a :| a in s && UsesFrom(a, ProducedStates(s), e.0) && a.id == e.1;
      var k :| 0 <= k < |a.uses| && a.uses[k] in ProducedStates(s) && ProducedStates(s)[a.uses[k]] == e.0;
      var b :| b in t && SameNode(a, b);
      ProducedAgree(s, t, a.uses[k]);
      assert a.uses[k] in b.uses;
      UsedStateHasEdge(t, b, a.uses[k]);
    }
  }

  lemma NodesAgree(s: seq<Action>, t: seq<Action>)
    requires DistinctIds(s) && DistinctIds(t) && Presents(s, t)
    ensures forall id :: id in ById(s) ==> id in ById(t) && ById(s)[id].order == ById(t)[id].order
  {
    ByIdDistinct(s);
    ByIdDistinct(t);
    forall id | id in ById(s) ensures id in ById(t) && ById(s)[id].order == ById(t)[id].order {
      var b :| b in t && SameNode(ById(s)[id], b);
    }
  }

  lemma NoDanglingAgree(s: seq<Action>, t: seq<Action>)
    requires SingleWriter(s) && SingleWriter(t) && Presents(s, t) && Presents(t, s)
    requires NoDangling(s, ProducedStates(s))
    ensures NoDangling(t, ProducedStates(t))
  {
    hide SingleWriter, Presents, ProducedStates, SameNode;
    forall b | b in t ensures Resolves(b, |b.uses|, ProducedStates(t)) {
      forall k | 0 <= k < |b.uses| ensures b.uses[k] in ProducedStates(t) {
        UseAgrees(s, t, b, b.uses[k]);
      }
    }
  }

  lemma UseAgrees(s: seq<Action>, t: seq<Action>, b: Action, u: string)
    requires SingleWriter(s) && SingleWriter(t) && Presents(s, t) && Presents(t, s)
    requires NoDangling(s, ProducedStates(s)) && b in t && u in b.uses
    ensures u in ProducedStates(t)
  {
    var a :| a in s && SameNode(b, a);
    assert u in a.uses;
    UsedStateHasEdge(s, a, u);
    hide SingleWriter, NoDangling, GraphOf, ProducedStates;
    ProducedAgree(s, t, u);
  }

  /**
   Reordering the action list, reordering a `uses` list, or repeating a use changes neither the verdict on
   cycles nor the order of the steps.
   */
  lemma {:induction false} SortIgnoresPresentation(s: seq<Action>, t: seq<Action>)
    requires DistinctIds(s) && DistinctIds(t) && SingleWriter(s) && SingleWriter(t)
    requires Presents(s, t) && Presents(t, s)
    requires NoDangling(s, ProducedStates(s)) && !HasCycle(GraphOf(s))
    ensures NoDangling(t, ProducedStates(t)) && !HasCycle(GraphOf(t))
    ensures Ids(SortedActions(t)) == Ids(SortedActions(s))
  {
    NoDanglingAgree(s, t);
    EdgesAgree(s, t);
    EdgesAgree(t, s);
    NodesAgree(s, t);
    NodesAgree(t, s);
    GraphsEqual(s, t);
    SortedIds(s);
    SortedIds(t);
  }

  lemma GraphsEqual(s: seq<Action>, t: seq<Action>)
    requires NoDangling(s, ProducedStates(s)) && NoDangling(t, ProducedStates(t))
    requires GraphOf(s).edges <= GraphOf(t).edges && GraphOf(t).edges <= GraphOf(s).edges
    requires forall id :: id in ById(s) ==> id in ById(t) && ById(s)[id].order == ById(t)[id].order
    requires forall id :: id in ById(t) ==> id in ById(s)
    ensures GraphOf(s) == GraphOf(t)
  {
    assert ById(s).Keys == ById(t).Keys;
    assert GraphOf(s).rank == GraphOf(t).rank;
  }
}
