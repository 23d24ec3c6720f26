/** The flowchart keeps the recipe's meaning: its paths between states are the recipe's dependencies. */
module FlowchartLaws {
  import opened Schema
  import opened RecipeGraph
  import opened ActionGraph
  import opened Kahn
  import opened SortLaws
  import opened Flowchart

  // ----- every endpoint is a node, listed once --------------------------------------------------

  lemma AddNodeMembers(nodes: seq<Node>, n: Node)
    requires NoRepeats(nodes)
    ensures NoRepeats(AddNode(nodes, n)) && forall m :: m in AddNode(nodes, n) <==> m in nodes || m == n
  {
  }

  lemma {:induction false} AddNodesMembers(nodes: seq<Node>, more: seq<Node>)
    requires NoRepeats(nodes)
    ensures NoRepeats(AddNodes(nodes, more)) && forall m :: m in AddNodes(nodes, more) <==> m in nodes || m in more
  {
    if more != [] {
      var init, last := more[..|more| - 1], more[|more| - 1];
      AddNodesMembers(nodes, init);
      AddNodeMembers(AddNodes(nodes, init), last);
      assert forall m :: m in more <==> m in init || m == last;
    }
  }

  /** The states, and the ingredients, starts and joins of the first k steps. */
  predicate NodeOf(ordered: seq<Action>, k: nat, n: Node)
    requires k <= |ordered|
  {
    match n
    case StateNode(id) => exists i :: 0 <= i < |ordered| && ordered[i].produces.id == id
    case IngredientNode(_) => exists i :: 0 <= i < k && TakesIn(ordered[i], n)
    case StartNode(id) => exists i :: 0 <= i < k && ordered[i].id == id && Inputs(ordered[i]) == []
    case JoinNode(id) => exists i :: 0 <= i < k && ordered[i].id == id && |Inputs(ordered[i])| > 1
  }

  lemma ProducedAre(ordered: seq<Action>, n: Node)
    ensures n in ProducedNodes(ordered) <==> NodeOf(ordered, 0, n)
  {
    if n.StateNode? && NodeOf(ordered, 0, n) {
      var i :| 0 <= i < |ordered| && ordered[i].produces.id == n.id;
      assert ProducedNodes(ordered)[i] == n;
    }
  }

  lemma StepNodesAre(a: Action, n: Node)
    ensures n in IngredientNodes(a.ingredients) <==> n.IngredientNode? && TakesIn(a, n)
    ensures n in OwnNode(a) <==>
              (n == StartNode(a.id) && Inputs(a) == []) || (n == JoinNode(a.id) && |Inputs(a)| > 1)
  {
    if n.IngredientNode? && TakesIn(a, n) {
      var k :| 0 <= k < |a.ingredients| && a.ingredients[k].id == n.id;
      assert IngredientNodes(a.ingredients)[k] == n;
    }
  }

  lemma NodeOfStep(ordered: seq<Action>, k: nat, n: Node)
    requires k < |ordered|
    ensures NodeOf(ordered, k + 1, n) <==>
              || NodeOf(ordered, k, n) || n in IngredientNodes(ordered[k].ingredients) || n in OwnNode(ordered[k])
  {
    StepNodesAre(ordered[k], n);
    hide TakesIn, Inputs, IngredientNodes, OwnNode;
  }

  /** The chart's nodes are exactly these, each once. */
  lemma {:induction false} ChartNodesAre(ordered: seq<Action>, k: nat)
    requires k <= |ordered|
    ensures NoRepeats(ChartNodes(ordered, k)) && forall n :: n in ChartNodes(ordered, k) <==> NodeOf(ordered, k, n)
  {
    if k == 0 {
      AddNodesMembers([], ProducedNodes(ordered));
      forall n ensures n in ProducedNodes(ordered) <==> NodeOf(ordered, 0, n) {
        ProducedAre(ordered, n);
      }
    } else {
      var a := ordered[k - 1];
      ChartNodesAre(ordered, k - 1);
      AddNodesMembers(ChartNodes(ordered, k - 1), IngredientNodes(a.ingredients));
      AddNodesMembers(AddNodes(ChartNodes(ordered, k - 1), IngredientNodes(a.ingredients)), OwnNode(a));
      hide NodeOf, NoRepeats, AddNodes, IngredientNodes, OwnNode;
      forall n
        ensures NodeOf(ordered, k, n) <==>
                NodeOf(ordered, k - 1, n) || n in IngredientNodes(a.ingredients) || n in OwnNode(a) {
        NodeOfStep(ordered, k - 1, n);
      }
    }
  }

  lemma StepEndpoints(ordered: seq<Action>, i: nat, e: Edge)
    requires ProducersFirst(ordered) && i < |ordered| && StepEdge(ordered[i], e)
    ensures NodeOf(ordered, |ordered|, e.0) && NodeOf(ordered, |ordered|, e.1)
  {
    if e.0.StateNode? {
      var j :| 0 <= j < i && ordered[j].produces.id == e.0.id;
    }
    hide Inputs;
  }

  /** Every edge joins two nodes of the chart. */
  lemma EndpointsAreNodes(ordered: seq<Action>, e: Edge)
    requires ProducersFirst(ordered) && e in ChartEdges(ordered)
    ensures e.0 in ChartNodes(ordered, |ordered|) && e.1 in ChartNodes(ordered, |ordered|)
  {
    ChartEdgesAre(ordered, e);
    var i :| 0 <= i < |ordered| && StepEdge(ordered[i], e);
    StepEndpoints(ordered, i, e);
    ChartNodesAre(ordered, |ordered|);
    hide ChartNodes, NodeOf, NoRepeats, StepEdge;
  }

  // ----- no cycles ------------------------------------------------------------------------------------

  predicate IsChartPath(edges: seq<Edge>, p: seq<Node>) {
    |p| > 1 && forall i :: 0 <= i < |p| - 1 ==> (p[i], p[i + 1]) in edges
  }

  /** Where the node stands: step i's output at 2i + 2, its join at 2i + 1, ingredients and starts at 0. */
  ghost predicate StandsAt(ordered: seq<Action>, n: Node, rank: nat) {
    match n
    case StateNode(id) => exists i :: 0 <= i < |ordered| && ordered[i].produces.id == id && rank == 2 * i + 2
    case JoinNode(id) => exists i :: 0 <= i < |ordered| && ordered[i].id == id && rank == 2 * i + 1
    case _ => rank == 0
  }

  lemma RankUnique(ordered: seq<Action>, n: Node, r: nat, t: nat)
    requires SingleWriter(ordered) && DistinctIds(ordered) && StandsAt(ordered, n, r) && StandsAt(ordered, n, t)
    ensures r == t
  {
  }

  /** An edge leads from a lower to a higher standing. */
  lemma EdgeRises(ordered: seq<Action>, e: Edge) returns (r: nat, t: nat)
    requires ProducersFirst(ordered) && e in ChartEdges(ordered)
    ensures StandsAt(ordered, e.0, r) && StandsAt(ordered, e.1, t) && r < t
  {
    ChartEdgesAre(ordered, e);
    var i :| 0 <= i < |ordered| && StepEdge(ordered[i], e);
    hide Inputs, ChartEdges;
    t := if e.1.JoinNode? then 2 * i + 1 else 2 * i + 2;
    if e.0.StateNode? {
      assert e.0.id in ordered[i].uses;
      var j :| 0 <= j < i && ordered[j].produces.id == e.0.id;
      r := 2 * j + 2;
    } else {
      r := if e.0.JoinNode? then 2 * i + 1 else 0;
    }
  }

  lemma {:induction false} PathRises(ordered: seq<Action>, p: seq<Node>) returns (r: nat, t: nat)
    requires ProducersFirst(ordered) && SingleWriter(ordered) && DistinctIds(ordered)
             && IsChartPath(ChartEdges(ordered), p)
    ensures StandsAt(ordered, p[0], r) && StandsAt(ordered, p[|p| - 1], t) && r < t
  {
    var first, second := EdgeRises(ordered, (p[0], p[1]));
    if |p| == 2 {
      r, t := first, second;
    } else {
      assert IsChartPath(ChartEdges(ordered), p[1..]);
      var next, last := PathRises(ordered, p[1..]);
      RankUnique(ordered, p[1], second, next);
      r, t := first, last;
    }
  }

  /** No path of the chart returns to its start. */
  lemma ChartAcyclic(ordered: seq<Action>, p: seq<Node>)
    requires ProducersFirst(ordered) && SingleWriter(ordered) && DistinctIds(ordered)
             && IsChartPath(ChartEdges(ordered), p)
    ensures p[0] != p[|p| - 1]
  {
    var r, t := PathRises(ordered, p);
    if p[0] == p[|p| - 1] {
      RankUnique(ordered, p[0], r, t);
    }
  }

  // ----- paths are dependencies ---------------------------------------------------------------------------

  /** Some action makes t from s. */
  predicate MakesFrom(ordered: seq<Action>, s: string, t: string) {
    exists i :: 0 <= i < |ordered| && s in ordered[i].uses && ordered[i].produces.id == t
  }

  /** The states lead from one to the next through actions. */
  predicate IsDependency(ordered: seq<Action>, chain: seq<string>) {
    |chain| > 1 && forall i :: 0 <= i < |chain| - 1 ==> MakesFrom(ordered, chain[i], chain[i + 1])
  }

  ghost predicate DependsOn(ordered: seq<Action>, s: string, t: string) {
    exists chain :: IsDependency(ordered, chain) && chain[0] == s && chain[|chain| - 1] == t
  }

  ghost predicate Connected(ordered: seq<Action>, m: Node, n: Node) {
    exists p :: IsChartPath(ChartEdges(ordered), p) && p[0] == m && p[|p| - 1] == n
  }

  lemma PathJoin(ordered: seq<Action>, l: Node, m: Node, n: Node)
    requires Connected(ordered, l, m) && Connected(ordered, m, n)
    ensures Connected(ordered, l, n)
  {
    var edges := ChartEdges(ordered);
    var p :| IsChartPath(edges, p) && p[0] == l && p[|p| - 1] == m;
    var q :| IsChartPath(edges, q) && q[0] == m && q[|q| - 1] == n;
    var r := p + q[1..];
    forall i | 0 <= i < |r| - 1 ensures (r[i], r[i + 1]) in edges {
      if i < |p| - 1 {
        assert r[i] == p[i] && r[i + 1] == p[i + 1];
      } else {
        assert r[i] == q[i - |p| + 1] && r[i + 1] == q[i - |p| + 2];
      }
    }
    assert IsChartPath(edges, r) && r[|r| - 1] == n;
  }

  lemma EdgeConnects(ordered: seq<Action>, i: nat, e: Edge)
    requires i < |ordered| && StepEdge(ordered[i], e)
    ensures Connected(ordered, e.0, e.1)
  {
    ChartEdgesAre(ordered, e);
    assert IsChartPath(ChartEdges(ordered), [e.0, e.1]);
  }

  /** Whatever a step takes in is connected to what it produces. */
  lemma InputConnects(ordered: seq<Action>, i: nat, n: Node)
    requires i < |ordered| && TakesIn(ordered[i], n)
    ensures Connected(ordered, n, StateNode(ordered[i].produces.id))
  {
    var a := ordered[i];
    InputsAre(a, n);
    if |Inputs(a)| == 1 {
      EdgeConnects(ordered, i, (n, StateNode(a.produces.id)));
    } else {
      EdgeConnects(ordered, i, (n, JoinNode(a.id)));
      EdgeConnects(ordered, i, (JoinNode(a.id), StateNode(a.produces.id)));
      PathJoin(ordered, n, JoinNode(a.id), StateNode(a.produces.id));
    }
    hide Connected;
  }

  lemma DependencyTail(ordered: seq<Action>, chain: seq<string>)
    requires IsDependency(ordered, chain) && |chain| > 2
    ensures IsDependency(ordered, chain[1..])
  {
    var rest := chain[1..];
    forall i | 0 <= i < |rest| - 1 ensures MakesFrom(ordered, rest[i], rest[i + 1]) {
      assert MakesFrom(ordered, chain[i + 1], chain[i + 1 + 1]);
    }
  }

  lemma {:induction false} DependencyConnects(ordered: seq<Action>, chain: seq<string>)
    requires IsDependency(ordered, chain)
    ensures Connected(ordered, StateNode(chain[0]), StateNode(chain[|chain| - 1]))
    decreases |chain|
  {
    hide Connected;
    assert MakesFrom(ordered, chain[0], chain[1]);
    var i :| 0 <= i < |ordered| && chain[0] in ordered[i].uses && ordered[i].produces.id == chain[1];
    InputConnects(ordered, i, StateNode(chain[0]));
    if |chain| > 2 {
      DependencyTail(ordered, chain);
      DependencyConnects(ordered, chain[1..]);
      PathJoin(ordered, StateNode(chain[0]), StateNode(chain[1]), StateNode(chain[|chain| - 1]));
    }
  }

  /** The first state a path meets after its start, and the step whose output it is. */
  lemma NextState(ordered: seq<Action>, p: seq<Node>) returns (i: nat, k: nat)
    requires DistinctIds(ordered) && IsChartPath(ChartEdges(ordered), p) && !p[0].JoinNode? && !p[0].StartNode?
    requires p[|p| - 1].StateNode?
    ensures i < |ordered| && TakesIn(ordered[i], p[0]) && 1 <= k < |p| && p[k] == StateNode(ordered[i].produces.id)
  {
    hide Inputs, ChartEdges;
    i := EdgeStep(ordered, (p[0], p[1]));
    if p[1].StateNode? {
      k := 1;
    } else {
      k := 2;
      var j := EdgeStep(ordered, (p[1], p[2]));
      assert ordered[j].id == ordered[i].id;
    }
  }

  lemma EdgeStep(ordered: seq<Action>, e: Edge) returns (i: nat)
    requires e in ChartEdges(ordered)
    ensures i < |ordered| && StepEdge(ordered[i], e)
  {
    ChartEdgesAre(ordered, e);
    i :| 0 <= i < |ordered| && StepEdge(ordered[i], e);
  }

  lemma PathTail(edges: seq<Edge>, p: seq<Node>, k: nat)
    requires IsChartPath(edges, p) && k < |p| - 1
    ensures IsChartPath(edges, p[k..]) && p[k..][0] == p[k] && p[k..][|p| - k - 1] == p[|p| - 1]
  {
  }

  lemma DependsStep(ordered: seq<Action>, s: string, t: string, u: string)
    requires MakesFrom(ordered, s, t) && (t == u || DependsOn(ordered, t, u))
    ensures DependsOn(ordered, s, u)
  {
    if t == u {
      assert IsDependency(ordered, [s, t]);
    } else {
      var chain :| IsDependency(ordered, chain) && chain[0] == t && chain[|chain| - 1] == u;
      var longer := [s] + chain;
      forall i | 0 <= i < |longer| - 1 ensures MakesFrom(ordered, longer[i], longer[i + 1]) {
        if i > 0 {
          assert longer[i] == chain[i - 1] && longer[i + 1] == chain[i];
        }
      }
      assert IsDependency(ordered, longer) && longer[|longer| - 1] == u;
    }
  }

  /** A path to a state begins with a step that takes its start in and makes that state or one it depends on. */
  lemma {:induction false} PathDepends(ordered: seq<Action>, p: seq<Node>) returns (i: nat)
    requires DistinctIds(ordered) && IsChartPath(ChartEdges(ordered), p)
    requires !p[0].JoinNode? && !p[0].StartNode? && p[|p| - 1].StateNode?
    ensures i < |ordered| && TakesIn(ordered[i], p[0])
    ensures ordered[i].produces.id == p[|p| - 1].id || DependsOn(ordered, ordered[i].produces.id, p[|p| - 1].id)
    decreases |p|
  {
    hide DependsOn;
    var k;
    i, k := NextState(ordered, p);
    if k < |p| - 1 {
      PathTail(ChartEdges(ordered), p, k);
      var j := PathDepends(ordered, p[k..]);
      assert MakesFrom(ordered, ordered[i].produces.id, ordered[j].produces.id);
      DependsStep(ordered, ordered[i].produces.id, ordered[j].produces.id, p[|p| - 1].id);
    }
  }

  /** Two states are connected in the chart exactly if the recipe makes one, directly or not, from the other. */
  lemma {:induction false} ConnectedIffDepends(ordered: seq<Action>, s: string, t: string)
    requires DistinctIds(ordered)
    ensures Connected(ordered, StateNode(s), StateNode(t)) <==> DependsOn(ordered, s, t)
  {
    if Connected(ordered, StateNode(s), StateNode(t)) {
      var p :| IsChartPath(ChartEdges(ordered), p) && p[0] == StateNode(s) && p[|p| - 1] == StateNode(t);
      var i := PathDepends(ordered, p);
      assert MakesFrom(ordered, s, ordered[i].produces.id);
      DependsStep(ordered, s, ordered[i].produces.id, t);
    }
    if DependsOn(ordered, s, t) {
      var chain :| IsDependency(ordered, chain) && chain[0] == s && chain[|chain| - 1] == t;
      DependencyConnects(ordered, chain);
    }
  }

  /** An ingredient is connected to a state exactly if some step takes it in for that state or for one it depends on. */
  lemma {:induction false} IngredientReachesIff(ordered: seq<Action>, u: string, t: string)
    requires DistinctIds(ordered)
    ensures Connected(ordered, IngredientNode(u), StateNode(t)) <==>
              exists i :: 0 <= i < |ordered| && TakesIn(ordered[i], IngredientNode(u))
                       && (ordered[i].produces.id == t || DependsOn(ordered, ordered[i].produces.id, t))
  {
    if Connected(ordered, IngredientNode(u), StateNode(t)) {
      var p :| IsChartPath(ChartEdges(ordered), p) && p[0] == IngredientNode(u) && p[|p| - 1] == StateNode(t);
      var i := PathDepends(ordered, p);
    }
    hide Connected;
    forall i | 0 <= i < |ordered| && TakesIn(ordered[i], IngredientNode(u))
                 && (ordered[i].produces.id == t || DependsOn(ordered, ordered[i].produces.id, t))
      ensures Connected(ordered, IngredientNode(u), StateNode(t)) {
      InputConnects(ordered, i, IngredientNode(u));
      if ordered[i].produces.id != t {
        ConnectedIffDepends(ordered, ordered[i].produces.id, t);
        PathJoin(ordered, IngredientNode(u), StateNode(ordered[i].produces.id), StateNode(t));
      }
    }
  }

  /** The chart of a valid recipe, lowered in its sorted order: unique nodes, edges between them, no cycle. */
  lemma {:induction false} ChartOfRecipe(actions: seq<Action>)
    requires ValidRecipe(actions)
    ensures var s := SortedActions(actions);
            && NoRepeats(ChartNodes(s, |s|))
            && (forall e :: e in ChartEdges(s) ==> e.0 in ChartNodes(s, |s|) && e.1 in ChartNodes(s, |s|))
            && (forall p :: IsChartPath(ChartEdges(s), p) ==> p[0] != p[|p| - 1])
  {
    var s := SortedActions(actions);
    SortedDistinct(actions);
    ChartNodesAre(s, |s|);
    hide ChartNodes, ChartEdges, NoRepeats, SortedActions, ValidRecipe, IsChartPath, NodeOf;
    forall e | e in ChartEdges(s) ensures e.0 in ChartNodes(s, |s|) && e.1 in ChartNodes(s, |s|) {
      EndpointsAreNodes(s, e);
    }
    forall p | IsChartPath(ChartEdges(s), p) ensures |p| > 0 && p[0] != p[|p| - 1] {
      ChartAcyclic(s, p);
    }
  }
}
