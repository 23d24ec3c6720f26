/** The flowchart of a recipe: states, ingredients, joins and starts, and the edges between them. */
module Flowchart {
  import opened Schema

  /** A node id by the kind of name it is made from; the four kinds never collide. */
  datatype Node =
    | StateNode(id: string)
    | IngredientNode(id: string)
    | StartNode(action: string)
    | JoinNode(action: string)

  type Edge = (Node, Node)

  datatype Chart = Chart(nodes: seq<Node>, edges: seq<Edge>)

  // ----- what the chart of a list of actions is ---------------------------------------------

  function UseNodes(uses: seq<string>): (r: seq<Node>)
    ensures |r| == |uses|
  {
    seq(|uses|, k requires 0 <= k < |uses| => StateNode(uses[k]))
  }

  function IngredientNodes(uses: seq<IngredientUse>): (r: seq<Node>)
    ensures |r| == |uses|
  {
    seq(|uses|, k requires 0 <= k < |uses| => IngredientNode(uses[k].id))
  }

  /** What the step takes in: the states it uses, then its ingredients. */
  function Inputs(a: Action): seq<Node> {
    UseNodes(a.uses) + IngredientNodes(a.ingredients)
  }

  function EdgesInto(inputs: seq<Node>, target: Node): (r: seq<Edge>)
    ensures |r| == |inputs|
  {
    seq(|inputs|, k requires 0 <= k < |inputs| => (inputs[k], target))
  }

  /** One input leads to the output directly, several through a join, none from a start. */
  function StepEdges(a: Action): seq<Edge> {
    var inputs, target := Inputs(a), StateNode(a.produces.id);
    if inputs == [] then [(StartNode(a.id), target)]
    else if |inputs| == 1 then [(inputs[0], target)]
    else EdgesInto(inputs, JoinNode(a.id)) + [(JoinNode(a.id), target)]
  }

  function ChartEdges(ordered: seq<Action>): seq<Edge> {
    if ordered == [] then []
    else ChartEdges(ordered[..|ordered| - 1]) + StepEdges(ordered[|ordered| - 1])
  }

  /** `add_node`: a node is listed once. */
  function AddNode(nodes: seq<Node>, n: Node): seq<Node> {
    if n in nodes then nodes else nodes + [n]
  }

  function AddNodes(nodes: seq<Node>, more: seq<Node>): seq<Node> {
    if more == [] then nodes else AddNode(AddNodes(nodes, more[..|more| - 1]), more[|more| - 1])
  }

  function ProducedNodes(ordered: seq<Action>): (r: seq<Node>)
    ensures |r| == |ordered|
  {
    seq(|ordered|, k requires 0 <= k < |ordered| => StateNode(ordered[k].produces.id))
  }

  /** The start or join node of the step, if it has one. */
  function OwnNode(a: Action): seq<Node> {
    if Inputs(a) == [] then [StartNode(a.id)] else if |Inputs(a)| == 1 then [] else [JoinNode(a.id)]
  }

  function ChartNodes(ordered: seq<Action>, steps: nat): seq<Node>
    requires steps <= |ordered|
  {
    if steps == 0 then AddNodes([], ProducedNodes(ordered))
    else
      var a := ordered[steps - 1];
      AddNodes(AddNodes(ChartNodes(ordered, steps - 1), IngredientNodes(a.ingredients)), OwnNode(a))
  }

  // ----- the lowering ---------------------------------------------------------------------------

  lemma AddNodesSnoc(nodes: seq<Node>, more: seq<Node>, n: Node)
    ensures AddNodes(nodes, more + [n]) == AddNode(AddNodes(nodes, more), n)
  {
    assert (more + [n])[..|more|] == more;
  }

  /** The first loop: one node for each produced state. */
  method AddStates(ordered: seq<Action>) returns (nodes: seq<Node>)
    ensures nodes == ChartNodes(ordered, 0)
  {
    nodes := [];
    for k := 0 to |ordered|
      invariant nodes == AddNodes([], ProducedNodes(ordered)[..k])
    {
      assert ProducedNodes(ordered)[..k + 1] == ProducedNodes(ordered)[..k] + [StateNode(ordered[k].produces.id)];
      AddNodesSnoc([], ProducedNodes(ordered)[..k], StateNode(ordered[k].produces.id));
      nodes := AddNode(nodes, StateNode(ordered[k].produces.id));
    }
    assert ProducedNodes(ordered)[..|ordered|] == ProducedNodes(ordered);
  }

  /** The inner loop over the ingredients of a step. */
  method AddIngredients(nodes0: seq<Node>, a: Action) returns (nodes: seq<Node>, inputs: seq<Node>)
    ensures nodes == AddNodes(nodes0, IngredientNodes(a.ingredients)) && inputs == Inputs(a)
  {
    nodes, inputs := nodes0, UseNodes(a.uses);
    ghost var all := IngredientNodes(a.ingredients);
    for k := 0 to |a.ingredients|
      invariant nodes == AddNodes(nodes0, all[..k]) && inputs == UseNodes(a.uses) + all[..k]
    {
      var n := IngredientNode(a.ingredients[k].id);
      assert all[..k + 1] == all[..k] + [n];
      AddNodesSnoc(nodes0, all[..k], n);
      nodes := AddNode(nodes, n);
      inputs := inputs + [n];
    }
    assert all[..|all|] == all;
  }

  /** The body of the second loop: one step's nodes and edges. */
  method LowerStep(nodes0: seq<Node>, edges0: seq<Edge>, a: Action) returns (nodes: seq<Node>, edges: seq<Edge>)
    ensures nodes == AddNodes(AddNodes(nodes0, IngredientNodes(a.ingredients)), OwnNode(a))
    ensures edges == edges0 + StepEdges(a)
  {
    var inputs;
    nodes, inputs := AddIngredients(nodes0, a);
    OwnAdded(nodes, a);
    hide AddNodes, AddNode, Inputs;
    var target := StateNode(a.produces.id);
    if |inputs| <= 1 {
      if |inputs| == 1 {
        edges := edges0 + [(inputs[0], target)];
      } else {
        nodes := AddNode(nodes, StartNode(a.id));
        edges := edges0 + [(StartNode(a.id), target)];
      }
    } else {
      var join := JoinNode(a.id);
      nodes := AddNode(nodes, join);
      edges := edges0 + (EdgesInto(inputs, join) + [(join, target)]);
    }
  }

  /** `_build_graph`. */
  method BuildGraph(ordered: seq<Action>) returns (chart: Chart)
    ensures chart == Chart(ChartNodes(ordered, |ordered|), ChartEdges(ordered))
  {
    var nodes := AddStates(ordered);
    var edges: seq<Edge> := [];
    for k := 0 to |ordered|
      invariant nodes == ChartNodes(ordered, k) && edges == ChartEdges(ordered[..k])
    {
      assert ordered[..k + 1][..k] == ordered[..k];
      nodes, edges := LowerStep(nodes, edges, ordered[k]);
    }
    assert ordered[..|ordered|] == ordered;
    chart := Chart(nodes, edges);
  }

  lemma OwnAdded(nodes: seq<Node>, a: Action)
    ensures AddNodes(nodes, OwnNode(a))
         == if Inputs(a) == [] then AddNode(nodes, StartNode(a.id))
            else if |Inputs(a)| == 1 then nodes else AddNode(nodes, JoinNode(a.id))
  {
    if Inputs(a) == [] {
      assert [StartNode(a.id)][..0] == [];
    } else if |Inputs(a)| > 1 {
      assert [JoinNode(a.id)][..0] == [];
    }
  }

  // ----- edges, one by one -------------------------------------------------------------------------

  predicate TakesIn(a: Action, n: Node) {
    (n.StateNode? && n.id in a.uses)
      || (n.IngredientNode? && exists k :: 0 <= k < |a.ingredients| && a.ingredients[k].id == n.id)
  }

  lemma InputsAre(a: Action, n: Node)
    ensures n in Inputs(a) <==> TakesIn(a, n)
  {
    if n.StateNode? && n.id in a.uses {
      var k :| 0 <= k < |a.uses| && a.uses[k] == n.id;
      assert Inputs(a)[k] == n;
    }
    if n.IngredientNode? && TakesIn(a, n) {
      var k :| 0 <= k < |a.ingredients| && a.ingredients[k].id == n.id;
      assert Inputs(a)[|a.uses| + k] == n;
    }
  }

  /** The edge belongs to the step: straight from its one input, into or out of its join, or out of its start. */
  predicate StepEdge(a: Action, e: Edge) {
    var target := StateNode(a.produces.id);
    || (|Inputs(a)| == 1 && TakesIn(a, e.0) && e.1 == target)
    || (|Inputs(a)| > 1 && TakesIn(a, e.0) && e.1 == JoinNode(a.id))
    || (|Inputs(a)| > 1 && e == (JoinNode(a.id), target))
    || (Inputs(a) == [] && e == (StartNode(a.id), target))
  }

  lemma StepEdgesAre(a: Action, e: Edge)
    ensures e in StepEdges(a) <==> StepEdge(a, e)
  {
    InputsAre(a, e.0);
    var inputs := Inputs(a);
    if |inputs| > 1 && e.0 in inputs && e.1 == JoinNode(a.id) {
      var k :| 0 <= k < |inputs| && inputs[k] == e.0;
      assert StepEdges(a)[k] == e;
    }
    if |inputs| > 1 && e == (JoinNode(a.id), StateNode(a.produces.id)) {
      assert StepEdges(a)[|inputs|] == e;
    }
    hide TakesIn, Inputs;
  }

  lemma {:induction false} ChartEdgesAre(ordered: seq<Action>, e: Edge)
    ensures e in ChartEdges(ordered) <==> exists k :: 0 <= k < |ordered| && StepEdge(ordered[k], e)
  {
    hide StepEdge, StepEdges;
    if ordered != [] {
      var init, last := ordered[..|ordered| - 1], ordered[|ordered| - 1];
      ChartEdgesAre(init, e);
      StepEdgesAre(last, e);
      if exists k :: 0 <= k < |init| && StepEdge(init[k], e) {
        var k :| 0 <= k < |init| && StepEdge(init[k], e);
        assert StepEdge(ordered[k], e);
      }
      if exists k :: 0 <= k < |ordered| && StepEdge(ordered[k], e) {
        var k :| 0 <= k < |ordered| && StepEdge(ordered[k], e);
        assert k < |init| ==> StepEdge(init[k], e);
      }
    }
  }
}
