/** From document text to actions: one action per paragraph, then the graph checks of the recipe. */
module Parser {
  import opened Wrappers
  import opened Text
  import opened Schema
  import opened QuantityText
  import opened Scanner
  import opened StepText
  import opened ActionGraph
  import Kahn

  /** `block.replace("\n", " ")`. */
  function Unwrap(block: string): (s: string)
    ensures '\n' !in block ==> s == block
  {
    seq(|block|, i requires 0 <= i < |block| => if block[i] == '\n' then ' ' else block[i])
  }

  function ActionId(index: nat): string {
    "act_" + NatText(index)
  }

  function StateId(env: Env, index: nat, name: Option<string>): string {
    "nod_" + NatText(index) + (if name.Some? then "_" + env.slug(name.value) else "")
  }

  /** The action a finished scan becomes. */
  function ActionOf(ctx: Context, st: Scan, produced: Option<string>): Action
    requires ctx.index > 0
  {
    Action(ActionId(ctx.index), ctx.index - 1, None, st.uses, st.ingredients, st.cookware, st.timers, st.temperatures,
           FoodState(StateId(ctx.env, ctx.index, produced), produced),
           if st.chunks == [] then None else Some(st.chunks), None)
  }

  /** The states named once this step is read. */
  function NamesAfter(ctx: Context, produced: Option<string>): map<string, string> {
    if produced.Some? then ctx.names[produced.value := StateId(ctx.env, ctx.index, produced)] else ctx.names
  }

  /** `_parse_step`: the action and the extended name table. */
  function ParseStep(ctx: Context, block: string): Result<(Action, map<string, string>), ParseError>
    requires ctx.index > 0
  {
    var (text, produced) := SplitProduced(Unwrap(block));
    var st :- ScanFrom(ctx, text, "", START);
    var a := ActionOf(ctx, st, produced);
    if ValidAction(a) then Success((a, NamesAfter(ctx, produced))) else Failure(InvalidAction)
  }

  /** The steps from block k on. */
  function ParseFrom(env: Env, blocks: seq<string>, k: nat,
                     names: map<string, string>): (r: Result<seq<Action>, ParseError>)
    requires k <= |blocks|
    ensures r.Success? ==> |r.value| == |blocks| - k
    decreases |blocks| - k
  {
    if k == |blocks| then Success([])
    else
      var step :- ParseStep(Context(env, names, k + 1), blocks[k]);
      var rest :- ParseFrom(env, blocks, k + 1, step.1);
      Success([step.0] + rest)
  }

  /** `parse_cook` on a document body. */
  ghost function ParseCook(env: Env, body: string): Result<seq<Action>, ParseError> {
    var actions :- ParseFrom(env, SplitSteps(body), 0, map[]);
    if ValidGraph(actions) then Success(actions) else Failure(InvalidGraph)
  }

  // ----- the imperative parser -------------------------------------------------------------

  method ParseStepText(ctx: Context, block: string) returns (r: Result<(Action, map<string, string>), ParseError>)
    requires ctx.index > 0
    ensures r == ParseStep(ctx, block)
  {
    var (text, produced) := SplitProduced(Unwrap(block));
    var scanner := new StepScanner(text, ctx);
    var outcome := scanner.Run();
    if outcome.Failure? {
      return Failure(outcome.error);
    }
    var a := ActionOf(ctx, scanner.State(), produced);
    if !ValidAction(a) {
      return Failure(InvalidAction);
    }
    return Success((a, NamesAfter(ctx, produced)));
  }

  method ParseBlocks(env: Env, blocks: seq<string>) returns (r: Result<seq<Action>, ParseError>)
    ensures r == ParseFrom(env, blocks, 0, map[])
  {
    var names: map<string, string> := map[];
    var actions: seq<Action> := [];
    ghost var goal := ParseFrom(env, blocks, 0, map[]);
    ContinueStart(goal);
    for k := 0 to |blocks|
      invariant Continues(goal, actions, ParseFrom(env, blocks, k, names))
    {
      var step := ParseStepText(Context(env, names, k + 1), blocks[k]);
      if step.Failure? {
        return Failure(step.error);
      }
      ContinueOne(goal, actions, step.value.0, ParseFrom(env, blocks, k + 1, step.value.1));
      actions := actions + [step.value.0];
      names := step.value.1;
    }
    assert actions + [] == actions;
    return Success(actions);
  }

  /** `whole` is what parsing gives when `done` is read and `rest` is the outcome of the remaining blocks. */
  predicate Continues(whole: Result<seq<Action>, ParseError>, done: seq<Action>,
                      rest: Result<seq<Action>, ParseError>) {
    match rest
    case Failure(e) => whole == Failure(e)
    case Success(more) => whole == Success(done + more)
  }

  lemma ContinueStart(whole: Result<seq<Action>, ParseError>)
    ensures Continues(whole, [], whole)
  {
    if whole.Success? {
      assert [] + whole.value == whole.value;
    }
  }

  lemma ContinueOne(whole: Result<seq<Action>, ParseError>, done: seq<Action>, a: Action,
                    rest: Result<seq<Action>, ParseError>)
    requires rest.Success? ==> Continues(whole, done, Success([a] + rest.value))
    requires rest.Failure? ==> Continues(whole, done, rest)
    ensures Continues(whole, done + [a], rest)
  {
    if rest.Success? {
      assert done + ([a] + rest.value) == done + [a] + rest.value;
    }
  }

  method ParseDocument(env: Env, body: string) returns (r: Result<seq<Action>, ParseError>)
    ensures r == ParseCook(env, body)
  {
    r := ParseBlocks(env, SplitSteps(body));
    if r.Success? {
      var invalid := Kahn.ValidateGraph(r.value);
      if invalid.Some? {
        return Failure(InvalidGraph);
      }
    }
  }
}
