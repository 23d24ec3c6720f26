/**
 From actions to document text. `Pieces` says what a step shows, with every reference resolved; the text of a
 step is the text of its pieces.
 */
module Printer {
  import opened Wrappers
  import opened Text
  import opened Decimals
  import opened Schema
  import opened QuantityText
  import opened StepText
  import opened ActionGraph
  import opened Kahn
  import opened SortLaws

  // ----- what a step shows -------------------------------------------------------------

  /** What an ingredient use says beside its text: its registry entry, its preparation and its notes. */
  datatype Aside = Aside(ingredientId: Option<string>, prep: Option<string>, notes: Option<string>)

  datatype Piece =
    | Prose(text: string)
    | Ingredient(name: string, quantity: Option<Spec>, optional: bool, aside: Aside)
    | Tool(name: string, amount: Option<Dec>, notes: Option<string>)
    | State(name: string)
    | Duration(timer: Timer)
    | Heat(temperature: Temperature)

  function UsePiece(u: IngredientUse): Piece {
    Ingredient(u.name, u.quantity, u.optional, Aside(u.ingredientId, u.prep, u.notes))
  }

  function ToolPiece(u: CookwareUse): Piece {
    Tool(u.name, u.quantity, u.notes)
  }

  /** `by_ing[ref]`: a later use with the same id wins. */
  function FindUse(uses: seq<IngredientUse>, ref: string): (u: IngredientUse)
    requires exists k :: 0 <= k < |uses| && uses[k].id == ref
    ensures u in uses && u.id == ref
  {
    var last := uses[|uses| - 1];
    if last.id == ref then last else FindUse(uses[..|uses| - 1], ref)
  }

  /** `by_cook[ref]`. */
  function FindTool(uses: seq<CookwareUse>, ref: string): (u: CookwareUse)
    requires exists k :: 0 <= k < |uses| && uses[k].id == ref
    ensures u in uses && u.id == ref
  {
    var last := uses[|uses| - 1];
    if last.id == ref then last else FindTool(uses[..|uses| - 1], ref)
  }

  /** Every slot of the chunk resolves in the action and every state it names has a label. */
  predicate Showable(a: Action, labels: map<string, string>, c: Chunk) {
    ChunkResolves(a, c) && (c.StateChunk? ==> c.ref in labels)
  }

  function PieceOf(a: Action, labels: map<string, string>, c: Chunk): Piece
    requires Showable(a, labels, c)
  {
    match c
    case LiteralChunk(t) => Prose(t)
    case IngredientChunk(ref) =>
      UsePiece(FindUse(a.ingredients, ref))
    case CookwareChunk(ref) =>
      ToolPiece(FindTool(a.cookware, ref))
    case StateChunk(ref) => State(labels[ref])
    case TimerChunk(i) => Duration(a.timers[i])
    case TemperatureChunk(i) => Heat(a.temperatures[i])
  }

  predicate AllShowable(a: Action, labels: map<string, string>, chunks: seq<Chunk>) {
    forall k :: 0 <= k < |chunks| ==> Showable(a, labels, chunks[k])
  }

  function PiecesOf(a: Action, labels: map<string, string>, chunks: seq<Chunk>): (ps: seq<Piece>)
    requires AllShowable(a, labels, chunks)
    ensures |ps| == |chunks|
  {
    seq(|chunks|, k requires 0 <= k < |chunks| => PieceOf(a, labels, chunks[k]))
  }

  /** The states a template consumes in its prose. */
  function ChunkStates(a: Action): set<string> {
    if a.text.None? then {} else set c | c in a.text.value && c.StateChunk? :: c.ref
  }

  /** Uses the prose does not place, in order and with repetitions. */
  function LeadingUses(uses: seq<string>, placed: set<string>): (r: seq<string>)
    ensures forall u :: u in r <==> u in uses && u !in placed
  {
    if uses == [] then []
    else (if uses[0] in placed then [] else [uses[0]]) + LeadingUses(uses[1..], placed)
  }

  /** The labels cover every state the action uses. */
  predicate Labelled(a: Action, labels: map<string, string>) {
    forall u :: u in a.uses ==> u in labels
  }

  function LeadingPieces(uses: seq<string>, labels: map<string, string>): (ps: seq<Piece>)
    requires forall u :: u in uses ==> u in labels
    ensures |ps| == |uses|
  {
    seq(|uses|, k requires 0 <= k < |uses| => State(labels[uses[k]]))
  }

  /** The ingredient tokens of a step without prose, with a space between. */
  function ListedPieces(uses: seq<IngredientUse>): seq<Piece> {
    if uses == [] then []
    else if |uses| == 1 then [UsePiece(uses[0])]
    else [UsePiece(uses[0]), Prose(" ")] + ListedPieces(uses[1..])
  }

  function BodyPieces(a: Action, labels: map<string, string>): seq<Piece>
    requires ValidAction(a) && Labelled(a, labels)
  {
    if a.text.None? then ListedPieces(a.ingredients) else PiecesOf(a, labels, a.text.value)
  }

  /** Everything the step's text shows, in order. */
  function Pieces(a: Action, labels: map<string, string>): seq<Piece>
    requires ValidAction(a) && Labelled(a, labels)
  {
    LeadingPieces(LeadingUses(a.uses, ChunkStates(a)), labels) + BodyPieces(a, labels)
  }

  /** A step without prose shows its ingredients, each in its place, with one space between two. */
  lemma {:induction false} ListedAt(uses: seq<IngredientUse>)
    ensures |ListedPieces(uses)| == if uses == [] then 0 else 2 * |uses| - 1
    ensures forall k :: 0 <= k < |uses| ==> ListedPieces(uses)[2 * k] == UsePiece(uses[k])
    ensures forall k :: 0 <= k < |uses| - 1 ==> ListedPieces(uses)[2 * k + 1] == Prose(" ")
  {
    if |uses| > 1 {
      var rest := uses[1..];
      ListedAt(rest);
      var all := ListedPieces(uses);
      assert all == [UsePiece(uses[0]), Prose(" ")] + ListedPieces(rest);
      forall k | 0 <= k < |uses| ensures all[2 * k] == UsePiece(uses[k]) {
        if k > 0 {
          assert all[2 * k] == ListedPieces(rest)[2 * (k - 1)];
        }
      }
      forall k | 0 <= k < |uses| - 1 ensures all[2 * k + 1] == Prose(" ") {
        if k > 0 {
          assert all[2 * k + 1] == ListedPieces(rest)[2 * (k - 1) + 1];
        }
      }
    }
  }

  lemma LeadingOne(u: string, placed: set<string>)
    ensures LeadingUses([u], placed) == if u in placed then [] else [u]
  {
    assert [u][1..] == [];
  }

  /** The references before the body are the unplaced uses, one by one in their order. */
  lemma {:induction false} LeadingSnoc(uses: seq<string>, u: string, placed: set<string>)
    ensures LeadingUses(uses + [u], placed) == LeadingUses(uses, placed) + if u in placed then [] else [u]
  {
    if uses == [] {
      LeadingOne(u, placed);
      assert [] + [u] == [u];
    } else {
      assert (uses + [u])[1..] == uses[1..] + [u];
      LeadingSnoc(uses[1..], u, placed);
    }
  }

  // ----- tokens ------------------------------------------------------------------------------

  function Modifiers(quantity: Option<Spec>, optional: bool): string {
    (if optional then "?" else "") + (if quantity.Some? && quantity.value.scaling.Invariant? then "=" else "")
  }

  function ScaleText(s: Scale): string {
    if s.C? then "C" else "F"
  }

  function PrintPiece(p: Piece): string {
    match p
    case Prose(t) => t
    case Ingredient(name, q, optional, _) => "@" + Modifiers(q, optional) + name + "{" + PrintSpec(q) + "}"
    case Tool(name, amount, _) => "#" + name + "{" + (if amount.Some? then Encode(amount.value) else "") + "}"
    case State(name) => "@&{" + name + "}"
    case Duration(t) => "~" + t.name.GetOr("") + "{" + PrintQuantity(t.quantity) + "}"
    case Heat(t) => "^{" + Encode(t.value) + "%" + ScaleText(t.unit) + "}"
  }

  function PrintPieces(ps: seq<Piece>): string {
    if ps == [] then "" else PrintPiece(ps[0]) + PrintPieces(ps[1..])
  }

  lemma KnownNumbers()
    ensures Encode(Dec(false, 5, 0)) == "5" && Encode(Dec(false, 25, -1)) == "2.5" && Encode(Dec(false, 8, 0)) == "8"
  {
    assert NatText(25) == "25";
  }

  /** What quantities look like: two numbers, a count of a size, amounts with their units. */
  lemma {:induction false} KnownQuantities(g: UnitRef)
    requires g.surface == "g"
    ensures var five, more, eight := Dec(false, 5, 0), Dec(false, 25, -1), Dec(false, 8, 0);
            && PrintQuantity(Scalar(more, Some(g))) == "2.5%g" && PrintQuantity(Range(five, eight, Some(g))) == "5-8%g"
            && PrintQuantity(Count(five, Some(eight), None)) == "5-8"
            && PrintQuantity(Count(five, None, Some(Small))) == "5%small"
  {
    hide Encode;
    KnownNumbers();
  }

  /** What ingredients look like: `?` before `=`, then the name, then the amount. */
  lemma {:induction false} KnownIngredients(q: Quantity, aside: Aside)
    requires PrintQuantity(q) == "5"
    ensures PrintPiece(Ingredient("salt", Some(Spec(q, Invariant)), true, aside)) == "@?=salt{5}"
    ensures PrintPiece(Ingredient("oil", None, false, aside)) == "@oil{}"
  {
    hide PrintQuantity;
  }

  /** What the other tokens look like. */
  lemma {:induction false} KnownTokens(q: Quantity, d: Dec)
    requires PrintQuantity(q) == "5" && Encode(d) == "5"
    ensures PrintPiece(Tool("pan", Some(d), None)) == "#pan{5}" && PrintPiece(Tool("pan", None, None)) == "#pan{}"
    ensures PrintPiece(Duration(Timer(Some("rest"), q))) == "~rest{5}" && PrintPiece(State("dough")) == "@&{dough}"
    ensures PrintPiece(Heat(Temperature(d, F))) == "^{5%F}"
  {
    hide PrintQuantity, Encode;
  }

  // ----- steps and documents --------------------------------------------------------------------

  function Label(a: Action, index: nat): string {
    if a.produces.name.Some? then a.produces.name.value else "s" + NatText(index)
  }

  /** `_state_names`: each produced state's name, or "s" and its step number. */
  function StateLabels(ordered: seq<Action>): map<string, string> {
    if ordered == [] then map[]
    else
      var last := ordered[|ordered| - 1];
      StateLabels(ordered[..|ordered| - 1])[last.produces.id := Label(last, |ordered|)]
  }

  /** `_print_step`. */
  function PrintStep(a: Action, labels: map<string, string>): string
    requires ValidAction(a) && Labelled(a, labels)
  {
    PrintPieces(Pieces(a, labels)) + Suffix(a.produces.name)
  }

  lemma {:induction false} LabelsCover(ordered: seq<Action>)
    ensures forall a :: a in ordered ==> a.produces.id in StateLabels(ordered)
  {
    if ordered != [] {
      LabelsCover(ordered[..|ordered| - 1]);
      assert forall a :: a in ordered ==> a in ordered[..|ordered| - 1] || a == ordered[|ordered| - 1];
    }
  }

  lemma ValidRecipeSorts(actions: seq<Action>)
    requires ValidRecipe(actions)
    ensures var s := SortedActions(actions);
            && multiset(s) == multiset(actions) && ProducersFirst(s)
            && AllLabelled(s)
  {
    var s := SortedActions(actions);
    SortKeepsAllIff(actions);
    SortedProducersFirst(actions);
    LabelsCover(s);
    forall k | 0 <= k < |s| ensures ValidAction(s[k]) && Labelled(s[k], StateLabels(s)) {
      forall u | u in s[k].uses ensures u in StateLabels(s) {
        var j :| 0 <= j < k && s[j].produces.id == u;
        assert s[j] in s;
      }
    }
  }

  /** Every state a step uses has a label. */
  ghost predicate AllLabelled(s: seq<Action>) {
    forall k :: 0 <= k < |s| ==> ValidAction(s[k]) && Labelled(s[k], StateLabels(s))
  }

  ghost function PrintedSteps(ordered: seq<Action>): seq<string>
    requires AllLabelled(ordered)
  {
    seq(|ordered|, k requires 0 <= k < |ordered| => PrintStep(ordered[k], StateLabels(ordered)))
  }

  /** `print_cook`'s document body: the steps in sorted order, a blank line between, a newline at the end. */
  ghost function PrintCook(actions: seq<Action>): string
    requires ValidRecipe(actions)
  {
    ValidRecipeSorts(actions);
    JoinSteps(PrintedSteps(SortedActions(actions))) + "\n"
  }

  /** Steps stand in paragraphs of their own, with one empty line between, and say last what they produce. */
  lemma {:induction false} KnownLayout(body: string, name: string, more: string)
    ensures JoinSteps([body + Suffix(Some(name)), more + Suffix(None)]) == body + " => " + name + "\n\n" + more
    ensures JoinSteps([]) == ""
  {
    assert [body + Suffix(Some(name)), more + Suffix(None)][1..] == [more + Suffix(None)];
    assert body + Suffix(Some(name)) == body + " => " + name && more + Suffix(None) == more;
  }

  // ----- the imperative printer -----------------------------------------------------------------

  function Concat(parts: seq<string>): string {
    if parts == [] then "" else Concat(parts[..|parts| - 1]) + parts[|parts| - 1]
  }

  lemma Assoc(a: string, b: string, c: string)
    ensures a + b + c == a + (b + c)
  {
  }

  lemma {:induction false} PrintPiecesConcat(ps: seq<Piece>, qs: seq<Piece>)
    ensures PrintPieces(ps + qs) == PrintPieces(ps) + PrintPieces(qs)
  {
    if ps == [] {
      assert ps + qs == qs;
    } else {
      PrintPiecesConcat(ps[1..], qs);
      ConcatParts(ps, qs);
      FirstPiece(ps);
      FirstPiece(ps + qs);
      hide PrintPiece, PrintPieces;
      Assoc(PrintPiece(ps[0]), PrintPieces(ps[1..]), PrintPieces(qs));
    }
  }

  lemma FirstPiece(ps: seq<Piece>)
    requires ps != []
    ensures PrintPieces(ps) == PrintPiece(ps[0]) + PrintPieces(ps[1..])
  {
  }

  lemma ConcatParts(ps: seq<Piece>, qs: seq<Piece>)
    requires ps != []
    ensures ps + qs != [] && (ps + qs)[0] == ps[0] && (ps + qs)[1..] == ps[1..] + qs
  {
  }

  lemma PrintPiecesSnoc(ps: seq<Piece>, p: Piece)
    ensures PrintPieces(ps + [p]) == PrintPieces(ps) + PrintPiece(p)
  {
    PrintPiecesConcat(ps, [p]);
    assert [p][1..] == [];
    assert PrintPieces([p]) == PrintPiece(p);
  }

  /** `_print_body` of a step with prose: the loop that fills `parts`. */
  method PrintTemplate(a: Action, labels: map<string, string>) returns (body: string)
    requires ValidAction(a) && Labelled(a, labels) && a.text.Some?
    ensures body == PrintPieces(BodyPieces(a, labels))
  {
    var chunks := a.text.value;
    assert AllShowable(a, labels, chunks);
    var parts: seq<string> := [];
    for k := 0 to |chunks|
      invariant Concat(parts) == PrintPieces(PiecesOf(a, labels, chunks[..k]))
    {
      var piece := PieceOf(a, labels, chunks[k]);
      TakeSnoc(a, labels, chunks, k);
      PrintPiecesSnoc(PiecesOf(a, labels, chunks[..k]), piece);
      parts := parts + [PrintPiece(piece)];
      assert parts[..|parts| - 1] + [PrintPiece(piece)] == parts;
    }
    assert chunks[..|chunks|] == chunks;
    body := Concat(parts);
  }

  lemma TakeSnoc(a: Action, labels: map<string, string>, chunks: seq<Chunk>, k: nat)
    requires AllShowable(a, labels, chunks) && k < |chunks|
    ensures PiecesOf(a, labels, chunks[..k + 1]) == PiecesOf(a, labels, chunks[..k]) + [PieceOf(a, labels, chunks[k])]
  {
  }

  /** `_state_names` as the loop over the sorted actions. */
  method ComputeLabels(ordered: seq<Action>) returns (labels: map<string, string>)
    ensures labels == StateLabels(ordered)
  {
    labels := map[];
    for i := 0 to |ordered|
      invariant labels == StateLabels(ordered[..i])
    {
      assert ordered[..i + 1][..i] == ordered[..i];
      labels := labels[ordered[i].produces.id := Label(ordered[i], i + 1)];
    }
    assert ordered[..|ordered|] == ordered;
  }

  /** `_print_step`: leading state references, body, suffix. */
  method PrintStepText(a: Action, labels: map<string, string>) returns (text: string)
    requires ValidAction(a) && Labelled(a, labels)
    ensures text == PrintStep(a, labels)
  {
    var leading := LeadingPieces(LeadingUses(a.uses, ChunkStates(a)), labels);
    var body: string;
    if a.text.Some? {
      body := PrintTemplate(a, labels);
    } else {
      body := PrintPieces(ListedPieces(a.ingredients));
    }
    PrintPiecesConcat(leading, BodyPieces(a, labels));
    text := PrintPieces(leading) + body + Suffix(a.produces.name);
  }

  /** Why printing stops: a used state that no printed action produces. */
  datatype PrintError = NoSuchState

  /** The steps, or the error of the first that uses a state without a label. */
  method PrintAll(ordered: seq<Action>) returns (r: Result<seq<string>, PrintError>)
    requires forall k :: 0 <= k < |ordered| ==> ValidAction(ordered[k])
    ensures r.Success? <==> AllLabelled(ordered)
    ensures r.Success? ==> r.value == PrintedSteps(ordered)
  {
    hide ValidAction, PrintStep, Labelled;
    var labels := ComputeLabels(ordered);
    var steps: seq<string> := [];
    for k := 0 to |ordered|
      invariant |steps| == k
      invariant forall i :: 0 <= i < k ==> Labelled(ordered[i], labels) && steps[i] == PrintStep(ordered[i], labels)
    {
      if !Labelled(ordered[k], labels) {
        return Failure(NoSuchState);
      }
      var step := PrintStepText(ordered[k], labels);
      steps := steps + [step];
    }
    return Success(steps);
  }

  lemma SortedValid(actions: seq<Action>)
    requires forall k :: 0 <= k < |actions| ==> ValidAction(actions[k])
    requires ValidGraph(actions)
    ensures forall k :: 0 <= k < |SortedActions(actions)| ==> ValidAction(SortedActions(actions)[k])
  {
    hide ValidAction;
    var s := SortedActions(actions);
    forall k | 0 <= k < |s| ensures ValidAction(s[k]) {
      assert s[k] in actions;
      var i :| 0 <= i < |actions| && actions[i] == s[k];
    }
  }

  /** `print_cook` on the document body; with a repeated action id a state it needs may have been dropped. */
  method PrintDocument(actions: seq<Action>) returns (r: Result<string, PrintError>)
    requires ValidGraph(actions) && forall k :: 0 <= k < |actions| ==> ValidAction(actions[k])
    ensures r.Success? <==> AllLabelled(SortedActions(actions))
    ensures r.Success? ==> r.value == JoinSteps(PrintedSteps(SortedActions(actions))) + "\n"
    ensures ValidRecipe(actions) ==> r == Success(PrintCook(actions))
  {
    hide ValidAction, PrintStep, Labelled;
    SortedValid(actions);
    var sorted := TopologicalActions(actions);
    var steps := PrintAll(sorted.value);
    if ValidRecipe(actions) {
      ValidRecipeSorts(actions);
    }
    if steps.Failure? {
      return Failure(steps.error);
    }
    return Success(JoinSteps(steps.value) + "\n");
  }
}
