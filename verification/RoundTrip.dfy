/** Recipes as lines of text: which states a step can refer to, and what parsing the printed recipe gives. */
module RoundTrip {
  import opened Wrappers
  import opened Schema
  import opened QuantityText
  import opened StepText
  import opened ActionGraph
  import opened Kahn
  import opened SortLaws
  import opened Printer
  import opened Parser
  import opened ParserLaws
  import opened StepRoundTrip
  import opened StepLines
  import opened LineLaws

  /** The line a step prints. */
  function LineOf(a: Action, labels: map<string, string>): Line
    requires ValidAction(a) && Labelled(a, labels)
  {
    Line(Pieces(a, labels), a.produces.name)
  }

  ghost function LinesOf(s: seq<Action>): (ls: seq<Line>)
    requires AllLabelled(s)
    ensures |ls| == |s|
  {
    seq(|s|, k requires 0 <= k < |s| => LineOf(s[k], StateLabels(s)))
  }

  /** Each step of the recipe, in sorted order, is a line of the dialect. */
  ghost predicate WritableRecipe(s: seq<Action>) {
    AllLabelled(s) && WritableLines(LinesOf(s))
  }

  lemma LineTextIsStep(s: seq<Action>)
    requires AllLabelled(s)
    ensures LineTexts(LinesOf(s)) == PrintedSteps(s)
  {
    hide ValidAction, Labelled, Pieces, StateLabels;
  }

  /** What parsing the printed recipe gives. */
  ghost function ReadBackRecipe(env: Env, s: seq<Action>): (b: seq<Action>)
    requires AllLabelled(s)
    ensures |b| == |s|
  {
    ReadLines(env, LinesOf(s))
  }

  /** The printed document parses, to a valid recipe that is already sorted. */
  lemma {:induction false} PrintedParses(env: Env, s: seq<Action>)
    requires WritableRecipe(s) && s != []
    ensures ParseCook(env, JoinSteps(PrintedSteps(s)) + "\n") == Success(ReadBackRecipe(env, s))
    ensures var b := ReadBackRecipe(env, s);
            ValidRecipe(b) && InDocumentOrder(env, b) && SortedActions(b) == b && AllLabelled(b)
  {
    hide AllLabelled, WritableLines, LinesOf, LineTexts, ReadLines, ValidRecipe, InDocumentOrder, SortedActions;
    LineTextIsStep(s);
    DocumentParses(env, LinesOf(s));
  }

  lemma LineAt(s: seq<Action>, i: nat)
    requires WritableRecipe(s) && i < |s|
    ensures ValidAction(s[i]) && Labelled(s[i], StateLabels(s))
    ensures LinesOf(s)[i] == LineOf(s[i], StateLabels(s)) && WritableLine(LinesOf(s)[i])
  {
    hide ValidAction, Labelled, Pieces, StateLabels, WritableLine;
  }

  // ----- the states a step refers to ------------------------------------------------------------

  /** The result of step j can be referred to at step i: it has a name that no step in between takes. */
  predicate Referable(s: seq<Action>, i: nat, j: nat)
    requires i < |s|
  {
    j < i && s[j].produces.name.Some? && forall m :: j < m < i ==> s[m].produces.name != s[j].produces.name
  }

  /** Every state the step uses can be referred to there. */
  ghost predicate StepReferable(s: seq<Action>, i: nat)
    requires i < |s|
  {
    forall j :: 0 <= j < i && s[j].produces.id in s[i].uses ==> Referable(s, i, j)
  }

  lemma {:induction false} ListedHasNoState(uses: seq<IngredientUse>, k: nat)
    requires k < |ListedPieces(uses)|
    ensures !ListedPieces(uses)[k].State?
  {
    if |uses| > 1 && k >= 2 {
      ListedHasNoState(uses[1..], k - 2);
    }
  }

  lemma PieceStates(a: Action, labels: map<string, string>, k: nat)
    requires ValidAction(a) && Labelled(a, labels) && k < |Pieces(a, labels)| && Pieces(a, labels)[k].State?
    ensures exists u :: u in a.uses && labels[u] == Pieces(a, labels)[k].name
  {
    var leading := LeadingUses(a.uses, ChunkStates(a));
    if k < |leading| {
      assert leading[k] in leading;
      assert Pieces(a, labels)[k] == State(labels[leading[k]]);
    } else if a.text.Some? {
      var c := a.text.value[k - |leading|];
      assert Showable(a, labels, c);
      assert Pieces(a, labels)[k] == PieceOf(a, labels, c);
    } else {
      ListedHasNoState(a.ingredients, k - |leading|);
    }
  }

  lemma UseShown(a: Action, labels: map<string, string>, u: string)
    requires ValidAction(a) && Labelled(a, labels) && u in a.uses
    ensures State(labels[u]) in Pieces(a, labels)
  {
    var leading := LeadingUses(a.uses, ChunkStates(a));
    if u in ChunkStates(a) {
      var c :| c in a.text.value && c.StateChunk? && c.ref == u;
      var j :| 0 <= j < |a.text.value| && a.text.value[j] == c;
      assert Showable(a, labels, c);
      assert Pieces(a, labels)[|leading| + j] == BodyPieces(a, labels)[j];
    } else {
      var k :| 0 <= k < |leading| && leading[k] == u;
      assert Pieces(a, labels)[k] == LeadingPieces(leading, labels)[k];
    }
  }

  /** The names a step's line refers to are the labels of the states it uses. */
  lemma LineRefersIff(a: Action, labels: map<string, string>, name: string)
    requires ValidAction(a) && Labelled(a, labels)
    ensures Refers(LineOf(a, labels), name) <==> exists u :: u in a.uses && labels[u] == name
  {
    hide ValidAction, Pieces;
    var ps := Pieces(a, labels);
    if State(name) in ps {
      var k :| 0 <= k < |ps| && ps[k] == State(name);
      PieceStates(a, labels, k);
    }
    forall u | u in a.uses && labels[u] == name ensures State(name) in ps {
      UseShown(a, labels, u);
    }
  }

  /** Step i, as it comes back, consumes what step j makes. */
  ghost predicate Consumes(s: seq<Action>, i: nat, j: nat)
    requires i < |s| && j < |s|
  {
    s[j].produces.id in s[i].uses
  }

  /** Step i uses a state whose label is the name of step j, and j is the last before i of that name. */
  ghost predicate LabelLeadsTo(s: seq<Action>, i: nat, j: nat)
    requires AllLabelled(s) && i < |s| && j < |s|
  {
    Referable(s, i, j) && exists u :: u in s[i].uses && Some(StateLabels(s)[u]) == s[j].produces.name
  }

  lemma BearerIff(s: seq<Action>, i: nat, j: nat)
    requires AllLabelled(s) && i < |s| && j < |s| && s[j].produces.name.Some?
    ensures Bearer(LinesOf(s), i, s[j].produces.name.value) == Some(j) <==> Referable(s, i, j)
  {
    hide ValidAction, Labelled, Pieces, StateLabels;
    var ls, name := LinesOf(s), s[j].produces.name.value;
    forall m | 0 <= m < |s| ensures ls[m].name == s[m].produces.name {
    }
    hide LinesOf;
    if Bearer(ls, i, name) == Some(j) {
      forall m | j < m < i ensures s[m].produces.name != s[j].produces.name {
        assert ls[m].name != Some(name);
      }
    }
    if Referable(s, i, j) {
      assert ls[j].name == Some(name);
      var k := Bearer(ls, i, name);
      assert k.Some? && k.value >= j;
    }
  }

  /**
   The inputs that come back are those the labels lead to: a state without a name, or one whose name a later step
   takes, is lost or becomes another.
   */
  lemma {:induction false} EdgesRead(env: Env, s: seq<Action>, i: nat, j: nat)
    requires WritableRecipe(s) && i < |s| && j < |s|
    ensures Consumes(ReadBackRecipe(env, s), i, j) <==> LabelLeadsTo(s, i, j)
  {
    LineAt(s, i);
    LineAt(s, j);
    hide ValidAction, Labelled, Pieces, StateLabels, WritableLine, AllLabelled, LinesOf, ReadLines, WritableLines,
      Referable, Refers;
    InputsRead(env, LinesOf(s), i, j);
    if s[j].produces.name.Some? {
      BearerIff(s, i, j);
      LineRefersIff(s[i], StateLabels(s), s[j].produces.name.value);
    } else {
      assert !Referable(s, i, j) by {
        UnnamedNotReferable(s, i, j);
      }
    }
  }

  lemma UnnamedNotReferable(s: seq<Action>, i: nat, j: nat)
    requires i < |s| && j < |s| && s[j].produces.name.None?
    ensures !Referable(s, i, j)
  {
  }

  /** A used state is produced earlier, and labelled by its step. */
  lemma UsedLabel(s: seq<Action>, i: nat, u: string) returns (j: nat)
    requires ProducersFirst(s) && SingleWriter(s) && i < |s| && u in s[i].uses
    ensures j < i && s[j].produces.id == u && u in StateLabels(s) && StateLabels(s)[u] == Label(s[j], j + 1)
  {
    j :| 0 <= j < i && s[j].produces.id == u;
    LabelOf(s, j);
  }

  /** The step's inputs are the same before and after. */
  ghost predicate SameInputs(s: seq<Action>, b: seq<Action>, i: nat)
    requires i < |s| == |b|
  {
    forall j :: 0 <= j < |s| ==> (Consumes(b, i, j) <==> Consumes(s, i, j))
  }

  lemma EdgeComesBack(s: seq<Action>, i: nat, j: nat)
    requires AllLabelled(s) && ProducersFirst(s) && SingleWriter(s) && i < |s| && j < |s| && StepReferable(s, i)
    ensures LabelLeadsTo(s, i, j) <==> Consumes(s, i, j)
  {
    hide ValidAction, StateLabels;
    if LabelLeadsTo(s, i, j) {
      var u :| u in s[i].uses && Some(StateLabels(s)[u]) == s[j].produces.name;
      var m := UsedLabel(s, i, u);
      assert Referable(s, i, m);
    }
    if Consumes(s, i, j) {
      var m := UsedLabel(s, i, s[j].produces.id);
      assert Referable(s, i, m);
    }
  }

  /** The inputs of a step come back exactly if each has a name that no step in between takes. */
  lemma {:induction false} EdgesComeBackIff(env: Env, s: seq<Action>, i: nat)
    requires WritableRecipe(s) && ProducersFirst(s) && SingleWriter(s) && i < |s|
    ensures SameInputs(s, ReadBackRecipe(env, s), i) <==> StepReferable(s, i)
  {
    hide AllLabelled, WritableLines, ReadBackRecipe, LabelLeadsTo, Consumes, Referable;
    forall j | 0 <= j < |s| ensures Consumes(ReadBackRecipe(env, s), i, j) <==> LabelLeadsTo(s, i, j) {
      EdgesRead(env, s, i, j);
    }
    if StepReferable(s, i) {
      forall j | 0 <= j < |s| ensures LabelLeadsTo(s, i, j) <==> Consumes(s, i, j) {
        EdgeComesBack(s, i, j);
      }
    }
    if SameInputs(s, ReadBackRecipe(env, s), i) {
      forall j | 0 <= j < i && s[j].produces.id in s[i].uses ensures Referable(s, i, j) {
        UsedIsConsumed(s, i, j);
        LeadsIsReferable(s, i, j);
      }
    }
  }

  lemma UsedIsConsumed(s: seq<Action>, i: nat, j: nat)
    requires i < |s| && j < |s| && s[j].produces.id in s[i].uses
    ensures Consumes(s, i, j)
  {
  }

  lemma LeadsIsReferable(s: seq<Action>, i: nat, j: nat)
    requires AllLabelled(s) && i < |s| && j < |s| && LabelLeadsTo(s, i, j)
    ensures Referable(s, i, j)
  {
  }

  // ----- the pieces and the lists ------------------------------------------------------------------

  /** The pieces of step i as the parser reads them in the printed recipe. */
  ghost function StepReads(env: Env, s: seq<Action>, i: nat): seq<Piece>
    requires AllLabelled(s) && i < |s|
  {
    PiecesRead(LineContext(env, LinesOf(s), i), Pieces(s[i], StateLabels(s)))
  }

  /** The pieces of the step that came back are the pieces as read, each with its amounts looked up again. */
  lemma {:induction false} PiecesComeBack(env: Env, s: seq<Action>, i: nat)
    requires WritableRecipe(s) && i < |s|
    ensures var b := ReadBackRecipe(env, s);
            && ValidAction(b[i]) && Labelled(b[i], StateLabels(b))
            && Pieces(b[i], StateLabels(b)) == ReadBackAll(env, StepReads(env, s, i))
  {
    hide ValidAction, Labelled, StateLabels, ReadLines, WritableLines, LinesOf, AllLabelled, Pieces;
    LineAt(s, i);
    PiecesBack(env, LinesOf(s), i);
  }

  /** A step all of whose states can be referred to is read as it is. */
  lemma {:induction false} ReferableReads(env: Env, s: seq<Action>, i: nat)
    requires WritableRecipe(s) && ProducersFirst(s) && SingleWriter(s) && i < |s| && StepReferable(s, i)
    ensures StepReads(env, s, i) == Pieces(s[i], StateLabels(s))
  {
    LineAt(s, i);
    hide AllLabelled, WritableLines, LinesOf, Pieces, Labelled, ValidAction, Referable, StateLabels, TrimmedPieces;
    var ps, names := Pieces(s[i], StateLabels(s)), NamesAt(env, LinesOf(s), i);
    forall k | 0 <= k < |ps| && ps[k].State? ensures ps[k].name in names {
      ReferableKnown(env, s, i, k);
    }
    RegroupSame(names, "", ps);
    assert [] + ps == ps;
  }

  lemma ReferableKnown(env: Env, s: seq<Action>, i: nat, k: nat)
    requires WritableRecipe(s) && ProducersFirst(s) && SingleWriter(s) && i < |s| && StepReferable(s, i)
    requires k < |Pieces(s[i], StateLabels(s))| && Pieces(s[i], StateLabels(s))[k].State?
    ensures Pieces(s[i], StateLabels(s))[k].name in NamesAt(env, LinesOf(s), i)
  {
    LineAt(s, i);
    PieceStates(s[i], StateLabels(s), k);
    hide AllLabelled, WritableLines, LinesOf, Pieces, Labelled, ValidAction, StateLabels, WritableLine, NamesAt;
    var name := Pieces(s[i], StateLabels(s))[k].name;
    var u :| u in s[i].uses && StateLabels(s)[u] == name;
    var j := UsedLabel(s, i, u);
    assert Referable(s, i, j);
    BearerIff(s, i, j);
    NameStandsFor(env, LinesOf(s), i, name);
  }
}
