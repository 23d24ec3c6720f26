/** Parsing what was printed: what comes back, when the text is stable, when nothing is lost. */
module RoundTripTheorem {
  import opened Wrappers
  import opened Schema
  import opened QuantityText
  import opened StepText
  import opened ActionGraph
  import opened Kahn
  import opened SortLaws
  import opened Printer
  import opened Parser
  import opened ParserLaws
  import opened TokenText
  import opened StepRoundTrip
  import opened StepLines
  import opened LineLaws
  import opened Stability
  import opened RoundTrip
  import opened StepLists
  import opened StepUses

  // ----- the text is stable exactly if every "=" is kept --------------------------------------

  predicate LineKeeps(l: Line) {
    forall k :: 0 <= k < |l.pieces| ==> KeepsMark(l.pieces[k])
  }

  lemma CancelSuffix(a: string, b: string, t: string)
    ensures a + t == b + t <==> a == b
  {
    if a + t == b + t {
      assert |a| == |b|;
      assert a == (a + t)[..|a|] == (b + t)[..|b|] == b;
    }
  }

  /** A line comes back as a line, and as the same text exactly if it loses no "=". */
  lemma {:induction false} LineStableIff(env: Env, l: Line)
    requires WritableLine(l)
    ensures IsLine(LineText(LineBack(env, l)))
    ensures LineText(LineBack(env, l)) == LineText(l) <==> LineKeeps(l)
  {
    hide PrintPieces, ReadBackAll, KeepsMark, WritablePiece, TrimmedPieces, IsLine;
    PiecesStableIff(env, l.pieces);
    ReadBackLine(env, l.pieces, l.name);
    CancelSuffix(PrintPieces(ReadBackAll(env, l.pieces)), PrintPieces(l.pieces), Suffix(l.name));
  }

  /** Two documents of lines are equal exactly if their lines are. */
  lemma {:induction false} JoinedEqualIff(x: seq<string>, y: seq<string>)
    requires |x| == |y| > 0 && forall i :: 0 <= i < |x| ==> IsLine(x[i]) && IsLine(y[i])
    ensures JoinSteps(x) + "\n" == JoinSteps(y) + "\n" <==> forall i :: 0 <= i < |x| ==> x[i] == y[i]
  {
    SplitJoined(x);
    SplitJoined(y);
    hide JoinSteps, SplitSteps, IsLine;
    if forall i :: 0 <= i < |x| ==> x[i] == y[i] {
      assert x == y;
    }
  }

  /** The document printed from what was read is the document exactly if no line of it loses a "=". */
  lemma {:induction false} DocumentStableIff(env: Env, ls: seq<Line>)
    requires WritableLines(ls) && ls != []
    ensures AllLabelled(ReadLines(env, ls))
    ensures JoinSteps(PrintedSteps(ReadLines(env, ls))) + "\n" == DocumentText(ls) <==>
            forall i :: 0 <= i < |ls| ==> LineKeeps(ls[i])
  {
    hide WritableLines, ReadLines, LineKeeps, LineText, ValidAction, Labelled, StateLabels, PrintStep, IsLine,
      JoinSteps, InDocumentOrder, ValidRecipe, SortedActions;
    DocumentParses(env, ls);
    var x, y := PrintedSteps(ReadLines(env, ls)), LineTexts(ls);
    forall i | 0 <= i < |ls| ensures IsLine(x[i]) && IsLine(y[i]) && (x[i] == y[i] <==> LineKeeps(ls[i])) {
      TextStableAt(env, ls, i);
    }
    JoinedEqualIff(x, y);
  }

  lemma TextStableAt(env: Env, ls: seq<Line>, i: nat)
    requires WritableLines(ls) && i < |ls|
    ensures AllLabelled(ReadLines(env, ls))
    ensures var x, y := PrintedSteps(ReadLines(env, ls))[i], LineText(ls[i]);
            IsLine(x) && IsLine(y) && (x == y <==> LineKeeps(ls[i]))
  {
    hide ReadLines, LineKeeps, LineText, LineBack, ValidAction, Labelled, StateLabels, PrintStep, IsLine, WritableLine;
    LineSplits(ls[i]);
    LineStableIff(env, ls[i]);
    TextBack(env, ls, i);
  }

  /** No step of the recipe loses a "=". */
  ghost predicate AllKeep(s: seq<Action>)
    requires AllLabelled(s)
  {
    forall i :: 0 <= i < |s| ==> LineKeeps(LinesOf(s)[i])
  }

  lemma {:induction false} StepTextStableIff(env: Env, s: seq<Action>, i: nat)
    requires WritableRecipe(s) && i < |s|
    ensures AllLabelled(ReadBackRecipe(env, s))
    ensures PrintedSteps(ReadBackRecipe(env, s))[i] == PrintedSteps(s)[i] <==> LineKeeps(LinesOf(s)[i])
  {
    hide StateLabels, ReadLines, LineBack, LineText, PrintStep, LineKeeps, LinesOf, ValidAction, Labelled, WritableLine;
    LineTextIsStep(s);
    LineAt(s, i);
    TextBack(env, LinesOf(s), i);
    LineStableIff(env, LinesOf(s)[i]);
  }

  // ----- nothing is lost exactly if every shape and policy has a form ---------------------------

  lemma PiecesSurviveIff(env: Env, ps: seq<Piece>)
    requires WritablePieces(ps)
    ensures SamePieces(ps, ReadBackAll(env, ps)) <==> forall k :: 0 <= k < |ps| ==> KeepsMeaning(env, ps[k])
  {
    hide SamePiece, KeepsMeaning, WritablePiece, ReadBackPiece;
    forall k | 0 <= k < |ps| ensures SamePiece(ps[k], ReadBackAll(env, ps)[k]) <==> KeepsMeaning(env, ps[k]) {
      PieceSurvivesIff(env, ps[k]);
    }
  }

  /**
   The step shows the same pieces, has the same ingredients, tools, timers and temperatures, consumes the same steps in
   the same order, makes a state of the same name, and says as much beside it.
   */
  ghost predicate SameStep(s: seq<Action>, b: seq<Action>, i: nat)
    requires AllLabelled(s) && AllLabelled(b) && i < |s| == |b|
  {
    && SamePieces(Pieces(s[i], StateLabels(s)), Pieces(b[i], StateLabels(b))) && SameLists(s[i], b[i])
    && SameInputs(s, b, i) && SameUses(s, b, i)
    && b[i].produces.name == s[i].produces.name && b[i].verb == s[i].verb && b[i].notes == s[i].notes
  }

  /**
   Every piece has a form in the text that keeps its meaning, the step's lists and its uses are what it shows, and there
   is no verb and no note for it to lose.
   */
  ghost predicate StepKeepsMeaning(env: Env, s: seq<Action>, i: nat)
    requires AllLabelled(s) && i < |s|
  {
    && AllKeepMeaning(env, Pieces(s[i], StateLabels(s))) && ListsShown(s[i], StateLabels(s))
    && UsesShown(s[i]) && s[i].verb.None? && s[i].notes.None?
  }

  lemma ShownSurvivesIff(env: Env, s: seq<Action>, i: nat)
    requires WritableRecipe(s) && ProducersFirst(s) && SingleWriter(s) && i < |s| && StepReferable(s, i)
    ensures AllLabelled(ReadBackRecipe(env, s))
    ensures SamePieces(Pieces(s[i], StateLabels(s)),
                       Pieces(ReadBackRecipe(env, s)[i], StateLabels(ReadBackRecipe(env, s)))) <==>
            AllKeepMeaning(env, Pieces(s[i], StateLabels(s)))
  {
    hide ReadLines, StateLabels, Pieces, KeepsMeaning, SamePieces, Labelled, ValidAction, InDocumentOrder, ValidRecipe,
      TrimmedPieces, SortedActions, StepReferable, LinesOf, WritableLines, StepReads, ReadBackAll, WritablePieces;
    LineAt(s, i);
    PrintedParses(env, s);
    ReferableReads(env, s, i);
    PiecesComeBack(env, s, i);
    PiecesSurviveIff(env, Pieces(s[i], StateLabels(s)));
  }

  /**
   A step means the same after the round trip exactly if the text has a form for each of its pieces, it shows every
   item of its lists and every input once and in order, and each of its inputs has a name that no step in between takes.
   */
  lemma {:induction false} MeaningSurvivesIff(env: Env, s: seq<Action>, i: nat)
    requires WritableRecipe(s) && ProducersFirst(s) && SingleWriter(s) && i < |s|
    ensures AllLabelled(ReadBackRecipe(env, s))
    ensures SameStep(s, ReadBackRecipe(env, s), i) <==> StepKeepsMeaning(env, s, i) && StepReferable(s, i)
  {
    hide ReadLines, StateLabels, Pieces, AllKeepMeaning, SamePieces, Labelled, ValidAction, InDocumentOrder,
      ValidRecipe, SortedActions, SameInputs, StepReferable, LinesOf, WritableLines, WritableLine, StepReads, SameLists,
      ListsShown, ItemsKeepMeaning, SameUses, UsesShown;
    LineAt(s, i);
    PrintedParses(env, s);
    EdgesComeBackIff(env, s, i);
    ReadAt(env, LinesOf(s), i);
    ListsComeBackIff(env, s, i);
    if StepReferable(s, i) {
      ShownSurvivesIff(env, s, i);
      UsesComeBackIff(env, s, i);
      if StepKeepsMeaning(env, s, i) {
        ShownKeepsItems(env, s, i);
      }
    }
  }

  /** Both steps have prose, which says the same piece by piece. */
  ghost predicate SameProse(s: seq<Action>, b: seq<Action>, i: nat)
    requires AllLabelled(s) && AllLabelled(b) && i < |s| == |b|
  {
    && s[i].text.Some? && b[i].text.Some?
    && SamePieces(BodyPieces(s[i], StateLabels(s)), BodyPieces(b[i], StateLabels(b)))
  }

  /** The step has prose, and its prose places every state it uses. */
  predicate ProseComplete(a: Action) {
    a.text.Some? && LeadingUses(a.uses, ChunkStates(a)) == []
  }

  lemma BodyIsAll(a: Action, labels: map<string, string>)
    requires ValidAction(a) && Labelled(a, labels)
    ensures |Pieces(a, labels)| == |LeadingUses(a.uses, ChunkStates(a))| + |BodyPieces(a, labels)|
    ensures LeadingUses(a.uses, ChunkStates(a)) == [] ==> Pieces(a, labels) == BodyPieces(a, labels)
  {
    hide ValidAction, BodyPieces;
    assert LeadingPieces([], labels) == [];
  }

  /** The step's prose means the same as well exactly if it has prose, and its prose places every state it uses. */
  lemma {:induction false} ProseSurvivesIff(env: Env, s: seq<Action>, i: nat)
    requires WritableRecipe(s) && ProducersFirst(s) && SingleWriter(s) && i < |s|
    ensures AllLabelled(ReadBackRecipe(env, s))
    ensures var b := ReadBackRecipe(env, s);
            SameStep(s, b, i) && SameProse(s, b, i) <==>
              StepKeepsMeaning(env, s, i) && StepReferable(s, i) && ProseComplete(s[i])
  {
    hide ReadLines, StateLabels, Pieces, StepKeepsMeaning, SamePiece, Labelled, ValidAction, InDocumentOrder,
      ValidRecipe, SortedActions, SameInputs, StepReferable, LinesOf, WritableLines, WritableLine, SameLists,
      BodyPieces, LeadingUses;
    var b := ReadBackRecipe(env, s);
    LineAt(s, i);
    PrintedParses(env, s);
    MeaningSurvivesIff(env, s, i);
    NothingLeading(env, LinesOf(s), i);
    HasProse(env, LinesOf(s), i);
    BodyIsAll(s[i], StateLabels(s));
    BodyIsAll(b[i], StateLabels(b));
  }

  // ----- the theorem ------------------------------------------------------------------------------

  /** Step i of b is what the text says of step i: its place, its name and its pieces as they are read. */
  ghost predicate StepCameBack(env: Env, s: seq<Action>, b: seq<Action>, i: nat)
    requires AllLabelled(s) && AllLabelled(b) && i < |s| == |b|
  {
    && b[i].order == i && b[i].produces.name == s[i].produces.name
    && Pieces(b[i], StateLabels(b)) == ReadBackAll(env, StepReads(env, s, i))
    && (StepReferable(s, i) ==> StepReads(env, s, i) == Pieces(s[i], StateLabels(s)))
  }

  lemma CameBack(env: Env, s: seq<Action>, i: nat)
    requires WritableRecipe(s) && ProducersFirst(s) && SingleWriter(s) && i < |s|
    ensures AllLabelled(ReadBackRecipe(env, s)) && StepCameBack(env, s, ReadBackRecipe(env, s), i)
  {
    hide ReadLines, StateLabels, Pieces, ReadBackAll, Labelled, ValidAction, InDocumentOrder, ValidRecipe, StateId,
      StepReads, StepReferable, WritableLines, LinesOf, SortedActions, ProducersFirst;
    PrintedParses(env, s);
    PiecesComeBack(env, s, i);
    LineAt(s, i);
    ReadAt(env, LinesOf(s), i);
    if StepReferable(s, i) {
      ReferableReads(env, s, i);
    }
  }

  /**
   Printing a recipe whose steps can be written and parsing the text succeeds. The steps come back in the sorted
   order with their names and their pieces as read; a step has the inputs it had exactly if each can be referred to;
   the recipe is already sorted, and it prints the same text exactly if no "=" is lost.
   */
  lemma {:induction false} ParsePrint(env: Env, actions: seq<Action>)
    requires ValidRecipe(actions) && WritableRecipe(SortedActions(actions))
    ensures var s := SortedActions(actions);
            var b := ReadBackRecipe(env, s);
            && ParseCook(env, PrintCook(actions)) == Success(b)
            && ValidRecipe(b) && SortedActions(b) == b && AllLabelled(b)
            && (forall i :: 0 <= i < |s| ==> StepCameBack(env, s, b, i))
            && (forall i :: 0 <= i < |s| ==> (SameInputs(s, b, i) <==> StepReferable(s, i)))
            && (PrintCook(b) == PrintCook(actions) <==> AllKeep(s))
  {
    var s := SortedActions(actions);
    SortedDistinct(actions);
    hide ReadLines, ValidRecipe, StateLabels, JoinSteps, PrintedSteps, StepCameBack, AllLabelled, SortedActions,
      InDocumentOrder, LinesOf, WritableLines, ProducersFirst, SingleWriter, SameInputs, StepReferable, LineKeeps,
      LineTexts;
    PrintedParses(env, s);
    LineTextIsStep(s);
    DocumentStableIff(env, LinesOf(s));
    forall i | 0 <= i < |s| ensures StepCameBack(env, s, ReadBackRecipe(env, s), i) {
      CameBack(env, s, i);
    }
    forall i | 0 <= i < |s| ensures SameInputs(s, ReadBackRecipe(env, s), i) <==> StepReferable(s, i) {
      EdgesComeBackIff(env, s, i);
    }
  }
}
