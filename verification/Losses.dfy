/** What the text cannot carry: the failing inputs, each with the exact condition under which nothing is lost. */
module Losses {
  import opened Wrappers
  import opened Text
  import opened Decimals
  import opened Schema
  import opened QuantityText
  import opened Scanner
  import opened ActionGraph
  import opened Kahn
  import opened SortLaws
  import opened Printer
  import opened Parser
  import opened ParserLaws
  import opened TokenText
  import opened StepRoundTrip
  import opened StepLines
  import opened LineLaws
  import opened Stability
  import opened RoundTrip
  import opened StepLists
  import opened SecondRoundTrip

  // ----- unnamed states and repeated names -----------------------------------------------------

  /** The result of a step without a name is consumed by no step of what comes back. */
  lemma {:induction false} UnnamedInputLost(env: Env, s: seq<Action>, i: nat, j: nat)
    requires WritableRecipe(s) && i < |s| && j < |s| && s[j].produces.name.None?
    ensures !Consumes(ReadBackRecipe(env, s), i, j)
  {
    hide WritableLines, AllLabelled, LinesOf, ReadLines;
    EdgesRead(env, s, i, j);
    if LabelLeadsTo(s, i, j) {
      LeadsIsReferable(s, i, j);
      UnnamedNotReferable(s, i, j);
    }
  }

  /**
   A step that uses the unnamed result of step k comes back as a user of step j instead, when j is the last before it
   whose name is the label printed for k.
   */
  lemma {:induction false} InputMisdirected(env: Env, s: seq<Action>, i: nat, j: nat, k: nat)
    requires WritableRecipe(s) && SingleWriter(s) && i < |s| && j < |s| && k < |s|
    requires Consumes(s, i, k) && s[k].produces.name.None?
    requires s[j].produces.name == Some("s" + NatText(k + 1)) && Referable(s, i, j)
    ensures Consumes(ReadBackRecipe(env, s), i, j) && !Consumes(ReadBackRecipe(env, s), i, k)
  {
    UnnamedInputLost(env, s, i, k);
    LabelOf(s, k);
    var u := s[k].produces.id;
    assert u in s[i].uses && Some(StateLabels(s)[u]) == s[j].produces.name;
    hide WritableLines, LinesOf, ReadLines, StateLabels, Referable;
    assert LabelLeadsTo(s, i, j);
    EdgesRead(env, s, i, j);
  }

  // ----- lists --------------------------------------------------------------------------------------

  lemma NoneAmong(ps: seq<Piece>)
    ensures (forall p :: p in ps ==> !p.Tool?) ==> ToolsAmong(ps) == []
    ensures (forall p :: p in ps ==> !p.Duration?) ==> TimersAmong(ps) == []
    ensures (forall p :: p in ps ==> !p.Heat?) ==> HeatsAmong(ps) == []
  {
    hide ToolsAmong, TimersAmong, HeatsAmong, IngredientsAmong;
    AmongMembers(ps);
    assert ToolsAmong(ps) != [] ==> ToolsAmong(ps)[0] in ToolsAmong(ps);
    assert TimersAmong(ps) != [] ==> TimersAmong(ps)[0] in TimersAmong(ps);
    assert HeatsAmong(ps) != [] ==> HeatsAmong(ps)[0] in HeatsAmong(ps);
  }

  lemma OnlyIngredients(a: Action, labels: map<string, string>, p: Piece)
    requires ValidAction(a) && Labelled(a, labels) && a.text.None? && p in Pieces(a, labels)
    ensures p.State? || p.Prose? || p.Ingredient?
  {
    var leading := LeadingUses(a.uses, ChunkStates(a));
    var k :| 0 <= k < |Pieces(a, labels)| && Pieces(a, labels)[k] == p;
    if k >= |leading| {
      assert p == ListedPieces(a.ingredients)[k - |leading|];
      ListedMembers(a.ingredients, p);
    }
  }

  /** A step without prose comes back without its tools, timers and temperatures. */
  lemma {:induction false} WithoutProse(env: Env, s: seq<Action>, i: nat)
    requires WritableRecipe(s) && i < |s| && s[i].text.None?
    ensures var b := ReadBackRecipe(env, s)[i]; b.cookware == [] && b.timers == [] && b.temperatures == []
  {
    LineAt(s, i);
    hide AllLabelled, WritableLines, LinesOf, ReadLines, Pieces, ValidAction, Labelled, StateLabels, ToolsAmong,
      TimersAmong, HeatsAmong, ReadBackPiece, IngredientsAmong, WritableLine;
    var ps := Pieces(s[i], StateLabels(s));
    forall p | p in ps ensures p.State? || p.Prose? || p.Ingredient? {
      OnlyIngredients(s[i], StateLabels(s), p);
    }
    NoneAmong(ps);
    ListsRead(env, s, i);
    EmptyItems(env, s, i);
  }

  lemma EmptyItems(env: Env, s: seq<Action>, i: nat)
    requires WritableRecipe(s) && i < |s|
    requires forall n :: 0 <= n < 4 ==>
               Items(ReadBackRecipe(env, s)[i])[n] == ReadBackAll(env, ShownItems(Pieces(s[i], StateLabels(s)))[n])
    ensures var b, ps := ReadBackRecipe(env, s)[i], Pieces(s[i], StateLabels(s));
            && |b.ingredients| == |IngredientsAmong(ps)| && |b.cookware| == |ToolsAmong(ps)|
            && |b.timers| == |TimersAmong(ps)| && |b.temperatures| == |HeatsAmong(ps)|
  {
    hide AllLabelled, WritableLines, LinesOf, ReadLines, Pieces, ValidAction, Labelled, StateLabels, ToolsAmong,
      TimersAmong, HeatsAmong, ReadBackPiece, IngredientsAmong, ReadBackAll;
    LineAt(s, i);
    var b, ps := ReadBackRecipe(env, s)[i], Pieces(s[i], StateLabels(s));
    assert |Items(b)[0]| == |ShownItems(ps)[0]| && |Items(b)[1]| == |ShownItems(ps)[1]|;
    assert |Items(b)[2]| == |ShownItems(ps)[2]| && |Items(b)[3]| == |ShownItems(ps)[3]|;
  }

  /** The step is its one ingredient, some words, and the ingredient again. */
  predicate ShowsTwice(a: Action, u: IngredientUse, words: string) {
    && a.uses == [] && a.ingredients == [u]
    && a.text == Some([IngredientChunk(u.id), LiteralChunk(words), IngredientChunk(u.id)])
  }

  lemma TwicePieces(a: Action, labels: map<string, string>, u: IngredientUse, words: string)
    requires ValidAction(a) && Labelled(a, labels) && ShowsTwice(a, u, words)
    ensures Pieces(a, labels) == [UsePiece(u), Prose(words), UsePiece(u)]
  {
    assert a.ingredients[0] == u;
    var chunks := a.text.value;
    assert Showable(a, labels, chunks[0]) && Showable(a, labels, chunks[1]);
    assert LeadingUses([], ChunkStates(a)) == [] && LeadingPieces([], labels) == [];
  }

  lemma TwoAmong(p: Piece, words: string)
    requires p.Ingredient?
    ensures IngredientsAmong([p, Prose(words), p]) == [p, p]
  {
    hide IngredientsAmong, ToolsAmong, TimersAmong, HeatsAmong;
    AmongSnoc([p, Prose(words)], p);
    AmongSnoc([p], Prose(words));
    AmongSnoc([], p);
    AmongNothing();
    assert [p, Prose(words)] + [p] == [p, Prose(words), p] && [p] + [Prose(words)] == [p, Prose(words)];
    assert [] + [p] == [p];
  }

  /** An ingredient shown by two chunks comes back as two uses. */
  lemma {:induction false} ShownTwiceDoubles(env: Env, s: seq<Action>, i: nat, u: IngredientUse, words: string)
    requires WritableRecipe(s) && i < |s| && ShowsTwice(s[i], u, words)
    ensures |ReadBackRecipe(env, s)[i].ingredients| == 2 && |s[i].ingredients| == 1
    ensures !SameLists(s[i], ReadBackRecipe(env, s)[i])
  {
    LineAt(s, i);
    hide IngredientsAmong, ToolsAmong, TimersAmong, HeatsAmong, AllLabelled, WritableLines, LinesOf, ReadLines, Pieces,
      ValidAction, Labelled, StateLabels, ReadBackPiece, WritableLine;
    TwicePieces(s[i], StateLabels(s), u, words);
    TwoAmong(UsePiece(u), words);
    ListsRead(env, s, i);
    EmptyItems(env, s, i);
    LengthsDiffer(s[i], ReadBackRecipe(env, s)[i]);
  }

  lemma LengthsDiffer(a: Action, b: Action)
    requires |a.ingredients| != |b.ingredients| || |a.timers| != |b.timers|
    ensures !SameLists(a, b)
  {
    assert |Items(a)[0]| != |Items(b)[0]| || |Items(a)[2]| != |Items(b)[2]|;
  }

  /** A step without prose that takes flour and five minutes. */
  function Rest(env: Env): Action {
    Action(ActionId(1), 0, None, [],
           [IngredientUse("iuse_1", "flour", env.resolveName("flour"), None, false, None, None)], [],
           [Timer(None, Scalar(Dec(false, 5, 0), Some(UnitRef(env.resolveUnit("min"), "min", None))))], [],
           FoodState(StateId(env, 1, None), None), None, None)
  }

  lemma RestShows(env: Env, labels: map<string, string>)
    ensures ValidAction(Rest(env)) && Labelled(Rest(env), labels)
    ensures Pieces(Rest(env), labels) == [UsePiece(Rest(env).ingredients[0])]
  {
    var a := Rest(env);
    assert LeadingUses([], ChunkStates(a)) == [] && LeadingPieces([], labels) == [];
  }

  lemma RestIsValid(env: Env)
    ensures var s := [Rest(env)]; ValidRecipe(s) && SortedActions(s) == s && WritableRecipe(s)
  {
    var s := [Rest(env)];
    RestShows(env, StateLabels(s));
    hide StateLabels, Pieces, ActionId, StateId;
    assert DocumentStep(env, s, 0);
    InOrderIsSorted(env, s);
    assert LinesOf(s)[0] == LineOf(s[0], StateLabels(s));
    assert WritablePiece(Pieces(s[0], StateLabels(s))[0]);
  }

  /** Flour and five minutes without prose: every piece shown keeps its meaning, but the minutes do not come back. */
  lemma {:induction false} RestLosesItsTimer(env: Env)
    ensures var s := [Rest(env)];
            && ValidRecipe(s) && SortedActions(s) == s && WritableRecipe(s) && StepReferable(s, 0)
            && AllKeepMeaning(env, Pieces(s[0], StateLabels(s)))
            && |s[0].timers| == 1 && ReadBackRecipe(env, s)[0].timers == []
            && !SameLists(s[0], ReadBackRecipe(env, s)[0])
  {
    var s := [Rest(env)];
    RestShows(env, StateLabels(s));
    RestIsValid(env);
    hide ValidRecipe, SortedActions, WritableRecipe, ReadBackRecipe, Pieces, StateLabels;
    WithoutProse(env, s, 0);
    LengthsDiffer(s[0], ReadBackRecipe(env, s)[0]);
  }

  // ----- policies -----------------------------------------------------------------------------------

  /** One token prints the same after the round trip exactly if it keeps its "=". */
  lemma {:induction false} TokenStableIff(env: Env, p: Piece)
    requires WritablePiece(p)
    ensures PrintPiece(ReadBackPiece(env, p)) == PrintPiece(p) <==> KeepsMark(p)
  {
    hide KeepsMark, WritablePiece, PrintPiece, ReadBackPiece;
    if KeepsMark(p) {
      PieceStable(env, p);
    } else {
      PieceUnstable(env, p, "", "");
      assert PrintPiece(p) + "" == PrintPiece(p)
        && PrintPiece(ReadBackPiece(env, p)) + "" == PrintPiece(ReadBackPiece(env, p));
    }
  }

  /** Every fixed count with a size or an upper end comes back LINEAR, and prints without its "=". */
  lemma {:induction false} FixedCountLosesMark(env: Env, name: string, q: Quantity, optional: bool, aside: Aside)
    requires WritablePiece(Ingredient(name, Some(Spec(q, Invariant)), optional, aside))
    requires q.Count? && (q.top.Some? || q.size.Some?)
    ensures var p := Ingredient(name, Some(Spec(q, Invariant)), optional, aside);
            && ReadBackPiece(env, p).quantity.Some? && ReadBackPiece(env, p).quantity.value.scaling == Linear
            && PrintPiece(ReadBackPiece(env, p)) != PrintPiece(p)
  {
    hide Writable, Plain, PrintPiece, ValidQuantity;
    TokenStableIff(env, Ingredient(name, Some(Spec(q, Invariant)), optional, aside));
  }

  const TWO := Dec(false, 2, 0)

  /** Two fixed small "&" can be written; what comes back prints as a state reference, which is no ingredient. */
  lemma {:induction false} AmpersandLosesItself(env: Env, aside: Aside)
    ensures var p := Ingredient("&", Some(Spec(Count(TWO, None, Some(Small)), Invariant)), false, aside);
            && WritablePiece(p) && !WritablePiece(ReadBackPiece(env, p))
            && PrintPiece(ReadBackPiece(env, p)) == PrintPiece(State(PrintSpec(p.quantity)))
  {
    var p := Ingredient("&", Some(Spec(Count(TWO, None, Some(Small)), Invariant)), false, aside);
    SizeRoundTrip(Small);
    hide Encode, Plain, LooksLikeState, PrintSpec, PrintPiece;
    WritableAgainIff(env, p);
    ReadBackLooksIff(env, p);
    LiteralText(ReadBackPiece(env, p));
    LostSpecText(env, p);
  }

  /** An amount or a range without a unit is read back as a count. */
  lemma {:induction false} UnitlessBecomesCount(env: Env, q: Quantity, fixed: bool)
    requires ValidQuantity(q) && Writable(q) && (q.Scalar? || q.Range?) && q.unit.None?
    ensures var r := ParseQuantity(env, PrintQuantity(q), fixed);
            r.Success? && r.value.Some? && r.value.value.quantity.Count? && !SameQuantity(q, r.value.value.quantity)
  {
    ParsePrintedQuantity(env, q, fixed);
  }

  // ----- timers ---------------------------------------------------------------------------------------

  lemma NoDashStripped(s: string)
    requires '-' !in s
    ensures '-' !in Strip(s)
  {
    var l := StripLeft(s);
    assert forall i :: 0 <= i < |l| ==> l[i] == s[SpaceSpan(s) + i];
    assert Strip(s) <= l;
  }

  lemma {:induction false} NoDashRemoved(s: string)
    requires '-' !in s
    ensures '-' !in RemoveUnderscores(s)
  {
    if s != "" {
      NoDashRemoved(s[1..]);
    }
  }

  lemma UnsignedNotNegative(s: string)
    ensures ReadUnsigned(false, s).Number? ==> !ReadUnsigned(false, s).value.neg
  {
  }

  /** A number read from a text without "-" is not negative. */
  lemma NoDashNotNegative(s: string)
    requires '-' !in s && ToDecimal(s).Success?
    ensures !IsNegative(ToDecimal(s).value)
  {
    hide ReadUnsigned, Strip, RemoveUnderscores;
    NoDashStripped(s);
    NoDashRemoved(Strip(s));
    var t := RemoveUnderscores(Strip(s));
    UnsignedNotNegative(t);
    if t != "" {
      UnsignedNotNegative(t[1..]);
    }
  }

  /** The lower end of a parsed range is not negative: nothing before the first "-" has one. */
  lemma BoundsNotNegative(number: string)
    requires '-' in number && ParseBounds(number).Success?
    ensures !IsNegative(ParseBounds(number).value.0)
  {
    hide ToDecimal;
    NoDashNotNegative(number[..IndexOf(number, '-')]);
  }

  /** The quantity, printed, parses again, to a duration. */
  predicate Reparses(env: Env, q: Quantity) {
    && (ReadBackQuantity(env, q).Scalar? || ReadBackQuantity(env, q).Range?)
    && ParseQuantity(env, PrintQuantity(q), false) == Success(Some(Spec(ReadBackQuantity(env, q), Linear)))
  }

  lemma WithUnitReparses(env: Env, number: string, surface: string)
    requires Trimmed(surface) && ParseWithUnit(env, number, surface, false).Success?
    ensures var q := ParseWithUnit(env, number, surface, false).value.quantity;
            q.Scalar? || q.Range? ==> Reparses(env, q)
  {
    hide ParseQuantity, ToDecimal, ParseBounds, Encode, Plain, SizeOf;
    if SizeOf(surface).None? {
      var u := UnitRef(env.resolveUnit(surface), surface, None);
      if '-' in number {
        var b := ParseBounds(number).value;
        BoundsNotNegative(number);
        ParsePrintedRange(env, b.0, b.1, u, false);
      } else {
        var v := ToDecimal(number).value;
        NoDashNotNegative(number);
        ParsePrintedScalar(env, v, surface, false);
      }
    }
  }

  /** The quantity of a parsed body is empty, or comes from the part after a "%", or is no duration. */
  lemma DurationReparses(env: Env, body: string)
    requires ParseQuantity(env, body, false).Success? && ParseQuantity(env, body, false).value.Some?
    ensures var q := ParseQuantity(env, body, false).value.value.quantity; q.Scalar? || q.Range? ==> Reparses(env, q)
  {
    hide Reparses, ParseWithUnit, ParseBare, Strip;
    var t := Strip(body);
    var k := IndexOf(t, '%');
    if k < |t| {
      WithUnitReparses(env, Strip(t[..k]), Strip(t[k + 1..]));
    } else {
      BareIsNoDuration(env, t);
    }
  }

  lemma BareIsNoDuration(env: Env, body: string)
    ensures var r := ParseBare(env, body, false); r.Success? ==> r.value.quantity.Count? || r.value.quantity.Approx?
  {
    hide ParseBounds, ToDecimal, IsNumber;
  }

  /** A timer that parses is printed as a timer that parses exactly if its body is not blank. */
  lemma {:induction false} TimerReparsesIff(env: Env, name: string, body: string)
    requires ParseTimer(env, name, body).Success?
    ensures var t := ParseTimer(env, name, body).value;
            var again := ParseTimer(env, name, PrintQuantity(t.quantity));
            && (again.Success? <==> Strip(body) != "")
            && (again.Success? ==> again == Success(Timer(t.name, ReadBackQuantity(env, t.quantity))))
  {
    hide ParseQuantity, ReadBackQuantity, Encode, Plain, PrintQuantity, Strip;
    if Strip(body) == "" {
      EmptyTimerDoesNotReparse(env, name, body);
    } else {
      NotBlank(env, body);
      DurationReparses(env, body);
    }
  }

  lemma NotBlank(env: Env, body: string)
    requires Strip(body) != "" && ParseQuantity(env, body, false).Success?
    ensures ParseQuantity(env, body, false).value.Some?
  {
    hide ParseWithUnit, ParseBare;
  }

  /** A timer with a blank body parses, but what it prints does not parse again. */
  lemma {:induction false} EmptyTimerDoesNotReparse(env: Env, name: string, body: string)
    requires Strip(body) == ""
    ensures var t := ParseTimer(env, name, body);
            && t.Success? && PrintQuantity(t.value.quantity) == "0"
            && ParseTimer(env, name, PrintQuantity(t.value.quantity)) == Failure(TimerNeedsUnit)
  {
    assert Encode(ZERO) == "0";
    ParsePrintedCount(env, ZERO, false);
  }
}
