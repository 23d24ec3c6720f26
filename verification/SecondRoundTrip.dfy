/** What came back, printed and parsed once more: the text never changes again, and when the dialect is not left. */
module SecondRoundTrip {
  import opened Wrappers
  import opened Text
  import opened Decimals
  import opened Schema
  import opened QuantityText
  import opened StepText
  import opened Scanner
  import opened ActionGraph
  import opened Kahn
  import opened SortLaws
  import opened Printer
  import opened Parser
  import opened ParserLaws
  import opened TokenText
  import opened StepRoundTrip
  import opened StepLines
  import opened LineLaws
  import opened Stability
  import opened RoundTrip
  import opened RoundTripTheorem

  lemma PlainOrdered(low: Dec, high: Dec)
    requires Value(low) <= Value(high)
    ensures Value(Plain(low)) <= Value(Plain(high)) && IsNegative(Plain(low)) == IsNegative(low)
  {
    PlainValue(low);
    PlainValue(high);
    hide Value, Plain, IsNegative;
  }

  lemma ReadBackQuantityWritable(env: Env, q: Quantity)
    requires ValidQuantity(q) && Writable(q)
    ensures ValidQuantity(ReadBackQuantity(env, q)) && Writable(ReadBackQuantity(env, q))
  {
    hide Plain, Value, IsNumber, IsNegative, SizeOf, WritableSurface;
    match q
    case Scalar(v, _) => PlainValue(v);
    case Range(low, high, _) => PlainOrdered(low, high);
    case Count(v, None, _) => PlainValue(v);
    case Count(v, Some(top), _) => PlainOrdered(v, top);
    case Approx(_, _, _) =>
  }

  lemma DurationShape(env: Env, q: Quantity)
    requires WritableDuration(q)
    ensures var r := ReadBackQuantity(env, q);
            && q.Scalar? == r.Scalar? && q.Range? == r.Range? && (r.Scalar? || r.Range?)
            && r.unit.Some? && q.unit.Some? && r.unit.value.surface == q.unit.value.surface
  {
    hide Plain, ValidQuantity, IsNegative;
  }

  // ----- an ingredient named "&" ---------------------------------------------------------------

  /** Printed, the piece reads like a state reference: an ingredient named "&" without marks. */
  predicate LooksLikeState(p: Piece) {
    p.Ingredient? && p.name == "&" && Modifiers(p.quantity, p.optional) == ""
  }

  /** An ingredient named "&" has another mark than the "=", or keeps it. */
  predicate StaysIngredient(p: Piece) {
    p.Ingredient? && p.name == "&" && !p.optional ==> KeepsMark(p)
  }

  lemma ReadBackLooksIff(env: Env, p: Piece)
    requires WritablePiece(p)
    ensures LooksLikeState(ReadBackPiece(env, p)) <==> !StaysIngredient(p)
  {
    hide ReadBackQuantity, Writable, ValidQuantity, PrintSpec, ReadBackSpec, Modifiers, KeepsMark;
    if p.Ingredient? {
      ModifierFlags(ReadBackPiece(env, p).quantity, p.optional);
      if p.name == "&" && !p.optional {
        MarkOfReadBack(env, p);
        OneMark(p.quantity, ReadBackPiece(env, p).quantity);
      }
    }
  }

  lemma OneMark(q: Option<Spec>, r: Option<Spec>)
    requires Modifiers(q, false) != ""
    ensures Modifiers(r, false) == "" <==> Modifiers(r, false) != Modifiers(q, false)
  {
  }

  lemma ReadBackWritable(env: Env, p: Piece)
    requires WritablePiece(p) && StaysIngredient(p)
    ensures WritablePiece(ReadBackPiece(env, p))
  {
    ReadBackLooksIff(env, p);
    hide ReadBackQuantity, Plain, Writable, ValidQuantity, Modifiers, KeepsMark, StaysIngredient;
    match p
    case Ingredient(_, q, _, _) =>
      if q.Some? {
        ReadBackQuantityWritable(env, q.value.quantity);
      }
    case Duration(t) =>
      ReadBackQuantityWritable(env, t.quantity);
      DurationShape(env, t.quantity);
    case _ =>
  }

  /** A piece that came back can be written again exactly if it is not an "&" that lost its only mark. */
  lemma {:induction false} WritableAgainIff(env: Env, p: Piece)
    requires WritablePiece(p)
    ensures WritablePiece(ReadBackPiece(env, p)) <==> StaysIngredient(p)
  {
    ReadBackLooksIff(env, p);
    if StaysIngredient(p) {
      ReadBackWritable(env, p);
    }
  }

  /** The piece as the parser meets it in the text. */
  function Literally(p: Piece): Piece {
    if LooksLikeState(p) then State(PrintSpec(p.quantity)) else p
  }

  lemma LiteralText(p: Piece)
    ensures PrintPiece(Literally(p)) == PrintPiece(p)
  {
    hide PrintSpec;
    if LooksLikeState(p) {
      var body := PrintSpec(p.quantity);
      assert "@" + "" + "&" + "{" + body + "}" == "@&{" + body + "}";
    }
  }

  /** Free of white space and of the characters that mark tokens. */
  predicate Solid(s: string) {
    forall i :: 0 <= i < |s| ==> !IsSpecial(s[i]) && !IsSpace(s[i])
  }

  lemma SolidConcat(a: string, b: string)
    requires Solid(a) && Solid(b)
    ensures Solid(a + b)
  {
  }

  lemma NumberSolid(d: Dec)
    ensures Solid(Encode(d)) && Encode(d) != ""
  {
    EncodeShape(d);
  }

  lemma SolidIsName(s: string)
    requires s != "" && Solid(s)
    ensures IsProducedName(s)
  {
    assert IsSpace('\n');
  }

  /** The body of an "&" that loses its "=" is a number and a size, or a counted range. */
  lemma LostMarkBody(env: Env, p: Piece)
    requires WritablePiece(p) && !StaysIngredient(p)
    ensures p.Ingredient? && IsProducedName(PrintSpec(p.quantity))
  {
    hide Encode, Value, IsNumber, IsProducedName;
    var q := p.quantity.value.quantity;
    match q
    case Scalar(v, Some(u)) =>
      SizedSolid(v, u.surface);
    case Range(low, high, _) =>
      BoundsSolid(low, high);
    case Count(v, top, size) =>
      if size.Some? {
        SizeRoundTrip(size.value);
        SizedSolid(v, SizeText(size.value));
      } else {
        BoundsSolid(v, top.value);
      }
    case _ =>
  }

  lemma BoundsSolid(low: Dec, high: Dec)
    ensures IsProducedName(Encode(low) + "-" + Encode(high))
  {
    hide Encode, IsProducedName;
    NumberSolid(low);
    NumberSolid(high);
    assert Solid("-");
    SolidConcat(Encode(low), "-");
    SolidConcat(Encode(low) + "-", Encode(high));
    SolidIsName(Encode(low) + "-" + Encode(high));
  }

  lemma SizedSolid(v: Dec, surface: string)
    requires SizeOf(surface).Some?
    ensures IsProducedName(Encode(v) + "%" + surface)
  {
    hide Encode, IsProducedName;
    NumberSolid(v);
    assert Solid("%") && Solid(surface);
    SolidConcat(Encode(v), "%");
    SolidConcat(Encode(v) + "%", surface);
    SolidIsName(Encode(v) + "%" + surface);
  }

  /** Whatever a writable piece comes back as, its text is that of a writable piece, which loses nothing more. */
  lemma {:induction false} LiteralWritable(env: Env, p: Piece)
    requires WritablePiece(p)
    ensures var r := Literally(ReadBackPiece(env, p)); WritablePiece(r) && KeepsMark(r)
  {
    hide KeepsMark, WritablePiece, StaysIngredient, LooksLikeState, PrintSpec;
    ReadBackLooksIff(env, p);
    ReadBackKeepsMark(env, p);
    if StaysIngredient(p) {
      ReadBackWritable(env, p);
    } else {
      LostMarkBody(env, p);
      LostSpecText(env, p);
      StateWritable(PrintSpec(p.quantity));
    }
  }

  lemma StateWritable(name: string)
    requires IsProducedName(name)
    ensures WritablePiece(State(name)) && KeepsMark(State(name))
  {
  }

  lemma LostSpecText(env: Env, p: Piece)
    requires WritablePiece(p) && !StaysIngredient(p)
    ensures p.Ingredient? && PrintSpec(ReadBackPiece(env, p).quantity) == PrintSpec(p.quantity)
  {
    MarkOfReadBack(env, p);
  }

  // ----- the text after one round trip ------------------------------------------------------------

  function LiteralPieces(env: Env, ps: seq<Piece>): (qs: seq<Piece>)
    ensures |qs| == |ps|
  {
    seq(|ps|, k requires 0 <= k < |ps| => Literally(ReadBackPiece(env, ps[k])))
  }

  /** The line of the text after one round trip. */
  function SettledLine(env: Env, l: Line): Line {
    Line(LiteralPieces(env, l.pieces), l.name)
  }

  function SettledLines(env: Env, ls: seq<Line>): (r: seq<Line>)
    ensures |r| == |ls|
  {
    seq(|ls|, k requires 0 <= k < |ls| => SettledLine(env, ls[k]))
  }

  lemma {:induction false} SamePrints(ps: seq<Piece>, qs: seq<Piece>)
    requires |ps| == |qs| && forall k :: 0 <= k < |ps| ==> PrintPiece(ps[k]) == PrintPiece(qs[k])
    ensures PrintPieces(ps) == PrintPieces(qs)
  {
    hide PrintPiece;
    if ps != [] {
      assert forall k :: 0 <= k < |ps| - 1 ==> ps[1..][k] == ps[k + 1] && qs[1..][k] == qs[k + 1];
      SamePrints(ps[1..], qs[1..]);
    }
  }

  lemma SettledText(env: Env, l: Line)
    ensures LineText(SettledLine(env, l)) == LineText(LineBack(env, l))
  {
    hide PrintPiece, Literally, ReadBackPiece;
    var ps, qs := LiteralPieces(env, l.pieces), ReadBackAll(env, l.pieces);
    forall k | 0 <= k < |ps| ensures PrintPiece(ps[k]) == PrintPiece(qs[k]) {
      LiteralText(qs[k]);
    }
    SamePrints(ps, qs);
  }

  lemma SettledWritable(env: Env, l: Line)
    requires WritableLine(l)
    ensures WritableLine(SettledLine(env, l)) && LineKeeps(SettledLine(env, l))
  {
    hide KeepsMark, WritablePiece, Literally, ReadBackPiece, NoOwnArrow, IsProducedName;
    var qs := LiteralPieces(env, l.pieces);
    forall k | 0 <= k < |qs| ensures WritablePiece(qs[k]) && KeepsMark(qs[k]) {
      LiteralWritable(env, l.pieces[k]);
    }
    forall k | 0 <= k < |qs| ensures qs[k].Prose? == l.pieces[k].Prose? && (qs[k].Prose? ==> qs[k] == l.pieces[k]) {
      ProseStays(env, l.pieces[k]);
    }
  }

  lemma ProseStays(env: Env, p: Piece)
    ensures var r := Literally(ReadBackPiece(env, p)); r.Prose? == p.Prose? && (r.Prose? ==> r == p)
  {
    hide ReadBackUse, ReadBackQuantity, PrintSpec;
  }

  /** What was read prints the document of the settled lines. */
  lemma SettledDocument(env: Env, ls: seq<Line>)
    requires WritableLines(ls) && ls != []
    ensures AllLabelled(ReadLines(env, ls))
    ensures JoinSteps(PrintedSteps(ReadLines(env, ls))) + "\n" == DocumentText(SettledLines(env, ls))
  {
    hide WritableLine, ReadLines, LineText, ValidAction, Labelled, StateLabels, PrintStep, JoinSteps, InDocumentOrder,
      ValidRecipe, SortedActions, SettledLine, LineBack;
    DocumentParses(env, ls);
    var x, y := PrintedSteps(ReadLines(env, ls)), LineTexts(SettledLines(env, ls));
    forall i | 0 <= i < |ls| ensures x[i] == y[i] {
      TextBack(env, ls, i);
      SettledText(env, ls[i]);
    }
    assert x == y;
  }

  /** Reading and printing the settled document changes nothing. */
  lemma SettledStays(env: Env, ls: seq<Line>)
    requires WritableLines(ls) && ls != []
    ensures var t := DocumentText(SettledLines(env, ls));
            var c := ParseCook(env, t);
            c.Success? && ValidRecipe(c.value) && PrintCook(c.value) == t
  {
    hide WritableLine, ReadLines, LineText, ValidAction, Labelled, StateLabels, PrintStep, JoinSteps, InDocumentOrder,
      ValidRecipe, SortedActions, SettledLine, LineKeeps, DocumentText;
    var ls' := SettledLines(env, ls);
    forall i | 0 <= i < |ls'| ensures WritableLine(ls'[i]) && LineKeeps(ls'[i]) {
      SettledWritable(env, ls[i]);
    }
    DocumentParses(env, ls');
    DocumentStableIff(env, ls');
  }

  /** Parsing is a normal form of the printed text: a second round trip prints what the first one printed. */
  lemma {:induction false} SecondTripStable(env: Env, actions: seq<Action>)
    requires ValidRecipe(actions) && WritableRecipe(SortedActions(actions))
    ensures var b := ParseCook(env, PrintCook(actions));
            && b.Success? && ValidRecipe(b.value)
            && var c := ParseCook(env, PrintCook(b.value));
               c.Success? && ValidRecipe(c.value) && PrintCook(c.value) == PrintCook(b.value)
  {
    var s := SortedActions(actions);
    SortedDistinct(actions);
    hide ReadLines, ValidRecipe, StateLabels, SortedActions, PrintedSteps, JoinSteps, WritableLines, LinesOf,
      AllLabelled, DocumentText, InDocumentOrder, ProducersFirst, SingleWriter, LineTexts;
    LineTextIsStep(s);
    PrintedParses(env, s);
    SettledDocument(env, LinesOf(s));
    SettledStays(env, LinesOf(s));
  }

  // ----- when the dialect is not left ----------------------------------------------------------------

  /** Every state the step shows is known to the parser, and no "&" of it loses its only mark. */
  ghost predicate StepStays(env: Env, s: seq<Action>, i: nat)
    requires AllLabelled(s) && i < |s|
  {
    var ps := Pieces(s[i], StateLabels(s));
    StatesNamed(ps, NamesAt(env, LinesOf(s), i)) && forall k :: 0 <= k < |ps| ==> StaysIngredient(ps[k])
  }

  /** Some prose holds a sigil. */
  ghost predicate SigilInProse(ps: seq<Piece>) {
    exists k :: 0 <= k < |ps| && ps[k].Prose? && !NoSigil(ps[k].text)
  }

  /** An unknown state reference leaves a sigil in the prose. */
  lemma {:induction false} UnknownLeavesSigil(names: map<string, string>, literal: string, ps: seq<Piece>)
    requires !NoSigil(literal) || !StatesNamed(ps, names)
    ensures SigilInProse(Regroup(names, literal, ps))
    decreases |ps|
  {
    hide PrintPiece, NoSigil, SigilInProse;
    if !NoSigil(literal) {
      SigilJoined(literal);
    }
    if ps != [] {
      var p, rest := ps[0], ps[1..];
      assert ps == [p] + rest;
      if IsRead(names, p) {
        if NoSigil(literal) {
          UnknownLeavesSigil(names, "", rest);
        }
        SigilInPart(Joined(literal), [p], Regroup(names, "", rest));
      } else {
        SigilStays(literal, p);
        UnknownLeavesSigil(names, literal + PrintPiece(p), rest);
      }
    }
  }

  lemma SigilJoined(literal: string)
    requires !NoSigil(literal)
    ensures SigilInProse(Joined(literal))
  {
    assert Joined(literal)[0] == Prose(literal);
  }

  lemma SigilInPart(x: seq<Piece>, y: seq<Piece>, z: seq<Piece>)
    requires SigilInProse(x) || SigilInProse(z)
    ensures SigilInProse(x + y + z)
  {
    hide NoSigil;
    var all := x + y + z;
    assert forall k :: 0 <= k < |x| ==> all[k] == x[k];
    assert forall k :: 0 <= k < |z| ==> all[|x| + |y| + k] == z[k];
    if SigilInProse(x) {
      var k :| 0 <= k < |x| && x[k].Prose? && !NoSigil(x[k].text);
      assert all[k].Prose?;
    } else {
      var k :| 0 <= k < |z| && z[k].Prose? && !NoSigil(z[k].text);
      assert all[|x| + |y| + k].Prose?;
    }
  }

  lemma SigilStays(literal: string, p: Piece)
    requires p.Prose? || p.State?
    ensures (!NoSigil(literal) || p.State?) ==> !NoSigil(literal + PrintPiece(p))
  {
    var t := literal + PrintPiece(p);
    if !NoSigil(literal) {
      var i :| 0 <= i < |literal| && IsSigil(literal[i]);
      assert t[i] == literal[i];
    } else if p.State? {
      assert t[|literal|] == '@';
    }
  }

  lemma SomePieceNotWritable(env: Env, ps: seq<Piece>)
    requires AllWritable(ps)
    ensures AllWritable(ReadBackAll(env, ps)) <==> forall k :: 0 <= k < |ps| ==> StaysIngredient(ps[k])
  {
    hide WritablePiece, StaysIngredient, ReadBackPiece;
    forall k | 0 <= k < |ps| ensures WritablePiece(ReadBackAll(env, ps)[k]) <==> StaysIngredient(ps[k]) {
      WritableAgainIff(env, ps[k]);
    }
  }

  lemma PiecesAgainIff(env: Env, ctx: Context, ps: seq<Piece>)
    requires TrimmedPieces(ps) && WritablePieces(ps) && ctx.env == env
    ensures var qs := ReadBackAll(env, PiecesRead(ctx, ps));
            TrimmedPieces(qs) && WritablePieces(qs)
            <==> StatesNamed(ps, ctx.names) && forall k :: 0 <= k < |ps| ==> StaysIngredient(ps[k])
  {
    hide WritablePiece, StaysIngredient, NoOwnArrow;
    var qs := ReadBackAll(env, PiecesRead(ctx, ps));
    if StatesNamed(ps, ctx.names) {
      RegroupSame(ctx.names, "", ps);
      assert [] + ps == ps;
      SomePieceNotWritable(env, ps);
      forall k | 0 <= k < |ps| ensures qs[k].Prose? == ps[k].Prose? && (qs[k].Prose? ==> qs[k] == ps[k]) {
        ProseBack(env, ps[k]);
      }
    } else {
      UnknownLeavesSigil(ctx.names, "", ps);
      SigilNotWritable(env, PiecesRead(ctx, ps));
    }
  }

  lemma SigilNotWritable(env: Env, ps: seq<Piece>)
    requires SigilInProse(ps)
    ensures !AllWritable(ReadBackAll(env, ps))
  {
    var k :| 0 <= k < |ps| && ps[k].Prose? && !NoSigil(ps[k].text);
    ProseBack(env, ps[k]);
    assert !WritablePiece(ReadBackAll(env, ps)[k]);
  }

  lemma StepAgainIff(env: Env, s: seq<Action>, i: nat)
    requires WritableRecipe(s) && i < |s|
    ensures AllLabelled(ReadBackRecipe(env, s))
    ensures WritableLine(LinesOf(ReadBackRecipe(env, s))[i]) <==> StepStays(env, s, i)
  {
    hide ReadLines, StateLabels, Pieces, Labelled, ValidAction, InDocumentOrder, ValidRecipe, SortedActions,
      TrimmedPieces, WritablePieces, WritableLines, StaysIngredient, StatesNamed, ReadBackAll;
    LineAt(s, i);
    PrintedParses(env, s);
    PiecesComeBack(env, s, i);
    ReadAt(env, LinesOf(s), i);
    PiecesAgainIff(env, LineContext(env, LinesOf(s), i), Pieces(s[i], StateLabels(s)));
  }

  /**
   What comes back can be written again exactly if every step showed known states only and no "&" lost its only mark.
   */
  lemma {:induction false} WritableRecipeAgainIff(env: Env, s: seq<Action>)
    requires WritableRecipe(s) && s != []
    ensures WritableRecipe(ReadBackRecipe(env, s)) <==> forall i :: 0 <= i < |s| ==> StepStays(env, s, i)
  {
    hide ReadLines, StepStays, WritableLine, LinesOf, AllLabelled, ValidRecipe, InDocumentOrder, SortedActions,
      ParseCook, JoinSteps, PrintedSteps;
    PrintedParses(env, s);
    forall i | 0 <= i < |s| ensures WritableLine(LinesOf(ReadBackRecipe(env, s))[i]) <==> StepStays(env, s, i) {
      StepAgainIff(env, s, i);
    }
  }

  /** Every input that comes back can be referred to. */
  lemma {:induction false} ReadIsReferable(env: Env, s: seq<Action>, i: nat)
    requires WritableRecipe(s) && i < |s|
    ensures StepReferable(ReadBackRecipe(env, s), i)
  {
    hide WritableLines, AllLabelled, LinesOf, StateLabels;
    var b := ReadBackRecipe(env, s);
    forall k | 0 <= k < |s| ensures b[k].produces.name == s[k].produces.name {
      LineAt(s, k);
      ReadAt(env, LinesOf(s), k);
    }
    forall j | 0 <= j < i && b[j].produces.id in b[i].uses ensures Referable(b, i, j) {
      EdgesRead(env, s, i, j);
      LeadsIsReferable(s, i, j);
    }
  }

  /** A recipe of the canonical dialect: its steps can be written, and the states they use can be referred to. */
  ghost predicate Canonical(s: seq<Action>) {
    WritableRecipe(s) && forall i :: 0 <= i < |s| ==> StepReferable(s, i)
  }

  ghost predicate NoBareAmpersand(s: seq<Action>, i: nat)
    requires AllLabelled(s) && i < |s|
  {
    forall k :: 0 <= k < |Pieces(s[i], StateLabels(s))| ==> StaysIngredient(Pieces(s[i], StateLabels(s))[k])
  }

  lemma CanonicalStaysIff(env: Env, s: seq<Action>, i: nat)
    requires Canonical(s) && ProducersFirst(s) && SingleWriter(s) && i < |s|
    ensures StepStays(env, s, i) <==> NoBareAmpersand(s, i)
  {
    hide WritableLines, LinesOf, StaysIngredient, Pieces, Labelled, ValidAction, ProducersFirst, SingleWriter;
    LineAt(s, i);
    ReferableReads(env, s, i);
  }

  /** The canonical dialect is closed under the round trip, exactly as long as no "&" loses its only mark. */
  lemma {:induction false} CanonicalAgainIff(env: Env, s: seq<Action>)
    requires Canonical(s) && ProducersFirst(s) && SingleWriter(s) && s != []
    ensures Canonical(ReadBackRecipe(env, s)) <==> forall i :: 0 <= i < |s| ==> NoBareAmpersand(s, i)
  {
    hide WritableRecipe, StepReferable, ReadLines, StepStays, ProducersFirst, SingleWriter, NoBareAmpersand;
    assert AllLabelled(s) by {
      CanonicalLabelled(s);
    }
    WritableRecipeAgainIff(env, s);
    forall i | 0 <= i < |s|
      ensures StepReferable(ReadBackRecipe(env, s), i) && (StepStays(env, s, i) <==> NoBareAmpersand(s, i)) {
      ReadIsReferable(env, s, i);
      CanonicalStaysIff(env, s, i);
    }
  }

  lemma CanonicalLabelled(s: seq<Action>)
    requires Canonical(s)
    ensures AllLabelled(s)
  {
  }
}
