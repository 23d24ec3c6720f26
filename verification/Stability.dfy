/** Exactly when the text and the meaning of a step survive parsing what was printed. */
module Stability {
  import opened Wrappers
  import opened Text
  import opened Decimals
  import opened Schema
  import opened QuantityText
  import opened StepText
  import opened Scanner
  import opened Printer
  import opened TokenText
  import opened StepRoundTrip
  import opened StepLines

  // ----- the "=" of a token ---------------------------------------------------------------

  /** The parser gives the quantity a policy that prints the "=" exactly if this one does. */
  predicate KeepsMark(p: Piece) {
    p.Ingredient? && p.quantity.Some? ==>
      var fixed := p.quantity.value.scaling.Invariant?;
      match p.quantity.value.quantity
      case Approx(_, _, _) => fixed
      case Scalar(_, Some(u)) => SizeOf(u.surface).Some? ==> !fixed
      case Scalar(_, None) => true
      case Range(_, _, unit) => unit.None? ==> !fixed
      case Count(_, top, size) => top.Some? || size.Some? ==> !fixed
  }

  lemma MarkOfReadBack(env: Env, p: Piece)
    requires p.Ingredient? && WritablePiece(p)
    ensures KeepsMark(p) <==> Modifiers(ReadBackPiece(env, p).quantity, p.optional) == Modifiers(p.quantity, p.optional)
    ensures PrintSpec(ReadBackPiece(env, p).quantity) == PrintSpec(p.quantity)
  {
    if p.quantity.Some? {
      QuantityTextStable(env, p.quantity.value.quantity);
      MarkKept(env, p.quantity.value);
    }
    hide PrintQuantity, Encode, Plain, ReadBackSpec, Writable;
  }

  lemma MarkKept(env: Env, s: Spec)
    requires Writable(s.quantity)
    ensures KeepsMark(Ingredient("", Some(s), false, Aside(None, None, None))) <==>
            (ReadBackSpec(env, s).scaling.Invariant? <==> s.scaling.Invariant?)
  {
    hide Encode, Plain, IsNegative;
  }

  /** Texts of the same ingredient with and without "=" differ inside the token. */
  lemma MarkShows(p: Piece, q: Piece, s: string, t: string)
    requires p.Ingredient? && q.Ingredient? && q.name == p.name && q.optional == p.optional
    requires p.name != "" ==> !IsModifier(p.name[0])
    requires Modifiers(p.quantity, p.optional) != Modifiers(q.quantity, p.optional)
    ensures PrintPiece(p) + s != PrintPiece(q) + t
  {
    var a, b := PrintPiece(p) + s, PrintPiece(q) + t;
    var m := 1 + if p.optional then 1 else 0;
    MarkAt(p.name, p.quantity, p.optional, p.aside, s);
    MarkAt(p.name, q.quantity, p.optional, q.aside, t);
    assert (a[m] == '=') != (b[m] == '=');
  }

  lemma MarkAt(name: string, q: Option<Spec>, optional: bool, aside: Aside, s: string)
    requires name != "" ==> !IsModifier(name[0])
    ensures var a, m := PrintPiece(Ingredient(name, q, optional, aside)) + s, 1 + if optional then 1 else 0;
            m < |a| && (a[m] == '=' <==> q.Some? && q.value.scaling.Invariant?)
  {
    hide PrintSpec;
    var a, mods := PrintPiece(Ingredient(name, q, optional, aside)) + s, Modifiers(q, optional);
    assert a == "@" + mods + (name + "{" + PrintSpec(q) + "}" + s);
    var m := 1 + if optional then 1 else 0;
    if !(q.Some? && q.value.scaling.Invariant?) {
      assert |mods| == m - 1;
      assert a[m] == (name + "{" + PrintSpec(q) + "}" + s)[0];
    }
  }

  lemma PieceStable(env: Env, p: Piece)
    requires WritablePiece(p) && KeepsMark(p)
    ensures PrintPiece(ReadBackPiece(env, p)) == PrintPiece(p)
  {
    hide Encode, Plain, PrintSpec, PrintQuantity, Modifiers, ReadBackSpec, ReadBackUse, Writable, KeepsMark;
    match p
    case Ingredient(_, _, _, _) => MarkOfReadBack(env, p);
    case Tool(_, amount, _) =>
      if amount.Some? {
        PlainTextSame(amount.value);
      }
    case Duration(t) => QuantityTextStable(env, t.quantity);
    case Heat(t) => PlainTextSame(t.value);
    case _ =>
  }

  lemma PieceUnstable(env: Env, p: Piece, s: string, t: string)
    requires WritablePiece(p) && !KeepsMark(p)
    ensures PrintPiece(p) + s != PrintPiece(ReadBackPiece(env, p)) + t
  {
    MarkOfReadBack(env, p);
    MarkShows(p, ReadBackPiece(env, p), s, t);
    hide PrintPiece, Modifiers, PrintSpec, KeepsMark, ReadBackUse;
  }

  lemma CancelPrefix(a: string, s: string, t: string)
    ensures a + s == a + t <==> s == t
  {
    if a + s == a + t {
      DropPrefix(a, s);
      DropPrefix(a, t);
    }
  }

  lemma ReadBackTail(env: Env, ps: seq<Piece>)
    requires ps != []
    ensures ReadBackAll(env, ps)[0] == ReadBackPiece(env, ps[0])
            && ReadBackAll(env, ps)[1..] == ReadBackAll(env, ps[1..])
  {
    hide ReadBackPiece;
  }

  /** The printed pieces print the same after the round trip exactly if every "=" is kept. */
  lemma {:induction false} PiecesStableIff(env: Env, ps: seq<Piece>)
    requires forall k :: 0 <= k < |ps| ==> WritablePiece(ps[k])
    ensures PrintPieces(ReadBackAll(env, ps)) == PrintPieces(ps) <==> forall k :: 0 <= k < |ps| ==> KeepsMark(ps[k])
  {
    if ps != [] {
      var p, rest := ps[0], ps[1..];
      ReadBackTail(env, ps);
      assert forall k :: 0 <= k < |rest| ==> rest[k] == ps[k + 1];
      PiecesStableIff(env, rest);
      hide PrintPiece, KeepsMark, WritablePiece, ReadBackPiece, ReadBackAll;
      if KeepsMark(p) {
        PieceStable(env, p);
        CancelPrefix(PrintPiece(p), PrintPieces(rest), PrintPieces(ReadBackAll(env, rest)));
        assert forall k :: 1 <= k < |ps| ==> ps[k] == rest[k - 1];
      } else {
        PieceUnstable(env, p, PrintPieces(rest), PrintPieces(ReadBackAll(env, rest)));
      }
    }
  }

  // ----- the line of a step that came back -------------------------------------------------

  lemma ReadBackLinePiece(env: Env, p: Piece)
    requires WritablePiece(p)
    ensures LinePiece(ReadBackPiece(env, p))
  {
    hide KeepsMark, PrintSpec, ReadBackUse, Modifiers, Writable, PrintPiece, Encode, ReadBackQuantity, ValidQuantity;
    if KeepsMark(p) {
      PieceStable(env, p);
      WritableIsLine(p);
    } else {
      assert p.Ingredient? by {
        NoMarkIsIngredient(p);
      }
      MarkOfReadBack(env, p);
      SpecClean(p.quantity);
      ModifierFlags(ReadBackPiece(env, p).quantity, p.optional);
      IngredientLine(ReadBackPiece(env, p));
    }
  }

  lemma NoMarkIsIngredient(p: Piece)
    ensures !KeepsMark(p) ==> p.Ingredient?
  {
  }

  lemma IngredientLine(p: Piece)
    requires p.Ingredient? && '\n' !in p.name && '\n' !in PrintSpec(p.quantity)
    ensures LinePiece(p)
  {
    ModifierFlags(p.quantity, p.optional);
    hide PrintSpec, Modifiers;
  }

  lemma ReadBackLine(env: Env, ps: seq<Piece>, name: Option<string>)
    requires TrimmedPieces(ps) && WritablePieces(ps) && (name.Some? ==> IsProducedName(name.value))
    ensures IsLine(PrintPieces(ReadBackAll(env, ps)) + Suffix(name))
  {
    hide LinePiece, WritablePiece, PrintPieces, TrimmedPieces, IsLine, Suffix, ReadBackPiece;
    var qs := ReadBackAll(env, ps);
    TrimmedAgain(env, ps);
    forall k | 0 <= k < |qs| ensures LinePiece(qs[k]) {
      ReadBackLinePiece(env, ps[k]);
    }
    PiecesTrimmed(qs);
    SuffixTrimmed(PrintPieces(qs), name);
  }

  lemma TrimmedAgain(env: Env, ps: seq<Piece>)
    requires TrimmedPieces(ps)
    ensures TrimmedPieces(ReadBackAll(env, ps))
  {
    hide NoOwnArrow, IsSpace, ReadBackPiece;
    ProseBack(env, ps[0]);
    ProseBack(env, ps[|ps| - 1]);
  }

  lemma ProseBack(env: Env, p: Piece)
    ensures var r := ReadBackPiece(env, p); r.Prose? == p.Prose? && (r.Prose? ==> r == p)
  {
    hide ReadBackUse, ReadBackQuantity;
  }

  // ----- the meaning of a piece --------------------------------------------------------------

  /**
   The piece says the same: names, marks, numerically equal amounts, units, tokens, policies, and what stands beside
   it.
   */
  predicate SamePiece(p: Piece, q: Piece) {
    match (p, q)
    case (Prose(s), Prose(t)) => s == t
    case (Ingredient(m, s, o, a), Ingredient(n, t, u, b)) =>
      m == n && o == u && a == b && s.Some? == t.Some? && (s.Some? ==> SameSpec(s.value, t.value))
    case (Tool(m, s, a), Tool(n, t, b)) =>
      m == n && a == b && s.Some? == t.Some? && (s.Some? ==> Value(s.value) == Value(t.value))
    case (State(m), State(n)) => m == n
    case (Duration(s), Duration(t)) => s.name == t.name && SameQuantity(s.quantity, t.quantity)
    case (Heat(s), Heat(t)) => Value(s.value) == Value(t.value) && s.unit == t.unit
    case _ => false
  }

  /**
   The text has a form for the quantity and the policy, the lookups give its unit, token and ingredient, and there is
   nothing beside the text.
   */
  predicate KeepsMeaning(env: Env, p: Piece) {
    match p
    case Ingredient(name, q, _, aside) =>
      && (q.Some? ==> Expressible(q.value.quantity) && PolicyKept(q.value) && LookedUp(env, q.value.quantity))
      && aside == Aside(env.resolveName(name), None, None)
    case Tool(_, _, notes) => notes.None?
    case Duration(t) => LookedUp(env, t.quantity)
    case _ => true
  }

  lemma DurationSurvives(env: Env, q: Quantity)
    requires WritableDuration(q)
    ensures SameQuantity(q, ReadBackQuantity(env, q)) <==> LookedUp(env, q)
  {
    var s := Spec(q, Linear);
    SpecSurvivesIff(env, s);
    hide Writable, ValidQuantity, Value, Plain;
  }

  lemma {:induction false} PieceSurvivesIff(env: Env, p: Piece)
    requires WritablePiece(p)
    ensures SamePiece(p, ReadBackPiece(env, p)) <==> KeepsMeaning(env, p)
  {
    hide LookedUp, SameQuantity, ReadBackQuantity, Value, Plain, Expressible, PolicyKept, ReadBackSpec, SameSpec;
    match p
    case Ingredient(_, q, _, _) =>
      if q.Some? {
        SpecSurvivesIff(env, q.value);
      }
    case Tool(_, amount, _) =>
      if amount.Some? {
        PlainValue(amount.value);
      }
    case Duration(t) => DurationSurvives(env, t.quantity);
    case Heat(t) => PlainValue(t.value);
    case _ =>
  }

  /** A kept meaning is a kept "="; the converse fails, since a unitless amount prints like a count. */
  lemma {:induction false} MeaningKeepsMark(env: Env, p: Piece)
    requires WritablePiece(p) && KeepsMeaning(env, p)
    ensures KeepsMark(p)
  {
    hide Writable, ValidQuantity, LookedUp;
  }

  /** One round trip is enough: what came back always keeps its "=" from then on. */
  lemma {:induction false} ReadBackKeepsMark(env: Env, p: Piece)
    requires WritablePiece(p)
    ensures KeepsMark(ReadBackPiece(env, p))
  {
    hide Plain;
  }
}
