/** Scanning a printed token gives back that token: one lemma for each kind of token. */
module TokenText {
  import opened Wrappers
  import opened Text
  import opened Decimals
  import opened Schema
  import opened QuantityText
  import opened StepText
  import opened Scanner
  import opened Printer

  // ----- pieces the dialect can write ---------------------------------------------------

  predicate NoSigil(s: string) {
    forall i :: 0 <= i < |s| ==> !IsSigil(s[i])
  }

  predicate WritableName(s: string) {
    '{' !in s && '\n' !in s
  }

  /** A duration is written with a unit that is not a size word. */
  predicate WritableDuration(q: Quantity) {
    && ValidQuantity(q) && Writable(q)
    && match q
       case Scalar(_, Some(u)) => SizeOf(u.surface).None?
       case Range(_, _, Some(u)) => true
       case _ => false
  }

  /** The piece's text is scanned back as one piece of the same kind. */
  predicate WritablePiece(p: Piece) {
    match p
    case Prose(t) => t != "" && NoSigil(t) && '\n' !in t
    case Ingredient(name, q, optional, _) =>
      && WritableName(name) && (name != "" ==> !IsModifier(name[0]))
      && (name == "&" ==> Modifiers(q, optional) != "")
      && (q.Some? ==> ValidQuantity(q.value.quantity) && Writable(q.value.quantity))
    case Tool(name, _, _) => WritableName(name)
    case State(name) => IsProducedName(name)
    case Duration(t) =>
      (t.name.Some? ==> t.name.value != "" && WritableName(t.name.value)) && WritableDuration(t.quantity)
    case Heat(_) => true
  }

  /** The piece that scanning the printed text of `p` gives. */
  function ReadBackPiece(env: Env, p: Piece): Piece {
    match p
    case Prose(_) => p
    case Ingredient(name, q, optional, _) =>
      Ingredient(name, ReadBackUse(env, q), optional, Aside(env.resolveName(name), None, None))
    case Tool(name, amount, _) => Tool(name, ReadBackAmount(amount), None)
    case State(_) => p
    case Duration(t) => Duration(Timer(t.name, ReadBackQuantity(env, t.quantity)))
    case Heat(t) => Heat(Temperature(Plain(t.value), t.unit))
  }

  function ReadBackUse(env: Env, q: Option<Spec>): Option<Spec> {
    if q.Some? then Some(ReadBackSpec(env, q.value)) else None
  }

  function ReadBackAmount(amount: Option<Dec>): Option<Dec> {
    if amount.Some? then Some(Plain(amount.value)) else None
  }

  // ----- what a token does to the scan -------------------------------------------------------

  function TokenChunk(ctx: Context, p: Piece, st: Scan): Chunk
    requires !p.Prose? && (p.State? ==> p.name in ctx.names)
  {
    match p
    case Ingredient(_, _, _, _) => IngredientChunk(MintId("iuse", ctx.index, st.counter + 1))
    case Tool(_, _, _) => CookwareChunk(MintId("cwu", ctx.index, st.counter + 1))
    case State(name) => StateChunk(ctx.names[name])
    case Duration(_) => TimerChunk(|st.timers|)
    case Heat(_) => TemperatureChunk(|st.temperatures|)
  }

  function TokenAfter(ctx: Context, p: Piece, st: Scan): Scan
    requires !p.Prose? && (p.State? ==> p.name in ctx.names)
  {
    match ReadBackPiece(ctx.env, p)
    case Ingredient(name, q, optional, aside) =>
      var use := IngredientUse(MintId("iuse", ctx.index, st.counter + 1), name, aside.ingredientId, q, optional,
                               aside.prep, aside.notes);
      st.(ingredients := st.ingredients + [use], counter := st.counter + 1)
    case Tool(name, amount, notes) =>
      var use := CookwareUse(MintId("cwu", ctx.index, st.counter + 1), name, amount, notes);
      st.(cookware := st.cookware + [use], counter := st.counter + 1)
    case State(name) =>
      var id := ctx.names[name];
      if id in st.uses then st else st.(uses := st.uses + [id])
    case Duration(t) => st.(timers := st.timers + [t])
    case Heat(t) => st.(temperatures := st.temperatures + [t])
  }

  /** The text `tail` follows the printed piece; the scan takes exactly the piece. */
  predicate ScansAs(ctx: Context, p: Piece, tail: string, st: Scan)
    requires !p.Prose? && (p.State? ==> p.name in ctx.names)
  {
    var text := PrintPiece(p) + tail;
    && text != "" && IsSigil(text[0])
    && TryToken(ctx, text, st) == Success(Some(Token(TokenChunk(ctx, p, st), |PrintPiece(p)|, TokenAfter(ctx, p, st))))
  }

  // ----- braces -------------------------------------------------------------------------------

  function Braces(name: string, body: string): string {
    name + "{" + body + "}"
  }

  lemma BracedText(name: string, body: string, tail: string)
    requires '{' !in name && '}' !in body
    ensures var s := Braces(name, body) + tail;
            && IndexOf(s, '{') == |name| && s[..|name|] == name
            && Braced(s) == Some((body, |Braces(name, body)|))
            && Named(s) == Some((name, body, |Braces(name, body)|))
  {
    var s := Braces(name, body) + tail;
    var rest := body + "}" + tail;
    assert s == name + "{" + rest;
    IndexOfSkips(name, '{', rest);
    assert s[|name|..] == "{" + body + "}" + tail;
    IndexOfSkips("{" + body, '}', tail);
    assert s[|name| + 1..|name| + 1 + |body|] == body;
  }

  /** Free of the characters that would end the token or the line. */
  predicate Clean(s: string) {
    '}' !in s && '\n' !in s
  }

  lemma CleanConcat(a: string, b: string)
    requires Clean(a) && Clean(b)
    ensures Clean(a + b)
  {
  }

  lemma QuantityClean(q: Quantity)
    requires Writable(q)
    ensures Clean(PrintQuantity(q))
  {
    hide IsNumber, Encode, SizeOf;
    match q
    case Scalar(v, unit) =>
      NumberClean(v);
      UnitClean(Encode(v), unit);
    case Range(low, high, unit) =>
      BoundsClean(low, high);
      UnitClean(Encode(low) + "-" + Encode(high), unit);
    case Count(v, top, size) =>
      NumberClean(v);
      if size.Some? {
        CleanConcat(Encode(v), "%");
        CleanConcat(Encode(v) + "%", SizeText(size.value));
      } else if top.Some? {
        BoundsClean(v, top.value);
      }
    case Approx(_, _, _) =>
  }

  lemma UnitClean(number: string, unit: Option<UnitRef>)
    requires Clean(number) && (unit.Some? ==> WritableSurface(unit.value.surface))
    ensures unit.Some? ==> Clean(number + "%" + unit.value.surface)
  {
    if unit.Some? {
      CleanConcat(number, "%");
      CleanConcat(number + "%", unit.value.surface);
    }
  }

  lemma BoundsClean(low: Dec, high: Dec)
    ensures Clean(Encode(low) + "-" + Encode(high))
  {
    NumberClean(low);
    NumberClean(high);
    CleanConcat(Encode(low), "-");
    CleanConcat(Encode(low) + "-", Encode(high));
  }

  lemma NumberClean(d: Dec)
    ensures Clean(Encode(d)) && '%' !in Encode(d) && Encode(d) != ""
  {
    EncodeHasNo(d, '}');
    EncodeHasNo(d, '\n');
    EncodeHasNo(d, '%');
    EncodeShape(d);
  }

  lemma SpecClean(q: Option<Spec>)
    requires q.Some? ==> Writable(q.value.quantity)
    ensures Clean(PrintSpec(q))
  {
    if q.Some? {
      QuantityClean(q.value.quantity);
    }
  }

  // ----- states ------------------------------------------------------------------------------------

  lemma StateScans(ctx: Context, name: string, tail: string, st: Scan)
    requires IsProducedName(name) && name in ctx.names
    ensures ScansAs(ctx, State(name), tail, st)
  {
    StateTokenText(name, tail);
    hide Braced, PrintPiece, Strip, IsProducedName;
    StateTokenOn(ctx, PrintPiece(State(name)) + tail, name, |PrintPiece(State(name))|, st);
  }

  lemma StateTokenOn(ctx: Context, text: string, name: string, length: nat, st: Scan)
    requires "@&{" <= text && Braced(text) == Some((name, length)) && Strip(name) == name && name in ctx.names
    ensures var id := ctx.names[name];
            TryToken(ctx, text, st)
            == Success(Some(Token(StateChunk(id), length, if id in st.uses then st else st.(uses := st.uses + [id]))))
  {
    hide Braced, Strip;
  }

  lemma StateIsBraces(name: string)
    ensures PrintPiece(State(name)) == Braces("@&", name) && "@&{" <= PrintPiece(State(name))
  {
  }

  /** A printed state reference: its braced name and its length. */
  lemma StateTokenText(name: string, tail: string)
    requires IsProducedName(name)
    ensures var text := PrintPiece(State(name)) + tail;
            && "@&{" <= text && IsSigil(text[0])
            && Braced(text) == Some((name, |PrintPiece(State(name))|)) && Strip(name) == name
  {
    assert '}' !in name;
    StateIsBraces(name);
    StripTrimmed(name);
    hide PrintPiece, Braces, Braced, IsProducedName, Strip;
    BracedText("@&", name, tail);
  }

  /** A printed state reference is read as a reference exactly if a step before it produced that name. */
  lemma {:induction false} StateReferenceIff(ctx: Context, name: string, tail: string, st: Scan)
    requires IsProducedName(name)
    ensures var text := PrintPiece(State(name)) + tail;
            && text != "" && IsSigil(text[0])
            && TryToken(ctx, text, st).Success?
            && (TryToken(ctx, text, st).value.Some? <==> name in ctx.names)
            && (name in ctx.names ==> TryToken(ctx, text, st).value.value.chunk == StateChunk(ctx.names[name]))
  {
    StateTokenText(name, tail);
  }

  // ----- ingredients ----------------------------------------------------------------------------------

  lemma ModifiersSpan(mods: string, s: string)
    requires forall i :: 0 <= i < |mods| ==> IsModifier(mods[i])
    requires s != "" && !IsModifier(s[0])
    ensures ModifierSpan(mods + s) == |mods|
    decreases |mods|
  {
    if mods == "" {
      assert mods + s == s;
    } else {
      assert (mods + s)[1..] == mods[1..] + s;
      ModifiersSpan(mods[1..], s);
    }
  }

  lemma ModifierFlags(q: Option<Spec>, optional: bool)
    ensures var mods := Modifiers(q, optional);
            && (forall i :: 0 <= i < |mods| ==> IsModifier(mods[i]))
            && ('?' in mods <==> optional)
            && ('=' in mods <==> q.Some? && q.value.scaling.Invariant?)
  {
  }

  /** The braced body of an ingredient parses to the quantity that comes back. */
  lemma UseParses(env: Env, q: Option<Spec>)
    requires q.Some? ==> ValidQuantity(q.value.quantity) && Writable(q.value.quantity)
    ensures ParseQuantity(env, PrintSpec(q), q.Some? && q.value.scaling.Invariant?) == Success(ReadBackUse(env, q))
  {
    if q.Some? {
      ParsePrintedQuantity(env, q.value.quantity, q.value.scaling.Invariant?);
    }
  }

  lemma IngredientPrefix(mods: string, name: string, body: string, tail: string)
    requires forall i :: 0 <= i < |mods| ==> IsModifier(mods[i])
    requires name != "" ==> !IsModifier(name[0])
    ensures var text := "@" + mods + Braces(name, body) + tail;
            var k := 1 + ModifierSpan(text[1..]);
            && k == 1 + |mods| && text[1..k] == mods && text[k..] == Braces(name, body) + tail
  {
    var text, rest := "@" + mods + Braces(name, body) + tail, Braces(name, body) + tail;
    assert text[1..] == mods + rest;
    assert rest[0] == if name == "" then '{' else name[0];
    ModifiersSpan(mods, rest);
  }

  lemma NotAStateToken(mods: string, name: string, body: string, tail: string)
    requires forall i :: 0 <= i < |mods| ==> IsModifier(mods[i])
    requires '{' !in name && (name == "&" ==> mods != "")
    ensures !("@&{" <= "@" + mods + Braces(name, body) + tail)
  {
    var text := "@" + mods + Braces(name, body) + tail;
    if mods != "" {
      assert text[1] == mods[0];
    } else if name == "" {
      assert text[1] == '{';
    } else if |name| == 1 {
      assert text[1] == name[0] && name == [name[0]];
    } else {
      assert text[2] == name[1] && name[1] in name;
    }
  }

  lemma IngredientTokenOn(ctx: Context, text: string, mods: string, name: string, body: string, length: nat,
                          q: Option<Spec>, st: Scan)
    requires text != "" && text[0] == '@' && !("@&{" <= text)
    requires ModifierSpan(text[1..]) == |mods| && text[1..1 + |mods|] == mods
    requires Named(text[1 + |mods|..]) == Some((name, body, length))
    requires ParseQuantity(ctx.env, body, '=' in mods) == Success(q)
    ensures var use := IngredientUse(MintId("iuse", ctx.index, st.counter + 1), name, ctx.env.resolveName(name), q,
                                     '?' in mods, None, None);
            var after := st.(ingredients := st.ingredients + [use], counter := st.counter + 1);
            TryToken(ctx, text, st) == Success(Some(Token(IngredientChunk(use.id), 1 + |mods| + length, after)))
  {
    hide ParseQuantity, Named, Braced, MintId;
  }

  lemma IngredientPrints(name: string, q: Option<Spec>, optional: bool, aside: Aside, tail: string)
    ensures var text, mods := PrintPiece(Ingredient(name, q, optional, aside)), Modifiers(q, optional);
            && text + tail == "@" + mods + Braces(name, PrintSpec(q)) + tail
            && |text| == 1 + |mods| + |Braces(name, PrintSpec(q))| && (text + tail)[0] == '@'
  {
  }

  lemma {:induction false} IngredientScans(ctx: Context, name: string, q: Option<Spec>, optional: bool, aside: Aside,
                                           tail: string,
                                            st: Scan)
    requires WritablePiece(Ingredient(name, q, optional, aside))
    ensures ScansAs(ctx, Ingredient(name, q, optional, aside), tail, st)
  {
    hide TryToken, Named, Braces, ParseQuantity, PrintPiece, PrintSpec, Modifiers, ModifierSpan, MintId, Writable,
      ValidQuantity, ReadBackSpec;
    var mods, body := Modifiers(q, optional), PrintSpec(q);
    var text := PrintPiece(Ingredient(name, q, optional, aside)) + tail;
    IngredientPrints(name, q, optional, aside, tail);
    ModifierFlags(q, optional);
    IngredientReads(name, q, optional, aside, tail);
    UseParses(ctx.env, q);
    IngredientTokenOn(ctx, text, mods, name, body, |Braces(name, body)|, ReadBackUse(ctx.env, q), st);
  }

  /** The printed ingredient up to its braces: not a state reference, its modifiers, its name and its body. */
  lemma IngredientReads(name: string, q: Option<Spec>, optional: bool, aside: Aside, tail: string)
    requires WritablePiece(Ingredient(name, q, optional, aside))
    ensures var text := PrintPiece(Ingredient(name, q, optional, aside)) + tail;
            var mods, body := Modifiers(q, optional), PrintSpec(q);
            && text != "" && !("@&{" <= text) && ModifierSpan(text[1..]) == |mods| && text[1..1 + |mods|] == mods
            && Named(text[1 + |mods|..]) == Some((name, body, |Braces(name, body)|))
  {
    hide TryToken, Named, Braces, ParseQuantity, PrintPiece, PrintSpec, Modifiers, ModifierSpan, Writable,
      ValidQuantity;
    var mods, body := Modifiers(q, optional), PrintSpec(q);
    IngredientPrints(name, q, optional, aside, tail);
    ModifierFlags(q, optional);
    SpecClean(q);
    NotAStateToken(mods, name, body, tail);
    IngredientPrefix(mods, name, body, tail);
    BracedText(name, body, tail);
  }

  // ----- tools, durations, temperatures ------------------------------------------------------------------

  function AmountText(amount: Option<Dec>): string {
    if amount.Some? then Encode(amount.value) else ""
  }

  lemma AmountParses(amount: Option<Dec>)
    ensures ParseAmount(AmountText(amount)) == Success(ReadBackAmount(amount)) && Clean(AmountText(amount))
  {
    if amount.Some? {
      NumberText(amount.value);
      NumberClean(amount.value);
      StripTrimmed(Encode(amount.value));
    }
  }

  lemma SigilThen(c: char, name: string, body: string, tail: string)
    ensures var token := [c] + Braces(name, body);
            && token + tail != "" && (token + tail)[0] == c && |token| == 1 + |Braces(name, body)|
            && (token + tail)[1..] == Braces(name, body) + tail
  {
  }

  lemma NamedTokenText(p: Piece, c: char, name: string, body: string)
    requires match p
             case Tool(n, amount, _) => c == '#' && name == n && body == AmountText(amount)
             case Duration(t) => c == '~' && name == t.name.GetOr("") && body == PrintQuantity(t.quantity)
             case _ => false
    ensures PrintPiece(p) == [c] + Braces(name, body)
  {
  }

  lemma ToolTokenOn(ctx: Context, text: string, name: string, body: string, length: nat, amount: Option<Dec>, st: Scan)
    requires text != "" && text[0] == '#' && Named(text[1..]) == Some((name, body, length))
    requires ParseAmount(body) == Success(amount)
    ensures var use := CookwareUse(MintId("cwu", ctx.index, st.counter + 1), name, amount, None);
            var after := st.(cookware := st.cookware + [use], counter := st.counter + 1);
            TryToken(ctx, text, st) == Success(Some(Token(CookwareChunk(use.id), 1 + length, after)))
  {
    hide ParseAmount, Named, Braced, MintId;
  }

  lemma {:induction false} ToolScans(ctx: Context, name: string, amount: Option<Dec>, notes: Option<string>,
                                     tail: string, st: Scan)
    requires WritableName(name)
    ensures ScansAs(ctx, Tool(name, amount, notes), tail, st)
  {
    hide TryToken, Named, Braces, ParseAmount, PrintPiece, AmountText, MintId;
    var body := AmountText(amount);
    AmountParses(amount);
    NamedTokenText(Tool(name, amount, notes), '#', name, body);
    SigilThen('#', name, body, tail);
    BracedText(name, body, tail);
    ToolTokenOn(ctx, PrintPiece(Tool(name, amount, notes)) + tail, name, body, |Braces(name, body)|,
                ReadBackAmount(amount), st);
  }

  lemma DurationParses(env: Env, t: Timer)
    requires WritablePiece(Duration(t))
    ensures ParseTimer(env, t.name.GetOr(""), PrintQuantity(t.quantity))
         == Success(Timer(t.name, ReadBackQuantity(env, t.quantity)))
  {
    ParsePrintedQuantity(env, t.quantity, false);
  }

  lemma DurationTokenOn(ctx: Context, text: string, name: string, body: string, length: nat, t: Timer, st: Scan)
    requires text != "" && text[0] == '~' && Named(text[1..]) == Some((name, body, length))
    requires ParseTimer(ctx.env, name, body) == Success(t)
    ensures TryToken(ctx, text, st)
         == Success(Some(Token(TimerChunk(|st.timers|), 1 + length, st.(timers := st.timers + [t]))))
  {
    hide ParseTimer, Named, Braced;
  }

  lemma {:induction false} DurationScans(ctx: Context, t: Timer, tail: string, st: Scan)
    requires WritablePiece(Duration(t))
    ensures ScansAs(ctx, Duration(t), tail, st)
  {
    hide TryToken, Named, Braces, ParseTimer, PrintPiece, PrintQuantity, ReadBackQuantity, Writable, ValidQuantity;
    var name, body := t.name.GetOr(""), PrintQuantity(t.quantity);
    QuantityClean(t.quantity);
    DurationParses(ctx.env, t);
    NamedTokenText(Duration(t), '~', name, body);
    SigilThen('~', name, body, tail);
    BracedText(name, body, tail);
    DurationTokenOn(ctx, PrintPiece(Duration(t)) + tail, name, body, |Braces(name, body)|,
                    Timer(t.name, ReadBackQuantity(ctx.env, t.quantity)), st);
  }

  function HeatText(t: Temperature): string {
    Encode(t.value) + "%" + ScaleText(t.unit)
  }

  lemma HeatParses(t: Temperature)
    ensures ParseTemperature(HeatText(t)) == Success(Temperature(Plain(t.value), t.unit)) && Clean(HeatText(t))
  {
    hide Encode, ReadDecimal, Plain;
    var n := Encode(t.value);
    NumberText(t.value);
    NumberClean(t.value);
    IndexOfSkips(n, '%', ScaleText(t.unit));
    CleanConcat(n, "%");
    CleanConcat(n + "%", ScaleText(t.unit));
    assert HeatText(t)[..|n|] == n && HeatText(t)[|n| + 1..] == ScaleText(t.unit);
  }

  lemma HeatTokenText(t: Temperature, tail: string)
    ensures PrintPiece(Heat(t)) == Braces("^", HeatText(t))
    ensures PrintPiece(Heat(t)) + tail != "" && (PrintPiece(Heat(t)) + tail)[0] == '^'
  {
    hide Encode;
  }

  lemma HeatTokenOn(ctx: Context, text: string, body: string, length: nat, t: Temperature, st: Scan)
    requires text != "" && text[0] == '^' && Braced(text) == Some((body, length))
             && ParseTemperature(body) == Success(t)
    ensures TryToken(ctx, text, st)
         == Success(Some(Token(TemperatureChunk(|st.temperatures|), length,
                               st.(temperatures := st.temperatures + [t]))))
  {
    hide ParseTemperature, Braced;
  }

  lemma {:induction false} HeatScans(ctx: Context, t: Temperature, tail: string, st: Scan)
    ensures ScansAs(ctx, Heat(t), tail, st)
  {
    hide TryToken, Braced, Braces, ParseTemperature, PrintPiece, HeatText, Plain;
    HeatParses(t);
    HeatTokenText(t, tail);
    BracedText("^", HeatText(t), tail);
    HeatTokenOn(ctx, PrintPiece(Heat(t)) + tail, HeatText(t), |PrintPiece(Heat(t))|,
                Temperature(Plain(t.value), t.unit), st);
  }

  /** Every writable token is scanned back, whatever text follows it. */
  lemma {:induction false} PieceScans(ctx: Context, p: Piece, tail: string, st: Scan)
    requires !p.Prose? && WritablePiece(p) && (p.State? ==> p.name in ctx.names)
    ensures ScansAs(ctx, p, tail, st)
  {
    match p
    case Ingredient(name, q, optional, aside) => IngredientScans(ctx, name, q, optional, aside, tail, st);
    case Tool(name, amount, notes) => ToolScans(ctx, name, amount, notes, tail, st);
    case State(name) => StateScans(ctx, name, tail, st);
    case Duration(t) => DurationScans(ctx, t, tail, st);
    case Heat(t) => HeatScans(ctx, t, tail, st);
  }
}
