/** What the scanner takes for a token in any text, and what the braces of one may hold. */
module TokenGrammar {
  import opened Wrappers
  import opened Text
  import opened Decimals
  import opened Schema
  import opened QuantityText
  import opened Scanner
  import opened TokenText
  import opened Paragraphs

  // ----- what is no token -------------------------------------------------------------------------

  /** An opening brace with a closing one somewhere after it. */
  predicate HasBraces(s: string) {
    exists i, j :: 0 <= i < j < |s| && s[i] == '{' && s[j] == '}'
  }

  lemma BracedIff(s: string)
    ensures Braced(s).Some? <==> HasBraces(s)
  {
    var open := IndexOf(s, '{');
    if Braced(s).Some? {
      var close := IndexOf(s[open..], '}');
      assert s[open..][close] == '}' && s[open..][0] == '{';
      assert s[open] == '{' && s[open + close] == '}';
    }
    if HasBraces(s) {
      var i, j :| 0 <= i < j < |s| && s[i] == '{' && s[j] == '}';
      assert open <= i;
      assert s[open..][j - open] == '}';
    }
  }

  lemma BracesAfter(s: string, k: nat)
    requires k <= |s| && forall m :: 0 <= m < k ==> s[m] != '{'
    ensures HasBraces(s[k..]) <==> HasBraces(s)
  {
    if HasBraces(s) {
      var i, j :| 0 <= i < j < |s| && s[i] == '{' && s[j] == '}';
      assert s[k..][i - k] == '{' && s[k..][j - k] == '}';
    }
    if HasBraces(s[k..]) {
      var i, j :| 0 <= i < j < |s[k..]| && s[k..][i] == '{' && s[k..][j] == '}';
      assert s[k + i] == '{' && s[k + j] == '}';
    }
  }

  lemma {:induction false} ModifiersNoBrace(s: string)
    ensures forall m :: 0 <= m < ModifierSpan(s) ==> s[m] != '{'
  {
    if s != "" && IsModifier(s[0]) {
      ModifiersNoBrace(s[1..]);
      assert forall m :: 1 <= m < ModifierSpan(s) ==> s[m] == s[1..][m - 1];
    }
  }

  /** A sigil without an opening and a closing brace after it is prose. */
  lemma {:induction false} UnclosedIsProse(ctx: Context, s: string, st: Scan)
    requires s != "" && IsSigil(s[0]) && !HasBraces(s)
    ensures TryToken(ctx, s, st) == Success(None)
  {
    hide HasBraces, Braced, ParseQuantity, ParseTimer, ParseAmount, ParseTemperature, ModifierSpan;
    BracedIff(s);
    BracesAfter(s, 1);
    BracedIff(s[1..]);
    if s[0] == '@' {
      var k := 1 + ModifierSpan(s[1..]);
      ModifiersNoBrace(s[1..]);
      assert forall m :: 1 <= m < k ==> s[m] == s[1..][m - 1];
      BracesAfter(s, k);
      BracedIff(s[k..]);
    }
  }

  // ----- the tokens ----------------------------------------------------------------------------------

  /** An ingredient: modifiers in any order and number, a name, a body. */
  lemma {:induction false} IngredientGrammar(ctx: Context, mods: string, name: string, body: string, tail: string,
                                             st: Scan)
    requires (forall k :: 0 <= k < |mods| ==> IsModifier(mods[k])) && (name != "" ==> !IsModifier(name[0]))
    requires '{' !in name && '}' !in body && (name == "&" ==> mods != "")
    ensures var text := "@" + mods + Braces(name, body) + tail;
            text != "" && IsSigil(text[0])
            && match ParseQuantity(ctx.env, body, '=' in mods)
               case Failure(e) => TryToken(ctx, text, st) == Failure(e)
               case Success(q) =>
                 var use := IngredientUse(MintId("iuse", ctx.index, st.counter + 1), name, ctx.env.resolveName(name), q,
                                          '?' in mods, None, None);
                 TryToken(ctx, text, st) == Success(Some(Token(
                   IngredientChunk(use.id), |"@" + mods + Braces(name, body)|,
                   st.(ingredients := st.ingredients + [use], counter := st.counter + 1))))
  {
    hide TryToken, Named, Braces, ParseQuantity, ModifierSpan, MintId;
    var text := "@" + mods + Braces(name, body) + tail;
    NotAStateToken(mods, name, body, tail);
    IngredientPrefix(mods, name, body, tail);
    BracedText(name, body, tail);
    assert text[0] == '@';
    match ParseQuantity(ctx.env, body, '=' in mods)
    case Success(q) => IngredientTokenOn(ctx, text, mods, name, body, |Braces(name, body)|, q, st);
    case Failure(e) => IngredientFailsOn(ctx, text, mods, name, body, |Braces(name, body)|, st);
  }

  lemma IngredientFailsOn(ctx: Context, text: string, mods: string, name: string, body: string, length: nat, st: Scan)
    requires text != "" && text[0] == '@' && !("@&{" <= text)
    requires ModifierSpan(text[1..]) == |mods| && text[1..1 + |mods|] == mods
    requires Named(text[1 + |mods|..]) == Some((name, body, length))
    requires ParseQuantity(ctx.env, body, '=' in mods).Failure?
    ensures TryToken(ctx, text, st) == Failure(ParseQuantity(ctx.env, body, '=' in mods).error)
  {
    hide ParseQuantity, Named, Braced, MintId;
  }

  /** A state reference: a name known so far, with any white space around it; any other name is prose. */
  lemma {:induction false} StateGrammar(ctx: Context, before: string, name: string, after: string, tail: string,
                                        st: Scan)
    requires AllSpace(before) && AllSpace(after) && Trimmed(name) && '}' !in name
    ensures var token := Braces("@&", before + name + after);
            var text := token + tail;
            text != "" && IsSigil(text[0])
            && if name in ctx.names then
                 var id := ctx.names[name];
                 TryToken(ctx, text, st) == Success(Some(Token(
                   StateChunk(id), |token|, if id in st.uses then st else st.(uses := st.uses + [id]))))
               else TryToken(ctx, text, st) == Success(None)
  {
    hide TryToken, Strip;
    var body := before + name + after;
    var text := Braces("@&", body) + tail;
    SpaceHasNoBrace(before, name, after);
    StripAround(before, name, after);
    StripTrimmed(name);
    hide Braces, Braced;
    BracedText("@&", body, tail);
    BracesStart(body, tail);
    if name in ctx.names {
      ReferenceOn(ctx, text, body, name, |Braces("@&", body)|, st);
    } else {
      NoReferenceOn(ctx, text, body, name, |Braces("@&", body)|, st);
    }
  }

  lemma BracesStart(body: string, tail: string)
    ensures var text := Braces("@&", body) + tail; text != "" && text[0] == '@' && "@&{" <= text
  {
  }

  lemma SpaceHasNoBrace(before: string, name: string, after: string)
    requires AllSpace(before) && AllSpace(after) && '}' !in name
    ensures '}' !in before + name + after
  {
    var s := before + name + after;
    assert !IsSpace('}');
    forall k | 0 <= k < |s| ensures s[k] != '}' {
      assert s[k] == if k < |before| then before[k] else if k < |before| + |name| then name[k - |before|]
                     else after[k - |before| - |name|];
    }
  }

  lemma ReferenceOn(ctx: Context, text: string, body: string, name: string, length: nat, st: Scan)
    requires "@&{" <= text && Braced(text) == Some((body, length)) && Strip(body) == name && name in ctx.names
    ensures var id := ctx.names[name];
            TryToken(ctx, text, st)
            == Success(Some(Token(StateChunk(id), length, if id in st.uses then st else st.(uses := st.uses + [id]))))
  {
    hide Braced, Strip;
  }

  lemma NoReferenceOn(ctx: Context, text: string, body: string, name: string, length: nat, st: Scan)
    requires "@&{" <= text && Braced(text) == Some((body, length)) && Strip(body) == name && name !in ctx.names
    ensures TryToken(ctx, text, st) == Success(None)
  {
    hide Braced, Strip;
  }

  /** A tool: a name and an amount, or nothing, in the braces. */
  lemma {:induction false} ToolGrammar(ctx: Context, name: string, body: string, tail: string, st: Scan)
    requires '{' !in name && '}' !in body
    ensures var token := "#" + Braces(name, body);
            match ParseAmount(body)
            case Failure(e) => TryToken(ctx, token + tail, st) == Failure(e)
            case Success(amount) =>
              var use := CookwareUse(MintId("cwu", ctx.index, st.counter + 1), name, amount, None);
              TryToken(ctx, token + tail, st) == Success(Some(Token(
                CookwareChunk(use.id), |token|, st.(cookware := st.cookware + [use], counter := st.counter + 1))))
  {
    hide TryToken, Named, Braces, ParseAmount, MintId;
    SigilThen('#', name, body, tail);
    BracedText(name, body, tail);
    var text := "#" + Braces(name, body) + tail;
    match ParseAmount(body)
    case Success(amount) => ToolTokenOn(ctx, text, name, body, |Braces(name, body)|, amount, st);
    case Failure(e) => ToolFailsOn(ctx, text, name, body, |Braces(name, body)|, st);
  }

  lemma ToolFailsOn(ctx: Context, text: string, name: string, body: string, length: nat, st: Scan)
    requires text != "" && text[0] == '#' && Named(text[1..]) == Some((name, body, length))
             && ParseAmount(body).Failure?
    ensures TryToken(ctx, text, st) == Failure(ParseAmount(body).error)
  {
    hide ParseAmount, Named, Braced, MintId;
  }

  /** A timer: a name or none, and a duration in the braces. */
  lemma {:induction false} TimerGrammar(ctx: Context, name: string, body: string, tail: string, st: Scan)
    requires '{' !in name && '}' !in body
    ensures var token := "~" + Braces(name, body);
            match ParseTimer(ctx.env, name, body)
            case Failure(e) => TryToken(ctx, token + tail, st) == Failure(e)
            case Success(t) =>
              TryToken(ctx, token + tail, st)
              == Success(Some(Token(TimerChunk(|st.timers|), |token|, st.(timers := st.timers + [t]))))
  {
    hide TryToken, Named, Braces, ParseTimer;
    SigilThen('~', name, body, tail);
    BracedText(name, body, tail);
    var text := "~" + Braces(name, body) + tail;
    match ParseTimer(ctx.env, name, body)
    case Success(t) => DurationTokenOn(ctx, text, name, body, |Braces(name, body)|, t, st);
    case Failure(e) => TimerFailsOn(ctx, text, name, body, |Braces(name, body)|, st);
  }

  lemma TimerFailsOn(ctx: Context, text: string, name: string, body: string, length: nat, st: Scan)
    requires text != "" && text[0] == '~' && Named(text[1..]) == Some((name, body, length))
    requires ParseTimer(ctx.env, name, body).Failure?
    ensures TryToken(ctx, text, st) == Failure(ParseTimer(ctx.env, name, body).error)
  {
    hide ParseTimer, Named, Braced;
  }

  // ----- temperatures ------------------------------------------------------------------------------------

  /** A temperature is in Celsius unless its unit is F; any other unit is refused. */
  lemma {:induction false} TemperatureUnits(d: Dec, unit: string)
    requires '%' !in unit
    ensures ParseTemperature(Encode(d)) == Success(Temperature(Plain(d), C))
    ensures ParseTemperature(Encode(d) + "%" + unit)
         == if unit == "F" then Success(Temperature(Plain(d), F))
            else if unit == "C" || unit == "" then Success(Temperature(Plain(d), C))
            else Failure(BadTemperatureUnit)
  {
    hide Encode, ReadDecimal, Plain;
    var n := Encode(d);
    NumberText(d);
    NumberClean(d);
    IndexOfSkips(n, '%', unit);
    assert (n + "%" + unit)[..|n|] == n && (n + "%" + unit)[|n| + 1..] == unit;
    NoPercent(n);
  }

  lemma NoPercent(n: string)
    requires '%' !in n
    ensures IndexOf(n, '%') == |n| && n[..|n|] == n
  {
  }

  // ----- white space in the braces ---------------------------------------------------------------------------

  /** White space around the number and around the unit does not matter. */
  lemma {:induction false} SpacedUnit(env: Env, a: string, number: string, b: string, c: string, unit: string,
                                      d: string,
                                      fixed: bool)
    requires AllSpace(a) && AllSpace(b) && AllSpace(c) && AllSpace(d)
    requires number != "" && Trimmed(number) && '%' !in number && Trimmed(unit)
    ensures ParseQuantity(env, a + number + b + ("%" + (c + unit + d)), fixed)
         == ParseQuantity(env, number + "%" + unit, fixed)
  {
    hide ParseWithUnit, ParseBare, Strip, Trimmed, AllSpace;
    var rest := if unit == "" then "" else c + unit;
    SpacedCore(a, number, b, c, unit, d);
    SpacedParts(number, b, c, unit);
    SpaceHasNoPercent(number, b);
    PercentAt(number + b, rest);
    UnitBody(env, a + number + b + ("%" + (c + unit + d)), number + b, rest, number, unit, fixed);
    SplitAtPercent(number, unit);
    PercentAt(number, unit);
    StripTrimmed(number);
    StripTrimmed(unit);
    assert number + "%" + unit == number + ("%" + unit);
    UnitBody(env, number + "%" + unit, number, unit, number, unit, fixed);
  }

  lemma PercentAt(n: string, rest: string)
    requires '%' !in n
    ensures var t := n + ("%" + rest); IndexOf(t, '%') == |n| < |t| && t[..|n|] == n && t[|n| + 1..] == rest
  {
    assert n + ("%" + rest) == n + ['%'] + rest;
    IndexOfSkips(n, '%', rest);
  }

  /** A body that strips to two parts around a "%" is read as the parts stripped. */
  lemma UnitBody(env: Env, text: string, n: string, rest: string, number: string, unit: string, fixed: bool)
    requires Strip(text) == n + ("%" + rest) && Strip(n) == number && Strip(rest) == unit
    requires var t := n + ("%" + rest); IndexOf(t, '%') == |n| < |t| && t[..|n|] == n && t[|n| + 1..] == rest
    ensures ParseQuantity(env, text, fixed) == WithParts(env, number, unit, fixed)
  {
    hide ParseWithUnit, ParseBare, Strip, IndexOf;
  }

  function WithParts(env: Env, number: string, unit: string, fixed: bool): Result<Option<Spec>, ParseError> {
    var s :- ParseWithUnit(env, number, unit, fixed);
    Success(Some(s))
  }

  lemma SpaceHasNoPercent(number: string, b: string)
    requires '%' !in number && AllSpace(b)
    ensures '%' !in number + b
  {
    assert !IsSpace('%');
  }

  lemma SpacedCore(a: string, number: string, b: string, c: string, unit: string, d: string)
    requires AllSpace(a) && AllSpace(c) && AllSpace(d) && number != "" && Trimmed(number) && Trimmed(unit)
    ensures Strip(a + number + b + ("%" + (c + unit + d))) == number + b + ("%" + if unit == "" then "" else c + unit)
  {
    var mid := number + b + ("%" + if unit == "" then "" else c + unit);
    var after := if unit == "" then c + d else d;
    assert a + number + b + ("%" + (c + unit + d)) == a + mid + after;
    assert !IsSpace('%');
    assert mid[0] == number[0] && mid[|mid| - 1] == if unit == "" then '%' else unit[|unit| - 1];
    StripAround(a, mid, after);
    StripTrimmed(mid);
    hide Strip;
  }

  lemma SpacedParts(number: string, b: string, c: string, unit: string)
    requires AllSpace(b) && AllSpace(c) && Trimmed(number) && Trimmed(unit)
    ensures Strip(number + b) == number && Strip(if unit == "" then "" else c + unit) == unit
  {
    StripAround("", number, b);
    assert "" + number + b == number + b;
    StripTrimmed(number);
    StripAround(c, unit, "");
    assert c + unit + "" == c + unit;
    StripTrimmed(unit);
    hide Strip;
  }

  /** White space around the whole body does not matter. */
  lemma {:induction false} SpacedBody(env: Env, a: string, body: string, d: string, fixed: bool)
    requires AllSpace(a) && AllSpace(d)
    ensures ParseQuantity(env, a + body + d, fixed) == ParseQuantity(env, body, fixed)
  {
    hide ParseWithUnit, ParseBare, Strip, IndexOf, AllSpace;
    StripAround(a, body, d);
  }

  /** Nor does white space around the dash of two numbers. */
  lemma {:induction false} SpacedRange(low: string, a: string, b: string, high: string)
    requires AllSpace(a) && AllSpace(b) && '-' !in low
    ensures '-' in low + a + ("-" + (b + high)) && '-' in low + ("-" + high)
    ensures ParseBounds(low + a + ("-" + (b + high))) == ParseBounds(low + ("-" + high))
  {
    hide ParseBounds, ToDecimal, AllSpace, IndexOf, IsNumber;
    var x, y := low + a, b + high;
    SpaceHasNoDash(low, a);
    DashAt(x, y);
    DashAt(low, high);
    SpacedAfter(low, a);
    SpacedBefore(b, high);
    SameBounds(x + ("-" + y), low + ("-" + high));
  }

  lemma SpacedAfter(s: string, a: string)
    requires AllSpace(a)
    ensures ToDecimal(s + a) == ToDecimal(s)
  {
    hide ToDecimal, IsNumber;
    SpacedNumber("", s, a);
    assert "" + s + a == s + a;
  }

  lemma SpacedBefore(a: string, s: string)
    requires AllSpace(a)
    ensures ToDecimal(a + s) == ToDecimal(s)
  {
    hide ToDecimal, IsNumber;
    SpacedNumber(a, s, "");
    assert a + s + "" == a + s;
  }

  lemma SpacedNumber(a: string, s: string, b: string)
    requires AllSpace(a) && AllSpace(b)
    ensures ToDecimal(a + s + b) == ToDecimal(s) && IsNumber(a + s + b) == IsNumber(s)
  {
    StripAround(a, s, b);
    hide Strip, ReadUnsigned, RemoveUnderscores;
  }

  /** Nor does white space around a tool's amount; braces that hold nothing else give no amount. */
  lemma {:induction false} SpacedAmount(a: string, body: string, b: string)
    requires AllSpace(a) && AllSpace(b)
    ensures ParseAmount(a + body + b) == ParseAmount(body) && ParseAmount(a + b) == Success(None)
  {
    StripAround(a, body, b);
    SpacedNumber(a, body, b);
    StripAround(a, "", b);
    assert a + "" + b == a + b;
  }

  lemma SameBounds(s: string, t: string)
    requires '-' in s && '-' in t
    requires ToDecimal(s[..IndexOf(s, '-')]) == ToDecimal(t[..IndexOf(t, '-')])
    requires IndexOf(s, '-') < |s| && IndexOf(t, '-') < |t|
    requires ToDecimal(s[IndexOf(s, '-') + 1..]) == ToDecimal(t[IndexOf(t, '-') + 1..])
    ensures ParseBounds(s) == ParseBounds(t)
  {
    hide ToDecimal, IndexOf, Value;
  }

  lemma SpaceHasNoDash(low: string, a: string)
    requires '-' !in low && AllSpace(a)
    ensures '-' !in low + a
  {
    assert !IsSpace('-');
  }

  lemma DashAt(low: string, rest: string)
    ensures var t := low + ("-" + rest);
            '-' in t && ('-' !in low ==> IndexOf(t, '-') == |low| && t[..|low|] == low && t[|low| + 1..] == rest)
  {
    var t := low + ("-" + rest);
    assert t[|low|] == '-' && t == low + ['-'] + rest;
    if '-' !in low {
      IndexOfSkips(low, '-', rest);
    }
  }

  /** A printed range is refused exactly if its bounds are not in order. */
  lemma {:induction false} RangeRefusedIff(env: Env, low: Dec, high: Dec, fixed: bool)
    requires !IsNegative(low)
    ensures var r := ParseQuantity(env, Encode(low) + "-" + Encode(high), fixed);
            && (r.Success? <==> Value(low) <= Value(high)) && (r.Failure? ==> r == Failure(UnorderedRange))
  {
    hide Encode, Plain, Value, IsNegative;
    var t := Encode(low) + "-" + Encode(high);
    if Value(low) <= Value(high) {
      ParsePrintedCountRange(env, low, high, fixed);
    } else {
      BoundsText(low, high);
      NumberText(low);
      NumberText(high);
      PlainValue(low);
      PlainValue(high);
      Unordered(env, t, Plain(low), Plain(high), fixed);
    }
  }

  lemma UnorderedBare(env: Env, t: string, low: Dec, high: Dec, fixed: bool)
    requires '-' in t && IsNumber(t[..IndexOf(t, '-')])
    requires ToDecimal(t[..IndexOf(t, '-')]) == Success(low) && ToDecimal(t[IndexOf(t, '-') + 1..]) == Success(high)
    requires Value(low) > Value(high)
    ensures ParseBare(env, t, fixed) == Failure(UnorderedRange)
  {
    hide ToDecimal, IsNumber, Value, IndexOf;
  }

  lemma Unordered(env: Env, t: string, low: Dec, high: Dec, fixed: bool)
    requires t != "" && Trimmed(t) && '%' !in t && '-' in t && IsNumber(t[..IndexOf(t, '-')])
    requires ToDecimal(t[..IndexOf(t, '-')]) == Success(low) && ToDecimal(t[IndexOf(t, '-') + 1..]) == Success(high)
    requires Value(low) > Value(high)
    ensures ParseQuantity(env, t, fixed) == Failure(UnorderedRange)
  {
    hide ToDecimal, IsNumber, Value, Strip, ParseBare, IndexOf, Trimmed;
    StripTrimmed(t);
    NoPercent(t);
    UnorderedBare(env, t, low, high, fixed);
  }

  // ----- numbers ---------------------------------------------------------------------------------------------------

  lemma ReadsSign(sign: string, t: string)
    requires sign in ["", "+", "-"] && t != "" && !IsSpace(t[0]) && !IsSpace(t[|t| - 1]) && t[0] !in ['+', '-']
    requires '_' !in t
    ensures ReadDecimal(sign + t) == ReadUnsigned(sign == "-", t)
  {
    hide Strip, ReadUnsigned, RemoveUnderscores, IsSpace;
    SignedText(sign, t);
    StripTrimmed(sign + t);
    NothingRemoved(sign + t);
  }

  lemma SignedText(sign: string, t: string)
    requires sign in ["", "+", "-"] && t != "" && !IsSpace(t[0]) && !IsSpace(t[|t| - 1]) && t[0] !in ['+', '-']
    requires '_' !in t
    ensures var s := sign + t;
            && Trimmed(s) && '_' !in s && s != "" && (s[0] in ['+', '-'] <==> sign != "")
            && (s[0] == '-' <==> sign == "-")
            && (if sign == "" then s == t else s[1..] == t)
  {
    var s := sign + t;
    assert !IsSpace('+') && !IsSpace('-');
    assert s[0] == (if sign == "" then t[0] else sign[0]) && s[|s| - 1] == t[|t| - 1];
  }

  lemma NothingRemoved(s: string)
    requires '_' !in s
    ensures RemoveUnderscores(s) == s
  {
  }

  /** Digits with a point and an exponent denote those digits times that power of ten; a sign may stand before each. */
  lemma {:induction false} ReadsScientific(sign: string, whole: string, fraction: string, esign: string, power: string)
    requires sign in ["", "+", "-"] && esign in ["", "+", "-"]
    requires Digits(whole) && Digits(fraction) && Digits(power) && whole != "" && power != ""
    ensures Digits(whole + fraction)
    ensures var k: int := ReadNat(power);
            ReadDecimal(sign + (whole + ("." + (fraction + ("e" + esign + power)))))
            == Number(Dec(sign == "-", ReadNat(whole + fraction), (if esign == "-" then -k else k) - |fraction|))
  {
    hide SplitMantissa, ReadDecimal, ReadExponent, IsNonFiniteName, ReadNat, ReadUnsigned;
    var e := "e" + esign + power;
    var t := whole + ("." + (fraction + e));
    NumeralEnds(whole, fraction, esign, power);
    ReadsSign(sign, t);
    SplitsPoint(whole, fraction, e);
    ReadsExponent(sign == "-", whole + fraction, |fraction|, esign, power);
    ReadsMantissa(sign == "-", t, whole, fraction, e);
  }

  lemma ReadsMantissa(neg: bool, t: string, whole: string, fraction: string, e: string)
    requires Digits(whole) && Digits(fraction) && whole != "" && SplitMantissa(t) == Mantissa(whole, fraction, e)
    ensures Digits(whole + fraction) && ReadUnsigned(neg, t) == ReadExponent(neg, whole + fraction, |fraction|, e)
  {
    assert whole + fraction != "";
    hide SplitMantissa, ReadExponent;
  }

  lemma NumeralEnds(whole: string, fraction: string, esign: string, power: string)
    requires Digits(whole) && Digits(fraction) && Digits(power) && whole != "" && power != "" && esign in ["", "+", "-"]
    ensures var t := whole + ("." + (fraction + ("e" + esign + power)));
            && t != "" && !IsSpace(t[0]) && !IsSpace(t[|t| - 1]) && t[0] !in ['+', '-'] && '_' !in t
    ensures !IsDigit(("e" + esign + power)[0])
  {
    var t := whole + ("." + (fraction + ("e" + esign + power)));
    assert IsDigit(whole[0]) && t[0] == whole[0] && t[|t| - 1] == power[|power| - 1] && IsDigit(power[|power| - 1]);
    assert '_' !in whole && '_' !in fraction && '_' !in power && '_' !in "e" + esign && '_' !in ".";
  }

  lemma SplitsPoint(whole: string, fraction: string, e: string)
    requires Digits(whole) && Digits(fraction) && (e == "" || !IsDigit(e[0]))
    ensures SplitMantissa(whole + ("." + (fraction + e))) == Mantissa(whole, fraction, e)
  {
    var s := whole + ("." + (fraction + e));
    DigitSpanStops(whole, "." + (fraction + e));
    assert s[|whole|] == '.' && s[..|whole|] == whole && s[|whole| + 1..] == fraction + e;
    DigitSpanStops(fraction, e);
    assert (fraction + e)[..|fraction|] == fraction && (fraction + e)[|fraction|..] == e;
  }

  lemma ReadsExponent(neg: bool, digits: string, frac: nat, esign: string, power: string)
    requires Digits(digits) && Digits(power) && power != "" && esign in ["", "+", "-"]
    ensures var k: int := ReadNat(power);
            ReadExponent(neg, digits, frac, "e" + esign + power)
            == Number(Dec(neg, ReadNat(digits), (if esign == "-" then -k else k) - frac))
  {
    var s := "e" + esign + power;
    assert IsDigit(power[0]);
    if esign == "" {
      assert s[1] == power[0] && s[1..] == power;
    } else {
      assert s[1] == esign[0] && s[2..] == power;
    }
  }

  /** Underscores in a number do not matter. */
  lemma {:induction false} UnderscoresDoNotMatter(a: string, b: string)
    requires a != "" && b != "" && Trimmed(a + b) && Trimmed(a + "_" + b)
    ensures ReadDecimal(a + "_" + b) == ReadDecimal(a + b)
  {
    StripTrimmed(a + b);
    StripTrimmed(a + "_" + b);
    RemovesOne(a, b);
    hide Strip, ReadUnsigned, RemoveUnderscores;
  }

  lemma {:induction false} RemovesOne(a: string, b: string)
    ensures RemoveUnderscores(a + "_" + b) == RemoveUnderscores(a + b)
  {
    if a == "" {
      assert a + "_" + b == "_" + b && ("_" + b)[1..] == b && a + b == b;
    } else {
      assert (a + "_" + b)[1..] == a[1..] + "_" + b && (a + b)[1..] == a[1..] + b;
      RemovesOne(a[1..], b);
    }
  }

  /** An infinity or a NaN, in any case and with a sign, is refused as not finite. */
  lemma {:induction false} NonFiniteRefused(sign: string, name: string)
    requires sign in ["", "+", "-"] && LowerAscii(name) in ["inf", "infinity", "nan", "snan"]
    ensures ToDecimal(sign + name) == Failure(NotFinite)
  {
    hide ReadDecimal, IsNonFiniteName, SplitMantissa;
    LettersOnly(name);
    ReadsSign(sign, name);
    NoDigits(name);
    NonFiniteName(name);
  }

  lemma LettersOnly(name: string)
    requires LowerAscii(name) in ["inf", "infinity", "nan", "snan"]
    ensures name != "" && forall k :: 0 <= k < |name| ==> 'a' <= LowerAscii(name)[k] <= 'z'
    ensures forall k :: 0 <= k < |name| ==> !IsSpace(name[k]) && !IsDigit(name[k]) && name[k] !in ['+', '-', '_', '.']
  {
    var l := LowerAscii(name);
    assert |l| == |name|;
    forall k | 0 <= k < |name| ensures !IsSpace(name[k]) && !IsDigit(name[k]) && name[k] !in ['+', '-', '_', '.'] {
      assert 'a' <= l[k] <= 'z';
    }
  }

  lemma NoDigits(s: string)
    requires s != "" && !IsDigit(s[0]) && s[0] != '.'
    ensures SplitMantissa(s) == Mantissa("", "", s)
  {
    assert DigitSpan(s) == 0;
  }

  lemma NonFiniteName(name: string)
    requires LowerAscii(name) in ["inf", "infinity", "nan", "snan"]
    ensures IsNonFiniteName(name)
  {
    var l := LowerAscii(name);
    assert l == "nan" ==> "nan" <= l && l[3..] == "";
    assert l == "snan" ==> "snan" <= l && l[4..] == "";
  }
}
