/**
 The left-to-right scan of one step's prose. `ScanFrom` and the token functions say what each position of the
 text means; `StepScanner` is the scanner object that walks the text and updates its lists.
 */
module Scanner {
  import opened Wrappers
  import opened Text
  import opened Decimals
  import opened Schema
  import opened QuantityText

  /** Everything a scan has collected so far. */
  datatype Scan = Scan(
    chunks: seq<Chunk>, ingredients: seq<IngredientUse>, cookware: seq<CookwareUse>, timers: seq<Timer>,
    temperatures: seq<Temperature>, uses: seq<string>, counter: nat)

  const START := Scan([], [], [], [], [], [], 0)

  /** A recognised token: its chunk, its length in the text, and the lists after it. */
  datatype Token = Token(chunk: Chunk, length: nat, after: Scan)

  /** What a scan depends on: the lookups, the states named so far, and the step's number. */
  datatype Context = Context(env: Env, names: map<string, string>, index: nat)

  predicate IsSigil(c: char) {
    c == '@' || c == '#' || c == '~' || c == '^'
  }

  predicate IsModifier(c: char) {
    c == '?' || c == '='
  }

  /** `_next`. */
  function MintId(prefix: string, index: nat, counter: nat): string {
    prefix + "_" + NatText(index) + "_" + NatText(counter)
  }

  /** Body between the first "{" of `s` and the "}" after it, and the position after that "}". */
  function Braced(s: string): (r: Option<(string, nat)>)
    ensures r.Some? ==> 0 < r.value.1 <= |s|
  {
    var open := IndexOf(s, '{');
    if open == |s| then None
    else
      var close := IndexOf(s[open..], '}');
      if open + close == |s| then None else Some((s[open + 1..open + close], open + close + 1))
  }

  /** A name up to the first "{", the braced body, and the position after the "}". */
  function Named(s: string): (r: Option<(string, string, nat)>)
    ensures r.Some? ==> 0 < r.value.2 <= |s|
  {
    var b := Braced(s);
    if b.None? then None else Some((s[..IndexOf(s, '{')], b.value.0, b.value.1))
  }

  function ModifierSpan(s: string): (n: nat)
    ensures n <= |s|
  {
    if s == "" || !IsModifier(s[0]) then 0 else 1 + ModifierSpan(s[1..])
  }

  type Attempt = Result<Option<Token>, ParseError>

  function StateToken(ctx: Context, s: string, st: Scan): (r: Attempt)
    ensures r.Success? && r.value.Some? ==> 0 < r.value.value.length <= |s|
  {
    var b := Braced(s);
    if b.None? || Strip(b.value.0) !in ctx.names then Success(None)
    else
      var id := ctx.names[Strip(b.value.0)];
      Success(Some(Token(StateChunk(id), b.value.1, if id in st.uses then st else st.(uses := st.uses + [id]))))
  }

  function IngredientToken(ctx: Context, s: string, st: Scan): (r: Attempt)
    requires s != ""
    ensures r.Success? && r.value.Some? ==> 0 < r.value.value.length <= |s|
  {
    var k := 1 + ModifierSpan(s[1..]);
    IngredientAfter(ctx, s[1..k], k, s[k..], st)
  }

  /** The token once its modifiers are read; `s` is the text after them, `offset` their end in the token. */
  function IngredientAfter(ctx: Context, mods: string, offset: nat, s: string, st: Scan): (r: Attempt)
    ensures r.Success? && r.value.Some? ==> offset < r.value.value.length <= offset + |s|
  {
    var n := Named(s);
    if n.None? then Success(None)
    else
      var q :- ParseQuantity(ctx.env, n.value.1, '=' in mods);
      var id := MintId("iuse", ctx.index, st.counter + 1);
      var use := IngredientUse(id, n.value.0, ctx.env.resolveName(n.value.0), q, '?' in mods, None, None);
      Success(Some(Token(IngredientChunk(id), offset + n.value.2,
                         st.(ingredients := st.ingredients + [use], counter := st.counter + 1))))
  }

  function CookwareToken(ctx: Context, s: string, st: Scan): (r: Attempt)
    requires s != ""
    ensures r.Success? && r.value.Some? ==> 0 < r.value.value.length <= |s|
  {
    var n := Named(s[1..]);
    if n.None? then Success(None)
    else
      var q :- ParseAmount(n.value.1);
      var id := MintId("cwu", ctx.index, st.counter + 1);
      Success(Some(Token(CookwareChunk(id), 1 + n.value.2,
                         st.(cookware := st.cookware + [CookwareUse(id, n.value.0, q, None)],
                             counter := st.counter + 1))))
  }

  function ParseAmount(body: string): Result<Option<Dec>, ParseError> {
    if Strip(body) == "" then Success(None)
    else
      var d :- ToDecimal(body);
      Success(Some(d))
  }

  function TimerToken(ctx: Context, s: string, st: Scan): (r: Attempt)
    requires s != ""
    ensures r.Success? && r.value.Some? ==> 0 < r.value.value.length <= |s|
  {
    var n := Named(s[1..]);
    if n.None? then Success(None)
    else
      var timer :- ParseTimer(ctx.env, n.value.0, n.value.1);
      Success(Some(Token(TimerChunk(|st.timers|), 1 + n.value.2, st.(timers := st.timers + [timer]))))
  }

  /** An empty body is a unitless zero; a count or an approximation is not a duration. */
  function ParseTimer(env: Env, name: string, body: string): Result<Timer, ParseError> {
    var spec :- ParseQuantity(env, body, false);
    var q := if spec.Some? then spec.value.quantity else Scalar(ZERO, None);
    if q.Scalar? || q.Range? then Success(Timer(if name == "" then None else Some(name), q))
    else Failure(TimerNeedsUnit)
  }

  function TemperatureToken(ctx: Context, s: string, st: Scan): (r: Attempt)
    ensures r.Success? && r.value.Some? ==> 0 < r.value.value.length <= |s|
  {
    var b := Braced(s);
    if b.None? then Success(None)
    else
      var t :- ParseTemperature(b.value.0);
      Success(Some(Token(TemperatureChunk(|st.temperatures|), b.value.1,
                         st.(temperatures := st.temperatures + [t]))))
  }

  function ParseTemperature(body: string): Result<Temperature, ParseError> {
    var k := IndexOf(body, '%');
    var unit := if k < |body| then body[k + 1..] else "";
    var d :- ToDecimal(body[..k]);
    if unit == "" || unit == "C" then Success(Temperature(d, C))
    else if unit == "F" then Success(Temperature(d, F))
    else Failure(BadTemperatureUnit)
  }

  /** `_try_token`. */
  function TryToken(ctx: Context, s: string, st: Scan): (r: Attempt)
    requires s != "" && IsSigil(s[0])
    ensures r.Success? && r.value.Some? ==> 0 < r.value.value.length <= |s|
  {
    if "@&{" <= s then StateToken(ctx, s, st)
    else if s[0] == '@' then IngredientToken(ctx, s, st)
    else if s[0] == '#' then CookwareToken(ctx, s, st)
    else if s[0] == '~' then TimerToken(ctx, s, st)
    else TemperatureToken(ctx, s, st)
  }

  function Flush(literal: string, st: Scan): Scan {
    if literal == "" then st else st.(chunks := st.chunks + [LiteralChunk(literal)])
  }

  function Append(st: Scan, c: Chunk): Scan {
    st.(chunks := st.chunks + [c])
  }

  /** `run` from a point where `s` is the text left and `literal` the prose not yet flushed. */
  function ScanFrom(ctx: Context, s: string, literal: string, st: Scan): Result<Scan, ParseError>
    decreases |s|
  {
    if s == "" then Success(Flush(literal, st))
    else if !IsSigil(s[0]) then ScanFrom(ctx, s[1..], literal + [s[0]], st)
    else
      var t :- TryToken(ctx, s, st);
      if t.Some? then ScanFrom(ctx, s[t.value.length..], "", Append(Flush(literal, t.value.after), t.value.chunk))
      else ScanFrom(ctx, s[1..], literal + [s[0]], st)
  }

  /** `r` is the outcome of an attempt at position i that took the lists from `before` to `after`. */
  predicate Outcome(before: Scan, after: Scan, i: nat, attempt: Attempt, r: Result<Option<(Chunk, nat)>, ParseError>) {
    match attempt
    case Failure(e) => r == Failure(e)
    case Success(None) => r == Success(None) && after == before
    case Success(Some(t)) => r == Success(Some((t.chunk, i + t.length))) && after == t.after
  }

  lemma SuffixParts(text: string, i: nat, k: nat)
    requires i < k <= |text|
    ensures text[i..][1..] == text[i + 1..]
    ensures text[i..][1..k - i] == text[i + 1..][..k - (i + 1)]
    ensures text[i..][k - i..] == text[k..]
  {
  }

  // ----- the scanner object ---------------------------------------------------------

  class StepScanner {
    const text: string
    const ctx: Context
    var chunks: seq<Chunk>
    var ingredients: seq<IngredientUse>
    var cookware: seq<CookwareUse>
    var timers: seq<Timer>
    var temperatures: seq<Temperature>
    var uses: seq<string>
    var counter: nat

    constructor (text: string, ctx: Context)
      ensures this.text == text && this.ctx == ctx && State() == START
    {
      this.text := text;
      this.ctx := ctx;
      chunks, ingredients, cookware, timers, temperatures, uses, counter := [], [], [], [], [], [], 0;
    }

    function State(): Scan
      reads this
    {
      Scan(chunks, ingredients, cookware, timers, temperatures, uses, counter)
    }

    method Next(prefix: string) returns (id: string)
      modifies this`counter
      ensures counter == old(counter) + 1 && id == MintId(prefix, ctx.index, counter)
    {
      counter := counter + 1;
      id := MintId(prefix, ctx.index, counter);
    }

    method TryState(i: nat) returns (r: Result<Option<(Chunk, nat)>, ParseError>)
      requires i < |text|
      modifies this
      ensures Outcome(old(State()), State(), i, StateToken(ctx, text[i..], old(State())), r)
    {
      var b := Braced(text[i..]);
      if b.None? || Strip(b.value.0) !in ctx.names {
        return Success(None);
      }
      var id := ctx.names[Strip(b.value.0)];
      if id !in uses {
        uses := uses + [id];
      }
      r := Success(Some((StateChunk(id), i + b.value.1)));
    }

    /** The "?" and "=" signs at position i, and the position after them. */
    method ReadModifiers(i: nat) returns (mods: string, k: nat)
      requires i <= |text|
      ensures k == i + ModifierSpan(text[i..]) && mods == text[i..][..k - i]
    {
      k, mods := i, "";
      while k < |text| && IsModifier(text[k])
        invariant i <= k <= |text| && mods == text[i..k]
        invariant ModifierSpan(text[i..]) == k - i + ModifierSpan(text[k..])
      {
        mods := mods + [text[k]];
        assert text[k..][1..] == text[k + 1..];
        k := k + 1;
      }
      assert ModifierSpan(text[k..]) == 0;
      assert text[i..][..k - i] == text[i..k];
    }

    method TryIngredient(i: nat) returns (r: Result<Option<(Chunk, nat)>, ParseError>)
      requires i < |text|
      modifies this
      ensures Outcome(old(State()), State(), i, IngredientToken(ctx, text[i..], old(State())), r)
    {
      hide IngredientAfter, Outcome;
      var mods, k := ReadModifiers(i + 1);
      SuffixParts(text, i, k);
      r := TryUse(mods, i, k);
      assert IngredientToken(ctx, text[i..], old(State()))
        == IngredientAfter(ctx, mods, k - i, text[k..], old(State()));
    }

    /** The ingredient whose modifiers are read, with its name at position k. */
    method TryUse(mods: string, i: nat, k: nat) returns (r: Result<Option<(Chunk, nat)>, ParseError>)
      requires i < k <= |text|
      modifies this
      ensures Outcome(old(State()), State(), i, IngredientAfter(ctx, mods, k - i, text[k..], old(State())), r)
    {
      var n := Named(text[k..]);
      if n.None? {
        return Success(None);
      }
      var q :- ParseQuantity(ctx.env, n.value.1, '=' in mods);
      var id := Next("iuse");
      ingredients := ingredients
        + [IngredientUse(id, n.value.0, ctx.env.resolveName(n.value.0), q, '?' in mods, None, None)];
      r := Success(Some((IngredientChunk(id), k + n.value.2)));
    }

    method TryCookware(i: nat) returns (r: Result<Option<(Chunk, nat)>, ParseError>)
      requires i < |text|
      modifies this
      ensures Outcome(old(State()), State(), i, CookwareToken(ctx, text[i..], old(State())), r)
    {
      hide Named, ParseAmount, MintId;
      assert text[i..][1..] == text[i + 1..];
      var n := Named(text[i + 1..]);
      if n.None? {
        return Success(None);
      }
      var q :- ParseAmount(n.value.1);
      var id := Next("cwu");
      cookware := cookware + [CookwareUse(id, n.value.0, q, None)];
      r := Success(Some((CookwareChunk(id), i + 1 + n.value.2)));
    }

    method TryTimer(i: nat) returns (r: Result<Option<(Chunk, nat)>, ParseError>)
      requires i < |text|
      modifies this
      ensures Outcome(old(State()), State(), i, TimerToken(ctx, text[i..], old(State())), r)
    {
      hide Named, ParseTimer;
      assert text[i..][1..] == text[i + 1..];
      var n := Named(text[i + 1..]);
      if n.None? {
        return Success(None);
      }
      var timer :- ParseTimer(ctx.env, n.value.0, n.value.1);
      var index := |timers|;
      timers := timers + [timer];
      r := Success(Some((TimerChunk(index), i + 1 + n.value.2)));
    }

    method TryTemperature(i: nat) returns (r: Result<Option<(Chunk, nat)>, ParseError>)
      requires i < |text|
      modifies this
      ensures Outcome(old(State()), State(), i, TemperatureToken(ctx, text[i..], old(State())), r)
    {
      hide Braced, ParseTemperature;
      var b := Braced(text[i..]);
      if b.None? {
        return Success(None);
      }
      var t :- ParseTemperature(b.value.0);
      var index := |temperatures|;
      temperatures := temperatures + [t];
      r := Success(Some((TemperatureChunk(index), i + b.value.1)));
    }

    method TryTokenAt(i: nat) returns (r: Result<Option<(Chunk, nat)>, ParseError>)
      requires i < |text| && IsSigil(text[i])
      modifies this
      ensures Outcome(old(State()), State(), i, TryToken(ctx, text[i..], old(State())), r)
    {
      var s := text[i..];
      if "@&{" <= s {
        r := TryState(i);
      } else if text[i] == '@' {
        r := TryIngredient(i);
      } else if text[i] == '#' {
        r := TryCookware(i);
      } else if text[i] == '~' {
        r := TryTimer(i);
      } else {
        r := TryTemperature(i);
      }
    }

    /** Scans the whole text; the lists end as `ScanFrom` says, or the same error is raised. */
    method Run() returns (r: Result<(), ParseError>)
      modifies this
      ensures match ScanFrom(ctx, text, "", old(State()))
              case Failure(e) => r == Failure(e)
              case Success(st) => r == Success(()) && State() == st
    {
      hide TryToken;
      ghost var goal := ScanFrom(ctx, text, "", State());
      var literal := "";
      var i := 0;
      assert text[0..] == text;
      while i < |text|
        invariant 0 <= i <= |text|
        invariant goal == ScanFrom(ctx, text[i..], literal, State())
      {
        assert text[i..][1..] == text[i + 1..];
        var t: Option<(Chunk, nat)> := None;
        if IsSigil(text[i]) {
          t :- TryTokenAt(i);
        }
        if t.Some? {
          assert text[i..][t.value.1 - i..] == text[t.value.1..];
          if literal != "" {
            chunks := chunks + [LiteralChunk(literal)];
            literal := "";
          }
          chunks := chunks + [t.value.0];
          i := t.value.1;
        } else {
          literal := literal + [text[i]];
          i := i + 1;
        }
      }
      if literal != "" {
        chunks := chunks + [LiteralChunk(literal)];
      }
      r := Success(());
    }
  }
}
