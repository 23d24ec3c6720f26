/** The quantity between the braces of a token: how it is printed, and what parsing it gives back. */
module QuantityText {
  import opened Wrappers
  import opened Text
  import opened Decimals
  import opened Schema

  /** The lookups the parser makes outside the grammar, as functions of the surface text. */
  datatype Env = Env(
    slug: string -> string,
    resolveName: string -> Option<string>,
    resolveUnit: string -> Option<string>,
    approxToken: string -> string)

  /** Why a document is refused. */
  datatype ParseError =
    | BadDecimal
    | NotFinite
    | UnorderedRange
    | TimerNeedsUnit
    | BadTemperatureUnit
    | InvalidAction
    | InvalidGraph

  function SizeText(s: Size): string {
    match s
    case Tiny => "tiny"
    case Small => "small"
    case Medium => "medium"
    case Large => "large"
    case XLarge => "xlarge"
  }

  function SizeOf(s: string): (r: Option<Size>)
    ensures r.Some? ==> SizeText(r.value) == s
  {
    if s == "tiny" then Some(Tiny)
    else if s == "small" then Some(Small)
    else if s == "medium" then Some(Medium)
    else if s == "large" then Some(Large)
    else if s == "xlarge" then Some(XLarge)
    else None
  }

  // ----- printing ---------------------------------------------------------------

  /** `_bare_quantity_body`. */
  function PrintQuantity(q: Quantity): string {
    match q
    case Scalar(v, unit) => if unit.Some? then Encode(v) + "%" + unit.value.surface else Encode(v)
    case Range(low, high, unit) =>
      var body := Encode(low) + "-" + Encode(high);
      if unit.Some? then body + "%" + unit.value.surface else body
    case Count(v, top, size) =>
      if size.Some? then Encode(v) + "%" + SizeText(size.value)
      else if top.Some? then Encode(v) + "-" + Encode(top.value)
      else Encode(v)
    case Approx(_, surface, _) => surface
  }

  /** `_quantity_body`. */
  function PrintSpec(s: Option<Spec>): string {
    if s.Some? then PrintQuantity(s.value.quantity) else ""
  }

  // ----- parsing ----------------------------------------------------------------

  function ToDecimal(s: string): Result<Dec, ParseError> {
    match ReadDecimal(s)
    case Number(d) => Success(d)
    case NonFinite => Failure(NotFinite)
    case NotNumber => Failure(BadDecimal)
  }

  /** `_is_number`: infinities and NaNs count as numbers here. */
  predicate IsNumber(s: string) {
    !ReadDecimal(Strip(s)).NotNumber?
  }

  /** `number_part.split("-", 1)` read as two ordered decimals. */
  function ParseBounds(number: string): (r: Result<(Dec, Dec), ParseError>)
    requires '-' in number
    ensures r.Success? ==> Value(r.value.0) <= Value(r.value.1)
  {
    var d := IndexOf(number, '-');
    var low :- ToDecimal(number[..d]);
    var high :- ToDecimal(number[d + 1..]);
    if Value(low) <= Value(high)
    then Success((low, high))
    else Failure(UnorderedRange)
  }

  function Scaling(fixed: bool): Policy {
    if fixed then Invariant else Linear
  }

  /** The part of `_parse_quantity` after a "%": a size grade or a unit. */
  function ParseWithUnit(env: Env, number: string, surface: string, fixed: bool): (r: Result<Spec, ParseError>)
    ensures r.Success? ==> ValidSpec(r.value)
  {
    if SizeOf(surface).Some? then
      var v :- ToDecimal(number);
      Success(Spec(Count(v, None, SizeOf(surface)), Linear))
    else
      var unit := Some(UnitRef(env.resolveUnit(surface), surface, None));
      if '-' in number then
        var b :- ParseBounds(number);
        Success(Spec(Range(b.0, b.1, unit), Scaling(fixed)))
      else
        var v :- ToDecimal(number);
        Success(Spec(Scalar(v, unit), Scaling(fixed)))
  }

  /** The part of `_parse_quantity` without a "%": a counted range, a count, or an approximation. */
  function ParseBare(env: Env, body: string, fixed: bool): (r: Result<Spec, ParseError>) {
    if '-' in body && IsNumber(body[..IndexOf(body, '-')]) then
      var b :- ParseBounds(body);
      Success(Spec(Count(b.0, Some(b.1), None), Linear))
    else if IsNumber(body) then
      var v :- ToDecimal(body);
      Success(Spec(Count(v, None, None), Scaling(fixed)))
    else Success(Spec(Approx(env.approxToken(body), body, None), Invariant))
  }

  /** `_parse_quantity`. */
  function ParseQuantity(env: Env, text: string, fixed: bool): Result<Option<Spec>, ParseError> {
    var body := Strip(text);
    if body == "" then Success(None)
    else
      var k := IndexOf(body, '%');
      var s :- if k < |body| then ParseWithUnit(env, Strip(body[..k]), Strip(body[k + 1..]), fixed)
               else ParseBare(env, body, fixed);
      Success(Some(s))
  }

  /** Whatever parses is a quantity the schema accepts. */
  lemma {:induction false} ParsedSpecValid(env: Env, text: string, fixed: bool)
    ensures var r := ParseQuantity(env, text, fixed);
            r.Success? && r.value.Some? ==> ValidSpec(r.value.value)
  {
    BareSpecValid(env, Strip(text), fixed);
  }

  lemma BareSpecValid(env: Env, body: string, fixed: bool)
    ensures var r := ParseBare(env, body, fixed);
            r.Success? ==> ValidSpec(r.value)
  {
  }

  // ----- what comes back ---------------------------------------------------------

  /** The quantity whose text the parser reads back as a quantity at all. */
  predicate Writable(q: Quantity) {
    match q
    case Scalar(v, None) => true
    case Scalar(v, Some(u)) => WritableSurface(u.surface) && (IsNegative(v) ==> SizeOf(u.surface).Some?)
    case Range(low, high, None) => !IsNegative(low)
    case Range(low, high, Some(u)) => WritableSurface(u.surface) && !IsNegative(low) && SizeOf(u.surface).None?
    case Count(v, top, size) => size.None? && top.Some? ==> !IsNegative(v)
    case Approx(_, surface, _) => WritableApprox(surface)
  }

  predicate WritableSurface(s: string) {
    Trimmed(s) && '}' !in s && '\n' !in s
  }

  predicate WritableApprox(s: string) {
    && s != "" && Trimmed(s) && '}' !in s && '\n' !in s && '%' !in s
    && !IsNumber(s)
    && ('-' in s ==> !IsNumber(s[..IndexOf(s, '-')]))
  }

  /** The quantity that parsing the printed text of `q` gives. */
  function ReadBackQuantity(env: Env, q: Quantity): Quantity {
    match q
    case Scalar(v, None) => Count(Plain(v), None, None)
    case Scalar(v, Some(u)) =>
      if SizeOf(u.surface).Some? then Count(Plain(v), None, SizeOf(u.surface))
      else Scalar(Plain(v), Some(ReadBackUnit(env, u)))
    case Range(low, high, None) => Count(Plain(low), Some(Plain(high)), None)
    case Range(low, high, Some(u)) => Range(Plain(low), Plain(high), Some(ReadBackUnit(env, u)))
    case Count(v, top, size) =>
      if size.Some? then Count(Plain(v), None, size)
      else if top.Some? then Count(Plain(v), Some(Plain(top.value)), None)
      else Count(Plain(v), None, None)
    case Approx(_, surface, _) => Approx(env.approxToken(surface), surface, None)
  }

  function ReadBackUnit(env: Env, u: UnitRef): UnitRef {
    UnitRef(env.resolveUnit(u.surface), u.surface, None)
  }

  /** The policy that comes back: sized counts and counted ranges always LINEAR, approximations always INVARIANT. */
  function ReadBackScaling(q: Quantity, fixed: bool): Policy {
    match q
    case Approx(_, _, _) => Invariant
    case Count(_, None, None) => Scaling(fixed)
    case Count(_, _, _) => Linear
    case _ => Scaling(fixed)
  }

  function ReadBackSpec(env: Env, s: Spec): Spec {
    var q := ReadBackQuantity(env, s.quantity);
    Spec(q, ReadBackScaling(q, s.scaling.Invariant?))
  }

  // ----- parsing undoes printing ---------------------------------------------------

  lemma EncodeHasNo(d: Dec, c: char)
    requires !IsNumeralChar(c)
    ensures c !in Encode(d)
  {
    EncodeShape(d);
  }

  lemma SplitAtPercent(number: string, surface: string)
    requires number != "" && Trimmed(number) && '%' !in number && Trimmed(surface)
    ensures var t := number + "%" + surface;
            && t != "" && Strip(t) == t && IndexOf(t, '%') == |number| < |t|
            && t[..|number|] == number && t[|number| + 1..] == surface
  {
    var t := number + "%" + surface;
    assert t[0] == number[0] && t[|t| - 1] == if surface == "" then '%' else surface[|surface| - 1];
    StripTrimmed(t);
    IndexOfSkips(number, '%', surface);
  }

  lemma WithUnitText(env: Env, number: string, surface: string, fixed: bool)
    requires number != "" && Trimmed(number) && '%' !in number && Trimmed(surface)
    ensures var r := ParseWithUnit(env, number, surface, fixed);
            r.Success? ==> ParseQuantity(env, number + "%" + surface, fixed) == Success(Some(r.value))
  {
    SplitAtPercent(number, surface);
    StripTrimmed(number);
    StripTrimmed(surface);
  }

  lemma BareText(env: Env, t: string, fixed: bool)
    requires t != "" && Trimmed(t) && '%' !in t
    ensures var r := ParseBare(env, t, fixed);
            r.Success? ==> ParseQuantity(env, t, fixed) == Success(Some(r.value))
  {
    StripTrimmed(t);
  }

  /** `t` is a text that splits at its first "-" into the texts of `low` and `high`. */
  predicate IsBounds(t: string, low: Dec, high: Dec) {
    && t != "" && Trimmed(t) && '%' !in t && '-' in t
    && t[..IndexOf(t, '-')] == Encode(low) && t[IndexOf(t, '-') + 1..] == Encode(high)
  }

  lemma BoundsText(low: Dec, high: Dec)
    requires !IsNegative(low)
    ensures IsBounds(Encode(low) + "-" + Encode(high), low, high)
  {
    NumberText(low);
    NumberText(high);
    JoinBounds(Encode(low), Encode(high));
  }

  lemma JoinBounds(l: string, h: string)
    requires l != "" && h != "" && Trimmed(l) && Trimmed(h)
    requires '%' !in l && '%' !in h && '-' !in l
    ensures var t := l + "-" + h;
            && t != "" && Trimmed(t) && '%' !in t && '-' in t
            && IndexOf(t, '-') == |l| && t[..|l|] == l && t[|l| + 1..] == h
  {
    var t := l + "-" + h;
    assert t[0] == l[0] && t[|t| - 1] == h[|h| - 1] && t[|l|] == '-';
    IndexOfSkips(l, '-', h);
  }

  lemma ParsePrintedBounds(t: string, low: Dec, high: Dec)
    requires IsBounds(t, low, high) && Value(low) <= Value(high)
    ensures ParseBounds(t) == Success((Plain(low), Plain(high)))
  {
    ReadEncode(low);
    ReadEncode(high);
  }

  lemma NumberText(d: Dec)
    ensures var t := Encode(d);
            && t != "" && Trimmed(t) && '%' !in t && ToDecimal(t) == Success(Plain(d)) && IsNumber(t)
            && ('-' in t <==> IsNegative(d))
            && (IsNegative(d) ==> t[0] == '-')
  {
    EncodeShape(d);
    EncodeHasNo(d, '%');
    ReadEncode(d);
    StripTrimmed(Encode(d));
  }

  lemma EmptyIsNotNumber()
    ensures !IsNumber("")
  {
    assert SplitMantissa("") == Mantissa("", "", "");
  }

  /** A negative bare count is not mistaken for a range: nothing precedes its "-". */
  lemma CountText(env: Env, d: Dec, fixed: bool)
    ensures ParseBare(env, Encode(d), fixed) == Success(Spec(Count(Plain(d), None, None), Scaling(fixed)))
  {
    NumberText(d);
    EmptyIsNotNumber();
    if IsNegative(d) {
      assert Encode(d)[..IndexOf(Encode(d), '-')] == "";
    }
  }

  lemma CountRangeText(env: Env, t: string, low: Dec, high: Dec, fixed: bool)
    requires IsBounds(t, low, high) && Value(low) <= Value(high)
    ensures ParseBare(env, t, fixed) == Success(Spec(Count(Plain(low), Some(Plain(high)), None), Linear))
  {
    ParsePrintedBounds(t, low, high);
    NumberText(low);
  }

  lemma RangeText(env: Env, t: string, low: Dec, high: Dec, u: UnitRef, fixed: bool)
    requires IsBounds(t, low, high) && Value(low) <= Value(high) && SizeOf(u.surface).None?
    ensures ParseWithUnit(env, t, u.surface, fixed)
         == Success(Spec(Range(Plain(low), Plain(high), Some(ReadBackUnit(env, u))), Scaling(fixed)))
  {
    ParsePrintedBounds(t, low, high);
  }

  lemma ScalarText(env: Env, d: Dec, surface: string, fixed: bool)
    requires IsNegative(d) ==> SizeOf(surface).Some?
    ensures ParseWithUnit(env, Encode(d), surface, fixed)
         == Success(if SizeOf(surface).Some? then Spec(Count(Plain(d), None, SizeOf(surface)), Linear)
                    else Spec(Scalar(Plain(d), Some(UnitRef(env.resolveUnit(surface), surface, None))), Scaling(fixed)))
  {
    NumberText(d);
  }

  lemma SizeRoundTrip(s: Size)
    ensures SizeOf(SizeText(s)) == Some(s) && Trimmed(SizeText(s))
  {
  }

  lemma ParsePrintedCount(env: Env, v: Dec, fixed: bool)
    ensures ParseQuantity(env, Encode(v), fixed)
         == Success(Some(Spec(Count(Plain(v), None, None), Scaling(fixed))))
  {
    NumberText(v);
    CountText(env, v, fixed);
    BareText(env, Encode(v), fixed);
  }

  lemma ParsePrintedCountRange(env: Env, low: Dec, high: Dec, fixed: bool)
    requires !IsNegative(low) && Value(low) <= Value(high)
    ensures ParseQuantity(env, Encode(low) + "-" + Encode(high), fixed)
         == Success(Some(Spec(Count(Plain(low), Some(Plain(high)), None), Linear)))
  {
    var t := Encode(low) + "-" + Encode(high);
    BoundsText(low, high);
    CountRangeText(env, t, low, high, fixed);
    BareText(env, t, fixed);
  }

  lemma ParsePrintedScalar(env: Env, v: Dec, surface: string, fixed: bool)
    requires Trimmed(surface) && (IsNegative(v) ==> SizeOf(surface).Some?)
    ensures ParseQuantity(env, Encode(v) + "%" + surface, fixed)
         == Success(Some(if SizeOf(surface).Some? then Spec(Count(Plain(v), None, SizeOf(surface)), Linear)
                         else Spec(Scalar(Plain(v), Some(UnitRef(env.resolveUnit(surface), surface, None))),
                                   Scaling(fixed))))
  {
    NumberText(v);
    ScalarText(env, v, surface, fixed);
    WithUnitText(env, Encode(v), surface, fixed);
  }

  lemma ParsePrintedRange(env: Env, low: Dec, high: Dec, u: UnitRef, fixed: bool)
    requires !IsNegative(low) && Value(low) <= Value(high) && Trimmed(u.surface) && SizeOf(u.surface).None?
    ensures ParseQuantity(env, Encode(low) + "-" + Encode(high) + "%" + u.surface, fixed)
         == Success(Some(Spec(Range(Plain(low), Plain(high), Some(ReadBackUnit(env, u))), Scaling(fixed))))
  {
    var t := Encode(low) + "-" + Encode(high);
    BoundsText(low, high);
    RangeText(env, t, low, high, u, fixed);
    WithUnitText(env, t, u.surface, fixed);
  }

  lemma ParsePrintedApprox(env: Env, surface: string, fixed: bool)
    requires WritableApprox(surface)
    ensures ParseQuantity(env, surface, fixed)
         == Success(Some(Spec(Approx(env.approxToken(surface), surface, None), Invariant)))
  {
    BareText(env, surface, fixed);
  }

  /** Parsing the printed text of `q` gives exactly `ReadBackQuantity`, and reads no "=" into the wrong shape. */
  predicate ParsesBack(env: Env, q: Quantity, fixed: bool) {
    var back := ReadBackQuantity(env, q);
    ParseQuantity(env, PrintQuantity(q), fixed) == Success(Some(Spec(back, ReadBackScaling(back, fixed))))
  }

  lemma ScalarParsesBack(env: Env, q: Quantity, fixed: bool)
    requires q.Scalar? && Writable(q)
    ensures ParsesBack(env, q, fixed)
  {
    hide ParseQuantity, Encode, Plain, SizeOf, IsNegative;
    if q.unit.None? {
      ParsePrintedCount(env, q.value, fixed);
    } else {
      var surface := q.unit.value.surface;
      ParsePrintedScalar(env, q.value, surface, fixed);
      assert PrintQuantity(q) == Encode(q.value) + "%" + surface;
    }
  }

  lemma RangeParsesBack(env: Env, q: Quantity, fixed: bool)
    requires q.Range? && ValidQuantity(q) && Writable(q)
    ensures ParsesBack(env, q, fixed)
  {
    match q.unit
    case None => ParsePrintedCountRange(env, q.low, q.high, fixed);
    case Some(u) => ParsePrintedRange(env, q.low, q.high, u, fixed);
  }

  lemma CountParsesBack(env: Env, q: Quantity, fixed: bool)
    requires q.Count? && ValidQuantity(q) && Writable(q)
    ensures ParsesBack(env, q, fixed)
  {
    hide ParseQuantity, Encode, Plain, Value, IsNegative;
    if q.size.Some? {
      SizedCountParsesBack(env, q, fixed);
    } else if q.top.Some? {
      ParsePrintedCountRange(env, q.value, q.top.value, fixed);
    } else {
      ParsePrintedCount(env, q.value, fixed);
    }
  }

  lemma SizedCountParsesBack(env: Env, q: Quantity, fixed: bool)
    requires q.Count? && q.size.Some?
    ensures ParsesBack(env, q, fixed)
  {
    hide ParseQuantity, Encode, Plain, SizeText, SizeOf;
    SizeRoundTrip(q.size.value);
    ParsePrintedScalar(env, q.value, SizeText(q.size.value), fixed);
  }

  lemma {:induction false} ParsePrintedQuantity(env: Env, q: Quantity, fixed: bool)
    requires ValidQuantity(q) && Writable(q)
    ensures ParsesBack(env, q, fixed)
  {
    match q
    case Scalar(_, _) => ScalarParsesBack(env, q, fixed);
    case Range(_, _, _) => RangeParsesBack(env, q, fixed);
    case Count(_, _, _) => CountParsesBack(env, q, fixed);
    case Approx(_, surface, _) => ParsePrintedApprox(env, surface, fixed);
  }

  // ----- when nothing is lost --------------------------------------------------------

  /** Same shape, numerically equal, same units, sizes, tokens and surfaces. */
  predicate SameQuantity(p: Quantity, q: Quantity) {
    match (p, q)
    case (Scalar(v, u), Scalar(w, x)) => Value(v) == Value(w) && u == x
    case (Range(l, h, u), Range(m, i, x)) => Value(l) == Value(m) && Value(h) == Value(i) && u == x
    case (Count(v, t, s), Count(w, u, r)) =>
      Value(v) == Value(w) && s == r && t.Some? == u.Some? && (t.Some? ==> Value(t.value) == Value(u.value))
    case (Approx(t, s, n), Approx(u, r, m)) => t == u && s == r && SameAmount(n, m)
    case _ => false
  }

  predicate SameAmount(n: Option<Nominal>, m: Option<Nominal>) {
    n.Some? == m.Some? && (n.Some? ==> Value(n.value.value) == Value(m.value.value) && n.value.unit == m.value.unit)
  }

  /** The shapes the text can express without turning into another shape. */
  predicate Expressible(q: Quantity) {
    match q
    case Scalar(_, unit) => unit.Some? && SizeOf(unit.value.surface).None?
    case Range(_, _, unit) => unit.Some? && SizeOf(unit.value.surface).None?
    case Count(_, top, size) => !(top.Some? && size.Some?)
    case Approx(_, _, _) => true
  }

  /** The policies that survive: a "=" is kept only on units and plain counts, and always put on approximations. */
  predicate PolicyKept(s: Spec) {
    match s.quantity
    case Approx(_, _, _) => s.scaling.Invariant?
    case Count(_, None, None) => s.scaling.Linear? || s.scaling.Invariant?
    case Count(_, _, _) => s.scaling.Linear?
    case _ => s.scaling.Linear? || s.scaling.Invariant?
  }

  /** The unit and the token are those the lookups give for the text, and nothing the text leaves out is there. */
  predicate LookedUp(env: Env, q: Quantity) {
    match q
    case Scalar(_, unit) => unit.Some? ==> unit.value == ReadBackUnit(env, unit.value)
    case Range(_, _, unit) => unit.Some? ==> unit.value == ReadBackUnit(env, unit.value)
    case Count(_, _, _) => true
    case Approx(token, surface, nominal) => token == env.approxToken(surface) && nominal.None?
  }

  predicate SameSpec(s: Spec, t: Spec) {
    SameQuantity(s.quantity, t.quantity) && s.scaling == t.scaling
  }

  /**
   A printed quantity comes back as itself exactly when its shape and its policy are expressible and its lookups agree.
   */
  lemma {:induction false} SpecSurvivesIff(env: Env, s: Spec)
    requires Writable(s.quantity)
    ensures SameSpec(s, ReadBackSpec(env, s)) <==> Expressible(s.quantity) && PolicyKept(s) && LookedUp(env, s.quantity)
  {
    match s.quantity
    case Scalar(v, _) => PlainValue(v);
    case Range(low, high, _) =>
      PlainValue(low);
      PlainValue(high);
    case Count(v, None, _) => PlainValue(v);
    case Count(v, Some(top), _) =>
      PlainValue(v);
      PlainValue(top);
    case Approx(_, _, _) =>
  }

  lemma PlainTextSame(d: Dec)
    ensures Encode(Plain(d)) == Encode(d)
  {
    PlainValue(d);
    EncodeComplete(Plain(d), d);
  }

  /** The quantity text is stable: printing what came back gives the same text. */
  lemma {:induction false} QuantityTextStable(env: Env, q: Quantity)
    ensures PrintQuantity(ReadBackQuantity(env, q)) == PrintQuantity(q)
  {
    match q
    case Scalar(v, _) => PlainTextSame(v);
    case Range(low, high, _) =>
      PlainTextSame(low);
      PlainTextSame(high);
    case Count(v, None, _) => PlainTextSame(v);
    case Count(v, Some(top), _) =>
      PlainTextSame(v);
      PlainTextSame(top);
    case Approx(_, _, _) =>
  }
}
