/** The document of a recipe: equal exactly for recipes that agree field by field in everything but the bookkeeping. */
module RecipeDocuments {
  import opened Wrappers
  import D = Decimals
  import S = Schema
  import opened CanonicalDocument
  import opened CanonicalLaws
  import opened CanonicalEquality
  import opened DocumentShapes
  import opened QuantityDocuments
  import opened RecipeClasses

  // ----- dictionaries of texts ----------------------------------------------------------------

  function DictValue(p: Texts): Value {
    Mapping(seq(|p|, i requires 0 <= i < |p| => Entry(Some(p[i].0), Text(p[i].1))))
  }

  /** What the document holds under a key: the last entry whose normalised key it is. */
  function LookUp(norm: Normalize, p: Texts, key: string): Option<string> {
    if p == [] then None
    else if norm(p[|p| - 1].0) == key then Some(norm(p[|p| - 1].1))
    else LookUp(norm, p[..|p| - 1], key)
  }

  /** The same texts under the same keys, up to normalisation and the order of the entries. */
  ghost predicate SameDict(norm: Normalize, p: Texts, q: Texts) {
    forall key :: LookUp(norm, p, key) == LookUp(norm, q, key)
  }

  lemma {:induction false} LastLooksUp(norm: Normalize, p: Texts, k: nat, key: string)
    requires k <= |p|
    ensures var i := Last(norm, DictValue(p), k, key);
            LookUp(norm, p[..k], key) == if i.Some? then Some(norm(p[i.value].1)) else None
  {
    if k > 0 {
      LastLooksUp(norm, p, k - 1, key);
      assert p[..k][..k - 1] == p[..k - 1];
    }
  }

  lemma DictMemberIff(norm: Normalize, p: Texts, q: Texts, key: string)
    ensures SameMember(norm, DictValue(p), DictValue(q), key) <==> LookUp(norm, p, key) == LookUp(norm, q, key)
  {
    LastLooksUp(norm, p, |p|, key);
    LastLooksUp(norm, q, |q|, key);
    assert p[..|p|] == p && q[..|q|] == q;
    hide Last, LookUp;
  }

  lemma DictMissing(norm: Normalize, p: Texts)
    ensures Missing(norm, DictValue(p)) <==> p == []
  {
    if p != [] {
      assert NameAt(norm, DictValue(p), 0).Some? && !Missing(norm, ValueAt(DictValue(p), 0));
    }
  }

  lemma {:induction false} DictSameIff(norm: Normalize, p: Texts, q: Texts)
    ensures Same(norm, DictValue(p), DictValue(q)) <==> SameDict(norm, p, q)
  {
    hide LookUp, SameMember, DictValue;
    DictIsObject(p);
    DictIsObject(q);
    forall key
      ensures SameMember(norm, DictValue(p), DictValue(q), key) <==> LookUp(norm, p, key) == LookUp(norm, q, key) {
      DictMemberIff(norm, p, q, key);
    }
    if Same(norm, DictValue(p), DictValue(q)) {
      forall key ensures LookUp(norm, p, key) == LookUp(norm, q, key) {
        assert SameMember(norm, DictValue(p), DictValue(q), key);
      }
    }
  }

  lemma DictIsObject(p: Texts)
    ensures DictValue(p).Mapping?
  {
  }

  /** An empty dictionary agrees with empty ones only. */
  lemma EmptyDict(norm: Normalize, p: Texts, q: Texts)
    requires SameDict(norm, p, q)
    ensures p == [] <==> q == []
  {
    if p != [] {
      assert LookUp(norm, p, norm(p[|p| - 1].0)).Some?;
    }
    if q != [] {
      assert LookUp(norm, q, norm(q[|q| - 1].0)).Some?;
    }
  }

  lemma DictFieldIff(norm: Normalize, p: Texts, q: Texts)
    ensures SameField(norm, DictValue(p), DictValue(q)) <==> SameDict(norm, p, q)
  {
    DictMissing(norm, p);
    DictMissing(norm, q);
    DictSameIff(norm, p, q);
    if SameDict(norm, p, q) {
      EmptyDict(norm, p, q);
    }
    hide Missing, Same, SameDict, DictValue;
  }

  lemma DictShaped(p: Texts)
    ensures HasShape(DictValue(p), ADict(AText))
  {
  }

  // ----- words of fixed vocabularies ---------------------------------------------------------------

  function PolicyText(p: S.Policy): string {
    match p
    case Linear => "linear"
    case Invariant => "invariant"
    case Manual => "manual"
    case Nonlinear => "nonlinear"
  }

  function ScaleText(s: S.Scale): string {
    if s.C? then "C" else "F"
  }

  function OriginText(o: Origin): string {
    match o
    case Authored => "authored"
    case Imported => "imported"
    case Forked => "forked"
  }

  function VisibilityText(v: Visibility): string {
    match v
    case Private => "private"
    case Unlisted => "unlisted"
    case Public => "public"
  }

  /** Words of plain ASCII are the same only if they are equal. */
  lemma WordFieldIff(norm: Normalize, s: string, t: string)
    requires GoodNorm(norm) && Ascii(s) && Ascii(t)
    ensures SameField(norm, Text(s), Text(t)) <==> s == t
  {
    TextFieldIff(norm, s, t);
  }

  // ----- localised text ------------------------------------------------------------------------------

  function LocalizedFields(t: LocalizedText): seq<Field> {
    [Field("source", true, Text(t.source)), Field("values", true, DictValue(t.values)),
     Field("stale_against", true, DictValue(t.staleAgainst))]
  }

  function OptionalLocalized(t: Option<LocalizedText>): Value {
    if t.Some? then Model(LocalizedFields(t.value)) else Null
  }

  function LocalizedShape(): Shape {
    AModel(map["source" := AText, "values" := ADict(AText), "stale_against" := ADict(AText)])
  }

  ghost predicate SameLocalized(norm: Normalize, t: LocalizedText, u: LocalizedText) {
    norm(t.source) == norm(u.source) && SameDict(norm, t.values, u.values)
      && SameDict(norm, t.staleAgainst, u.staleAgainst)
  }

  ghost predicate SameLocalizedOption(norm: Normalize, t: Option<LocalizedText>, u: Option<LocalizedText>) {
    t.Some? == u.Some? && (t.Some? ==> SameLocalized(norm, t.value, u.value))
  }

  lemma LocalizedShaped(t: Option<LocalizedText>)
    ensures HasShape(OptionalLocalized(t), LocalizedShape())
  {
    if t.Some? {
      DictShaped(t.value.values);
      DictShaped(t.value.staleAgainst);
      hide DictValue;
    }
  }

  lemma LocalizedSameIff(norm: Normalize, t: LocalizedText, u: LocalizedText)
    ensures Same(norm, Model(LocalizedFields(t)), Model(LocalizedFields(u))) <==> SameLocalized(norm, t, u)
  {
    hide Same, SameField, SameUpTo, DictValue, SameDict;
    var fs, gs := LocalizedFields(t), LocalizedFields(u);
    ModelsSame(norm, fs, gs);
    SameNone(norm, fs, gs);
    SameNext(norm, fs, gs, 0);
    SameNext(norm, fs, gs, 1);
    SameNext(norm, fs, gs, 2);
    TextFieldIff(norm, t.source, u.source);
    DictFieldIff(norm, t.values, u.values);
    DictFieldIff(norm, t.staleAgainst, u.staleAgainst);
  }

  lemma LocalizedFieldIff(norm: Normalize, t: Option<LocalizedText>, u: Option<LocalizedText>)
    ensures SameField(norm, OptionalLocalized(t), OptionalLocalized(u)) <==> SameLocalizedOption(norm, t, u)
  {
    hide Same, SameField, DictValue, SameLocalized, Missing;
    if t.Some? {
      HasPlainField(norm, LocalizedFields(t.value), 0);
    }
    if u.Some? {
      HasPlainField(norm, LocalizedFields(u.value), 0);
    }
    ModelFieldIff(norm, OptionalLocalized(t), OptionalLocalized(u));
    if t.Some? && u.Some? {
      LocalizedSameIff(norm, t.value, u.value);
    }
  }

  // ----- quantities with their policy ---------------------------------------------------------------

  function SpecFields(s: S.Spec): seq<Field> {
    [Field("quantity", true, QuantityValue(s.quantity)), Field("scaling", true, Text(PolicyText(s.scaling)))]
  }

  function OptionalSpec(s: Option<S.Spec>): Value {
    if s.Some? then Model(SpecFields(s.value)) else Null
  }

  function SpecShape(): Shape {
    AModel(map["quantity" := QuantityShape(), "scaling" := AText])
  }

  predicate SameSpecs(norm: Normalize, s: Option<S.Spec>, t: Option<S.Spec>) {
    && s.Some? == t.Some?
    && (s.Some? ==> SameToReader(norm, s.value.quantity, t.value.quantity) && s.value.scaling == t.value.scaling)
  }

  lemma SpecShaped(s: Option<S.Spec>)
    ensures HasShape(OptionalSpec(s), SpecShape())
  {
    hide QuantityValue, QuantityShape, PolicyText;
    if s.Some? {
      QuantityShaped(s.value.quantity);
    }
  }

  lemma QuantityFieldIff(norm: Normalize, q: S.Quantity, r: S.Quantity)
    requires GoodNorm(norm)
    ensures SameField(norm, QuantityValue(q), QuantityValue(r)) <==> SameToReader(norm, q, r)
  {
    hide Same, SameField, Missing, SameToReader;
    HasPlainField(norm, QuantityFields(q), 0);
    HasPlainField(norm, QuantityFields(r), 0);
    hide QuantityFields;
    ModelFieldIff(norm, QuantityValue(q), QuantityValue(r));
    QuantitiesSameIff(norm, q, r);
  }

  lemma PolicyFieldIff(norm: Normalize, p: S.Policy, q: S.Policy)
    requires GoodNorm(norm)
    ensures SameField(norm, Text(PolicyText(p)), Text(PolicyText(q))) <==> p == q
  {
    hide SameField;
    WordFieldIff(norm, PolicyText(p), PolicyText(q));
  }

  lemma SpecModelsIff(norm: Normalize, s: S.Spec, t: S.Spec)
    requires GoodNorm(norm)
    ensures Same(norm, Model(SpecFields(s)), Model(SpecFields(t))) <==> SameSpecs(norm, Some(s), Some(t))
  {
    hide Same, SameField, SameUpTo, QuantityValue, SameToReader, PolicyText;
    var fs, gs := SpecFields(s), SpecFields(t);
    ModelsSame(norm, fs, gs);
    SameNone(norm, fs, gs);
    SameNext(norm, fs, gs, 0);
    SameNext(norm, fs, gs, 1);
    QuantityFieldIff(norm, s.quantity, t.quantity);
    PolicyFieldIff(norm, s.scaling, t.scaling);
  }

  lemma SpecFieldIff(norm: Normalize, s: Option<S.Spec>, t: Option<S.Spec>)
    requires GoodNorm(norm)
    ensures SameField(norm, OptionalSpec(s), OptionalSpec(t)) <==> SameSpecs(norm, s, t)
  {
    hide Same, SameField, Missing, QuantityValue, SameToReader, PolicyText;
    if s.Some? {
      HasPlainField(norm, SpecFields(s.value), 1);
    }
    if t.Some? {
      HasPlainField(norm, SpecFields(t.value), 1);
    }
    ModelFieldIff(norm, OptionalSpec(s), OptionalSpec(t));
    if s.Some? && t.Some? {
      SpecModelsIff(norm, s.value, t.value);
    }
  }

  // ----- ingredients and tools ----------------------------------------------------------------------

  function UseFields(u: IngredientUse): seq<Field> {
    [Field("id", true, Text(u.id)), Field("name", true, Text(u.name)),
     Field("ingredient_id", true, OptionalText(u.ingredientId)),
     Field("quantity", true, OptionalSpec(u.quantity)), Field("optional", true, Bool(u.optional)),
     Field("prep", true, OptionalLocalized(u.prep)), Field("notes", true, OptionalLocalized(u.notes))]
  }

  function UseShape(): Shape {
    AModel(map["id" := AText, "name" := AText, "ingredient_id" := AText, "quantity" := SpecShape(), "optional" := ABool,
               "prep" := LocalizedShape(), "notes" := LocalizedShape()])
  }

  ghost predicate SameUse(norm: Normalize, a: IngredientUse, b: IngredientUse) {
    && norm(a.id) == norm(b.id) && norm(a.name) == norm(b.name) && SameTexts(norm, a.ingredientId, b.ingredientId)
    && SameSpecs(norm, a.quantity, b.quantity) && a.optional == b.optional
    && SameLocalizedOption(norm, a.prep, b.prep) && SameLocalizedOption(norm, a.notes, b.notes)
  }

  lemma UseShaped(u: IngredientUse)
    ensures HasShape(Model(UseFields(u)), UseShape())
  {
    hide OptionalSpec, SpecShape, OptionalLocalized, LocalizedShape;
    SpecShaped(u.quantity);
    LocalizedShaped(u.prep);
    LocalizedShaped(u.notes);
  }

  lemma UseSameIff(norm: Normalize, a: IngredientUse, b: IngredientUse)
    requires GoodNorm(norm)
    ensures Same(norm, Model(UseFields(a)), Model(UseFields(b))) <==> SameUse(norm, a, b)
  {
    hide Same, SameField, SameUpTo, OptionalSpec, OptionalLocalized, OptionalText, SameLocalizedOption, SameSpecs,
      SameTexts;
    var fs, gs := UseFields(a), UseFields(b);
    ModelsSame(norm, fs, gs);
    SameNone(norm, fs, gs);
    SameNext(norm, fs, gs, 0);
    SameNext(norm, fs, gs, 1);
    SameNext(norm, fs, gs, 2);
    SameNext(norm, fs, gs, 3);
    SameNext(norm, fs, gs, 4);
    SameNext(norm, fs, gs, 5);
    SameNext(norm, fs, gs, 6);
    TextFieldIff(norm, a.id, b.id);
    TextFieldIff(norm, a.name, b.name);
    OptionalTextIff(norm, a.ingredientId, b.ingredientId);
    SpecFieldIff(norm, a.quantity, b.quantity);
    BoolFieldIff(norm, a.optional, b.optional);
    LocalizedFieldIff(norm, a.prep, b.prep);
    LocalizedFieldIff(norm, a.notes, b.notes);
  }

  function ToolFields(u: CookwareUse): seq<Field> {
    [Field("id", true, Text(u.id)), Field("name", true, OptionalLocalized(Some(u.name))),
     Field("quantity", true, OptionalNumber(u.quantity)), Field("notes", true, OptionalLocalized(u.notes))]
  }

  function ToolShape(): Shape {
    AModel(map["id" := AText, "name" := LocalizedShape(), "quantity" := ANumber, "notes" := LocalizedShape()])
  }

  ghost predicate SameTool(norm: Normalize, a: CookwareUse, b: CookwareUse) {
    && norm(a.id) == norm(b.id) && SameLocalized(norm, a.name, b.name) && SameNumbers(a.quantity, b.quantity)
    && SameLocalizedOption(norm, a.notes, b.notes)
  }

  lemma ToolShaped(u: CookwareUse)
    ensures HasShape(Model(ToolFields(u)), ToolShape())
  {
    hide OptionalLocalized, LocalizedShape;
    LocalizedShaped(Some(u.name));
    LocalizedShaped(u.notes);
  }

  lemma ToolSameIff(norm: Normalize, a: CookwareUse, b: CookwareUse)
    ensures Same(norm, Model(ToolFields(a)), Model(ToolFields(b))) <==> SameTool(norm, a, b)
  {
    hide Same, SameField, OptionalLocalized, OptionalNumber, SameLocalized, SameNumbers;
    FourSame(norm, ToolFields(a), ToolFields(b));
    TextFieldIff(norm, a.id, b.id);
    LocalizedFieldIff(norm, Some(a.name), Some(b.name));
    OptionalNumberIff(norm, a.quantity, b.quantity);
    LocalizedFieldIff(norm, a.notes, b.notes);
  }

  // ----- timers, temperatures and states ------------------------------------------------------------

  function TimerFields(t: Timer): seq<Field> {
    [Field("name", true, OptionalLocalized(t.name)), Field("quantity", true, QuantityValue(t.quantity))]
  }

  function HeatFields(t: S.Temperature): seq<Field> {
    [Field("value", true, Number(t.value)), Field("unit", true, Text(ScaleText(t.unit)))]
  }

  function StateFields(s: FoodState): seq<Field> {
    [Field("id", true, Text(s.id)), Field("name", true, OptionalLocalized(s.name))]
  }

  function TimerShape(): Shape {
    AModel(map["name" := LocalizedShape(), "quantity" := QuantityShape()])
  }

  function HeatShape(): Shape {
    AModel(map["value" := ANumber, "unit" := AText])
  }

  function StateShape(): Shape {
    AModel(map["id" := AText, "name" := LocalizedShape()])
  }

  ghost predicate SameTimer(norm: Normalize, a: Timer, b: Timer) {
    SameLocalizedOption(norm, a.name, b.name) && SameToReader(norm, a.quantity, b.quantity)
  }

  predicate SameHeat(a: S.Temperature, b: S.Temperature) {
    D.Value(a.value) == D.Value(b.value) && a.unit == b.unit
  }

  ghost predicate SameState(norm: Normalize, a: FoodState, b: FoodState) {
    norm(a.id) == norm(b.id) && SameLocalizedOption(norm, a.name, b.name)
  }

  lemma TimerShaped(t: Timer)
    ensures HasShape(Model(TimerFields(t)), TimerShape())
  {
    hide OptionalLocalized, LocalizedShape, QuantityValue, QuantityShape;
    LocalizedShaped(t.name);
    QuantityShaped(t.quantity);
  }

  lemma HeatShaped(t: S.Temperature)
    ensures HasShape(Model(HeatFields(t)), HeatShape())
  {
  }

  lemma StateShaped(s: FoodState)
    ensures HasShape(Model(StateFields(s)), StateShape())
  {
    hide OptionalLocalized, LocalizedShape;
    LocalizedShaped(s.name);
  }

  lemma TwoSame(norm: Normalize, fs: seq<Field>, gs: seq<Field>)
    requires |fs| == |gs| == 2 && OneClass(fs, gs) && fs[0].semantic && fs[1].semantic
    ensures Same(norm, Model(fs), Model(gs)) <==>
              SameField(norm, fs[0].value, gs[0].value) && SameField(norm, fs[1].value, gs[1].value)
  {
    hide Same, SameField, SameUpTo, OneClass;
    ModelsSame(norm, fs, gs);
    SameNone(norm, fs, gs);
    SameNext(norm, fs, gs, 0);
    SameNext(norm, fs, gs, 1);
  }

  lemma TimerSameIff(norm: Normalize, a: Timer, b: Timer)
    requires GoodNorm(norm)
    ensures Same(norm, Model(TimerFields(a)), Model(TimerFields(b))) <==> SameTimer(norm, a, b)
  {
    hide Same, SameField, OptionalLocalized, QuantityValue, SameToReader, SameLocalizedOption;
    TwoSame(norm, TimerFields(a), TimerFields(b));
    LocalizedFieldIff(norm, a.name, b.name);
    QuantityFieldIff(norm, a.quantity, b.quantity);
  }

  lemma HeatSameIff(norm: Normalize, a: S.Temperature, b: S.Temperature)
    requires GoodNorm(norm)
    ensures Same(norm, Model(HeatFields(a)), Model(HeatFields(b))) <==> SameHeat(a, b)
  {
    hide Same, SameField;
    TwoSame(norm, HeatFields(a), HeatFields(b));
    NumberFieldIff(norm, a.value, b.value);
    WordFieldIff(norm, ScaleText(a.unit), ScaleText(b.unit));
  }

  lemma StateSameIff(norm: Normalize, a: FoodState, b: FoodState)
    ensures Same(norm, Model(StateFields(a)), Model(StateFields(b))) <==> SameState(norm, a, b)
  {
    hide Same, SameField, OptionalLocalized, SameLocalizedOption;
    TwoSame(norm, StateFields(a), StateFields(b));
    TextFieldIff(norm, a.id, b.id);
    LocalizedFieldIff(norm, a.name, b.name);
  }

  // ----- chunks ------------------------------------------------------------------------------------------

  function ChunkKind(c: Chunk): string {
    match c
    case LiteralChunk(_) => "text"
    case IngredientChunk(_) => "ingredient"
    case CookwareChunk(_) => "cookware"
    case StateChunk(_) => "state"
    case TimerChunk(_) => "timer"
    case TemperatureChunk(_) => "temperature"
  }

  function ChunkField(c: Chunk): Field {
    match c
    case LiteralChunk(text) => Field("text", true, OptionalLocalized(Some(text)))
    case IngredientChunk(ref) => Field("ref", true, Text(ref))
    case CookwareChunk(ref) => Field("ref", true, Text(ref))
    case StateChunk(ref) => Field("ref", true, Text(ref))
    case TimerChunk(index) => Field("index", true, Int(index))
    case TemperatureChunk(index) => Field("index", true, Int(index))
  }

  function ChunkFields(c: Chunk): seq<Field> {
    [Field("kind", true, Text(ChunkKind(c))), ChunkField(c)]
  }

  function ChunkShape(): Shape {
    AModel(map["kind" := AText, "text" := LocalizedShape(), "ref" := AText, "index" := AnInt])
  }

  ghost predicate SameChunk(norm: Normalize, a: Chunk, b: Chunk) {
    match (a, b)
    case (LiteralChunk(s), LiteralChunk(t)) => SameLocalized(norm, s, t)
    case (IngredientChunk(s), IngredientChunk(t)) => norm(s) == norm(t)
    case (CookwareChunk(s), CookwareChunk(t)) => norm(s) == norm(t)
    case (StateChunk(s), StateChunk(t)) => norm(s) == norm(t)
    case (TimerChunk(i), TimerChunk(j)) => i == j
    case (TemperatureChunk(i), TemperatureChunk(j)) => i == j
    case _ => false
  }

  lemma ChunkShaped(c: Chunk)
    ensures HasShape(Model(ChunkFields(c)), ChunkShape())
  {
    hide OptionalLocalized, LocalizedShape, ChunkKind;
    if c.LiteralChunk? {
      LocalizedShaped(Some(c.text));
    }
  }

  lemma ChunkKindPlain(norm: Normalize, c: Chunk)
    requires GoodNorm(norm)
    ensures norm(ChunkKind(c)) == ChunkKind(c)
  {
    assert Ascii(ChunkKind(c));
  }

  /** Chunks of one kind have the same field. */
  lemma ChunkFieldIff(norm: Normalize, a: Chunk, b: Chunk)
    requires ChunkKind(a) == ChunkKind(b)
    ensures ChunkField(a).name == ChunkField(b).name
    ensures SameField(norm, ChunkField(a).value, ChunkField(b).value) <==> SameChunk(norm, a, b)
  {
    hide SameField, OptionalLocalized, SameLocalized;
    match (a, b)
    case (LiteralChunk(s), LiteralChunk(t)) => LocalizedFieldIff(norm, Some(s), Some(t));
    case (IngredientChunk(s), IngredientChunk(t)) => TextFieldIff(norm, s, t);
    case (CookwareChunk(s), CookwareChunk(t)) => TextFieldIff(norm, s, t);
    case (StateChunk(s), StateChunk(t)) => TextFieldIff(norm, s, t);
    case (TimerChunk(i), TimerChunk(j)) => IntFieldIff(norm, i, j);
    case (TemperatureChunk(i), TemperatureChunk(j)) => IntFieldIff(norm, i, j);
  }

  lemma ChunkNames(c: Chunk)
    ensures ChunkField(c).semantic && ChunkField(c).name != "kind"
  {
    hide OptionalLocalized;
  }

  lemma SameChunkKind(norm: Normalize, a: Chunk, b: Chunk)
    requires SameChunk(norm, a, b)
    ensures ChunkKind(a) == ChunkKind(b)
  {
    hide SameLocalized;
  }

  lemma ChunkSameIff(norm: Normalize, a: Chunk, b: Chunk)
    requires GoodNorm(norm)
    ensures Same(norm, Model(ChunkFields(a)), Model(ChunkFields(b))) <==> SameChunk(norm, a, b)
  {
    hide Same, SameField, ChunkField, ChunkKind, SameChunk;
    var fs, gs := ChunkFields(a), ChunkFields(b);
    ChunkNames(a);
    ChunkNames(b);
    ChunkKindPlain(norm, a);
    ChunkKindPlain(norm, b);
    if ChunkKind(a) == ChunkKind(b) {
      ChunkFieldIff(norm, a, b);
      TwoSame(norm, fs, gs);
      TextFieldIff(norm, ChunkKind(a), ChunkKind(b));
    } else {
      FirstTextDiffers(norm, fs, gs, "kind", ChunkKind(a), ChunkKind(b));
      if SameChunk(norm, a, b) {
        SameChunkKind(norm, a, b);
      }
    }
  }

  // ----- lists -----------------------------------------------------------------------------------------------

  function TextValues(ts: seq<string>): (vs: seq<Value>)
    ensures |vs| == |ts|
  {
    seq(|ts|, i requires 0 <= i < |ts| => Text(ts[i]))
  }

  function UseValues(us: seq<IngredientUse>): (vs: seq<Value>)
    ensures |vs| == |us|
  {
    seq(|us|, i requires 0 <= i < |us| => Model(UseFields(us[i])))
  }

  function ToolValues(us: seq<CookwareUse>): (vs: seq<Value>)
    ensures |vs| == |us|
  {
    seq(|us|, i requires 0 <= i < |us| => Model(ToolFields(us[i])))
  }

  function TimerValues(ts: seq<Timer>): (vs: seq<Value>)
    ensures |vs| == |ts|
  {
    seq(|ts|, i requires 0 <= i < |ts| => Model(TimerFields(ts[i])))
  }

  function HeatValues(ts: seq<S.Temperature>): (vs: seq<Value>)
    ensures |vs| == |ts|
  {
    seq(|ts|, i requires 0 <= i < |ts| => Model(HeatFields(ts[i])))
  }

  function ChunkValues(cs: seq<Chunk>): (vs: seq<Value>)
    ensures |vs| == |cs|
  {
    seq(|cs|, i requires 0 <= i < |cs| => Model(ChunkFields(cs[i])))
  }

  predicate SameTextList(norm: Normalize, s: seq<string>, t: seq<string>) {
    |s| == |t| && forall i :: 0 <= i < |s| ==> norm(s[i]) == norm(t[i])
  }

  ghost predicate SameUses(norm: Normalize, s: seq<IngredientUse>, t: seq<IngredientUse>) {
    |s| == |t| && forall i :: 0 <= i < |s| ==> SameUse(norm, s[i], t[i])
  }

  ghost predicate SameTools(norm: Normalize, s: seq<CookwareUse>, t: seq<CookwareUse>) {
    |s| == |t| && forall i :: 0 <= i < |s| ==> SameTool(norm, s[i], t[i])
  }

  ghost predicate SameTimers(norm: Normalize, s: seq<Timer>, t: seq<Timer>) {
    |s| == |t| && forall i :: 0 <= i < |s| ==> SameTimer(norm, s[i], t[i])
  }

  predicate SameHeats(s: seq<S.Temperature>, t: seq<S.Temperature>) {
    |s| == |t| && forall i :: 0 <= i < |s| ==> SameHeat(s[i], t[i])
  }

  ghost predicate SameChunks(norm: Normalize, s: seq<Chunk>, t: seq<Chunk>) {
    |s| == |t| && forall i :: 0 <= i < |s| ==> SameChunk(norm, s[i], t[i])
  }

  lemma TextListIff(norm: Normalize, s: seq<string>, t: seq<string>)
    ensures SameField(norm, List(TextValues(s)), List(TextValues(t))) <==> SameTextList(norm, s, t)
  {
    hide SameField;
    ListFieldIff(norm, TextValues(s), TextValues(t));
    forall i | 0 <= i < |s| && i < |t|
      ensures Same(norm, TextValues(s)[i], TextValues(t)[i]) <==> norm(s[i]) == norm(t[i]) {
    }
  }

  lemma UseListIff(norm: Normalize, s: seq<IngredientUse>, t: seq<IngredientUse>)
    requires GoodNorm(norm)
    ensures SameField(norm, List(UseValues(s)), List(UseValues(t))) <==> SameUses(norm, s, t)
  {
    hide SameField, Same, SameUse, UseFields;
    ListFieldIff(norm, UseValues(s), UseValues(t));
    forall i | 0 <= i < |s| && i < |t|
      ensures Same(norm, UseValues(s)[i], UseValues(t)[i]) <==> SameUse(norm, s[i], t[i]) {
      UseSameIff(norm, s[i], t[i]);
    }
  }

  lemma ToolListIff(norm: Normalize, s: seq<CookwareUse>, t: seq<CookwareUse>)
    ensures SameField(norm, List(ToolValues(s)), List(ToolValues(t))) <==> SameTools(norm, s, t)
  {
    hide SameField, Same, SameTool, ToolFields;
    ListFieldIff(norm, ToolValues(s), ToolValues(t));
    forall i | 0 <= i < |s| && i < |t|
      ensures Same(norm, ToolValues(s)[i], ToolValues(t)[i]) <==> SameTool(norm, s[i], t[i]) {
      ToolSameIff(norm, s[i], t[i]);
    }
  }

  lemma TimerListIff(norm: Normalize, s: seq<Timer>, t: seq<Timer>)
    requires GoodNorm(norm)
    ensures SameField(norm, List(TimerValues(s)), List(TimerValues(t))) <==> SameTimers(norm, s, t)
  {
    hide SameField, Same, SameTimer, TimerFields;
    ListFieldIff(norm, TimerValues(s), TimerValues(t));
    forall i | 0 <= i < |s| && i < |t|
      ensures Same(norm, TimerValues(s)[i], TimerValues(t)[i]) <==> SameTimer(norm, s[i], t[i]) {
      TimerSameIff(norm, s[i], t[i]);
    }
  }

  lemma HeatListIff(norm: Normalize, s: seq<S.Temperature>, t: seq<S.Temperature>)
    requires GoodNorm(norm)
    ensures SameField(norm, List(HeatValues(s)), List(HeatValues(t))) <==> SameHeats(s, t)
  {
    hide SameField, Same, SameHeat, HeatFields;
    ListFieldIff(norm, HeatValues(s), HeatValues(t));
    forall i | 0 <= i < |s| && i < |t|
      ensures Same(norm, HeatValues(s)[i], HeatValues(t)[i]) <==> SameHeat(s[i], t[i]) {
      HeatSameIff(norm, s[i], t[i]);
    }
  }

  lemma ChunkListIff(norm: Normalize, s: seq<Chunk>, t: seq<Chunk>)
    requires GoodNorm(norm)
    ensures SameField(norm, List(ChunkValues(s)), List(ChunkValues(t))) <==> SameChunks(norm, s, t)
  {
    hide SameField, Same, SameChunk, ChunkFields;
    ListFieldIff(norm, ChunkValues(s), ChunkValues(t));
    forall i | 0 <= i < |s| && i < |t|
      ensures Same(norm, ChunkValues(s)[i], ChunkValues(t)[i]) <==> SameChunk(norm, s[i], t[i]) {
      ChunkSameIff(norm, s[i], t[i]);
    }
  }

  lemma TextsShaped(ts: seq<string>)
    ensures HasShape(List(TextValues(ts)), AList(AText))
  {
  }

  lemma UsesShaped(us: seq<IngredientUse>)
    ensures HasShape(List(UseValues(us)), AList(UseShape()))
  {
    hide UseFields, UseShape;
    forall i | 0 <= i < |us| ensures HasShape(UseValues(us)[i], UseShape()) {
      UseShaped(us[i]);
    }
  }

  lemma ToolsShaped(us: seq<CookwareUse>)
    ensures HasShape(List(ToolValues(us)), AList(ToolShape()))
  {
    hide ToolFields, ToolShape;
    forall i | 0 <= i < |us| ensures HasShape(ToolValues(us)[i], ToolShape()) {
      ToolShaped(us[i]);
    }
  }

  lemma TimersShaped(ts: seq<Timer>)
    ensures HasShape(List(TimerValues(ts)), AList(TimerShape()))
  {
    hide TimerFields, TimerShape;
    forall i | 0 <= i < |ts| ensures HasShape(TimerValues(ts)[i], TimerShape()) {
      TimerShaped(ts[i]);
    }
  }

  lemma HeatsShaped(ts: seq<S.Temperature>)
    ensures HasShape(List(HeatValues(ts)), AList(HeatShape()))
  {
    hide HeatFields, HeatShape;
    forall i | 0 <= i < |ts| ensures HasShape(HeatValues(ts)[i], HeatShape()) {
      HeatShaped(ts[i]);
    }
  }

  lemma ChunksShaped(cs: seq<Chunk>)
    ensures HasShape(List(ChunkValues(cs)), AList(ChunkShape()))
  {
    hide ChunkFields, ChunkShape;
    forall i | 0 <= i < |cs| ensures HasShape(ChunkValues(cs)[i], ChunkShape()) {
      ChunkShaped(cs[i]);
    }
  }

  // ----- a step's prose ----------------------------------------------------------------------------------------

  function TemplateFields(cs: seq<Chunk>): seq<Field> {
    [Field("chunks", true, List(ChunkValues(cs)))]
  }

  function OptionalTemplate(t: Option<seq<Chunk>>): Value {
    if t.Some? then Model(TemplateFields(t.value)) else Null
  }

  function TemplateShape(): Shape {
    AModel(map["chunks" := AList(ChunkShape())])
  }

  /** No prose is the same as prose without chunks. */
  ghost predicate SameProse(norm: Normalize, s: Option<seq<Chunk>>, t: Option<seq<Chunk>>) {
    SameChunks(norm, s.GetOr([]), t.GetOr([]))
  }

  lemma TemplateShaped(t: Option<seq<Chunk>>)
    ensures HasShape(OptionalTemplate(t), TemplateShape())
  {
    hide ChunkShape, ChunkValues;
    if t.Some? {
      ChunksShaped(t.value);
    }
  }

  lemma TemplateMissing(norm: Normalize, t: Option<seq<Chunk>>)
    ensures Missing(norm, OptionalTemplate(t)) <==> t.GetOr([]) == []
  {
    if t.Some? {
      assert NameAt(norm, Model(TemplateFields(t.value)), 0).Some?;
      hide ChunkFields;
    }
  }

  lemma TemplateModelsIff(norm: Normalize, s: seq<Chunk>, t: seq<Chunk>)
    requires GoodNorm(norm)
    ensures Same(norm, Model(TemplateFields(s)), Model(TemplateFields(t))) <==> SameChunks(norm, s, t)
  {
    hide Same, SameField, SameUpTo, ChunkValues, SameChunks;
    var fs, gs := TemplateFields(s), TemplateFields(t);
    ModelsSame(norm, fs, gs);
    SameNone(norm, fs, gs);
    SameNext(norm, fs, gs, 0);
    ChunkListIff(norm, s, t);
  }

  lemma TemplateFieldIff(norm: Normalize, s: Option<seq<Chunk>>, t: Option<seq<Chunk>>)
    requires GoodNorm(norm)
    ensures SameField(norm, OptionalTemplate(s), OptionalTemplate(t)) <==> SameProse(norm, s, t)
  {
    hide Same, SameField, Missing, SameChunk, TemplateFields;
    TemplateMissing(norm, s);
    TemplateMissing(norm, t);
    if s.GetOr([]) != [] && t.GetOr([]) != [] {
      ModelFieldIff(norm, OptionalTemplate(s), OptionalTemplate(t));
      TemplateModelsIff(norm, s.value, t.value);
    } else {
      MissingFieldIff(norm, OptionalTemplate(s), OptionalTemplate(t));
    }
  }

  // ----- actions ------------------------------------------------------------------------------------------------

  function ActionFields(a: Action): seq<Field> {
    [Field("id", true, Text(a.id)), Field("order", true, Int(a.order)), Field("verb", true, OptionalLocalized(a.verb)),
     Field("uses", true, List(TextValues(a.uses))), Field("ingredients", true, List(UseValues(a.ingredients))),
     Field("cookware", true, List(ToolValues(a.cookware))), Field("timers", true, List(TimerValues(a.timers))),
     Field("temperatures", true, List(HeatValues(a.temperatures))),
     Field("produces", true, Model(StateFields(a.produces))),
     Field("text", true, OptionalTemplate(a.text)), Field("notes", true, OptionalLocalized(a.notes))]
  }

  function ActionShape(): Shape {
    AModel(map["id" := AText, "order" := AnInt, "verb" := LocalizedShape(), "uses" := AList(AText),
               "ingredients" := AList(UseShape()), "cookware" := AList(ToolShape()), "timers" := AList(TimerShape()),
               "temperatures" := AList(HeatShape()), "produces" := StateShape(), "text" := TemplateShape(),
               "notes" := LocalizedShape()])
  }

  ghost predicate SameAction(norm: Normalize, a: Action, b: Action) {
    && norm(a.id) == norm(b.id) && a.order == b.order && SameLocalizedOption(norm, a.verb, b.verb)
    && SameTextList(norm, a.uses, b.uses) && SameUses(norm, a.ingredients, b.ingredients)
    && SameTools(norm, a.cookware, b.cookware) && SameTimers(norm, a.timers, b.timers)
    && SameHeats(a.temperatures, b.temperatures) && SameState(norm, a.produces, b.produces)
    && SameProse(norm, a.text, b.text) && SameLocalizedOption(norm, a.notes, b.notes)
  }

  lemma ActionShaped(a: Action)
    ensures HasShape(Model(ActionFields(a)), ActionShape())
  {
    LocalizedShaped(a.verb);
    TextsShaped(a.uses);
    UsesShaped(a.ingredients);
    ToolsShaped(a.cookware);
    TimersShaped(a.timers);
    HeatsShaped(a.temperatures);
    StateShaped(a.produces);
    TemplateShaped(a.text);
    LocalizedShaped(a.notes);
    hide OptionalLocalized, LocalizedShape, TextValues, UseValues, UseShape, ToolValues, ToolShape, TimerValues,
      TimerShape, HeatValues, HeatShape, StateFields, StateShape, OptionalTemplate, TemplateShape;
  }

  lemma StateFieldIff(norm: Normalize, a: FoodState, b: FoodState)
    ensures SameField(norm, Model(StateFields(a)), Model(StateFields(b))) <==> SameState(norm, a, b)
  {
    hide Same, SameField, Missing, SameState;
    HasPlainField(norm, StateFields(a), 0);
    HasPlainField(norm, StateFields(b), 0);
    ModelFieldIff(norm, Model(StateFields(a)), Model(StateFields(b)));
    StateSameIff(norm, a, b);
  }

  lemma ElevenSame(norm: Normalize, fs: seq<Field>, gs: seq<Field>)
    requires |fs| == |gs| == 11 && OneClass(fs, gs) && forall i :: 0 <= i < 11 ==> fs[i].semantic
    ensures Same(norm, Model(fs), Model(gs)) <==>
              && SameField(norm, fs[0].value, gs[0].value) && SameField(norm, fs[1].value, gs[1].value)
              && SameField(norm, fs[2].value, gs[2].value) && SameField(norm, fs[3].value, gs[3].value)
              && SameField(norm, fs[4].value, gs[4].value) && SameField(norm, fs[5].value, gs[5].value)
              && SameField(norm, fs[6].value, gs[6].value) && SameField(norm, fs[7].value, gs[7].value)
              && SameField(norm, fs[8].value, gs[8].value) && SameField(norm, fs[9].value, gs[9].value)
              && SameField(norm, fs[10].value, gs[10].value)
  {
    hide Same, SameField, SameUpTo, OneClass;
    ModelsSame(norm, fs, gs);
    SameNone(norm, fs, gs);
    SameNext(norm, fs, gs, 0);
    SameNext(norm, fs, gs, 1);
    SameNext(norm, fs, gs, 2);
    SameNext(norm, fs, gs, 3);
    SameNext(norm, fs, gs, 4);
    SameNext(norm, fs, gs, 5);
    SameNext(norm, fs, gs, 6);
    SameNext(norm, fs, gs, 7);
    SameNext(norm, fs, gs, 8);
    SameNext(norm, fs, gs, 9);
    SameNext(norm, fs, gs, 10);
  }

  lemma ActionClass(a: Action, b: Action)
    ensures OneClass(ActionFields(a), ActionFields(b))
  {
    hide OptionalLocalized, TextValues, UseValues, ToolValues, TimerValues, HeatValues, StateFields, OptionalTemplate;
  }

  /** An action's document holds each part under its name, and nothing of the parts that are missing. */
  lemma {:induction false} ActionMembers(norm: Normalize, a: Action)
    ensures var v := Model(ActionFields(a));
            && Holds(norm, v, "id", Text(a.id)) && Holds(norm, v, "order", Int(a.order))
            && Holds(norm, v, "verb", OptionalLocalized(a.verb)) && Holds(norm, v, "uses", List(TextValues(a.uses)))
            && Holds(norm, v, "ingredients", List(UseValues(a.ingredients)))
            && Holds(norm, v, "cookware", List(ToolValues(a.cookware)))
            && Holds(norm, v, "timers", List(TimerValues(a.timers)))
            && Holds(norm, v, "temperatures", List(HeatValues(a.temperatures)))
            && Holds(norm, v, "produces", Model(StateFields(a.produces)))
            && Holds(norm, v, "text", OptionalTemplate(a.text)) && Holds(norm, v, "notes", OptionalLocalized(a.notes))
  {
    hide Holds, HasShape, ActionShape, OptionalLocalized, TextValues, UseValues, ToolValues, TimerValues, HeatValues,
      StateFields, OptionalTemplate, DistinctNames;
    var fs, v := ActionFields(a), Model(ActionFields(a));
    ActionShaped(a);
    ActionClass(a, a);
    forall i | 0 <= i < 11 ensures Holds(norm, v, fs[i].name, fs[i].value) {
      FieldHeld(norm, fs, ActionShape(), i);
    }
    assert Holds(norm, v, fs[0].name, fs[0].value) && Holds(norm, v, fs[1].name, fs[1].value)
        && Holds(norm, v, fs[2].name, fs[2].value) && Holds(norm, v, fs[3].name, fs[3].value)
        && Holds(norm, v, fs[4].name, fs[4].value) && Holds(norm, v, fs[5].name, fs[5].value)
        && Holds(norm, v, fs[6].name, fs[6].value) && Holds(norm, v, fs[7].name, fs[7].value)
        && Holds(norm, v, fs[8].name, fs[8].value) && Holds(norm, v, fs[9].name, fs[9].value)
        && Holds(norm, v, fs[10].name, fs[10].value);
  }

  lemma {:induction false} ActionSameIff(norm: Normalize, a: Action, b: Action)
    requires GoodNorm(norm)
    ensures Same(norm, Model(ActionFields(a)), Model(ActionFields(b))) <==> SameAction(norm, a, b)
  {
    hide Same, SameField, OneClass, OptionalLocalized, TextValues, UseValues, ToolValues, TimerValues, HeatValues,
      StateFields, OptionalTemplate, SameLocalizedOption, SameTextList, SameUses, SameTools, SameTimers, SameHeats,
      SameState, SameProse;
    ActionClass(a, b);
    ElevenSame(norm, ActionFields(a), ActionFields(b));
    TextFieldIff(norm, a.id, b.id);
    IntFieldIff(norm, a.order, b.order);
    LocalizedFieldIff(norm, a.verb, b.verb);
    TextListIff(norm, a.uses, b.uses);
    UseListIff(norm, a.ingredients, b.ingredients);
    ToolListIff(norm, a.cookware, b.cookware);
    TimerListIff(norm, a.timers, b.timers);
    HeatListIff(norm, a.temperatures, b.temperatures);
    StateFieldIff(norm, a.produces, b.produces);
    TemplateFieldIff(norm, a.text, b.text);
    LocalizedFieldIff(norm, a.notes, b.notes);
  }

  function ActionValues(s: seq<Action>): (vs: seq<Value>)
    ensures |vs| == |s|
  {
    seq(|s|, i requires 0 <= i < |s| => Model(ActionFields(s[i])))
  }

  ghost predicate SameActions(norm: Normalize, s: seq<Action>, t: seq<Action>) {
    |s| == |t| && forall i :: 0 <= i < |s| ==> SameAction(norm, s[i], t[i])
  }

  lemma ActionListIff(norm: Normalize, s: seq<Action>, t: seq<Action>)
    requires GoodNorm(norm)
    ensures SameField(norm, List(ActionValues(s)), List(ActionValues(t))) <==> SameActions(norm, s, t)
  {
    hide SameField, Same, SameAction, ActionFields;
    ListFieldIff(norm, ActionValues(s), ActionValues(t));
    forall i | 0 <= i < |s| && i < |t|
      ensures Same(norm, ActionValues(s)[i], ActionValues(t)[i]) <==> SameAction(norm, s[i], t[i]) {
      ActionSameIff(norm, s[i], t[i]);
    }
  }

  lemma ActionsShaped(s: seq<Action>)
    ensures HasShape(List(ActionValues(s)), AList(ActionShape()))
  {
    hide ActionFields, ActionShape;
    forall i | 0 <= i < |s| ensures HasShape(ActionValues(s)[i], ActionShape()) {
      ActionShaped(s[i]);
    }
  }

  // ----- provenance ------------------------------------------------------------------------------------------------

  /** The last two fields are bookkeeping: not part of the identity. */
  function ProvenanceFields(p: Provenance): seq<Field> {
    [Field("origin", true, Text(OriginText(p.origin))), Field("source_url", true, OptionalText(p.sourceUrl)),
     Field("source_title", true, OptionalText(p.sourceTitle)), Field("author", true, OptionalText(p.author)),
     Field("license_spdx", true, OptionalText(p.licenseSpdx)), Field("attribution", true, OptionalText(p.attribution)),
     Field("notes", true, OptionalText(p.notes)),
     Field("retrieved_at", false, OptionalText(p.retrievedAt)), Field("importer", false, OptionalText(p.importer))]
  }

  function ProvenanceShape(): Shape {
    AModel(map["origin" := AText, "source_url" := AText, "source_title" := AText, "author" := AText,
               "license_spdx" := AText,
               "attribution" := AText, "notes" := AText, "retrieved_at" := AText, "importer" := AText])
  }

  /** Equal up to normalisation, whenever fetched and by whichever importer. */
  predicate SameProvenance(norm: Normalize, p: Provenance, q: Provenance) {
    && p.origin == q.origin && SameTexts(norm, p.sourceUrl, q.sourceUrl)
    && SameTexts(norm, p.sourceTitle, q.sourceTitle)
    && SameTexts(norm, p.author, q.author) && SameTexts(norm, p.licenseSpdx, q.licenseSpdx)
    && SameTexts(norm, p.attribution, q.attribution) && SameTexts(norm, p.notes, q.notes)
  }

  lemma ProvenanceShaped(p: Provenance)
    ensures HasShape(Model(ProvenanceFields(p)), ProvenanceShape())
  {
    hide OriginText;
  }

  lemma OriginFieldIff(norm: Normalize, p: Origin, q: Origin)
    requires GoodNorm(norm)
    ensures SameField(norm, Text(OriginText(p)), Text(OriginText(q))) <==> p == q
  {
    hide SameField;
    WordFieldIff(norm, OriginText(p), OriginText(q));
  }

  lemma NineSame(norm: Normalize, fs: seq<Field>, gs: seq<Field>)
    requires |fs| == |gs| == 9 && OneClass(fs, gs) && forall i :: 0 <= i < 7 ==> fs[i].semantic
    ensures Same(norm, Model(fs), Model(gs)) <==>
              && SameField(norm, fs[0].value, gs[0].value) && SameField(norm, fs[1].value, gs[1].value)
              && SameField(norm, fs[2].value, gs[2].value) && SameField(norm, fs[3].value, gs[3].value)
              && SameField(norm, fs[4].value, gs[4].value) && SameField(norm, fs[5].value, gs[5].value)
              && SameField(norm, fs[6].value, gs[6].value)
              && (fs[7].semantic ==> SameField(norm, fs[7].value, gs[7].value))
              && (fs[8].semantic ==> SameField(norm, fs[8].value, gs[8].value))
  {
    hide Same, SameField, SameUpTo, OneClass;
    ModelsSame(norm, fs, gs);
    SameNone(norm, fs, gs);
    SameNext(norm, fs, gs, 0);
    SameNext(norm, fs, gs, 1);
    SameNext(norm, fs, gs, 2);
    SameNext(norm, fs, gs, 3);
    SameNext(norm, fs, gs, 4);
    SameNext(norm, fs, gs, 5);
    SameNext(norm, fs, gs, 6);
    SameNext(norm, fs, gs, 7);
    SameNext(norm, fs, gs, 8);
  }

  lemma ProvenanceClass(p: Provenance, q: Provenance)
    ensures OneClass(ProvenanceFields(p), ProvenanceFields(q))
  {
    hide OptionalText, OriginText;
  }

  lemma {:induction false} ProvenanceSameIff(norm: Normalize, p: Provenance, q: Provenance)
    requires GoodNorm(norm)
    ensures Same(norm, Model(ProvenanceFields(p)), Model(ProvenanceFields(q))) <==> SameProvenance(norm, p, q)
  {
    hide Same, SameField, OneClass, OptionalText, SameTexts, OriginText;
    ProvenanceClass(p, q);
    NineSame(norm, ProvenanceFields(p), ProvenanceFields(q));
    OriginFieldIff(norm, p.origin, q.origin);
    OptionalTextIff(norm, p.sourceUrl, q.sourceUrl);
    OptionalTextIff(norm, p.sourceTitle, q.sourceTitle);
    OptionalTextIff(norm, p.author, q.author);
    OptionalTextIff(norm, p.licenseSpdx, q.licenseSpdx);
    OptionalTextIff(norm, p.attribution, q.attribution);
    OptionalTextIff(norm, p.notes, q.notes);
  }

  lemma ProvenanceFieldIff(norm: Normalize, p: Provenance, q: Provenance)
    requires GoodNorm(norm)
    ensures SameField(norm, Model(ProvenanceFields(p)), Model(ProvenanceFields(q))) <==> SameProvenance(norm, p, q)
  {
    hide Same, SameField, Missing, SameProvenance, OriginText, OptionalText;
    HasPlainField(norm, ProvenanceFields(p), 0);
    HasPlainField(norm, ProvenanceFields(q), 0);
    ModelFieldIff(norm, Model(ProvenanceFields(p)), Model(ProvenanceFields(q)));
    ProvenanceSameIff(norm, p, q);
  }

  // ----- recipes --------------------------------------------------------------------------------------------------

  function RecipeFields(r: Recipe): seq<Field> {
    [Field("id", true, Text(r.id)), Field("source_lang", true, Text(r.sourceLang)),
     Field("title", true, OptionalLocalized(Some(r.title))),
     Field("description", true, OptionalLocalized(r.description)),
     Field("servings", true, OptionalInt(r.servings)), Field("visibility", true, Text(VisibilityText(r.visibility))),
     Field("tags", true, List(TextValues(r.tags))), Field("actions", true, List(ActionValues(r.actions))),
     Field("provenance", true, Model(ProvenanceFields(r.provenance)))]
  }

  /** What the content hash of a recipe is taken over. */
  function RecipeValue(r: Recipe): Value {
    Model(RecipeFields(r))
  }

  function RecipeShape(): Shape {
    AModel(map["id" := AText, "source_lang" := AText, "title" := LocalizedShape(), "description" := LocalizedShape(),
               "servings" := AnInt, "visibility" := AText, "tags" := AList(AText), "actions" := AList(ActionShape()),
               "provenance" := ProvenanceShape()])
  }

  /** Field by field the same, up to normalisation and numerical equality; bookkeeping fields are not looked at. */
  ghost predicate SameRecipe(norm: Normalize, r: Recipe, s: Recipe) {
    && norm(r.id) == norm(s.id) && norm(r.sourceLang) == norm(s.sourceLang) && SameLocalized(norm, r.title, s.title)
    && SameLocalizedOption(norm, r.description, s.description) && r.servings == s.servings
    && r.visibility == s.visibility
    && SameTextList(norm, r.tags, s.tags) && SameActions(norm, r.actions, s.actions)
    && SameProvenance(norm, r.provenance, s.provenance)
  }

  lemma RecipeShaped(r: Recipe)
    ensures HasShape(RecipeValue(r), RecipeShape())
  {
    LocalizedShaped(Some(r.title));
    LocalizedShaped(r.description);
    TextsShaped(r.tags);
    ActionsShaped(r.actions);
    ProvenanceShaped(r.provenance);
    hide OptionalLocalized, LocalizedShape, TextValues, ActionValues, ActionShape, ProvenanceFields, ProvenanceShape,
      VisibilityText;
  }

  lemma VisibilityFieldIff(norm: Normalize, p: Visibility, q: Visibility)
    requires GoodNorm(norm)
    ensures SameField(norm, Text(VisibilityText(p)), Text(VisibilityText(q))) <==> p == q
  {
    hide SameField;
    WordFieldIff(norm, VisibilityText(p), VisibilityText(q));
  }

  lemma RecipeClass(r: Recipe, s: Recipe)
    ensures OneClass(RecipeFields(r), RecipeFields(s))
  {
    hide OptionalLocalized, OptionalInt, TextValues, ActionValues, ProvenanceFields, VisibilityText;
  }

  /** A recipe's document holds each part under its name, and nothing of the parts that are missing. */
  lemma {:induction false} RecipeMembers(norm: Normalize, r: Recipe)
    ensures var v := RecipeValue(r);
            && Holds(norm, v, "id", Text(r.id)) && Holds(norm, v, "source_lang", Text(r.sourceLang))
            && Holds(norm, v, "title", OptionalLocalized(Some(r.title)))
            && Holds(norm, v, "description", OptionalLocalized(r.description))
            && Holds(norm, v, "servings", OptionalInt(r.servings))
            && Holds(norm, v, "visibility", Text(VisibilityText(r.visibility)))
            && Holds(norm, v, "tags", List(TextValues(r.tags)))
            && Holds(norm, v, "actions", List(ActionValues(r.actions)))
            && Holds(norm, v, "provenance", Model(ProvenanceFields(r.provenance)))
  {
    hide Holds, HasShape, RecipeShape, OptionalLocalized, OptionalInt, TextValues, ActionValues, ProvenanceFields,
      VisibilityText, DistinctNames;
    var fs, v := RecipeFields(r), RecipeValue(r);
    RecipeShaped(r);
    RecipeClass(r, r);
    forall i | 0 <= i < 9 ensures Holds(norm, v, fs[i].name, fs[i].value) {
      FieldHeld(norm, fs, RecipeShape(), i);
    }
    assert Holds(norm, v, fs[0].name, fs[0].value) && Holds(norm, v, fs[1].name, fs[1].value)
        && Holds(norm, v, fs[2].name, fs[2].value) && Holds(norm, v, fs[3].name, fs[3].value)
        && Holds(norm, v, fs[4].name, fs[4].value) && Holds(norm, v, fs[5].name, fs[5].value)
        && Holds(norm, v, fs[6].name, fs[6].value) && Holds(norm, v, fs[7].name, fs[7].value)
        && Holds(norm, v, fs[8].name, fs[8].value);
  }

  lemma {:induction false} RecipeSameIff(norm: Normalize, r: Recipe, s: Recipe)
    requires GoodNorm(norm)
    ensures Same(norm, RecipeValue(r), RecipeValue(s)) <==> SameRecipe(norm, r, s)
  {
    hide Same, SameField, OneClass, OptionalLocalized, OptionalInt, TextValues, ActionValues, ProvenanceFields,
      VisibilityText, SameLocalized, SameTextList, SameActions, SameProvenance;
    RecipeClass(r, s);
    NineSame(norm, RecipeFields(r), RecipeFields(s));
    TextFieldIff(norm, r.id, s.id);
    TextFieldIff(norm, r.sourceLang, s.sourceLang);
    LocalizedFieldIff(norm, Some(r.title), Some(s.title));
    LocalizedFieldIff(norm, r.description, s.description);
    OptionalIntIff(norm, r.servings, s.servings);
    VisibilityFieldIff(norm, r.visibility, s.visibility);
    TextListIff(norm, r.tags, s.tags);
    ActionListIff(norm, r.actions, s.actions);
    ProvenanceFieldIff(norm, r.provenance, s.provenance);
  }

  /**
   Every recipe has a document, and two recipes have one document exactly if they agree in everything but the
   bookkeeping.
   */
  lemma {:induction false} RecipeDocumentsEqualIff(norm: Normalize, r: Recipe, s: Recipe)
    requires GoodNorm(norm)
    ensures Encode(norm, RecipeValue(r)).Success? && Encode(norm, RecipeValue(s)).Success?
    ensures Encode(norm, RecipeValue(r)) == Encode(norm, RecipeValue(s)) <==> SameRecipe(norm, r, s)
  {
    hide Encode, Same, RecipeFields, HasShape, RecipeShape, SameRecipe;
    RecipeShaped(r);
    RecipeShaped(s);
    ShapedEqualIff(norm, RecipeValue(r), RecipeValue(s), RecipeShape());
    RecipeSameIff(norm, r, s);
  }
}
