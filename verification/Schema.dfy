/** The recipe schema in one language: quantities, the parts of a step, and the recipe graph's actions. */
module Schema {
  import opened Wrappers
  import opened Decimals

  datatype UnitRef = UnitRef(unitId: Option<string>, surface: string, locale: Option<string>)

  datatype Size = Tiny | Small | Medium | Large | XLarge

  /** An amount with its unit: what an approximation nominally stands for. */
  datatype Nominal = Nominal(value: Dec, unit: Option<UnitRef>)

  datatype Quantity =
    | Scalar(value: Dec, unit: Option<UnitRef>)
    | Range(low: Dec, high: Dec, unit: Option<UnitRef>)
    | Count(value: Dec, top: Option<Dec>, size: Option<Size>)
    | Approx(token: string, surface: string, nominal: Option<Nominal>)

  datatype Policy = Linear | Invariant | Manual | Nonlinear

  datatype Spec = Spec(quantity: Quantity, scaling: Policy)

  datatype IngredientUse = IngredientUse(
    id: string, name: string, ingredientId: Option<string>, quantity: Option<Spec>, optional: bool,
    prep: Option<string>, notes: Option<string>)

  datatype CookwareUse = CookwareUse(id: string, name: string, quantity: Option<Dec>, notes: Option<string>)

  datatype Timer = Timer(name: Option<string>, quantity: Quantity)

  datatype Scale = C | F

  datatype Temperature = Temperature(value: Dec, unit: Scale)

  datatype Chunk =
    | LiteralChunk(text: string)
    | IngredientChunk(ref: string)
    | CookwareChunk(ref: string)
    | StateChunk(ref: string)
    | TimerChunk(index: int)
    | TemperatureChunk(index: int)

  datatype FoodState = FoodState(id: string, name: Option<string>)

  datatype Action = Action(
    id: string, order: int, verb: Option<string>, uses: seq<string>, ingredients: seq<IngredientUse>,
    cookware: seq<CookwareUse>,
    timers: seq<Timer>, temperatures: seq<Temperature>, produces: FoodState, text: Option<seq<Chunk>>,
    notes: Option<string>)

  // ----- what the model classes check at construction ---------------------------

  /** `Range._ordered`, `Count._ordered`. */
  predicate ValidQuantity(q: Quantity) {
    match q
    case Range(low, high, _) => Value(low) <= Value(high)
    case Count(v, Some(top), _) => Value(v) <= Value(top)
    case _ => true
  }

  /** `QuantitySpec._approx_is_never_scaled`. */
  predicate ValidSpec(s: Spec) {
    ValidQuantity(s.quantity) && !(s.quantity.Approx? && s.scaling.Linear?)
  }

  predicate DistinctIngredientIds(s: seq<IngredientUse>) {
    forall i, j :: 0 <= i < j < |s| ==> s[i].id != s[j].id
  }

  predicate DistinctCookwareIds(s: seq<CookwareUse>) {
    forall i, j :: 0 <= i < j < |s| ==> s[i].id != s[j].id
  }

  /** A slot points at something the action owns. */
  predicate ChunkResolves(a: Action, c: Chunk) {
    match c
    case LiteralChunk(_) => true
    case IngredientChunk(ref) => exists k :: 0 <= k < |a.ingredients| && a.ingredients[k].id == ref
    case CookwareChunk(ref) => exists k :: 0 <= k < |a.cookware| && a.cookware[k].id == ref
    case StateChunk(ref) => ref in a.uses
    case TimerChunk(i) => 0 <= i < |a.timers|
    case TemperatureChunk(i) => 0 <= i < |a.temperatures|
  }

  /** `Action._internal_references_resolve`, with the quantity classes' own checks. */
  predicate ValidAction(a: Action) {
    && DistinctIngredientIds(a.ingredients)
    && DistinctCookwareIds(a.cookware)
    && (forall k :: 0 <= k < |a.ingredients| && a.ingredients[k].quantity.Some? ==>
          ValidSpec(a.ingredients[k].quantity.value))
    && (forall k :: 0 <= k < |a.timers| ==>
          ValidQuantity(a.timers[k].quantity) && (a.timers[k].quantity.Scalar? || a.timers[k].quantity.Range?))
    && (a.text.Some? ==> forall k :: 0 <= k < |a.text.value| ==> ChunkResolves(a, a.text.value[k]))
  }
}
