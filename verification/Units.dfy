/** Units, scaling and conversion on exact numbers, and the unit a quantity is shown in. */
module Units {
  import opened Wrappers
  import opened Decimals
  import opened Schema
  import opened Rounding
  import opened Reals

  // ----- the registry --------------------------------------------------------------------

  datatype Dimension = Mass | Volume | Time

  /** How many grams, millilitres or seconds one of the unit is. */
  datatype UnitDef = UnitDef(dimension: Dimension, factor: real)

  const UNITS: map<string, UnitDef> := map[
    "unit:g" := UnitDef(Mass, 1.0), "unit:kg" := UnitDef(Mass, 1000.0), "unit:mg" := UnitDef(Mass, 0.001),
    "unit:oz" := UnitDef(Mass, 28.349523125), "unit:lb" := UnitDef(Mass, 453.59237),
    "unit:ml" := UnitDef(Volume, 1.0), "unit:l" := UnitDef(Volume, 1000.0), "unit:dl" := UnitDef(Volume, 100.0),
    "unit:tsp" := UnitDef(Volume, 5.0), "unit:tbsp" := UnitDef(Volume, 15.0), "unit:cup.us" := UnitDef(Volume, 236.588),
    "unit:cup.metric" := UnitDef(Volume, 250.0), "unit:cup.uk" := UnitDef(Volume, 284.131),
    "unit:cup.jp" := UnitDef(Volume, 200.0),
    "unit:floz" := UnitDef(Volume, 29.5735), "unit:pint" := UnitDef(Volume, 473.176),
    "unit:quart" := UnitDef(Volume, 946.353),
    "unit:s" := UnitDef(Time, 1.0), "unit:min" := UnitDef(Time, 60.0), "unit:h" := UnitDef(Time, 3600.0),
    "unit:day" := UnitDef(Time, 86400.0)]

  lemma FactorsPositive(u: string)
    requires u in UNITS
    ensures UNITS[u].factor > 0.0
  {
  }

  /** The amount in the dimension's base unit. */
  function Amount(v: real, u: string): real
    requires u in UNITS
  {
    Mul(v, UNITS[u].factor)
  }

  // ----- scaling ---------------------------------------------------------------------------

  /** Decimal multiplication, exact. */
  function Times(a: Dec, b: Dec): Dec {
    Dec(a.neg != b.neg, a.coeff * b.coeff, a.exp + b.exp)
  }

  datatype ScaleError = NotPositive

  /** `scale_quantity`. */
  function ScaleQuantity(q: Quantity, factor: Dec): Result<Quantity, ScaleError> {
    if Value(factor) <= 0.0 then Failure(NotPositive)
    else
      match q
      case Approx(_, _, _) => Success(q)
      case Scalar(v, unit) => Success(Scalar(Times(v, factor), unit))
      case Range(low, high, unit) => Success(Range(Times(low, factor), Times(high, factor), unit))
      case Count(v, top, size) =>
        Success(Count(Times(v, factor), if top.Some? then Some(Times(top.value, factor)) else None, size))
  }

  /** A scaled specification, and whether the reader is told to check it. */
  datatype Scaled = Scaled(spec: Spec, warned: bool)

  /** `scale_spec`: by one nothing changes, only LINEAR scales, MANUAL and NONLINEAR warn. */
  function ScaleSpec(s: Spec, factor: Dec): Result<Scaled, ScaleError> {
    if Value(factor) == 1.0 then Success(Scaled(s, false))
    else if !s.scaling.Linear? then Success(Scaled(s, s.scaling.Manual? || s.scaling.Nonlinear?))
    else
      var q :- ScaleQuantity(s.quantity, factor);
      Success(Scaled(s.(quantity := q), false))
  }

  // ----- conversion ----------------------------------------------------------------------------

  datatype ConversionError = UnknownUnit | NoBridge | NoDensity

  /** `convert_value`: within a dimension by the factors, between mass and volume by the density, else refused. */
  function Convert(v: real, source: string, target: string, density: Option<real>): Result<real, ConversionError>
    requires density.Some? ==> density.value > 0.0
  {
    if source !in UNITS || target !in UNITS then Failure(UnknownUnit)
    else
      FactorsPositive(target);
      var s, t := UNITS[source], UNITS[target];
      if s.dimension == t.dimension then Success(Per(Amount(v, source), t.factor))
      else if s.dimension.Time? || t.dimension.Time? then Failure(NoBridge)
      else if density.None? then Failure(NoDensity)
      else if s.dimension.Volume? then Success(Per(Mul(Amount(v, source), density.value), t.factor))
      else Success(Per(Per(Amount(v, source), density.value), t.factor))
  }

  // ----- the unit shown -----------------------------------------------------------------------------

  datatype System = MetricSystem | UsSystem | ImperialSystem

  const QUARTER_CUP_ML := 59.0

  /** Conversion to a unit of the same dimension. */
  function In(v: real, source: string, target: string): real
    requires source in UNITS && target in UNITS
  {
    FactorsPositive(target);
    Per(Amount(v, source), UNITS[target].factor)
  }

  /** `_choose_display_unit`. */
  function ChooseUnit(v: real, source: string, system: System): (string, real)
    requires source in UNITS
  {
    var us := !system.MetricSystem?;
    match UNITS[source].dimension
    case Mass =>
      if us then
        if Abs(In(v, source, "unit:oz")) >= 16.0 then ("unit:lb", In(v, source, "unit:lb"))
        else ("unit:oz", In(v, source, "unit:oz"))
      else if Abs(In(v, source, "unit:g")) >= 1000.0 then ("unit:kg", In(v, source, "unit:kg"))
      else ("unit:g", In(v, source, "unit:g"))
    case Volume =>
      var ml := In(v, source, "unit:ml");
      if us then
        if Abs(ml) >= QUARTER_CUP_ML then ("unit:cup.us", In(v, source, "unit:cup.us"))
        else if Abs(ml) >= 15.0 then ("unit:tbsp", In(v, source, "unit:tbsp"))
        else ("unit:tsp", In(v, source, "unit:tsp"))
      else if Abs(ml) >= 1000.0 then ("unit:l", In(v, source, "unit:l"))
      else ("unit:ml", ml)
    case Time => (source, v)
  }

  /** A range is shown in the unit its upper bound chooses. */
  function ChooseRange(low: real, high: real, source: string, system: System): (string, real, real)
    requires source in UNITS
  {
    var target := ChooseUnit(high, source, system).0;
    (target, In(low, source, target), In(high, source, target))
  }

  // ----- temperatures ----------------------------------------------------------------------

  /** `Temperature.value_in`: affine, not a ratio. */
  function ValueIn(t: Temperature, unit: Scale): real {
    if unit == t.unit then Value(t.value)
    else if unit.F? then Value(t.value) * 1.8 + 32.0
    else (Value(t.value) - 32.0) / 1.8
  }
}
