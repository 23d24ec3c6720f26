/** Scaling is exact, conversion loses nothing, and what is shown does not depend on the unit it was written in. */
module UnitLaws {
  import opened Wrappers
  import opened Decimals
  import opened Schema
  import opened QuantityText
  import opened Rounding
  import opened Reals
  import opened Units

  // ----- scaling ----------------------------------------------------------------------------

  lemma {:induction false} PAdds(a: int, b: int)
    ensures P(a + b) == Mul(P(a), P(b))
    decreases if b < 0 then -b else b
  {
    if b == 0 {
      assert P(b) == 1.0;
    } else if b > 0 {
      PAdds(a, b - 1);
      StepUp(a + b - 1);
      StepUp(b - 1);
      MulSwap(P(a), 10.0, P(b - 1));
      hide P, Mul;
    } else {
      PAdds(a, b + 1);
      StepUp(a + b);
      StepUp(b);
      MulSwap(P(a), 10.0, P(b));
      hide P;
      assert 10.0 * P(a + b) == 10.0 * Mul(P(a), P(b));
    }
  }

  lemma StepUp(m: int)
    ensures P(m + 1) == Mul(10.0, P(m))
  {
    PStep(m);
  }

  lemma MagnitudeTimes(a: nat, e: int, b: nat, f: int)
    ensures Magnitude(a * b, e + f) == Mul(Magnitude(a, e), Magnitude(b, f))
  {
    MagnitudeIs(a * b, e + f);
    MagnitudeIs(a, e);
    MagnitudeIs(b, f);
    PAdds(e, f);
    assert (a * b) as real == Mul(a as real, b as real);
    MulShuffle(a as real, b as real, P(e), P(f));
    hide P, Magnitude, Mul;
  }

  lemma MagnitudeIs(c: nat, e: int)
    ensures Magnitude(c, e) == Mul(c as real, P(e))
  {
  }

  lemma TimesValue(a: Dec, b: Dec)
    ensures Value(Times(a, b)) == Mul(Value(a), Value(b))
  {
    MagnitudeTimes(a.coeff, a.exp, b.coeff, b.exp);
    MulSigns(Magnitude(a.coeff, a.exp), Magnitude(b.coeff, b.exp));
    hide Magnitude, Mul;
  }

  /** Scaling keeps a quantity valid: ranges stay in order although no check is run on the copy. */
  lemma {:induction false} ScaledStaysValid(s: Spec, factor: Dec)
    requires ValidSpec(s) && ScaleSpec(s, factor).Success?
    ensures ValidSpec(ScaleSpec(s, factor).value.spec)
  {
    hide Value;
    match s.quantity
    case Range(low, high, _) =>
      TimesValue(low, factor);
      TimesValue(high, factor);
      if Value(factor) > 0.0 {
        MulOrder(Value(low), Value(high), Value(factor));
      }
    case Count(v, Some(top), _) =>
      TimesValue(v, factor);
      TimesValue(top, factor);
      if Value(factor) > 0.0 {
        MulOrder(Value(v), Value(top), Value(factor));
      }
    case _ =>
  }

  /**
   The quantity is of one kind with the other, each of its numbers the factor times the other's, all else the same.
   */
  predicate Multiplied(q: Quantity, r: Quantity, factor: real) {
    match q
    case Scalar(v, unit) => r.Scalar? && Value(r.value) == Value(v) * factor && r.unit == unit
    case Range(low, high, unit) =>
      r.Range? && Value(r.low) == Value(low) * factor && Value(r.high) == Value(high) * factor && r.unit == unit
    case Count(v, top, size) =>
      && r.Count? && Value(r.value) == Value(v) * factor && r.size == size && r.top.Some? == top.Some?
      && (top.Some? ==> Value(r.top.value) == Value(top.value) * factor)
    case Approx(_, _, _) => r == q
  }

  lemma TimesIs(v: Dec, factor: Dec)
    ensures Value(Times(v, factor)) == Value(v) * Value(factor)
  {
    TimesValue(v, factor);
    hide Value, Times;
  }

  /** Scaling a LINEAR specification multiplies every number of it; scaling any other changes nothing. */
  lemma {:induction false} ScalingMultiplies(s: Spec, factor: Dec)
    requires Value(factor) > 0.0
    ensures var r := ScaleSpec(s, factor);
            && r.Success?
            && if s.scaling.Linear? then r.value.spec.scaling == s.scaling
                                      && Multiplied(s.quantity, r.value.spec.quantity, Value(factor))
               else r.value.spec == s
  {
    hide Value, Times;
    match s.quantity
    case Scalar(v, _) => TimesIs(v, factor);
    case Range(low, high, _) =>
      TimesIs(low, factor);
      TimesIs(high, factor);
    case Count(v, None, _) => TimesIs(v, factor);
    case Count(v, Some(top), _) =>
      TimesIs(v, factor);
      TimesIs(top, factor);
    case Approx(_, _, _) =>
  }

  lemma TimesTwice(v: Dec, a: Dec, b: Dec)
    ensures Value(Times(Times(v, a), b)) == Value(Times(v, Times(a, b)))
    ensures Value(a) == 1.0 ==> Value(Times(v, a)) == Value(v) && Value(Times(v, Times(a, b))) == Value(Times(v, b))
    ensures Value(b) == 1.0 ==> Value(Times(v, Times(a, b))) == Value(Times(v, a))
    ensures Value(Times(a, b)) == 1.0 ==> Value(Times(Times(v, a), b)) == Value(v)
  {
    TimesValue(v, a);
    TimesValue(Times(v, a), b);
    TimesValue(a, b);
    TimesValue(v, Times(a, b));
    TimesValue(v, b);
    MulAssoc(Value(v), Value(a), Value(b));
    ByOne(Value(v), Value(a), Value(b));
    hide Value, Times, Mul;
  }

  lemma ByOne(x: real, a: real, b: real)
    ensures a == 1.0 ==> Mul(x, a) == x && Mul(a, b) == b
    ensures b == 1.0 ==> Mul(a, b) == a
    ensures Mul(a, b) == 1.0 ==> Mul(x, Mul(a, b)) == x
  {
  }

  /** The spec that a scaling which succeeds gives, or the spec itself. */
  function After(s: Spec, factor: Dec): Spec
    requires Value(factor) > 0.0
  {
    ScaleSpec(s, factor).value.spec
  }

  lemma PositiveProduct(a: Dec, b: Dec)
    requires Value(a) > 0.0 && Value(b) > 0.0
    ensures Value(Times(a, b)) > 0.0
  {
    TimesValue(a, b);
    MulPositive(Value(a), Value(b));
    hide Value;
  }

  /** The numbers agree after scaling twice and after scaling once, also when a factor of one is left out. */
  predicate TwiceIsOnce(v: Dec, a: Dec, b: Dec) {
    && Value(Times(Times(v, a), b)) == Value(Times(v, Times(a, b)))
    && (Value(a) == 1.0 ==> Value(Times(v, b)) == Value(Times(v, Times(a, b))))
    && (Value(b) == 1.0 ==> Value(Times(v, a)) == Value(Times(v, Times(a, b))))
    && (Value(Times(a, b)) == 1.0 ==> Value(Times(Times(v, a), b)) == Value(v))
  }

  lemma ScaledTwice(v: Dec, a: Dec, b: Dec)
    ensures TwiceIsOnce(v, a, b)
  {
    TimesTwice(v, a, b);
    hide Value, Times;
  }

  /** Scaling twice is scaling once by the product, exactly, whatever the policy. */
  lemma {:induction false} ScalingComposes(s: Spec, a: Dec, b: Dec)
    requires Value(a) > 0.0 && Value(b) > 0.0
    ensures Value(Times(a, b)) > 0.0
    ensures SameSpec(After(After(s, a), b), After(s, Times(a, b)))
  {
    PositiveProduct(a, b);
    TimesValue(a, b);
    ByOne(0.0, Value(a), Value(b));
    hide Times, Value, Mul;
    match s.quantity
    case Scalar(v, _) => ScaledTwice(v, a, b);
    case Range(low, high, _) =>
      ScaledTwice(low, a, b);
      ScaledTwice(high, a, b);
    case Count(v, None, _) => ScaledTwice(v, a, b);
    case Count(v, Some(top), _) =>
      ScaledTwice(v, a, b);
      ScaledTwice(top, a, b);
    case Approx(_, _, _) =>
  }

  /** Scaling by a factor and its reciprocal gives the original numbers back. */
  lemma {:induction false} ScalingUndone(s: Spec, a: Dec, b: Dec)
    requires Value(a) > 0.0 && Value(b) > 0.0 && Value(Times(a, b)) == 1.0
    ensures SameSpec(After(After(s, a), b), s)
  {
    ScalingComposes(s, a, b);
    hide Value, Times;
  }

  // ----- conversion -----------------------------------------------------------------------------

  /** The three conversions on the factors s, t and the density d, and the way back. */
  lemma Undone(v: real, s: real, t: real, d: real)
    requires s > 0.0 && t > 0.0 && d > 0.0
    ensures Per(Mul(Per(Mul(v, s), t), t), s) == v
    ensures Per(Per(Mul(Per(Mul(Mul(v, s), d), t), t), d), s) == v
    ensures Per(Mul(Mul(Per(Per(Mul(v, s), d), t), t), d), s) == v
  {
    var a := Mul(v, s);
    Cancels(v, s);
    Cancels(a, t);
    Cancels(Mul(a, d), t);
    Cancels(a, d);
    Cancels(Per(a, d), t);
    hide Mul, Per;
  }

  /** A conversion that succeeds is undone by the conversion back. */
  lemma {:induction false} ConvertBack(v: real, source: string, target: string, density: Option<real>)
    requires density.Some? ==> density.value > 0.0
    requires Convert(v, source, target, density).Success?
    ensures Convert(Convert(v, source, target, density).value, target, source, density) == Success(v)
  {
    FactorsPositive(source);
    FactorsPositive(target);
    hide UNITS, Mul, Per;
    Undone(v, UNITS[source].factor, UNITS[target].factor, if density.Some? then density.value else 1.0);
  }

  /** So many grams, millilitres or seconds. */
  function Base(v: real, u: string): real
    requires u in UNITS
  {
    v * UNITS[u].factor
  }

  lemma AmountIs(v: real, u: string)
    requires u in UNITS
    ensures Amount(v, u) == Base(v, u)
  {
    hide UNITS;
  }

  lemma Divided(x: real, k: real)
    requires k > 0.0
    ensures Per(x, k) * k == x
  {
    Cancels(x, k);
  }

  /**
   A conversion keeps the amount: the grams, millilitres or seconds within a dimension; from volume to mass the grams
   are the millilitres times the density.
   */
  lemma {:induction false} ConvertKeepsAmount(v: real, source: string, target: string, density: Option<real>)
    requires density.Some? ==> density.value > 0.0
    requires Convert(v, source, target, density).Success?
    ensures source in UNITS && target in UNITS
    ensures var r, s, t := Convert(v, source, target, density).value, UNITS[source].dimension, UNITS[target].dimension;
            && (s == t ==> Base(r, target) == Base(v, source))
            && (s == Volume && t == Mass ==> density.Some? && Base(r, target) == Base(v, source) * density.value)
            && (s == Mass && t == Volume ==> density.Some? && Base(r, target) * density.value == Base(v, source))
            && (s == t || {s, t} == {Mass, Volume})
  {
    hide UNITS, Per, Amount, Mul;
    FactorsPositive(source);
    FactorsPositive(target);
    AmountIs(v, source);
    var a, k := Amount(v, source), UNITS[target].factor;
    Divided(a, k);
    if density.Some? {
      MulIs(a, density.value);
      Divided(Mul(a, density.value), k);
      Divided(Per(a, density.value), k);
      Divided(a, density.value);
    }
  }

  lemma MulIs(x: real, y: real)
    ensures Mul(x, y) == x * y
  {
  }

  /** Why a conversion is refused: an unknown unit, dimensions without a bridge, or a bridge without a density. */
  lemma {:induction false} ConvertRefusesIff(v: real, source: string, target: string, density: Option<real>)
    requires density.Some? ==> density.value > 0.0
    ensures var r := Convert(v, source, target, density);
            && (r == Failure(UnknownUnit) <==> source !in UNITS || target !in UNITS)
            && (r == Failure(NoBridge) <==> source in UNITS && target in UNITS
                                            && UNITS[source].dimension != UNITS[target].dimension
                                            && Time in {UNITS[source].dimension, UNITS[target].dimension})
            && (r == Failure(NoDensity) <==> source in UNITS && target in UNITS && density.None?
                                             && {UNITS[source].dimension, UNITS[target].dimension} == {Mass, Volume})
  {
    hide UNITS, Amount, Per, Mul;
  }

  /** How many of one unit another is. */
  lemma {:induction false} KnownConversions()
    ensures Convert(2.0, "unit:kg", "unit:g", None) == Success(2000.0)
    ensures Convert(1.0, "unit:lb", "unit:oz", None) == Success(16.0)
    ensures Convert(1.0, "unit:tbsp", "unit:tsp", None) == Success(3.0)
    ensures Convert(1.0, "unit:l", "unit:ml", None) == Success(1000.0)
  {
  }

  lemma {:induction false} KnownTimes()
    ensures Convert(1.0, "unit:day", "unit:h", None) == Success(24.0)
    ensures Convert(1.0, "unit:h", "unit:min", None) == Success(60.0)
    ensures Convert(1.0, "unit:min", "unit:s", None) == Success(60.0)
  {
  }

  /** A quarter litre of a flour of 0.6 grams per millilitre, and back. */
  lemma {:induction false} KnownBridge()
    ensures Convert(250.0, "unit:ml", "unit:g", Some(0.6)) == Success(150.0)
    ensures Convert(150.0, "unit:g", "unit:ml", Some(0.6)) == Success(250.0)
  {
  }

  lemma ScalesThrough(c: real, v: real, s: real, t: real, d: real)
    requires s > 0.0 && t > 0.0 && d > 0.0
    ensures Per(Mul(Mul(c, v), s), t) == Mul(c, Per(Mul(v, s), t))
    ensures Per(Mul(Mul(Mul(c, v), s), d), t) == Mul(c, Per(Mul(Mul(v, s), d), t))
    ensures Per(Per(Mul(Mul(c, v), s), d), t) == Mul(c, Per(Per(Mul(v, s), d), t))
  {
    var a := Mul(v, s);
    MulAssoc(c, v, s);
    PerMul(c, a, t);
    MulAssoc(c, a, d);
    PerMul(c, Mul(a, d), t);
    PerMul(c, a, d);
    PerMul(c, Per(a, d), t);
    hide Mul, Per;
  }

  /** Conversion answers for the same units whatever the amount, and scaling commutes with it. */
  lemma {:induction false} ConvertScales(c: real, v: real, source: string, target: string, density: Option<real>)
    requires density.Some? ==> density.value > 0.0
    ensures var r, k := Convert(v, source, target, density), Convert(Mul(c, v), source, target, density);
            && r.Success? == k.Success? && (r.Failure? ==> k == r) && (r.Success? ==> k.value == Mul(c, r.value))
  {
    if source in UNITS && target in UNITS {
      FactorsPositive(source);
      FactorsPositive(target);
      hide UNITS, Mul, Per;
      ScalesThrough(c, v, UNITS[source].factor, UNITS[target].factor, if density.Some? then density.value else 1.0);
    }
  }

  // ----- display --------------------------------------------------------------------------------------

  lemma KnownUnits()
    ensures forall u :: u in ["unit:g", "unit:kg", "unit:oz", "unit:lb"] ==> u in UNITS && UNITS[u].dimension == Mass
    ensures forall u :: u in ["unit:ml", "unit:l", "unit:tsp", "unit:tbsp", "unit:cup.us"] ==>
            u in UNITS && UNITS[u].dimension == Volume
  {
  }

  lemma AmountKept(v: real, source: string, target: string)
    requires source in UNITS && target in UNITS
    ensures Amount(In(v, source, target), target) == Amount(v, source)
  {
    FactorsPositive(target);
    Cancels(Amount(v, source), UNITS[target].factor);
    hide UNITS, Mul, Per;
  }

  /** The shown amount is the authored one, in a unit of the same dimension. */
  lemma {:induction false} ShownAmount(v: real, source: string, system: System)
    requires source in UNITS
    ensures var (target, shown) := ChooseUnit(v, source, system);
            target in UNITS && UNITS[target].dimension == UNITS[source].dimension
              && Amount(shown, target) == Amount(v, source)
  {
    var (target, shown) := ChooseUnit(v, source, system);
    if !UNITS[source].dimension.Time? {
      KnownUnits();
      AmountKept(v, source, target);
    }
    hide UNITS, In, Amount;
  }

  /** The number shown is what converting to the unit chosen answers. */
  lemma {:induction false} ShownIsConverted(v: real, source: string, system: System, density: Option<real>)
    requires source in UNITS && (density.Some? ==> density.value > 0.0)
    ensures var (target, shown) := ChooseUnit(v, source, system);
            Convert(v, source, target, density) == Success(shown)
  {
    var (target, shown) := ChooseUnit(v, source, system);
    ShownAmount(v, source, system);
    FactorsPositive(target);
    Cancels(shown, UNITS[target].factor);
    hide UNITS, ChooseUnit, Mul, Per;
  }

  /** Both numbers of a range are what converting to its unit answers. */
  lemma {:induction false} RangeIsConverted(low: real, high: real, source: string, system: System)
    requires source in UNITS
    ensures var (target, shownLow, shownHigh) := ChooseRange(low, high, source, system);
            && target == ChooseUnit(high, source, system).0
            && Convert(low, source, target, None) == Success(shownLow)
            && Convert(high, source, target, None) == Success(shownHigh)
  {
    ShownAmount(high, source, system);
    hide UNITS, ChooseUnit, Mul, Per;
  }

  /** Two spellings of one mass or volume are shown alike: the same unit and the same number. */
  lemma {:induction false} SpellingDoesNotMatter(v: real, source: string, w: real, other: string, system: System)
    requires source in UNITS && other in UNITS
    requires UNITS[source].dimension == UNITS[other].dimension && !UNITS[source].dimension.Time?
    requires Amount(v, source) == Amount(w, other)
    ensures ChooseUnit(v, source, system) == ChooseUnit(w, other, system)
  {
    hide UNITS, Amount;
  }

  lemma InOrder(low: real, high: real, source: string, target: string)
    requires source in UNITS && target in UNITS && low <= high
    ensures In(low, source, target) <= In(high, source, target)
  {
    FactorsPositive(source);
    FactorsPositive(target);
    MulOrder(low, high, UNITS[source].factor);
    MulOrder(Amount(low, source), Amount(high, source), UNITS[target].factor);
    hide UNITS, Mul, Per;
  }

  /** A range is shown in one unit, in order, and the same for two spellings of the same amounts. */
  lemma {:induction false} RangeShown(low: real, high: real, source: string, low2: real, high2: real, other: string,
                                      system: System)
    requires source in UNITS && other in UNITS && low <= high
    requires UNITS[source].dimension == UNITS[other].dimension && !UNITS[source].dimension.Time?
    requires Amount(low, source) == Amount(low2, other) && Amount(high, source) == Amount(high2, other)
    ensures var (target, shownLow, shownHigh) := ChooseRange(low, high, source, system);
            && shownLow <= shownHigh && target in UNITS
            && Amount(shownLow, target) == Amount(low, source) && Amount(shownHigh, target) == Amount(high, source)
    ensures ChooseRange(low, high, source, system) == ChooseRange(low2, high2, other, system)
  {
    var target := ChooseUnit(high, source, system).0;
    ShownAmount(high, source, system);
    SpellingDoesNotMatter(high, source, high2, other, system);
    InOrder(low, high, source, target);
    AmountKept(low, source, target);
    AmountKept(high, source, target);
    hide UNITS, Amount, ChooseUnit;
  }

  /**
   The unit shown, by the amount in grams or millilitres: promoted exactly at a kilo or a litre, sixteen ounces, a
   tablespoon, a quarter cup. A time stays as it is.
   */
  lemma {:induction false} PromotedIff(v: real, source: string, system: System)
    requires source in UNITS
    ensures var (unit, shown) := ChooseUnit(v, source, system);
            var amount := Abs(Base(v, source));
            match UNITS[source].dimension
            case Mass =>
              if system.MetricSystem? then unit == if amount >= 1000.0 then "unit:kg" else "unit:g"
              else unit == if amount >= 453.59237 then "unit:lb" else "unit:oz"
            case Volume =>
              if system.MetricSystem? then unit == if amount >= 1000.0 then "unit:l" else "unit:ml"
              else unit == if amount >= 59.0 then "unit:cup.us" else if amount >= 15.0 then "unit:tbsp" else "unit:tsp"
            case Time => (unit, shown) == (source, v)
  {
    assert UNITS["unit:g"].factor == 1.0 && UNITS["unit:ml"].factor == 1.0 && UNITS["unit:oz"].factor == 28.349523125;
    AmountIs(v, source);
    SixteenOunces(Amount(v, source));
  }

  lemma SixteenOunces(amount: real)
    ensures Abs(Per(amount, 28.349523125)) >= 16.0 <==> Abs(amount) >= 453.59237
  {
  }

  /** Only LINEAR quantities scale; the reader is told to check the others that are not fixed for good. */
  lemma {:induction false} OnlyLinearScales(s: Spec, factor: Dec)
    requires ValidSpec(s)
    ensures var r := ScaleSpec(s, factor);
            && (r.Failure? <==> s.scaling.Linear? && Value(factor) <= 0.0)
            && (!s.scaling.Linear? ==> r.value.spec == s)
            && (r.Success? ==>
                  (r.value.warned <==> Value(factor) != 1.0 && (s.scaling.Manual? || s.scaling.Nonlinear?)))
            && (r.Success? ==> r.value.spec.scaling == s.scaling)
  {
    hide Value, ValidQuantity;
  }

  /** A temperature whose value is another's in its unit converts back to it, and conversion keeps order both ways. */
  lemma {:induction false} HeatConverts(t: Temperature, u: Temperature, unit: Scale)
    ensures Value(u.value) == ValueIn(t, u.unit) ==>
              ValueIn(u, t.unit) == Value(t.value) && ValueIn(u, unit) == ValueIn(t, unit)
    ensures t.unit == u.unit ==> (Value(t.value) <= Value(u.value) <==> ValueIn(t, unit) <= ValueIn(u, unit))
  {
    hide Value;
  }

  /** Water freezes at 32 and boils at 212 Fahrenheit, and nine Fahrenheit degrees are five Celsius degrees. */
  lemma {:induction false} HeatAnchors(t: Temperature, u: Temperature)
    requires t.unit == u.unit
    ensures ValueIn(Temperature(Dec(false, 0, 0), C), F) == 32.0
            && ValueIn(Temperature(Dec(false, 100, 0), C), F) == 212.0
    ensures t.unit == C ==> (ValueIn(u, F) - ValueIn(t, F)) * 5.0 == (Value(u.value) - Value(t.value)) * 9.0
    ensures t.unit == F ==> (ValueIn(u, C) - ValueIn(t, C)) * 9.0 == (Value(u.value) - Value(t.value)) * 5.0
  {
    HundredDegrees();
    hide Value;
  }

  lemma HundredDegrees()
    ensures Value(Dec(false, 0, 0)) == 0.0 && Value(Dec(false, 100, 0)) == 100.0
  {
  }
}
