/** The documents of quantities: equal exactly for quantities that are the same to the reader. */
module QuantityDocuments {
  import opened Wrappers
  import opened Schema
  import D = Decimals
  import Q = QuantityText
  import opened CanonicalDocument
  import opened CanonicalLaws
  import opened CanonicalEquality
  import opened DocumentShapes

  // ----- quantities as values ----------------------------------------------------------------

  function UnitFields(u: UnitRef): seq<Field> {
    [Field("unit_id", true, OptionalText(u.unitId)), Field("surface", true, Text(u.surface)),
     Field("locale", true, OptionalText(u.locale))]
  }

  function UnitValue(u: Option<UnitRef>): Value {
    if u.Some? then Model(UnitFields(u.value)) else Null
  }

  function KindText(q: Quantity): string {
    match q
    case Scalar(_, _) => "scalar"
    case Range(_, _, _) => "range"
    case Count(_, _, _) => "count"
    case Approx(_, _, _) => "approx"
  }

  function SizeName(s: Option<Schema.Size>): Option<string> {
    if s.Some? then Some(Q.SizeText(s.value)) else None
  }

  function ScalarFields(v: D.Dec, unit: Option<UnitRef>): seq<Field> {
    [Field("kind", true, Text("scalar")), Field("value", true, Number(v)), Field("unit", true, UnitValue(unit))]
  }

  /** An approximation's nominal amount is a scalar. */
  function NominalValue(n: Option<Nominal>): Value {
    if n.Some? then Model(ScalarFields(n.value.value, n.value.unit)) else Null
  }

  function QuantityFields(q: Quantity): (fields: seq<Field>)
    ensures fields != [] && fields[0] == Field("kind", true, Text(KindText(q)))
  {
    match q
    case Scalar(v, unit) => ScalarFields(v, unit)
    case Range(low, high, unit) =>
      [Field("kind", true, Text("range")), Field("low", true, Number(low)), Field("high", true, Number(high)),
       Field("unit", true, UnitValue(unit))]
    case Count(v, top, size) =>
      [Field("kind", true, Text("count")), Field("value", true, Number(v)), Field("high", true, OptionalNumber(top)),
       Field("size", true, OptionalText(SizeName(size)))]
    case Approx(token, surface, nominal) =>
      [Field("kind", true, Text("approx")), Field("token", true, Text(token)), Field("surface", true, Text(surface)),
       Field("nominal", true, NominalValue(nominal))]
  }

  function QuantityValue(q: Quantity): Value {
    Model(QuantityFields(q))
  }

  function UnitShape(): Shape {
    AModel(map["unit_id" := AText, "surface" := AText, "locale" := AText])
  }

  function ScalarShape(): Shape {
    AModel(map["kind" := AText, "value" := ANumber, "unit" := UnitShape()])
  }

  function QuantityShape(): Shape {
    AModel(map["kind" := AText, "value" := ANumber, "unit" := UnitShape(), "low" := ANumber, "high" := ANumber,
               "size" := AText,
               "token" := AText, "surface" := AText, "nominal" := ScalarShape()])
  }

  lemma UnitShaped(u: Option<UnitRef>)
    ensures HasShape(UnitValue(u), UnitShape())
  {
  }

  lemma NominalShaped(n: Option<Nominal>)
    ensures HasShape(NominalValue(n), ScalarShape())
  {
    if n.Some? {
      UnitShaped(n.value.unit);
      hide UnitShape, UnitValue;
    }
  }

  predicate FieldHas(shapes: map<string, Shape>, name: string, sh: Shape) {
    name in shapes && shapes[name] == sh
  }

  lemma QuantityShapes()
    ensures QuantityShape().AModel?
    ensures var m := QuantityShape().fields;
            && FieldHas(m, "kind", AText) && FieldHas(m, "value", ANumber) && FieldHas(m, "unit", UnitShape())
            && FieldHas(m, "low", ANumber) && FieldHas(m, "high", ANumber) && FieldHas(m, "size", AText)
            && FieldHas(m, "token", AText) && FieldHas(m, "surface", AText) && FieldHas(m, "nominal", ScalarShape())
  {
    hide UnitShape, ScalarShape;
  }

  lemma QuantityShaped(q: Quantity)
    ensures HasShape(QuantityValue(q), QuantityShape())
  {
    hide UnitShape, UnitValue, ScalarShape, NominalValue, SizeName, OptionalNumber, OptionalText, QuantityShape;
    QuantityShapes();
    OptionalsShaped(q);
    match q
    case Scalar(_, unit) => UnitShaped(unit);
    case Range(_, _, unit) => UnitShaped(unit);
    case Count(_, _, _) =>
    case Approx(_, _, nominal) => NominalShaped(nominal);
  }

  lemma OptionalsShaped(q: Quantity)
    ensures q.Count? ==> HasShape(OptionalNumber(q.top), ANumber) && HasShape(OptionalText(SizeName(q.size)), AText)
  {
  }

  // ----- the same to the reader ---------------------------------------------------------------------

  predicate SameUnits(norm: Normalize, u: Option<UnitRef>, x: Option<UnitRef>) {
    && u.Some? == x.Some?
    && (u.Some? ==>
          && SameTexts(norm, u.value.unitId, x.value.unitId) && norm(u.value.surface) == norm(x.value.surface)
          && SameTexts(norm, u.value.locale, x.value.locale))
  }

  predicate SameAmounts(norm: Normalize, n: Option<Nominal>, m: Option<Nominal>) {
    && n.Some? == m.Some?
    && (n.Some? ==> D.Value(n.value.value) == D.Value(m.value.value) && SameUnits(norm, n.value.unit, m.value.unit))
  }

  /**
   The same kind, numerically equal, the same unit, locale, size, token, surface and nominal amount, up to
   normalisation.
   */
  predicate SameToReader(norm: Normalize, q: Quantity, r: Quantity) {
    match (q, r)
    case (Scalar(v, u), Scalar(w, x)) => D.Value(v) == D.Value(w) && SameUnits(norm, u, x)
    case (Range(l, h, u), Range(m, i, x)) =>
      D.Value(l) == D.Value(m) && D.Value(h) == D.Value(i) && SameUnits(norm, u, x)
    case (Count(v, t, s), Count(w, u, z)) => D.Value(v) == D.Value(w) && s == z && SameNumbers(t, u)
    case (Approx(t, s, n), Approx(u, z, m)) => norm(t) == norm(u) && norm(s) == norm(z) && SameAmounts(norm, n, m)
    case _ => false
  }

  lemma UnitPresent(norm: Normalize, u: Option<UnitRef>)
    ensures Missing(norm, UnitValue(u)) <==> u.None?
  {
    if u.Some? {
      HasPlainField(norm, UnitFields(u.value), 1);
    }
  }

  lemma UnitModelsIff(norm: Normalize, u: UnitRef, x: UnitRef)
    ensures Same(norm, Model(UnitFields(u)), Model(UnitFields(x))) <==> SameUnits(norm, Some(u), Some(x))
  {
    hide Same, SameField, Missing, SameUpTo;
    var fs, gs := UnitFields(u), UnitFields(x);
    ModelsSame(norm, fs, gs);
    SameNone(norm, fs, gs);
    SameNext(norm, fs, gs, 0);
    SameNext(norm, fs, gs, 1);
    SameNext(norm, fs, gs, 2);
    OptionalTextIff(norm, u.unitId, x.unitId);
    TextFieldIff(norm, u.surface, x.surface);
    OptionalTextIff(norm, u.locale, x.locale);
  }

  lemma UnitsSameIff(norm: Normalize, u: Option<UnitRef>, x: Option<UnitRef>)
    ensures SameField(norm, UnitValue(u), UnitValue(x)) <==> SameUnits(norm, u, x)
  {
    UnitPresent(norm, u);
    UnitPresent(norm, x);
    hide Missing, Same, SameField, UnitFields;
    ModelFieldIff(norm, UnitValue(u), UnitValue(x));
    if u.Some? && x.Some? {
      UnitModelsIff(norm, u.value, x.value);
    }
  }

  lemma ScalarsSameIff(norm: Normalize, v: D.Dec, u: Option<UnitRef>, w: D.Dec, x: Option<UnitRef>)
    ensures Same(norm, Model(ScalarFields(v, u)), Model(ScalarFields(w, x))) <==>
            D.Value(v) == D.Value(w) && SameUnits(norm, u, x)
  {
    hide Same, SameField, Missing, UnitValue, SameUpTo;
    var fs, gs := ScalarFields(v, u), ScalarFields(w, x);
    ModelsSame(norm, fs, gs);
    SameNone(norm, fs, gs);
    SameNext(norm, fs, gs, 0);
    SameNext(norm, fs, gs, 1);
    SameNext(norm, fs, gs, 2);
    TextFieldIff(norm, "scalar", "scalar");
    NumberFieldIff(norm, v, w);
    UnitsSameIff(norm, u, x);
  }

  lemma NominalsSameIff(norm: Normalize, n: Option<Nominal>, m: Option<Nominal>)
    ensures SameField(norm, NominalValue(n), NominalValue(m)) <==> SameAmounts(norm, n, m)
  {
    hide Same, SameField, UnitValue, SameUnits;
    if n.Some? {
      HasPlainField(norm, ScalarFields(n.value.value, n.value.unit), 0);
    }
    if m.Some? {
      HasPlainField(norm, ScalarFields(m.value.value, m.value.unit), 0);
    }
    ModelFieldIff(norm, NominalValue(n), NominalValue(m));
    if n.Some? && m.Some? {
      ScalarsSameIff(norm, n.value.value, n.value.unit, m.value.value, m.value.unit);
    }
  }

  lemma SizeTextPlain(norm: Normalize, s: Schema.Size)
    requires GoodNorm(norm)
    ensures norm(Q.SizeText(s)) == Q.SizeText(s) && Q.SizeOf(Q.SizeText(s)) == Some(s)
  {
    Q.SizeRoundTrip(s);
    assert Ascii(Q.SizeText(s));
  }

  lemma SizesSameIff(norm: Normalize, a: Option<Schema.Size>, b: Option<Schema.Size>)
    requires GoodNorm(norm)
    ensures SameField(norm, OptionalText(SizeName(a)), OptionalText(SizeName(b))) <==> a == b
  {
    hide SameField, Q.SizeText, Q.SizeOf;
    OptionalTextIff(norm, SizeName(a), SizeName(b));
    if a.Some? {
      SizeTextPlain(norm, a.value);
    }
    if b.Some? {
      SizeTextPlain(norm, b.value);
    }
  }

  lemma FourSame(norm: Normalize, fs: seq<Field>, gs: seq<Field>)
    requires |fs| == |gs| == 4 && OneClass(fs, gs) && forall i :: 0 <= i < 4 ==> fs[i].semantic
    ensures Same(norm, Model(fs), Model(gs)) <==>
              && SameField(norm, fs[0].value, gs[0].value) && SameField(norm, fs[1].value, gs[1].value)
              && SameField(norm, fs[2].value, gs[2].value) && SameField(norm, fs[3].value, gs[3].value)
  {
    hide Same, SameField, SameUpTo, OneClass;
    ModelsSame(norm, fs, gs);
    SameNone(norm, fs, gs);
    SameNext(norm, fs, gs, 0);
    SameNext(norm, fs, gs, 1);
    SameNext(norm, fs, gs, 2);
    SameNext(norm, fs, gs, 3);
  }

  lemma SameKindIff(norm: Normalize, q: Quantity, r: Quantity)
    requires GoodNorm(norm) && KindText(q) == KindText(r)
    ensures Same(norm, QuantityValue(q), QuantityValue(r)) <==> SameToReader(norm, q, r)
  {
    hide Same, SameField, Missing, UnitValue, NominalValue, SizeName, SameUnits, SameAmounts, SameNumbers,
      OptionalNumber, OptionalText;
    var fs, gs := QuantityFields(q), QuantityFields(r);
    TextFieldIff(norm, KindText(q), KindText(r));
    match (q, r)
    case (Scalar(v, u), Scalar(w, x)) => ScalarsSameIff(norm, v, u, w, x);
    case (Range(l, h, u), Range(m, i, x)) =>
      FourSame(norm, fs, gs);
      NumberFieldIff(norm, l, m);
      NumberFieldIff(norm, h, i);
      UnitsSameIff(norm, u, x);
    case (Count(v, t, s), Count(w, u, z)) =>
      FourSame(norm, fs, gs);
      NumberFieldIff(norm, v, w);
      OptionalNumberIff(norm, t, u);
      SizesSameIff(norm, s, z);
    case (Approx(t, s, n), Approx(u, z, m)) =>
      FourSame(norm, fs, gs);
      TextFieldIff(norm, t, u);
      TextFieldIff(norm, s, z);
      NominalsSameIff(norm, n, m);
  }

  lemma QuantityNames(q: Quantity)
    ensures DistinctNames(QuantityFields(q))
  {
    hide UnitValue, OptionalText, OptionalNumber, KindText, NominalValue;
  }

  /** Quantities of different kinds never share a document. */
  lemma KindsDiffer(norm: Normalize, q: Quantity, r: Quantity)
    requires GoodNorm(norm) && KindText(q) != KindText(r)
    ensures !Same(norm, QuantityValue(q), QuantityValue(r))
  {
    QuantityNames(q);
    QuantityNames(r);
    assert Ascii(KindText(q)) && Ascii(KindText(r));
    hide QuantityFields, KindText;
    FirstTextDiffers(norm, QuantityFields(q), QuantityFields(r), "kind", KindText(q), KindText(r));
  }

  lemma QuantitiesSameIff(norm: Normalize, q: Quantity, r: Quantity)
    requires GoodNorm(norm)
    ensures Same(norm, QuantityValue(q), QuantityValue(r)) <==> SameToReader(norm, q, r)
  {
    if KindText(q) == KindText(r) {
      SameKindIff(norm, q, r);
    } else {
      KindsDiffer(norm, q, r);
      hide Same, QuantityFields;
    }
  }

  /** Two quantities hash alike exactly if they are the same to the reader. */
  lemma {:induction false} QuantityDocumentsEqualIff(norm: Normalize, q: Quantity, r: Quantity)
    requires GoodNorm(norm)
    ensures Encode(norm, QuantityValue(q)).Success? && Encode(norm, QuantityValue(r)).Success?
    ensures Encode(norm, QuantityValue(q)) == Encode(norm, QuantityValue(r)) <==> SameToReader(norm, q, r)
  {
    hide Encode, Same, QuantityFields, HasShape, QuantityShape;
    QuantityShaped(q);
    QuantityShaped(r);
    ShapedEqualIff(norm, QuantityValue(q), QuantityValue(r), QuantityShape());
    QuantitiesSameIff(norm, q, r);
  }

  function NumberJson(d: D.Dec): Json {
    JText(D.Encode(d))
  }

  function OptionalJson(t: Option<string>): Option<Json> {
    if t.Some? then Some(JText(t.value)) else None
  }

  lemma QuantityMember(norm: Normalize, q: Quantity, i: nat)
    requires i < |QuantityFields(q)| && QuantityFields(q)[i].semantic
    ensures Holds(norm, QuantityValue(q), QuantityFields(q)[i].name, QuantityFields(q)[i].value)
  {
    hide Holds, QuantityFields, HasShape, QuantityShape, DistinctNames;
    QuantityShaped(q);
    QuantityNames(q);
    FieldHeld(norm, QuantityFields(q), QuantityShape(), i);
  }

  /** The document of a quantity holds its numbers as text, its size, its token and its wording, each under its name. */
  lemma {:induction false} QuantityMembers(norm: Normalize, q: Quantity)
    requires GoodNorm(norm)
    ensures var v := QuantityValue(q);
            match q
            case Scalar(n, _) => Member(norm, v, "value") == Some(NumberJson(n))
            case Range(low, high, _) =>
              && Member(norm, v, "low") == Some(NumberJson(low))
              && Member(norm, v, "high") == Some(NumberJson(high))
            case Count(n, top, size) =>
              && Member(norm, v, "value") == Some(NumberJson(n))
              && Member(norm, v, "high") == (if top.Some? then Some(NumberJson(top.value)) else None)
              && Member(norm, v, "size") == OptionalJson(SizeName(size))
            case Approx(token, surface, _) =>
              && Member(norm, v, "token") == Some(JText(norm(token)))
              && Member(norm, v, "surface") == Some(JText(norm(surface)))
  {
    hide Member, QuantityValue, UnitValue, NominalValue, D.Encode;
    QuantityMember(norm, q, 1);
    if !q.Scalar? {
      QuantityMember(norm, q, 2);
    }
    match q {
      case Count(_, _, Some(size)) =>
        QuantityMember(norm, q, 3);
        SizeTextPlain(norm, size);
      case Count(_, _, None) => QuantityMember(norm, q, 3);
      case _ =>
    }
  }

  /** The unit as the parser looks it up in the text: its id resolved from the surface, without a locale. */
  predicate UnitKept(norm: Normalize, env: Q.Env, u: UnitRef) {
    SameTexts(norm, u.unitId, env.resolveUnit(u.surface)) && u.locale.None?
  }

  /**
   A quantity printed and parsed hashes as before exactly if the text can express its shape, the lookups give its unit
   and token, and it has no locale and no nominal amount.
   */
  lemma {:induction false} ReadBackHashIff(norm: Normalize, env: Q.Env, q: Quantity)
    requires GoodNorm(norm) && Q.Writable(q)
    ensures Encode(norm, QuantityValue(Q.ReadBackQuantity(env, q))) == Encode(norm, QuantityValue(q)) <==>
              && Q.Expressible(q)
              && (match q
                  case Scalar(_, u) => UnitKept(norm, env, u.value)
                  case Range(_, _, u) => UnitKept(norm, env, u.value)
                  case Count(_, _, _) => true
                  case Approx(t, s, n) => norm(env.approxToken(s)) == norm(t) && n.None?)
  {
    QuantityDocumentsEqualIff(norm, Q.ReadBackQuantity(env, q), q);
    hide Encode, QuantityFields;
    match q
    case Scalar(v, _) => D.PlainValue(v);
    case Range(low, high, _) =>
      D.PlainValue(low);
      D.PlainValue(high);
    case Count(v, None, _) => D.PlainValue(v);
    case Count(v, Some(top), _) =>
      D.PlainValue(v);
      D.PlainValue(top);
    case Approx(_, _, _) =>
  }
}
