/** Values of one schema: their shapes, and when models and lists of one class have one document. */
module DocumentShapes {
  import opened Wrappers
  import D = Decimals
  import opened CanonicalDocument
  import opened CanonicalEquality

  // ----- shapes -------------------------------------------------------------------------------

  /** What a field of the schema may hold, if it holds anything; a model lists the shapes of all fields it may have. */
  datatype Shape =
    | AText
    | ANumber
    | AnInt
    | ABool
    | AList(item: Shape)
    | ADict(item: Shape)
    | AModel(fields: map<string, Shape>)

  predicate HasShape(v: Value, sh: Shape)
    decreases v
  {
    match v
    case Null => true
    case Text(_) => sh.AText?
    case Number(_) => sh.ANumber?
    case Int(_) => sh.AnInt?
    case Bool(_) => sh.ABool?
    case List(items) => sh.AList? && forall i :: 0 <= i < |items| ==> HasShape(items[i], sh.item)
    case Mapping(entries) =>
      sh.ADict? && forall i :: 0 <= i < |entries| ==> entries[i].key.Some? && HasShape(entries[i].value, sh.item)
    case Model(fields) =>
      && sh.AModel?
      && forall i :: 0 <= i < |fields| ==>
            fields[i].name in sh.fields && HasShape(fields[i].value, sh.fields[fields[i].name])
    case _ => false
  }

  lemma {:induction false} LastHasName(norm: Normalize, v: Value, k: nat, name: string)
    requires IsObject(v) && k <= MemberCount(v)
    ensures var i := Last(norm, v, k, name);
            i.Some? ==> NameAt(norm, v, i.value) == Some(name) && !Missing(norm, ValueAt(v, i.value))
  {
    if k > 0 {
      LastHasName(norm, v, k - 1, name);
    }
    hide Missing;
  }

  /** Values of one shape can be compared. */
  lemma {:induction false} ShapedComparable(norm: Normalize, v: Value, w: Value, sh: Shape)
    requires HasShape(v, sh) && HasShape(w, sh)
    ensures Comparable(norm, v, w)
    decreases v, 1
  {
    if IsObject(v) && IsObject(w) {
      forall name ensures ComparableMember(norm, v, w, name) {
        ShapedMember(norm, v, w, sh, name);
      }
    } else if v.List? && w.List? {
      forall i | 0 <= i < |v.items| && i < |w.items| ensures Comparable(norm, v.items[i], w.items[i]) {
        ShapedComparable(norm, v.items[i], w.items[i], sh.item);
      }
    }
  }

  lemma {:induction false} ShapedMember(norm: Normalize, v: Value, w: Value, sh: Shape, name: string)
    requires IsObject(v) && IsObject(w) && HasShape(v, sh) && HasShape(w, sh)
    ensures ComparableMember(norm, v, w, name)
    decreases v, 0
  {
    LastHasName(norm, v, MemberCount(v), name);
    LastHasName(norm, w, MemberCount(w), name);
    hide Last, Missing, Comparable;
    var i, j := Shown(norm, v, name), Shown(norm, w, name);
    if i.Some? && j.Some? {
      if v.Model? {
        ShapedComparable(norm, v.fields[i.value].value, w.fields[j.value].value, sh.fields[name]);
      } else {
        ShapedComparable(norm, v.entries[i.value].value, w.entries[j.value].value, sh.item);
      }
    }
  }

  /** A value with a shape has a document. */
  lemma {:induction false} ShapedEncodes(norm: Normalize, v: Value, sh: Shape)
    requires HasShape(v, sh)
    ensures Encode(norm, v).Success?
    decreases v, 1, 0
  {
    match v
    case List(items) => ShapedItems(norm, v, sh, |items|);
    case Mapping(entries) => ShapedEntries(norm, v, sh, |entries|);
    case Model(fields) => ShapedFields(norm, v, sh, |fields|);
    case _ =>
  }

  lemma {:induction false} ShapedItems(norm: Normalize, v: Value, sh: Shape, k: nat)
    requires v.List? && HasShape(v, sh) && k <= |v.items|
    ensures EncodeItems(norm, v, k).Success?
    decreases v, 0, k
  {
    if k > 0 {
      ShapedItems(norm, v, sh, k - 1);
      ShapedEncodes(norm, v.items[k - 1], sh.item);
    }
  }

  lemma {:induction false} ShapedEntries(norm: Normalize, v: Value, sh: Shape, k: nat)
    requires v.Mapping? && HasShape(v, sh) && k <= |v.entries|
    ensures EncodeEntries(norm, v, k).Success?
    decreases v, 0, k
  {
    if k > 0 {
      ShapedEntries(norm, v, sh, k - 1);
      ShapedEncodes(norm, v.entries[k - 1].value, sh.item);
    }
  }

  lemma {:induction false} ShapedFields(norm: Normalize, v: Value, sh: Shape, k: nat)
    requires v.Model? && HasShape(v, sh) && k <= |v.fields|
    ensures EncodeFields(norm, v, k).Success?
    decreases v, 0, k
  {
    if k > 0 {
      ShapedFields(norm, v, sh, k - 1);
      ShapedEncodes(norm, v.fields[k - 1].value, sh.fields[v.fields[k - 1].name]);
    }
  }

  /** Two values of one shape have documents, equal exactly if they mean the same. */
  lemma {:induction false} ShapedEqualIff(norm: Normalize, v: Value, w: Value, sh: Shape)
    requires HasShape(v, sh) && HasShape(w, sh)
    ensures Encode(norm, v).Success? && Encode(norm, w).Success?
    ensures Encode(norm, v) == Encode(norm, w) <==> Same(norm, v, w)
  {
    hide HasShape, Encode, Same, Comparable;
    ShapedEncodes(norm, v, sh);
    ShapedEncodes(norm, w, sh);
    ShapedComparable(norm, v, w, sh);
    DocumentsEqualIff(norm, v, w);
  }

  // ----- models field by field --------------------------------------------------------------

  predicate DistinctNames(fields: seq<Field>) {
    forall i, j :: 0 <= i < j < |fields| ==> fields[i].name != fields[j].name
  }

  /** Models of one class: the same fields, of which the same count. */
  predicate OneClass(fs: seq<Field>, gs: seq<Field>) {
    && |fs| == |gs| && DistinctNames(fs)
    && forall i :: 0 <= i < |fs| ==> fs[i].name == gs[i].name && fs[i].semantic == gs[i].semantic
  }

  lemma {:induction false} LastIs(norm: Normalize, fields: seq<Field>, k: nat, i: nat)
    requires DistinctNames(fields) && k <= |fields| && i < |fields|
    ensures Last(norm, Model(fields), k, fields[i].name)
         == if i < k && fields[i].semantic && !Missing(norm, fields[i].value) then Some(i) else None
  {
    if k > 0 {
      LastIs(norm, fields, k - 1, i);
      assert k - 1 != i ==> fields[k - 1].name != fields[i].name;
    }
    hide Missing;
  }

  /** Both missing, or both there and the same. */
  ghost predicate SameField(norm: Normalize, x: Value, y: Value) {
    Missing(norm, x) == Missing(norm, y) && (!Missing(norm, x) ==> Same(norm, x, y))
  }

  /** Of the first k fields, those that count are the same. */
  ghost predicate SameUpTo(norm: Normalize, fs: seq<Field>, gs: seq<Field>, k: nat)
    requires k <= |fs| && k <= |gs|
  {
    forall i :: 0 <= i < k && fs[i].semantic ==> SameField(norm, fs[i].value, gs[i].value)
  }

  lemma SameNone(norm: Normalize, fs: seq<Field>, gs: seq<Field>)
    ensures SameUpTo(norm, fs, gs, 0)
  {
  }

  lemma SameNext(norm: Normalize, fs: seq<Field>, gs: seq<Field>, k: nat)
    requires k < |fs| && k < |gs|
    ensures SameUpTo(norm, fs, gs, k + 1) <==>
              SameUpTo(norm, fs, gs, k) && (fs[k].semantic ==> SameField(norm, fs[k].value, gs[k].value))
  {
    hide SameField;
  }

  lemma MemberIsField(norm: Normalize, fs: seq<Field>, gs: seq<Field>, i: nat)
    requires OneClass(fs, gs) && i < |fs|
    ensures SameMember(norm, Model(fs), Model(gs), fs[i].name) <==>
            (fs[i].semantic ==> SameField(norm, fs[i].value, gs[i].value))
  {
    LastIs(norm, fs, |fs|, i);
    LastIs(norm, gs, |gs|, i);
    hide Missing, Last;
  }

  /** Models of one class are the same exactly if the fields that count are. */
  lemma {:induction false} ModelsSame(norm: Normalize, fs: seq<Field>, gs: seq<Field>)
    requires OneClass(fs, gs)
    ensures Same(norm, Model(fs), Model(gs)) <==> SameUpTo(norm, fs, gs, |fs|)
  {
    var v, w := Model(fs), Model(gs);
    forall i | 0 <= i < |fs|
      ensures SameMember(norm, v, w, fs[i].name) <==> (fs[i].semantic ==> SameField(norm, fs[i].value, gs[i].value)) {
      MemberIsField(norm, fs, gs, i);
    }
    hide Missing, SameField;
    if Same(norm, v, w) {
      forall i | 0 <= i < |fs| && fs[i].semantic ensures SameField(norm, fs[i].value, gs[i].value) {
        assert SameMember(norm, v, w, fs[i].name);
      }
    }
    if SameUpTo(norm, fs, gs, |fs|) {
      forall name ensures SameMember(norm, v, w, name) {
        LastHasName(norm, v, |fs|, name);
        LastHasName(norm, w, |gs|, name);
        if i :| 0 <= i < |fs| && fs[i].name == name {
          assert SameMember(norm, v, w, fs[i].name);
        }
      }
    }
  }

  /** Models that begin with different texts under one name are never the same. */
  lemma FirstTextDiffers(norm: Normalize, fs: seq<Field>, gs: seq<Field>, name: string, s: string, t: string)
    requires DistinctNames(fs) && DistinctNames(gs) && fs != [] && gs != [] && norm(s) != norm(t)
    requires fs[0] == Field(name, true, Text(s)) && gs[0] == Field(name, true, Text(t))
    ensures !Same(norm, Model(fs), Model(gs))
  {
    hide DistinctNames;
    LastIs(norm, fs, |fs|, 0);
    LastIs(norm, gs, |gs|, 0);
    assert !SameMember(norm, Model(fs), Model(gs), name);
  }

  /** A model with a field that counts and holds a plain value is never left out. */
  lemma HasPlainField(norm: Normalize, fields: seq<Field>, i: nat)
    requires i < |fields| && fields[i].semantic
    requires fields[i].value.Text? || fields[i].value.Number? || fields[i].value.Int?
    ensures !Missing(norm, Model(fields))
  {
    assert NameAt(norm, Model(fields), i).Some? && !Missing(norm, fields[i].value);
  }

  // ----- what a document holds under a name ---------------------------------------------------

  /** What the document of a value holds under the name. */
  function Member(norm: Normalize, v: Value, name: string): Option<Json> {
    match Encode(norm, v)
    case Success(JObject(members)) => if name in members then Some(members[name]) else None
    case _ => None
  }

  /**
   A model's document holds the encoding of each field under its name, unless the field is missing or does not count.
   */
  lemma FieldMember(norm: Normalize, fields: seq<Field>, i: nat)
    requires i < |fields| && DistinctNames(fields) && Encode(norm, Model(fields)).Success?
    ensures var f := fields[i];
            if f.semantic && !Missing(norm, f.value)
            then Encode(norm, f.value).Success?
              && Member(norm, Model(fields), f.name) == Some(Encode(norm, f.value).value)
            else Member(norm, Model(fields), f.name) == None
  {
    hide DistinctNames, Missing, Last;
    var v := Model(fields);
    LastIs(norm, fields, |fields|, i);
    MembersAre(norm, v, |fields|);
    assert MemberIs(norm, v, |fields|, fields[i].name, MembersUpTo(norm, v, |fields|).value);
  }

  /** What the document holds under the name is the encoding of this value, or nothing if it is missing. */
  predicate Holds(norm: Normalize, v: Value, name: string, x: Value) {
    if Missing(norm, x) then Member(norm, v, name) == None
    else Encode(norm, x).Success? && Member(norm, v, name) == Some(Encode(norm, x).value)
  }

  lemma FieldHeld(norm: Normalize, fields: seq<Field>, sh: Shape, i: nat)
    requires i < |fields| && DistinctNames(fields) && HasShape(Model(fields), sh)
    ensures if fields[i].semantic then Holds(norm, Model(fields), fields[i].name, fields[i].value)
            else Member(norm, Model(fields), fields[i].name) == None
  {
    hide DistinctNames, Missing, HasShape, Encode, Member;
    ShapedEncodes(norm, Model(fields), sh);
    FieldMember(norm, fields, i);
  }

  // ----- single fields ------------------------------------------------------------------------

  function OptionalText(t: Option<string>): Value {
    if t.Some? then Text(t.value) else Null
  }

  function OptionalNumber(d: Option<D.Dec>): Value {
    if d.Some? then Number(d.value) else Null
  }

  function OptionalInt(n: Option<int>): Value {
    if n.Some? then Int(n.value) else Null
  }

  predicate SameTexts(norm: Normalize, s: Option<string>, t: Option<string>) {
    s.Some? == t.Some? && (s.Some? ==> norm(s.value) == norm(t.value))
  }

  predicate SameNumbers(a: Option<D.Dec>, b: Option<D.Dec>) {
    a.Some? == b.Some? && (a.Some? ==> D.Value(a.value) == D.Value(b.value))
  }

  lemma TextFieldIff(norm: Normalize, s: string, t: string)
    ensures SameField(norm, Text(s), Text(t)) <==> norm(s) == norm(t)
  {
  }

  lemma OptionalTextIff(norm: Normalize, s: Option<string>, t: Option<string>)
    ensures SameField(norm, OptionalText(s), OptionalText(t)) <==> SameTexts(norm, s, t)
  {
  }

  lemma NumberFieldIff(norm: Normalize, a: D.Dec, b: D.Dec)
    ensures SameField(norm, Number(a), Number(b)) <==> D.Value(a) == D.Value(b)
  {
  }

  lemma OptionalNumberIff(norm: Normalize, a: Option<D.Dec>, b: Option<D.Dec>)
    ensures SameField(norm, OptionalNumber(a), OptionalNumber(b)) <==> SameNumbers(a, b)
  {
  }

  lemma IntFieldIff(norm: Normalize, m: int, n: int)
    ensures SameField(norm, Int(m), Int(n)) <==> m == n
  {
  }

  lemma OptionalIntIff(norm: Normalize, m: Option<int>, n: Option<int>)
    ensures SameField(norm, OptionalInt(m), OptionalInt(n)) <==> m == n
  {
  }

  lemma BoolFieldIff(norm: Normalize, a: bool, b: bool)
    ensures SameField(norm, Bool(a), Bool(b)) <==> a == b
  {
  }

  lemma MissingFieldIff(norm: Normalize, x: Value, y: Value)
    requires Missing(norm, x) || Missing(norm, y)
    ensures SameField(norm, x, y) <==> Missing(norm, x) && Missing(norm, y)
  {
  }

  /** A model, or nothing, in a class whose models are never left out. */
  lemma ModelFieldIff(norm: Normalize, x: Value, y: Value)
    requires (x.Null? || (x.Model? && !Missing(norm, x))) && (y.Null? || (y.Model? && !Missing(norm, y)))
    ensures SameField(norm, x, y) <==> x.Null? == y.Null? && (!x.Null? ==> Same(norm, x, y))
  {
  }

  lemma ListFieldIff(norm: Normalize, xs: seq<Value>, ys: seq<Value>)
    ensures SameField(norm, List(xs), List(ys)) <==>
            |xs| == |ys| && forall i :: 0 <= i < |xs| ==> Same(norm, xs[i], ys[i])
  {
  }
}
