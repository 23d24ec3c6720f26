/** The canonical document of a value: what the content hash is taken over. */
module CanonicalDocument {
  import opened Wrappers
  import opened Decimals

  /** What the encoder can meet. */
  datatype Value =
    | Null
    | Bool(b: bool)
    | Int(n: int)
    | Number(d: Dec)
    | NonFiniteNumber
    | Float
    | Text(s: string)
    | Enum(value: Value)
    | List(items: seq<Value>)
    | Mapping(entries: seq<Entry>)
    | Model(fields: seq<Field>)
    | Other

  /** A dictionary entry; a key that is not a string has no text. */
  datatype Entry = Entry(key: Option<string>, value: Value)

  datatype Field = Field(name: string, semantic: bool, value: Value)

  datatype Json =
    | JNull
    | JBool(b: bool)
    | JInt(n: int)
    | JText(s: string)
    | JList(items: seq<Json>)
    | JObject(members: map<string, Json>)

  datatype EncodeError = FloatFound | NotFinite | KeyNotText | NoEncoding

  type Normalize = string -> string

  /** `_is_absent`. */
  predicate IsAbsent(j: Json) {
    j == JNull || j == JList([]) || j == JObject(map[])
  }

  function AddMember(members: map<string, Json>, name: string, j: Json): map<string, Json> {
    if IsAbsent(j) then members else members[name := j]
  }

  /** `_encode`. */
  function Encode(norm: Normalize, v: Value): Result<Json, EncodeError>
    decreases v, 1, 0
  {
    match v
    case Null => Success(JNull)
    case Bool(b) => Success(JBool(b))
    case Float => Failure(FloatFound)
    case NonFiniteNumber => Failure(NotFinite)
    case Number(d) => Success(JText(Decimals.Encode(d)))
    case Int(n) => Success(JInt(n))
    case Text(s) => Success(JText(norm(s)))
    case Enum(inner) => Encode(norm, inner)
    case List(items) =>
      var js :- EncodeItems(norm, v, |items|);
      Success(JList(js))
    case Mapping(entries) =>
      var members :- EncodeEntries(norm, v, |entries|);
      Success(JObject(members))
    case Model(fields) =>
      var members :- EncodeFields(norm, v, |fields|);
      Success(JObject(members))
    case Other => Failure(NoEncoding)
  }

  /** The first k items. */
  function EncodeItems(norm: Normalize, v: Value, k: nat): (r: Result<seq<Json>, EncodeError>)
    requires v.List? && k <= |v.items|
    ensures r.Success? ==> |r.value| == k
    decreases v, 0, k
  {
    if k == 0 then Success([])
    else
      var before :- EncodeItems(norm, v, k - 1);
      var j :- Encode(norm, v.items[k - 1]);
      Success(before + [j])
  }

  /** The first k entries: absent values left out, a later key replacing an equal earlier one. */
  function EncodeEntries(norm: Normalize, v: Value, k: nat): Result<map<string, Json>, EncodeError>
    requires v.Mapping? && k <= |v.entries|
    decreases v, 0, k
  {
    if k == 0 then Success(map[])
    else
      var before :- EncodeEntries(norm, v, k - 1);
      var e := v.entries[k - 1];
      if e.key.None? then Failure(KeyNotText)
      else
        var j :- Encode(norm, e.value);
        Success(AddMember(before, norm(e.key.value), j))
  }

  /** `_encode_model`: the first k fields, those outside the recipe's identity left out. */
  function EncodeFields(norm: Normalize, v: Value, k: nat): Result<map<string, Json>, EncodeError>
    requires v.Model? && k <= |v.fields|
    decreases v, 0, k
  {
    if k == 0 then Success(map[])
    else
      var before :- EncodeFields(norm, v, k - 1);
      var f := v.fields[k - 1];
      if !f.semantic then Success(before)
      else
        var j :- Encode(norm, f.value);
        Success(AddMember(before, f.name, j))
  }

  // ----- the encoder's loops -----------------------------------------------------------------

  /** `_encode`. */
  method EncodeValue(norm: Normalize, v: Value) returns (r: Result<Json, EncodeError>)
    ensures r == Encode(norm, v)
    decreases v, 1
  {
    match v {
      case Null => return Success(JNull);
      case Bool(b) => return Success(JBool(b));
      case Float => return Failure(FloatFound);
      case NonFiniteNumber => return Failure(NotFinite);
      case Number(d) => return Success(JText(Decimals.Encode(d)));
      case Int(n) => return Success(JInt(n));
      case Text(s) => return Success(JText(norm(s)));
      case Enum(inner) => r := EncodeValue(norm, inner);
      case List(_) => r := EncodeList(norm, v);
      case Mapping(_) => r := EncodeMapping(norm, v);
      case Model(_) => r := EncodeModel(norm, v);
      case Other => return Failure(NoEncoding);
    }
  }

  method EncodeList(norm: Normalize, v: Value) returns (r: Result<Json, EncodeError>)
    requires v.List?
    ensures r == Encode(norm, v)
    decreases v, 0
  {
    var out: seq<Json> := [];
    for k := 0 to |v.items|
      invariant EncodeItems(norm, v, k) == Success(out)
    {
      var j := EncodeValue(norm, v.items[k]);
      if j.Failure? {
        ItemFails(norm, v, k);
        return Failure(j.error);
      }
      out := out + [j.value];
    }
    return Success(JList(out));
  }

  method EncodeMapping(norm: Normalize, v: Value) returns (r: Result<Json, EncodeError>)
    requires v.Mapping?
    ensures r == Encode(norm, v)
    decreases v, 0
  {
    var out: map<string, Json> := map[];
    for k := 0 to |v.entries|
      invariant EncodeEntries(norm, v, k) == Success(out)
    {
      var e := v.entries[k];
      if e.key.None? {
        EntryFails(norm, v, k);
        return Failure(KeyNotText);
      }
      var j := EncodeValue(norm, e.value);
      if j.Failure? {
        EntryFails(norm, v, k);
        return Failure(j.error);
      }
      if !IsAbsent(j.value) {
        out := out[norm(e.key.value) := j.value];
      }
    }
    return Success(JObject(out));
  }

  /** `_encode_model`. */
  method EncodeModel(norm: Normalize, v: Value) returns (r: Result<Json, EncodeError>)
    requires v.Model?
    ensures r == Encode(norm, v)
    decreases v, 0
  {
    var out: map<string, Json> := map[];
    for k := 0 to |v.fields|
      invariant EncodeFields(norm, v, k) == Success(out)
    {
      var f := v.fields[k];
      if f.semantic {
        var j := EncodeValue(norm, f.value);
        if j.Failure? {
          FieldFails(norm, v, k);
          return Failure(j.error);
        }
        if !IsAbsent(j.value) {
          out := out[f.name := j.value];
        }
      }
    }
    return Success(JObject(out));
  }

  lemma {:induction false} ItemFails(norm: Normalize, v: Value, k: nat)
    requires v.List? && k < |v.items| && EncodeItems(norm, v, k).Success? && Encode(norm, v.items[k]).Failure?
    ensures Encode(norm, v) == Failure(Encode(norm, v.items[k]).error)
  {
    var e := Encode(norm, v.items[k]).error;
    var n := k + 1;
    while n < |v.items|
      invariant k < n <= |v.items| && EncodeItems(norm, v, n) == Failure(e)
    {
      n := n + 1;
    }
  }

  lemma {:induction false} EntryFails(norm: Normalize, v: Value, k: nat)
    requires v.Mapping? && k < |v.entries| && EncodeEntries(norm, v, k).Success?
    requires v.entries[k].key.None? || Encode(norm, v.entries[k].value).Failure?
    ensures Encode(norm, v) ==
            Failure(if v.entries[k].key.None? then KeyNotText else Encode(norm, v.entries[k].value).error)
  {
    var e := if v.entries[k].key.None? then KeyNotText else Encode(norm, v.entries[k].value).error;
    var n := k + 1;
    while n < |v.entries|
      invariant k < n <= |v.entries| && EncodeEntries(norm, v, n) == Failure(e)
    {
      n := n + 1;
    }
  }

  lemma {:induction false} FieldFails(norm: Normalize, v: Value, k: nat)
    requires v.Model? && k < |v.fields| && EncodeFields(norm, v, k).Success?
    requires v.fields[k].semantic && Encode(norm, v.fields[k].value).Failure?
    ensures Encode(norm, v) == Failure(Encode(norm, v.fields[k].value).error)
  {
    var e := Encode(norm, v.fields[k].value).error;
    var n := k + 1;
    while n < |v.fields|
      invariant k < n <= |v.fields| && EncodeFields(norm, v, n) == Failure(e)
    {
      n := n + 1;
    }
  }
}
