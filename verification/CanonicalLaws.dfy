/**
 The canonical document: nothing absent in it, its own canonical form, and equal exactly for values that mean the same.
 */
module CanonicalLaws {
  import opened Wrappers
  import D = Decimals
  import opened CanonicalDocument

  predicate Ascii(s: string) {
    forall k :: 0 <= k < |s| ==> s[k] as int < 128
  }

  /** Normalisation is done once and leaves plain text alone. */
  ghost predicate GoodNorm(norm: Normalize) {
    (forall s :: norm(norm(s)) == norm(s)) && (forall s :: Ascii(s) ==> norm(s) == s)
  }

  // ----- a clean document ----------------------------------------------------------------------

  /** Normalised text throughout, and no absent member at any depth. */
  predicate Clean(norm: Normalize, j: Json) {
    match j
    case JText(s) => norm(s) == s
    case JList(items) => forall k :: 0 <= k < |items| ==> Clean(norm, items[k])
    case JObject(members) =>
      forall k :: k in members ==> norm(k) == k && !IsAbsent(members[k]) && Clean(norm, members[k])
    case _ => true
  }

  /** Field names are plain text, at every depth. */
  predicate PlainNames(v: Value) {
    match v
    case Enum(inner) => PlainNames(inner)
    case List(items) => forall k :: 0 <= k < |items| ==> PlainNames(items[k])
    case Mapping(entries) => forall k :: 0 <= k < |entries| ==> PlainNames(entries[k].value)
    case Model(fields) => forall k :: 0 <= k < |fields| ==> Ascii(fields[k].name) && PlainNames(fields[k].value)
    case _ => true
  }

  lemma NumberTextPlain(norm: Normalize, d: D.Dec)
    requires GoodNorm(norm)
    ensures norm(D.Encode(d)) == D.Encode(d)
  {
    D.EncodeShape(d);
    assert Ascii(D.Encode(d));
  }

  lemma {:induction false} EncodedIsClean(norm: Normalize, v: Value)
    requires GoodNorm(norm) && PlainNames(v) && Encode(norm, v).Success?
    ensures Clean(norm, Encode(norm, v).value)
    decreases v, 1, 0
  {
    match v
    case Number(d) => NumberTextPlain(norm, d);
    case Enum(inner) => EncodedIsClean(norm, inner);
    case List(items) => ItemsClean(norm, v, |items|);
    case Mapping(entries) => EntriesClean(norm, v, |entries|);
    case Model(fields) => FieldsClean(norm, v, |fields|);
    case _ =>
  }

  lemma {:induction false} ItemsClean(norm: Normalize, v: Value, k: nat)
    requires GoodNorm(norm) && PlainNames(v) && v.List? && k <= |v.items| && EncodeItems(norm, v, k).Success?
    ensures Clean(norm, JList(EncodeItems(norm, v, k).value))
    decreases v, 0, k
  {
    if k > 0 {
      ItemsClean(norm, v, k - 1);
      EncodedIsClean(norm, v.items[k - 1]);
    }
  }

  lemma {:induction false} EntriesClean(norm: Normalize, v: Value, k: nat)
    requires GoodNorm(norm) && PlainNames(v) && v.Mapping? && k <= |v.entries| && EncodeEntries(norm, v, k).Success?
    ensures Clean(norm, JObject(EncodeEntries(norm, v, k).value))
    decreases v, 0, k
  {
    if k > 0 {
      EntriesClean(norm, v, k - 1);
      EncodedIsClean(norm, v.entries[k - 1].value);
    }
  }

  lemma {:induction false} FieldsClean(norm: Normalize, v: Value, k: nat)
    requires GoodNorm(norm) && PlainNames(v) && v.Model? && k <= |v.fields| && EncodeFields(norm, v, k).Success?
    ensures Clean(norm, JObject(EncodeFields(norm, v, k).value))
    decreases v, 0, k
  {
    if k > 0 {
      FieldsClean(norm, v, k - 1);
      if v.fields[k - 1].semantic {
        EncodedIsClean(norm, v.fields[k - 1].value);
      }
    }
  }

  // ----- encoding a document again -------------------------------------------------------------------

  predicate DistinctKeys(entries: seq<Entry>) {
    forall i, k :: 0 <= i < k < |entries| ==> entries[i].key != entries[k].key
  }

  /** The value is the document read as plain data; members in any order. */
  predicate IsLift(v: Value, j: Json)
    decreases v
  {
    match j
    case JNull => v == Null
    case JBool(b) => v == Bool(b)
    case JInt(n) => v == Int(n)
    case JText(s) => v == Text(s)
    case JList(js) => v.List? && |v.items| == |js| && forall k :: 0 <= k < |js| ==> IsLift(v.items[k], js[k])
    case JObject(members) =>
      && v.Mapping? && DistinctKeys(v.entries) && |v.entries| == |members|
      && forall k :: 0 <= k < |v.entries| ==>
           && v.entries[k].key.Some? && v.entries[k].key.value in members
           && IsLift(v.entries[k].value, members[v.entries[k].key.value])
  }

  lemma {:induction false} LiftEncodes(norm: Normalize, v: Value, j: Json)
    requires IsLift(v, j) && Clean(norm, j)
    ensures Encode(norm, v) == Success(j)
    decreases v, 1, 0
  {
    match j
    case JList(js) =>
      LiftItems(norm, v, j, |js|);
      assert js[..|js|] == js;
    case JObject(members) =>
      LiftEntries(norm, v, j, |v.entries|);
      AllMembers(v, members);
    case _ =>
  }

  lemma {:induction false} LiftItems(norm: Normalize, v: Value, j: Json, k: nat)
    requires IsLift(v, j) && Clean(norm, j) && j.JList? && k <= |j.items|
    ensures EncodeItems(norm, v, k) == Success(j.items[..k])
    decreases v, 0, k
  {
    if k > 0 {
      LiftItems(norm, v, j, k - 1);
      LiftEncodes(norm, v.items[k - 1], j.items[k - 1]);
      assert j.items[..k] == j.items[..k - 1] + [j.items[k - 1]];
    }
  }

  /** The members named by the first k entries. */
  function MembersOf(v: Value, members: map<string, Json>, k: nat): (m: map<string, Json>)
    requires v.Mapping? && k <= |v.entries|
  {
    map name | name in members && (exists i :: 0 <= i < k && v.entries[i].key == Some(name)) :: members[name]
  }

  lemma {:induction false} LiftEntries(norm: Normalize, v: Value, j: Json, k: nat)
    requires IsLift(v, j) && Clean(norm, j) && j.JObject? && k <= |v.entries|
    ensures EncodeEntries(norm, v, k) == Success(MembersOf(v, j.members, k))
    decreases v, 0, k
  {
    if k == 0 {
      assert MembersOf(v, j.members, 0) == map[];
    } else {
      LiftEntries(norm, v, j, k - 1);
      var name := v.entries[k - 1].key.value;
      LiftEncodes(norm, v.entries[k - 1].value, j.members[name]);
      MembersStep(v, j.members, k);
    }
  }

  lemma MembersStep(v: Value, members: map<string, Json>, k: nat)
    requires v.Mapping? && 0 < k <= |v.entries| && v.entries[k - 1].key.Some? && v.entries[k - 1].key.value in members
    ensures var name := v.entries[k - 1].key.value;
            MembersOf(v, members, k) == MembersOf(v, members, k - 1)[name := members[name]]
  {
    var name := v.entries[k - 1].key.value;
    var more := MembersOf(v, members, k - 1)[name := members[name]];
    forall n ensures n in MembersOf(v, members, k) <==> n in more {
      if n == name {
        assert v.entries[k - 1].key == Some(n);
      }
    }
  }

  lemma AllMembers(v: Value, members: map<string, Json>)
    requires IsLift(v, JObject(members))
    ensures MembersOf(v, members, |v.entries|) == members
  {
    var keys := set i | 0 <= i < |v.entries| :: v.entries[i].key.value;
    KeyCount(v.entries, |v.entries|);
    assert keys <= members.Keys;
    SameSize(keys, members.Keys);
    forall n | n in members ensures n in MembersOf(v, members, |v.entries|) {
      assert n in keys;
      var i :| 0 <= i < |v.entries| && v.entries[i].key.value == n;
      assert v.entries[i].key == Some(n);
    }
  }

  lemma {:induction false} KeyCount(entries: seq<Entry>, k: nat)
    requires k <= |entries| && DistinctKeys(entries) && forall i :: 0 <= i < |entries| ==> entries[i].key.Some?
    ensures |set i | 0 <= i < k :: entries[i].key.value| == k
  {
    var keys := set i | 0 <= i < k :: entries[i].key.value;
    if k > 0 {
      KeyCount(entries, k - 1);
      var before := set i | 0 <= i < k - 1 :: entries[i].key.value;
      assert keys == before + {entries[k - 1].key.value};
    }
  }

  lemma SameSize<T>(a: set<T>, b: set<T>)
    requires a <= b && |a| == |b|
    ensures a == b
  {
    if a != b {
      var x :| x in b && x !in a;
      SubsetSmaller(a, b - {x});
    }
  }

  lemma {:induction false} SubsetSmaller<T>(a: set<T>, b: set<T>)
    requires a <= b
    ensures |a| <= |b|
  {
    if a != {} {
      var x :| x in a;
      SubsetSmaller(a - {x}, b - {x});
    }
  }

  /** The document of a document, read as plain data in any order, is that document. */
  lemma {:induction false} EncodeIdempotent(norm: Normalize, v: Value, again: Value)
    requires GoodNorm(norm) && PlainNames(v) && Encode(norm, v).Success? && IsLift(again, Encode(norm, v).value)
    ensures Encode(norm, again) == Encode(norm, v)
  {
    EncodedIsClean(norm, v);
    LiftEncodes(norm, again, Encode(norm, v).value);
  }

  // ----- what has no document -------------------------------------------------------------------

  /** Some part of the value that the document would hold cannot be encoded, for this reason. */
  predicate Fault(v: Value, e: EncodeError)
    decreases v, 1
  {
    match v
    case Float => e == FloatFound
    case NonFiniteNumber => e == NotFinite
    case Other => e == NoEncoding
    case Enum(inner) => Fault(inner, e)
    case List(items) => exists i :: 0 <= i < |items| && PartFault(v, i, e)
    case Mapping(entries) => exists i :: 0 <= i < |entries| && PartFault(v, i, e)
    case Model(fields) => exists i :: 0 <= i < |fields| && PartFault(v, i, e)
    case _ => false
  }

  function PartCount(v: Value): nat {
    if v.List? then |v.items| else if v.Mapping? then |v.entries| else if v.Model? then |v.fields| else 0
  }

  predicate PartFault(v: Value, i: nat, e: EncodeError)
    requires i < PartCount(v)
    decreases v, 0
  {
    if v.List? then Fault(v.items[i], e)
    else if v.Mapping? then (if v.entries[i].key.None? then e == KeyNotText else Fault(v.entries[i].value, e))
    else v.fields[i].semantic && Fault(v.fields[i].value, e)
  }

  /** The first k parts have no fault, or the encoding fails with a fault of one. */
  ghost predicate PartsFail(v: Value, k: nat, error: Option<EncodeError>)
    requires k <= PartCount(v)
  {
    match error
    case None => forall i, e :: 0 <= i < k ==> !PartFault(v, i, e)
    case Some(e) => exists i :: 0 <= i < k && PartFault(v, i, e)
  }

  function ErrorOf<T>(r: Result<T, EncodeError>): Option<EncodeError> {
    if r.Failure? then Some(r.error) else None
  }

  /** What is known of part i: it has no fault, or this one. */
  ghost predicate PartTold(v: Value, i: nat, error: Option<EncodeError>)
    requires i < PartCount(v)
  {
    if error.None? then forall e :: !PartFault(v, i, e) else PartFault(v, i, error.value)
  }

  /** What is known of a value: it has no fault, or this one. */
  ghost predicate Told(v: Value, error: Option<EncodeError>) {
    if error.None? then forall e :: !Fault(v, e) else Fault(v, error.value)
  }

  lemma PartIsTold(v: Value, i: nat, value: Option<EncodeError>, part: Option<EncodeError>)
    requires i < PartCount(v)
    requires v.List? ==> part == value && Told(v.items[i], value)
    requires v.Mapping? ==>
               if v.entries[i].key.None? then part == Some(KeyNotText)
               else part == value && Told(v.entries[i].value, value)
    requires v.Model? ==>
               if v.fields[i].semantic then part == value && Told(v.fields[i].value, value) else part == None
    ensures PartTold(v, i, part)
  {
    if part.None? {
      forall e ensures !PartFault(v, i, e) {
        match v {
          case List(items) => assert value.None? ==> !Fault(items[i], e);
          case Mapping(entries) => assert value.None? ==> !Fault(entries[i].value, e);
          case Model(fields) => assert value.None? && fields[i].semantic ==> !Fault(fields[i].value, e);
        }
      }
    }
  }

  lemma PartsNext(v: Value, k: nat, before: Option<EncodeError>, last: Option<EncodeError>)
    requires 0 < k <= PartCount(v) && PartsFail(v, k - 1, before)
    requires before.None? ==> PartTold(v, k - 1, last)
    ensures PartsFail(v, k, if before.Some? then before else last)
  {
    hide PartFault;
    if before.Some? {
      var i :| 0 <= i < k - 1 && PartFault(v, i, before.value);
    }
  }

  lemma {:induction false} ItemsFail(norm: Normalize, v: Value, k: nat)
    requires v.List? && k <= |v.items|
    ensures PartsFail(v, k, ErrorOf(EncodeItems(norm, v, k)))
    decreases v, 0, k
  {
    hide Encode;
    if k > 0 {
      ItemsFail(norm, v, k - 1);
      EncodesUnlessFault(norm, v.items[k - 1]);
      var last := ErrorOf(Encode(norm, v.items[k - 1]));
      PartIsTold(v, k - 1, last, last);
      PartsNext(v, k, ErrorOf(EncodeItems(norm, v, k - 1)), last);
    }
  }

  lemma {:induction false} EntriesFail(norm: Normalize, v: Value, k: nat)
    requires v.Mapping? && k <= |v.entries|
    ensures PartsFail(v, k, ErrorOf(EncodeEntries(norm, v, k)))
    decreases v, 0, k
  {
    hide Encode;
    if k > 0 {
      EntriesFail(norm, v, k - 1);
      var e := v.entries[k - 1];
      EncodesUnlessFault(norm, e.value);
      var last := if e.key.None? then Some(KeyNotText) else ErrorOf(Encode(norm, e.value));
      PartIsTold(v, k - 1, ErrorOf(Encode(norm, e.value)), last);
      PartsNext(v, k, ErrorOf(EncodeEntries(norm, v, k - 1)), last);
    }
  }

  lemma {:induction false} FieldsFail(norm: Normalize, v: Value, k: nat)
    requires v.Model? && k <= |v.fields|
    ensures PartsFail(v, k, ErrorOf(EncodeFields(norm, v, k)))
    decreases v, 0, k
  {
    hide Encode;
    if k > 0 {
      FieldsFail(norm, v, k - 1);
      var f := v.fields[k - 1];
      EncodesUnlessFault(norm, f.value);
      var last := if f.semantic then ErrorOf(Encode(norm, f.value)) else None;
      PartIsTold(v, k - 1, ErrorOf(Encode(norm, f.value)), last);
      PartsNext(v, k, ErrorOf(EncodeFields(norm, v, k - 1)), last);
    }
  }

  /**
   A value has a document exactly if nothing in it that counts is a float, a number that is not finite, a key that is
   no text or of a type without an encoding; otherwise the error is of one such part.
   */
  lemma {:induction false} EncodesUnlessFault(norm: Normalize, v: Value)
    ensures Encode(norm, v).Success? ==> forall e :: !Fault(v, e)
    ensures Encode(norm, v).Failure? ==> Fault(v, Encode(norm, v).error)
    decreases v, 1, 0
  {
    match v
    case Enum(inner) => EncodesUnlessFault(norm, inner);
    case List(items) =>
      ItemsFail(norm, v, |items|);
      PartsAreAll(v, ErrorOf(EncodeItems(norm, v, |items|)));
    case Mapping(entries) =>
      EntriesFail(norm, v, |entries|);
      PartsAreAll(v, ErrorOf(EncodeEntries(norm, v, |entries|)));
    case Model(fields) =>
      FieldsFail(norm, v, |fields|);
      PartsAreAll(v, ErrorOf(EncodeFields(norm, v, |fields|)));
    case _ =>
  }

  lemma PartsAreAll(v: Value, error: Option<EncodeError>)
    requires v.List? || v.Mapping? || v.Model?
    requires PartsFail(v, PartCount(v), error)
    ensures error.None? ==> forall e :: !Fault(v, e)
    ensures error.Some? ==> Fault(v, error.value)
  {
    hide PartFault;
  }

  /** A number is text in the document, which reads back as the number; text is its normal form. */
  lemma {:induction false} PlainDocuments(norm: Normalize, d: D.Dec, s: string)
    requires GoodNorm(norm)
    ensures var j := Encode(norm, Number(d));
            && j.Success? && j.value.JText? && D.ReadDecimal(j.value.s) == D.Number(D.Plain(d))
            && D.Value(D.Plain(d)) == D.Value(d) && norm(j.value.s) == j.value.s
    ensures Encode(norm, Text(s)) == Success(JText(norm(s)))
  {
    D.ReadEncode(d);
    D.PlainValue(d);
    NumberTextPlain(norm, d);
  }
}
