/** Two values have one document exactly if they mean the same; absent fields never matter. */
module CanonicalEquality {
  import opened Wrappers
  import D = Decimals
  import opened CanonicalDocument

  // ----- members, by name -------------------------------------------------------------------

  predicate IsObject(v: Value) {
    v.Model? || v.Mapping?
  }

  function MemberCount(v: Value): nat
    requires IsObject(v)
  {
    if v.Model? then |v.fields| else |v.entries|
  }

  /** The name the i-th member has in the document, if it is part of the identity. */
  function NameAt(norm: Normalize, v: Value, i: nat): Option<string>
    requires IsObject(v) && i < MemberCount(v)
  {
    if v.Model? then (if v.fields[i].semantic then Some(v.fields[i].name) else None)
    else if v.entries[i].key.Some? then Some(norm(v.entries[i].key.value)) else None
  }

  function ValueAt(v: Value, i: nat): Value
    requires IsObject(v) && i < MemberCount(v)
  {
    if v.Model? then v.fields[i].value else v.entries[i].value
  }

  /** None, an empty list, or an object none of whose members count. */
  predicate Missing(norm: Normalize, v: Value) {
    match v
    case Null => true
    case Enum(inner) => Missing(norm, inner)
    case List(items) => items == []
    case Mapping(entries) =>
      forall i :: 0 <= i < |entries| && NameAt(norm, v, i).Some? ==> Missing(norm, entries[i].value)
    case Model(fields) =>
      forall i :: 0 <= i < |fields| && NameAt(norm, v, i).Some? ==> Missing(norm, fields[i].value)
    case _ => false
  }

  /** Of the first k members, the one the document shows under the name: the last that is not missing. */
  function Last(norm: Normalize, v: Value, k: nat, name: string): (i: Option<nat>)
    requires IsObject(v) && k <= MemberCount(v)
    ensures i.Some? ==> i.value < k
  {
    if k == 0 then None
    else if NameAt(norm, v, k - 1) == Some(name) && !Missing(norm, ValueAt(v, k - 1)) then Some(k - 1)
    else Last(norm, v, k - 1, name)
  }

  function Shown(norm: Normalize, v: Value, name: string): (i: Option<nat>)
    requires IsObject(v)
    ensures i.Some? ==> i.value < MemberCount(v)
  {
    Last(norm, v, MemberCount(v), name)
  }

  function MembersUpTo(norm: Normalize, v: Value, k: nat): Result<map<string, Json>, EncodeError>
    requires IsObject(v) && k <= MemberCount(v)
  {
    if v.Model? then EncodeFields(norm, v, k) else EncodeEntries(norm, v, k)
  }

  /** The member of the document under the name is the encoding of the one shown. */
  predicate MemberIs(norm: Normalize, v: Value, k: nat, name: string, m: map<string, Json>)
    requires IsObject(v) && k <= MemberCount(v)
  {
    var i := Last(norm, v, k, name);
    if i.Some? then name in m && Encode(norm, ValueAt(v, i.value)) == Success(m[name]) else name !in m
  }

  lemma {:induction false} MembersAre(norm: Normalize, v: Value, k: nat)
    requires IsObject(v) && k <= MemberCount(v) && MembersUpTo(norm, v, k).Success?
    ensures forall name :: MemberIs(norm, v, k, name, MembersUpTo(norm, v, k).value)
    decreases v, 0, k
  {
    if k > 0 {
      MembersAre(norm, v, k - 1);
      var m := MembersUpTo(norm, v, k).value;
      if NameAt(norm, v, k - 1).Some? {
        AbsentIff(norm, ValueAt(v, k - 1));
      }
      forall name ensures MemberIs(norm, v, k, name, m) {
        assert MemberIs(norm, v, k - 1, name, MembersUpTo(norm, v, k - 1).value);
      }
    }
  }

  ghost predicate NothingShown(norm: Normalize, v: Value, k: nat)
    requires IsObject(v) && k <= MemberCount(v)
  {
    forall name :: Last(norm, v, k, name).None?
  }

  /** The i-th member is not part of the identity, or missing. */
  predicate Passed(norm: Normalize, v: Value, i: nat)
    requires IsObject(v) && i < MemberCount(v)
  {
    NameAt(norm, v, i).Some? ==> Missing(norm, ValueAt(v, i))
  }

  lemma NothingStep(norm: Normalize, v: Value, n: nat)
    requires IsObject(v) && n < MemberCount(v)
    ensures NothingShown(norm, v, n + 1) <==> NothingShown(norm, v, n) && Passed(norm, v, n)
  {
    var k := n + 1;
    if NothingShown(norm, v, k) {
      assert NameAt(norm, v, n).Some? ==> Last(norm, v, k, NameAt(norm, v, n).value).None?;
      forall name ensures Last(norm, v, n, name).None? {
        assert Last(norm, v, k, name).None?;
      }
    } else if NothingShown(norm, v, n) && Passed(norm, v, n) {
      forall name ensures Last(norm, v, k, name).None? {
        assert Last(norm, v, n, name).None?;
      }
    }
    hide Missing;
  }

  lemma {:induction false} LastNone(norm: Normalize, v: Value, k: nat)
    requires IsObject(v) && k <= MemberCount(v)
    ensures NothingShown(norm, v, k) <==> forall i :: 0 <= i < k ==> Passed(norm, v, i)
  {
    if k > 0 {
      LastNone(norm, v, k - 1);
      NothingStep(norm, v, k - 1);
    }
    hide NothingShown, Passed;
  }

  lemma ObjectMissing(norm: Normalize, v: Value)
    requires IsObject(v)
    ensures Missing(norm, v) <==> NothingShown(norm, v, MemberCount(v))
  {
    LastNone(norm, v, MemberCount(v));
    if Missing(norm, v) {
      forall i | 0 <= i < MemberCount(v) ensures Passed(norm, v, i) {
        assert NameAt(norm, v, i).Some? ==> Missing(norm, ValueAt(v, i));
      }
    } else if forall i :: 0 <= i < MemberCount(v) ==> Passed(norm, v, i) {
      forall i | 0 <= i < MemberCount(v) && NameAt(norm, v, i).Some? ensures Missing(norm, ValueAt(v, i)) {
        assert Passed(norm, v, i);
      }
    }
  }

  /** A value is left out of the document exactly if it is missing. */
  lemma {:induction false} AbsentIff(norm: Normalize, v: Value)
    requires Encode(norm, v).Success?
    ensures IsAbsent(Encode(norm, v).value) <==> Missing(norm, v)
    decreases v, 1, 0
  {
    if v.Enum? {
      AbsentIff(norm, v.value);
    } else if IsObject(v) {
      MembersAre(norm, v, MemberCount(v));
      ObjectMissing(norm, v);
      var m := MembersUpTo(norm, v, MemberCount(v)).value;
      NoMembers(norm, v, m);
    }
    hide Missing, Last;
  }

  lemma NoMembers(norm: Normalize, v: Value, m: map<string, Json>)
    requires IsObject(v) && forall name :: MemberIs(norm, v, MemberCount(v), name, m)
    ensures m == map[] <==> NothingShown(norm, v, MemberCount(v))
  {
    hide Last, Encode;
    if NothingShown(norm, v, MemberCount(v)) {
      forall name ensures name !in m {
        assert Last(norm, v, MemberCount(v), name).None? && MemberIs(norm, v, MemberCount(v), name, m);
      }
    }
    if m == map[] {
      forall name ensures Last(norm, v, MemberCount(v), name).None? {
        assert MemberIs(norm, v, MemberCount(v), name, m);
      }
    }
  }

  // ----- meaning the same ----------------------------------------------------------------------

  /**
   Numerically equal numbers, equal text up to normalisation, lists item by item, objects name by name among
   the members that are not missing.
   */
  ghost predicate Same(norm: Normalize, v: Value, w: Value)
    decreases v
  {
    if IsObject(v) && IsObject(w) then forall name :: SameMember(norm, v, w, name)
    else if v.List? && w.List? then
      |v.items| == |w.items| && forall i :: 0 <= i < |v.items| ==> Same(norm, v.items[i], w.items[i])
    else if v.Enum? && w.Enum? then Same(norm, v.value, w.value)
    else SamePlain(norm, v, w)
  }

  predicate SamePlain(norm: Normalize, v: Value, w: Value) {
    match v
    case Null => w.Null?
    case Bool(b) => w == Bool(b)
    case Int(n) => w == Int(n)
    case Number(d) => w.Number? && D.Value(d) == D.Value(w.d)
    case Text(s) => w.Text? && norm(s) == norm(w.s)
    case _ => false
  }

  ghost predicate SameMember(norm: Normalize, v: Value, w: Value, name: string)
    requires IsObject(v) && IsObject(w)
    decreases v, 0
  {
    var i, j := Shown(norm, v, name), Shown(norm, w, name);
    && i.Some? == j.Some?
    && (i.Some? ==>
          Same(norm, if v.Model? then v.fields[i.value].value else v.entries[i.value].value, ValueAt(w, j.value)))
  }

  /** Values of one schema: where both have something, it is of the same kind. */
  ghost predicate Comparable(norm: Normalize, v: Value, w: Value)
    decreases v
  {
    if IsObject(v) && IsObject(w) then forall name :: ComparableMember(norm, v, w, name)
    else if v.List? && w.List? then
      forall i :: 0 <= i < |v.items| && i < |w.items| ==> Comparable(norm, v.items[i], w.items[i])
    else if v.Enum? && w.Enum? then Comparable(norm, v.value, w.value)
    else ComparablePlain(v, w)
  }

  /** Plain values of one kind, or one of them none and the other no enumeration. */
  predicate ComparablePlain(v: Value, w: Value) {
    || (v.Null? && !w.Enum?) || (w.Null? && !v.Enum?) || (v.Bool? && w.Bool?) || (v.Int? && w.Int?)
    || (v.Number? && w.Number?) || (v.Text? && w.Text?)
  }

  ghost predicate ComparableMember(norm: Normalize, v: Value, w: Value, name: string)
    requires IsObject(v) && IsObject(w)
    decreases v, 0
  {
    var i, j := Shown(norm, v, name), Shown(norm, w, name);
    i.Some? && j.Some? ==>
      Comparable(norm, if v.Model? then v.fields[i.value].value else v.entries[i.value].value, ValueAt(w, j.value))
  }

  lemma {:induction false} ItemsAt(norm: Normalize, v: Value, k: nat)
    requires v.List? && k <= |v.items| && EncodeItems(norm, v, k).Success?
    ensures forall i :: 0 <= i < k ==> Encode(norm, v.items[i]) == Success(EncodeItems(norm, v, k).value[i])
  {
    if k > 0 {
      ItemsAt(norm, v, k - 1);
    }
  }

  lemma {:induction false} ListsEqualIff(norm: Normalize, v: Value, w: Value)
    requires v.List? && w.List? && Comparable(norm, v, w) && Encode(norm, v).Success? && Encode(norm, w).Success?
    ensures Encode(norm, v) == Encode(norm, w) <==> Same(norm, v, w)
    decreases v, 0
  {
    ListItems(norm, v);
    ListItems(norm, w);
    var a, b := Encode(norm, v).value.items, Encode(norm, w).value.items;
    hide Encode;
    if |v.items| == |w.items| {
      forall i | 0 <= i < |v.items| ensures a[i] == b[i] <==> Same(norm, v.items[i], w.items[i]) {
        DocumentsEqualIff(norm, v.items[i], w.items[i]);
      }
      assert a == b <==> forall i :: 0 <= i < |a| ==> a[i] == b[i];
    }
  }

  lemma ListItems(norm: Normalize, v: Value)
    requires v.List? && Encode(norm, v).Success?
    ensures var j := Encode(norm, v).value;
            && j.JList? && |j.items| == |v.items|
            && forall i :: 0 <= i < |v.items| ==> Encode(norm, v.items[i]) == Success(j.items[i])
  {
    ItemsAt(norm, v, |v.items|);
  }

  /** The document has the member exactly if it is shown, as its encoding. */
  lemma ShownMember(norm: Normalize, v: Value, name: string)
    requires IsObject(v) && Encode(norm, v).Success?
    ensures var j, i := Encode(norm, v).value, Shown(norm, v, name);
            && j.JObject?
            && if i.Some? then name in j.members && Encode(norm, ValueAt(v, i.value)) == Success(j.members[name])
               else name !in j.members
  {
    MembersAre(norm, v, MemberCount(v));
    assert MemberIs(norm, v, MemberCount(v), name, MembersUpTo(norm, v, MemberCount(v)).value);
    hide Last;
  }

  lemma {:induction false} MemberEqualIff(norm: Normalize, v: Value, w: Value, name: string)
    requires IsObject(v) && IsObject(w) && Comparable(norm, v, w) && Encode(norm, v).Success?
             && Encode(norm, w).Success?
    ensures var a, b := Encode(norm, v).value.members, Encode(norm, w).value.members;
            SameMember(norm, v, w, name) <==>
              (name in a <==> name in b) && (name in a && name in b ==> a[name] == b[name])
    decreases v, 0
  {
    ShownMember(norm, v, name);
    ShownMember(norm, w, name);
    var a, b := Encode(norm, v).value.members, Encode(norm, w).value.members;
    var i, j := Shown(norm, v, name), Shown(norm, w, name);
    assert ComparableMember(norm, v, w, name);
    hide Encode, Shown;
    if i.Some? && j.Some? {
      DocumentsEqualIff(norm, if v.Model? then v.fields[i.value].value else v.entries[i.value].value,
                        ValueAt(w, j.value));
    }
  }

  lemma {:induction false} ObjectsEqualIff(norm: Normalize, v: Value, w: Value)
    requires IsObject(v) && IsObject(w) && Comparable(norm, v, w) && Encode(norm, v).Success?
             && Encode(norm, w).Success?
    ensures Encode(norm, v) == Encode(norm, w) <==> Same(norm, v, w)
    decreases v, 1
  {
    var a, b := Encode(norm, v).value.members, Encode(norm, w).value.members;
    forall name
      ensures SameMember(norm, v, w, name) <==>
              (name in a <==> name in b) && (name in a && name in b ==> a[name] == b[name]) {
      MemberEqualIff(norm, v, w, name);
    }
    hide SameMember, Comparable, Encode;
    if forall name :: SameMember(norm, v, w, name) {
      assert a.Keys == b.Keys by {
        forall name ensures name in a <==> name in b {
          assert SameMember(norm, v, w, name);
        }
      }
      forall name | name in a ensures a[name] == b[name] {
        assert SameMember(norm, v, w, name);
      }
      assert a == b;
    }
  }

  lemma {:induction false} EnumsEqualIff(norm: Normalize, v: Value, w: Value)
    requires v.Enum? && w.Enum? && Comparable(norm, v, w) && Encode(norm, v).Success? && Encode(norm, w).Success?
    ensures Encode(norm, v) == Encode(norm, w) <==> Same(norm, v, w)
    decreases v, 0
  {
    DocumentsEqualIff(norm, v.value, w.value);
  }

  /** Values without parts, and values of different kinds. */
  lemma PlainEqualIff(norm: Normalize, v: Value, w: Value)
    requires Comparable(norm, v, w) && Encode(norm, v).Success? && Encode(norm, w).Success?
    requires !(IsObject(v) && IsObject(w)) && !(v.List? && w.List?) && !(v.Enum? && w.Enum?)
    ensures Encode(norm, v) == Encode(norm, w) <==> Same(norm, v, w)
  {
    if v.Number? && w.Number? {
      D.EncodeComplete(v.d, w.d);
    }
  }

  /** Two comparable values have the same document exactly if they mean the same. */
  lemma {:induction false} DocumentsEqualIff(norm: Normalize, v: Value, w: Value)
    requires Comparable(norm, v, w) && Encode(norm, v).Success? && Encode(norm, w).Success?
    ensures Encode(norm, v) == Encode(norm, w) <==> Same(norm, v, w)
    decreases v, 2
  {
    hide Encode, Same, Comparable;
    if IsObject(v) && IsObject(w) {
      ObjectsEqualIff(norm, v, w);
    } else if v.List? && w.List? {
      ListsEqualIff(norm, v, w);
    } else if v.Enum? && w.Enum? {
      EnumsEqualIff(norm, v, w);
    } else {
      PlainEqualIff(norm, v, w);
    }
  }

  // ----- absent fields ------------------------------------------------------------------------------

  function Without(fields: seq<Field>, k: nat): (rest: seq<Field>)
    requires k < |fields|
    ensures |rest| == |fields| - 1
  {
    fields[..k] + fields[k + 1..]
  }

  lemma {:induction false} SameBefore(norm: Normalize, v: Value, k: nat, n: nat)
    requires v.Model? && n <= k < |v.fields|
    ensures EncodeFields(norm, Model(Without(v.fields, k)), n) == EncodeFields(norm, v, n)
  {
    if n > 0 {
      SameBefore(norm, v, k, n - 1);
      assert Without(v.fields, k)[n - 1] == v.fields[n - 1];
    }
    hide Encode, IsAbsent;
  }

  lemma {:induction false} SameAfter(norm: Normalize, v: Value, k: nat, n: nat)
    requires v.Model? && k < n <= |v.fields|
    requires !v.fields[k].semantic || (Encode(norm, v.fields[k].value).Success? && Missing(norm, v.fields[k].value))
    ensures EncodeFields(norm, Model(Without(v.fields, k)), n - 1) == EncodeFields(norm, v, n)
    decreases n
  {
    if n == k + 1 {
      SameBefore(norm, v, k, k);
      if v.fields[k].semantic {
        AbsentIff(norm, v.fields[k].value);
      }
    } else {
      SameAfter(norm, v, k, n - 1);
      assert Without(v.fields, k)[n - 2] == v.fields[n - 1];
    }
    hide Encode, Missing, IsAbsent;
  }

  /** A field outside the identity, or one that is missing, changes nothing wherever it stands. */
  lemma {:induction false} AbsentFieldIgnored(norm: Normalize, fields: seq<Field>, k: nat)
    requires k < |fields|
    requires !fields[k].semantic || (Encode(norm, fields[k].value).Success? && Missing(norm, fields[k].value))
    ensures Encode(norm, Model(Without(fields, k))) == Encode(norm, Model(fields))
  {
    SameAfter(norm, Model(fields), k, |fields|);
  }
}
