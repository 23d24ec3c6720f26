/** `sorted(ids)`: the ids in code-point order, each once. */
module IdOrder {
  import opened Text

  predicate StrictlySorted(ids: seq<string>) {
    forall i, j :: 0 <= i < j < |ids| ==> LexLess(ids[i], ids[j])
  }

  /** The ids of `s` in order; there is only one such list. */
  ghost predicate Sorts(ids: seq<string>, s: set<string>) {
    StrictlySorted(ids) && forall id :: id in ids <==> id in s
  }

  lemma {:induction false} SortsUnique(a: seq<string>, b: seq<string>, s: set<string>)
    requires Sorts(a, s) && Sorts(b, s)
    ensures a == b
    decreases |a|
  {
    if a == [] {
      assert forall k :: 0 <= k < |b| ==> b[k] in s;
    } else {
      assert a[0] in s;
      assert a[0] in b && b[0] in s && b[0] in a;
      var i :| 0 <= i < |b| && b[i] == a[0];
      var j :| 0 <= j < |a| && a[j] == b[0];
      LexLessTotal(a[0], b[0]);
      TailSorts(a, s);
      TailSorts(b, s);
      SortsUnique(a[1..], b[1..], s - {a[0]});
      assert a == [a[0]] + a[1..] && b == [b[0]] + b[1..];
    }
  }

  lemma TailSorts(a: seq<string>, s: set<string>)
    requires Sorts(a, s) && a != []
    ensures Sorts(a[1..], s - {a[0]})
  {
    LexLessTotal(a[0], a[0]);
    forall id ensures id in a[1..] <==> id in s - {a[0]} {
      if id in a && id != a[0] {
        var k :| 0 <= k < |a| && a[k] == id;
        assert a[1..][k - 1] == id;
      }
    }
  }

  function InsertId(ids: seq<string>, id: string): (out: seq<string>)
    ensures forall x :: x in out <==> x in ids || x == id
  {
    if ids == [] || LexLess(id, ids[0]) then [id] + ids
    else if ids[0] == id then ids
    else [ids[0]] + InsertId(ids[1..], id)
  }

  lemma {:induction false} InsertIdSorted(ids: seq<string>, id: string)
    requires StrictlySorted(ids)
    ensures StrictlySorted(InsertId(ids, id))
  {
    if ids != [] {
      LexLessTotal(ids[0], id);
      var out := InsertId(ids, id);
      if LexLess(id, ids[0]) {
        forall j | 0 < j < |out| ensures LexLess(out[0], out[j]) {
          if j > 1 {
            LexLessTransitive(id, ids[0], out[j]);
          }
        }
      } else if ids[0] != id {
        InsertIdSorted(ids[1..], id);
        assert forall j :: 0 < j < |out| ==> out[j] in InsertId(ids[1..], id);
      }
    }
  }

  /** `sorted(s)`. */
  method SortIds(s: set<string>) returns (ids: seq<string>)
    ensures Sorts(ids, s)
  {
    ids := [];
    var rest := s;
    while rest != {}
      invariant rest <= s && Sorts(ids, s - rest)
      decreases |rest|
    {
      var id :| id in rest;
      InsertIdSorted(ids, id);
      ids := InsertId(ids, id);
      rest := rest - {id};
    }
  }
}
