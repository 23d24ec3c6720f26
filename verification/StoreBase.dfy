/** The lineage walk both backends share, over whatever way a backend has of reading a version. */
module StoreBase {
  import opened Wrappers
  import opened Versions
  import opened StoreSpec

  type Reader = VersionId -> Option<Record>

  /** The reader answers from `store`. */
  ghost predicate Reads(get: Reader, store: map<VersionId, Record>) {
    forall v :: get(v) == if v in store then Some(store[v]) else None
  }

  lemma WalkStep(store: map<VersionId, Record>, frontier: seq<VersionId>, seen: set<VersionId>, out: seq<Record>)
    requires frontier != []
    ensures var c, rest := frontier[|frontier| - 1], frontier[..|frontier| - 1];
            out + Walk(store, frontier, seen)
            == if c in seen then out + Walk(store, rest, seen)
               else if c !in store then out + Walk(store, rest, seen + {c})
               else out + [store[c]] + Walk(store, rest + store[c].parents, seen + {c})
  {
  }

  /** The frontier loop of `history`. */
  method WalkVersions(get: Reader, ghost store: map<VersionId, Record>, start: VersionId) returns (out: seq<Record>)
    requires Reads(get, store)
    ensures out == Walk(store, [start], {})
  {
    out := [];
    var seen: set<VersionId> := {};
    var frontier := [start];
    while frontier != []
      invariant out + Walk(store, frontier, seen) == Walk(store, [start], {})
      decreases |store.Keys - seen|, |frontier|
    {
      WalkStep(store, frontier, seen, out);
      var current := frontier[|frontier| - 1];
      frontier := frontier[..|frontier| - 1];
      if current !in seen {
        var record := get(current);
        UnseenSameOrLess(store.Keys, seen, current);
        seen := seen + {current};
        if record.Some? {
          out := out + [record.value];
          frontier := frontier + record.value.parents;
        }
      }
    }
    assert out + [] == out;
  }

  lemma UnseenSameOrLess(keys: set<VersionId>, seen: set<VersionId>, v: VersionId)
    requires v !in seen
    ensures v in keys ==> |keys - (seen + {v})| < |keys - seen|
    ensures v !in keys ==> |keys - (seen + {v})| == |keys - seen|
  {
    if v in keys {
      UnseenLess(keys, seen, v);
    } else {
      UnseenSame(keys, seen, v);
    }
  }
}
