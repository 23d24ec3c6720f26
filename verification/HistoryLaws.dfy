/** What `history` returns: exactly the versions reachable from the head, each once, newest first. */
module HistoryLaws {
  import opened Wrappers
  import opened Text
  import opened Versions
  import opened StoreSpec

  /** Every record lies under its own id. */
  predicate WellKeyed(store: map<VersionId, Record>) {
    forall v :: v in store ==> store[v].versionId == v
  }

  // ----- reachability --------------------------------------------------------------------

  /** Each id but the last is stored and has the next one as a parent. */
  predicate IsStoredPath(store: map<VersionId, Record>, path: seq<VersionId>) {
    && path != []
    && forall i :: 0 <= i < |path| - 1 ==> path[i] in store && path[i + 1] in store[path[i]].parents
  }

  ghost predicate Reaches(store: map<VersionId, Record>, a: VersionId, b: VersionId) {
    exists path :: IsStoredPath(store, path) && path[0] == a && path[|path| - 1] == b
  }

  lemma ReachesSelf(store: map<VersionId, Record>, a: VersionId)
    ensures Reaches(store, a, a)
  {
    assert IsStoredPath(store, [a]);
  }

  lemma ReachesVia(store: map<VersionId, Record>, a: VersionId, p: VersionId, b: VersionId)
    requires a in store && p in store[a].parents && Reaches(store, p, b)
    ensures Reaches(store, a, b)
  {
    var path :| IsStoredPath(store, path) && path[0] == p && path[|path| - 1] == b;
    var longer := [a] + path;
    assert forall i :: 1 <= i < |longer| ==> longer[i] == path[i - 1];
    assert IsStoredPath(store, longer) && longer[|longer| - 1] == b;
  }

  // ----- the walk ----------------------------------------------------------------------------

  predicate HasId(recs: seq<Record>, v: VersionId) {
    exists k :: 0 <= k < |recs| && recs[k].versionId == v
  }

  predicate DistinctVersions(recs: seq<Record>) {
    forall i, j :: 0 <= i < j < |recs| ==> recs[i].versionId != recs[j].versionId
  }

  /** A record the walk may answer with: stored, not seen before, reached from the frontier. */
  ghost predicate Found(store: map<VersionId, Record>, frontier: seq<VersionId>, seen: set<VersionId>, rec: Record) {
    var v := rec.versionId;
    v in store && store[v] == rec && v !in seen && exists f :: f in frontier && Reaches(store, f, v)
  }

  lemma FoundLater(store: map<VersionId, Record>, frontier: seq<VersionId>, seen: set<VersionId>, rec: Record)
    requires WellKeyed(store) && frontier != []
    requires var c, rest := frontier[|frontier| - 1], frontier[..|frontier| - 1];
             || Found(store, rest, seen, rec) || Found(store, rest, seen + {c}, rec)
             || (c in store && Found(store, rest + store[c].parents, seen + {c}, rec))
    ensures Found(store, frontier, seen, rec)
  {
    var c, rest := frontier[|frontier| - 1], frontier[..|frontier| - 1];
    if !(exists f :: f in rest && Reaches(store, f, rec.versionId)) {
      var f :| f in rest + store[c].parents && Reaches(store, f, rec.versionId);
      ReachesVia(store, c, f, rec.versionId);
      assert c in frontier;
    }
  }

  lemma {:induction false} WalkFinds(store: map<VersionId, Record>, frontier: seq<VersionId>, seen: set<VersionId>)
    requires WellKeyed(store)
    ensures var out := Walk(store, frontier, seen);
            && (forall k :: 0 <= k < |out| ==> Found(store, frontier, seen, out[k]))
            && DistinctVersions(out)
    decreases |store.Keys - seen|, |frontier|
  {
    if frontier != [] {
      var c, rest := frontier[|frontier| - 1], frontier[..|frontier| - 1];
      var out := Walk(store, frontier, seen);
      if c in seen {
        WalkFinds(store, rest, seen);
      } else if c !in store {
        UnseenSame(store.Keys, seen, c);
        WalkFinds(store, rest, seen + {c});
      } else {
        UnseenLess(store.Keys, seen, c);
        WalkFinds(store, rest + store[c].parents, seen + {c});
        ReachesSelf(store, c);
        assert c in frontier;
      }
      hide Found, Reaches, DistinctVersions;
      forall k | 0 <= k < |out| && (c in seen || c !in store || k > 0) ensures Found(store, frontier, seen, out[k]) {
        FoundLater(store, frontier, seen, out[k]);
      }
      WalkDistinct(store, frontier, seen);
    }
  }

  lemma WalkDistinct(store: map<VersionId, Record>, frontier: seq<VersionId>, seen: set<VersionId>)
    requires WellKeyed(store) && frontier != []
    requires var c, rest := frontier[|frontier| - 1], frontier[..|frontier| - 1];
             if c in seen then DistinctVersions(Walk(store, rest, seen))
             else if c !in store then DistinctVersions(Walk(store, rest, seen + {c}))
             else
               var more := Walk(store, rest + store[c].parents, seen + {c});
               DistinctVersions(more) && forall k :: 0 <= k < |more| ==>
                 Found(store, rest + store[c].parents, seen + {c}, more[k])
    ensures DistinctVersions(Walk(store, frontier, seen))
  {
    hide Reaches;
  }

  /** Everything on the frontier and every parent of what was found is seen or found. */
  ghost predicate Closes(store: map<VersionId, Record>, frontier: seq<VersionId>, seen: set<VersionId>,
                         out: seq<Record>) {
    && (forall f :: f in frontier && f in store ==> f in seen || HasId(out, f))
    && (forall k, p :: 0 <= k < |out| && p in out[k].parents && p in store ==> p in seen || HasId(out, p))
  }

  lemma HasIdCons(rec: Record, more: seq<Record>, v: VersionId)
    ensures HasId([rec] + more, v) <==> v == rec.versionId || HasId(more, v)
  {
    var all := [rec] + more;
    assert all[0] == rec && forall k :: 1 <= k < |all| ==> all[k] == more[k - 1];
    if HasId(more, v) {
      var k :| 0 <= k < |more| && more[k].versionId == v;
      assert all[k + 1].versionId == v;
    }
  }

  lemma ClosesStep(store: map<VersionId, Record>, rest: seq<VersionId>, c: VersionId, seen: set<VersionId>,
                   more: seq<Record>)
    requires WellKeyed(store) && c in store && Closes(store, rest + store[c].parents, seen + {c}, more)
    ensures Closes(store, rest + [c], seen, [store[c]] + more)
  {
    var out := [store[c]] + more;
    forall v ensures HasId(out, v) <==> v == c || HasId(more, v) {
      HasIdCons(store[c], more, v);
    }
    hide HasId;
    forall f | f in rest + [c] && f in store ensures f in seen || HasId(out, f) {
      assert f == c || f in rest + store[c].parents;
    }
    forall k, p | 0 <= k < |out| && p in out[k].parents && p in store ensures p in seen || HasId(out, p) {
      if k == 0 {
        assert p in rest + store[c].parents;
      } else {
        assert out[k] == more[k - 1];
      }
    }
  }

  lemma {:induction false} WalkCloses(store: map<VersionId, Record>, frontier: seq<VersionId>, seen: set<VersionId>)
    requires WellKeyed(store)
    ensures Closes(store, frontier, seen, Walk(store, frontier, seen))
    decreases |store.Keys - seen|, |frontier|
  {
    if frontier != [] {
      var c, rest := frontier[|frontier| - 1], frontier[..|frontier| - 1];
      assert frontier == rest + [c];
      if c in seen {
        WalkCloses(store, rest, seen);
      } else if c !in store {
        UnseenSame(store.Keys, seen, c);
        WalkCloses(store, rest, seen + {c});
      } else {
        UnseenLess(store.Keys, seen, c);
        WalkCloses(store, rest + store[c].parents, seen + {c});
        ClosesStep(store, rest, c, seen, Walk(store, rest + store[c].parents, seen + {c}));
      }
      hide HasId;
    }
  }

  lemma {:induction false} PathFound(store: map<VersionId, Record>, out: seq<Record>, path: seq<VersionId>, n: nat)
    requires WellKeyed(store) && IsStoredPath(store, path) && n < |path| && path[n] in store
    requires forall k :: 0 <= k < |out| ==> out[k].versionId in store && store[out[k].versionId] == out[k]
    requires Closes(store, [path[0]], {}, out)
    ensures HasId(out, path[n])
  {
    if n > 0 {
      PathFound(store, out, path, n - 1);
      var k :| 0 <= k < |out| && out[k].versionId == path[n - 1];
      assert path[n] in out[k].parents;
    } else {
      assert path[0] in [path[0]];
    }
  }

  /** The walk from a stored head finds exactly the stored versions reachable from it, each once, the head first. */
  lemma {:induction false} WalkExact(store: map<VersionId, Record>, h: VersionId)
    requires WellKeyed(store) && h in store
    ensures var out := Walk(store, [h], {});
            && out != [] && out[0] == store[h] && DistinctVersions(out)
            && (forall k :: 0 <= k < |out| ==> out[k].versionId in store && store[out[k].versionId] == out[k])
            && forall v :: HasId(out, v) <==> v in store && Reaches(store, h, v)
  {
    var out := Walk(store, [h], {});
    WalkFinds(store, [h], {});
    WalkCloses(store, [h], {});
    forall v ensures HasId(out, v) <==> v in store && Reaches(store, h, v) {
      if v in store && Reaches(store, h, v) {
        var path :| IsStoredPath(store, path) && path[0] == h && path[|path| - 1] == v;
        PathFound(store, out, path, |path| - 1);
      }
      if HasId(out, v) {
        var k :| 0 <= k < |out| && out[k].versionId == v;
        assert Found(store, [h], {}, out[k]);
      }
    }
  }

  // ----- newest first -----------------------------------------------------------------------------

  /** No record is followed by a newer one. */
  predicate TimeSorted(s: seq<Record>) {
    forall i, j :: 0 <= i < j < |s| ==> !LexLess(s[i].createdAt, s[j].createdAt)
  }

  /** The records with one time stamp, in order. */
  function AtTime(s: seq<Record>, t: string): seq<Record> {
    if s == [] then []
    else AtTime(s[..|s| - 1], t) + if s[|s| - 1].createdAt == t then [s[|s| - 1]] else []
  }

  lemma AtTimeSnoc(s: seq<Record>, rec: Record, t: string)
    ensures AtTime(s + [rec], t) == AtTime(s, t) + if rec.createdAt == t then [rec] else []
  {
    assert (s + [rec])[..|s|] == s;
  }

  lemma {:induction false} InsertKeeps(s: seq<Record>, rec: Record)
    ensures multiset(InsertByTime(s, rec)) == multiset(s) + multiset{rec}
  {
    if s != [] {
      assert s == s[..|s| - 1] + [s[|s| - 1]];
      InsertKeeps(s[..|s| - 1], rec);
    }
  }

  lemma SortedSnoc(s: seq<Record>, rec: Record)
    requires TimeSorted(s) && forall i :: 0 <= i < |s| ==> !LexLess(s[i].createdAt, rec.createdAt)
    ensures TimeSorted(s + [rec])
  {
  }

  lemma {:induction false} InsertSorted(s: seq<Record>, rec: Record)
    requires TimeSorted(s)
    ensures TimeSorted(InsertByTime(s, rec))
  {
    if s == [] {
    } else if LexLess(s[|s| - 1].createdAt, rec.createdAt) {
      var init, last := s[..|s| - 1], s[|s| - 1];
      var out := InsertByTime(init, rec);
      InsertSorted(init, rec);
      InsertKeeps(init, rec);
      LexLessTotal(last.createdAt, rec.createdAt);
      forall i | 0 <= i < |out| ensures !LexLess(out[i].createdAt, last.createdAt) {
        assert out[i] in multiset(out);
      }
      SortedSnoc(out, last);
    } else {
      LexLessTotal(s[|s| - 1].createdAt, s[|s| - 1].createdAt);
      forall i | 0 <= i < |s| ensures !LexLess(s[i].createdAt, rec.createdAt) {
        NotLessThrough(s[i].createdAt, s[|s| - 1].createdAt, rec.createdAt);
      }
      SortedSnoc(s, rec);
    }
  }

  lemma NotLessThrough(a: string, b: string, c: string)
    requires !LexLess(a, b) && !LexLess(b, c)
    ensures !LexLess(a, c)
  {
    LexLessTotal(a, b);
    if LexLess(a, c) && a != b {
      LexLessTransitive(b, a, c);
    }
  }

  lemma {:induction false} InsertStable(s: seq<Record>, rec: Record, t: string)
    ensures AtTime(InsertByTime(s, rec), t) == AtTime(s, t) + if rec.createdAt == t then [rec] else []
  {
    if s == [] {
      AtTimeSnoc([], rec, t);
      assert [] + [rec] == [rec];
    } else {
      var init, last := s[..|s| - 1], s[|s| - 1];
      if LexLess(last.createdAt, rec.createdAt) {
        InsertStable(init, rec, t);
        AtTimeSnoc(InsertByTime(init, rec), last, t);
        LexLessTotal(last.createdAt, rec.createdAt);
      } else {
        AtTimeSnoc(s, rec, t);
      }
    }
  }

  /** The sort keeps every record, orders them newest first, and keeps the order of equal times. */
  lemma {:induction false} NewestFirstSorts(s: seq<Record>)
    ensures TimeSorted(NewestFirst(s)) && multiset(NewestFirst(s)) == multiset(s)
    ensures forall t :: AtTime(NewestFirst(s), t) == AtTime(s, t)
  {
    if s != [] {
      var init, last := s[..|s| - 1], s[|s| - 1];
      assert s == init + [last];
      NewestFirstSorts(init);
      InsertSorted(NewestFirst(init), last);
      InsertKeeps(NewestFirst(init), last);
      forall t ensures AtTime(NewestFirst(s), t) == AtTime(s, t) {
        InsertStable(NewestFirst(init), last, t);
      }
    }
  }

  /** Sorting changes nothing exactly if the list is newest first already. */
  lemma {:induction false} NewestFirstSameIff(s: seq<Record>)
    ensures NewestFirst(s) == s <==> TimeSorted(s)
  {
    NewestFirstSorts(s);
    if s != [] && TimeSorted(s) {
      var init, last := s[..|s| - 1], s[|s| - 1];
      NewestFirstSameIff(init);
      if init != [] {
        assert !LexLess(s[|s| - 2].createdAt, s[|s| - 1].createdAt);
      }
      assert init + [last] == s;
    }
  }

  lemma {:induction false} FirstStays(s: seq<Record>)
    requires s != [] && forall k :: 0 <= k < |s| ==> !LexLess(s[0].createdAt, s[k].createdAt)
    ensures NewestFirst(s)[0] == s[0]
  {
    var init, last := s[..|s| - 1], s[|s| - 1];
    if init != [] {
      FirstStays(init);
      InsertAfterFirst(NewestFirst(init), last);
    }
  }

  lemma {:induction false} InsertAfterFirst(s: seq<Record>, rec: Record)
    requires s != [] && !LexLess(s[0].createdAt, rec.createdAt)
    ensures InsertByTime(s, rec)[0] == s[0]
  {
    if LexLess(s[|s| - 1].createdAt, rec.createdAt) {
      InsertAfterFirst(s[..|s| - 1], rec);
    }
  }

  /** A record comes first exactly if, among the walked records, none is newer than the walk's first. */
  lemma FirstStaysIff(s: seq<Record>)
    requires s != [] && DistinctVersions(s)
    ensures NewestFirst(s)[0] == s[0] <==> forall k :: 0 <= k < |s| ==> !LexLess(s[0].createdAt, s[k].createdAt)
  {
    var out := NewestFirst(s);
    NewestFirstSorts(s);
    if out[0] == s[0] {
      forall k | 0 <= k < |s| ensures !LexLess(s[0].createdAt, s[k].createdAt) {
        assert s[k] in multiset(out);
        var j :| 0 <= j < |out| && out[j] == s[k];
        LexLessTotal(s[0].createdAt, s[0].createdAt);
      }
    } else if forall k :: 0 <= k < |s| ==> !LexLess(s[0].createdAt, s[k].createdAt) {
      FirstStays(s);
    }
  }

  // ----- the whole history ----------------------------------------------------------------------------

  lemma SameMembers(s: seq<Record>, t: seq<Record>)
    requires multiset(s) == multiset(t)
    ensures forall rec :: rec in s <==> rec in t
    ensures forall v :: HasId(s, v) <==> HasId(t, v)
  {
    forall rec ensures rec in s <==> rec in t {
      assert rec in s <==> rec in multiset(s);
      assert rec in t <==> rec in multiset(t);
    }
    forall v ensures HasId(s, v) <==> HasId(t, v) {
      if HasId(s, v) {
        var k :| 0 <= k < |s| && s[k].versionId == v;
        assert s[k] in t;
      }
      if HasId(t, v) {
        var k :| 0 <= k < |t| && t[k].versionId == v;
        assert t[k] in s;
      }
    }
  }

  /**
   For a recipe with a head, `history` lists the versions reachable from the head, each once, newest first; its
   first entry is the head exactly if no reachable version is newer.
   */
  lemma {:induction false} HistoryExact(norm: Normalizer, s: Store, r: string)
    requires Sound(norm, s) && r in s.heads
    ensures var store, h := Stored(s, r), s.heads[r];
            var out := History(s, r);
            && h in store && out.Success? && out.value != []
            && TimeSorted(out.value) && multiset(out.value) == multiset(Walk(store, [h], {}))
            && DistinctVersions(Walk(store, [h], {}))
            && (forall v :: HasId(out.value, v) <==> v in store && Reaches(store, h, v))
            && (out.value[0] == store[h] <==>
                forall v :: v in store && Reaches(store, h, v) ==> !LexLess(store[h].createdAt, store[v].createdAt))
  {
    HistoryIsSortedWalk(norm, s, r);
    var store, h := Stored(s, r), s.heads[r];
    hide Sound, LexLess, TimeSorted, Reaches, HasId, DistinctVersions, Walk, WellKeyed, History, Stored;
    var walk := Walk(store, [h], {});
    WalkExact(store, h);
    NewestFirstSorts(walk);
    SameMembers(NewestFirst(walk), walk);
    FirstStaysIff(walk);
    NewestAll(store, h, walk);
  }

  lemma HistoryIsSortedWalk(norm: Normalizer, s: Store, r: string)
    requires Sound(norm, s) && r in s.heads
    ensures s.heads[r] in Stored(s, r) && WellKeyed(Stored(s, r))
    ensures History(s, r) == Success(NewestFirst(Walk(Stored(s, r), [s.heads[r]], {})))
  {
    assert RecordKept(norm, s.versions[r], r);
    hide WellHashed;
  }

  lemma NewestAll(store: map<VersionId, Record>, h: VersionId, walk: seq<Record>)
    requires h in store
    requires forall k :: 0 <= k < |walk| ==> walk[k].versionId in store && store[walk[k].versionId] == walk[k]
    requires forall v :: HasId(walk, v) <==> v in store && Reaches(store, h, v)
    ensures (forall k :: 0 <= k < |walk| ==> !LexLess(store[h].createdAt, walk[k].createdAt))
       <==> forall v :: v in store && Reaches(store, h, v) ==> !LexLess(store[h].createdAt, store[v].createdAt)
  {
    hide Reaches, LexLess;
    if forall v :: v in store && Reaches(store, h, v) ==> !LexLess(store[h].createdAt, store[v].createdAt) {
      forall k | 0 <= k < |walk| ensures !LexLess(store[h].createdAt, walk[k].createdAt) {
        assert HasId(walk, walk[k].versionId);
      }
    }
    if forall k :: 0 <= k < |walk| ==> !LexLess(store[h].createdAt, walk[k].createdAt) {
      forall v | v in store && Reaches(store, h, v) ensures !LexLess(store[h].createdAt, store[v].createdAt) {
        assert HasId(walk, v);
        var k :| 0 <= k < |walk| && walk[k].versionId == v;
      }
    }
  }
}
