/**
 One writer alone is the atomic commit; two racing writers can lose a version from the history, never from the store.
 */
module StoreRaces {
  import opened Wrappers
  import opened Versions
  import opened StoreSpec
  import opened HistoryLaws
  import opened StoreProtocol

  // ----- one writer alone ------------------------------------------------------------------

  /** The steps of one commit taken without interruption. */
  function Uninterrupted(norm: Normalizer, s: System, w: nat, req: Request): System
    requires Enabled(s, Begin(w, req))
  {
    var read := Apply(norm, Apply(norm, s, Begin(w, req)), ReadRef(w));
    var decided := Apply(norm, read, LoadHead(w));
    if decided.writers[w].Writing? then Apply(norm, Apply(norm, decided, PutRecord(w)), MoveRef(w)) else decided
  }

  /** Uninterrupted, the steps are `commit`: the same store and the same answer. */
  lemma {:induction false} UninterruptedIsCommit(norm: Normalizer, s: System, w: nat, req: Request)
    requires Inv(norm, s) && Enabled(s, Begin(w, req))
    ensures var t := Uninterrupted(norm, s, w, req);
            && t.store == Commit(norm, s.store, req).1 && Commit(norm, s.store, req).0.Success?
            && w < |t.writers| && t.writers[w] == Answered(req, Commit(norm, s.store, req).0.value)
  {
    hide BuildRecord, RecordKept, PhaseOk;
    var r := req.recipe.doc.id;
    assert r in s.store.heads ==> s.store.heads[r] in Stored(s.store, r);
  }

  // ----- what moving the head keeps --------------------------------------------------------------

  lemma ReachesThrough(store: map<VersionId, Record>, a: VersionId, b: VersionId, c: VersionId)
    requires Reaches(store, a, b) && Reaches(store, b, c)
    ensures Reaches(store, a, c)
  {
    var p :| IsStoredPath(store, p) && p[0] == a && p[|p| - 1] == b;
    var q :| IsStoredPath(store, q) && q[0] == b && q[|q| - 1] == c;
    var joined := p + q[1..];
    forall i | 0 <= i < |joined| - 1 ensures joined[i] in store && joined[i + 1] in store[joined[i]].parents {
      if i + 1 < |p| {
        assert joined[i] == p[i] && joined[i + 1] == p[i + 1];
      } else {
        assert joined[i] == q[i - |p| + 1] && joined[i + 1] == q[i - |p| + 2];
      }
    }
    assert IsStoredPath(store, joined) && joined[|joined| - 1] == c;
  }

  /** Moving the head orphans nothing exactly if the old head is an ancestor of the new one, or is the new one. */
  lemma {:induction false} MoveOrphansNothingIff(store: map<VersionId, Record>, old_: VersionId, new_: VersionId)
    ensures (forall v :: Reaches(store, old_, v) ==> Reaches(store, new_, v)) <==> Reaches(store, new_, old_)
  {
    ReachesSelf(store, old_);
    if Reaches(store, new_, old_) {
      forall v | Reaches(store, old_, v) ensures Reaches(store, new_, v) {
        ReachesThrough(store, new_, old_, v);
      }
    }
  }

  /** If the head has not moved since the writer read it, moving it keeps the whole history reachable. */
  lemma {:induction false} UnmovedHeadLosesNothing(norm: Normalizer, s: System, w: nat)
    requires Inv(norm, s) && Enabled(s, MoveRef(w))
    requires var a := s.writers[w];
             a.req.recipe.doc.id in s.store.heads && s.store.heads[a.req.recipe.doc.id] in a.record.parents
    ensures var r := s.writers[w].req.recipe.doc.id;
            var t := Apply(norm, s, MoveRef(w)).store;
            forall v :: Reaches(Stored(s.store, r), s.store.heads[r], v) ==> Reaches(Stored(t, r), t.heads[r], v)
  {
    var a := s.writers[w];
    var r := a.req.recipe.doc.id;
    var kept, h := Stored(s.store, r), s.store.heads[a.req.recipe.doc.id];
    assert PhaseOk(norm, s.store, a);
    ParentsAgree(norm, s.store, r, a.record);
    ReachesSelf(kept, h);
    ReachesVia(kept, a.record.versionId, h, h);
    MoveOrphansNothingIff(kept, h, a.record.versionId);
    hide Reaches;
  }

  lemma ParentsAgree(norm: Normalizer, s: Store, r: string, rec: Record)
    requires Sound(norm, s) && WellHashed(norm, rec) && rec.versionId in Stored(s, r)
    ensures forall p :: p in rec.parents <==> p in Stored(s, r)[rec.versionId].parents
  {
    assert RecordKept(norm, s.versions[r], r);
    var kept := Stored(s, r)[rec.versionId];
    assert multiset(kept.parents) == multiset(rec.parents);
    forall p ensures p in rec.parents <==> p in kept.parents {
      assert p in rec.parents <==> p in multiset(rec.parents);
      assert p in kept.parents <==> p in multiset(kept.parents);
    }
  }

  // ----- the lost update --------------------------------------------------------------------------

  /** Both writers read the empty ref before either moves it. */
  function RaceSteps(a: Request, b: Request): seq<Step> {
    [Begin(0, a), Begin(1, b), ReadRef(0), ReadRef(1), LoadHead(0), LoadHead(1), PutRecord(0), PutRecord(1), MoveRef(0),
     MoveRef(1)]
  }

  function TwoWriters(store: Store, p: Phase, q: Phase): System {
    System(store, [p, q])
  }

  function RaceStates(norm: Normalizer, a: Request, b: Request): seq<System> {
    var r := a.recipe.doc.id;
    var x, y := BuildRecord(norm, a, []), BuildRecord(norm, b, []);
    var one := Put(EMPTY, r, x);
    var two := Put(one, r, y);
    var moved := WriteHead(two, r, x.versionId);
    [TwoWriters(EMPTY, Idle, Idle), TwoWriters(EMPTY, Started(a), Idle), TwoWriters(EMPTY, Started(a), Started(b)),
     TwoWriters(EMPTY, RefRead(a, None), Started(b)), TwoWriters(EMPTY, RefRead(a, None), RefRead(b, None)),
     TwoWriters(EMPTY, Writing(a, x), RefRead(b, None)), TwoWriters(EMPTY, Writing(a, x), Writing(b, y)),
     TwoWriters(one, PutDone(a, x), Writing(b, y)), TwoWriters(two, PutDone(a, x), PutDone(b, y)),
     TwoWriters(moved, Answered(a, x), PutDone(b, y)),
     TwoWriters(WriteHead(moved, r, y.versionId), Answered(a, x), Answered(b, y))]
  }

  lemma RaceIsRun(norm: Normalizer, a: Request, b: Request)
    requires a.recipe.doc.id == b.recipe.doc.id && a.parents.None? && b.parents.None?
    ensures IsRun(norm, RaceStates(norm, a, b), RaceSteps(a, b)) && RaceStates(norm, a, b)[0] == Start(2)
  {
    var states, steps := RaceStates(norm, a, b), RaceSteps(a, b);
    assert Start(2).writers == [Idle, Idle];
    hide BuildRecord;
    forall i | 0 <= i < 10 ensures Enabled(states[i], steps[i]) && states[i + 1] == Apply(norm, states[i], steps[i]) {
      var t := Apply(norm, states[i], steps[i]);
      assert t.writers == states[i + 1].writers;
    }
  }

  lemma FirstEdge(store: map<VersionId, Record>, path: seq<VersionId>)
    requires IsStoredPath(store, path)
    ensures |path| == 1 || (path[0] in store && store[path[0]].parents != [])
  {
    if |path| > 1 {
      assert path[1] in store[path[0]].parents;
    }
  }

  lemma NoParentsNoAncestors(store: map<VersionId, Record>, h: VersionId, v: VersionId)
    requires h in store && store[h].parents == []
    ensures Reaches(store, h, v) <==> v == h
  {
    ReachesSelf(store, h);
    if Reaches(store, h, v) {
      var path :| IsStoredPath(store, path) && path[0] == h && path[|path| - 1] == v;
      FirstEdge(store, path);
    }
  }

  /**
   The race: both commits answer, both versions stay stored, but the first is not in the history of the recipe.
   */
  lemma {:induction false} RaceLosesUpdate(norm: Normalizer, a: Request, b: Request)
    requires a.recipe.doc.id == b.recipe.doc.id && a.recipe.doc != b.recipe.doc && a.parents.None? && b.parents.None?
    ensures var states, r := RaceStates(norm, a, b), a.recipe.doc.id;
            var last := states[10];
            && IsRun(norm, states, RaceSteps(a, b)) && states[0] == Start(2)
            && last.writers[0].Answered? && last.writers[1].Answered?
            && last.writers[0].record.versionId in Stored(last.store, r)
            && last.writers[0].record.contentHash == a.recipe.doc
            && last.writers[1].record.versionId in Stored(last.store, r)
            && last.writers[1].record.contentHash == b.recipe.doc
            && HeadOf(last.store, r) == Success(Some(last.writers[1].record))
            && History(last.store, r).Success? && !HasId(History(last.store, r).value, last.writers[0].record.versionId)
  {
    RaceIsRun(norm, a, b);
    var states, r := RaceStates(norm, a, b), a.recipe.doc.id;
    var last := states[10];
    EveryRunIsSafe(norm, 2, states, RaceSteps(a, b), 10, 10);
    HistoryExact(norm, last.store, r);
    hide IsRun, History, Sound;
    NoParentsNoAncestors(Stored(last.store, r), last.store.heads[r], last.writers[0].record.versionId);
  }
}
