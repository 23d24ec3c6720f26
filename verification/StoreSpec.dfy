/** What the store operations do, as functions of the stored versions and heads; both backends are proved against it. */
module StoreSpec {
  import opened Wrappers
  import opened Text
  import opened Versions

  datatype Store = Store(versions: map<string, map<VersionId, Record>>, heads: map<string, VersionId>)

  datatype StoreError =
    | MissingVersion(recipeId: string)
    | NoSuchRecipe(recipeId: string)
    | ProjectionFailed(recipeId: string)

  const EMPTY := Store(map[], map[])

  function Stored(s: Store, r: string): map<VersionId, Record> {
    if r in s.versions then s.versions[r] else map[]
  }

  function Put(s: Store, r: string, rec: Record): Store {
    s.(versions := s.versions[r := Stored(s, r)[rec.versionId := rec]])
  }

  function WriteHead(s: Store, r: string, v: VersionId): Store {
    s.(heads := s.heads[r := v])
  }

  /** `head`: no record, the record, or the error for a ref that points at a missing version. */
  function HeadOf(s: Store, r: string): Result<Option<Record>, StoreError> {
    if r !in s.heads then Success(None)
    else if s.heads[r] !in Stored(s, r) then Failure(MissingVersion(r))
    else Success(Some(Stored(s, r)[s.heads[r]]))
  }

  /** Explicit parents, or the current head. */
  function ParentsFor(req: Request, head: Option<Record>): seq<VersionId> {
    match req.parents
    case Some(ps) => ps
    case None => if head.Some? then [head.value.versionId] else []
  }

  /** The no-op rule. */
  predicate Unchanged(req: Request, head: Option<Record>) {
    head.Some? && head.value.contentHash == req.recipe.doc
  }

  /** The commit stores a version: the head can be read and has other content. */
  predicate Writes(s: Store, req: Request) {
    HeadOf(s, req.recipe.doc.id).Success? && !Unchanged(req, HeadOf(s, req.recipe.doc.id).value)
  }

  /** `commit`. */
  function Commit(norm: Normalizer, s: Store, req: Request): (Result<Record, StoreError>, Store) {
    var r := req.recipe.doc.id;
    match HeadOf(s, r)
    case Failure(e) => (Failure(e), s)
    case Success(head) =>
      if Unchanged(req, head) then (Success(head.value), s)
      else
        var rec := BuildRecord(norm, req, ParentsFor(req, head));
        (Success(rec), WriteHead(Put(s, r, rec), r, rec.versionId))
  }

  // ----- invariants ---------------------------------------------------------------------

  predicate RecordKept(norm: Normalizer, store: map<VersionId, Record>, r: string) {
    forall v :: v in store ==> WellHashed(norm, store[v]) && store[v].versionId == v && store[v].recipe.doc.id == r
  }

  /** Every head resolves, every record lies under its own id and recipe. */
  predicate Sound(norm: Normalizer, s: Store) {
    && (forall r :: r in s.heads ==> s.heads[r] in Stored(s, r))
    && (forall r :: r in s.versions ==> RecordKept(norm, s.versions[r], r))
  }

  predicate ClosedUnderParents(store: map<VersionId, Record>) {
    forall v :: v in store ==> forall p :: p in store[v].parents ==> p in store
  }

  /** The parents of every stored version are stored. */
  predicate ParentsStored(s: Store) {
    forall r :: r in s.versions ==> ClosedUnderParents(s.versions[r])
  }

  /** No version is lost and none changes its content, parents, time or origin. */
  predicate Preserves(norm: Normalizer, s: Store, t: Store) {
    forall r, v :: r in s.versions && v in s.versions[r] ==>
      && v in Stored(t, r) && SameVersion(norm, s.versions[r][v], Stored(t, r)[v])
  }

  predicate SameVersion(norm: Normalizer, a: Record, b: Record) {
    && a.versionId == b.versionId && a.contentHash == b.contentHash && a.createdAt == b.createdAt
    && a.origin == b.origin
    && multiset(a.parents) == multiset(b.parents) && norm(a.author) == norm(b.author)
    && norm(a.message) == norm(b.message)
  }

  lemma PutKeepsRecords(norm: Normalizer, s: Store, r: string, rec: Record)
    requires Sound(norm, s) && WellHashed(norm, rec) && rec.recipe.doc.id == r
    ensures Sound(norm, Put(s, r, rec)) && rec.versionId in Stored(Put(s, r, rec), r)
  {
    var t := Put(s, r, rec);
    assert RecordKept(norm, t.versions[r], r) by {
      assert r in s.versions ==> RecordKept(norm, s.versions[r], r);
      hide WellHashed;
    }
    hide WellHashed, RecordKept;
  }

  lemma SameVersionIff(norm: Normalizer, a: Record, b: Record)
    requires WellHashed(norm, a) && WellHashed(norm, b)
    ensures a.versionId == b.versionId ==> SameVersion(norm, a, b)
  {
    SameIdSameContent(norm, a, b);
    hide WellHashed;
  }

  lemma PutPreserves(norm: Normalizer, s: Store, r: string, rec: Record)
    requires Sound(norm, s) && WellHashed(norm, rec)
    ensures Preserves(norm, s, Put(s, r, rec))
  {
    hide SameVersion, WellHashed;
    forall q, v | q in s.versions && v in s.versions[q]
      ensures v in Stored(Put(s, r, rec), q) && SameVersion(norm, s.versions[q][v], Stored(Put(s, r, rec), q)[v])
    {
      assert RecordKept(norm, s.versions[q], q);
      SameVersionIff(norm, s.versions[q][v], rec);
      SameVersionIff(norm, s.versions[q][v], s.versions[q][v]);
    }
  }

  lemma PutKeepsParents(s: Store, r: string, rec: Record)
    requires ParentsStored(s) && forall p :: p in rec.parents ==> p in Stored(s, r)
    ensures ParentsStored(Put(s, r, rec))
  {
    assert r in s.versions ==> ClosedUnderParents(s.versions[r]);
    var t := Put(s, r, rec);
    forall v | v in t.versions[r] ensures forall p :: p in t.versions[r][v].parents ==> p in t.versions[r] {
    }
  }

  /** The record a writing commit stores. */
  function NewRecord(norm: Normalizer, s: Store, req: Request): Record
    requires HeadOf(s, req.recipe.doc.id).Success?
  {
    BuildRecord(norm, req, ParentsFor(req, HeadOf(s, req.recipe.doc.id).value))
  }

  /** The record says what was asked: recipe, author, time, message, origin, and the given parents or the old head. */
  predicate SaysRequest(s: Store, req: Request, rec: Record)
    requires HeadOf(s, req.recipe.doc.id).Success?
  {
    var head := HeadOf(s, req.recipe.doc.id).value;
    && rec.recipe == req.recipe && rec.author == req.author && rec.createdAt == req.createdAt
    && rec.message == req.message && rec.origin == req.origin && rec.schema == FORMAT_VERSION
    && match req.parents
       case Some(given) => rec.parents == given
       case None => if head.Some? then rec.parents == [head.value.versionId] else rec.parents == []
  }

  /**
   The commit answers with the head, which now has the content asked for, and leaves other recipes alone. If the head
   had that content already nothing is written; otherwise the answer says what was asked, and is all that is added.
   */
  ghost predicate Committed(s: Store, req: Request, result: Result<Record, StoreError>, t: Store) {
    var r := req.recipe.doc.id;
    && HeadOf(s, r).Success?
    && result.Success? && result.value.contentHash == req.recipe.doc && HeadOf(t, r) == Success(Some(result.value))
    && (forall q :: q != r ==> HeadOf(t, q) == HeadOf(s, q) && Stored(t, q) == Stored(s, q))
    && var head := HeadOf(s, r).value;
       if head.Some? && head.value.contentHash == req.recipe.doc then t == s && result.value == head.value
       else SaysRequest(s, req, result.value)
            && Stored(t, r) == Stored(s, r)[result.value.versionId := result.value]
  }

  lemma {:induction false} CommitAnswers(norm: Normalizer, s: Store, req: Request)
    requires Sound(norm, s)
    ensures var (result, t) := Commit(norm, s, req); Committed(s, req, result, t)
  {
    hide WellHashed, RecordKept;
  }

  lemma {:induction false} CommitKeeps(norm: Normalizer, s: Store, req: Request)
    requires Sound(norm, s)
    ensures Sound(norm, Commit(norm, s, req).1) && Preserves(norm, s, Commit(norm, s, req).1)
  {
    var r := req.recipe.doc.id;
    var rec := NewRecord(norm, s, req);
    if Commit(norm, s, req).1 == s {
      NothingChanged(norm, s);
    } else {
      BuiltIsWellHashed(norm, req, rec.parents);
      PutKeepsRecords(norm, s, r, rec);
      PutPreserves(norm, s, r, rec);
      HeadMoves(norm, Put(s, r, rec), r, rec.versionId);
      HeadOnly(norm, s, Put(s, r, rec), r, rec.versionId);
    }
    hide WellHashed, RecordKept, SameVersion, Sound, Preserves;
  }

  lemma NothingChanged(norm: Normalizer, s: Store)
    ensures Preserves(norm, s, s)
  {
  }

  lemma HeadMoves(norm: Normalizer, s: Store, r: string, v: VersionId)
    requires Sound(norm, s) && v in Stored(s, r)
    ensures Sound(norm, WriteHead(s, r, v))
  {
    hide RecordKept;
  }

  lemma HeadOnly(norm: Normalizer, s: Store, t: Store, r: string, v: VersionId)
    requires Preserves(norm, s, t)
    ensures Preserves(norm, s, WriteHead(t, r, v))
  {
    hide SameVersion;
  }

  /** Nothing is written, or every parent of the new record is stored. */
  predicate ParentsGiven(norm: Normalizer, s: Store, req: Request)
    requires HeadOf(s, req.recipe.doc.id).Success?
  {
    || Unchanged(req, HeadOf(s, req.recipe.doc.id).value)
    || forall p :: p in NewRecord(norm, s, req).parents ==> p in Stored(s, req.recipe.doc.id)
  }

  /** A complete lineage stays complete exactly if nothing is written or every parent of the new record is stored. */
  lemma {:induction false} CommitKeepsParentsIff(norm: Normalizer, s: Store, req: Request)
    requires Sound(norm, s) && ParentsStored(s)
    ensures HeadOf(s, req.recipe.doc.id).Success?
    ensures ParentsStored(Commit(norm, s, req).1) <==> ParentsGiven(norm, s, req)
  {
    var r := req.recipe.doc.id;
    HeadIsStored(norm, s, r);
    var rec := NewRecord(norm, s, req);
    hide Sound, ParentsStored;
    if !Unchanged(req, HeadOf(s, r).value) {
      if ParentsGiven(norm, s, req) {
        PutKeepsParents(s, r, rec);
      }
      if ParentsStored(Put(s, r, rec)) {
        PutHasParents(norm, s, r, rec);
      }
      HeadKeepsParents(Put(s, r, rec), r, rec.versionId);
    }
  }

  /** A record is not among its own parents: they must have been stored before it. */
  lemma PutHasParents(norm: Normalizer, s: Store, r: string, rec: Record)
    requires WellHashed(norm, rec) && ParentsStored(Put(s, r, rec))
    ensures forall p :: p in rec.parents ==> p in Stored(s, r)
  {
    var t := Put(s, r, rec);
    assert ClosedUnderParents(t.versions[r]);
    forall p | p in rec.parents ensures p in Stored(s, r) {
      assert p in t.versions[r][rec.versionId].parents;
      assert p in multiset(rec.parents);
      NotOwnParent(p);
    }
  }

  lemma NotOwnParent(v: VersionId)
    ensures v !in v.parents
  {
    if v in v.parents {
      NoLineageCycle([v, v]);
    }
  }

  lemma HeadKeepsParents(s: Store, r: string, v: VersionId)
    ensures ParentsStored(WriteHead(s, r, v)) <==> ParentsStored(s)
  {
  }

  lemma HeadIsStored(norm: Normalizer, s: Store, r: string)
    requires Sound(norm, s)
    ensures HeadOf(s, r).Success?
    ensures HeadOf(s, r).value.Some? ==> HeadOf(s, r).value.value.versionId in Stored(s, r)
  {
    assert r in s.versions ==> RecordKept(norm, s.versions[r], r);
    hide WellHashed;
  }

  /** After completed commits every recipe with a version has a head. */
  lemma CommitKeepsHeaded(norm: Normalizer, s: Store, req: Request)
    requires s.versions.Keys <= s.heads.Keys
    ensures Commit(norm, s, req).1.versions.Keys <= Commit(norm, s, req).1.heads.Keys
  {
  }

  /** Committing the same content again changes nothing and answers with the same version. */
  lemma {:induction false} CommitTwice(norm: Normalizer, s: Store, req: Request, again: Request)
    requires Sound(norm, s) && again.recipe.doc == req.recipe.doc
    ensures var (result, t) := Commit(norm, s, req); Commit(norm, t, again) == (result, t)
  {
    CommitAnswers(norm, s, req);
    hide Sound;
  }

  // ----- history -------------------------------------------------------------------------

  /** The depth-first walk: the last id of the frontier next, ids seen or missing passed over. */
  function Walk(store: map<VersionId, Record>, frontier: seq<VersionId>, seen: set<VersionId>): seq<Record>
    decreases |store.Keys - seen|, |frontier|
  {
    if frontier == [] then []
    else
      var current, rest := frontier[|frontier| - 1], frontier[..|frontier| - 1];
      if current in seen then Walk(store, rest, seen)
      else if current !in store then
        UnseenSame(store.Keys, seen, current);
        Walk(store, rest, seen + {current})
      else
        UnseenLess(store.Keys, seen, current);
        [store[current]] + Walk(store, rest + store[current].parents, seen + {current})
  }

  lemma UnseenSame(keys: set<VersionId>, seen: set<VersionId>, v: VersionId)
    requires v !in keys
    ensures keys - (seen + {v}) == keys - seen
  {
  }

  lemma UnseenLess(keys: set<VersionId>, seen: set<VersionId>, v: VersionId)
    requires v in keys && v !in seen
    ensures |keys - (seen + {v})| < |keys - seen|
  {
    assert keys - (seen + {v}) == keys - seen - {v};
  }

  /** Insertion before the first record that is strictly older: equal times keep their order. */
  function InsertByTime(sorted: seq<Record>, rec: Record): (out: seq<Record>)
    ensures |out| == |sorted| + 1
  {
    if sorted == [] then [rec]
    else
      var last := sorted[|sorted| - 1];
      if LexLess(last.createdAt, rec.createdAt) then InsertByTime(sorted[..|sorted| - 1], rec) + [last]
      else sorted + [rec]
  }

  /** `out.sort(key=created_at, reverse=True)`: newest first, stable. */
  function NewestFirst(s: seq<Record>): (out: seq<Record>)
    ensures |out| == |s|
  {
    if s == [] then [] else InsertByTime(NewestFirst(s[..|s| - 1]), s[|s| - 1])
  }

  /** `history`. */
  function History(s: Store, r: string): Result<seq<Record>, StoreError> {
    match HeadOf(s, r)
    case Failure(e) => Failure(e)
    case Success(head) =>
      if head.None? then Success([]) else Success(NewestFirst(Walk(Stored(s, r), [head.value.versionId], {})))
  }
}
