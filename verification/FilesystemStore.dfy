/**
 The filesystem backend: a tree of files. Every operation gives what the store specification gives, so both
 backends answer alike, and the canonical file always holds the head.
 */
module FilesystemStores {
  import opened Wrappers
  import opened Text
  import opened Versions
  import opened StoreSpec
  import opened StoreBase
  import opened IdOrder
  import opened FsPaths
  import opened FsFiles

  /** Whether the Cooklang printer and the README writer accept a recipe; otherwise they raise. */
  datatype Projector = Projector(cookPrints: Recipe -> bool, readmePrints: Recipe -> bool) {
    predicate Accepts(recipe: Recipe) {
      cookPrints(recipe) && readmePrints(recipe)
    }
  }

  class FilesystemStore {
    const norm: Normalizer
    const digest: Digest
    const projector: Projector
    var files: Tree
    ghost var view: Store

    ghost predicate Valid()
      reads this
    {
      GoodDigest(digest) && Matches(digest, files, view)
    }

    constructor (norm: Normalizer, digest: Digest, projector: Projector)
      requires GoodDigest(digest)
      ensures Valid() && view == EMPTY && this.norm == norm && this.projector == projector && files == map[]
    {
      this.norm, this.digest, this.projector := norm, digest, projector;
      files := map[];
      view := EMPTY;
    }

    /** `_put_version`: the version file, then the recipe's configuration if it is new. */
    method PutVersion(r: string, rec: Record)
      requires Valid()
      modifies this
      ensures Valid() && view == Put(old(view), r, rec) && HasMeta(files, r) && SameCanonical(old(files), files)
      ensures files == WithVersion(digest, old(files), r, rec)
    {
      hide VersionPath, RefPath, InMeta, HasMeta, IdText, VersionsMatch, RefsMatch, ConfigPath, CanonicalPath;
      VersionWritten(digest, files, view, r, rec);
      NotCanonical(r, IdOf(digest, rec.versionId));
      files := files[VersionPath(r, IdOf(digest, rec.versionId)) := RecordFile(rec)];
      view := Put(view, r, rec);
      assert HasMeta(files, r);
      EnsureConfig(r);
    }

    /** `_ensure_config`. */
    method EnsureConfig(r: string)
      requires Valid() && HasMeta(files, r)
      modifies this
      ensures Valid() && view == old(view) && HasMeta(files, r) && SameCanonical(old(files), files)
      ensures files == if ConfigPath(r) in old(files) then old(files) else old(files)[ConfigPath(r) := ConfigFile(r)]
    {
      NotCanonical(r, "");
      if ConfigPath(r) !in files {
        SideFileWritten(digest, files, view, r, ConfigPath(r), ConfigFile(r));
        files := files[ConfigPath(r) := ConfigFile(r)];
      }
    }

    method GetVersion(r: string, version: string) returns (rec: Option<Record>)
      requires Valid()
      ensures rec == ReadRecord(files, r, version)
      ensures forall v :: version == IdOf(digest, v) ==> rec == Lookup(view, r, v)
    {
      rec := ReadRecord(files, r, version);
      forall v | version == IdOf(digest, v) ensures rec == Lookup(view, r, v) {
        ReadsStored(digest, files, view, r, v);
      }
    }

    /** `_read_head_ref`: the text of the ref file, stripped; an empty one is no ref. */
    method ReadHeadRef(r: string) returns (ref: Option<string>)
      requires Valid()
      ensures ref == if r in view.heads then Some(IdOf(digest, view.heads[r])) else None
    {
      if RefPath(r) !in files {
        return None;
      }
      assert files[RefPath(r)] == RefFile(IdOf(digest, view.heads[r]) + "\n");
      RefText(digest, view.heads[r]);
      var text := Strip(files[RefPath(r)].text);
      return if text == "" then None else Some(text);
    }

    /**
     `_write_projections`: the files derived from the version's record, if it is there. A printer that raises leaves
     the files before it written.
     */
    method WriteProjections(r: string, version: string) returns (done: Result<(), StoreError>)
      requires Valid() && HasMeta(files, r)
      modifies this
      ensures Valid() && view == old(view)
      ensures files == Projected(projector, old(files), r, ReadRecord(old(files), r, version))
      ensures done == ProjectionOutcome(projector, r, ReadRecord(old(files), r, version))
    {
      hide InMeta, HasMeta, VersionsMatch, RefsMatch, VersionPath, IdText;
      var record := ReadRecord(files, r, version);
      if record.None? {
        return Success(());
      }
      var recipe := record.value.recipe;
      WriteSide(r, CanonicalPath(r), CanonicalFile(recipe.doc));
      if !projector.cookPrints(recipe) {
        return Failure(ProjectionFailed(r));
      }
      WriteSide(r, CookPath(r), CookFile(recipe));
      if !projector.readmePrints(recipe) {
        return Failure(ProjectionFailed(r));
      }
      WriteSide(r, ReadmePath(r), ReadmeFile(recipe));
      return Success(());
    }

    method WriteSide(r: string, p: Path, f: File)
      requires Valid() && HasMeta(files, r) && IsSideFile(p, r)
      modifies this
      ensures Valid() && HasMeta(files, r) && view == old(view) && files == old(files)[p := f]
    {
      SideFileWritten(digest, files, view, r, p, f);
      files := files[p := f];
    }

    /** `_write_head_ref`: the ref, the branch pointer, the projections. */
    method WriteHeadRef(r: string, version: string, ghost v: VersionId) returns (done: Result<(), StoreError>)
      requires Valid() && version == IdOf(digest, v)
      modifies this
      ensures Valid() && view == WriteHead(old(view), r, v)
      ensures files == Projected(projector, WithRef(old(files), r, version), r, Lookup(view, r, v))
      ensures done == ProjectionOutcome(projector, r, Lookup(view, r, v))
      ensures if v in Stored(view, r)
              then CanonicalPath(r) in files && files[CanonicalPath(r)] == CanonicalFile(Stored(view, r)[v].recipe.doc)
              else SameFile(old(files), files, CanonicalPath(r))
      ensures forall q :: q != r ==> SameFile(old(files), files, CanonicalPath(q))
    {
      hide InMeta, HasMeta, VersionsMatch, RefsMatch, VersionPath, IdText, RefPath, HeadPath, CanonicalPath, CookPath,
        ReadmePath;
      RefWritten(digest, files, view, r, v);
      files := files[RefPath(r) := RefFile(version + "\n")];
      view := WriteHead(view, r, v);
      HeadIsSide(r);
      assert r in view.heads && HasMeta(files, r);
      WriteSide(r, HeadPath(r), HeadFile("refs/heads/main"));
      ReadsStored(digest, files, view, r, v);
      done := WriteProjections(r, version);
      OtherPaths(r);
    }

    /**
     `list_recipe_ids`: the directories with metadata; the recipes with a head, once every put was followed by its ref.
     */
    method ListRecipeIds() returns (ids: seq<string>)
      requires Valid()
      ensures Sorts(ids, view.versions.Keys + view.heads.Keys)
      ensures view.versions.Keys <= view.heads.Keys ==> Sorts(ids, view.heads.Keys)
    {
      MetaIdsAre(files, view);
      assert view.versions.Keys <= view.heads.Keys ==> view.versions.Keys + view.heads.Keys == view.heads.Keys;
      ids := SortIds(MetaIds(files));
    }

    method Head(r: string) returns (head: Result<Option<Record>, StoreError>)
      requires Valid()
      ensures head == HeadOf(view, r)
    {
      hide Matches, GoodDigest;
      var ref := ReadHeadRef(r);
      if ref.None? {
        return Success(None);
      }
      var record := GetVersion(r, ref.value);
      if record.None? {
        return Failure(MissingVersion(r));
      }
      return Success(record);
    }

    /** `commit`. */
    method CommitRecipe(req: Request) returns (result: Result<Record, StoreError>)
      requires Valid()
      modifies this
      ensures Valid() && view == Commit(norm, old(view), req).1
      ensures result == if Writes(old(view), req) && !projector.Accepts(req.recipe)
                        then Failure(ProjectionFailed(req.recipe.doc.id)) else Commit(norm, old(view), req).0
      ensures view == old(view) ==> files == old(files)
      ensures view != old(view) ==>
                CanonicalPath(req.recipe.doc.id) in files
                  && files[CanonicalPath(req.recipe.doc.id)] == CanonicalFile(req.recipe.doc)
      ensures CanonicalCurrent(old(files), old(view)) ==> CanonicalCurrent(files, view)
    {
      hide Valid, Matches, CanonicalCurrent, HasMeta, CanonicalPath, IdOf;
      var r := req.recipe.doc.id;
      var head :- Head(r);
      if Unchanged(req, head) {
        return Success(head.value);
      }
      var record := BuildRecord(norm, req, ParentsFor(req, head));
      PutVersion(r, record);
      var done := WriteHeadRef(r, IdOf(digest, record.versionId), record.versionId);
      CanonicalAfter(old(files), old(view), files, r, record);
      WritingChanges(old(view), r, head, record);
      if done.Failure? {
        return Failure(done.error);
      }
      return Success(record);
    }

    /** `history`. */
    method ReadHistory(r: string) returns (records: Result<seq<Record>, StoreError>)
      requires Valid()
      ensures records == History(view, r)
    {
      var head :- Head(r);
      if head.None? {
        return Success([]);
      }
      var tree, text := files, digest;
      forall v ensures ReadRecord(tree, r, IdOf(text, v)) == Lookup(view, r, v) {
        ReadsStored(digest, files, view, r, v);
      }
      var walk := WalkVersions(v => ReadRecord(tree, r, IdOf(text, v)), Stored(view, r), head.value.versionId);
      return Success(NewestFirst(walk));
    }
  }

  /** The tree with the version's file, and with the recipe's configuration if it had none. */
  function WithVersion(digest: Digest, files: Tree, r: string, rec: Record): Tree {
    var written := files[VersionPath(r, IdOf(digest, rec.versionId)) := RecordFile(rec)];
    if ConfigPath(r) in files then written else written[ConfigPath(r) := ConfigFile(r)]
  }

  /** The tree with the ref and the branch pointer. */
  function WithRef(files: Tree, r: string, version: string): Tree {
    files[RefPath(r) := RefFile(version + "\n")][HeadPath(r) := HeadFile("refs/heads/main")]
  }

  /** The tree with the projections of a record, as far as its printers get, or as it is without a record. */
  function Projected(projector: Projector, files: Tree, r: string, rec: Option<Record>): Tree {
    if rec.None? then files
    else
      var recipe := rec.value.recipe;
      var canonical := files[CanonicalPath(r) := CanonicalFile(recipe.doc)];
      if !projector.cookPrints(recipe) then canonical
      else
        var cook := canonical[CookPath(r) := CookFile(recipe)];
        if !projector.readmePrints(recipe) then cook else cook[ReadmePath(r) := ReadmeFile(recipe)]
  }

  function ProjectionOutcome(projector: Projector, r: string, rec: Option<Record>): Result<(), StoreError> {
    if rec.Some? && !projector.Accepts(rec.value.recipe) then Failure(ProjectionFailed(r)) else Success(())
  }

  predicate SameFile(before: Tree, after: Tree, p: Path) {
    if p in before then p in after && after[p] == before[p] else p !in after
  }

  ghost predicate SameCanonical(before: Tree, after: Tree) {
    forall q :: SameFile(before, after, CanonicalPath(q))
  }

  lemma NotCanonical(r: string, version: string)
    ensures forall q :: CanonicalPath(q) != VersionPath(r, version) && CanonicalPath(q) != ConfigPath(r)
    ensures VersionPath(r, version) != ConfigPath(r)
  {
    PathsDisjoint(r, version, r);
    forall q ensures CanonicalPath(q) != VersionPath(r, version) && CanonicalPath(q) != ConfigPath(r) {
      PathsDisjoint(r, version, q);
      PathsDisjoint(q, "", r);
    }
  }

  /** With the new head's canonical file written and the others kept, every canonical file is current. */
  lemma CanonicalAfter(before: Tree, s: Store, after: Tree, r: string, rec: Record)
    requires CanonicalPath(r) in after && after[CanonicalPath(r)] == CanonicalFile(rec.recipe.doc)
    requires forall q :: q != r ==> SameFile(before, after, CanonicalPath(q))
    ensures CanonicalCurrent(before, s) ==> CanonicalCurrent(after, WriteHead(Put(s, r, rec), r, rec.versionId))
  {
    hide CanonicalPath;
    if CanonicalCurrent(before, s) {
      var t := WriteHead(Put(s, r, rec), r, rec.versionId);
      forall q | q != r && q in t.heads && t.heads[q] in Stored(t, q)
        ensures CanonicalPath(q) in after
                && after[CanonicalPath(q)] == CanonicalFile(Stored(t, q)[t.heads[q]].recipe.doc) {
        assert SameFile(before, after, CanonicalPath(q));
      }
    }
  }

  /** A record of other content than the head's is not the head: the store changes. */
  lemma WritingChanges(s: Store, r: string, head: Option<Record>, rec: Record)
    requires HeadOf(s, r) == Success(head) && (head.Some? ==> head.value.contentHash != rec.contentHash)
    ensures WriteHead(Put(s, r, rec), r, rec.versionId) != s
  {
    var t := WriteHead(Put(s, r, rec), r, rec.versionId);
    assert HeadOf(t, r) == Success(Some(rec));
  }

  lemma HeadIsSide(r: string)
    ensures IsSideFile(HeadPath(r), r)
  {
  }

  lemma OtherPaths(r: string)
    ensures forall q :: CanonicalPath(q) !in [RefPath(r), HeadPath(r), ConfigPath(r), CookPath(r), ReadmePath(r)]
    ensures forall q :: CanonicalPath(q) == CanonicalPath(r) <==> q == r
  {
    forall q
      ensures CanonicalPath(q) != RefPath(r) && CanonicalPath(q) != HeadPath(r) && CanonicalPath(q) != ConfigPath(r)
           && CanonicalPath(q) != CookPath(r) && CanonicalPath(q) != ReadmePath(r)
      ensures CanonicalPath(q) == CanonicalPath(r) <==> q == r
    {
      PathsDisjoint(q, "", r);
      PathsDisjoint(r, "", q);
    }
  }

  // ----- a crash between the ref and the projections -----------------------------------------------

  lemma VersionAndRef(digest: Digest, files: Tree, s: Store, r: string, rec: Record)
    requires GoodDigest(digest) && Matches(digest, files, s)
    ensures Matches(digest, WithVersion(digest, files, r, rec), Put(s, r, rec))
    ensures var after := WithRef(WithVersion(digest, files, r, rec), r, IdOf(digest, rec.versionId));
            Matches(digest, after, WriteHead(Put(s, r, rec), r, rec.versionId))
  {
    hide VersionPath, RefPath, InMeta, HasMeta, IdText, VersionsMatch, RefsMatch, ConfigPath, HeadPath;
    var id := IdOf(digest, rec.versionId);
    var written, put := files[VersionPath(r, id) := RecordFile(rec)], Put(s, r, rec);
    VersionWritten(digest, files, s, r, rec);
    NotCanonical(r, id);
    HeadIsSide(r);
    assert HasMeta(written, r);
    SideFileWritten(digest, written, put, r, ConfigPath(r), ConfigFile(r));
    var versioned := WithVersion(digest, files, r, rec);
    RefWritten(digest, versioned, put, r, rec.versionId);
    var moved, t := versioned[RefPath(r) := RefFile(id + "\n")], WriteHead(put, r, rec.versionId);
    assert HasMeta(moved, r);
    SideFileWritten(digest, moved, t, r, HeadPath(r), HeadFile("refs/heads/main"));
  }

  lemma CanonicalUntouched(digest: Digest, files: Tree, r: string, rec: Record)
    ensures var after := WithRef(WithVersion(digest, files, r, rec), r, IdOf(digest, rec.versionId));
            SameCanonical(files, after)
  {
    hide VersionPath, RefPath, ConfigPath, HeadPath, CanonicalPath, IdOf;
    NotCanonical(r, IdOf(digest, rec.versionId));
    OtherPaths(r);
  }

  /** What a writing commit leaves if it stops after the ref and the branch pointer: no projection is written. */
  function Crashed(norm: Normalizer, digest: Digest, files: Tree, s: Store, req: Request): Tree
    requires HeadOf(s, req.recipe.doc.id).Success?
  {
    var r, rec := req.recipe.doc.id, NewRecord(norm, s, req);
    WithRef(WithVersion(digest, files, r, rec), r, IdOf(digest, rec.versionId))
  }

  /**
   A commit that stops between the ref and the projections has taken effect: the tree holds the store after it. But
   `recipe.json` is still as it was, so it does not hold the new head, and committing the same content again does not
   repair it.
   */
  lemma {:induction false} CrashLeavesStale(norm: Normalizer, digest: Digest, files: Tree, s: Store, req: Request)
    requires GoodDigest(digest) && Matches(digest, files, s) && Sound(norm, s) && CanonicalCurrent(files, s)
    requires Writes(s, req)
    ensures var t, after := Commit(norm, s, req).1, Crashed(norm, digest, files, s, req);
            && Matches(digest, after, t) && SameCanonical(files, after)
            && (req.recipe.doc.id in s.heads ==> !CanonicalCurrent(after, t))
            && forall again: Request :: again.recipe.doc == req.recipe.doc ==> !Writes(t, again)
  {
    var r, rec := req.recipe.doc.id, NewRecord(norm, s, req);
    var t := Commit(norm, s, req).1;
    VersionAndRef(digest, files, s, r, rec);
    CanonicalUntouched(digest, files, r, rec);
    CommitAnswers(norm, s, req);
    HeadsContent(norm, s, r);
    hide Matches, GoodDigest, WithVersion, WithRef, CanonicalPath, Sound;
    if r in s.heads {
      var old_ := Stored(s, r)[s.heads[r]];
      assert SameFile(files, Crashed(norm, digest, files, s, req), CanonicalPath(r));
      assert files[CanonicalPath(r)] == CanonicalFile(old_.recipe.doc);
    }
  }

  lemma HeadsContent(norm: Normalizer, s: Store, r: string)
    requires Sound(norm, s)
    ensures r in s.heads ==>
            s.heads[r] in Stored(s, r) && Stored(s, r)[s.heads[r]].contentHash == Stored(s, r)[s.heads[r]].recipe.doc
  {
    assert r in s.versions ==> RecordKept(norm, s.versions[r], r);
  }
}
