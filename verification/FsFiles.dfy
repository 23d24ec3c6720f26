/** Which store a directory tree holds. */
module FsFiles {
  import opened Wrappers
  import opened Text
  import opened Versions
  import opened StoreSpec
  import opened FsPaths

  /** What a file of the store holds; JSON documents are their values. */
  datatype File =
    | RecordFile(record: Record)
    | RefFile(text: string)
    | HeadFile(ref: string)
    | ConfigFile(recipeId: string)
    | CanonicalFile(doc: Doc)
    | CookFile(recipe: Recipe)
    | ReadmeFile(recipe: Recipe)

  type Tree = map<Path, File>

  type Digest = VersionId -> string

  /** Digests tell ids apart and are read back from a text file unchanged. */
  ghost predicate GoodDigest(digest: Digest) {
    && (forall v, w :: digest(v) == digest(w) ==> v == w)
    && (forall v :: digest(v) != "" && Trimmed(digest(v)))
  }

  function IdOf(digest: Digest, v: VersionId): string {
    IdText(digest(v))
  }

  /** `_get_version`: the record in the version's file, if there is one. */
  function ReadRecord(files: Tree, r: string, version: string): Option<Record> {
    var p := VersionPath(r, version);
    if p in files && files[p].RecordFile? then Some(files[p].record) else None
  }

  function Lookup(s: Store, r: string, v: VersionId): Option<Record> {
    if v in Stored(s, r) then Some(Stored(s, r)[v]) else None
  }

  // ----- the tree holds the store ----------------------------------------------------------

  /** The version's file holds its record, or neither exists. */
  predicate VersionMatches(digest: Digest, files: Tree, s: Store, r: string, v: VersionId) {
    var p := VersionPath(r, IdOf(digest, v));
    if v in Stored(s, r) then p in files && files[p] == RecordFile(Stored(s, r)[v]) else p !in files
  }

  ghost predicate VersionsMatch(digest: Digest, files: Tree, s: Store) {
    forall r, v :: VersionMatches(digest, files, s, r, v)
  }

  ghost predicate RefsMatch(digest: Digest, files: Tree, s: Store) {
    forall r :: if r in s.heads
      then RefPath(r) in files && files[RefPath(r)] == RefFile(IdOf(digest, s.heads[r]) + "\n")
                else RefPath(r) !in files
  }

  ghost predicate HasMeta(files: Tree, r: string) {
    exists p :: p in files && InMeta(p, r)
  }

  /** A recipe has a metadata directory exactly if it has versions or a head. */
  ghost predicate DirsMatch(files: Tree, s: Store) {
    forall r :: HasMeta(files, r) <==> r in s.versions || r in s.heads
  }

  ghost predicate Matches(digest: Digest, files: Tree, s: Store) {
    VersionsMatch(digest, files, s) && RefsMatch(digest, files, s) && DirsMatch(files, s)
  }

  /** `recipe.json` holds the canonical bytes of every head. */
  ghost predicate CanonicalCurrent(files: Tree, s: Store) {
    forall r :: r in s.heads && s.heads[r] in Stored(s, r) ==>
                  CanonicalPath(r) in files
                    && files[CanonicalPath(r)] == CanonicalFile(Stored(s, r)[s.heads[r]].recipe.doc)
  }

  // ----- one file written ----------------------------------------------------------------------

  lemma DirsAfter(files: Tree, p: Path, f: File, r: string)
    ensures HasMeta(files[p := f], r) <==> HasMeta(files, r) || InMeta(p, r)
  {
    if HasMeta(files, r) {
      var q :| q in files && InMeta(q, r);
      assert q in files[p := f];
    }
    if InMeta(p, r) {
      assert p in files[p := f];
    }
  }

  /** Writing a version file puts the version. */
  lemma {:induction false} VersionWritten(digest: Digest, files: Tree, s: Store, r: string, rec: Record)
    requires GoodDigest(digest) && Matches(digest, files, s)
    ensures Matches(digest, files[VersionPath(r, IdOf(digest, rec.versionId)) := RecordFile(rec)], Put(s, r, rec))
  {
    hide VersionPath, RefPath, InMeta, HasMeta, IdText;
    var p := VersionPath(r, IdOf(digest, rec.versionId));
    var after, t := files[p := RecordFile(rec)], Put(s, r, rec);
    forall q, v ensures VersionMatches(digest, after, t, q, v) {
      VersionPathInjective(r, digest(rec.versionId), q, digest(v));
      assert VersionMatches(digest, files, s, q, v);
    }
    forall q ensures RefPath(q) != p {
      PathsDisjoint(r, IdOf(digest, rec.versionId), q);
    }
    forall q ensures HasMeta(after, q) <==> q in t.versions || q in t.heads {
      DirsAfter(files, p, RecordFile(rec), q);
      MetaPaths(r, IdOf(digest, rec.versionId), q);
    }
  }

  /** Writing the ref file moves the head. */
  lemma {:induction false} RefWritten(digest: Digest, files: Tree, s: Store, r: string, v: VersionId)
    requires Matches(digest, files, s)
    ensures Matches(digest, files[RefPath(r) := RefFile(IdOf(digest, v) + "\n")], WriteHead(s, r, v))
  {
    hide VersionPath, RefPath, InMeta, HasMeta, IdText;
    var f := RefFile(IdOf(digest, v) + "\n");
    var after, t := files[RefPath(r) := f], WriteHead(s, r, v);
    forall q, w ensures VersionMatches(digest, after, t, q, w) {
      PathsDisjoint(q, IdOf(digest, w), r);
      assert VersionMatches(digest, files, s, q, w);
    }
    assert VersionsMatch(digest, after, t);
    forall q ensures RefPath(q) == RefPath(r) <==> q == r {
      PathsDisjoint(q, "", r);
    }
    assert RefsMatch(digest, after, t);
    forall q ensures HasMeta(after, q) <==> q in t.versions || q in t.heads {
      DirsAfter(files, RefPath(r), f, q);
      MetaPaths(r, "", q);
    }
  }

  predicate IsSideFile(p: Path, r: string) {
    p in [HeadPath(r), ConfigPath(r), CanonicalPath(r), CookPath(r), ReadmePath(r)]
  }

  /** Writing any other file of a recipe that has a directory changes nothing in the store. */
  lemma SideFileWritten(digest: Digest, files: Tree, s: Store, r: string, p: Path, f: File)
    requires Matches(digest, files, s) && IsSideFile(p, r) && HasMeta(files, r)
    ensures Matches(digest, files[p := f], s) && HasMeta(files[p := f], r)
  {
    var after := files[p := f];
    forall q, v ensures VersionMatches(digest, after, s, q, v) {
      PathsDisjoint(q, IdOf(digest, v), r);
      assert VersionMatches(digest, files, s, q, v);
    }
    forall q ensures RefPath(q) != p {
      PathsDisjoint(q, "", r);
    }
    forall q ensures HasMeta(files[p := f], q) <==> HasMeta(files, q) {
      DirsAfter(files, p, f, q);
      MetaPaths(r, "", q);
    }
    hide VersionPath, RefPath, InMeta, HasMeta, IdText, IsSideFile;
  }

  // ----- reading back ------------------------------------------------------------------------------

  lemma ReadsStored(digest: Digest, files: Tree, s: Store, r: string, v: VersionId)
    requires VersionsMatch(digest, files, s)
    ensures ReadRecord(files, r, IdOf(digest, v)) == Lookup(s, r, v)
  {
    hide VersionPath, IdText;
    var p := VersionPath(r, IdOf(digest, v));
    assert VersionMatches(digest, files, s, r, v);
  }

  /** The ref file's text, stripped, is the version id. */
  lemma RefText(digest: Digest, v: VersionId)
    requires GoodDigest(digest)
    ensures Strip(IdOf(digest, v) + "\n") == IdOf(digest, v) != ""
  {
    var id := IdOf(digest, v);
    var d := digest(v);
    assert id[0] == 's' && id[|id| - 1] == d[|d| - 1];
    var t := id + "\n";
    assert t[0] == 's' && SpaceSpan(t) == 0 && t[0..] == t;
    assert t[..|t| - 1] == id && IsSpace('\n');
    assert StripRight(t) == StripRight(id) == id;
  }

  /** The recipes with a metadata directory. */
  function MetaIds(files: Tree): set<string> {
    set p | p in files && |p| >= 2 && p[1] == ".snapcook" :: p[0]
  }

  lemma MetaIdsAre(files: Tree, s: Store)
    requires DirsMatch(files, s)
    ensures MetaIds(files) == s.versions.Keys + s.heads.Keys
  {
    forall r ensures r in MetaIds(files) <==> HasMeta(files, r) {
      if HasMeta(files, r) {
        var p :| p in files && InMeta(p, r);
      }
    }
  }
}
