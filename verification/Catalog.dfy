/** The catalog: rows derived from the store. What each projection does to the table, and the code that does it. */
module Catalog {
  import opened Wrappers
  import opened Versions
  import opened StoreSpec
  import opened IdOrder
  import opened FilesystemStores

  datatype VersionRow = VersionRow(
    versionId: VersionId, contentHash: Doc, parents: seq<VersionId>, origin: string, author: string, message: string,
    createdAt: int)

  datatype Row = Row(
    slug: string, owner: string, title: string, body: string, headVersion: VersionId, headContent: Doc,
    createdAt: int, updatedAt: int, versions: seq<VersionRow>)

  /** The recipe rows by recipe id. */
  type Table = map<string, Row>

  /** What the projection asks of its surroundings. */
  datatype CatalogEnv = CatalogEnv(slugify: string -> string, lower: string -> string,
                                   ownerFor: string -> Option<string>,
                                   parseTime: string -> int)

  datatype CatalogError =
    | StoreFailed(error: StoreError)
    | NoHistory(recipeId: string)
    | SlugTaken(slug: string)
    | UnknownRecipe(recipeId: string)
    | UnknownOwner(author: string)

  // ----- slugs ----------------------------------------------------------------------------

  function BaseSlug(env: CatalogEnv, title: string): string {
    var base := env.slugify(title);
    if base == "" then "recipe" else base
  }

  /** The part after the last underscore. */
  function LastPart(s: string): string {
    if s == "" || s[|s| - 1] == '_' then "" else LastPart(s[..|s| - 1]) + [s[|s| - 1]]
  }

  function SuffixedSlug(env: CatalogEnv, base: string, recipeId: string): string {
    var part := LastPart(recipeId);
    base + "-" + env.lower(if |part| <= 8 then part else part[..8])
  }

  /** A row of another recipe has the slug. */
  predicate Taken(rows: Table, slug: string, recipeId: string) {
    exists q :: q in rows && q != recipeId && rows[q].slug == slug
  }

  /** `_unique_slug`. */
  function UniqueSlug(env: CatalogEnv, rows: Table, doc: Doc): string {
    var base := BaseSlug(env, doc.title);
    if Taken(rows, base, doc.id) then SuffixedSlug(env, base, doc.id) else base
  }

  // ----- rows ----------------------------------------------------------------------------------

  function VersionRowFor(env: CatalogEnv, rec: Record): VersionRow {
    VersionRow(rec.versionId, rec.contentHash, rec.parents, rec.origin, rec.author, rec.message,
               env.parseTime(rec.createdAt))
  }

  function RowFor(env: CatalogEnv, history: seq<Record>, owner: string, slug: string): Row
    requires history != []
  {
    var head := history[0];
    Row(slug, owner, head.recipe.doc.title, head.recipe.doc.body, head.versionId, head.contentHash,
        env.parseTime(history[|history| - 1].createdAt), env.parseTime(head.createdAt),
        seq(|history|, k requires 0 <= k < |history| => VersionRowFor(env, history[k])))
  }

  /** The table after an operation, and the error that ended it, if any. */
  datatype Progress = Progress(rows: Table, error: Option<CatalogError>)

  /** `project_recipe`: upsert by the id of the newest record's recipe; the slug column is unique. */
  function ProjectHistory(env: CatalogEnv, rows: Table, recipeId: string, history: Result<seq<Record>, StoreError>,
                          owner: string): Progress {
    match history
    case Failure(e) => Progress(rows, Some(StoreFailed(e)))
    case Success(records) =>
      if records == [] then Progress(rows, Some(NoHistory(recipeId)))
      else
        var doc := records[0].recipe.doc;
        var slug := UniqueSlug(env, rows, doc);
        if Taken(rows, slug, doc.id) then Progress(rows, Some(SlugTaken(slug)))
        else Progress(rows[doc.id := RowFor(env, records, owner, slug)], None)
  }

  /** One round of the loop of `project_store`: recipes without a head or a known owner are passed over. */
  function ProjectOne(env: CatalogEnv, s: Store, rows: Table, id: string): Progress {
    match HeadOf(s, id)
    case Failure(e) => Progress(rows, Some(StoreFailed(e)))
    case Success(None) => Progress(rows, None)
    case Success(Some(head)) =>
      match env.ownerFor(head.author)
      case None => Progress(rows, None)
      case Some(owner) => ProjectHistory(env, rows, id, History(s, id), owner)
  }

  /** The loop over a list of ids; an error ends it with the table as it then is. */
  function ProjectIds(env: CatalogEnv, s: Store, rows: Table, ids: seq<string>): Progress {
    if ids == [] then Progress(rows, None)
    else
      var before := ProjectIds(env, s, rows, ids[..|ids| - 1]);
      if before.error.Some? then before else ProjectOne(env, s, before.rows, ids[|ids| - 1])
  }

  /** The recipe has a head whose author is a known user. */
  predicate Owned(env: CatalogEnv, s: Store, id: string) {
    var head := HeadOf(s, id);
    head.Success? && head.value.Some? && env.ownerFor(head.value.value.author).Some?
  }

  predicate Orphaned(env: CatalogEnv, s: Store, id: string) {
    var head := HeadOf(s, id);
    head.Success? && head.value.Some? && env.ownerFor(head.value.value.author).None?
  }

  function CountOwned(env: CatalogEnv, s: Store, ids: seq<string>): nat {
    if ids == [] then 0
    else CountOwned(env, s, ids[..|ids| - 1]) + if Owned(env, s, ids[|ids| - 1]) then 1 else 0
  }

  function SkippedIds(env: CatalogEnv, s: Store, ids: seq<string>): seq<string> {
    if ids == [] then []
    else SkippedIds(env, s, ids[..|ids| - 1]) + if Orphaned(env, s, ids[|ids| - 1]) then [ids[|ids| - 1]] else []
  }

  // ----- the code --------------------------------------------------------------------------------

  class CatalogTable {
    const env: CatalogEnv
    var rows: Table

    constructor (env: CatalogEnv)
      ensures this.env == env && rows == map[]
    {
      this.env := env;
      rows := map[];
    }

    method ProjectRecipe(store: FilesystemStore, recipeId: string, owner: string) returns (error: Option<CatalogError>)
      requires store.Valid()
      modifies this
      ensures Progress(rows, error) == ProjectHistory(env, old(rows), recipeId, History(store.view, recipeId), owner)
    {
      var history := store.ReadHistory(recipeId);
      if history.Failure? {
        return Some(StoreFailed(history.error));
      }
      if history.value == [] {
        return Some(NoHistory(recipeId));
      }
      var head := history.value[0];
      var slug := UniqueSlug(env, rows, head.recipe.doc);
      if Taken(rows, slug, head.recipe.doc.id) {
        return Some(SlugTaken(slug));
      }
      rows := rows[head.recipe.doc.id := RowFor(env, history.value, owner, slug)];
      return None;
    }

    /** `project_store`, over the ids it lists. */
    method ProjectStore(store: FilesystemStore)
        returns (error: Option<CatalogError>, projected: nat, skipped: seq<string>, ghost ids: seq<string>)
      requires store.Valid()
      modifies this
      ensures Sorts(ids, store.view.versions.Keys + store.view.heads.Keys)
      ensures Progress(rows, error) == ProjectIds(env, store.view, old(rows), ids)
      ensures error.None? ==>
              projected == CountOwned(env, store.view, ids) && skipped == SkippedIds(env, store.view, ids)
    {
      hide ProjectIds, ProjectOne, CountOwned, SkippedIds, Owned, Orphaned, Sorts;
      var listed := store.ListRecipeIds();
      ids := listed;
      error, projected, skipped := None, 0, [];
      LoopStarts(env, store.view, rows, listed);
      for k := 0 to |listed|
        invariant error.None? && LoopAt(env, store.view, old(rows), listed, k, rows, projected, skipped)
      {
        ghost var before := rows;
        var owned, orphaned;
        error, owned, orphaned := ProjectListed(store, listed[k]);
        ErrorEnds(env, store.view, old(rows), listed, k, before, Progress(rows, error));
        if error.Some? {
          return;
        }
        CountsStep(env, store.view, listed, k);
        if owned {
          projected := projected + 1;
        } else if orphaned {
          skipped := skipped + [listed[k]];
        }
      }
      assert listed[..|listed|] == listed;
    }

    /** The body of that loop for one id. */
    method ProjectListed(store: FilesystemStore, id: string)
        returns (error: Option<CatalogError>, owned: bool, orphaned: bool)
      requires store.Valid()
      modifies this
      ensures Progress(rows, error) == ProjectOne(env, store.view, old(rows), id)
      ensures error.None? ==> owned == Owned(env, store.view, id) && orphaned == Orphaned(env, store.view, id)
    {
      owned, orphaned := false, false;
      var head := store.Head(id);
      if head.Failure? {
        return Some(StoreFailed(head.error)), false, false;
      }
      if head.value.None? {
        return None, false, false;
      }
      var owner := env.ownerFor(head.value.value.author);
      if owner.None? {
        return None, false, true;
      }
      error := ProjectRecipe(store, id, owner.value);
      owned := true;
    }

    /** `_reindex_full`: truncate and project the whole store in one transaction. */
    method ReindexFull(store: FilesystemStore) returns (error: Option<CatalogError>, ghost ids: seq<string>)
      requires store.Valid()
      modifies this
      ensures Sorts(ids, store.view.versions.Keys + store.view.heads.Keys)
      ensures var p := ProjectIds(env, store.view, map[], ids);
              error == p.error && rows == if error.None? then p.rows else old(rows)
    {
      var saved := rows;
      rows := map[];
      var projected, skipped;
      error, projected, skipped, ids := ProjectStore(store);
      if error.Some? {
        rows := saved;
      }
    }

    /** `_reindex_one`. */
    method ReindexOne(store: FilesystemStore, id: string) returns (error: Option<CatalogError>)
      requires store.Valid()
      modifies this
      ensures match HeadOf(store.view, id)
              case Failure(e) => rows == old(rows) && error == Some(StoreFailed(e))
              case Success(None) => rows == old(rows) && error == Some(UnknownRecipe(id))
              case Success(Some(head)) =>
                if Owned(env, store.view, id) then Progress(rows, error) == ProjectOne(env, store.view, old(rows), id)
                else rows == old(rows) && error == Some(UnknownOwner(head.author))
    {
      var head := store.Head(id);
      if head.Failure? {
        return Some(StoreFailed(head.error));
      }
      if head.value.None? {
        return Some(UnknownRecipe(id));
      }
      var owner := env.ownerFor(head.value.value.author);
      if owner.None? {
        return Some(UnknownOwner(head.value.value.author));
      }
      error := ProjectRecipe(store, id, owner.value);
    }
  }

  /** The first k ids are projected, counted and skipped. */
  ghost predicate LoopAt(env: CatalogEnv, s: Store, start: Table, ids: seq<string>, k: nat, rows: Table, projected: nat,
                         skipped: seq<string>)
    requires k <= |ids|
  {
    && ProjectIds(env, s, start, ids[..k]) == Progress(rows, None)
    && projected == CountOwned(env, s, ids[..k]) && skipped == SkippedIds(env, s, ids[..k])
  }

  lemma LoopStarts(env: CatalogEnv, s: Store, start: Table, ids: seq<string>)
    ensures LoopAt(env, s, start, ids, 0, start, 0, [])
  {
  }

  lemma CountsStep(env: CatalogEnv, s: Store, ids: seq<string>, k: nat)
    requires k < |ids|
    ensures CountOwned(env, s, ids[..k + 1]) == CountOwned(env, s, ids[..k]) + if Owned(env, s, ids[k]) then 1 else 0
    ensures SkippedIds(env, s, ids[..k + 1])
         == if Orphaned(env, s, ids[k]) then SkippedIds(env, s, ids[..k]) + [ids[k]] else SkippedIds(env, s, ids[..k])
    ensures !(Owned(env, s, ids[k]) && Orphaned(env, s, ids[k]))
  {
    assert ids[..k + 1][..k] == ids[..k];
  }

  lemma ErrorEnds(env: CatalogEnv, s: Store, rows: Table, ids: seq<string>, k: nat, before: Table, after: Progress)
    requires k < |ids| && ProjectIds(env, s, rows, ids[..k]) == Progress(before, None)
    requires after == ProjectOne(env, s, before, ids[k])
    ensures ProjectIds(env, s, rows, ids[..k + 1]) == after
    ensures after.error.Some? ==> ProjectIds(env, s, rows, ids) == after
  {
    assert ids[..k + 1][..k] == ids[..k];
    if after.error.Some? {
      ErrorStays(env, s, rows, ids, k + 1);
    }
  }

  lemma {:induction false} ErrorStays(env: CatalogEnv, s: Store, rows: Table, ids: seq<string>, k: nat)
    requires k <= |ids| && ProjectIds(env, s, rows, ids[..k]).error.Some?
    ensures ProjectIds(env, s, rows, ids) == ProjectIds(env, s, rows, ids[..k])
    decreases |ids|
  {
    if k < |ids| {
      assert ids[..|ids| - 1][..k] == ids[..k];
      ErrorStays(env, s, rows, ids[..|ids| - 1], k);
    } else {
      assert ids[..k] == ids;
    }
  }
}
