/** The in-memory backend: two dictionaries. Every operation is the store specification on them. */
module MemoryStores {
  import opened Wrappers
  import opened Versions
  import opened StoreSpec
  import opened StoreBase
  import opened IdOrder

  class MemoryStore {
    const norm: Normalizer
    var versions: map<string, map<VersionId, Record>>
    var heads: map<string, VersionId>

    constructor (norm: Normalizer)
      ensures this.norm == norm && View() == EMPTY
    {
      this.norm := norm;
      versions, heads := map[], map[];
    }

    function View(): Store
      reads this
    {
      Store(versions, heads)
    }

    method PutVersion(r: string, rec: Record)
      modifies this`versions
      ensures View() == Put(old(View()), r, rec)
    {
      if r !in versions {
        versions := versions[r := map[]];
      }
      versions := versions[r := versions[r][rec.versionId := rec]];
    }

    method GetVersion(r: string, v: VersionId) returns (rec: Option<Record>)
      ensures rec == if v in Stored(View(), r) then Some(Stored(View(), r)[v]) else None
    {
      rec := if r in versions && v in versions[r] then Some(versions[r][v]) else None;
    }

    method ReadHeadRef(r: string) returns (ref: Option<VersionId>)
      ensures ref == if r in View().heads then Some(View().heads[r]) else None
    {
      ref := if r in heads then Some(heads[r]) else None;
    }

    method WriteHeadRef(r: string, v: VersionId)
      modifies this`heads
      ensures View() == WriteHead(old(View()), r, v)
    {
      heads := heads[r := v];
    }

    method ListRecipeIds() returns (ids: seq<string>)
      ensures Sorts(ids, View().heads.Keys)
    {
      ids := SortIds(heads.Keys);
    }

    method Head(r: string) returns (head: Result<Option<Record>, StoreError>)
      ensures head == HeadOf(View(), r)
    {
      var ref := ReadHeadRef(r);
      if ref.None? {
        return Success(None);
      }
      var record := GetVersion(r, ref.value);
      if record.None? {
        return Failure(MissingVersion(r));
      }
      return Success(record);
    }

    /** `head_recipe`: the content at the head, or an error when there is no such recipe. */
    method HeadRecipe(r: string) returns (recipe: Result<Recipe, StoreError>)
      ensures match HeadOf(View(), r)
              case Failure(e) => recipe == Failure(e)
              case Success(None) => recipe == Failure(NoSuchRecipe(r))
              case Success(Some(rec)) => recipe == Success(rec.recipe)
    {
      var head :- Head(r);
      if head.None? {
        return Failure(NoSuchRecipe(r));
      }
      return Success(head.value.recipe);
    }

    /** `commit`. */
    method CommitRecipe(req: Request) returns (result: Result<Record, StoreError>)
      modifies this
      ensures (result, View()) == Commit(norm, old(View()), req)
    {
      var r := req.recipe.doc.id;
      var head :- Head(r);
      if Unchanged(req, head) {
        return Success(head.value);
      }
      var record := BuildRecord(norm, req, ParentsFor(req, head));
      PutVersion(r, record);
      WriteHeadRef(r, record.versionId);
      return Success(record);
    }

    /** `history`. */
    method ReadHistory(r: string) returns (records: Result<seq<Record>, StoreError>)
      ensures records == History(View(), r)
    {
      var head :- Head(r);
      if head.None? {
        return Success([]);
      }
      var store := Stored(View(), r);
      var walk := WalkVersions(v => if v in store then Some(store[v]) else None, store, head.value.versionId);
      return Success(NewestFirst(walk));
    }
  }
}
