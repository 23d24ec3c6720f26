/**
 Version records and their identity. A hash is a free term: the content hash is the canonical document itself,
 and a version id is the header it hashes, with the parents' ids inside it.
 */
module Versions {
  import opened Wrappers

  /** What canonicalisation keeps of a recipe. */
  datatype Doc = Doc(id: string, title: string, body: string)

  /** A recipe: its canonical document and everything canonicalisation drops. */
  datatype Recipe = Recipe(doc: Doc, draft: string)

  /** The header a version id hashes. The parents are sorted before hashing, so only their multiset counts. */
  datatype VersionId = VersionId(
    schema: int, content: Doc, parents: multiset<VersionId>, author: string, createdAt: string, message: string,
    origin: string)

  datatype Record = Record(
    versionId: VersionId, contentHash: Doc, schema: int, parents: seq<VersionId>, author: string, createdAt: string,
    message: string, origin: string, recipe: Recipe)

  const FORMAT_VERSION := 1

  /** What a caller passes to `commit`. */
  datatype Request = Request(
    recipe: Recipe, author: string, createdAt: string, message: string, origin: string, parents: Option<seq<VersionId>>)

  type Normalizer = string -> string

  /** `build_version_record`: author and message are normalised in the id and kept as given in the record. */
  function BuildRecord(norm: Normalizer, req: Request, parents: seq<VersionId>): Record {
    Record(VersionId(FORMAT_VERSION, req.recipe.doc, multiset(parents), norm(req.author), req.createdAt,
                     norm(req.message), req.origin),
           req.recipe.doc, FORMAT_VERSION, parents, req.author, req.createdAt, req.message, req.origin, req.recipe)
  }

  /** The record's own fields hash to its ids. */
  predicate WellHashed(norm: Normalizer, r: Record) {
    && r.contentHash == r.recipe.doc
    && r.versionId
          == VersionId(r.schema, r.contentHash, multiset(r.parents), norm(r.author), r.createdAt, norm(r.message),
                       r.origin)
  }

  lemma BuiltIsWellHashed(norm: Normalizer, req: Request, parents: seq<VersionId>)
    ensures WellHashed(norm, BuildRecord(norm, req, parents))
  {
  }

  /** Two records with the same id agree in content, parents, time, origin, and up to spelling in author and message. */
  lemma {:induction false} SameIdSameContent(norm: Normalizer, r: Record, t: Record)
    requires WellHashed(norm, r) && WellHashed(norm, t)
    ensures r.versionId == t.versionId <==>
              && r.contentHash == t.contentHash && multiset(r.parents) == multiset(t.parents)
              && r.createdAt == t.createdAt
              && r.origin == t.origin && r.schema == t.schema && norm(r.author) == norm(t.author)
              && norm(r.message) == norm(t.message)
  {
  }

  // ----- lineage -------------------------------------------------------------------------

  /** The ids lead from child to parent. */
  predicate IsLineage(path: seq<VersionId>) {
    forall i :: 0 <= i < |path| - 1 ==> path[i + 1] in path[i].parents
  }

  /** No version is its own ancestor: an id contains its parents' ids. */
  lemma {:induction false} NoLineageCycle(path: seq<VersionId>)
    requires |path| > 1 && IsLineage(path)
    ensures path[0] != path[|path| - 1]
    decreases path[0]
  {
    if path[0] == path[|path| - 1] {
      assert path[1] in path[0].parents;
      var rotated := path[1..] + [path[1]];
      forall i | 0 <= i < |rotated| - 1 ensures rotated[i + 1] in rotated[i].parents {
        if i + 1 < |path| - 1 {
          assert rotated[i] == path[i + 1] && rotated[i + 1] == path[i + 2];
        }
      }
      NoLineageCycle(rotated);
    }
  }
}
