/** Sequential commits without explicit parents: one chain per recipe, and the history read back from it. */
module Lineage {
  import opened Wrappers
  import opened Text
  import opened Versions
  import opened StoreSpec
  import opened HistoryLaws

  // ----- chains ------------------------------------------------------------------------------

  predicate ParentIsBefore(chain: seq<Record>, i: nat)
    requires i < |chain|
  {
    chain[i].parents == if i == 0 then [] else [chain[i - 1].versionId]
  }

  /** The first record has no parents, every other has the one before it. */
  predicate Linked(chain: seq<Record>) {
    forall i :: 0 <= i < |chain| ==> ParentIsBefore(chain, i)
  }

  ghost predicate ChainRecords(norm: Normalizer, chain: seq<Record>) {
    Linked(chain) && forall i :: 0 <= i < |chain| ==> WellHashed(norm, chain[i])
  }

  /** The records are exactly what is stored, each under its id. */
  ghost predicate Holds(store: map<VersionId, Record>, chain: seq<Record>) {
    && (forall i :: 0 <= i < |chain| ==> chain[i].versionId in store && store[chain[i].versionId] == chain[i])
    && (forall v :: v in store ==> HasId(chain, v))
  }

  /** The chain is everything stored, oldest first. */
  ghost predicate IsChain(norm: Normalizer, store: map<VersionId, Record>, chain: seq<Record>) {
    ChainRecords(norm, chain) && Holds(store, chain)
  }

  lemma ParentInId(norm: Normalizer, chain: seq<Record>, j: nat)
    requires Linked(chain) && 0 < j < |chain| && WellHashed(norm, chain[j])
    ensures chain[j - 1].versionId in chain[j].versionId.parents
  {
    assert ParentIsBefore(chain, j);
  }

  lemma {:induction false} ChainPath(norm: Normalizer, chain: seq<Record>, i: nat, j: nat)
      returns (path: seq<VersionId>)
    requires ChainRecords(norm, chain) && i <= j < |chain|
    ensures IsLineage(path) && |path| == j - i + 1 && path[0] == chain[j].versionId && path[j - i] == chain[i].versionId
  {
    if i == j {
      path := [chain[j].versionId];
    } else {
      var rest := ChainPath(norm, chain, i, j - 1);
      ParentInId(norm, chain, j);
      hide ChainRecords;
      path := [chain[j].versionId] + rest;
    }
  }

  lemma ChainDistinct(norm: Normalizer, chain: seq<Record>)
    requires ChainRecords(norm, chain)
    ensures DistinctVersions(chain)
  {
    hide ChainRecords;
    forall i, j | 0 <= i < j < |chain| ensures chain[i].versionId != chain[j].versionId {
      var path := ChainPath(norm, chain, i, j);
      NoLineageCycle(path);
    }
  }

  /** A record whose parent is the end of the chain is none of the chain's: its id is fresh. */
  lemma {:induction false} NextIsFresh(norm: Normalizer, store: map<VersionId, Record>, chain: seq<Record>, rec: Record)
    requires IsChain(norm, store, chain) && WellHashed(norm, rec)
    requires rec.parents == if chain == [] then [] else [chain[|chain| - 1].versionId]
    ensures rec.versionId !in store && IsChain(norm, store[rec.versionId := rec], chain + [rec])
  {
    hide WellHashed, Holds;
    ChainRecordsSnoc(norm, chain, rec);
    hide ChainRecords;
    ChainDistinct(norm, chain + [rec]);
    FreshHolds(store, chain, rec);
  }

  lemma ChainRecordsSnoc(norm: Normalizer, chain: seq<Record>, rec: Record)
    requires ChainRecords(norm, chain) && WellHashed(norm, rec)
    requires rec.parents == if chain == [] then [] else [chain[|chain| - 1].versionId]
    ensures ChainRecords(norm, chain + [rec])
  {
    var longer := chain + [rec];
    forall i | 0 <= i < |longer| ensures WellHashed(norm, longer[i]) && ParentIsBefore(longer, i) {
      if i < |chain| {
        assert ParentIsBefore(chain, i);
        assert longer[i] == chain[i];
      }
      if i > 0 {
        assert longer[i - 1] == chain[i - 1];
      }
    }
    hide WellHashed, ParentIsBefore;
  }

  lemma FreshHolds(store: map<VersionId, Record>, chain: seq<Record>, rec: Record)
    requires Holds(store, chain) && DistinctVersions(chain + [rec])
    ensures rec.versionId !in store && Holds(store[rec.versionId := rec], chain + [rec])
  {
    var longer := chain + [rec];
    HasIdSnoc(chain, rec);
    forall k | 0 <= k < |chain| ensures chain[k].versionId != rec.versionId {
      assert longer[k] == chain[k] && longer[|chain|] == rec;
    }
    assert !HasId(chain, rec.versionId);
    hide HasId;
  }

  lemma HasIdSnoc(recs: seq<Record>, rec: Record)
    ensures forall v :: HasId(recs + [rec], v) <==> HasId(recs, v) || v == rec.versionId
  {
    var longer := recs + [rec];
    assert longer[|recs|] == rec;
    forall v ensures HasId(longer, v) <==> HasId(recs, v) || v == rec.versionId {
      if HasId(recs, v) {
        var k :| 0 <= k < |recs| && recs[k].versionId == v;
        assert longer[k].versionId == v;
      }
    }
  }

  // ----- runs of commits --------------------------------------------------------------------------

  /** The store after committing the requests one after the other. */
  function RunAll(norm: Normalizer, reqs: seq<Request>): Store {
    if reqs == [] then EMPTY else Commit(norm, RunAll(norm, reqs[..|reqs| - 1]), reqs[|reqs| - 1]).1
  }

  /** The requested contents of one recipe, in order. */
  function Contents(reqs: seq<Request>, r: string): seq<Doc> {
    if reqs == [] then []
    else
      var last := reqs[|reqs| - 1].recipe.doc;
      Contents(reqs[..|reqs| - 1], r) + if last.id == r then [last] else []
  }

  /** Immediate repetitions dropped. */
  function StutterFree(docs: seq<Doc>): seq<Doc> {
    if docs == [] then []
    else
      var init, last := StutterFree(docs[..|docs| - 1]), docs[|docs| - 1];
      if init != [] && init[|init| - 1] == last then init else init + [last]
  }

  function Docs(chain: seq<Record>): (docs: seq<Doc>)
    ensures |docs| == |chain|
  {
    seq(|chain|, k requires 0 <= k < |chain| => chain[k].contentHash)
  }

  /** The chain is what is stored for r, and the head is its last record. */
  ghost predicate ChainIn(norm: Normalizer, s: Store, r: string, chain: seq<Record>) {
    && IsChain(norm, Stored(s, r), chain)
    && (r in s.heads <==> chain != [])
    && (chain != [] ==> s.heads[r] == chain[|chain| - 1].versionId)
  }

  /** The record is of the request's content, author and time. */
  predicate Records(req: Request, rec: Record) {
    && rec.contentHash == req.recipe.doc && rec.recipe == req.recipe && rec.author == req.author
    && rec.createdAt == req.createdAt && rec.message == req.message && rec.origin == req.origin
  }

  predicate Recorded(reqs: seq<Request>, rec: Record) {
    exists q :: 0 <= q < |reqs| && Records(reqs[q], rec)
  }

  /** Every record is of some request of the run. */
  predicate Attributed(reqs: seq<Request>, chain: seq<Record>) {
    forall k :: 0 <= k < |chain| ==> Recorded(reqs, chain[k])
  }

  lemma AttributedMore(reqs: seq<Request>, chain: seq<Record>, after: seq<Record>)
    requires reqs != [] && Attributed(reqs[..|reqs| - 1], chain) && |chain| <= |after| && after[..|chain|] == chain
    requires |after| <= |chain| + 1 && (|after| > |chain| ==> Records(reqs[|reqs| - 1], after[|chain|]))
    ensures Attributed(reqs, after)
  {
    hide Records;
    forall k | 0 <= k < |after| ensures Recorded(reqs, after[k]) {
      if k < |chain| {
        assert Recorded(reqs[..|reqs| - 1], chain[k]);
        var q :| 0 <= q < |reqs| - 1 && Records(reqs[..|reqs| - 1][q], chain[k]);
        assert Records(reqs[q], after[k]);
      } else {
        assert Records(reqs[|reqs| - 1], after[k]);
      }
    }
  }

  lemma CommitExtends(norm: Normalizer, s: Store, r: string, chain: seq<Record>, req: Request)
      returns (after: seq<Record>)
    requires ChainIn(norm, s, r, chain) && req.parents.None? && req.recipe.doc.id == r
    ensures ChainIn(norm, Commit(norm, s, req).1, r, after)
    ensures chain != [] && chain[|chain| - 1].contentHash == req.recipe.doc ==> after == chain
    ensures !(chain != [] && chain[|chain| - 1].contentHash == req.recipe.doc) ==>
              && |after| == |chain| + 1 && after[..|chain|] == chain && Records(req, after[|chain|])
              && after[|chain|].versionId !in Stored(s, r)
  {
    if chain != [] && chain[|chain| - 1].contentHash == req.recipe.doc {
      after := chain;
    } else {
      var head := if chain == [] then None else Some(chain[|chain| - 1]);
      assert HeadOf(s, r) == Success(head);
      var rec := BuildRecord(norm, req, ParentsFor(req, head));
      BuiltIsWellHashed(norm, req, rec.parents);
      NextIsFresh(norm, Stored(s, r), chain, rec);
      after := chain + [rec];
      assert after[..|chain|] == chain;
    }
  }

  lemma OtherRecipe(norm: Normalizer, s: Store, r: string, chain: seq<Record>, req: Request)
    requires ChainIn(norm, s, r, chain) && req.recipe.doc.id != r
    ensures ChainIn(norm, Commit(norm, s, req).1, r, chain)
  {
    hide IsChain;
  }

  lemma DocsSnoc(chain: seq<Record>, after: seq<Record>)
    requires |after| == |chain| + 1 && after[..|chain|] == chain
    ensures Docs(after) == Docs(chain) + [after[|chain|].contentHash]
  {
    assert forall k :: 0 <= k < |chain| ==> after[k] == after[..|chain|][k];
  }

  /** The chain is stored, says what was asked for without repetitions, and every record is of some request. */
  ghost predicate ChainOf(norm: Normalizer, reqs: seq<Request>, r: string, chain: seq<Record>) {
    ChainIn(norm, RunAll(norm, reqs), r, chain) && Docs(chain) == StutterFree(Contents(reqs, r))
      && Attributed(reqs, chain)
  }

  lemma StutterFreeStep(docs: seq<Doc>, d: Doc)
    ensures var init := StutterFree(docs);
            StutterFree(docs + [d]) == if init != [] && init[|init| - 1] == d then init else init + [d]
  {
    assert (docs + [d])[..|docs|] == docs;
  }

  lemma SameRecipeStep(norm: Normalizer, reqs: seq<Request>, r: string, before: seq<Record>)
      returns (chain: seq<Record>)
    requires reqs != [] && reqs[|reqs| - 1].parents.None? && reqs[|reqs| - 1].recipe.doc.id == r
    requires ChainOf(norm, reqs[..|reqs| - 1], r, before)
    ensures ChainOf(norm, reqs, r, chain)
  {
    var init, last := reqs[..|reqs| - 1], reqs[|reqs| - 1];
    chain := CommitExtends(norm, RunAll(norm, init), r, before, last);
    AttributedMore(reqs, before, chain);
    DocsStep(reqs, r, before, chain);
    hide ChainIn, StutterFree, Commit, Attributed, Docs, Contents, Records;
  }

  lemma DocsStep(reqs: seq<Request>, r: string, before: seq<Record>, chain: seq<Record>)
    requires reqs != [] && reqs[|reqs| - 1].recipe.doc.id == r
             && Docs(before) == StutterFree(Contents(reqs[..|reqs| - 1], r))
    requires var d := reqs[|reqs| - 1].recipe.doc;
             if before != [] && before[|before| - 1].contentHash == d then chain == before
             else |chain| == |before| + 1 && chain[..|before|] == before && chain[|before|].contentHash == d
    ensures Docs(chain) == StutterFree(Contents(reqs, r))
  {
    var d := reqs[|reqs| - 1].recipe.doc;
    StutterFreeStep(Contents(reqs[..|reqs| - 1], r), d);
    if before != [] {
      assert Docs(before)[|before| - 1] == before[|before| - 1].contentHash;
    }
    if chain != before {
      DocsSnoc(before, chain);
    }
    hide Docs, StutterFree;
  }

  /**
   After any run of default-parent commits each recipe's versions form one chain: its contents without repetitions.
   */
  lemma {:induction false} RunMakesChain(norm: Normalizer, reqs: seq<Request>, r: string) returns (chain: seq<Record>)
    requires forall k :: 0 <= k < |reqs| ==> reqs[k].parents.None?
    ensures ChainOf(norm, reqs, r, chain)
  {
    if reqs == [] {
      chain := [];
    } else {
      var init, last := reqs[..|reqs| - 1], reqs[|reqs| - 1];
      var before := RunMakesChain(norm, init, r);
      if last.recipe.doc.id == r {
        chain := SameRecipeStep(norm, reqs, r, before);
      } else {
        chain := before;
        OtherRecipe(norm, RunAll(norm, init), r, before, last);
        assert Contents(reqs, r) == Contents(init, r) + [] == Contents(init, r);
        AttributedMore(reqs, before, chain);
      }
    }
  }

  // ----- reading the chain back ----------------------------------------------------------------------

  function Reversed(s: seq<Record>): (r: seq<Record>)
    ensures |r| == |s| && forall k :: 0 <= k < |s| ==> r[k] == s[|s| - 1 - k]
  {
    if s == [] then [] else [s[|s| - 1]] + Reversed(s[..|s| - 1])
  }

  lemma WalkOne(store: map<VersionId, Record>, c: VersionId, seen: set<VersionId>)
    requires c in store && c !in seen
    ensures Walk(store, [c], seen) == [store[c]] + Walk(store, store[c].parents, seen + {c})
  {
    assert [c][..0] == [] && [] + store[c].parents == store[c].parents;
  }

  lemma ReversedTake(chain: seq<Record>, n: nat)
    requires 0 < n <= |chain|
    ensures Reversed(chain[..n]) == [chain[n - 1]] + Reversed(chain[..n - 1])
  {
    assert chain[..n][..n - 1] == chain[..n - 1];
  }

  /** The ids of the first n records of the chain that end the walk. */
  function Tip(chain: seq<Record>, n: nat): seq<VersionId>
    requires n <= |chain|
  {
    if n == 0 then [] else [chain[n - 1].versionId]
  }

  lemma TipParents(norm: Normalizer, store: map<VersionId, Record>, chain: seq<Record>, n: nat)
    requires IsChain(norm, store, chain) && 0 < n <= |chain|
    ensures var c := chain[n - 1].versionId;
            Tip(chain, n) == [c] && c in store && store[c] == chain[n - 1] && store[c].parents == Tip(chain, n - 1)
  {
    assert ParentIsBefore(chain, n - 1);
    hide WellHashed;
  }

  lemma {:induction false} WalkChain(norm: Normalizer, store: map<VersionId, Record>, chain: seq<Record>, n: nat,
                                     seen: set<VersionId>)
    requires IsChain(norm, store, chain) && DistinctVersions(chain) && n <= |chain|
    requires forall k :: 0 <= k < n ==> chain[k].versionId !in seen
    ensures Walk(store, Tip(chain, n), seen) == Reversed(chain[..n])
    decreases n
  {
    if n > 0 {
      var c := chain[n - 1].versionId;
      TipParents(norm, store, chain, n);
      hide IsChain, Walk, Reversed, Tip;
      WalkOne(store, c, seen);
      ReversedTake(chain, n);
      WalkChain(norm, store, chain, n - 1, seen + {c});
    }
  }

  /** Time stamps never decrease along the chain. */
  predicate NonDecreasing(chain: seq<Record>) {
    forall i, j :: 0 <= i < j < |chain| ==> !LexLess(chain[j].createdAt, chain[i].createdAt)
  }

  lemma ReversedSortedIff(chain: seq<Record>)
    ensures TimeSorted(Reversed(chain)) <==> NonDecreasing(chain)
  {
    var rev := Reversed(chain);
    if TimeSorted(rev) {
      forall i, j | 0 <= i < j < |chain| ensures !LexLess(chain[j].createdAt, chain[i].createdAt) {
        assert rev[|chain| - 1 - j] == chain[j] && rev[|chain| - 1 - i] == chain[i];
      }
    }
    if NonDecreasing(chain) {
      forall i, j | 0 <= i < j < |rev| ensures !LexLess(rev[i].createdAt, rev[j].createdAt) {
        assert rev[i] == chain[|chain| - 1 - i] && rev[j] == chain[|chain| - 1 - j];
      }
    }
  }

  lemma ChainHistory(norm: Normalizer, s: Store, r: string, chain: seq<Record>)
    requires ChainIn(norm, s, r, chain)
    ensures History(s, r) == Success(NewestFirst(Reversed(chain)))
    ensures History(s, r) == Success(Reversed(chain)) <==> NonDecreasing(chain)
  {
    ReversedSortedIff(chain);
    NewestFirstSameIff(Reversed(chain));
    if chain != [] {
      ChainDistinct(norm, chain);
      WalkChain(norm, Stored(s, r), chain, |chain|, {});
      assert chain[..|chain|] == chain;
    }
    hide TimeSorted, NonDecreasing, Walk, DistinctVersions;
  }

  /**
   After any run of default-parent commits the history of a recipe is a chain's records, newest first; it is
   exactly the reverse of the committed contents, repetitions dropped, if and only if time stamps never decrease.
   */
  lemma {:induction false} SequentialHistory(norm: Normalizer, reqs: seq<Request>, r: string)
      returns (chain: seq<Record>)
    requires forall k :: 0 <= k < |reqs| ==> reqs[k].parents.None?
    ensures Docs(chain) == StutterFree(Contents(reqs, r)) && Attributed(reqs, chain) && Linked(chain)
            && DistinctVersions(chain)
    ensures HeadOf(RunAll(norm, reqs), r) == Success(if chain == [] then None else Some(chain[|chain| - 1]))
    ensures History(RunAll(norm, reqs), r) == Success(NewestFirst(Reversed(chain)))
    ensures History(RunAll(norm, reqs), r) == Success(Reversed(chain)) <==> NonDecreasing(chain)
  {
    chain := RunMakesChain(norm, reqs, r);
    ChainDistinct(norm, chain);
    ChainHistory(norm, RunAll(norm, reqs), r, chain);
    hide RunAll, History;
  }

  /** A second version with an earlier time stamp: the history starts with the first version, not the head. */
  lemma {:induction false} EarlierTimeHidesHead(norm: Normalizer, first: Request, second: Request)
    requires first.parents.None? && second.parents.None? && first.recipe.doc.id == second.recipe.doc.id
    requires first.recipe.doc != second.recipe.doc && LexLess(second.createdAt, first.createdAt)
    ensures var s := RunAll(norm, [first, second]);
            var out := History(s, first.recipe.doc.id);
            && out.Success? && |out.value| == 2
            && HeadOf(s, first.recipe.doc.id) == Success(Some(out.value[1])) && out.value[0] != out.value[1]
  {
    hide RunAll, History, Linked, DistinctVersions, Contents, StutterFree, Attributed, NewestFirst, Reversed, LexLess;
    var reqs, r := [first, second], first.recipe.doc.id;
    var chain := SequentialHistory(norm, reqs, r);
    PairContents(first, second);
    PairRecords(first, second, chain);
    PairOrder(chain[0], chain[1]);
  }

  lemma PairRecords(first: Request, second: Request, chain: seq<Record>)
    requires first.recipe.doc != second.recipe.doc && Docs(chain) == [first.recipe.doc, second.recipe.doc]
    requires Attributed([first, second], chain)
    ensures |chain| == 2 && chain == [chain[0], chain[1]]
    ensures chain[0].createdAt == first.createdAt && chain[1].createdAt == second.createdAt
  {
    var reqs := [first, second];
    assert |chain| == |Docs(chain)| == 2 && Docs(chain)[0] == first.recipe.doc && Docs(chain)[1] == second.recipe.doc;
    assert Recorded(reqs, chain[0]) && Recorded(reqs, chain[1]);
  }

  lemma PairContents(first: Request, second: Request)
    requires first.recipe.doc.id == second.recipe.doc.id && first.recipe.doc != second.recipe.doc
    ensures StutterFree(Contents([first, second], first.recipe.doc.id)) == [first.recipe.doc, second.recipe.doc]
  {
    var reqs, r, a, b := [first, second], first.recipe.doc.id, first.recipe.doc, second.recipe.doc;
    assert reqs[..1] == [first] && [first][..0] == [] && [a, b][..1] == [a] && [a][..0] == [];
    assert Contents([first], r) == [a];
    assert Contents(reqs, r) == [a, b];
    assert StutterFree([a]) == [a];
  }

  lemma PairOrder(a: Record, b: Record)
    requires LexLess(b.createdAt, a.createdAt)
    ensures NewestFirst(Reversed([a, b])) == [a, b] && a != b
  {
    LexLessTotal(a.createdAt, b.createdAt);
    assert Reversed([a, b]) == [b, a];
    assert [b, a][..1] == [b] && [b][..0] == [];
    assert NewestFirst([b]) == [b];
    assert InsertByTime([b], a) == InsertByTime([], a) + [b];
  }
}
