/** The two backends answer alike, whatever is committed. */
module Backends {
  import opened Wrappers
  import opened Versions
  import opened StoreSpec
  import opened IdOrder
  import opened FsFiles
  import opened MemoryStores
  import opened FilesystemStores
  import Lineage

  /** The k-th answers: the same, but for a commit that stores what the disk's printers refuse. */
  predicate AnswersAgree(norm: Normalizer, projector: Projector, reqs: seq<Request>, k: nat,
                         a: seq<Result<Record, StoreError>>, b: seq<Result<Record, StoreError>>)
    requires k < |reqs| && k < |a| && k < |b|
  {
    b[k] == if Writes(Lineage.RunAll(norm, reqs[..k]), reqs[k]) && !projector.Accepts(reqs[k].recipe)
            then Failure(ProjectionFailed(reqs[k].recipe.doc.id)) else a[k]
  }

  /** One more commit: the earlier answers still agree. */
  lemma AnswersMore(norm: Normalizer, projector: Projector, reqs: seq<Request>, k: nat,
                    a: seq<Result<Record, StoreError>>, b: seq<Result<Record, StoreError>>,
                    x: Result<Record, StoreError>, y: Result<Record, StoreError>)
    requires |a| == |b| == k < |reqs| && x.Success?
    requires forall n :: 0 <= n < k ==> a[n].Success? && AnswersAgree(norm, projector, reqs, n, a, b)
    requires y == if Writes(Lineage.RunAll(norm, reqs[..k]), reqs[k]) && !projector.Accepts(reqs[k].recipe)
                  then Failure(ProjectionFailed(reqs[k].recipe.doc.id)) else x
    ensures forall n :: 0 <= n < k + 1 ==>
              (a + [x])[n].Success? && AnswersAgree(norm, projector, reqs, n, a + [x], b + [y])
  {
    hide Writes, Lineage.RunAll;
    forall n | 0 <= n < k ensures a[n].Success? && AnswersAgree(norm, projector, reqs, n, a + [x], b + [y]) {
      assert AnswersAgree(norm, projector, reqs, n, a, b);
    }
  }

  lemma EmptySound(norm: Normalizer)
    ensures Sound(norm, EMPTY) && CanonicalCurrent(map[], EMPTY)
  {
  }

  lemma OneMoreCommit(norm: Normalizer, reqs: seq<Request>, k: nat, s: Store)
    requires k < |reqs| && s == Lineage.RunAll(norm, reqs[..k]) && Sound(norm, s) && s.versions.Keys <= s.heads.Keys
    ensures var (result, t) := Commit(norm, s, reqs[k]);
            && result.Success? && t == Lineage.RunAll(norm, reqs[..k + 1])
            && Sound(norm, t) && t.versions.Keys <= t.heads.Keys
  {
    hide Commit, Sound, Preserves, HeadOf, Stored, Lineage.RunAll;
    CommitKeepsHeaded(norm, s, reqs[k]);
    CommitKeeps(norm, s, reqs[k]);
    CommitAnswers(norm, s, reqs[k]);
    RunOneMore(norm, reqs, k);
  }

  lemma RunOneMore(norm: Normalizer, reqs: seq<Request>, k: nat)
    requires k < |reqs|
    ensures Lineage.RunAll(norm, reqs[..k + 1]) == Commit(norm, Lineage.RunAll(norm, reqs[..k]), reqs[k]).1
  {
    hide Commit;
    assert reqs[..k + 1][..k] == reqs[..k];
  }

  /**
   Runs the same commits on both backends: the same stores, the same recipes listed, and the same answers, except that
   the disk raises, after the commit took effect, when the printers refuse what it stores.
   */
  method RunBoth(memory: MemoryStore, disk: FilesystemStore, reqs: seq<Request>)
      returns (a: seq<Result<Record, StoreError>>, b: seq<Result<Record, StoreError>>, ids: seq<string>)
    requires disk.Valid() && memory.norm == disk.norm && memory.View() == EMPTY == disk.view && disk.files == map[]
    modifies memory, disk
    ensures disk.Valid() && |a| == |b| == |reqs|
    ensures forall k :: 0 <= k < |reqs| ==>
              a[k].Success? && AnswersAgree(memory.norm, disk.projector, reqs, k, a, b)
    ensures memory.View() == disk.view == Lineage.RunAll(memory.norm, reqs)
    ensures Sorts(ids, memory.View().heads.Keys) && CanonicalCurrent(disk.files, disk.view)
  {
    hide AnswersAgree, Writes, Commit, Sound, CanonicalCurrent;
    a, b := [], [];
    EmptySound(memory.norm);
    for k := 0 to |reqs|
      invariant disk.Valid() && |a| == |b| == k && CanonicalCurrent(disk.files, disk.view)
      invariant forall n :: 0 <= n < k ==> a[n].Success? && AnswersAgree(memory.norm, disk.projector, reqs, n, a, b)
      invariant memory.View() == disk.view == Lineage.RunAll(memory.norm, reqs[..k])
      invariant Sound(memory.norm, disk.view)
      invariant disk.view.versions.Keys <= disk.view.heads.Keys
    {
      OneMoreCommit(memory.norm, reqs, k, disk.view);
      var onMemory := memory.CommitRecipe(reqs[k]);
      var onDisk := disk.CommitRecipe(reqs[k]);
      AnswersMore(memory.norm, disk.projector, reqs, k, a, b, onMemory, onDisk);
      a, b := a + [onMemory], b + [onDisk];
    }
    assert reqs[..|reqs|] == reqs;
    ids := memory.ListRecipeIds();
    var listed := disk.ListRecipeIds();
    SortsUnique(ids, listed, memory.View().heads.Keys);
    assert listed == ids;
  }
}
