/**
 Commits as their separate reads and writes, taken by any number of writers in any order, any of which may die
 between two steps.
 */
module StoreProtocol {
  import opened Wrappers
  import opened Versions
  import opened StoreSpec
  import opened HistoryLaws

  // ----- the system -----------------------------------------------------------------------

  /** Where a writer is in `commit`. */
  datatype Phase =
    | Idle
    | Started(req: Request)
    | RefRead(req: Request, ref: Option<VersionId>)
    | Writing(req: Request, record: Record)
    | PutDone(req: Request, record: Record)
    | Answered(req: Request, record: Record)
    | Raised(req: Request)

  datatype System = System(store: Store, writers: seq<Phase>)

  datatype Step =
    | Begin(w: nat, req: Request)
    | ReadRef(w: nat)
    | LoadHead(w: nat)
    | PutRecord(w: nat)
    | MoveRef(w: nat)
    | Crash(w: nat)

  function Start(n: nat): System {
    System(EMPTY, seq(n, _ => Idle))
  }

  predicate Enabled(s: System, step: Step) {
    && step.w < |s.writers|
    && var phase := s.writers[step.w];
       match step
       case Begin(_, _) => phase.Idle? || phase.Answered? || phase.Raised?
       case ReadRef(_) => phase.Started?
       case LoadHead(_) => phase.RefRead?
       case PutRecord(_) => phase.Writing?
       case MoveRef(_) => phase.PutDone?
       case Crash(_) => true
  }

  /** After the ref is read: the version it names is read, and the no-op rule and the parents are decided. */
  function Decide(norm: Normalizer, store: Store, req: Request, ref: Option<VersionId>): Phase {
    var kept := Stored(store, req.recipe.doc.id);
    if ref.Some? && ref.value !in kept then Raised(req)
    else
      var head := if ref.Some? then Some(kept[ref.value]) else None;
      if Unchanged(req, head) then Answered(req, head.value)
      else Writing(req, BuildRecord(norm, req, ParentsFor(req, head)))
  }

  function PhaseAfter(norm: Normalizer, s: System, step: Step): Phase
    requires Enabled(s, step)
  {
    var phase := s.writers[step.w];
    match step
    case Begin(_, req) => Started(req)
    case ReadRef(_) =>
      var r := phase.req.recipe.doc.id;
      RefRead(phase.req, if r in s.store.heads then Some(s.store.heads[r]) else None)
    case LoadHead(_) => Decide(norm, s.store, phase.req, phase.ref)
    case PutRecord(_) => PutDone(phase.req, phase.record)
    case MoveRef(_) => Answered(phase.req, phase.record)
    case Crash(_) => Idle
  }

  function StoreAfter(s: System, step: Step): Store
    requires Enabled(s, step)
  {
    var phase := s.writers[step.w];
    match step
    case PutRecord(_) => Put(s.store, phase.req.recipe.doc.id, phase.record)
    case MoveRef(_) => WriteHead(s.store, phase.req.recipe.doc.id, phase.record.versionId)
    case _ => s.store
  }

  function Apply(norm: Normalizer, s: System, step: Step): System
    requires Enabled(s, step)
  {
    System(StoreAfter(s, step), s.writers[step.w := PhaseAfter(norm, s, step)])
  }

  /** `states` is a run of the system: each state follows from the one before by an enabled step. */
  predicate IsRun(norm: Normalizer, states: seq<System>, steps: seq<Step>) {
    && |states| == |steps| + 1
    && forall i :: 0 <= i < |steps| ==>
          Enabled(states[i], steps[i]) && states[i + 1] == Apply(norm, states[i], steps[i])
  }

  // ----- the invariant --------------------------------------------------------------------------

  predicate PhaseOk(norm: Normalizer, store: Store, phase: Phase) {
    match phase
    case Idle => true
    case Started(_) => true
    case RefRead(req, ref) => ref.Some? ==> ref.value in Stored(store, req.recipe.doc.id)
    case Writing(req, rec) => WellHashed(norm, rec) && rec.recipe == req.recipe
    case PutDone(req, rec) =>
      WellHashed(norm, rec) && rec.recipe == req.recipe && rec.versionId in Stored(store, req.recipe.doc.id)
    case Answered(req, rec) =>
      && rec.contentHash == rec.versionId.content == req.recipe.doc
      && rec.versionId in Stored(store, req.recipe.doc.id)
    case Raised(_) => false
  }

  predicate Inv(norm: Normalizer, s: System) {
    Sound(norm, s.store) && forall w :: 0 <= w < |s.writers| ==> PhaseOk(norm, s.store, s.writers[w])
  }

  lemma StoreStepKeeps(norm: Normalizer, s: System, step: Step)
    requires Inv(norm, s) && Enabled(s, step)
    ensures Sound(norm, StoreAfter(s, step)) && Preserves(norm, s.store, StoreAfter(s, step))
  {
    var phase := s.writers[step.w];
    assert PhaseOk(norm, s.store, phase);
    NothingChanged(norm, s.store);
    hide Sound, Preserves, RecordKept;
    match step
    case PutRecord(_) =>
      PutKeepsRecords(norm, s.store, phase.req.recipe.doc.id, phase.record);
      PutPreserves(norm, s.store, phase.req.recipe.doc.id, phase.record);
    case MoveRef(_) =>
      HeadMoves(norm, s.store, phase.req.recipe.doc.id, phase.record.versionId);
      HeadOnly(norm, s.store, s.store, phase.req.recipe.doc.id, phase.record.versionId);
    case _ =>
  }

  lemma PhaseStaysOk(norm: Normalizer, s: Store, t: Store, phase: Phase)
    requires PhaseOk(norm, s, phase) && Preserves(norm, s, t)
    ensures PhaseOk(norm, t, phase)
  {
    hide WellHashed, SameVersion;
  }

  lemma NewPhaseOk(norm: Normalizer, s: System, step: Step)
    requires Inv(norm, s) && Enabled(s, step)
    ensures PhaseOk(norm, StoreAfter(s, step), PhaseAfter(norm, s, step))
  {
    var phase := s.writers[step.w];
    assert PhaseOk(norm, s.store, phase);
    match step
    case ReadRef(_) =>
    case LoadHead(_) => DecideOk(norm, s.store, phase.req, phase.ref);
    case _ =>
  }

  lemma DecideOk(norm: Normalizer, store: Store, req: Request, ref: Option<VersionId>)
    requires Sound(norm, store) && (ref.Some? ==> ref.value in Stored(store, req.recipe.doc.id))
    ensures PhaseOk(norm, store, Decide(norm, store, req, ref))
  {
    var r := req.recipe.doc.id;
    assert r in store.versions ==> RecordKept(norm, store.versions[r], r);
    var head := if ref.Some? then Some(Stored(store, r)[ref.value]) else None;
    BuiltIsWellHashed(norm, req, ParentsFor(req, head));
    hide WellHashed, Sound;
  }

  /** One step of any writer keeps the invariant and loses nothing. */
  lemma {:induction false} StepKeeps(norm: Normalizer, s: System, step: Step)
    requires Inv(norm, s) && Enabled(s, step)
    ensures Inv(norm, Apply(norm, s, step)) && Preserves(norm, s.store, Apply(norm, s, step).store)
  {
    StoreStepKeeps(norm, s, step);
    NewPhaseOk(norm, s, step);
    var t := Apply(norm, s, step);
    hide Sound, Preserves, PhaseOk, PhaseAfter, StoreAfter;
    forall w | 0 <= w < |t.writers| && w != step.w ensures PhaseOk(norm, t.store, t.writers[w]) {
      PhaseStaysOk(norm, s.store, t.store, s.writers[w]);
    }
  }

  // ----- whole runs ------------------------------------------------------------------------------

  lemma PreservesThrough(norm: Normalizer, s: Store, t: Store, u: Store)
    requires Preserves(norm, s, t) && Preserves(norm, t, u)
    ensures Preserves(norm, s, u)
  {
    forall r, v | r in s.versions && v in s.versions[r]
      ensures v in Stored(u, r) && SameVersion(norm, s.versions[r][v], Stored(u, r)[v])
    {
      assert v in t.versions[r] && v in u.versions[r];
    }
  }

  lemma RunTail(norm: Normalizer, states: seq<System>, steps: seq<Step>)
    requires IsRun(norm, states, steps) && steps != []
    ensures IsRun(norm, states[..|states| - 1], steps[..|steps| - 1])
  {
  }

  lemma {:induction false} RunKeeps(norm: Normalizer, states: seq<System>, steps: seq<Step>)
    requires IsRun(norm, states, steps) && Inv(norm, states[0])
    ensures forall i :: 0 <= i < |states| ==>
            Inv(norm, states[i]) && Preserves(norm, states[i].store, states[|states| - 1].store)
    decreases |steps|
  {
    var n := |steps|;
    NothingChanged(norm, states[n].store);
    if n > 0 {
      RunTail(norm, states, steps);
      RunKeeps(norm, states[..n], steps[..n - 1]);
      hide Inv, Preserves, Apply, Enabled;
      assert forall i :: 0 <= i < n ==> states[..n][i] == states[i];
      StepKeeps(norm, states[n - 1], steps[n - 1]);
      forall i | 0 <= i < n ensures Inv(norm, states[i]) && Preserves(norm, states[i].store, states[n].store) {
        assert states[..n][i] == states[i];
        PreservesThrough(norm, states[i].store, states[n - 1].store, states[n].store);
      }
    }
  }

  lemma StartInv(norm: Normalizer, n: nat)
    ensures Inv(norm, Start(n))
  {
  }

  lemma PrefixRun(norm: Normalizer, states: seq<System>, steps: seq<Step>, k: nat)
    requires IsRun(norm, states, steps) && k < |states|
    ensures IsRun(norm, states[..k + 1], steps[..k])
  {
  }

  /**
   Whatever the interleaving and the crashes: every head resolves, reading a head never raises, and a version
   once stored keeps its content, parents, time and origin for the rest of the run.
   */
  lemma {:induction false} EveryRunIsSafe(norm: Normalizer, n: nat, states: seq<System>, steps: seq<Step>, i: nat,
                                          j: nat)
    requires IsRun(norm, states, steps) && states[0] == Start(n) && i <= j < |states|
    ensures Sound(norm, states[j].store) && Preserves(norm, states[i].store, states[j].store)
    ensures forall r :: HeadOf(states[j].store, r).Success?
    ensures forall w :: 0 <= w < |states[j].writers| ==> !states[j].writers[w].Raised?
  {
    StartInv(norm, n);
    PrefixRun(norm, states, steps, j);
    RunKeeps(norm, states[..j + 1], steps[..j]);
    assert states[..j + 1][i] == states[i] && states[..j + 1][j] == states[j];
    hide Preserves;
    assert Inv(norm, states[j]);
    forall w | 0 <= w < |states[j].writers| ensures !states[j].writers[w].Raised? {
      assert PhaseOk(norm, states[j].store, states[j].writers[w]);
    }
  }

  /** A commit that answered stays stored with the content it was given, whoever moves the head afterwards. */
  lemma {:induction false} AnsweredStays(norm: Normalizer, n: nat, states: seq<System>, steps: seq<Step>, i: nat,
                                         j: nat, w: nat)
    requires IsRun(norm, states, steps) && states[0] == Start(n) && i <= j < |states|
    requires w < |states[i].writers| && states[i].writers[w].Answered?
    ensures var a := states[i].writers[w];
            var kept := Stored(states[j].store, a.req.recipe.doc.id);
            a.record.versionId in kept && kept[a.record.versionId].contentHash == a.req.recipe.doc
  {
    EveryRunIsSafe(norm, n, states, steps, i, j);
    StartInv(norm, n);
    PrefixRun(norm, states, steps, i);
    RunKeeps(norm, states[..i + 1], steps[..i]);
    assert states[..i + 1][i] == states[i];
    AnswerKept(norm, states[i], states[j].store, w);
    hide IsRun, Inv, Sound, Preserves;
  }

  lemma AnswerKept(norm: Normalizer, s: System, t: Store, w: nat)
    requires Inv(norm, s) && Preserves(norm, s.store, t) && w < |s.writers| && s.writers[w].Answered?
    ensures var a := s.writers[w];
            var kept := Stored(t, a.req.recipe.doc.id);
            a.record.versionId in kept && kept[a.record.versionId].contentHash == a.req.recipe.doc
  {
    var a := s.writers[w];
    var r := a.req.recipe.doc.id;
    assert PhaseOk(norm, s.store, a);
    assert RecordKept(norm, s.store.versions[r], r);
    hide Inv;
  }

  /** The stored lineage has no cycle. */
  lemma {:induction false} StoredLineageAcyclic(norm: Normalizer, s: Store, r: string, path: seq<VersionId>)
    requires Sound(norm, s) && |path| > 1 && IsStoredPath(Stored(s, r), path)
    ensures path[0] != path[|path| - 1]
  {
    forall i | 0 <= i < |path| - 1 ensures path[i + 1] in path[i].parents {
      assert path[i] in Stored(s, r) && path[i + 1] in Stored(s, r)[path[i]].parents;
      assert RecordKept(norm, s.versions[r], r);
      assert path[i + 1] in multiset(s.versions[r][path[i]].parents);
    }
    NoLineageCycle(path);
  }

  // ----- complete lineage -------------------------------------------------------------------------

  predicate ParentsIn(store: map<VersionId, Record>, parents: seq<VersionId>) {
    forall p :: p in parents ==> p in store
  }

  /** Explicit parents were stored when the request was made, and stay so. */
  predicate ParentsOk(store: Store, phase: Phase) {
    match phase
    case Idle => true
    case Raised(_) => true
    case Answered(_, _) => true
    case Started(req) => ExplicitStored(store, req)
    case RefRead(req, _) => ExplicitStored(store, req)
    case Writing(req, rec) => ParentsIn(Stored(store, req.recipe.doc.id), rec.parents)
    case PutDone(req, rec) => ParentsIn(Stored(store, req.recipe.doc.id), rec.parents)
  }

  predicate ExplicitStored(store: Store, req: Request) {
    req.parents.Some? ==> ParentsIn(Stored(store, req.recipe.doc.id), req.parents.value)
  }

  predicate Complete(s: System) {
    ParentsStored(s.store) && forall w :: 0 <= w < |s.writers| ==> ParentsOk(s.store, s.writers[w])
  }

  lemma ParentsStayOk(norm: Normalizer, s: Store, t: Store, phase: Phase)
    requires ParentsOk(s, phase) && Preserves(norm, s, t)
    ensures ParentsOk(t, phase)
  {
    hide SameVersion;
  }

  lemma DecideParents(norm: Normalizer, s: System, w: nat)
    requires Inv(norm, s) && Complete(s) && Enabled(s, LoadHead(w))
    ensures ParentsOk(s.store, PhaseAfter(norm, s, LoadHead(w)))
  {
    var phase := s.writers[w];
    assert PhaseOk(norm, s.store, phase) && ParentsOk(s.store, phase);
    var r := phase.req.recipe.doc.id;
    assert r in s.store.versions ==> RecordKept(norm, s.store.versions[r], r);
    hide WellHashed, Inv, Complete;
  }

  /** If explicit parents are stored when a commit begins, every stored version's parents are stored, always. */
  lemma StepKeepsComplete(norm: Normalizer, s: System, step: Step)
    requires Inv(norm, s) && Complete(s) && Enabled(s, step)
    requires step.Begin? ==> ExplicitStored(s.store, step.req)
    ensures Complete(Apply(norm, s, step))
  {
    StepKeeps(norm, s, step);
    var phase, t := s.writers[step.w], Apply(norm, s, step);
    assert ParentsOk(s.store, phase) && PhaseOk(norm, s.store, phase);
    hide Inv, Preserves, PhaseOk, ParentsStored, ExplicitStored, ParentsIn;
    assert ParentsStored(t.store) by {
      ParentsStepStored(s, step);
    }
    NewPhaseParents(norm, s, step);
    hide PhaseAfter, StoreAfter, ParentsOk;
    forall w | 0 <= w < |t.writers| && w != step.w ensures ParentsOk(t.store, t.writers[w]) {
      ParentsStayOk(norm, s.store, t.store, s.writers[w]);
    }
  }

  lemma ParentsStepStored(s: System, step: Step)
    requires Complete(s) && Enabled(s, step)
    ensures ParentsStored(StoreAfter(s, step))
  {
    var phase := s.writers[step.w];
    assert ParentsOk(s.store, phase);
    if step.PutRecord? {
      PutKeepsParents(s.store, phase.req.recipe.doc.id, phase.record);
    }
  }

  lemma NewPhaseParents(norm: Normalizer, s: System, step: Step)
    requires Inv(norm, s) && Complete(s) && Enabled(s, step)
    requires step.Begin? ==> ExplicitStored(s.store, step.req)
    ensures ParentsOk(StoreAfter(s, step), PhaseAfter(norm, s, step))
  {
    var phase := s.writers[step.w];
    assert ParentsOk(s.store, phase);
    if step.LoadHead? {
      DecideParents(norm, s, step.w);
    } else if step.PutRecord? {
      StoreStepKeeps(norm, s, step);
      ParentsStayOk(norm, s.store, StoreAfter(s, step), phase);
    }
    hide Inv, Complete, Preserves, Sound;
  }

  /** Along a run whose explicit parents are stored when asked for, the lineage is complete at every moment. */
  lemma {:induction false} RunStaysComplete(norm: Normalizer, states: seq<System>, steps: seq<Step>)
    requires IsRun(norm, states, steps) && Inv(norm, states[0]) && Complete(states[0])
    requires ParentsKnown(states, steps)
    ensures forall i :: 0 <= i < |states| ==> Complete(states[i])
    decreases |steps|
  {
    var n := |steps|;
    if n > 0 {
      CompleteTail(norm, states, steps);
      RunStaysComplete(norm, states[..n], steps[..n - 1]);
      CompleteLast(norm, states, steps);
      hide IsRun, Inv, Complete, ExplicitStored;
      forall i | 0 <= i < n ensures Complete(states[i]) {
        assert states[..n][i] == states[i];
      }
    }
  }

  /** Every explicit parent of the run is stored when its commit begins. */
  predicate ParentsKnown(states: seq<System>, steps: seq<Step>) {
    |states| == |steps| + 1 && forall i :: 0 <= i < |steps| && steps[i].Begin? ==>
      ExplicitStored(states[i].store, steps[i].req)
  }

  lemma CompleteTail(norm: Normalizer, states: seq<System>, steps: seq<Step>)
    requires IsRun(norm, states, steps) && steps != [] && ParentsKnown(states, steps) && Inv(norm, states[0])
    ensures var n := |steps|;
            && IsRun(norm, states[..n], steps[..n - 1]) && ParentsKnown(states[..n], steps[..n - 1])
            && states[..n][0] == states[0] && states[..n][n - 1] == states[n - 1]
  {
    RunTail(norm, states, steps);
    hide Inv, IsRun, ExplicitStored;
  }

  lemma CompleteLast(norm: Normalizer, states: seq<System>, steps: seq<Step>)
    requires IsRun(norm, states, steps) && steps != [] && ParentsKnown(states, steps) && Inv(norm, states[0])
    requires Complete(states[|steps| - 1])
    ensures Complete(states[|steps|])
  {
    var n := |steps|;
    RunKeeps(norm, states, steps);
    hide Inv, Preserves, Apply, Enabled, Complete, ExplicitStored;
    StepKeepsComplete(norm, states[n - 1], steps[n - 1]);
  }
}
