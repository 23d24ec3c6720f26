/** Every text that parses is a valid recipe whose deterministic order is the order it was written in. */
module ParserLaws {
  import opened Wrappers
  import opened Text
  import opened Schema
  import opened QuantityText
  import opened Scanner
  import opened StepText
  import opened RecipeGraph
  import opened ActionGraph
  import opened Kahn
  import opened SortLaws
  import opened Parser
  import ScanLaws

  // ----- one step --------------------------------------------------------------------------

  lemma ScannedActionValid(ctx: Context, text: string, produced: Option<string>)
    requires ctx.index > 0 && ScanFrom(ctx, text, "", START).Success?
    ensures var a := ActionOf(ctx, ScanFrom(ctx, text, "", START).value, produced);
            ValidAction(a) && forall u :: u in a.uses ==> u in ctx.names.Values
  {
    ScanLaws.ScanKeeps(ctx, text, "", START);
    var st := ScanFrom(ctx, text, "", START).value;
    ChunksOwned(ctx, st, produced);
  }

  lemma ChunksOwned(ctx: Context, st: Scan, produced: Option<string>)
    requires ctx.index > 0 && ScanLaws.ChunksResolve(st)
    ensures var a := ActionOf(ctx, st, produced);
            a.text.Some? ==> forall k :: 0 <= k < |a.text.value| ==> ChunkResolves(a, a.text.value[k])
  {
    var a := ActionOf(ctx, st, produced);
    forall k | 0 <= k < |st.chunks| ensures ChunkResolves(a, st.chunks[k]) {
      assert ScanLaws.Resolves(st, st.chunks[k]);
    }
  }

  /** A step is refused only for a quantity in its text, never for a dangling slot. */
  lemma {:induction false} StepNeverDangles(ctx: Context, block: string)
    requires ctx.index > 0
    ensures var scan := ScanFrom(ctx, SplitProduced(Unwrap(block)).0, "", START);
            && (ParseStep(ctx, block).Success? <==> scan.Success?)
            && (scan.Failure? ==> ParseStep(ctx, block) == Failure(scan.error))
  {
    var (text, produced) := SplitProduced(Unwrap(block));
    if ScanFrom(ctx, text, "", START).Success? {
      ScannedActionValid(ctx, text, produced);
    }
  }

  // ----- the order of the document -------------------------------------------------------------

  /** The i-th action carries the i-th ids and order, and uses only states produced before it. */
  ghost predicate DocumentStep(env: Env, s: seq<Action>, i: nat)
    requires i < |s|
  {
    && s[i].order == i && s[i].id == ActionId(i + 1)
    && s[i].produces.id == StateId(env, i + 1, s[i].produces.name)
    && forall u :: u in s[i].uses ==> ProducedBefore(s, i, u)
  }

  ghost predicate ProducedBefore(s: seq<Action>, i: nat, u: string)
    requires i <= |s|
  {
    exists j :: 0 <= j < i && s[j].produces.id == u
  }

  ghost predicate InDocumentOrder(env: Env, s: seq<Action>) {
    forall i :: 0 <= i < |s| ==> DocumentStep(env, s, i) && ValidAction(s[i])
  }

  /** Every name stands for a state some action of the list produces. */
  ghost predicate NamesKnown(names: map<string, string>, s: seq<Action>) {
    forall n :: n in names ==> ProducedBefore(s, |s|, names[n])
  }

  lemma OneMoreStep(env: Env, done: seq<Action>, names: map<string, string>, block: string)
    requires InDocumentOrder(env, done) && NamesKnown(names, done)
    requires ParseStep(Context(env, names, |done| + 1), block).Success?
    ensures var (a, after) := ParseStep(Context(env, names, |done| + 1), block).value;
            InDocumentOrder(env, done + [a]) && NamesKnown(after, done + [a])
  {
    var ctx := Context(env, names, |done| + 1);
    var (text, produced) := SplitProduced(Unwrap(block));
    ScannedActionValid(ctx, text, produced);
    var (a, after) := ParseStep(ctx, block).value;
    var s := done + [a];
    assert s[|done|] == a;
    forall u | u in a.uses ensures ProducedBefore(s, |done|, u) {
      var n :| n in names && names[n] == u;
      EarlierStays(done, [a], |done|, u);
    }
    forall i | 0 <= i < |done| ensures DocumentStep(env, s, i) && ValidAction(s[i]) {
      assert DocumentStep(env, done, i) && s[i] == done[i];
      forall u | u in done[i].uses ensures ProducedBefore(s, i, u) {
        EarlierStays(done, [a], i, u);
      }
    }
    NamesStay(ctx, done, a, produced);
  }

  lemma EarlierStays(s: seq<Action>, t: seq<Action>, i: nat, u: string)
    requires i <= |s| && ProducedBefore(s, i, u)
    ensures ProducedBefore(s + t, i, u) && ProducedBefore(s + t, |s + t|, u)
  {
    var j :| 0 <= j < i && s[j].produces.id == u;
    assert (s + t)[j] == s[j];
  }

  lemma NamesStay(ctx: Context, done: seq<Action>, a: Action, produced: Option<string>)
    requires NamesKnown(ctx.names, done) && a.produces.id == StateId(ctx.env, ctx.index, produced)
    ensures NamesKnown(NamesAfter(ctx, produced), done + [a])
  {
    var s, after := done + [a], NamesAfter(ctx, produced);
    assert s[|done|] == a;
    forall n | n in after ensures ProducedBefore(s, |s|, after[n]) {
      if !(produced.Some? && n == produced.value) {
        EarlierStays(done, [a], |done|, ctx.names[n]);
      }
    }
  }

  lemma {:induction false} ParsedInOrder(env: Env, blocks: seq<string>, k: nat, names: map<string, string>,
                                         done: seq<Action>)
    requires k <= |blocks| && |done| == k && InDocumentOrder(env, done) && NamesKnown(names, done)
    ensures var r := ParseFrom(env, blocks, k, names); r.Success? ==> InDocumentOrder(env, done + r.value)
    decreases |blocks| - k
  {
    var r := ParseFrom(env, blocks, k, names);
    if r.Success? {
      if k == |blocks| {
        assert done + [] == done;
      } else {
        OneMoreStep(env, done, names, blocks[k]);
        var (a, after) := ParseStep(Context(env, names, k + 1), blocks[k]).value;
        ParsedInOrder(env, blocks, k + 1, after, done + [a]);
        AppendActions(done, a, ParseFrom(env, blocks, k + 1, after).value);
      }
    }
  }

  lemma AppendActions(s: seq<Action>, a: Action, t: seq<Action>)
    ensures s + ([a] + t) == s + [a] + t
  {
  }

  // ----- such a list is a valid graph, already sorted ----------------------------------------------

  lemma ActionIdInjective(m: nat, n: nat)
    requires ActionId(m) == ActionId(n)
    ensures m == n
  {
    assert ActionId(m)[4..] == NatText(m) && ActionId(n)[4..] == NatText(n);
    ReadNatText(m);
    ReadNatText(n);
  }

  lemma {:induction false} StateIdInjective(env: Env, m: nat, a: Option<string>, n: nat, b: Option<string>)
    requires StateId(env, m, a) == StateId(env, n, b)
    ensures m == n
  {
    var x := if a.Some? then "_" + env.slug(a.value) else "";
    var y := if b.Some? then "_" + env.slug(b.value) else "";
    assert StateId(env, m, a)[4..] == NatText(m) + x && StateId(env, n, b)[4..] == NatText(n) + y;
    NatTextPrefixFree(m, x, n, y);
  }

  lemma InOrderDistinct(env: Env, s: seq<Action>)
    requires InDocumentOrder(env, s)
    ensures DistinctIds(s) && SingleWriter(s) && NoDangling(s, ProducedStates(s))
  {
    forall i, j | 0 <= i < j < |s| ensures s[i].id != s[j].id && s[i].produces.id != s[j].produces.id {
      assert DocumentStep(env, s, i) && DocumentStep(env, s, j);
      if s[i].id == s[j].id {
        ActionIdInjective(i + 1, j + 1);
      }
      if s[i].produces.id == s[j].produces.id {
        StateIdInjective(env, i + 1, s[i].produces.name, j + 1, s[j].produces.name);
      }
    }
    forall a | a in s ensures Resolves(a, |a.uses|, ProducedStates(s)) {
      var i :| 0 <= i < |s| && s[i] == a;
      assert DocumentStep(env, s, i);
      UsesResolve(s, i);
    }
  }

  lemma UsesResolve(s: seq<Action>, i: nat)
    requires i < |s| && forall u :: u in s[i].uses ==> ProducedBefore(s, i, u)
    ensures Resolves(s[i], |s[i].uses|, ProducedStates(s))
  {
    ByIdKeys(s);
    forall k | 0 <= k < |s[i].uses| ensures s[i].uses[k] in ProducedStates(s) {
      assert ProducedBefore(s, i, s[i].uses[k]);
      var j :| 0 <= j < i && s[j].produces.id == s[i].uses[k];
      assert s[j] in s;
    }
  }

  /** An edge of the graph leads from an earlier action of the list to a later one. */
  lemma EdgeGoesForward(env: Env, s: seq<Action>, e: (string, string), i: nat)
    requires InDocumentOrder(env, s) && NoDangling(s, ProducedStates(s)) && SingleWriter(s) && DistinctIds(s)
    requires e in GraphOf(s).edges && i < |s| && e.1 == s[i].id
    ensures exists j :: 0 <= j < i && s[j].id == e.0
  {
    var producer := ProducedStates(s);
    EdgeListMembers(s, producer, e);
    var a :| a in s && UsesFrom(a, producer, e.0) && a.id == e.1;
    ByIdDistinct(s);
    assert s[i] in s;
    var x :| 0 <= x < |a.uses| && a.uses[x] in producer && producer[a.uses[x]] == e.0;
    assert DocumentStep(env, s, i) && a.uses[x] in s[i].uses;
    var j :| 0 <= j < i && s[j].produces.id == a.uses[x];
    ProducerUnique(s, s[j]);
  }

  lemma IdsTaken(s: seq<Action>, k: nat, i: nat)
    requires DistinctIds(s) && k <= |s| && i < |s|
    ensures s[i].id in Elements(Ids(s)[..k]) <==> i < k
  {
    assert i < k ==> Ids(s)[..k][i] == s[i].id;
  }

  lemma NextInOrder(env: Env, s: seq<Action>, k: nat)
    requires InDocumentOrder(env, s) && NoDangling(s, ProducedStates(s)) && SingleWriter(s) && DistinctIds(s)
    requires WellFormed(GraphOf(s)) && k < |s|
    ensures IsLeast(GraphOf(s), Ready(GraphOf(s), Elements(Ids(s)[..k])), s[k].id)
  {
    var g, done := GraphOf(s), Elements(Ids(s)[..k]);
    ByIdDistinct(s);
    assert s[k] in s;
    IdsTaken(s, k, k);
    forall e | e in g.edges && e.1 == s[k].id ensures e.0 in done {
      EdgeGoesForward(env, s, e, k);
      var j :| 0 <= j < k && s[j].id == e.0;
      IdsTaken(s, k, j);
    }
    forall w | w in Ready(g, done) && w != s[k].id ensures KeyLess(g, s[k].id, w) {
      var a := ById(s)[w];
      var i :| 0 <= i < |s| && s[i] == a;
      IdsTaken(s, k, i);
      assert DocumentStep(env, s, k) && DocumentStep(env, s, i);
    }
  }

  lemma InOrderGreedy(env: Env, s: seq<Action>)
    requires InDocumentOrder(env, s) && NoDangling(s, ProducedStates(s)) && SingleWriter(s) && DistinctIds(s)
    ensures WellFormed(GraphOf(s)) && IsGreedy(GraphOf(s), Ids(s)) && Elements(Ids(s)) == GraphOf(s).nodes
  {
    GraphWellFormed(s);
    forall k | 0 <= k < |Ids(s)| ensures IsLeast(GraphOf(s), Ready(GraphOf(s), Elements(Ids(s)[..k])), Ids(s)[k]) {
      NextInOrder(env, s, k);
    }
    ByIdSize(s);
  }

  lemma GreedyIdsSorted(s: seq<Action>)
    requires NoDangling(s, ProducedStates(s)) && DistinctIds(s)
    requires WellFormed(GraphOf(s)) && IsGreedy(GraphOf(s), Ids(s)) && Elements(Ids(s)) == GraphOf(s).nodes
    ensures !HasCycle(GraphOf(s)) && SortedActions(s) == s
  {
    var g, ids := GraphOf(s), Ids(s);
    GreedyUnique(g, ids, GreedyOrder(g));
    GreedyTopological(g, ids);
    TopologicalAcyclic(g, ids);
    ByIdDistinct(s);
    var t := SortedActions(s);
    forall k | 0 <= k < |s| ensures t[k] == s[k] {
      assert s[k] in s && ids[k] == s[k].id;
    }
  }

  /** Actions in document order form a valid graph, and sorting them changes nothing. */
  lemma {:induction false} InOrderIsSorted(env: Env, s: seq<Action>)
    requires InDocumentOrder(env, s)
    ensures DistinctIds(s) && SingleWriter(s) && NoDangling(s, ProducedStates(s)) && !HasCycle(GraphOf(s))
    ensures SortedActions(s) == s
    ensures s != [] ==> ValidGraph(s)
  {
    InOrderDistinct(env, s);
    InOrderGreedy(env, s);
    GreedyIdsSorted(s);
    if s != [] {
      TerminalExists(s);
    }
  }

  // ----- the theorem -----------------------------------------------------------------------------------

  lemma ParsedBlocksValid(env: Env, blocks: seq<string>)
    ensures var r := ParseFrom(env, blocks, 0, map[]);
            r.Success? ==>
              && InDocumentOrder(env, r.value) && NoDangling(r.value, ProducedStates(r.value))
              && (blocks != [] ==> ValidRecipe(r.value)) && SortedActions(r.value) == r.value
  {
    var r := ParseFrom(env, blocks, 0, map[]);
    if r.Success? {
      ParsedInOrder(env, blocks, 0, map[], []);
      ContinueStart(r);
      InOrderIsSorted(env, r.value);
    }
  }

  /**
   A document parses exactly when it has a step and every step's quantities do. The result then satisfies every
   graph and slot invariant, and the deterministic sort returns it in document order.
   */
  lemma {:induction false} ParsedTextIsValid(env: Env, body: string)
    ensures var blocks := SplitSteps(body);
            ParseCook(env, body).Success? <==> blocks != [] && ParseFrom(env, blocks, 0, map[]).Success?
    ensures ParseCook(env, body).Success? ==>
              var actions := ParseCook(env, body).value;
              ValidRecipe(actions) && InDocumentOrder(env, actions) && SortedActions(actions) == actions
  {
    ParsedBlocksValid(env, SplitSteps(body));
  }
}
