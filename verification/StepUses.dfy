/** The inputs of a step as a list: the order in which they come back, and exactly when it is theirs. */
module StepUses {
  import opened Schema
  import opened QuantityText
  import opened Scanner
  import opened ActionGraph
  import opened SortLaws
  import opened Printer
  import opened Parser
  import opened ParserLaws
  import opened TokenText
  import opened StepRoundTrip
  import opened StepLines
  import opened LineLaws
  import opened RoundTrip

  /** The states the pieces name, in the order of the text. */
  function NamedIds(names: map<string, string>, ps: seq<Piece>): seq<string> {
    if ps == [] then []
    else (if ps[0].State? && ps[0].name in names then [names[ps[0].name]] else []) + NamedIds(names, ps[1..])
  }

  /** The ids after those seen, each where it stands first. */
  function Firsts(seen: seq<string>, ids: seq<string>): seq<string>
    decreases |ids|
  {
    if ids == [] then seen else Firsts(if ids[0] in seen then seen else seen + [ids[0]], ids[1..])
  }

  lemma FirstsOne(seen: seq<string>, id: string, ids: seq<string>)
    ensures Firsts(seen, [id] + ids) == Firsts(if id in seen then seen else seen + [id], ids)
  {
    assert ([id] + ids)[1..] == ids;
  }

  lemma AbsorbOneUse(ctx: Context, p: Piece, st: Scan)
    requires p.State? ==> p.name in ctx.names
    ensures var id := if p.State? then ctx.names[p.name] else "";
            Absorb(ctx, p, st).uses == if p.State? && id !in st.uses then st.uses + [id] else st.uses
  {
    hide MintId, ReadBackUse, ReadBackAmount;
  }

  lemma {:induction false} AbsorbedUses(ctx: Context, ps: seq<Piece>, st: Scan)
    requires StatesNamed(ps, ctx.names)
    ensures AbsorbAll(ctx, ps, st).uses == Firsts(st.uses, NamedIds(ctx.names, ps))
    decreases |ps|
  {
    hide Absorb, Firsts;
    if ps != [] {
      var p, rest := ps[0], ps[1..];
      assert forall k :: 0 <= k < |rest| ==> rest[k] == ps[k + 1];
      AbsorbOneUse(ctx, p, st);
      AbsorbedUses(ctx, rest, Absorb(ctx, p, st));
      if p.State? {
        FirstsOne(st.uses, ctx.names[p.name], NamedIds(ctx.names, rest));
      } else {
        assert [] + NamedIds(ctx.names, rest) == NamedIds(ctx.names, rest);
      }
    } else {
      FirstsNone(st.uses);
    }
  }

  lemma FirstsNone(seen: seq<string>)
    ensures Firsts(seen, []) == seen
  {
  }

  lemma {:induction false} NamedConcat(names: map<string, string>, ps: seq<Piece>, qs: seq<Piece>)
    ensures NamedIds(names, ps + qs) == NamedIds(names, ps) + NamedIds(names, qs)
  {
    if ps == [] {
      assert ps + qs == qs;
    } else {
      assert (ps + qs)[1..] == ps[1..] + qs;
      NamedConcat(names, ps[1..], qs);
    }
  }

  lemma NamedOne(names: map<string, string>, p: Piece)
    ensures NamedIds(names, [p]) == if p.State? && p.name in names then [names[p.name]] else []
  {
    assert [p][1..] == [];
  }

  lemma NamedJoined(names: map<string, string>, literal: string)
    ensures NamedIds(names, Joined(literal)) == []
  {
    if literal != "" {
      NamedOne(names, Prose(literal));
    }
  }

  lemma {:induction false} NamedRegroup(names: map<string, string>, literal: string, ps: seq<Piece>)
    ensures NamedIds(names, Regroup(names, literal, ps)) == NamedIds(names, ps)
    decreases |ps|
  {
    hide NamedIds, PrintPiece;
    NamedJoined(names, literal);
    if ps != [] {
      var p, rest := ps[0], ps[1..];
      assert ps == [p] + rest;
      NamedConcat(names, [p], rest);
      NamedOne(names, p);
      if IsRead(names, p) {
        NamedRegroup(names, "", rest);
        NamedConcat(names, Joined(literal) + [p], Regroup(names, "", rest));
        NamedConcat(names, Joined(literal), [p]);
        EmptyFirst(NamedIds(names, [p]));
      } else {
        NamedRegroup(names, literal + PrintPiece(p), rest);
        EmptyFirst(NamedIds(names, rest));
      }
    } else {
      NamedNone(names);
    }
  }

  lemma NamedNone(names: map<string, string>)
    ensures NamedIds(names, []) == []
  {
  }

  lemma EmptyFirst(ids: seq<string>)
    ensures [] + ids == ids
  {
  }

  /**
   The uses that come back are the known states the step's text names, each once, in the order they are first named.
   */
  lemma {:induction false} UsesRead(env: Env, s: seq<Action>, i: nat)
    requires WritableRecipe(s) && i < |s|
    ensures ReadBackRecipe(env, s)[i].uses
         == Firsts([], NamedIds(NamesAt(env, LinesOf(s), i), Pieces(s[i], StateLabels(s))))
  {
    LineAt(s, i);
    hide AllLabelled, WritableLines, LinesOf, ReadLines, Pieces, ValidAction, Labelled, StateLabels, Firsts, NamedIds,
      NamesAt, Regroup, AbsorbAll;
    var ctx := LineContext(env, LinesOf(s), i);
    ReadAt(env, LinesOf(s), i);
    AbsorbedUses(ctx, PiecesRead(ctx, Pieces(s[i], StateLabels(s))), START);
    NamedRegroup(ctx.names, "", Pieces(s[i], StateLabels(s)));
  }

  // ----- the states shown ---------------------------------------------------------------------------

  function RefsIn(chunks: seq<Chunk>): seq<string> {
    if chunks == [] then []
    else (if chunks[0].StateChunk? then [chunks[0].ref] else []) + RefsIn(chunks[1..])
  }

  /** The states the step's text shows: the unplaced uses in their order, then those of the prose in its order. */
  function ShownStates(a: Action): seq<string> {
    LeadingUses(a.uses, ChunkStates(a)) + (if a.text.Some? then RefsIn(a.text.value) else [])
  }

  /** The id a state's label stands for when the step is parsed. */
  predicate Known(names: map<string, string>, labels: map<string, string>, u: string) {
    u in labels && labels[u] in names
  }

  function MeantId(names: map<string, string>, labels: map<string, string>, u: string): string {
    if Known(names, labels, u) then names[labels[u]] else ""
  }

  function Meant(names: map<string, string>, labels: map<string, string>, us: seq<string>): (ids: seq<string>)
    ensures |ids| == |us|
  {
    seq(|us|, k requires 0 <= k < |us| => MeantId(names, labels, us[k]))
  }

  ghost predicate AllKnown(names: map<string, string>, labels: map<string, string>, us: seq<string>) {
    forall u :: u in us ==> Known(names, labels, u)
  }

  lemma MeantCons(names: map<string, string>, labels: map<string, string>, us: seq<string>)
    requires us != []
    ensures Meant(names, labels, us) == [MeantId(names, labels, us[0])] + Meant(names, labels, us[1..])
  {
    hide MeantId;
  }

  lemma {:induction false} LeadingMeant(names: map<string, string>, labels: map<string, string>, us: seq<string>)
    requires (forall u :: u in us ==> u in labels) && AllKnown(names, labels, us)
    ensures NamedIds(names, LeadingPieces(us, labels)) == Meant(names, labels, us)
  {
    if us != [] {
      assert Known(names, labels, us[0]) && AllKnown(names, labels, us[1..]);
      assert LeadingPieces(us, labels)[1..] == LeadingPieces(us[1..], labels);
      LeadingMeant(names, labels, us[1..]);
      MeantCons(names, labels, us);
    }
  }

  lemma {:induction false} ChunksMeant(names: map<string, string>, a: Action, labels: map<string, string>,
                                       chunks: seq<Chunk>)
    requires AllShowable(a, labels, chunks) && AllKnown(names, labels, RefsIn(chunks))
    ensures NamedIds(names, PiecesOf(a, labels, chunks)) == Meant(names, labels, RefsIn(chunks))
  {
    if chunks != [] {
      var c, rest := chunks[0], chunks[1..];
      assert AllShowable(a, labels, rest);
      assert PiecesOf(a, labels, chunks) == [PieceOf(a, labels, c)] + PiecesOf(a, labels, rest);
      ChunksMeant(names, a, labels, rest);
      NamedConcat(names, [PieceOf(a, labels, c)], PiecesOf(a, labels, rest));
      NamedOne(names, PieceOf(a, labels, c));
      hide NamedIds;
      if c.StateChunk? {
        assert RefsIn(chunks) == [c.ref] + RefsIn(rest);
        assert c.ref in RefsIn(chunks) && PieceOf(a, labels, c) == State(labels[c.ref]);
        MeantCons(names, labels, RefsIn(chunks));
      } else {
        assert RefsIn(chunks) == RefsIn(rest);
      }
    }
  }

  lemma {:induction false} ListedMeant(names: map<string, string>, uses: seq<IngredientUse>)
    ensures NamedIds(names, ListedPieces(uses)) == []
  {
    if |uses| == 1 {
      NamedOne(names, UsePiece(uses[0]));
    } else if |uses| > 1 {
      NamedConcat(names, [UsePiece(uses[0]), Prose(" ")], ListedPieces(uses[1..]));
      ListedMeant(names, uses[1..]);
      NamedConcat(names, [UsePiece(uses[0])], [Prose(" ")]);
      NamedOne(names, UsePiece(uses[0]));
      NamedOne(names, Prose(" "));
      assert [UsePiece(uses[0])] + [Prose(" ")] == [UsePiece(uses[0]), Prose(" ")];
    }
  }

  lemma MeantConcat(names: map<string, string>, labels: map<string, string>, us: seq<string>, vs: seq<string>)
    ensures Meant(names, labels, us + vs) == Meant(names, labels, us) + Meant(names, labels, vs)
  {
    hide MeantId;
  }

  /** The text of a step names what the labels of the shown states mean. */
  lemma ShownMeant(names: map<string, string>, a: Action, labels: map<string, string>)
    requires ValidAction(a) && Labelled(a, labels) && AllKnown(names, labels, ShownStates(a))
    ensures NamedIds(names, Pieces(a, labels)) == Meant(names, labels, ShownStates(a))
  {
    var leading := LeadingUses(a.uses, ChunkStates(a));
    var refs := if a.text.Some? then RefsIn(a.text.value) else [];
    assert AllKnown(names, labels, leading) && AllKnown(names, labels, refs);
    MeantConcat(names, labels, leading, refs);
    NamedConcat(names, LeadingPieces(leading, labels), BodyPieces(a, labels));
    LeadingMeant(names, labels, leading);
    if a.text.Some? {
      assert AllShowable(a, labels, a.text.value);
      ChunksMeant(names, a, labels, a.text.value);
    } else {
      ListedMeant(names, a.ingredients);
    }
    hide NamedIds, Known, Meant, RefsIn;
  }

  lemma {:induction false} RefsAreChunks(chunks: seq<Chunk>)
    ensures forall u :: u in RefsIn(chunks) <==> StateChunk(u) in chunks
  {
    if chunks != [] {
      RefsAreChunks(chunks[1..]);
      assert forall c :: c in chunks <==> c == chunks[0] || c in chunks[1..];
    }
  }

  /** A step shows exactly the states it uses. */
  lemma {:induction false} ShownAreUsed(a: Action)
    requires ValidAction(a)
    ensures forall u :: u in ShownStates(a) <==> u in a.uses
  {
    if a.text.Some? {
      RefsAreChunks(a.text.value);
      forall u | StateChunk(u) in a.text.value ensures u in a.uses && u in ChunkStates(a) {
        var k :| 0 <= k < |a.text.value| && a.text.value[k] == StateChunk(u);
        assert ChunkResolves(a, a.text.value[k]);
      }
      forall u | u in ChunkStates(a) ensures StateChunk(u) in a.text.value {
      }
    }
    hide ValidAction, RefsIn, ChunkStates;
  }

  // ----- the same list ----------------------------------------------------------------------------------

  lemma {:induction false} FirstsMembers(seen: seq<string>, ids: seq<string>)
    ensures forall u :: u in Firsts(seen, ids) <==> u in seen || u in ids
    decreases |ids|
  {
    if ids != [] {
      FirstsMembers(if ids[0] in seen then seen else seen + [ids[0]], ids[1..]);
      assert forall u :: u in ids <==> u == ids[0] || u in ids[1..];
    }
  }

  /** Labels that mean different ids for different states. */
  ghost predicate Apart(names: map<string, string>, labels: map<string, string>, us: seq<string>) {
    forall u, v :: u in us && v in us && MeantId(names, labels, u) == MeantId(names, labels, v) ==> u == v
  }

  /** Different states have different ids: the first mentions are the same before and after. */
  lemma {:induction false} FirstsMeant(names: map<string, string>, labels: map<string, string>, seen: seq<string>,
                                       us: seq<string>)
    requires Apart(names, labels, seen + us)
    ensures Firsts(Meant(names, labels, seen), Meant(names, labels, us)) == Meant(names, labels, Firsts(seen, us))
    decreases |us|
  {
    hide MeantId, Meant;
    if us != [] {
      var u, rest := us[0], us[1..];
      var more := if u in seen then seen else seen + [u];
      assert forall v :: v in more + rest ==> v in seen + us;
      FirstsMeant(names, labels, more, rest);
      MeantCons(names, labels, us);
      MeantSeen(names, labels, seen, u);
      FirstsOne(Meant(names, labels, seen), MeantId(names, labels, u), Meant(names, labels, rest));
    } else {
      MeantNone(names, labels);
    }
  }

  lemma MeantNone(names: map<string, string>, labels: map<string, string>)
    ensures Meant(names, labels, []) == []
  {
  }

  lemma MeantSeen(names: map<string, string>, labels: map<string, string>, seen: seq<string>, u: string)
    requires forall v :: v in seen && MeantId(names, labels, u) == MeantId(names, labels, v) ==> u == v
    ensures MeantId(names, labels, u) in Meant(names, labels, seen) <==> u in seen
    ensures Meant(names, labels, seen + [u]) == Meant(names, labels, seen) + [MeantId(names, labels, u)]
  {
    hide MeantId;
    var ids := Meant(names, labels, seen);
    if u in seen {
      var k :| 0 <= k < |seen| && seen[k] == u;
      assert ids[k] == MeantId(names, labels, u);
    }
    if MeantId(names, labels, u) in ids {
      var k :| 0 <= k < |ids| && ids[k] == MeantId(names, labels, u);
      assert seen[k] in seen;
    }
  }

  // ----- the theorem ------------------------------------------------------------------------------------

  /** The inputs of a step that came back are one by one what became of these states. */
  ghost predicate AreUses(s: seq<Action>, b: seq<Action>, i: nat, us: seq<string>)
    requires i < |s| == |b|
  {
    && |b[i].uses| == |us|
    && forall k, j :: 0 <= k < |us| && 0 <= j < |s| ==>
         (b[i].uses[k] == b[j].produces.id <==> us[k] == s[j].produces.id)
  }

  /** The same inputs one by one, in the same order, as often. */
  ghost predicate SameUses(s: seq<Action>, b: seq<Action>, i: nat)
    requires i < |s| == |b|
  {
    AreUses(s, b, i, s[i].uses)
  }

  /** The uses are what the text shows of them: unplaced ones first, each once, in the order of the text. */
  predicate UsesShown(a: Action) {
    a.uses == Firsts([], ShownStates(a))
  }

  /** The state a used id means is made by the step that comes back for its producer. */
  lemma UsedMeans(env: Env, s: seq<Action>, i: nat, u: string) returns (j: nat)
    requires WritableRecipe(s) && ProducersFirst(s) && SingleWriter(s) && i < |s| && StepReferable(s, i)
             && u in s[i].uses
    ensures j < i && s[j].produces.id == u
    ensures Known(NamesAt(env, LinesOf(s), i), StateLabels(s), u)
    ensures MeantId(NamesAt(env, LinesOf(s), i), StateLabels(s), u) == ReadBackRecipe(env, s)[j].produces.id
  {
    j := UsedLabel(s, i, u);
    hide AllLabelled, WritableLines, LinesOf, ReadLines, StateLabels, NamesAt, ProducersFirst, SingleWriter, Known,
      MeantId;
    assert Referable(s, i, j);
    NameMeans(env, s, i, j);
    MeansName(NamesAt(env, LinesOf(s), i), StateLabels(s), u);
  }

  lemma MeansName(names: map<string, string>, labels: map<string, string>, u: string)
    requires u in labels && labels[u] in names
    ensures Known(names, labels, u) && MeantId(names, labels, u) == names[labels[u]]
  {
  }

  lemma NamedIsLabelled(s: seq<Action>, i: nat, j: nat)
    requires i < |s| && j < |s| && Referable(s, i, j)
    ensures j < i && s[j].produces.name.Some? && Label(s[j], j + 1) == s[j].produces.name.value
  {
  }

  /** The name of a step that can be referred to stands for the state that comes back for its own. */
  lemma NameMeans(env: Env, s: seq<Action>, i: nat, j: nat)
    requires WritableRecipe(s) && i < |s| && j < |s| && Referable(s, i, j)
    ensures s[j].produces.name.Some? && Label(s[j], j + 1) == s[j].produces.name.value
    ensures var names, name := NamesAt(env, LinesOf(s), i), s[j].produces.name.value;
            name in names && names[name] == ReadBackRecipe(env, s)[j].produces.id
  {
    hide AllLabelled, WritableLines, ReadLines, ValidAction, Labelled, StateLabels, NamesAt, WritableLine,
      Referable, Bearer;
    NamedIsLabelled(s, i, j);
    LineAt(s, j);
    hide LinesOf;
    BearerIff(s, i, j);
    NameStandsFor(env, LinesOf(s), i, s[j].produces.name.value);
    ReadAt(env, LinesOf(s), j);
  }

  /** The states that come back have different ids. */
  lemma IdsApart(env: Env, s: seq<Action>, j: nat, m: nat)
    requires WritableRecipe(s) && j < |s| && m < |s|
    ensures ReadBackRecipe(env, s)[j].produces.id == ReadBackRecipe(env, s)[m].produces.id ==> j == m
  {
    hide AllLabelled, WritableLines, LinesOf, ReadLines, StateId;
    ReadAt(env, LinesOf(s), j);
    ReadAt(env, LinesOf(s), m);
    var ls := LinesOf(s);
    if StateId(env, j + 1, ls[j].name) == StateId(env, m + 1, ls[m].name) {
      StateIdInjective(env, j + 1, ls[j].name, m + 1, ls[m].name);
    }
  }

  /** Where the states a step uses can be referred to, its uses come back as they are meant, in the order shown. */
  lemma UsesMeant(env: Env, s: seq<Action>, i: nat)
    requires WritableRecipe(s) && ProducersFirst(s) && SingleWriter(s) && i < |s| && StepReferable(s, i)
    ensures ReadBackRecipe(env, s)[i].uses
         == Meant(NamesAt(env, LinesOf(s), i), StateLabels(s), Firsts([], ShownStates(s[i])))
  {
    LineAt(s, i);
    hide AllLabelled, WritableLines, LinesOf, ReadLines, ValidAction, Labelled, StateLabels, NamesAt, ProducersFirst,
      SingleWriter, StepReferable, ShownStates, Firsts, MeantId, Known, Pieces, NamedIds, Meant, WritableLine;
    var names, labels, shown := NamesAt(env, LinesOf(s), i), StateLabels(s), ShownStates(s[i]);
    UsesRead(env, s, i);
    ShownAreUsed(s[i]);
    forall u | u in shown ensures Known(names, labels, u) {
      var j := UsedMeans(env, s, i, u);
    }
    ShownMeant(names, s[i], labels);
    forall u, v | u in shown && v in shown && MeantId(names, labels, u) == MeantId(names, labels, v) ensures u == v {
      var j := UsedMeans(env, s, i, u);
      var m := UsedMeans(env, s, i, v);
      IdsApart(env, s, j, m);
    }
    assert [] + shown == shown;
    FirstsMeant(names, labels, [], shown);
    MeantNone(names, labels);
  }

  lemma MeansProducer(env: Env, s: seq<Action>, i: nat, u: string, j: nat)
    requires WritableRecipe(s) && ProducersFirst(s) && SingleWriter(s) && i < |s| && StepReferable(s, i)
             && u in s[i].uses
    requires j < |s|
    ensures MeantId(NamesAt(env, LinesOf(s), i), StateLabels(s), u) == ReadBackRecipe(env, s)[j].produces.id <==>
            u == s[j].produces.id
  {
    hide AllLabelled, WritableLines, LinesOf, ReadLines, StateLabels, NamesAt, ProducersFirst, StepReferable, MeantId,
      Known;
    var m := UsedMeans(env, s, i, u);
    IdsApart(env, s, j, m);
  }

  lemma FirstsAreUses(env: Env, s: seq<Action>, i: nat)
    requires WritableRecipe(s) && ProducersFirst(s) && SingleWriter(s) && i < |s| && StepReferable(s, i)
    ensures AreUses(s, ReadBackRecipe(env, s), i, Firsts([], ShownStates(s[i])))
    ensures forall u :: u in Firsts([], ShownStates(s[i])) ==> u in s[i].uses
  {
    hide AllLabelled, WritableLines, LinesOf, ReadLines, ReadBackRecipe, Labelled, StateLabels, NamesAt,
      ProducersFirst, SingleWriter, StepReferable, ShownStates, Firsts, MeantId, Known, WritableLine, ValidAction;
    LineAt(s, i);
    var b, firsts := ReadBackRecipe(env, s), Firsts([], ShownStates(s[i]));
    UsesMeant(env, s, i);
    ShownAreUsed(s[i]);
    FirstsMembers([], ShownStates(s[i]));
    forall k, j | 0 <= k < |firsts| && 0 <= j < |s|
      ensures b[i].uses[k] == b[j].produces.id <==> firsts[k] == s[j].produces.id {
      assert firsts[k] in firsts;
      MeansProducer(env, s, i, firsts[k], j);
    }
  }

  /** The inputs come back as the same list exactly if they are what the text shows, each once and in its order. */
  lemma {:induction false} UsesComeBackIff(env: Env, s: seq<Action>, i: nat)
    requires WritableRecipe(s) && ProducersFirst(s) && SingleWriter(s) && i < |s| && StepReferable(s, i)
    ensures SameUses(s, ReadBackRecipe(env, s), i) <==> UsesShown(s[i])
  {
    hide AllLabelled, WritableLines, LinesOf, ReadLines, ReadBackRecipe, StateLabels, NamesAt,
      ProducersFirst, SingleWriter, StepReferable, ShownStates, Firsts, MeantId, Known;
    var b, firsts := ReadBackRecipe(env, s), Firsts([], ShownStates(s[i]));
    FirstsAreUses(env, s, i);
    if SameUses(s, b, i) {
      forall k | 0 <= k < |firsts| ensures firsts[k] == s[i].uses[k] {
        assert firsts[k] in firsts;
        var j := UsedMeans(env, s, i, firsts[k]);
        assert b[i].uses[k] == b[j].produces.id;
      }
    }
  }

  lemma {:induction false} AllLeading(uses: seq<string>)
    ensures LeadingUses(uses, {}) == uses
  {
    if uses != [] {
      AllLeading(uses[1..]);
    }
  }

  lemma {:induction false} FirstsDistinct(seen: seq<string>, ids: seq<string>)
    requires forall j, k :: 0 <= j < k < |seen + ids| ==> (seen + ids)[j] != (seen + ids)[k]
    ensures Firsts(seen, ids) == seen + ids
    decreases |ids|
  {
    if ids != [] {
      assert (seen + ids)[|seen|] == ids[0];
      assert seen + [ids[0]] + ids[1..] == seen + ids;
      assert forall k :: 0 <= k < |seen| ==> (seen + ids)[k] == seen[k];
      FirstsDistinct(seen + [ids[0]], ids[1..]);
    } else {
      assert seen + ids == seen;
    }
  }

  /** A step without prose that lists no input twice shows its inputs in their order. */
  lemma {:induction false} ProselessUses(a: Action)
    requires a.text.None? && forall j, k :: 0 <= j < k < |a.uses| ==> a.uses[j] != a.uses[k]
    ensures UsesShown(a)
  {
    AllLeading(a.uses);
    assert ShownStates(a) == a.uses;
    assert [] + a.uses == a.uses;
    FirstsDistinct([], a.uses);
  }
}
