/** What comes back from a document of lines: each line's pieces, its inputs, its lists and its text. */
module LineLaws {
  import opened Wrappers
  import opened Schema
  import opened QuantityText
  import opened Scanner
  import opened ActionGraph
  import opened Kahn
  import opened SortLaws
  import opened Printer
  import opened Parser
  import opened ParserLaws
  import opened TokenText
  import opened StepRoundTrip
  import opened StepLines

  /** The pieces line i is read as. */
  function ReadPieces(env: Env, ls: seq<Line>, i: nat): seq<Piece>
    requires i < |ls|
  {
    ReadBackAll(env, PiecesRead(LineContext(env, ls, i), ls[i].pieces))
  }

  function LineScan(env: Env, ls: seq<Line>, i: nat): Scan
    requires i < |ls|
  {
    Scanned(LineContext(env, ls, i), ls[i].pieces)
  }

  /** The action's lists are those of the scan. */
  predicate ScanMade(b: Action, st: Scan) {
    && b.uses == st.uses && b.ingredients == st.ingredients && b.cookware == st.cookware
    && b.timers == st.timers && b.temperatures == st.temperatures
    && b.text == if st.chunks == [] then None else Some(st.chunks)
  }

  lemma ReadAt(env: Env, ls: seq<Line>, i: nat)
    requires i < |ls|
    ensures var b := ReadLines(env, ls)[i];
            && b.order == i && b.verb.None? && b.notes.None?
            && b.produces == FoodState(StateId(env, i + 1, ls[i].name), ls[i].name)
            && ScanMade(b, LineScan(env, ls, i))
  {
    hide StateId, Scanned;
  }

  /** What the scan of line i shows. */
  lemma LineShows(env: Env, ls: seq<Line>, i: nat)
    requires i < |ls| && WritableLine(ls[i])
    ensures var ctx, st := LineContext(env, ls, i), LineScan(env, ls, i);
            && ShowsAll(ctx, st, ReadPieces(env, ls, i)) && UsesExactly(ctx, st, PiecesRead(ctx, ls[i].pieces))
            && ScanLists(st, ReadPieces(env, ls, i))
  {
    hide ShowsAll, UsesExactly, ScanLists, Scanned, TrimmedPieces;
    StepScans(LineContext(env, ls, i), ls[i].pieces);
  }

  // ----- the pieces come back --------------------------------------------------------------------

  lemma UniqueUse(uses: seq<IngredientUse>, k: nat)
    requires DistinctIngredientIds(uses) && k < |uses|
    ensures FindUse(uses, uses[k].id) == uses[k]
  {
    var u := FindUse(uses, uses[k].id);
    var j :| 0 <= j < |uses| && uses[j] == u;
  }

  lemma UniqueTool(uses: seq<CookwareUse>, k: nat)
    requires DistinctCookwareIds(uses) && k < |uses|
    ensures FindTool(uses, uses[k].id) == uses[k]
  {
    var u := FindTool(uses, uses[k].id);
    var j :| 0 <= j < |uses| && uses[j] == u;
  }

  /** The name of a state piece stands for a state that name labels. */
  predicate NameLabelled(p: Piece, names: map<string, string>, labels: map<string, string>) {
    p.State? ==> p.name in names && names[p.name] in labels && labels[names[p.name]] == p.name
  }

  /** A chunk that shows a piece in the scan is that piece in the action made from it. */
  lemma ShownPiece(ctx: Context, st: Scan, b: Action, labels: map<string, string>, c: Chunk, p: Piece)
    requires ScanMade(b, st) && ValidAction(b) && ChunkResolves(b, c) && Shows(ctx, st, c, p)
    requires NameLabelled(p, ctx.names, labels)
    ensures Showable(b, labels, c) && PieceOf(b, labels, c) == p
  {
    match c
    case IngredientChunk(ref) =>
      var k :| 0 <= k < |st.ingredients| && st.ingredients[k].id == ref && p == UsePiece(st.ingredients[k]);
      UniqueUse(b.ingredients, k);
    case CookwareChunk(ref) =>
      var k :| 0 <= k < |st.cookware| && st.cookware[k].id == ref && p == ToolPiece(st.cookware[k]);
      UniqueTool(b.cookware, k);
    case _ =>
  }

  lemma {:induction false} LabelOf(s: seq<Action>, j: nat)
    requires SingleWriter(s) && j < |s|
    ensures s[j].produces.id in StateLabels(s) && StateLabels(s)[s[j].produces.id] == Label(s[j], j + 1)
  {
    var init := s[..|s| - 1];
    if j < |s| - 1 {
      assert init[j] == s[j];
      LabelOf(init, j);
    }
  }

  /** A name known at line i labels, in what was read, the state it stands for. */
  lemma {:induction false} KnownNameLabels(env: Env, ls: seq<Line>, i: nat, name: string)
    requires WritableLines(ls) && i < |ls| && name in NamesAt(env, ls, i)
    ensures NameLabelled(State(name), NamesAt(env, ls, i), StateLabels(ReadLines(env, ls)))
  {
    hide StateLabels, StateId, WritableLines, ReadLines, NamesAt;
    NameStandsFor(env, ls, i, name);
    var j := Bearer(ls, i, name).value;
    OneWriter(env, ls);
    LabelOf(ReadLines(env, ls), j);
    ReadAt(env, ls, j);
  }

  lemma OneWriter(env: Env, ls: seq<Line>)
    requires WritableLines(ls) && ls != []
    ensures SingleWriter(ReadLines(env, ls))
  {
    hide WritableLines, ReadLines, ValidRecipe, InDocumentOrder, AllLabelled, SortedActions, SingleWriter;
    DocumentParses(env, ls);
    InOrderDistinct(env, ReadLines(env, ls));
  }

  lemma LineValid(env: Env, ls: seq<Line>, i: nat)
    requires WritableLines(ls) && i < |ls|
    ensures WritableLine(ls[i])
    ensures var b := ReadLines(env, ls); ValidAction(b[i]) && Labelled(b[i], StateLabels(b))
  {
    DocumentParses(env, ls);
    hide ReadLines, StateLabels, InDocumentOrder, ValidAction, Labelled, WritableLine, ValidRecipe;
  }

  lemma SlotResolves(a: Action, k: nat)
    requires ValidAction(a) && a.text.Some? && k < |a.text.value|
    ensures ChunkResolves(a, a.text.value[k])
  {
  }

  lemma StateStays(env: Env, names: map<string, string>, labels: map<string, string>, qs: seq<Piece>, k: nat)
    requires k < |qs| && StatesNamed(qs, names) && forall n :: n in names ==> NameLabelled(State(n), names, labels)
    ensures NameLabelled(ReadBackAll(env, qs)[k], names, labels)
  {
    if qs[k].State? {
      assert NameLabelled(State(qs[k].name), names, labels);
    }
  }

  /** Each chunk of the step that came back shows the piece its line was read as there. */
  lemma ChunkComesBack(env: Env, ls: seq<Line>, i: nat, k: nat)
    requires WritableLines(ls) && i < |ls| && k < |ReadPieces(env, ls, i)|
    ensures var b, labels := ReadLines(env, ls)[i], StateLabels(ReadLines(env, ls));
            && b.text.Some? && |b.text.value| == |ReadPieces(env, ls, i)|
            && Showable(b, labels, b.text.value[k]) && PieceOf(b, labels, b.text.value[k]) == ReadPieces(env, ls, i)[k]
  {
    hide WritableLines, WritableLine, ReadLines, StateLabels, NamesAt, Shows, Scanned, ScanLists, UsesExactly, Regroup,
      ValidAction, ChunkResolves, PieceOf, Showable, Labelled, NameLabelled, ReadBackPiece;
    var ctx, st := LineContext(env, ls, i), LineScan(env, ls, i);
    var b, labels := ReadLines(env, ls)[i], StateLabels(ReadLines(env, ls));
    LineValid(env, ls, i);
    LineShows(env, ls, i);
    ReadAt(env, ls, i);
    assert Shows(ctx, st, st.chunks[k], ReadPieces(env, ls, i)[k]);
    SlotResolves(b, k);
    forall n | n in ctx.names ensures NameLabelled(State(n), ctx.names, labels) {
      KnownNameLabels(env, ls, i, n);
    }
    StateStays(env, ctx.names, labels, PiecesRead(ctx, ls[i].pieces), k);
    ShownPiece(ctx, st, b, labels, st.chunks[k], ReadPieces(env, ls, i)[k]);
  }

  /** Every state the step that came back uses is placed in its prose. */
  lemma NothingLeading(env: Env, ls: seq<Line>, i: nat)
    requires WritableLines(ls) && i < |ls|
    ensures var b := ReadLines(env, ls)[i]; LeadingUses(b.uses, ChunkStates(b)) == []
  {
    hide WritableLines, WritableLine, ReadLines, NamesAt, Scanned, ScanLists, Regroup, ShowsAll, UsesExactly,
      ValidAction, Labelled;
    var ctx, st, b := LineContext(env, ls, i), LineScan(env, ls, i), ReadLines(env, ls)[i];
    LineValid(env, ls, i);
    LineShows(env, ls, i);
    ReadAt(env, ls, i);
    forall u | u in b.uses ensures u in ChunkStates(b) {
      StateIsPlaced(ctx, st, PiecesRead(ctx, ls[i].pieces), u);
    }
    NoneLeft(b.uses, ChunkStates(b));
  }

  lemma StateIsPlaced(ctx: Context, st: Scan, ps: seq<Piece>, u: string)
    requires ShowsAll(ctx, st, ReadBackAll(ctx.env, ps)) && UsesExactly(ctx, st, ps) && u in st.uses
    ensures StateChunk(u) in st.chunks
  {
    assert NamesState(ctx, ps, u);
    var k :| 0 <= k < |ps| && ps[k].State? && ps[k].name in ctx.names && ctx.names[ps[k].name] == u;
    assert Shows(ctx, st, st.chunks[k], ReadBackAll(ctx.env, ps)[k]);
  }

  lemma {:induction false} NoneLeft(uses: seq<string>, placed: set<string>)
    requires forall u :: u in uses ==> u in placed
    ensures LeadingUses(uses, placed) == []
  {
    if uses != [] {
      NoneLeft(uses[1..], placed);
    }
  }

  /** With every use placed in the prose, the pieces are those of the prose alone. */
  lemma ProseOnly(a: Action, labels: map<string, string>, qs: seq<Piece>)
    requires ValidAction(a) && Labelled(a, labels) && a.text.Some? && LeadingUses(a.uses, ChunkStates(a)) == []
    requires |qs| == |a.text.value|
    requires forall k :: 0 <= k < |qs| ==>
             Showable(a, labels, a.text.value[k]) && PieceOf(a, labels, a.text.value[k]) == qs[k]
    ensures Pieces(a, labels) == qs
  {
    hide ValidAction, Showable, PieceOf;
    assert LeadingPieces([], labels) == [];
    assert BodyPieces(a, labels) == qs;
    assert [] + qs == qs;
  }

  /** Something of the line is read. */
  lemma {:induction false} SomethingRead(names: map<string, string>, literal: string, ps: seq<Piece>)
    requires literal != "" || (ps != [] && (ps[0].Prose? ==> ps[0].text != ""))
    ensures Regroup(names, literal, ps) != []
    decreases |ps|
  {
    if ps != [] && !IsRead(names, ps[0]) {
      TextNotEmpty(ps[0]);
      SomethingRead(names, literal + PrintPiece(ps[0]), ps[1..]);
    }
  }

  lemma TextNotEmpty(p: Piece)
    ensures (p.Prose? && p.text == "") || PrintPiece(p) != ""
  {
  }

  /** The pieces of the step that came back are those its line was read as. */
  lemma {:induction false} PiecesBack(env: Env, ls: seq<Line>, i: nat)
    requires WritableLines(ls) && i < |ls|
    ensures var b := ReadLines(env, ls);
            && ValidAction(b[i]) && Labelled(b[i], StateLabels(b))
            && Pieces(b[i], StateLabels(b)) == ReadPieces(env, ls, i)
  {
    LineValid(env, ls, i);
    SomethingRead(NamesAt(env, ls, i), "", ls[i].pieces);
    assert |ReadPieces(env, ls, i)| > 0;
    hide WritableLines, WritableLine, ReadLines, ValidAction, StateLabels, Showable, PieceOf, Labelled, ReadPieces;
    var b := ReadLines(env, ls);
    NothingLeading(env, ls, i);
    forall k | 0 <= k < |ReadPieces(env, ls, i)|
      ensures b[i].text.Some? && |b[i].text.value| == |ReadPieces(env, ls, i)|
      ensures Showable(b[i], StateLabels(b), b[i].text.value[k])
      ensures PieceOf(b[i], StateLabels(b), b[i].text.value[k]) == ReadPieces(env, ls, i)[k] {
      ChunkComesBack(env, ls, i, k);
    }
    ChunkComesBack(env, ls, i, 0);
    ProseOnly(b[i], StateLabels(b), ReadPieces(env, ls, i));
  }

  lemma HasProse(env: Env, ls: seq<Line>, i: nat)
    requires WritableLines(ls) && i < |ls|
    ensures ReadLines(env, ls)[i].text.Some?
  {
    LineValid(env, ls, i);
    SomethingRead(NamesAt(env, ls, i), "", ls[i].pieces);
    assert |ReadPieces(env, ls, i)| > 0;
    hide WritableLines, WritableLine, ReadLines, ValidAction, StateLabels, Showable, PieceOf, Labelled, ReadPieces;
    ChunkComesBack(env, ls, i, 0);
  }

  // ----- the inputs --------------------------------------------------------------------------------

  /** The line shows a reference to a state by this name. */
  ghost predicate Refers(l: Line, name: string) {
    State(name) in l.pieces
  }

  /** Line i refers to a name, and line j is the last before it that produces the name. */
  ghost predicate RefersTo(ls: seq<Line>, i: nat, j: nat)
    requires i < |ls| && j < |ls|
  {
    ls[j].name.Some? && Refers(ls[i], ls[j].name.value) && Bearer(ls, i, ls[j].name.value) == Some(j)
  }

  /** What comes back consumes the states that the names in the text stand for. */
  lemma {:induction false} InputsRead(env: Env, ls: seq<Line>, i: nat, j: nat)
    requires WritableLines(ls) && i < |ls| && j < |ls|
    ensures var b := ReadLines(env, ls); b[j].produces.id in b[i].uses <==> RefersTo(ls, i, j)
  {
    hide WritableLines, WritableLine, ReadLines, NamesAt, Scanned, ScanLists, Regroup, ShowsAll, RefersTo, StateId;
    var ctx, b := LineContext(env, ls, i), ReadLines(env, ls);
    LineValid(env, ls, i);
    LineShows(env, ls, i);
    ReadAt(env, ls, i);
    RegroupNames(ctx, "", ls[i].pieces, b[j].produces.id);
    ReadAt(env, ls, j);
    NamedIff(env, ls, i, j);
  }

  lemma NamedIff(env: Env, ls: seq<Line>, i: nat, j: nat)
    requires i < |ls| && j < |ls|
    ensures NamesState(LineContext(env, ls, i), ls[i].pieces, StateId(env, j + 1, ls[j].name)) <==> RefersTo(ls, i, j)
  {
    hide NamesAt, StateId;
    var ctx, ps, id := LineContext(env, ls, i), ls[i].pieces, StateId(env, j + 1, ls[j].name);
    if NamesState(ctx, ps, id) {
      var k :| 0 <= k < |ps| && ps[k].State? && ps[k].name in ctx.names && ctx.names[ps[k].name] == id;
      var name := ps[k].name;
      NameStandsFor(env, ls, i, name);
      var m := Bearer(ls, i, name).value;
      StateIdInjective(env, m + 1, ls[m].name, j + 1, ls[j].name);
      assert ps[k] == State(name);
    }
    if RefersTo(ls, i, j) {
      var name := ls[j].name.value;
      NameStandsFor(env, ls, i, name);
      var k :| 0 <= k < |ps| && ps[k] == State(name);
    }
  }

  // ----- the text ------------------------------------------------------------------------------------

  /** The line that the step read from a line prints. */
  function LineBack(env: Env, l: Line): Line {
    Line(ReadBackAll(env, l.pieces), l.name)
  }

  lemma {:induction false} TextBack(env: Env, ls: seq<Line>, i: nat)
    requires WritableLines(ls) && i < |ls|
    ensures AllLabelled(ReadLines(env, ls))
    ensures PrintedSteps(ReadLines(env, ls))[i] == LineText(LineBack(env, ls[i]))
  {
    hide WritableLines, WritableLine, ReadLines, ValidAction, StateLabels, Labelled, PrintPieces, InDocumentOrder,
      ValidRecipe, Pieces, ReadBackAll, Regroup;
    var b, ps := ReadLines(env, ls), ls[i].pieces;
    DocumentParses(env, ls);
    PiecesBack(env, ls, i);
    ReadAt(env, ls, i);
    RegroupPrints(env, NamesAt(env, ls, i), "", ps);
    assert "" + PrintPieces(ReadBackAll(env, ps)) == PrintPieces(ReadBackAll(env, ps));
  }
}
