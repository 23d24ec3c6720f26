/** Scanning the text of a whole step gives back its pieces, in order, and nothing else. */
module StepRoundTrip {
  import opened Wrappers
  import opened Decimals
  import opened Schema
  import opened QuantityText
  import opened StepText
  import opened Scanner
  import opened Printer
  import opened TokenText
  import ScanLaws

  // ----- what the parser makes of a list of pieces ---------------------------------------------

  predicate AllWritable(ps: seq<Piece>) {
    forall k :: 0 <= k < |ps| ==> WritablePiece(ps[k])
  }

  /** Pieces the dialect can write, no two pieces of prose side by side. */
  predicate WritablePieces(ps: seq<Piece>) {
    && AllWritable(ps)
    && (forall k :: 0 <= k < |ps| - 1 ==> !(ps[k].Prose? && ps[k + 1].Prose?))
  }

  predicate StatesNamed(ps: seq<Piece>, names: map<string, string>) {
    forall k :: 0 <= k < |ps| && ps[k].State? ==> ps[k].name in names
  }

  /** The parser takes the piece as a token: it is not prose, and a state is one with a known name. */
  predicate IsRead(names: map<string, string>, p: Piece) {
    !p.Prose? && (p.State? ==> p.name in names)
  }

  function Joined(literal: string): seq<Piece> {
    if literal == "" then [] else [Prose(literal)]
  }

  /** The pieces as they are read, after `literal`: an unknown state reference is text, and text joins up. */
  function Regroup(names: map<string, string>, literal: string, ps: seq<Piece>): (qs: seq<Piece>)
    ensures StatesNamed(qs, names)
    decreases |ps|
  {
    if ps == [] then Joined(literal)
    else if IsRead(names, ps[0]) then Joined(literal) + [ps[0]] + Regroup(names, "", ps[1..])
    else Regroup(names, literal + PrintPiece(ps[0]), ps[1..])
  }

  /** Pieces whose states are all known, no two of prose side by side, are read as they are. */
  lemma {:induction false} RegroupSame(names: map<string, string>, literal: string, ps: seq<Piece>)
    requires WritablePieces(ps) && StatesNamed(ps, names)
    requires literal != "" && ps != [] ==> !ps[0].Prose?
    ensures Regroup(names, literal, ps) == Joined(literal) + ps
    decreases |ps|
  {
    hide PrintPiece, WritablePiece;
    if ps != [] {
      TailPieces(ps, names);
      assert ps == [ps[0]] + ps[1..];
      if ps[0].Prose? {
        ProsePrints(ps[0]);
        assert literal + PrintPiece(ps[0]) == ps[0].text;
        RegroupSame(names, ps[0].text, ps[1..]);
      } else {
        RegroupSame(names, "", ps[1..]);
      }
    }
  }

  lemma ProsePrints(p: Piece)
    requires p.Prose? && WritablePiece(p)
    ensures PrintPiece(p) == p.text != ""
  {
  }

  lemma TailPieces(ps: seq<Piece>, names: map<string, string>)
    requires ps != [] && WritablePieces(ps) && StatesNamed(ps, names)
    ensures WritablePieces(ps[1..]) && StatesNamed(ps[1..], names)
    ensures ps[0].Prose? && |ps| > 1 ==> !ps[1..][0].Prose?
  {
    assert forall k :: 0 <= k < |ps| - 1 ==> ps[1..][k] == ps[k + 1];
  }

  /** What scanning one piece does to the lists. */
  function Absorb(ctx: Context, p: Piece, st: Scan): Scan
    requires p.State? ==> p.name in ctx.names
  {
    if p.Prose? then Append(st, LiteralChunk(p.text)) else Append(TokenAfter(ctx, p, st), TokenChunk(ctx, p, st))
  }

  function AbsorbAll(ctx: Context, ps: seq<Piece>, st: Scan): Scan
    requires StatesNamed(ps, ctx.names)
  {
    if ps == [] then st else AbsorbAll(ctx, ps[1..], Absorb(ctx, ps[0], st))
  }

  lemma {:induction false} ProseSkipped(ctx: Context, t: string, rest: string, literal: string, st: Scan)
    requires NoSigil(t)
    ensures ScanFrom(ctx, t + rest, literal, st) == ScanFrom(ctx, rest, literal + t, st)
  {
    if t == "" {
      assert t + rest == rest && literal + t == literal;
    } else {
      assert (t + rest)[1..] == t[1..] + rest && (t + rest)[0] == t[0];
      ProseSkipped(ctx, t[1..], rest, literal + [t[0]], st);
      assert literal + [t[0]] + t[1..] == literal + t;
    }
  }

  /** A token first: whatever prose is pending is flushed before the token's chunk. */
  lemma TokenStep(ctx: Context, p: Piece, rest: string, literal: string, st: Scan)
    requires !p.Prose? && WritablePiece(p) && (p.State? ==> p.name in ctx.names)
    ensures ScanFrom(ctx, PrintPiece(p) + rest, literal, st)
            == ScanFrom(ctx, rest, "", Absorb(ctx, p, Flush(literal, st)))
  {
    PieceScans(ctx, p, rest, st);
    var text := PrintPiece(p) + rest;
    DropPrefix(PrintPiece(p), rest);
    FlushCommutes(ctx, p, literal, st);
    hide TryToken, PrintPiece, TokenAfter, TokenChunk;
  }

  lemma DropPrefix(a: string, b: string)
    ensures (a + b)[|a|..] == b
  {
  }

  lemma FlushCommutes(ctx: Context, p: Piece, literal: string, st: Scan)
    requires !p.Prose? && (p.State? ==> p.name in ctx.names)
    ensures Append(Flush(literal, TokenAfter(ctx, p, st)), TokenChunk(ctx, p, st)) == Absorb(ctx, p, Flush(literal, st))
  {
    hide MintId, ReadBackQuantity, Plain;
  }

  /** Prose, and a reference to an unknown state, join the prose that is pending. */
  lemma UnreadSkipped(ctx: Context, p: Piece, rest: string, literal: string, st: Scan)
    requires WritablePiece(p) && !IsRead(ctx.names, p)
    ensures ScanFrom(ctx, PrintPiece(p) + rest, literal, st) == ScanFrom(ctx, rest, literal + PrintPiece(p), st)
  {
    if p.Prose? {
      ProseSkipped(ctx, p.text, rest, literal, st);
    } else {
      UnknownSkipped(ctx, p.name, rest, literal, st);
    }
  }

  lemma UnknownSkipped(ctx: Context, name: string, rest: string, literal: string, st: Scan)
    requires IsProducedName(name) && name !in ctx.names
    ensures var t := PrintPiece(State(name));
            ScanFrom(ctx, t + rest, literal, st) == ScanFrom(ctx, rest, literal + t, st)
  {
    hide PrintPiece, TryToken, IsProducedName;
    var t := PrintPiece(State(name));
    StateReferenceIff(ctx, name, rest, st);
    StateText(name);
    assert (t + rest)[1..] == t[1..] + rest;
    ProseSkipped(ctx, t[1..], rest, literal + [t[0]], st);
    assert literal + [t[0]] + t[1..] == literal + t;
  }

  lemma StateText(name: string)
    requires IsProducedName(name)
    ensures var t := PrintPiece(State(name)); t != "" && NoSigil(t[1..])
  {
  }

  lemma {:induction false} AbsorbJoined(ctx: Context, literal: string, p: Piece, rest: seq<Piece>, st: Scan)
    requires IsRead(ctx.names, p) && StatesNamed(rest, ctx.names)
    ensures StatesNamed(Joined(literal) + [p] + rest, ctx.names)
    ensures AbsorbAll(ctx, Joined(literal) + [p] + rest, st) == AbsorbAll(ctx, rest, Absorb(ctx, p, Flush(literal, st)))
  {
    hide TokenAfter, TokenChunk;
    assert ([p] + rest)[1..] == rest;
    if literal == "" {
      assert Joined(literal) + [p] + rest == [p] + rest;
    } else {
      assert Joined(literal) + [p] + rest == [Prose(literal)] + ([p] + rest);
      assert ([Prose(literal)] + ([p] + rest))[1..] == [p] + rest;
    }
  }

  /** Scanning printed pieces, with the prose before them pending, appends exactly those pieces, regrouped. */
  lemma {:induction false} PiecesScan(ctx: Context, ps: seq<Piece>, literal: string, st: Scan)
    requires AllWritable(ps)
    ensures ScanFrom(ctx, PrintPieces(ps), literal, st) == Success(AbsorbAll(ctx, Regroup(ctx.names, literal, ps), st))
  {
    hide WritablePiece, PrintPiece, TokenAfter, TokenChunk, TryToken;
    if ps != [] {
      var p, rest := ps[0], ps[1..];
      assert AllWritable(rest);
      if IsRead(ctx.names, p) {
        TokenStep(ctx, p, PrintPieces(rest), literal, st);
        PiecesScan(ctx, rest, "", Absorb(ctx, p, Flush(literal, st)));
        AbsorbJoined(ctx, literal, p, Regroup(ctx.names, "", rest), st);
      } else {
        UnreadSkipped(ctx, p, PrintPieces(rest), literal, st);
        PiecesScan(ctx, rest, literal + PrintPiece(p), st);
      }
    }
  }

  // ----- what the scanned lists show -----------------------------------------------------------------

  /** The chunk, read in the lists of the scan, shows the piece. */
  ghost predicate Shows(ctx: Context, st: Scan, c: Chunk, p: Piece) {
    match c
    case LiteralChunk(t) => p == Prose(t)
    case IngredientChunk(ref) =>
      exists k :: 0 <= k < |st.ingredients| && st.ingredients[k].id == ref
               && p == UsePiece(st.ingredients[k])
    case CookwareChunk(ref) =>
      exists k :: 0 <= k < |st.cookware| && st.cookware[k].id == ref
               && p == ToolPiece(st.cookware[k])
    case StateChunk(ref) => p.State? && p.name in ctx.names && ctx.names[p.name] == ref && ref in st.uses
    case TimerChunk(i) => 0 <= i < |st.timers| && p == Duration(st.timers[i])
    case TemperatureChunk(i) => 0 <= i < |st.temperatures| && p == Heat(st.temperatures[i])
  }

  ghost predicate ShowsAll(ctx: Context, st: Scan, ps: seq<Piece>) {
    |st.chunks| == |ps| && forall k :: 0 <= k < |ps| ==> Shows(ctx, st, st.chunks[k], ps[k])
  }

  lemma ShowsLater(ctx: Context, st: Scan, after: Scan, c: Chunk, p: Piece)
    requires ScanLaws.Extends(st, after) && Shows(ctx, st, c, p)
    ensures Shows(ctx, after, c, p)
  {
    match c
    case IngredientChunk(ref) =>
      var k :| 0 <= k < |st.ingredients| && st.ingredients[k].id == ref
            && p == UsePiece(st.ingredients[k]);
      assert after.ingredients[k] == st.ingredients[k];
    case CookwareChunk(ref) =>
      var k :| 0 <= k < |st.cookware| && st.cookware[k].id == ref && p == ToolPiece(st.cookware[k]);
      assert after.cookware[k] == st.cookware[k];
    case _ =>
  }

  lemma TokenShows(ctx: Context, p: Piece, st: Scan)
    requires !p.Prose? && (p.State? ==> p.name in ctx.names)
    ensures var after := TokenAfter(ctx, p, st);
            && ScanLaws.Extends(st, after) && after.chunks == st.chunks
            && Shows(ctx, after, TokenChunk(ctx, p, st), ReadBackPiece(ctx.env, p))
  {
    hide MintId, ReadBackQuantity, Plain;
    var after := TokenAfter(ctx, p, st);
    match p
    case Ingredient(_, _, _, _) => assert after.ingredients[|st.ingredients|].id == TokenChunk(ctx, p, st).ref;
    case Tool(_, _, _) => assert after.cookware[|st.cookware|].id == TokenChunk(ctx, p, st).ref;
    case _ =>
  }

  /** The state ids a list of pieces names. */
  ghost predicate NamesState(ctx: Context, ps: seq<Piece>, id: string) {
    exists k :: 0 <= k < |ps| && ps[k].State? && ps[k].name in ctx.names && ctx.names[ps[k].name] == id
  }

  ghost predicate UsesExactly(ctx: Context, st: Scan, ps: seq<Piece>) {
    forall id :: id in st.uses <==> NamesState(ctx, ps, id)
  }

  function ReadBackAll(env: Env, ps: seq<Piece>): (qs: seq<Piece>)
    ensures |qs| == |ps|
  {
    seq(|ps|, k requires 0 <= k < |ps| => ReadBackPiece(env, ps[k]))
  }

  lemma AbsorbShows(ctx: Context, done: seq<Piece>, p: Piece, st: Scan)
    requires p.State? ==> p.name in ctx.names
    requires ShowsAll(ctx, st, ReadBackAll(ctx.env, done)) && UsesExactly(ctx, st, done)
    ensures var after := Absorb(ctx, p, st);
            ShowsAll(ctx, after, ReadBackAll(ctx.env, done + [p])) && UsesExactly(ctx, after, done + [p])
  {
    var after, shown := Absorb(ctx, p, st), ReadBackAll(ctx.env, done + [p]);
    if !p.Prose? {
      TokenShows(ctx, p, st);
      ShowsLater(ctx, TokenAfter(ctx, p, st), after, TokenChunk(ctx, p, st), ReadBackPiece(ctx.env, p));
    }
    forall k | 0 <= k < |shown| ensures Shows(ctx, after, after.chunks[k], shown[k]) {
      if k < |done| {
        assert shown[k] == ReadBackAll(ctx.env, done)[k];
        ShowsLater(ctx, st, after, st.chunks[k], shown[k]);
      }
    }
    AbsorbUses(ctx, done, p, st);
  }

  lemma AbsorbUses(ctx: Context, done: seq<Piece>, p: Piece, st: Scan)
    requires p.State? ==> p.name in ctx.names
    requires UsesExactly(ctx, st, done)
    ensures UsesExactly(ctx, Absorb(ctx, p, st), done + [p])
  {
    hide MintId, ReadBackQuantity, Plain;
    var all := done + [p];
    assert all[|done|] == p && forall k :: 0 <= k < |done| ==> all[k] == done[k];
    forall id ensures NamesState(ctx, all, id) <==> NamesState(ctx, done, id) || (p.State? && ctx.names[p.name] == id) {
      if NamesState(ctx, done, id) {
        var k :| 0 <= k < |done| && done[k].State? && done[k].name in ctx.names && ctx.names[done[k].name] == id;
        assert all[k] == done[k];
      }
    }
  }

  lemma {:induction false} AbsorbAllShows(ctx: Context, done: seq<Piece>, ps: seq<Piece>, st: Scan)
    requires StatesNamed(ps, ctx.names)
    requires ShowsAll(ctx, st, ReadBackAll(ctx.env, done)) && UsesExactly(ctx, st, done)
    ensures var after := AbsorbAll(ctx, ps, st);
            ShowsAll(ctx, after, ReadBackAll(ctx.env, done + ps)) && UsesExactly(ctx, after, done + ps)
    decreases |ps|
  {
    if ps == [] {
      assert done + ps == done;
    } else {
      AbsorbShows(ctx, done, ps[0], st);
      assert forall k :: 0 <= k < |ps| - 1 ==> ps[1..][k] == ps[k + 1];
      AbsorbAllShows(ctx, done + [ps[0]], ps[1..], Absorb(ctx, ps[0], st));
      assert done + [ps[0]] + ps[1..] == done + ps;
    }
  }

  // ----- the lists, in order -----------------------------------------------------------------------------

  function IngredientsAmong(ps: seq<Piece>): seq<Piece> {
    if ps == [] then []
    else IngredientsAmong(ps[..|ps| - 1]) + if ps[|ps| - 1].Ingredient? then [ps[|ps| - 1]] else []
  }

  function ToolsAmong(ps: seq<Piece>): seq<Piece> {
    if ps == [] then []
    else ToolsAmong(ps[..|ps| - 1]) + if ps[|ps| - 1].Tool? then [ps[|ps| - 1]] else []
  }

  function TimersAmong(ps: seq<Piece>): seq<Timer> {
    if ps == [] then []
    else TimersAmong(ps[..|ps| - 1]) + if ps[|ps| - 1].Duration? then [ps[|ps| - 1].timer] else []
  }

  function HeatsAmong(ps: seq<Piece>): seq<Temperature> {
    if ps == [] then []
    else HeatsAmong(ps[..|ps| - 1]) + if ps[|ps| - 1].Heat? then [ps[|ps| - 1].temperature] else []
  }

  function UsePieces(uses: seq<IngredientUse>): (ps: seq<Piece>)
    ensures |ps| == |uses|
  {
    seq(|uses|, k requires 0 <= k < |uses| => UsePiece(uses[k]))
  }

  function ToolPieces(uses: seq<CookwareUse>): (ps: seq<Piece>)
    ensures |ps| == |uses|
  {
    seq(|uses|, k requires 0 <= k < |uses| => ToolPiece(uses[k]))
  }

  /** The lists hold the pieces of each kind, each once, in the order of the text. */
  ghost predicate Lists(uses: seq<IngredientUse>, tools: seq<CookwareUse>, timers: seq<Timer>,
                        temperatures: seq<Temperature>, ps: seq<Piece>) {
    && UsePieces(uses) == IngredientsAmong(ps) && ToolPieces(tools) == ToolsAmong(ps)
    && timers == TimersAmong(ps) && temperatures == HeatsAmong(ps)
  }

  ghost predicate ScanLists(st: Scan, ps: seq<Piece>) {
    Lists(st.ingredients, st.cookware, st.timers, st.temperatures, ps)
  }

  lemma AmongSnoc(ps: seq<Piece>, p: Piece)
    ensures IngredientsAmong(ps + [p]) == IngredientsAmong(ps) + if p.Ingredient? then [p] else []
    ensures ToolsAmong(ps + [p]) == ToolsAmong(ps) + if p.Tool? then [p] else []
    ensures TimersAmong(ps + [p]) == TimersAmong(ps) + if p.Duration? then [p.timer] else []
    ensures HeatsAmong(ps + [p]) == HeatsAmong(ps) + if p.Heat? then [p.temperature] else []
  {
    assert (ps + [p])[..|ps|] == ps;
  }

  lemma UsePiecesSnoc(uses: seq<IngredientUse>, u: IngredientUse)
    ensures UsePieces(uses + [u]) == UsePieces(uses) + [UsePiece(u)]
  {
  }

  lemma ToolPiecesSnoc(tools: seq<CookwareUse>, t: CookwareUse)
    ensures ToolPieces(tools + [t]) == ToolPieces(tools) + [ToolPiece(t)]
  {
  }

  lemma AddNothing(s: seq<Piece>, t: seq<Timer>, h: seq<Temperature>)
    ensures s + [] == s && t + [] == t && h + [] == h
  {
  }

  lemma AbsorbLists(ctx: Context, ps: seq<Piece>, p: Piece, st: Scan)
    requires (p.State? ==> p.name in ctx.names) && ScanLists(st, ps)
    ensures ScanLists(Absorb(ctx, p, st), ps + [ReadBackPiece(ctx.env, p)])
  {
    hide MintId, ReadBackQuantity, Plain, IngredientsAmong, ToolsAmong, TimersAmong, HeatsAmong, UsePieces, ToolPieces;
    AmongSnoc(ps, ReadBackPiece(ctx.env, p));
    AddNothing(IngredientsAmong(ps), TimersAmong(ps), HeatsAmong(ps));
    AddNothing(ToolsAmong(ps), [], []);
    match p
    case Ingredient(_, _, _, _) =>
      UsePiecesSnoc(st.ingredients, TokenAfter(ctx, p, st).ingredients[|st.ingredients|]);
    case Tool(_, _, _) =>
      ToolPiecesSnoc(st.cookware, TokenAfter(ctx, p, st).cookware[|st.cookware|]);
    case _ =>
  }

  lemma ReadBackSnoc(env: Env, ps: seq<Piece>, p: Piece)
    ensures ReadBackAll(env, ps + [p]) == ReadBackAll(env, ps) + [ReadBackPiece(env, p)]
  {
    hide ReadBackPiece;
  }

  lemma {:induction false} AbsorbAllLists(ctx: Context, done: seq<Piece>, ps: seq<Piece>, st: Scan)
    requires StatesNamed(ps, ctx.names) && ScanLists(st, ReadBackAll(ctx.env, done))
    ensures ScanLists(AbsorbAll(ctx, ps, st), ReadBackAll(ctx.env, done + ps))
    decreases |ps|
  {
    if ps == [] {
      assert done + ps == done;
    } else {
      AbsorbLists(ctx, ReadBackAll(ctx.env, done), ps[0], st);
      ReadBackSnoc(ctx.env, done, ps[0]);
      assert forall k :: 0 <= k < |ps| - 1 ==> ps[1..][k] == ps[k + 1];
      AbsorbAllLists(ctx, done + [ps[0]], ps[1..], Absorb(ctx, ps[0], st));
      assert done + [ps[0]] + ps[1..] == done + ps;
    }
  }

  // ----- a whole step -----------------------------------------------------------------------------------

  /** What a step's pieces are read as. */
  function PiecesRead(ctx: Context, ps: seq<Piece>): seq<Piece> {
    Regroup(ctx.names, "", ps)
  }

  /** What scanning a step's pieces collects. */
  function Scanned(ctx: Context, ps: seq<Piece>): Scan {
    AbsorbAll(ctx, PiecesRead(ctx, ps), START)
  }

  /** The scan of printed pieces succeeds, its chunks show the pieces as read, its uses and lists are theirs. */
  lemma {:induction false} StepScans(ctx: Context, ps: seq<Piece>)
    requires AllWritable(ps)
    ensures ScanFrom(ctx, PrintPieces(ps), "", START) == Success(Scanned(ctx, ps))
    ensures ShowsAll(ctx, Scanned(ctx, ps), ReadBackAll(ctx.env, PiecesRead(ctx, ps)))
    ensures UsesExactly(ctx, Scanned(ctx, ps), PiecesRead(ctx, ps))
    ensures ScanLists(Scanned(ctx, ps), ReadBackAll(ctx.env, PiecesRead(ctx, ps)))
  {
    hide AllWritable;
    PiecesScan(ctx, ps, "", START);
    var qs := PiecesRead(ctx, ps);
    AbsorbAllShows(ctx, [], qs, START);
    AbsorbAllLists(ctx, [], qs, START);
    assert [] + qs == qs;
  }

  /** The states a step uses, once it is read, are those its pieces name. */
  lemma {:induction false} RegroupNames(ctx: Context, literal: string, ps: seq<Piece>, id: string)
    ensures NamesState(ctx, Regroup(ctx.names, literal, ps), id) <==> NamesState(ctx, ps, id)
    decreases |ps|
  {
    hide PrintPiece;
    if ps != [] {
      var p, rest := ps[0], ps[1..];
      var after := if IsRead(ctx.names, p) then "" else literal + PrintPiece(p);
      RegroupNames(ctx, after, rest, id);
      assert ps == [p] + rest;
      NamesConcat(ctx, [p], rest, id);
      if IsRead(ctx.names, p) {
        NamesConcat(ctx, Joined(literal) + [p], Regroup(ctx.names, "", rest), id);
        NamesConcat(ctx, Joined(literal), [p], id);
      }
    }
  }

  lemma NamesConcat(ctx: Context, ps: seq<Piece>, qs: seq<Piece>, id: string)
    ensures NamesState(ctx, ps + qs, id) <==> NamesState(ctx, ps, id) || NamesState(ctx, qs, id)
  {
    var rs := ps + qs;
    assert forall k :: 0 <= k < |ps| ==> rs[k] == ps[k];
    assert forall k :: 0 <= k < |qs| ==> rs[|ps| + k] == qs[k];
    if NamesState(ctx, rs, id) {
      var k :| 0 <= k < |rs| && rs[k].State? && rs[k].name in ctx.names && ctx.names[rs[k].name] == id;
      assert rs[k] == if k < |ps| then ps[k] else qs[k - |ps|];
    }
  }

  /** Regrouping moves no character, before the round trip and after it. */
  lemma {:induction false} RegroupPrints(env: Env, names: map<string, string>, literal: string, ps: seq<Piece>)
    ensures PrintPieces(ReadBackAll(env, Regroup(names, literal, ps))) == literal + PrintPieces(ReadBackAll(env, ps))
    decreases |ps|
  {
    hide PrintPiece, ReadBackPiece;
    if ps == [] {
      JoinedPrints(env, literal);
      assert PrintPieces(ReadBackAll(env, ps)) == "";
      assert literal + "" == literal;
    } else {
      var p, rest := ps[0], ps[1..];
      assert ps == [p] + rest;
      ReadBackConcat(env, [p], rest);
      PrintPiecesConcat(ReadBackAll(env, [p]), ReadBackAll(env, rest));
      OnePrints(env, p);
      if IsRead(names, p) {
        RegroupPrints(env, names, "", rest);
        var more := Regroup(names, "", rest);
        ReadBackConcat(env, Joined(literal) + [p], more);
        ReadBackConcat(env, Joined(literal), [p]);
        PrintPiecesConcat(ReadBackAll(env, Joined(literal) + [p]), ReadBackAll(env, more));
        PrintPiecesConcat(ReadBackAll(env, Joined(literal)), ReadBackAll(env, [p]));
        JoinedPrints(env, literal);
        hide PrintPieces, ReadBackAll, Regroup, Joined;
        var text := PrintPieces(ReadBackAll(env, rest));
        assert "" + text == text;
        Assoc(literal, PrintPiece(ReadBackPiece(env, p)), text);
      } else {
        UnreadStays(env, names, p);
        RegroupPrints(env, names, literal + PrintPiece(p), rest);
        Assoc(literal, PrintPiece(p), PrintPieces(ReadBackAll(env, rest)));
      }
    }
  }

  lemma UnreadStays(env: Env, names: map<string, string>, p: Piece)
    requires !IsRead(names, p)
    ensures ReadBackPiece(env, p) == p
  {
  }

  lemma OnePrints(env: Env, p: Piece)
    ensures PrintPieces(ReadBackAll(env, [p])) == PrintPiece(ReadBackPiece(env, p))
  {
    hide PrintPiece, ReadBackPiece;
    var qs := ReadBackAll(env, [p]);
    assert qs[1..] == [] && qs[0] == ReadBackPiece(env, p);
    assert PrintPiece(qs[0]) + "" == PrintPiece(qs[0]);
  }

  lemma JoinedPrints(env: Env, literal: string)
    ensures PrintPieces(ReadBackAll(env, Joined(literal))) == literal
  {
    if literal != "" {
      OnePrints(env, Prose(literal));
    }
  }

  lemma ReadBackConcat(env: Env, ps: seq<Piece>, qs: seq<Piece>)
    ensures ReadBackAll(env, ps + qs) == ReadBackAll(env, ps) + ReadBackAll(env, qs)
  {
    hide ReadBackPiece;
  }
}
