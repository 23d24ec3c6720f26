/** What every scan of any text keeps: it loses no text, and every reference it writes resolves. */
module ScanLaws {
  import opened Wrappers
  import opened Text
  import opened Schema
  import opened QuantityText
  import opened Scanner

  // ----- minted ids --------------------------------------------------------------------

  lemma MintInjective(prefix: string, index: nat, c: nat, d: nat)
    requires MintId(prefix, index, c) == MintId(prefix, index, d)
    ensures c == d
  {
    var p := prefix + "_" + NatText(index) + "_";
    assert MintId(prefix, index, c) == p + NatText(c) && MintId(prefix, index, d) == p + NatText(d);
    assert (p + NatText(c))[|p|..] == NatText(c) && (p + NatText(d))[|p|..] == NatText(d);
    ReadNatText(c);
    ReadNatText(d);
  }

  /** `id` was minted in this step with a counter from 1 to n. */
  ghost predicate Minted(prefix: string, index: nat, n: nat, id: string) {
    exists c: nat :: 1 <= c <= n && id == MintId(prefix, index, c)
  }

  lemma MintFresh(prefix: string, index: nat, n: nat, id: string)
    requires Minted(prefix, index, n, id)
    ensures id != MintId(prefix, index, n + 1)
    ensures Minted(prefix, index, n + 1, id)
  {
    var c: nat :| 1 <= c <= n && id == MintId(prefix, index, c);
    if id == MintId(prefix, index, n + 1) {
      MintInjective(prefix, index, c, n + 1);
    }
  }

  // ----- references ------------------------------------------------------------------------

  /** The slot points into the lists of the scan. */
  ghost predicate Resolves(st: Scan, c: Chunk) {
    match c
    case LiteralChunk(t) => t != ""
    case IngredientChunk(ref) => exists k :: 0 <= k < |st.ingredients| && st.ingredients[k].id == ref
    case CookwareChunk(ref) => exists k :: 0 <= k < |st.cookware| && st.cookware[k].id == ref
    case StateChunk(ref) => ref in st.uses
    case TimerChunk(i) => 0 <= i < |st.timers|
    case TemperatureChunk(i) => 0 <= i < |st.temperatures|
  }

  ghost predicate IdsMinted(ctx: Context, st: Scan) {
    && DistinctIngredientIds(st.ingredients) && DistinctCookwareIds(st.cookware)
    && (forall k :: 0 <= k < |st.ingredients| ==> Minted("iuse", ctx.index, st.counter, st.ingredients[k].id))
    && (forall k :: 0 <= k < |st.cookware| ==> Minted("cwu", ctx.index, st.counter, st.cookware[k].id))
  }

  ghost predicate PartsValid(ctx: Context, st: Scan) {
    && (forall k :: 0 <= k < |st.ingredients| && st.ingredients[k].quantity.Some? ==>
          ValidSpec(st.ingredients[k].quantity.value))
    && (forall k :: 0 <= k < |st.timers| ==>
          ValidQuantity(st.timers[k].quantity) && (st.timers[k].quantity.Scalar? || st.timers[k].quantity.Range?))
    && (forall u :: u in st.uses ==> exists n :: n in ctx.names && ctx.names[n] == u)
    && (forall i, j :: 0 <= i < j < |st.uses| ==> st.uses[i] != st.uses[j])
  }

  ghost predicate ChunksResolve(st: Scan) {
    forall k :: 0 <= k < |st.chunks| ==> Resolves(st, st.chunks[k])
  }

  /** The chunk is the place of one item of the lists. */
  predicate IsSlot(c: Chunk) {
    c.IngredientChunk? || c.CookwareChunk? || c.TimerChunk? || c.TemperatureChunk?
  }

  /** No two slots are the same: each item of the lists has at most one place in the text. */
  ghost predicate SlotsOnce(st: Scan) {
    forall i, j :: 0 <= i < j < |st.chunks| && IsSlot(st.chunks[i]) ==> st.chunks[i] != st.chunks[j]
  }

  /** Every item of the lists has its place in the text. */
  ghost predicate ItemsPlaced(st: Scan) {
    forall c: Chunk :: !c.LiteralChunk? && Resolves(st, c) ==> c in st.chunks
  }

  /** The ids are fresh, the parts valid, and the slots are exactly the items of the lists, each once. */
  ghost predicate WellScanned(ctx: Context, st: Scan) {
    IdsMinted(ctx, st) && PartsValid(ctx, st) && ChunksResolve(st) && SlotsOnce(st) && ItemsPlaced(st)
  }

  /** The lists of `after` extend those of `st`. */
  ghost predicate Extends(st: Scan, after: Scan) {
    && st.ingredients <= after.ingredients && st.cookware <= after.cookware && st.uses <= after.uses
    && st.timers <= after.timers && st.temperatures <= after.temperatures && st.counter <= after.counter
  }

  lemma ResolvesLater(st: Scan, after: Scan, c: Chunk)
    requires Extends(st, after) && Resolves(st, c)
    ensures Resolves(after, c)
  {
    match c
    case IngredientChunk(ref) =>
      var k :| 0 <= k < |st.ingredients| && st.ingredients[k].id == ref;
      assert after.ingredients[k].id == ref;
    case CookwareChunk(ref) =>
      var k :| 0 <= k < |st.cookware| && st.cookware[k].id == ref;
      assert after.cookware[k].id == ref;
    case _ =>
  }

  /** What a recognised token does to well-formed lists. */
  ghost predicate TokenKeeps(ctx: Context, st: Scan, t: Token) {
    && Extends(st, t.after) && t.after.chunks == st.chunks
    && IdsMinted(ctx, t.after) && PartsValid(ctx, t.after) && Resolves(t.after, t.chunk)
    && (IsSlot(t.chunk) ==> !Resolves(st, t.chunk)) && AddsOnly(st, t.after, t.chunk)
  }

  /** The chunk's own item is the only one that the lists of `after` have more. */
  ghost predicate AddsOnly(st: Scan, after: Scan, chunk: Chunk) {
    forall c: Chunk :: !c.LiteralChunk? && Resolves(after, c) ==> c == chunk || Resolves(st, c)
  }

  lemma StateKeeps(ctx: Context, s: string, st: Scan)
    requires WellScanned(ctx, st)
    ensures var r := StateToken(ctx, s, st); r.Success? && r.value.Some? ==> TokenKeeps(ctx, st, r.value.value)
  {
  }

  lemma IngredientKeeps(ctx: Context, mods: string, offset: nat, s: string, st: Scan)
    requires WellScanned(ctx, st)
    ensures var r := IngredientAfter(ctx, mods, offset, s, st);
            r.Success? && r.value.Some? ==> TokenKeeps(ctx, st, r.value.value)
  {
    var r := IngredientAfter(ctx, mods, offset, s, st);
    if r.Success? && r.value.Some? {
      ParsedSpecValid(ctx.env, Named(s).value.1, '=' in mods);
      IngredientAdded(ctx, st, r.value.value.after.ingredients[|st.ingredients|]);
    }
  }

  lemma IngredientAdded(ctx: Context, st: Scan, use: IngredientUse)
    requires WellScanned(ctx, st) && use.id == MintId("iuse", ctx.index, st.counter + 1)
    requires use.quantity.Some? ==> ValidSpec(use.quantity.value)
    ensures var after := st.(ingredients := st.ingredients + [use], counter := st.counter + 1);
            && Extends(st, after) && IdsMinted(ctx, after) && PartsValid(ctx, after)
            && Resolves(after, IngredientChunk(use.id))
            && !Resolves(st, IngredientChunk(use.id)) && AddsOnly(st, after, IngredientChunk(use.id))
  {
    var after := st.(ingredients := st.ingredients + [use], counter := st.counter + 1);
    assert after.ingredients[|st.ingredients|] == use;
    forall k | 0 <= k < |st.ingredients|
      ensures st.ingredients[k].id != use.id && Minted("iuse", ctx.index, st.counter + 1, st.ingredients[k].id) {
      MintFresh("iuse", ctx.index, st.counter, st.ingredients[k].id);
    }
    forall k | 0 <= k < |st.cookware| ensures Minted("cwu", ctx.index, st.counter + 1, st.cookware[k].id) {
      MintFresh("cwu", ctx.index, st.counter, st.cookware[k].id);
    }
  }

  lemma CookwareKeeps(ctx: Context, s: string, st: Scan)
    requires s != "" && WellScanned(ctx, st)
    ensures var r := CookwareToken(ctx, s, st); r.Success? && r.value.Some? ==> TokenKeeps(ctx, st, r.value.value)
  {
    var r := CookwareToken(ctx, s, st);
    if r.Success? && r.value.Some? {
      CookwareAdded(ctx, st, r.value.value.after.cookware[|st.cookware|]);
    }
  }

  lemma CookwareAdded(ctx: Context, st: Scan, use: CookwareUse)
    requires WellScanned(ctx, st) && use.id == MintId("cwu", ctx.index, st.counter + 1)
    ensures var after := st.(cookware := st.cookware + [use], counter := st.counter + 1);
            && Extends(st, after) && IdsMinted(ctx, after) && PartsValid(ctx, after)
            && Resolves(after, CookwareChunk(use.id))
            && !Resolves(st, CookwareChunk(use.id)) && AddsOnly(st, after, CookwareChunk(use.id))
  {
    var after := st.(cookware := st.cookware + [use], counter := st.counter + 1);
    assert after.cookware[|st.cookware|] == use;
    forall k | 0 <= k < |st.cookware|
      ensures st.cookware[k].id != use.id && Minted("cwu", ctx.index, st.counter + 1, st.cookware[k].id) {
      MintFresh("cwu", ctx.index, st.counter, st.cookware[k].id);
    }
    forall k | 0 <= k < |st.ingredients| ensures Minted("iuse", ctx.index, st.counter + 1, st.ingredients[k].id) {
      MintFresh("iuse", ctx.index, st.counter, st.ingredients[k].id);
    }
  }

  lemma TimerKeeps(ctx: Context, s: string, st: Scan)
    requires s != "" && WellScanned(ctx, st)
    ensures var r := TimerToken(ctx, s, st); r.Success? && r.value.Some? ==> TokenKeeps(ctx, st, r.value.value)
  {
    var n := Named(s[1..]);
    if n.Some? {
      ParsedSpecValid(ctx.env, n.value.1, false);
    }
  }

  lemma TemperatureKeeps(ctx: Context, s: string, st: Scan)
    requires WellScanned(ctx, st)
    ensures var r := TemperatureToken(ctx, s, st); r.Success? && r.value.Some? ==> TokenKeeps(ctx, st, r.value.value)
  {
    hide Braced, ParseTemperature;
  }

  lemma AnyTokenKeeps(ctx: Context, s: string, st: Scan)
    requires s != "" && IsSigil(s[0]) && WellScanned(ctx, st)
    ensures var r := TryToken(ctx, s, st); r.Success? && r.value.Some? ==> TokenKeeps(ctx, st, r.value.value)
  {
    hide WellScanned, TokenKeeps, StateToken, IngredientAfter, CookwareToken, TimerToken, TemperatureToken;
    StateKeeps(ctx, s, st);
    var k := 1 + ModifierSpan(s[1..]);
    IngredientKeeps(ctx, s[1..k], k, s[k..], st);
    CookwareKeeps(ctx, s, st);
    TimerKeeps(ctx, s, st);
    TemperatureKeeps(ctx, s, st);
  }

  lemma FlushKeeps(ctx: Context, literal: string, st: Scan)
    requires WellScanned(ctx, st)
    ensures WellScanned(ctx, Flush(literal, st))
  {
    var after := Flush(literal, st);
    forall k | 0 <= k < |after.chunks| ensures Resolves(after, after.chunks[k]) {
      if k < |st.chunks| {
        ResolvesLater(st, after, st.chunks[k]);
      }
    }
  }

  lemma AppendKeeps(ctx: Context, literal: string, st: Scan, t: Token)
    requires WellScanned(ctx, st) && TokenKeeps(ctx, st, t)
    ensures WellScanned(ctx, Append(Flush(literal, t.after), t.chunk))
  {
    hide Resolves, ItemsPlaced, ChunksResolve, SlotsOnce;
    AppendResolves(literal, st, t);
    AppendOnce(literal, st, t);
    AppendPlaces(literal, st, t);
  }

  /** The chunks after a token: those before, the prose in between, and the token's. */
  lemma AppendedAt(literal: string, st: Scan, t: Token, k: nat)
    requires t.after.chunks == st.chunks && k < |Append(Flush(literal, t.after), t.chunk).chunks|
    ensures var c := Append(Flush(literal, t.after), t.chunk).chunks[k];
            (k < |st.chunks| && c == st.chunks[k]) || (literal != "" && c == LiteralChunk(literal))
            || (k == |Append(Flush(literal, t.after), t.chunk).chunks| - 1 && c == t.chunk)
  {
  }

  lemma AppendResolves(literal: string, st: Scan, t: Token)
    requires ChunksResolve(st) && Extends(st, t.after) && t.after.chunks == st.chunks && Resolves(t.after, t.chunk)
    ensures ChunksResolve(Append(Flush(literal, t.after), t.chunk))
  {
    var after := Append(Flush(literal, t.after), t.chunk);
    forall k | 0 <= k < |after.chunks| ensures Resolves(after, after.chunks[k]) {
      AppendedAt(literal, st, t, k);
      if k < |st.chunks| {
        ResolvesLater(st, after, st.chunks[k]);
      }
      if k == |after.chunks| - 1 {
        ResolvesLater(t.after, after, t.chunk);
      }
    }
  }

  lemma AppendOnce(literal: string, st: Scan, t: Token)
    requires ChunksResolve(st) && SlotsOnce(st) && t.after.chunks == st.chunks
             && (IsSlot(t.chunk) ==> !Resolves(st, t.chunk))
    ensures SlotsOnce(Append(Flush(literal, t.after), t.chunk))
  {
    hide Resolves;
    var after := Append(Flush(literal, t.after), t.chunk);
    forall i, j | 0 <= i < j < |after.chunks| && IsSlot(after.chunks[i]) ensures after.chunks[i] != after.chunks[j] {
      AppendedAt(literal, st, t, i);
      AppendedAt(literal, st, t, j);
    }
  }

  lemma AppendPlaces(literal: string, st: Scan, t: Token)
    requires ItemsPlaced(st) && t.after.chunks == st.chunks && AddsOnly(st, t.after, t.chunk)
    ensures ItemsPlaced(Append(Flush(literal, t.after), t.chunk))
  {
    var after := Append(Flush(literal, t.after), t.chunk);
    forall c: Chunk | !c.LiteralChunk? && Resolves(after, c) ensures c in after.chunks {
      ResolvesLater(after, t.after, c);
      assert after.chunks[|after.chunks| - 1] == t.chunk;
      assert st.chunks <= after.chunks;
    }
  }

  /**
   Whatever text is scanned, ids are fresh, parts valid, and the slots are exactly the items of the lists, each once.
   */
  lemma {:induction false} ScanKeeps(ctx: Context, s: string, literal: string, st: Scan)
    requires WellScanned(ctx, st)
    ensures var r := ScanFrom(ctx, s, literal, st); r.Success? ==> WellScanned(ctx, r.value)
    decreases |s|
  {
    if s == "" {
      FlushKeeps(ctx, literal, st);
    } else if !IsSigil(s[0]) {
      ScanKeeps(ctx, s[1..], literal + [s[0]], st);
    } else {
      var t := TryToken(ctx, s, st);
      if t.Success? {
        AnyTokenKeeps(ctx, s, st);
        if t.value.Some? {
          AppendKeeps(ctx, literal, st, t.value.value);
          ScanKeeps(ctx, s[t.value.value.length..], "",
                    Append(Flush(literal, t.value.value.after), t.value.value.chunk));
        } else {
          ScanKeeps(ctx, s[1..], literal + [s[0]], st);
        }
      }
    }
  }

  // ----- nothing is lost ----------------------------------------------------------------------

  function Concat(pieces: seq<string>): string {
    if pieces == [] then "" else pieces[0] + Concat(pieces[1..])
  }

  /**
   The chunks are what the scanner makes of the text, one piece of it after the other: a literal chunk is its piece's
   text, and a token chunk is what the token at the start of the remaining text gives with the lists the scan has by
   then, its piece exactly what the token takes.
   */
  predicate Tiles(ctx: Context, st: Scan, chunks: seq<Chunk>, pieces: seq<string>, text: string)
    decreases |chunks|
  {
    if chunks == [] || pieces == [] then chunks == [] && pieces == [] && text == ""
    else
      && pieces[0] != "" && pieces[0] <= text
      && if chunks[0].LiteralChunk? then
           chunks[0].text == pieces[0]
             && Tiles(ctx, Append(st, chunks[0]), chunks[1..], pieces[1..], text[|pieces[0]|..])
         else
           && IsSigil(text[0])
           && var r := TryToken(ctx, text, st);
              && r.Success? && r.value.Some? && r.value.value.chunk == chunks[0] && r.value.value.length == |pieces[0]|
              && Tiles(ctx, Append(r.value.value.after, chunks[0]), chunks[1..], pieces[1..], text[|pieces[0]|..])
  }

  /** The pieces, one for each chunk, make up the text. */
  lemma {:induction false} TilesConcat(ctx: Context, st: Scan, chunks: seq<Chunk>, pieces: seq<string>, text: string)
    requires Tiles(ctx, st, chunks, pieces, text)
    ensures |pieces| == |chunks| && Concat(pieces) == text && forall k :: 0 <= k < |pieces| ==> pieces[k] != ""
    decreases |chunks|
  {
    hide TryToken;
    if chunks != [] {
      var rest := text[|pieces[0]|..];
      assert pieces[0] + rest == text;
      if chunks[0].LiteralChunk? {
        TilesConcat(ctx, Append(st, chunks[0]), chunks[1..], pieces[1..], rest);
      } else {
        var t := TryToken(ctx, text, st).value.value;
        TilesConcat(ctx, Append(t.after, chunks[0]), chunks[1..], pieces[1..], rest);
      }
      assert forall k :: 1 <= k < |pieces| ==> pieces[k] == pieces[1..][k - 1];
    }
  }

  lemma TokensAreNotLiterals(ctx: Context, s: string, st: Scan)
    requires s != "" && IsSigil(s[0])
    ensures var r := TryToken(ctx, s, st);
            r.Success? && r.value.Some? ==>
              !r.value.value.chunk.LiteralChunk? && r.value.value.after.chunks == st.chunks
  {
  }

  /** Prose flushed before a token or after it: the token is the same. */
  lemma TokenAfterFlush(ctx: Context, s: string, literal: string, st: Scan)
    requires s != "" && IsSigil(s[0])
    requires TryToken(ctx, s, st).Success? && TryToken(ctx, s, st).value.Some?
    ensures var t := TryToken(ctx, s, st).value.value;
            TryToken(ctx, s, Flush(literal, st)) == Success(Some(t.(after := Flush(literal, t.after))))
  {
    hide Braced, Named, ParseQuantity, ParseTimer, ParseAmount, ParseTemperature, MintId, ModifierSpan, Strip;
  }

  /**
   The scan cuts the text into consecutive non-empty pieces, one for each chunk it appends and in the same order:
   a literal chunk's piece is its text, a token chunk's piece is what the token took there.
   */
  lemma {:induction false} ScanTiles(ctx: Context, s: string, literal: string, st: Scan)
      returns (chunks: seq<Chunk>, pieces: seq<string>)
    requires ScanFrom(ctx, s, literal, st).Success?
    ensures ScanFrom(ctx, s, literal, st).value.chunks == st.chunks + chunks
    ensures Tiles(ctx, st, chunks, pieces, literal + s) && Concat(pieces) == literal + s
    decreases |s|
  {
    hide TryToken, Tiles;
    if s == "" {
      chunks, pieces := TileEnd(ctx, literal, st);
      assert literal + s == literal;
    } else if IsSigil(s[0]) && TryToken(ctx, s, st).value.Some? {
      var t := TryToken(ctx, s, st).value.value;
      TokensAreNotLiterals(ctx, s, st);
      TryTokenBounds(ctx, s, st);
      var more, after := ScanTiles(ctx, s[t.length..], "", Append(Flush(literal, t.after), t.chunk));
      chunks, pieces := TileToken(ctx, s, literal, st, t, more, after);
      AppendedChunks(literal, st, t, more);
    } else {
      chunks, pieces := ScanTiles(ctx, s[1..], literal + [s[0]], st);
      assert literal + [s[0]] + s[1..] == literal + s;
    }
    TilesConcat(ctx, st, chunks, pieces, literal + s);
  }

  lemma AppendedChunks(literal: string, st: Scan, t: Token, more: seq<Chunk>)
    requires t.after.chunks == st.chunks
    ensures Append(Flush(literal, t.after), t.chunk).chunks + more
         == st.chunks + ((if literal == "" then [] else [LiteralChunk(literal)]) + ([t.chunk] + more))
  {
  }

  lemma TileEnd(ctx: Context, literal: string, st: Scan) returns (chunks: seq<Chunk>, pieces: seq<string>)
    ensures chunks == if literal == "" then [] else [LiteralChunk(literal)]
    ensures Tiles(ctx, st, chunks, pieces, literal)
  {
    if literal == "" {
      chunks, pieces := [], [];
    } else {
      chunks, pieces := [LiteralChunk(literal)], [literal];
      assert literal[|literal|..] == "";
      assert Tiles(ctx, Append(st, chunks[0]), [], [], "");
    }
  }

  lemma TileToken(ctx: Context, s: string, literal: string, st: Scan, t: Token, more: seq<Chunk>, after: seq<string>)
      returns (chunks: seq<Chunk>, pieces: seq<string>)
    requires s != "" && IsSigil(s[0]) && TryToken(ctx, s, st) == Success(Some(t)) && !t.chunk.LiteralChunk?
    requires t.length <= |s| && t.length > 0
    requires Tiles(ctx, Append(Flush(literal, t.after), t.chunk), more, after, "" + s[t.length..])
    ensures chunks == (if literal == "" then [] else [LiteralChunk(literal)]) + ([t.chunk] + more)
    ensures Tiles(ctx, st, chunks, pieces, literal + s)
  {
    var piece := s[..t.length];
    Glue(s, t.length);
    TokenAfterFlush(ctx, s, literal, st);
    hide TryToken;
    chunks, pieces := [t.chunk] + more, [piece] + after;
    ConsParts(t.chunk, more, piece, after);
    assert Tiles(ctx, Flush(literal, st), chunks, pieces, s);
    if literal != "" {
      LiteralTile(ctx, st, literal, chunks, pieces, s);
      chunks, pieces := [LiteralChunk(literal)] + chunks, [literal] + pieces;
    }
  }

  lemma LiteralTile(ctx: Context, st: Scan, literal: string, chunks: seq<Chunk>, pieces: seq<string>, s: string)
    requires literal != "" && Tiles(ctx, Append(st, LiteralChunk(literal)), chunks, pieces, s)
    ensures Tiles(ctx, st, [LiteralChunk(literal)] + chunks, [literal] + pieces, literal + s)
  {
    ConsParts(LiteralChunk(literal), chunks, literal, pieces);
    assert (literal + s)[|literal|..] == s;
    hide TryToken;
  }

  lemma ConsParts(c: Chunk, chunks: seq<Chunk>, piece: string, pieces: seq<string>)
    ensures ([c] + chunks)[0] == c && ([c] + chunks)[1..] == chunks
    ensures ([piece] + pieces)[0] == piece && ([piece] + pieces)[1..] == pieces
  {
  }

  lemma Glue(s: string, n: nat)
    requires n <= |s|
    ensures s[..n] <= s && "" + s == s && "" + s[n..] == s[n..]
    ensures forall c: seq<Chunk> :: [] + c == c
  {
  }

  lemma TryTokenBounds(ctx: Context, s: string, st: Scan)
    requires s != "" && IsSigil(s[0])
    ensures var r := TryToken(ctx, s, st);
            r.Success? && r.value.Some? ==> 0 < r.value.value.length <= |s|
  {
    var r := TryToken(ctx, s, st);
  }
}
