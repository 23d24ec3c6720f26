/** How any text is cut: into paragraphs, each into one line, and a line into its body and its produced name. */
module Paragraphs {
  import opened Wrappers
  import opened Text
  import opened Schema
  import opened StepText
  import opened Scanner
  import opened Parser
  import ScanLaws

  predicate AllSpace(s: string) {
    forall k :: 0 <= k < |s| ==> IsSpace(s[k])
  }

  /** White space with two line ends in it. */
  predicate IsBreak(s: string) {
    AllSpace(s) && exists i, j :: 0 <= i < j < |s| && s[i] == '\n' && s[j] == '\n'
  }

  /** No blank line: between two line ends there is something else than white space. */
  predicate NoBlankLine(s: string) {
    forall i, j :: 0 <= i < j < |s| && s[i] == '\n' && s[j] == '\n' ==> !AllSpace(s[i..j])
  }

  /** A paragraph: not empty, trimmed, and without a blank line; it may have several lines. */
  predicate IsParagraph(s: string) {
    s != "" && Trimmed(s) && NoBlankLine(s)
  }

  // ----- white space at the ends ----------------------------------------------------------------

  lemma {:induction false} SpanAll(ws: string, rest: string)
    requires AllSpace(ws) && (rest == "" || !IsSpace(rest[0]))
    ensures SpaceSpan(ws + rest) == |ws|
  {
    if ws == "" {
      assert ws + rest == rest;
    } else {
      assert (ws + rest)[1..] == ws[1..] + rest && (ws + rest)[0] == ws[0];
      SpanAll(ws[1..], rest);
    }
  }

  lemma {:induction false} StripEnd(s: string, ws: string)
    requires AllSpace(ws)
    ensures StripRight(s + ws) == StripRight(s)
    decreases |ws|
  {
    if ws == "" {
      assert s + ws == s;
    } else {
      var n := |ws| - 1;
      assert (s + ws)[..|s + ws| - 1] == s + ws[..n] && (s + ws)[|s + ws| - 1] == ws[n];
      StripEnd(s, ws[..n]);
    }
  }

  lemma {:induction false} StripStart(ws: string, s: string)
    requires AllSpace(ws)
    ensures StripLeft(ws + s) == StripLeft(s)
    decreases |ws|
  {
    if ws == "" {
      assert ws + s == s;
    } else {
      assert (ws + s)[1..] == ws[1..] + s && (ws + s)[0] == ws[0];
      StripStart(ws[1..], s);
      var n := SpaceSpan(ws[1..] + s);
      assert (ws + s)[1 + n..] == (ws[1..] + s)[n..];
    }
  }

  /** White space around a text is stripped, whatever it is. */
  lemma {:induction false} StripAround(before: string, s: string, after: string)
    requires AllSpace(before) && AllSpace(after)
    ensures Strip(before + s + after) == Strip(s)
  {
    hide Strip, StripLeft, StripRight, AllSpace;
    assert before + s + after == before + (s + after);
    StripIs(before + (s + after));
    StripStart(before, s + after);
    StripAfter(s, after);
  }

  lemma StripIs(s: string)
    ensures Strip(s) == StripRight(StripLeft(s))
  {
    hide StripRight, SpaceSpan;
  }

  lemma StripAfter(s: string, after: string)
    requires AllSpace(after)
    ensures StripRight(StripLeft(s + after)) == Strip(s)
  {
    if SpaceSpan(s) < |s| {
      SpanInside(s, after);
      var k := SpaceSpan(s);
      assert (s + after)[k..] == s[k..] + after;
      StripEnd(s[k..], after);
    } else {
      assert AllSpace(s + after);
      assert s + after == (s + after) + "";
      StripStart(s + after, "");
      assert s[|s|..] == "";
    }
  }

  lemma {:induction false} SpanInside(s: string, after: string)
    requires SpaceSpan(s) < |s|
    ensures SpaceSpan(s + after) == SpaceSpan(s)
  {
    assert (s + after)[0] == s[0];
    if IsSpace(s[0]) {
      assert (s + after)[1..] == s[1..] + after;
      SpanInside(s[1..], after);
    }
  }

  // ----- paragraphs --------------------------------------------------------------------------------

  lemma {:induction false} LastNewlineIs(s: string)
    ensures var k := LastNewline(s);
            && (k >= 0 ==> s[k] == '\n') && forall j :: k < j < |s| ==> s[j] != '\n'
  {
    if s != "" && s[|s| - 1] != '\n' {
      LastNewlineIs(s[..|s| - 1]);
      assert forall j :: 0 <= j < |s| - 1 ==> s[..|s| - 1][j] == s[j];
    }
  }

  /** No break begins inside a paragraph, whatever follows it. */
  lemma NoBreakInside(p: string, rest: string, k: nat)
    requires IsParagraph(p) && k < |p|
    ensures BlankMatch((p + rest)[k..]) == 0
  {
    hide NoBlankLine, SpaceSpan, LastNewline, Trimmed;
    var s := (p + rest)[k..];
    assert s[0] == p[k];
    if s[0] == '\n' {
      var span := SpaceSpan(s[1..]);
      RunInside(p, rest, k, span);
      assert s[1..1 + span] == p[k + 1..k + 1 + span] && s[1..][..span] == s[1..1 + span];
      NoEndInRun(p, k, p[k + 1..k + 1 + span]);
    }
  }

  /** In a paragraph no white space after a line end holds another line end. */
  lemma NoEndInRun(p: string, k: nat, run: string)
    requires NoBlankLine(p) && k < |p| && p[k] == '\n' && k + 1 + |run| <= |p| && run == p[k + 1..k + 1 + |run|]
    requires forall m :: 0 <= m < |run| ==> IsSpace(run[m])
    ensures LastNewline(run) < 0
  {
    hide *;
    LastNewlineIs(run);
    var j := LastNewline(run);
    if j >= 0 {
      assert run[j] == p[k + 1 + j];
      RunOfSpace(p, k, run, j);
      SpaceHasNoEnd(p, k, k + 1 + j);
    }
  }

  lemma RunOfSpace(p: string, k: nat, run: string, j: nat)
    requires k < |p| && p[k] == '\n' && k + 1 + |run| <= |p| && run == p[k + 1..k + 1 + |run|] && j < |run|
    requires forall m :: 0 <= m < |run| ==> IsSpace(run[m])
    ensures forall m :: k <= m < k + 1 + j ==> IsSpace(p[m])
  {
    hide *;
    NewlineIsSpace();
    forall m | k <= m < k + 1 + j ensures IsSpace(p[m]) {
      if m > k {
        assert p[m] == run[m - k - 1];
      }
    }
  }

  lemma NewlineIsSpace()
    ensures IsSpace('\n')
  {
  }

  lemma SpaceHasNoEnd(p: string, k: nat, e: nat)
    requires NoBlankLine(p) && k < e < |p| && p[k] == '\n' && forall m :: k <= m < e ==> IsSpace(p[m])
    ensures p[e] != '\n'
  {
    assert AllSpace(p[k..e]);
  }

  /** The white space after a place in a paragraph ends inside it. */
  lemma RunInside(p: string, rest: string, k: nat, span: nat)
    requires p != "" && Trimmed(p) && k < |p| && p[k] == '\n' && span == SpaceSpan((p + rest)[k..][1..])
    ensures k + 1 + span <= |p|
  {
    var s := (p + rest)[k..][1..];
    var last := |p| - 1;
    assert IsSpace('\n');
    assert k < last;
    assert s[last - k - 1] == p[last];
  }

  lemma {:induction false} ParagraphStays(p: string, rest: string, k: nat, part: string)
    requires IsParagraph(p) && k <= |p| && p[|p| - 1] != '\n'
    ensures SplitBlank((p + rest)[k..], part) == SplitBlank(rest, part + p[k..])
    decreases |p| - k
  {
    if k == |p| {
      assert (p + rest)[k..] == rest && part + p[k..] == part;
    } else {
      NoBreakInside(p, rest, k);
      var s := (p + rest)[k..];
      assert s[1..] == (p + rest)[k + 1..] && s[0] == p[k];
      ParagraphStays(p, rest, k + 1, part + [s[0]]);
      assert part + [s[0]] + p[k + 1..] == part + p[k..];
    }
  }

  /** White space without a line end joins the piece begun. */
  lemma {:induction false} SpacesJoin(ws: string, rest: string, part: string)
    requires '\n' !in ws
    ensures SplitBlank(ws + rest, part) == SplitBlank(rest, part + ws)
  {
    SplitBlankSkips(ws, rest, part);
  }

  lemma {:induction false} PartPrefix(s: string, part: string)
    ensures var parts, plain := SplitBlank(s, part), SplitBlank(s, "");
            parts != [] && plain != [] && parts[0] == part + plain[0] && parts[1..] == plain[1..]
    decreases |s|
  {
    if s == "" {
      assert part + "" == part;
    } else if BlankMatch(s) > 0 {
      assert part + "" == part;
    } else {
      PartPrefix(s[1..], part + [s[0]]);
      PartPrefix(s[1..], "" + [s[0]]);
      var x := SplitBlank(s[1..], "")[0];
      assert part + [s[0]] + x == part + ("" + [s[0]] + x);
    }
  }

  /** White space begun before a text changes none of its paragraphs. */
  lemma SpaceBefore(s: string, ws: string)
    requires AllSpace(ws)
    ensures StripAll(SplitBlank(s, ws)) == SplitSteps(s)
  {
    PartPrefix(s, ws);
    var x := SplitBlank(s, "")[0];
    StripAround(ws, x, "");
    assert ws + x + "" == ws + x;
    hide Strip, SplitBlank;
  }

  /** Where the first line end of a break is. */
  lemma FirstLineEnd(sep: string) returns (f: nat)
    requires IsBreak(sep)
    ensures f < |sep| && sep[f] == '\n' && '\n' !in sep[..f] && '\n' in sep[f + 1..]
  {
    f := IndexOf(sep, '\n');
    var i, j :| 0 <= i < j < |sep| && sep[i] == '\n' && sep[j] == '\n';
    assert f <= i;
    assert sep[f + 1..][j - f - 1] == '\n';
  }

  /** A break is taken from its first line end to its last, with the white space between. */
  lemma BreakLength(tail: string, rest: string)
    requires AllSpace(tail) && tail != "" && tail[0] == '\n' && (rest == "" || !IsSpace(rest[0]))
    ensures BlankMatch(tail + rest) == var k := LastNewline(tail[1..]); if k < 0 then 0 else k + 2
  {
    hide SpaceSpan, LastNewline;
    var s, run := tail + rest, tail[1..];
    assert s[1..] == run + rest;
    SpanAll(run, rest);
    assert s[1..1 + |run|] == run;
  }

  lemma BreakTaken(tail: string, rest: string)
    requires AllSpace(tail) && tail != "" && tail[0] == '\n' && '\n' in tail[1..] && (rest == "" || !IsSpace(rest[0]))
    ensures var n := BlankMatch(tail + rest);
            0 < n <= |tail| && (tail + rest)[n..] == tail[n..] + rest && '\n' !in tail[n..]
  {
    BreakLength(tail, rest);
    hide *;
    var run := tail[1..];
    LastNewlineIs(run);
    var k := LastNewline(run);
    assert k >= 0;
    forall m | k + 2 <= m < |tail| ensures tail[m] != '\n' {
      assert tail[m] == run[m - 1];
    }
  }

  /** A break after a paragraph ends it; what white space the break is made of does not matter. */
  lemma {:induction false} ParagraphThenBreak(p: string, sep: string, rest: string)
    requires IsParagraph(p) && IsBreak(sep) && rest != "" && !IsSpace(rest[0])
    ensures SplitSteps(p + sep + rest) == [p] + SplitSteps(rest)
  {
    hide SplitBlank, StripAll, Strip, BlankMatch, NoBlankLine, Trimmed;
    var f := FirstLineEnd(sep);
    var head, tail := sep[..f], sep[f..];
    assert tail[1..] == sep[f + 1..];
    BreakTaken(tail, rest);
    var n := BlankMatch(tail + rest);
    assert p + sep + rest == p + (head + (tail + rest));
    ParagraphTaken(p, head, tail + rest);
    AfterBreak(tail, rest, n, p + head);
    OnlyParagraph(p, head);
    FirstStripped(p + head, p, SplitBlank(tail[n..] + rest, ""));
    LeadingSpace(tail[n..], rest);
  }

  lemma ParagraphTaken(p: string, head: string, rest: string)
    requires IsParagraph(p) && '\n' !in head
    ensures SplitBlank(p + (head + rest), "") == SplitBlank(rest, p + head)
  {
    hide SplitBlank, NoBlankLine, IsSpace;
    NewlineIsSpace();
    assert (p + (head + rest))[0..] == p + (head + rest) && p[0..] == p && "" + p == p;
    ParagraphStays(p, head + rest, 0, "");
    SpacesJoin(head, rest, p);
  }

  lemma AfterBreak(tail: string, rest: string, n: nat, part: string)
    requires tail != "" && n == BlankMatch(tail + rest) > 0 && n <= |tail| && (tail + rest)[n..] == tail[n..] + rest
    ensures SplitBlank(tail + rest, part) == [part] + SplitBlank(tail[n..] + rest, "")
  {
  }

  lemma FirstStripped(part: string, p: string, parts: seq<string>)
    requires p != "" && Strip(part) == p
    ensures StripAll([part] + parts) == [p] + StripAll(parts)
  {
    assert ([part] + parts)[1..] == parts;
  }

  /** White space without a line end before a text is no paragraph. */
  lemma LeadingSpace(ws: string, rest: string)
    requires AllSpace(ws) && '\n' !in ws
    ensures SplitSteps(ws + rest) == SplitSteps(rest)
  {
    SpacesJoin(ws, rest, "");
    assert "" + ws == ws;
    SpaceBefore(rest, ws);
  }

  /** White space before the first paragraph, with or without breaks, is no paragraph. */
  lemma {:induction false} SpaceThenText(ws: string, rest: string)
    requires AllSpace(ws) && rest != "" && !IsSpace(rest[0])
    ensures SplitSteps(ws + rest) == SplitSteps(rest)
  {
    SpacePart(ws, rest, "");
  }

  lemma {:induction false} SpacePart(ws: string, rest: string, part: string)
    requires AllSpace(ws) && AllSpace(part) && (rest == "" || !IsSpace(rest[0]))
    ensures StripAll(SplitBlank(ws + rest, part)) == SplitSteps(rest)
    decreases |ws|
  {
    if ws == "" {
      assert ws + rest == rest;
      SpaceBefore(rest, part);
    } else if ws[0] == '\n' && '\n' in ws[1..] {
      BreakTaken(ws, rest);
      var n := BlankMatch(ws + rest);
      AfterBreak(ws, rest, n, part);
      BlankFirst(part, SplitBlank(ws[n..] + rest, ""));
      SpacePart(ws[n..], rest, "");
    } else {
      NoBreakHere(ws, rest);
      assert (ws + rest)[1..] == ws[1..] + rest && (ws + rest)[0] == ws[0];
      SpacePart(ws[1..], rest, part + [ws[0]]);
    }
  }

  lemma NoBreakHere(ws: string, rest: string)
    requires AllSpace(ws) && ws != "" && !(ws[0] == '\n' && '\n' in ws[1..]) && (rest == "" || !IsSpace(rest[0]))
    ensures BlankMatch(ws + rest) == 0
  {
    var s, run := ws + rest, ws[1..];
    assert s[1..] == run + rest;
    SpanAll(run, rest);
    assert s[1..1 + |run|] == run;
    LastNewlineIs(run);
  }

  lemma BlankFirst(part: string, parts: seq<string>)
    requires AllSpace(part)
    ensures StripAll([part] + parts) == StripAll(parts)
  {
    StripAround(part, "", "");
    assert part + "" + "" == part;
    assert ([part] + parts)[1..] == parts;
  }

  /** White space after the last paragraph, with or without breaks, is no paragraph. */
  lemma {:induction false} ParagraphThenEnd(p: string, ws: string)
    requires IsParagraph(p) && AllSpace(ws)
    ensures SplitSteps(p + ws) == [p]
  {
    assert IsSpace('\n');
    assert (p + ws)[0..] == p + ws && p[0..] == p && "" + p == p;
    ParagraphStays(p, ws, 0, "");
    EndPart(ws, p, "");
    assert p + "" == p;
    hide SplitBlank, NoBlankLine;
  }

  lemma {:induction false} EndPart(ws: string, p: string, more: string)
    requires AllSpace(ws) && AllSpace(more) && p != "" && Trimmed(p)
    ensures StripAll(SplitBlank(ws, p + more)) == [p]
    decreases |ws|
  {
    hide SplitBlank, StripAll, Strip, Trimmed, BlankMatch;
    OnlyParagraph(p, more);
    if ws == "" {
      EmptySplit(p + more);
    } else if ws[0] == '\n' && '\n' in ws[1..] {
      EndBreak(ws, p, more);
    } else {
      EndSpace(ws, p + more);
      EndPart(ws[1..], p, more + [ws[0]]);
      assert p + (more + [ws[0]]) == p + more + [ws[0]];
    }
  }

  lemma OnlyParagraph(p: string, more: string)
    requires AllSpace(more) && p != "" && Trimmed(p)
    ensures Strip(p + more) == p && StripAll([p + more]) == [p]
  {
    hide StripAll, Strip, Trimmed, AllSpace;
    EmptyIsSpace();
    StripAround("", p, more);
    assert "" + p + more == p + more;
    StripTrimmed(p);
    FirstStripped(p + more, p, []);
    assert [p + more] + [] == [p + more];
    NoneStripped();
  }

  lemma EmptyIsSpace()
    ensures AllSpace("")
  {
  }

  lemma NoneStripped()
    ensures StripAll([]) == []
  {
  }

  lemma EmptySplit(part: string)
    ensures SplitBlank("", part) == [part]
  {
  }

  lemma EndSpace(ws: string, part: string)
    requires AllSpace(ws) && ws != "" && !(ws[0] == '\n' && '\n' in ws[1..])
    ensures SplitBlank(ws, part) == SplitBlank(ws[1..], part + [ws[0]])
  {
    assert ws + "" == ws;
    NoBreakHere(ws, "");
  }

  lemma EndBreak(ws: string, p: string, more: string)
    requires AllSpace(ws) && ws != "" && ws[0] == '\n' && '\n' in ws[1..] && p != "" && Strip(p + more) == p
    ensures StripAll(SplitBlank(ws, p + more)) == [p]
  {
    hide SplitBlank, StripAll, Strip, BlankMatch;
    assert ws + "" == ws;
    BreakTaken(ws, "");
    var n := BlankMatch(ws);
    AfterBreak(ws, "", n, p + more);
    FirstStripped(p + more, p, SplitBlank(ws[n..] + "", ""));
    SpacePart(ws[n..], "", "");
    NoText();
  }

  lemma NoText()
    ensures SplitSteps("") == []
  {
    assert StripAll([""]) == StripAll([]);
  }

  // ----- one line ------------------------------------------------------------------------------------

  /** Unwrapping a block puts a space for every line end and changes nothing else. */
  lemma {:induction false} UnwrapIs(block: string)
    ensures |Unwrap(block)| == |block| && '\n' !in Unwrap(block)
    ensures forall k :: 0 <= k < |block| ==> Unwrap(block)[k] == if block[k] == '\n' then ' ' else block[k]
  {
  }

  /** The blocks differ only in where a space and where a line end stands. */
  predicate SameButWrapped(a: string, b: string) {
    |a| == |b| && forall k :: 0 <= k < |a| ==> a[k] == b[k] || (a[k] in [' ', '\n'] && b[k] in [' ', '\n'])
  }

  /** How a step is wrapped over lines does not matter. */
  lemma {:induction false} WrappingDoesNotMatter(ctx: Context, a: string, b: string)
    requires ctx.index > 0 && SameButWrapped(a, b)
    ensures ParseStep(ctx, a) == ParseStep(ctx, b)
  {
    UnwrapIs(a);
    UnwrapIs(b);
    assert Unwrap(a) == Unwrap(b);
    hide SplitProduced, ScanFrom, ValidAction;
  }

  lemma PrefixHasNoLineEnd(a: string, b: string)
    requires a <= b && '\n' !in b
    ensures '\n' !in a
  {
    assert forall k :: 0 <= k < |a| ==> a[k] == b[k];
  }

  lemma NoLineEndStripped(s: string)
    requires '\n' !in s
    ensures '\n' !in Strip(s) && '\n' !in StripRight(s)
  {
    hide StripRight, SpaceSpan;
    var l := StripLeft(s);
    assert forall k :: 0 <= k < |l| ==> l[k] == s[SpaceSpan(s) + k];
    PrefixHasNoLineEnd(StripRight(s), s);
    PrefixHasNoLineEnd(StripRight(l), l);
  }

  lemma SplitHasNoLineEnd(s: string)
    requires '\n' !in s
    ensures var (body, name) := SplitProduced(s); '\n' !in body && (name.Some? ==> '\n' !in name.value)
  {
    var p := FindArrow(s, 0);
    if p < |s| {
      assert '\n' !in s[..p] && '\n' !in s[p + 2..];
      NoLineEndStripped(s[..p]);
      NoLineEndStripped(s[p + 2..]);
    }
  }

  lemma {:induction false} TilesHaveNoLineEnd(ctx: Context, st: Scan, chunks: seq<Chunk>, pieces: seq<string>,
                                              text: string)
    requires ScanLaws.Tiles(ctx, st, chunks, pieces, text) && '\n' !in text
    ensures forall k :: 0 <= k < |chunks| && chunks[k].LiteralChunk? ==> '\n' !in chunks[k].text
    decreases |chunks|
  {
    hide TryToken;
    if chunks != [] {
      var rest := text[|pieces[0]|..];
      assert '\n' !in rest && forall k :: 0 <= k < |pieces[0]| ==> pieces[0][k] == text[k];
      var after := if chunks[0].LiteralChunk? then st else TryToken(ctx, text, st).value.value.after;
      TilesHaveNoLineEnd(ctx, Append(after, chunks[0]), chunks[1..], pieces[1..], rest);
      assert forall k :: 1 <= k < |chunks| ==> chunks[k] == chunks[1..][k - 1];
    }
  }

  /** No prose and no produced name of a parsed step holds a line end. */
  lemma {:induction false} ParsedOnOneLine(ctx: Context, block: string)
    requires ctx.index > 0 && ParseStep(ctx, block).Success?
    ensures var a := ParseStep(ctx, block).value.0;
            && (a.produces.name.Some? ==> '\n' !in a.produces.name.value)
            && (a.text.Some? ==> forall k :: 0 <= k < |a.text.value| && a.text.value[k].LiteralChunk? ==>
                  '\n' !in a.text.value[k].text)
  {
    hide ScanFrom, SplitProduced, ValidAction, ScanLaws.Tiles;
    UnwrapIs(block);
    SplitHasNoLineEnd(Unwrap(block));
    var text := SplitProduced(Unwrap(block)).0;
    var chunks, pieces := ScanLaws.ScanTiles(ctx, text, "", START);
    assert "" + text == text && [] + chunks == chunks;
    TilesHaveNoLineEnd(ctx, START, chunks, pieces, text);
  }

  // ----- the produced name ------------------------------------------------------------------------------

  lemma BodyHasNoArrow(body: string, rest: string, k: nat)
    requires NoOwnArrow(body) && k + 1 < |body|
    ensures !ProducesAt(body + rest, k)
  {
    var s := body + rest;
    assert s[k] == body[k] && s[k + 1] == body[k + 1];
    if body[k] == '=' && body[k + 1] == '>' {
      var i :| 0 <= i < |body[k + 2..]| && IsSpecial(body[k + 2..][i]);
      assert s[k + 2..][i] == body[k + 2..][i];
    }
  }

  lemma ArrowHere(start: string, rest: string)
    requires rest != "" && !HasSpecial(rest)
    ensures ProducesAt(start + ("=>" + rest), |start|)
  {
    var s := start + ("=>" + rest);
    assert s[|start| + 2..] == rest;
  }

  /** The arrow is found at the end of a body that hides none, past any white space. */
  lemma NoArrowBefore(body: string, gap: string, rest: string, k: nat)
    requires NoOwnArrow(body) && AllSpace(gap) && k < |body| + |gap|
    ensures !ProducesAt(body + gap + ("=>" + rest), k)
  {
    hide ProducesAt, NoOwnArrow, AllSpace;
    if k + 1 < |body| {
      assert body + gap + ("=>" + rest) == body + (gap + ("=>" + rest));
      BodyHasNoArrow(body, gap + ("=>" + rest), k);
    } else {
      GapHasNoArrow(body, gap, rest, k);
    }
  }

  lemma ArrowFound(body: string, gap: string, rest: string)
    requires NoOwnArrow(body) && AllSpace(gap) && rest != "" && !HasSpecial(rest)
    ensures FindArrow(body + gap + ("=>" + rest), 0) == |body| + |gap|
  {
    hide ProducesAt, NoOwnArrow, HasSpecial, AllSpace;
    ArrowHere(body + gap, rest);
    forall k | 0 <= k < |body| + |gap| ensures !ProducesAt(body + gap + ("=>" + rest), k) {
      NoArrowBefore(body, gap, rest, k);
    }
  }

  lemma GapHasNoArrow(body: string, gap: string, rest: string, k: nat)
    requires AllSpace(gap) && |body| <= k + 1 && k < |body| + |gap|
    ensures !ProducesAt(body + gap + ("=>" + rest), k)
  {
    var s := body + gap + ("=>" + rest);
    assert !IsSpace('=') && !IsSpace('>');
    if k >= |body| {
      assert s[k] == gap[k - |body|];
    } else if gap != "" {
      assert s[k + 1] == gap[0];
    } else {
      assert s[k + 1] == '=';
    }
  }

  /** A name after an arrow is split off whatever white space stands around the arrow and after the name. */
  lemma {:induction false} ProducedAnyway(body: string, gap: string, before: string, name: string, after: string)
    requires (body == "" || !IsSpace(body[|body| - 1])) && NoOwnArrow(body)
    requires AllSpace(gap) && AllSpace(before) && AllSpace(after) && before + name + after != ""
    requires Trimmed(name) && !HasSpecial(name)
    ensures SplitProduced(body + gap + ("=>" + (before + name + after)))
            == (body, if name == "" then None else Some(name))
  {
    hide FindArrow, StripRight, Strip, NoOwnArrow, HasSpecial, AllSpace;
    var rest := before + name + after;
    PlainAround(before, name, after);
    ArrowFound(body, gap, rest);
    CutAt(body + gap, rest);
    StripEnd(body, gap);
    BodyStripped(body);
    StripAround(before, name, after);
    StripTrimmed(name);
  }

  lemma CutAt(start: string, rest: string)
    ensures var s := start + ("=>" + rest); |start| < |s| && s[..|start|] == start && s[|start| + 2..] == rest
  {
  }

  lemma BodyStripped(body: string)
    requires body == "" || !IsSpace(body[|body| - 1])
    ensures StripRight(body) == body
  {
  }

  lemma PlainAround(before: string, name: string, after: string)
    requires AllSpace(before) && AllSpace(after) && !HasSpecial(name)
    ensures !HasSpecial(before + name + after)
  {
    var s := before + name + after;
    forall k | 0 <= k < |s| ensures !IsSpecial(s[k]) {
      assert s[k] == if k < |before| then before[k] else if k < |before| + |name| then name[k - |before|]
                     else after[k - |before| - |name|];
    }
  }

  /** A text without an arrow of its own is all body. */
  lemma {:induction false} NothingProduced(s: string)
    requires NoOwnArrow(s)
    ensures SplitProduced(s) == (s, None)
  {
    assert forall p :: 0 <= p < |s| ==> !ProducesAt(s, p);
  }
}
