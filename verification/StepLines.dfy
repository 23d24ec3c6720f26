/** A document of lines, each a list of pieces and a produced name: its text, and what the parser reads in it. */
module StepLines {
  import opened Wrappers
  import opened Text
  import opened Decimals
  import opened Schema
  import opened QuantityText
  import opened StepText
  import opened Scanner
  import opened Kahn
  import opened SortLaws
  import opened Printer
  import opened Parser
  import opened ParserLaws
  import opened TokenText
  import opened StepRoundTrip

  /** What one line of a document shows. */
  datatype Line = Line(pieces: seq<Piece>, name: Option<string>)

  /** The pieces start and end in text that stripping leaves alone, and their last prose hides no arrow. */
  predicate TrimmedPieces(ps: seq<Piece>) {
    && ps != []
    && (ps[0].Prose? ==> ps[0].text != "" && !IsSpace(ps[0].text[0]))
    && var last := ps[|ps| - 1];
       last.Prose? ==> last.text != "" && !IsSpace(last.text[|last.text| - 1]) && NoOwnArrow(last.text)
  }

  predicate WritableLine(l: Line) {
    TrimmedPieces(l.pieces) && WritablePieces(l.pieces) && (l.name.Some? ==> IsProducedName(l.name.value))
  }

  predicate WritableLines(ls: seq<Line>) {
    forall k :: 0 <= k < |ls| ==> WritableLine(ls[k])
  }

  function LineText(l: Line): string {
    PrintPieces(l.pieces) + Suffix(l.name)
  }

  function LineTexts(ls: seq<Line>): (r: seq<string>)
    ensures |r| == |ls|
  {
    seq(|ls|, k requires 0 <= k < |ls| => LineText(ls[k]))
  }

  function DocumentText(ls: seq<Line>): string {
    JoinSteps(LineTexts(ls)) + "\n"
  }

  // ----- the text of a line -------------------------------------------------------------------

  lemma TokenEnds(p: Piece)
    requires !p.Prose?
    ensures var t := PrintPiece(p); t != "" && IsSigil(t[0]) && t[|t| - 1] == '}'
  {
    hide PrintSpec, Encode, PrintQuantity, Modifiers;
  }

  predicate LinePiece(p: Piece) {
    PrintPiece(p) != "" && '\n' !in PrintPiece(p)
  }

  lemma WritableIsLine(p: Piece)
    requires WritablePiece(p)
    ensures LinePiece(p)
  {
    hide Encode, IsNumber, PrintQuantity, PrintSpec, Writable, ValidQuantity, Modifiers;
    match p
    case Prose(_) =>
    case Ingredient(_, q, optional, _) =>
      SpecClean(q);
      ModifierFlags(q, optional);
    case Tool(_, amount, _) =>
      if amount.Some? {
        NumberClean(amount.value);
      }
    case State(_) =>
    case Duration(t) => QuantityClean(t.quantity);
    case Heat(t) => NumberClean(t.value);
  }

  lemma {:induction false} PiecesLine(ps: seq<Piece>)
    requires forall k :: 0 <= k < |ps| ==> LinePiece(ps[k])
    ensures '\n' !in PrintPieces(ps)
    ensures ps != [] ==> PrintPieces(ps) != "" && PrintPiece(ps[0]) != "" && PrintPieces(ps)[0] == PrintPiece(ps[0])[0]
  {
    if ps != [] {
      assert forall k :: 0 <= k < |ps| - 1 ==> ps[1..][k] == ps[k + 1];
      PiecesLine(ps[1..]);
      hide PrintPiece;
    }
  }

  lemma LastPiece(ps: seq<Piece>)
    requires ps != []
    ensures PrintPieces(ps) == PrintPieces(ps[..|ps| - 1]) + PrintPiece(ps[|ps| - 1])
  {
    hide PrintPieces, PrintPiece;
    assert ps == ps[..|ps| - 1] + [ps[|ps| - 1]];
    PrintPiecesSnoc(ps[..|ps| - 1], ps[|ps| - 1]);
  }

  /** The printed body starts and ends with a character that is not white space. */
  lemma PiecesTrimmed(ps: seq<Piece>)
    requires TrimmedPieces(ps) && forall k :: 0 <= k < |ps| ==> LinePiece(ps[k])
    ensures var t := PrintPieces(ps); t != "" && Trimmed(t) && '\n' !in t
  {
    hide PrintPiece, PrintPieces, NoOwnArrow;
    var first, last := ps[0], ps[|ps| - 1];
    assert LinePiece(first) && LinePiece(last);
    PiecesLine(ps);
    LastPiece(ps);
    PieceEnds(first);
    PieceEnds(last);
    EndOfConcat(PrintPieces(ps[..|ps| - 1]), PrintPiece(last));
  }

  lemma EndOfConcat(a: string, b: string)
    requires b != ""
    ensures (a + b)[|a + b| - 1] == b[|b| - 1]
  {
  }

  lemma PieceEnds(p: Piece)
    requires PrintPiece(p) != ""
    ensures var t := PrintPiece(p);
            if p.Prose? then t == p.text else !IsSpace(t[0]) && !IsSpace(t[|t| - 1])
  {
    if !p.Prose? {
      TokenEnds(p);
    }
    hide PrintPiece;
  }

  /** A text whose last character is "}" hides no arrow, and appending arrow-free prose keeps it so. */
  lemma ArrowHidden(body: string, prose: string)
    requires body == "" || body[|body| - 1] == '}'
    requires NoOwnArrow(prose)
    ensures NoOwnArrow(body + prose)
  {
    var s := body + prose;
    forall p | 0 <= p && p + 1 < |s| && s[p] == '=' && s[p + 1] == '>' ensures HasSpecial(s[p + 2..]) {
      if p + 1 < |body| {
        assert s[p + 2..][|body| - 1 - (p + 2)] == '}';
      } else if p >= |body| {
        assert prose[p - |body|] == '=' && prose[p - |body| + 1] == '>';
        assert s[p + 2..] == prose[p - |body| + 2..];
      }
    }
  }

  lemma BodyHidesArrow(ps: seq<Piece>)
    requires TrimmedPieces(ps) && WritablePieces(ps)
    ensures NoOwnArrow(PrintPieces(ps))
  {
    var init, last := ps[..|ps| - 1], ps[|ps| - 1];
    LastPiece(ps);
    if last.Prose? {
      if init != [] {
        LastPiece(init);
        var k := |ps| - 2;
        assert ps[k + 1] == last && init[|init| - 1] == ps[k];
        TokenEnds(init[|init| - 1]);
      }
      ArrowHidden(PrintPieces(init), last.text);
    } else {
      TokenEnds(last);
      var t := PrintPieces(ps);
      assert t[|t| - 1] == '}';
      assert NoOwnArrow("");
      ArrowHidden(t, "");
      assert t + "" == t;
    }
  }

  lemma SuffixTrimmed(body: string, name: Option<string>)
    requires body != "" && Trimmed(body) && '\n' !in body && (name.Some? ==> IsProducedName(name.value))
    ensures IsLine(body + Suffix(name))
  {
    var t := body + Suffix(name);
    assert t[0] == body[0];
    if name.Some? {
      assert t == body + " => " + name.value;
      assert t[|t| - 1] == name.value[|name.value| - 1];
      assert '\n' !in " => ";
    } else {
      assert t == body;
    }
  }

  /** A writable line is one line of text, which the parser splits into its body and its produced name. */
  lemma {:induction false} LineSplits(l: Line)
    requires WritableLine(l)
    ensures IsLine(LineText(l))
    ensures SplitProduced(Unwrap(LineText(l))) == (PrintPieces(l.pieces), l.name)
  {
    var ps := l.pieces;
    forall k | 0 <= k < |ps| ensures LinePiece(ps[k]) {
      WritableIsLine(ps[k]);
    }
    PiecesTrimmed(ps);
    BodyHidesArrow(ps);
    hide WritablePieces, PrintPieces, TrimmedPieces, LinePiece, NoOwnArrow;
    SuffixTrimmed(PrintPieces(ps), l.name);
    SplitSuffix(PrintPieces(ps), l.name);
  }

  // ----- the names known at each line --------------------------------------------------------------

  /** The name table when line i (from 0) is parsed. */
  function NamesAt(env: Env, ls: seq<Line>, i: nat): map<string, string>
    requires i <= |ls|
  {
    if i == 0 then map[]
    else NamesAfter(Context(env, NamesAt(env, ls, i - 1), i), ls[i - 1].name)
  }

  /** The last of the first i lines that produces the name. */
  function Bearer(ls: seq<Line>, i: nat, name: string): (j: Option<nat>)
    requires i <= |ls|
    ensures j.Some? ==> j.value < i && ls[j.value].name == Some(name)
    ensures forall m :: (if j.Some? then j.value + 1 else 0) <= m < i ==> ls[m].name != Some(name)
  {
    if i == 0 then None
    else if ls[i - 1].name == Some(name) then Some(i - 1)
    else Bearer(ls, i - 1, name)
  }

  /** A name stands for the state of the last line that produced it. */
  lemma {:induction false} NameStandsFor(env: Env, ls: seq<Line>, i: nat, name: string)
    requires i <= |ls|
    ensures name in NamesAt(env, ls, i) <==> Bearer(ls, i, name).Some?
    ensures name in NamesAt(env, ls, i) ==>
              var j := Bearer(ls, i, name).value; NamesAt(env, ls, i)[name] == StateId(env, j + 1, ls[j].name)
  {
    hide StateId;
    if i > 0 {
      NameStandsFor(env, ls, i - 1, name);
    }
  }

  // ----- what the parser reads ----------------------------------------------------------------------

  function LineContext(env: Env, ls: seq<Line>, i: nat): Context
    requires i < |ls|
  {
    Context(env, NamesAt(env, ls, i), i + 1)
  }

  /** The action that parsing line i gives. */
  function ReadLine(env: Env, ls: seq<Line>, i: nat): Action
    requires i < |ls|
  {
    var ctx := LineContext(env, ls, i);
    ActionOf(ctx, Scanned(ctx, ls[i].pieces), ls[i].name)
  }

  lemma {:induction false} LineParses(env: Env, ls: seq<Line>, i: nat)
    requires i < |ls| && WritableLine(ls[i])
    ensures ParseStep(LineContext(env, ls, i), LineText(ls[i]))
            == Success((ReadLine(env, ls, i), NamesAt(env, ls, i + 1)))
  {
    var ctx, ps := LineContext(env, ls, i), ls[i].pieces;
    LineSplits(ls[i]);
    StepScans(ctx, ps);
    ScannedActionValid(ctx, PrintPieces(ps), ls[i].name);
    hide ScanFrom, PrintPieces, ValidAction, SplitProduced, Scanned, LineText, WritablePieces, TrimmedPieces, ShowsAll,
      ScanLists, UsesExactly;
  }

  /** The actions of the lines from line k on. */
  function ReadFrom(env: Env, ls: seq<Line>, k: nat): (r: seq<Action>)
    requires k <= |ls|
    ensures |r| == |ls| - k
  {
    seq(|ls| - k, i requires 0 <= i < |ls| - k => ReadLine(env, ls, k + i))
  }

  lemma {:induction false} LinesParse(env: Env, ls: seq<Line>, k: nat)
    requires WritableLines(ls) && k <= |ls|
    ensures ParseFrom(env, LineTexts(ls), k, NamesAt(env, ls, k)) == Success(ReadFrom(env, ls, k))
    decreases |ls| - k
  {
    hide WritableLine, NamesAt, ReadLine, LineText, ReadFrom, ParseStep;
    if k < |ls| {
      LineParses(env, ls, k);
      LinesParse(env, ls, k + 1);
      ReadCons(env, ls, k);
      ParseFromCons(env, LineTexts(ls), k, NamesAt(env, ls, k), ReadLine(env, ls, k), NamesAt(env, ls, k + 1),
                    ReadFrom(env, ls, k + 1));
    } else {
      assert ReadFrom(env, ls, k) == [];
    }
  }

  lemma ParseFromCons(env: Env, blocks: seq<string>, k: nat, names: map<string, string>, a: Action,
                      after: map<string, string>, rest: seq<Action>)
    requires k < |blocks| && ParseStep(Context(env, names, k + 1), blocks[k]) == Success((a, after))
    requires ParseFrom(env, blocks, k + 1, after) == Success(rest)
    ensures ParseFrom(env, blocks, k, names) == Success([a] + rest)
  {
    hide ParseStep;
  }

  lemma ReadCons(env: Env, ls: seq<Line>, k: nat)
    requires k < |ls|
    ensures ReadFrom(env, ls, k) == [ReadLine(env, ls, k)] + ReadFrom(env, ls, k + 1)
  {
    hide ReadLine;
  }

  /** The whole list that is read, in order. */
  function ReadLines(env: Env, ls: seq<Line>): (b: seq<Action>)
    ensures |b| == |ls|
  {
    ReadFrom(env, ls, 0)
  }

  /** A document of writable lines parses, to a valid recipe that is already sorted. */
  lemma {:induction false} DocumentParses(env: Env, ls: seq<Line>)
    requires WritableLines(ls) && ls != []
    ensures ParseCook(env, DocumentText(ls)) == Success(ReadLines(env, ls))
    ensures var b := ReadLines(env, ls);
            ValidRecipe(b) && InDocumentOrder(env, b) && SortedActions(b) == b && AllLabelled(b)
  {
    forall k | 0 <= k < |ls| ensures IsLine(LineTexts(ls)[k]) {
      LineSplits(ls[k]);
    }
    SplitJoined(LineTexts(ls));
    LinesParse(env, ls, 0);
    ParsedBlocksValid(env, LineTexts(ls));
    ValidRecipeSorts(ReadLines(env, ls));
    hide WritableLine, LineTexts, ReadFrom, ValidRecipe, InDocumentOrder;
  }
}
