/** The text around the tokens: paragraphs, and the "=> name" that ends a step. */
module StepText {
  import opened Wrappers
  import opened Text

  // ----- paragraphs ------------------------------------------------------------------

  /** Index of the last newline, or -1. */
  function LastNewline(s: string): (k: int)
    ensures -1 <= k < |s|
  {
    if s == "" then -1 else if s[|s| - 1] == '\n' then |s| - 1 else LastNewline(s[..|s| - 1])
  }

  /** Length of the match of the expression `\n\s*\n` at the start of `s`, or 0 when it does not match there. */
  function BlankMatch(s: string): (n: nat)
    ensures n <= |s|
  {
    if s == "" || s[0] != '\n' then 0
    else
      var k := LastNewline(s[1..1 + SpaceSpan(s[1..])]);
      if k < 0 then 0 else k + 2
  }

  /** `re.split(r"\n\s*\n", s)`, with `part` the piece begun so far. */
  function SplitBlank(s: string, part: string): seq<string>
    decreases |s|
  {
    if s == "" then [part]
    else if BlankMatch(s) > 0 then [part] + SplitBlank(s[BlankMatch(s)..], "")
    else SplitBlank(s[1..], part + [s[0]])
  }

  /** Each part stripped, the empty ones dropped. */
  function StripAll(parts: seq<string>): seq<string> {
    if parts == [] then []
    else (if Strip(parts[0]) == "" then [] else [Strip(parts[0])]) + StripAll(parts[1..])
  }

  /** `_split_steps`. */
  function SplitSteps(body: string): seq<string> {
    StripAll(SplitBlank(body, ""))
  }

  /** `"\n\n".join(steps)`. */
  function JoinSteps(steps: seq<string>): string {
    if steps == [] then ""
    else if |steps| == 1 then steps[0]
    else steps[0] + "\n\n" + JoinSteps(steps[1..])
  }

  /** A printed step that is its own paragraph. */
  predicate IsLine(s: string) {
    s != "" && Trimmed(s) && '\n' !in s
  }

  lemma {:induction false} SplitBlankSkips(a: string, rest: string, part: string)
    requires '\n' !in a
    ensures SplitBlank(a + rest, part) == SplitBlank(rest, part + a)
  {
    if a == "" {
      assert a + rest == rest && part + a == part;
    } else {
      assert (a + rest)[1..] == a[1..] + rest;
      SplitBlankSkips(a[1..], rest, part + [a[0]]);
      assert part + [a[0]] + a[1..] == part + a;
    }
  }

  lemma BlankLine(rest: string)
    requires rest != "" && !IsSpace(rest[0])
    ensures BlankMatch("\n\n" + rest) == 2
  {
    var s := "\n\n" + rest;
    assert s[1..] == "\n" + rest;
    assert SpaceSpan("\n" + rest) == 1 by {
      assert ("\n" + rest)[1] == rest[0];
    }
    assert s[1..2] == "\n";
  }

  lemma {:induction false} JoinStartsLine(steps: seq<string>, tail: string)
    requires steps != [] && forall k :: 0 <= k < |steps| ==> IsLine(steps[k])
    ensures var s := JoinSteps(steps) + tail; s != "" && !IsSpace(s[0])
  {
    assert (JoinSteps(steps) + tail)[0] == steps[0][0];
  }

  lemma LastLine(step: string)
    requires IsLine(step)
    ensures SplitBlank(step + "\n", "") == [step + "\n"] && Strip(step + "\n") == step
  {
    SplitBlankSkips(step, "\n", "");
    assert "" + step == step;
    assert SplitBlank("\n", step) == SplitBlank("", step + "\n");
    var s := step + "\n";
    assert SpaceSpan(s) == 0;
    assert s[..|s| - 1] == step && IsSpace('\n');
    assert StripRight(s) == StripRight(step);
  }

  /** Splitting what was joined, with the document's final newline, gives the lines back. */
  lemma {:induction false} SplitJoined(steps: seq<string>)
    requires steps != [] && forall k :: 0 <= k < |steps| ==> IsLine(steps[k])
    ensures SplitSteps(JoinSteps(steps) + "\n") == steps
  {
    var first := steps[0];
    if |steps| == 1 {
      LastLine(first);
      assert StripAll([first + "\n"]) == [first] + StripAll([]);
    } else {
      var rest := JoinSteps(steps[1..]) + "\n";
      SplitJoined(steps[1..]);
      JoinStartsLine(steps[1..], "\n");
      BlankLine(rest);
      SplitFirst(first, rest);
      JoinFirst(steps);
      StripTrimmed(first);
      hide JoinSteps, SplitBlank, Strip, IsLine, BlankMatch;
      StripFirst(first, SplitBlank(rest, ""));
      assert steps == [first] + steps[1..];
    }
  }

  lemma JoinFirst(steps: seq<string>)
    requires |steps| > 1
    ensures JoinSteps(steps) + "\n" == steps[0] + ("\n\n" + (JoinSteps(steps[1..]) + "\n"))
  {
  }

  lemma StripFirst(first: string, parts: seq<string>)
    requires first != "" && Strip(first) == first
    ensures StripAll([first] + parts) == [first] + StripAll(parts)
  {
    assert ([first] + parts)[1..] == parts;
  }

  lemma SplitFirst(first: string, rest: string)
    requires '\n' !in first && BlankMatch("\n\n" + rest) == 2
    ensures SplitBlank(first + ("\n\n" + rest), "") == [first] + SplitBlank(rest, "")
  {
    SplitBlankSkips(first, "\n\n" + rest, "");
    assert "" + first == first;
    assert ("\n\n" + rest)[2..] == rest;
  }

  // ----- the produced state -----------------------------------------------------------------

  predicate IsSpecial(c: char) {
    c == '{' || c == '}' || c == '@' || c == '#' || c == '~' || c == '^'
  }

  predicate HasSpecial(s: string) {
    exists i :: 0 <= i < |s| && IsSpecial(s[i])
  }

  /** Where the expression `\s*=>\s*(?P<name>[^{}@#~^]+?)\s*$` has its arrow if that is at p. */
  predicate ProducesAt(s: string, p: nat) {
    p + 2 < |s| && s[p] == '=' && s[p + 1] == '>' && !HasSpecial(s[p + 2..])
  }

  /** The leftmost arrow at or after p that matches, or |s|. */
  function FindArrow(s: string, p: nat): (q: nat)
    requires p <= |s|
    ensures p <= q <= |s|
    ensures forall k :: p <= k < q ==> !ProducesAt(s, k)
    ensures q < |s| ==> ProducesAt(s, q)
    decreases |s| - p
  {
    if p == |s| || ProducesAt(s, p) then p else FindArrow(s, p + 1)
  }

  /** `_PRODUCE.search`: the text before the match and the stripped name, if it is not empty. */
  function SplitProduced(s: string): (string, Option<string>) {
    var p := FindArrow(s, 0);
    if p == |s| then (s, None)
    else
      var name := Strip(s[p + 2..]);
      (StripRight(s[..p]), if name == "" then None else Some(name))
  }

  predicate IsProducedName(name: string) {
    name != "" && Trimmed(name) && !HasSpecial(name) && '\n' !in name
  }

  function Suffix(name: Option<string>): string {
    if name.Some? then " => " + name.value else ""
  }

  /** No arrow of the body is followed by plain text only: none can be taken for the step's own. */
  predicate NoOwnArrow(body: string) {
    forall p :: 0 <= p && p + 1 < |body| && body[p] == '=' && body[p + 1] == '>' ==> HasSpecial(body[p + 2..])
  }

  lemma NotInBody(body: string, tail: string, k: nat)
    requires NoOwnArrow(body) && k <= |body| && tail != "" && tail[0] == ' '
    ensures !ProducesAt(body + tail, k)
  {
    var s := body + tail;
    if k + 1 < |body| && body[k] == '=' && body[k + 1] == '>' {
      var i :| 0 <= i < |body[k + 2..]| && IsSpecial(body[k + 2..][i]);
      assert s[k + 2..][i] == body[k + 2..][i];
    } else if k + 1 == |body| {
      assert s[k + 1] == ' ';
    } else if k == |body| {
      assert s[k] == ' ';
    } else {
      assert s[k] == body[k] && s[k + 1] == body[k + 1];
    }
  }

  lemma SuffixArrow(body: string, name: string)
    requires IsProducedName(name) && NoOwnArrow(body)
    ensures FindArrow(body + (" => " + name), 0) == |body| + 1
  {
    var tail := " => " + name;
    var s := body + tail;
    ArrowAfterBody(body, name);
    forall k | 0 <= k < |body| + 1 ensures !ProducesAt(s, k) {
      NotInBody(body, tail, k);
    }
    hide ProducesAt;
  }

  lemma ArrowAfterBody(body: string, name: string)
    requires IsProducedName(name)
    ensures ProducesAt(body + (" => " + name), |body| + 1)
  {
    var tail := " => " + name;
    TailArrow(name);
    var s, at := body + tail, |body| + 1;
    assert s[at] == tail[1] && s[at + 1] == tail[2];
    assert s[at + 2..] == tail[3..];
  }

  lemma TailArrow(name: string)
    requires IsProducedName(name)
    ensures var tail := " => " + name; tail[1] == '=' && tail[2] == '>' && !HasSpecial(tail[3..])
  {
    var rest := (" => " + name)[3..];
    assert rest == " " + name;
    assert forall i :: 1 <= i < |rest| ==> rest[i] == name[i - 1];
  }

  /** The suffix the printer writes is what the parser splits off. */
  lemma {:induction false} SplitSuffix(body: string, name: Option<string>)
    requires body == "" || !IsSpace(body[|body| - 1])
    requires NoOwnArrow(body) && (name.Some? ==> IsProducedName(name.value))
    ensures SplitProduced(body + Suffix(name)) == (body, name)
  {
    if name.None? {
      assert body + "" == body;
      assert forall p :: 0 <= p < |body| ==> !ProducesAt(body, p);
    } else {
      SuffixArrow(body, name.value);
      SuffixParts(body, name.value);
      StripTrailing(body);
      StripSpaced(name.value);
      hide FindArrow, StripRight, Strip, NoOwnArrow, IsProducedName;
    }
  }

  lemma SuffixParts(body: string, name: string)
    ensures var s := body + (" => " + name);
            s[..|body| + 1] == body + " " && s[|body| + 3..] == " " + name && |s| > |body| + 1
  {
  }

  lemma StripTrailing(body: string)
    requires body == "" || !IsSpace(body[|body| - 1])
    ensures StripRight(body + " ") == body
  {
    assert (body + " ")[..|body|] == body;
    assert IsSpace(' ');
  }

  lemma StripSpaced(name: string)
    requires name != "" && Trimmed(name)
    ensures Strip(" " + name) == name
  {
    var s := " " + name;
    assert IsSpace(' ') && s[1] == name[0];
    assert SpaceSpan(s) == 1 by {
      assert s[1..] == name;
    }
    assert s[1..] == name;
  }
}
