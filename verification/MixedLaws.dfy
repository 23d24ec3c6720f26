/** A mixed number, when there is one, is the nearest the ladder has, and its text denotes it. */
module MixedLaws {
  import opened Wrappers
  import opened Text
  import opened Decimals
  import opened Rounding
  import opened RoundingLaws
  import opened SnapLaws
  import opened MixedNumbers

  // ----- the first nearest candidate -----------------------------------------------------------

  lemma {:induction false} ClosestIsFirst(r: real, cands: Candidates)
    ensures var k := Closest(r, cands);
            && (forall j :: 0 <= j < |cands| ==> Distance(r, cands[k]) <= Distance(r, cands[j]))
            && (forall j :: 0 <= j < k ==> Distance(r, cands[k]) < Distance(r, cands[j]))
    decreases |cands|
  {
    if |cands| > 1 {
      ClosestIsFirst(r, cands[..|cands| - 1]);
      assert forall j :: 0 <= j < |cands| - 1 ==> cands[..|cands| - 1][j] == cands[j];
    }
    hide Distance;
  }

  lemma ClosestIs(r: real, cands: Candidates, k: nat)
    requires k < |cands|
    requires forall j :: 0 <= j < |cands| ==> Distance(r, cands[k]) <= Distance(r, cands[j])
    requires forall j :: 0 <= j < k ==> Distance(r, cands[k]) < Distance(r, cands[j])
    ensures Closest(r, cands) == k
  {
    hide Distance, Closest;
    ClosestIsFirst(r, cands);
    var i := Closest(r, cands);
    assert Distance(r, cands[i]) <= Distance(r, cands[k]) && Distance(r, cands[k]) <= Distance(r, cands[i]);
  }

  // ----- nearest over all whole numbers ------------------------------------------------------------

  /** Every entry lies between zero and one, as on every ladder of the table. */
  predicate ProperLadder(ladder: Ladder) {
    forall k :: 0 <= k < |ladder| ==> 0.0 < FracValue(ladder[k]) < 1.0
  }

  lemma ProperFraction(f: Frac)
    requires 0 < f.num < f.den
    ensures 0.0 < FracValue(f) < 1.0
  {
    Quotient(f.num as real, f.den as real);
  }

  /** The ladders of the table are proper. */
  lemma {:induction false} LaddersProper(unitId: string)
    ensures LadderFor(unitId).Some? ==> ProperLadder(LadderFor(unitId).value)
  {
    hide FracValue;
    ProperFraction(Frac(1, 8));
    ProperFraction(Frac(1, 4));
    ProperFraction(Frac(1, 3));
    ProperFraction(Frac(1, 2));
    ProperFraction(Frac(2, 3));
    ProperFraction(Frac(3, 4));
  }

  /** Nothing, or an entry of the ladder. */
  predicate Entry(ladder: Ladder, f: real) {
    f == 0.0 || exists k :: 0 <= k < |ladder| && f == FracValue(ladder[k])
  }

  /** A whole number, of any sign, plus nothing or an entry of the ladder. */
  predicate OnLadder(ladder: Ladder, x: real) {
    Entry(ladder, x - x.Floor as real)
  }

  lemma Quotient(n: real, d: real)
    requires 0.0 < n < d
    ensures 0.0 < n / d < 1.0
  {
    assert n / d * d == n;
    if n / d >= 1.0 {
      TimesOrder(1.0, n / d, d);
    } else if n / d <= 0.0 {
      TimesOrder(n / d, 0.0, d);
    }
  }

  lemma Ends(ladder: Ladder)
    ensures var cands := Around(ladder);
            && |cands| == |ladder| + 2 && cands[0] == Frac(0, 1) && cands[|ladder| + 1] == Frac(1, 1)
            && forall j :: 0 <= j < |ladder| ==> cands[j + 1] == ladder[j]
  {
  }

  lemma EndValues()
    ensures FracValue(Frac(0, 1)) == 0.0 && FracValue(Frac(1, 1)) == 1.0
  {
  }

  /** The closest candidate is at least as close as zero, one and every entry. */
  lemma ErrorBounds(m: real, ladder: Ladder)
    requires m >= 0.0
    ensures var r, error := m - Whole(m) as real, ClosestError(m, ladder);
            && 0.0 <= r < 1.0 && error <= r && error <= 1.0 - r
            && forall j :: 0 <= j < |ladder| ==> error <= Abs(r - FracValue(ladder[j]))
  {
    hide FracValue, Closest;
    var r, cands := m - Whole(m) as real, Around(ladder);
    ClosestIsFirst(r, cands);
    Ends(ladder);
    EndValues();
    hide Around;
    assert Distance(r, cands[0]) == r && Distance(r, cands[|ladder| + 1]) == 1.0 - r;
    forall j | 0 <= j < |ladder| ensures ClosestError(m, ladder) <= Abs(r - FracValue(ladder[j])) {
      assert Distance(r, cands[j + 1]) == Abs(r - FracValue(ladder[j]));
    }
  }

  /** The number chosen for a magnitude is no further away than any other of the ladder. */
  lemma ChosenIsNearest(m: real, ladder: Ladder, x: real)
    requires m >= 0.0 && OnLadder(ladder, x)
    ensures ClosestError(m, ladder) <= Abs(m - x)
  {
    hide FracValue, ClosestError;
    var f := x - x.Floor as real;
    ErrorBounds(m, ladder);
    NearestOfAll(m, Whole(m), x.Floor, f, ClosestError(m, ladder));
  }

  /** If no fraction of the same whole number is nearer, and neither end, then no number is. */
  lemma NearestOfAll(m: real, w: int, n: int, f: real, error: real)
    requires 0.0 <= m - w as real < 1.0 && 0.0 <= f < 1.0
    requires error <= m - w as real && error <= 1.0 - (m - w as real) && error <= Abs(m - w as real - f)
    ensures error <= Abs(m - (n as real + f))
  {
    if n < w {
      assert n as real <= w as real - 1.0;
    } else if n > w {
      assert n as real >= w as real + 1.0;
    }
  }

  /** The chosen whole number and fraction are the closest candidate, shifted by the whole part. */
  lemma ChosenError(m: real, ladder: Ladder)
    requires m >= 0.0 && ProperLadder(ladder)
    ensures var (whole, part) := Choose(m, ladder);
            var x := Mixed(false, whole, part);
            && (part.Some? ==> part.value in ladder)
            && Abs(m - MixedMagnitude(x)) == ClosestError(m, ladder)
            && MixedMagnitude(x) >= 0.0 && (MixedMagnitude(x) == 0.0 <==> whole == 0 && part.None?)
            && OnLadder(ladder, MixedMagnitude(x))
  {
    hide FracValue, Closest;
    var (whole, part) := Choose(m, ladder);
    var cands := Around(ladder);
    var k := Closest(m - Whole(m) as real, cands);
    Ends(ladder);
    EndValues();
    hide Around;
    if 0 < k <= |ladder| {
      assert cands[k] == ladder[k - 1];
      PartOnLadder(ladder, whole, k - 1);
    } else {
      WholeOnLadder(ladder, whole);
    }
  }

  lemma PartOnLadder(ladder: Ladder, whole: nat, j: nat)
    requires ProperLadder(ladder) && j < |ladder|
    ensures OnLadder(ladder, whole as real + FracValue(ladder[j]))
  {
    hide FracValue;
    var x := whole as real + FracValue(ladder[j]);
    assert x.Floor == whole;
  }

  lemma WholeOnLadder(ladder: Ladder, whole: nat)
    ensures OnLadder(ladder, whole as real + 0.0)
  {
  }

  /** What it means for m to stand for v on the ladder. */
  ghost predicate StandsFor(m: Mixed, v: real, ladder: Ladder, tolerance: real) {
    && (m.part.Some? ==> m.part.value in ladder) && OnLadder(ladder, MixedMagnitude(m))
    && (MixedValue(m) > 0.0 <==> v > 0.0) && (MixedValue(m) < 0.0 <==> v < 0.0)
    && Abs(v - MixedValue(m)) <= tolerance * Abs(v)
    && Nearest(ladder, Abs(v), MixedMagnitude(m))
    && Abs(MixedValue(m)) == MixedMagnitude(m)
  }

  /** No number of the ladder is nearer to r than x. */
  ghost predicate Nearest(ladder: Ladder, r: real, x: real) {
    forall y: real :: OnLadder(ladder, y) ==> Abs(r - x) <= Abs(r - y)
  }

  /** The answer has v's sign, is within the tolerance, is on the ladder, and no number of the ladder is nearer. */
  lemma {:induction false} MixedStandsFor(v: real, ladder: Ladder, tolerance: real)
    requires v != 0.0 && ProperLadder(ladder) && MixedNumber(v, ladder, tolerance).Some?
    ensures StandsFor(MixedNumber(v, ladder, tolerance).value, v, ladder, tolerance)
  {
    hide Choose, ClosestError, OnLadder, MixedMagnitude;
    var m := MixedNumber(v, ladder, tolerance).value;
    ChosenError(Abs(v), ladder);
    SameMagnitude(m);
    forall x: real | OnLadder(ladder, x) ensures Abs(Abs(v) - MixedMagnitude(m)) <= Abs(Abs(v) - x) {
      ChosenIsNearest(Abs(v), ladder, x);
    }
  }

  lemma SameMagnitude(m: Mixed)
    ensures MixedMagnitude(m.(negative := false)) == MixedMagnitude(m)
  {
  }

  /** There is an answer exactly if some number of the ladder is close enough, and some is nearer than zero. */
  lemma {:induction false} MixedExistsIff(v: real, ladder: Ladder, tolerance: real)
    requires v != 0.0 && ProperLadder(ladder)
    ensures MixedNumber(v, ladder, tolerance).Some? <==>
              && (exists x: real :: OnLadder(ladder, x) && Abs(Abs(v) - x) <= tolerance * Abs(v))
              && (exists x: real :: OnLadder(ladder, x) && Abs(Abs(v) - x) < Abs(v))
  {
    hide Choose, ClosestError, OnLadder, MixedMagnitude, MixedNumber, Abs;
    var m := Abs(v);
    AbsPositive(v);
    SomeIff(v, ladder, tolerance);
    ChosenWitness(m, ladder);
    if x: real :| OnLadder(ladder, x) && Abs(m - x) <= tolerance * m {
      ChosenIsNearest(m, ladder, x);
    }
    NotNothingIff(m, ladder);
  }

  lemma AbsPositive(v: real)
    requires v != 0.0
    ensures Abs(v) > 0.0
  {
  }

  lemma ChosenWitness(m: real, ladder: Ladder)
    requires m >= 0.0 && ProperLadder(ladder)
    ensures exists x: real :: OnLadder(ladder, x) && Abs(m - x) == ClosestError(m, ladder)
  {
    hide Choose, ClosestError, OnLadder, MixedMagnitude;
    ChosenError(m, ladder);
    var (whole, part) := Choose(m, ladder);
    assert OnLadder(ladder, MixedMagnitude(Mixed(false, whole, part)));
  }

  /** Something is chosen exactly if a number of the ladder is nearer than zero. */
  lemma NotNothingIff(m: real, ladder: Ladder)
    requires m > 0.0 && ProperLadder(ladder)
    ensures Choose(m, ladder) != (0, None) <==> exists x: real :: OnLadder(ladder, x) && Abs(m - x) < m
  {
    hide Choose, ClosestError, OnLadder, MixedMagnitude;
    ChosenError(m, ladder);
    var (whole, part) := Choose(m, ladder);
    var best := MixedMagnitude(Mixed(false, whole, part));
    if (whole, part) == (0, None) {
      forall x: real | OnLadder(ladder, x) ensures Abs(m - x) >= m {
        ChosenIsNearest(m, ladder, x);
      }
    } else {
      BetterThanZero(m, ladder);
    }
  }

  lemma BetterThanZero(m: real, ladder: Ladder)
    requires m > 0.0 && ProperLadder(ladder) && Choose(m, ladder) != (0, None)
    ensures exists x: real :: OnLadder(ladder, x) && Abs(m - x) < m
  {
    ChosenWitness(m, ladder);
    ErrorBounds(m, ladder);
    if Whole(m) == 0 {
      FirstIsZero(m, ladder);
    }
    hide ClosestError, OnLadder, Choose;
  }

  /** Zero is the first candidate: another one is chosen only if it is nearer. */
  lemma FirstIsZero(m: real, ladder: Ladder)
    requires m > 0.0 && Whole(m) == 0 && Choose(m, ladder) != (0, None)
    ensures ClosestError(m, ladder) < m
  {
    hide FracValue, Closest;
    var cands := Around(ladder);
    ClosestIsFirst(m, cands);
    Ends(ladder);
    EndValues();
    assert Distance(m, cands[0]) == m;
    hide Around;
  }

  lemma SomeIff(v: real, ladder: Ladder, tolerance: real)
    requires v != 0.0
    ensures MixedNumber(v, ladder, tolerance).Some? <==>
              ClosestError(Abs(v), ladder) <= tolerance * Abs(v) && Choose(Abs(v), ladder) != (0, None)
  {
    hide Choose, ClosestError;
  }

  // ----- fractions keep order ----------------------------------------------------------------------------

  /** The nearest numbers of the ladder to two numbers are in their order, or the numbers are equal. */
  lemma NearestInOrder(ladder: Ladder, r: real, x: real, s: real, y: real)
    requires r <= s && OnLadder(ladder, x) && OnLadder(ladder, y) && Nearest(ladder, r, x) && Nearest(ladder, s, y)
    ensures x <= y || r == s
  {
    hide OnLadder;
    assert Abs(r - x) <= Abs(r - y) && Abs(s - y) <= Abs(s - x);
  }

  /** Two numbers that both have a fraction show in order, on every ladder and with any tolerance. */
  lemma {:induction false} MixedInOrder(v: real, w: real, ladder: Ladder, tolerance: real)
    requires v <= w && ProperLadder(ladder)
    requires MixedNumber(v, ladder, tolerance).Some? && MixedNumber(w, ladder, tolerance).Some?
    ensures MixedValue(MixedNumber(v, ladder, tolerance).value) <= MixedValue(MixedNumber(w, ladder, tolerance).value)
  {
    hide OnLadder, Nearest, Choose, ClosestError;
    ZeroMixed(ladder, tolerance);
    hide MixedNumber, MixedMagnitude;
    if v != 0.0 {
      MixedStandsFor(v, ladder, tolerance);
    }
    if w != 0.0 {
      MixedStandsFor(w, ladder, tolerance);
    }
    var x, y := MixedNumber(v, ladder, tolerance).value, MixedNumber(w, ladder, tolerance).value;
    if v > 0.0 {
      NearestInOrder(ladder, v, MixedMagnitude(x), w, MixedMagnitude(y));
    } else if w < 0.0 {
      NearestInOrder(ladder, -w, MixedMagnitude(y), -v, MixedMagnitude(x));
    }
  }

  lemma ZeroMixed(ladder: Ladder, tolerance: real)
    ensures MixedNumber(0.0, ladder, tolerance).Some? && MixedValue(MixedNumber(0.0, ladder, tolerance).value) == 0.0
  {
  }

  // ----- the text denotes the number --------------------------------------------------------------------

  function ReadFrac(s: string): Option<Frac> {
    var k := IndexOf(s, '/');
    if k < |s| && Digits(s[..k]) && Digits(s[k + 1..]) && ReadNat(s[k + 1..]) > 0
    then Some(Frac(ReadNat(s[..k]), ReadNat(s[k + 1..])))
    else None
  }

  /** Reads "2", "1/3", "2 1/3", each with an optional minus. */
  function ReadMixed(s: string): Option<Mixed> {
    if s != "" && s[0] == '-' then ReadSigned(true, s[1..]) else ReadSigned(false, s)
  }

  function ReadSigned(negative: bool, s: string): Option<Mixed> {
    var k := IndexOf(s, ' ');
    if k < |s| then
      var f := ReadFrac(s[k + 1..]);
      if Digits(s[..k]) && f.Some? then Some(Mixed(negative, ReadNat(s[..k]), f)) else None
    else if Digits(s) then Some(Mixed(negative, ReadNat(s), None))
    else
      var f := ReadFrac(s);
      if f.Some? then Some(Mixed(negative, 0, f)) else None
  }

  lemma FracReads(f: Frac)
    requires f.num >= 0
    ensures ReadFrac(FracText(f)) == Some(f) && ' ' !in FracText(f) && !Digits(FracText(f))
    ensures FracText(f)[0] != '-'
  {
    var n, d := NatText(f.num), NatText(f.den);
    IndexOfSkips(n, '/', d);
    assert IntText(f.num) == n && FracText(f) == n + ['/'] + d;
    assert FracText(f)[..|n|] == n && FracText(f)[|n| + 1..] == d && FracText(f)[|n|] == '/';
    ReadNatText(f.num);
    ReadNatText(f.den);
    hide NatText;
  }

  lemma WholeReads(negative: bool, whole: nat)
    ensures ReadSigned(negative, NatText(whole)) == Some(Mixed(negative, whole, None)) && NatText(whole)[0] != '-'
  {
    ReadNatText(whole);
    assert ' ' !in NatText(whole);
    hide NatText, ReadNat, ReadFrac;
  }

  lemma PartReads(negative: bool, f: Frac)
    requires f.num >= 0
    ensures FracText(f) != "" && FracText(f)[0] != '-'
    ensures ReadSigned(negative, FracText(f)) == Some(Mixed(negative, 0, Some(f)))
  {
    FracReads(f);
    hide ReadFrac, FracText;
  }

  lemma BothRead(negative: bool, whole: nat, f: Frac)
    requires f.num >= 0
    ensures var s := NatText(whole) + " " + FracText(f);
            ReadSigned(negative, s) == Some(Mixed(negative, whole, Some(f))) && s[0] != '-'
  {
    ReadNatText(whole);
    FracReads(f);
    SplitAtSpace(NatText(whole), FracText(f));
    hide ReadFrac, FracText, NatText, ReadNat;
  }

  lemma SplitAtSpace(w: string, f: string)
    requires Digits(w) && w != ""
    ensures var s := w + " " + f;
            s[0] == w[0] && IndexOf(s, ' ') == |w| < |s| && s[..|w|] == w && s[|w| + 1..] == f
  {
    IndexOfSkips(w, ' ', f);
    assert w + " " + f == w + [' '] + f;
  }

  lemma SignedReads(negative: bool, m: Mixed)
    requires !m.negative && (m.part.Some? ==> m.part.value.num >= 0)
    ensures MixedText(m) != "" && MixedText(m)[0] != '-'
    ensures ReadSigned(negative, MixedText(m)) == Some(Mixed(negative, m.whole, m.part))
  {
    hide NatText, ReadFrac, FracText, ReadSigned;
    if m.part.None? {
      WholeReads(negative, m.whole);
      assert MixedText(m) == NatText(m.whole);
    } else if m.whole == 0 {
      PartReads(negative, m.part.value);
      assert MixedText(m) == FracText(m.part.value);
    } else {
      BothRead(negative, m.whole, m.part.value);
      assert MixedText(m) == NatText(m.whole) + " " + FracText(m.part.value);
    }
  }

  /** Reading the text of a mixed number gives the number back. */
  lemma {:induction false} MixedTextReads(m: Mixed)
    requires m.part.Some? ==> m.part.value.num >= 0
    ensures ReadMixed(MixedText(m)) == Some(m)
  {
    var plain := m.(negative := false);
    SignedReads(m.negative, plain);
    if m.negative {
      MinusText(m);
    }
    hide MixedText, ReadSigned;
  }

  lemma MinusText(m: Mixed)
    requires m.negative
    ensures var s := MixedText(m); s != "" && s[0] == '-' && s[1..] == MixedText(m.(negative := false))
  {
    hide NatText, FracText;
    assert MixedText(m) == "-" + MixedText(m.(negative := false));
  }

  // ----- counts ------------------------------------------------------------------------------------------

  /**
   A shown count is never zero for a positive amount. If the ingredient cannot be divided it is the nearest whole
   number, or one; otherwise the nearest half, and below a quarter two significant figures. Ties go up.
   */
  lemma {:induction false} CountShown(d: Dec, divisible: bool)
    requires Value(d) > 0.0
    ensures var v, shown := Value(d), Value(ShownCount(d, divisible));
            && shown > 0.0
            && (!divisible ==> shown == shown.Floor as real && (-0.5 < shown - v <= 0.5 || (shown == 1.0 && v < 0.5)))
            && (divisible && v >= 0.25 ==> shown * 2.0 == (shown * 2.0).Floor as real && -0.25 < shown - v <= 0.25)
            && (divisible && v < 0.25 ==> shown == RoundTo(v, P(Adjusted(d) - 1)) && Abs(shown - v) <= v / 20.0)
  {
    hide RoundSignificant, P, Adjusted, RoundTo, ShownCount, RoundHalfUp, Value;
    var v := Value(d);
    CountValue(d, divisible);
    RoundHalfUpIff(v, RoundHalfUp(v));
    RoundHalfUpIff(v * 2.0, RoundHalfUp(v * 2.0));
    SmallCount(d);
  }

  lemma SmallCountsInOrder(d: Dec, e: Dec)
    requires 0.0 < Value(d) <= Value(e)
    ensures Value(RoundSignificant(d)) <= Value(RoundSignificant(e))
  {
    SignedMagnitude(d);
    SignedMagnitude(e);
    MagnitudeLeads(d);
    MagnitudeLeads(e);
    RoundToStepValue(Value(d), Quantum(Adjusted(d) - 1));
    RoundToStepValue(Value(e), Quantum(Adjusted(e) - 1));
    FiguresOrder(Value(d), Adjusted(d), Value(e), Adjusted(e));
    hide P, Adjusted, RoundTo, Leading;
  }

  /** The count shown, as a number. */
  lemma CountValue(d: Dec, divisible: bool)
    ensures var v := Value(d);
            var n := if divisible then RoundHalfUp(v * 2.0) else RoundHalfUp(v);
            Value(ShownCount(d, divisible))
            == if n == 0 && v > 0.0 then (if divisible then Value(RoundSignificant(d)) else 1.0)
               else if divisible then n as real * 0.5 else n as real
  {
    hide RoundSignificant, Value, RoundHalfUp, Multiple;
    StepMultiples(RoundHalfUp(if divisible then Value(d) * 2.0 else Value(d)));
  }

  lemma StepMultiples(n: int)
    ensures Value(Multiple(n, ONE)) == n as real && Value(Multiple(n, HALF)) == n as real * 0.5 && Value(ONE) == 1.0
  {
    hide Value, Multiple;
    MetricSteps();
    MultipleValue(n, ONE);
    MultipleValue(n, HALF);
  }

  lemma HalvesZero(v: real)
    ensures RoundHalfUp(v * 2.0) == 0 <==> -0.25 < v < 0.25
    ensures v <= 0.0 ==> RoundHalfUp(v) <= 0 && RoundHalfUp(v * 2.0) <= 0
    ensures v >= 0.0 ==> RoundHalfUp(v) >= 0 && RoundHalfUp(v * 2.0) >= 0
  {
  }

  /** The bounds of a counted range show in order. */
  lemma {:induction false} CountsInOrder(d: Dec, e: Dec, divisible: bool)
    requires Value(d) <= Value(e)
    ensures Value(ShownCount(d, divisible)) <= Value(ShownCount(e, divisible))
  {
    hide RoundSignificant, Value, RoundHalfUp, ShownCount;
    CountValue(d, divisible);
    CountValue(e, divisible);
    RoundOrder(Value(d), Value(e));
    RoundOrder(Value(d) * 2.0, Value(e) * 2.0);
    HalvesZero(Value(d));
    HalvesZero(Value(e));
    if Value(d) > 0.0 {
      SmallCount(d);
      SmallCountsInOrder(d, e);
    }
    if Value(e) > 0.0 {
      SmallCount(e);
    }
  }

  lemma SmallCount(d: Dec)
    requires Value(d) > 0.0
    ensures Value(RoundSignificant(d)) > 0.0 && Abs(Value(RoundSignificant(d)) - Value(d)) <= Value(d) / 20.0
    ensures Value(RoundSignificant(d)) == RoundTo(Value(d), P(Adjusted(d) - 1))
  {
    SignedMagnitude(d);
    AdjustedLeads(d);
    RoundToStepValue(Value(d), Quantum(Adjusted(d) - 1));
    FiguresInDecade(Value(d), Adjusted(d));
    FiguresNear(Value(d), Adjusted(d));
    hide P, Adjusted, RoundTo;
  }

  /** The text of a count denotes the count shown. */
  lemma {:induction false} CountDenotes(d: Dec, divisible: bool)
    ensures Denotes(FormatCount(d, divisible), Value(ShownCount(d, divisible)))
  {
    hide ShownCount, Encode, ReadDecimal, Value, Plain, ReadMixed, MixedMagnitude;
    ReadEncode(ShownCount(d, divisible));
    PlainValue(ShownCount(d, divisible));
  }

  // ----- the order of what is shown ------------------------------------------------------------------------

  /** The fraction shown for a number, if it is shown as one. */
  function ShownFraction(d: Dec, unitId: Option<string>, profile: Profile): Option<Mixed> {
    var ladder := if profile.preferFractions && unitId.Some? then LadderFor(unitId.value) else None;
    if ladder.Some? then MixedNumber(Value(d), ladder.value, profile.tolerance) else None
  }

  /** The number a reader sees. */
  function ShownValue(d: Dec, unitId: Option<string>, profile: Profile): real {
    var m := ShownFraction(d, unitId, profile);
    if m.Some? then MixedValue(m.value) else Value(Snap(d))
  }

  /** The text is a decimal or a mixed number of the value x. */
  predicate Denotes(text: string, x: real) {
    || (ReadDecimal(text).Number? && Value(ReadDecimal(text).value) == x)
    || (ReadMixed(text).Some? && MixedValue(ReadMixed(text).value) == x)
  }

  lemma CountingParts(unitId: string)
    ensures LadderFor(unitId).Some? ==> forall f :: f in LadderFor(unitId).value ==> f.num >= 0
  {
  }

  /** The text shown denotes the number shown. */
  lemma {:induction false} ShownDenotes(d: Dec, unitId: Option<string>, profile: Profile)
    ensures Denotes(FormatNumber(d, unitId, profile), ShownValue(d, unitId, profile))
  {
    hide MixedNumber, MixedText, Snap, Encode, ReadMixed, ReadDecimal, LadderFor, Value, Plain, MixedMagnitude;
    var m := ShownFraction(d, unitId, profile);
    if m.Some? {
      PartCounts(d, unitId, profile);
      MixedTextReads(m.value);
    } else {
      ReadEncode(Snap(d));
      PlainValue(Snap(d));
    }
  }

  lemma PartCounts(d: Dec, unitId: Option<string>, profile: Profile)
    requires ShownFraction(d, unitId, profile).Some?
    ensures var m := ShownFraction(d, unitId, profile).value; m.part.Some? ==> m.part.value.num >= 0
  {
    hide LadderFor, Choose, ClosestError;
    var ladder := LadderFor(unitId.value).value;
    LaddersProper(unitId.value);
    CountingParts(unitId.value);
    if Value(d) != 0.0 {
      ChosenError(Abs(Value(d)), ladder);
    }
    hide Value;
  }

  /**
   Two numbers both shown as fractions, or both as decimals, show in order, with any unit and in any profile: order can
   fail only between a fraction and a decimal.
   */
  lemma {:induction false} DisplayInOrder(low: Dec, high: Dec, unitId: Option<string>, profile: Profile)
    requires Value(low) <= Value(high)
    requires ShownFraction(low, unitId, profile).Some? == ShownFraction(high, unitId, profile).Some?
    ensures ShownValue(low, unitId, profile) <= ShownValue(high, unitId, profile)
  {
    hide MixedNumber, Snap, LadderFor, Value, MixedMagnitude, ProperLadder;
    if ShownFraction(low, unitId, profile).Some? {
      LaddersProper(unitId.value);
      MixedInOrder(Value(low), Value(high), LadderFor(unitId.value).value, profile.tolerance);
    } else {
      SnapOrder(low, high);
    }
  }

  /** How far the number shown may be from the number. */
  function ShownError(d: Dec, unitId: Option<string>, profile: Profile): real {
    if ShownFraction(d, unitId, profile).Some? then profile.tolerance * Abs(Value(d)) else SnapError(Abs(Value(d)))
  }

  lemma {:induction false} ShownNear(d: Dec, unitId: Option<string>, profile: Profile)
    ensures Abs(ShownValue(d, unitId, profile) - Value(d)) <= ShownError(d, unitId, profile)
  {
    hide MixedNumber, Snap, LadderFor, Value, MixedMagnitude, ProperLadder, SnapError, OnLadder, Nearest;
    if ShownFraction(d, unitId, profile).Some? {
      LaddersProper(unitId.value);
      var ladder := LadderFor(unitId.value).value;
      ZeroMixed(ladder, profile.tolerance);
      if Value(d) != 0.0 {
        MixedStandsFor(Value(d), ladder, profile.tolerance);
      }
    } else {
      SnapNear(d);
    }
  }

  /** A fraction and a decimal show in order too, once the numbers are further apart than both may be off. */
  lemma {:induction false} FarApartInOrder(low: Dec, high: Dec, unitId: Option<string>, profile: Profile)
    requires Value(high) - Value(low) >= ShownError(low, unitId, profile) + ShownError(high, unitId, profile)
    ensures ShownValue(low, unitId, profile) <= ShownValue(high, unitId, profile)
  {
    ShownNear(low, unitId, profile);
    ShownNear(high, unitId, profile);
    hide ShownValue, ShownError, Value;
  }

  /** The metric profile shows the snapped decimals, so the bounds of a range are shown in order. */
  lemma {:induction false} MetricDisplayInOrder(low: Dec, high: Dec, unitId: Option<string>)
    requires Value(low) <= Value(high)
    ensures FormatNumber(low, unitId, METRIC) == Encode(Snap(low))
            && FormatNumber(high, unitId, METRIC) == Encode(Snap(high))
    ensures Value(Snap(low)) <= Value(Snap(high))
  {
    hide Snap, Encode, Value, MixedNumber, LadderFor;
    SnapOrder(low, high);
  }

  // ----- fractions are not in order ------------------------------------------------------------------------

  lemma NearAnEighth(r: real)
    requires 0.12 < r < 0.14
    ensures Closest(r, Around(CUPS)) == 1
  {
    var cands := Around(CUPS);
    assert cands == [Frac(0, 1), Frac(1, 8), Frac(1, 4), Frac(1, 3), Frac(1, 2), Frac(2, 3), Frac(3, 4), Frac(1, 1)];
    ClosestIs(r, cands, 1);
  }

  lemma TenthText()
    ensures Encode(TENTH) == "0.1"
  {
    assert NatText(1) == "1";
    assert PadLeft("1", 2) == Zeros(1) + "1" == "01";
    assert Normalize(1, -1) == (1, -1);
    assert WholeDigits(1, -1) == "0" && FractionDigits(1, -1) == "1";
    hide NatText, PadLeft, WholeDigits, FractionDigits, Normalize;
  }

  const LESS := Dec(false, 13, -2)
  const MORE := Dec(false, 132, -3)

  lemma LessIsAnEighth()
    ensures MixedNumber(0.13, CUPS, 0.05) == Some(Mixed(false, 0, Some(Frac(1, 8))))
    ensures MixedNumber(0.132, CUPS, 0.05) == None
  {
    NearAnEighth(0.13);
    NearAnEighth(0.132);
    assert Around(CUPS)[1] == Frac(1, 8);
    assert FracValue(Frac(1, 8)) == 0.125;
    hide Closest, Around, CUPS;
  }

  lemma EighthText()
    ensures MixedText(Mixed(false, 0, Some(Frac(1, 8)))) == "1/8"
  {
    assert NatText(1) == "1" && NatText(8) == "8";
    assert FracText(Frac(1, 8)) == "1/8";
  }

  lemma ExampleValues()
    ensures Value(LESS) == 0.13 && Value(MORE) == 0.132
  {
    SmallPowers();
  }

  lemma TeaspoonFormat(d: Dec, v: real)
    requires v == Value(d)
    ensures FormatNumber(d, Some("unit:tsp"), US)
         == match MixedNumber(v, CUPS, 0.05)
            case None => Encode(Snap(d))
            case Some(m) => MixedText(m)
  {
    hide MixedNumber, Snap, Encode, MixedText, CUPS, Value;
    assert "unit:tsp" == ["unit:tsp", "unit:cup.us", "unit:cup.metric", "unit:cup.uk", "unit:cup.jp"][0];
  }

  /**
   The US profile shows 0.13 teaspoons as an eighth and the larger 0.132, just outside the tolerance, as 0.1:
   fraction display does not keep order.
   */
  lemma {:induction false} UsDisplayNotInOrder()
    ensures Value(LESS) == 0.13 && Value(MORE) == 0.132
    ensures FormatNumber(LESS, Some("unit:tsp"), US) == "1/8" && FormatNumber(MORE, Some("unit:tsp"), US) == "0.1"
  {
    hide MixedNumber, Snap, Encode, P, MixedText, CUPS, FormatNumber, Value;
    ExampleValues();
    TeaspoonFormat(LESS, 0.13);
    TeaspoonFormat(MORE, 0.132);
    LessIsAnEighth();
    EighthText();
    SnapsToTenth();
    TenthText();
  }

  lemma SnapsToTenth()
    ensures Snap(MORE) == TENTH
  {
    SmallPowers();
    MetricSteps();
    assert Value(MORE) == 0.132 && StepFor(METRIC_BANDS, 0.132) == TENTH;
    assert RoundHalfUp(0.132 / 0.1) == 1;
    assert Multiple(1, TENTH) == TENTH;
  }
}
