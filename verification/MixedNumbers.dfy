/** Kitchen fractions: the nearest whole number plus a fraction of the ladder, if it is close enough. */
module MixedNumbers {
  import opened Wrappers
  import opened Text
  import opened Decimals
  import opened Rounding

  type Positive = n: nat | n > 0 witness 1

  datatype Frac = Frac(num: int, den: Positive)

  type Ladder = seq<Frac>

  function FracValue(f: Frac): real {
    f.num as real / f.den as real
  }

  const CUPS: Ladder := [Frac(1, 8), Frac(1, 4), Frac(1, 3), Frac(1, 2), Frac(2, 3), Frac(3, 4)]
  const SPOONS: Ladder := [Frac(1, 4), Frac(1, 3), Frac(1, 2), Frac(2, 3), Frac(3, 4)]
  const QUARTERS: Ladder := [Frac(1, 4), Frac(1, 2), Frac(3, 4)]

  /** `FRACTION_LADDERS`. */
  function LadderFor(unitId: string): Option<Ladder> {
    if unitId in ["unit:tsp", "unit:cup.us", "unit:cup.metric", "unit:cup.uk", "unit:cup.jp"] then Some(CUPS)
    else if unitId in ["unit:tbsp", "unit:lb"] then Some(SPOONS)
    else if unitId in ["unit:oz", "unit:pint", "unit:quart"] then Some(QUARTERS)
    else None
  }

  // ----- the number and its text --------------------------------------------------------------

  datatype Mixed = Mixed(negative: bool, whole: nat, part: Option<Frac>)

  function IntText(n: int): string {
    if n < 0 then "-" + NatText(-n) else NatText(n)
  }

  function FracText(f: Frac): string {
    IntText(f.num) + "/" + NatText(f.den)
  }

  function MixedText(m: Mixed): string {
    (if m.negative then "-" else "")
    + if m.part.None? then NatText(m.whole)
      else if m.whole == 0 then FracText(m.part.value)
      else NatText(m.whole) + " " + FracText(m.part.value)
  }

  /** The magnitude the text denotes. */
  function MixedMagnitude(m: Mixed): real {
    m.whole as real + if m.part.Some? then FracValue(m.part.value) else 0.0
  }

  function MixedValue(m: Mixed): real {
    if m.negative then -MixedMagnitude(m) else MixedMagnitude(m)
  }

  // ----- the closest candidate --------------------------------------------------------------------

  type Candidates = c: seq<Frac> | c != [] witness [Frac(0, 1)]

  function Distance(r: real, f: Frac): real {
    Abs(r - FracValue(f))
  }

  /** `min(candidates, key=...)`: the first of the candidates nearest to r. */
  function Closest(r: real, cands: Candidates): (k: nat)
    ensures k < |cands|
    decreases |cands|
  {
    if |cands| == 1 then 0
    else
      var n := |cands| - 1;
      var k := Closest(r, cands[..n]);
      if Distance(r, cands[n]) < Distance(r, cands[k]) then n else k
  }

  /** Zero, the ladder, one. */
  function Around(ladder: Ladder): Candidates {
    [Frac(0, 1)] + ladder + [Frac(1, 1)]
  }

  function Whole(magnitude: real): nat
    requires magnitude >= 0.0
  {
    magnitude.Floor
  }

  /** The whole number and the fraction chosen for a magnitude; a fraction of one carries. */
  function Choose(magnitude: real, ladder: Ladder): (nat, Option<Frac>)
    requires magnitude >= 0.0
  {
    var whole := Whole(magnitude);
    var best := Around(ladder)[Closest(magnitude - whole as real, Around(ladder))];
    if FracValue(best) == 1.0 then (whole + 1, None)
    else (whole, if FracValue(best) == 0.0 then None else Some(best))
  }

  /** How far the part after the whole number is from the closest candidate. */
  function ClosestError(magnitude: real, ladder: Ladder): real
    requires magnitude >= 0.0
  {
    var remainder := magnitude - Whole(magnitude) as real;
    Distance(remainder, Around(ladder)[Closest(remainder, Around(ladder))])
  }

  /** `to_mixed_number` before its text. */
  function MixedNumber(v: real, ladder: Ladder, tolerance: real): Option<Mixed> {
    if v == 0.0 then Some(Mixed(false, 0, None))
    else
      if ClosestError(Abs(v), ladder) > tolerance * Abs(v) then None
      else
        var (whole, part) := Choose(Abs(v), ladder);
        if whole == 0 && part.None? then None else Some(Mixed(v < 0.0, whole, part))
  }

  method FindClosest(r: real, cands: Candidates) returns (k: nat)
    ensures k == Closest(r, cands)
  {
    hide Distance;
    k := 0;
    for n := 1 to |cands|
      invariant k < n && k == Closest(r, cands[..n])
    {
      assert cands[..n + 1][..n] == cands[..n];
      if Distance(r, cands[n]) < Distance(r, cands[k]) {
        k := n;
      }
    }
    assert cands[..|cands|] == cands;
  }

  /** `to_mixed_number`. */
  method ToMixedNumber(v: real, ladder: Ladder, tolerance: real) returns (text: Option<string>)
    ensures text == match MixedNumber(v, ladder, tolerance)
                    case None => None
                    case Some(m) => Some(MixedText(m))
  {
    hide Distance, Closest, Abs, FracValue, Around;
    if v == 0.0 {
      assert MixedText(Mixed(false, 0, None)) == "" + NatText(0) == "0";
      return Some("0");
    }
    var magnitude := Abs(v);
    var whole := Whole(magnitude);
    var remainder := magnitude - whole as real;
    var candidates := Around(ladder);
    var k := FindClosest(remainder, candidates);
    if Distance(remainder, candidates[k]) > tolerance * magnitude {
      return None;
    }
    var best := Some(candidates[k]);
    if FracValue(best.value) == 1.0 {
      whole, best := whole + 1, None;
    } else if FracValue(best.value) == 0.0 {
      best := None;
    }
    if whole == 0 && best.None? {
      return None;
    }
    return Some(MixedText(Mixed(v < 0.0, whole, best)));
  }

  // ----- format_number ---------------------------------------------------------------------------------

  /** How numbers are shown: whether fractions are preferred, and the relative error they may have. */
  datatype Profile = Profile(preferFractions: bool, tolerance: real)

  const METRIC := Profile(false, 0.05)
  const US := Profile(true, 0.05)

  /** `format_number`. */
  function FormatNumber(d: Dec, unitId: Option<string>, profile: Profile): string {
    var ladder := if profile.preferFractions && unitId.Some? then LadderFor(unitId.value) else None;
    var mixed := if ladder.Some? then MixedNumber(Value(d), ladder.value, profile.tolerance) else None;
    if mixed.Some? then MixedText(mixed.value) else Encode(Snap(d))
  }
}
