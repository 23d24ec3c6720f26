/** Display rounding of exact decimals: metric steps, significant figures, counts. */
module Rounding {
  import opened Wrappers
  import opened Decimals

  // ----- rounding half up ---------------------------------------------------------------

  /** `quantize(Decimal(1), ROUND_HALF_UP)`: halves go away from zero. */
  function RoundHalfUp(x: real): int {
    if x >= 0.0 then (x + 0.5).Floor else -((0.5 - x).Floor)
  }

  /** The nearest multiple of the step. */
  function RoundTo(x: real, step: real): real
    requires step > 0.0
  {
    RoundHalfUp(x / step) as real * step
  }

  /** The Decimal n times the step. */
  function Multiple(n: int, step: Dec): Dec {
    Dec(n < 0, (if n < 0 then -n else n) * step.coeff, step.exp)
  }

  lemma MultipleValue(n: int, step: Dec)
    requires !step.neg
    ensures Value(Multiple(n, step)) == n as real * Value(step)
  {
    var k := if n < 0 then -n else n;
    Scale3(k as real, step.coeff as real, P(step.exp));
    assert (k * step.coeff) as real == k as real * step.coeff as real;
    if n < 0 {
      Negate(k as real, Value(step));
    }
  }

  lemma Scale3(x: real, y: real, z: real)
    ensures x * y * z == x * (y * z)
  {
  }

  lemma Negate(x: real, y: real)
    ensures -(x * y) == (-x) * y
  {
  }

  function RoundToStep(v: real, step: Dec): Dec
    requires Value(step) > 0.0
  {
    Multiple(RoundHalfUp(v / Value(step)), step)
  }

  // ----- significant figures ---------------------------------------------------------------

  function DigitCount(c: nat): (n: nat)
    ensures n >= 1
  {
    if c < 10 then 1 else 1 + DigitCount(c / 10)
  }

  /** `Decimal.adjusted()`: the exponent of the most significant digit. */
  function Adjusted(d: Dec): int {
    DigitCount(d.coeff) - 1 + d.exp
  }

  function Quantum(exponent: int): (q: Dec)
    ensures Value(q) == P(exponent)
  {
    Dec(false, 1, exponent)
  }

  /** `_round_significant` with two figures. */
  function RoundSignificant(d: Dec): Dec {
    if Value(d) == 0.0 then d else RoundToStep(Value(d), Quantum(Adjusted(d) - 1))
  }

  // ----- metric snapping -------------------------------------------------------------------------

  /** An exclusive upper bound, none for infinity, and the step below it. */
  datatype Band = Band(upper: Option<real>, step: Dec)

  const TENTH := Dec(false, 1, -1)
  const HALF := Dec(false, 5, -1)
  const ONE := Dec(false, 1, 0)
  const FIVE := Dec(false, 5, 0)
  const TWENTY_FIVE := Dec(false, 25, 0)

  const METRIC_BANDS: seq<Band> := [
    Band(Some(1.0), TENTH), Band(Some(10.0), HALF), Band(Some(100.0), ONE), Band(Some(1000.0), FIVE),
    Band(None, TWENTY_FIVE)]

  function Abs(x: real): (m: real)
    ensures m >= 0.0
  {
    if x < 0.0 then -x else x
  }

  predicate Below(m: real, b: Band) {
    b.upper.Some? ==> m < b.upper.value
  }

  /** The step of the first band the magnitude is below, or of the last band. */
  function StepFor(bands: seq<Band>, m: real): Dec
    requires bands != []
  {
    if Below(m, bands[0]) || |bands| == 1 then bands[0].step else StepFor(bands[1..], m)
  }

  predicate PositiveSteps(bands: seq<Band>) {
    bands != [] && forall k :: 0 <= k < |bands| ==> Value(bands[k].step) > 0.0
  }

  lemma {:induction false} StepPositive(bands: seq<Band>, m: real)
    requires PositiveSteps(bands)
    ensures Value(StepFor(bands, m)) > 0.0
  {
    if |bands| > 1 {
      StepPositive(bands[1..], m);
    }
  }

  function SnapIn(bands: seq<Band>, d: Dec): Dec
    requires PositiveSteps(bands)
  {
    if Value(d) == 0.0 then d
    else
      StepPositive(bands, Abs(Value(d)));
      var snapped := RoundToStep(Value(d), StepFor(bands, Abs(Value(d))));
      if Value(snapped) == 0.0 then RoundSignificant(d) else snapped
  }

  lemma MetricSteps()
    ensures PositiveSteps(METRIC_BANDS)
    ensures Value(TENTH) == 0.1 && Value(HALF) == 0.5 && Value(ONE) == 1.0 && Value(FIVE) == 5.0
            && Value(TWENTY_FIVE) == 25.0
  {
    assert P(-1) == P(0) / 10.0;
  }

  /** `snap_metric` with its default bands. */
  function Snap(d: Dec): Dec {
    MetricSteps();
    SnapIn(METRIC_BANDS, d)
  }

  /** `snap_metric`: the loop over the bands. */
  method SnapMetric(d: Dec, bands: seq<Band>) returns (r: Dec)
    requires PositiveSteps(bands)
    ensures r == SnapIn(bands, d)
  {
    if Value(d) == 0.0 {
      return d;
    }
    var magnitude := Abs(Value(d));
    var step := FindStep(bands, magnitude);
    StepPositive(bands, magnitude);
    var snapped := RoundToStep(Value(d), step);
    if Value(snapped) == 0.0 {
      return RoundSignificant(d);
    }
    return snapped;
  }

  lemma StepSkips(bands: seq<Band>, k: nat, m: real)
    requires k < |bands| && !Below(m, bands[k])
    ensures k + 1 < |bands| ==> StepFor(bands[k..], m) == StepFor(bands[k + 1..], m)
    ensures k + 1 == |bands| ==> StepFor(bands[k..], m) == bands[k].step
  {
    assert bands[k..][1..] == bands[k + 1..];
  }

  method FindStep(bands: seq<Band>, m: real) returns (step: Dec)
    requires bands != []
    ensures step == StepFor(bands, m)
  {
    step := bands[|bands| - 1].step;
    assert bands[0..] == bands;
    for k := 0 to |bands|
      invariant step == bands[|bands| - 1].step
      invariant StepFor(bands, m) == if k < |bands| then StepFor(bands[k..], m) else step
    {
      if Below(m, bands[k]) {
        step := bands[k].step;
        return;
      }
      StepSkips(bands, k, m);
    }
  }

  // ----- counts --------------------------------------------------------------------------------------

  /** `format_count` before its text: whole pieces, or halves; a positive amount never shows as zero. */
  function ShownCount(d: Dec, divisible: bool): Dec {
    if !divisible then
      var rounded := RoundHalfUp(Value(d));
      if rounded == 0 && Value(d) > 0.0 then ONE else Multiple(rounded, ONE)
    else
      var halves := RoundHalfUp(Value(d) * 2.0);
      if halves == 0 && Value(d) > 0.0 then RoundSignificant(d) else Multiple(halves, HALF)
  }

  /** `format_count`. */
  function FormatCount(d: Dec, divisible: bool): string {
    Encode(ShownCount(d, divisible))
  }
}
