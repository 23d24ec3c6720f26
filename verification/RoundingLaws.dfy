/** What a reader may rely on: snapped values are odd, in order, never zero, close, and almost always fixed points. */
module RoundingLaws {
  import opened Decimals
  import opened Rounding

  // ----- rounding to a step ---------------------------------------------------------------

  lemma RoundOrder(x: real, y: real)
    ensures x <= y ==> RoundHalfUp(x) <= RoundHalfUp(y)
    ensures RoundHalfUp(-x) == -RoundHalfUp(x)
    ensures -0.5 <= RoundHalfUp(x) as real - x <= 0.5
  {
  }

  /** The nearest whole number, and of two equally near ones the one further from zero. */
  lemma {:induction false} RoundHalfUpIff(x: real, n: int)
    ensures RoundHalfUp(x) == n <==>
              if x >= 0.0 then n as real - 0.5 <= x < n as real + 0.5 else n as real - 0.5 < x <= n as real + 0.5
  {
  }

  lemma RoundWhole(n: int)
    ensures RoundHalfUp(n as real) == n
  {
  }

  lemma DivideOrder(x: real, y: real, step: real)
    requires step > 0.0 && x <= y
    ensures x / step <= y / step
  {
  }

  lemma TimesOrder(x: real, y: real, step: real)
    requires step > 0.0 && x <= y
    ensures x * step <= y * step
  {
  }

  lemma DivideTimes(x: real, step: real)
    requires step > 0.0
    ensures x / step * step == x && x * step / step == x && (-x) / step == -(x / step)
  {
  }

  lemma RoundToOrder(x: real, y: real, step: real)
    requires step > 0.0 && x <= y
    ensures RoundTo(x, step) <= RoundTo(y, step)
  {
    DivideOrder(x, y, step);
    RoundOrder(x / step, y / step);
    TimesOrder(RoundHalfUp(x / step) as real, RoundHalfUp(y / step) as real, step);
    hide RoundHalfUp;
  }

  lemma RoundToOdd(x: real, step: real)
    requires step > 0.0
    ensures RoundTo(-x, step) == -RoundTo(x, step)
  {
    DivideTimes(x, step);
    RoundOrder(x / step, 0.0);
    Negate(RoundHalfUp(x / step) as real, step);
    hide RoundHalfUp;
  }

  /** A multiple of the step is kept; what lies on one side of it stays there. */
  lemma RoundToMultiple(x: real, step: real, n: int)
    requires step > 0.0
    ensures RoundTo(n as real * step, step) == n as real * step
    ensures x <= n as real * step ==> RoundTo(x, step) <= n as real * step
    ensures n as real * step <= x ==> n as real * step <= RoundTo(x, step)
  {
    DivideTimes(n as real, step);
    RoundWhole(n);
    if x <= n as real * step {
      RoundToOrder(x, n as real * step, step);
    }
    if n as real * step <= x {
      RoundToOrder(n as real * step, x, step);
    }
    hide RoundHalfUp;
  }

  lemma RoundToNear(x: real, step: real)
    requires step > 0.0
    ensures Abs(RoundTo(x, step) - x) <= step / 2.0
  {
    RoundOrder(x / step, 0.0);
    DivideTimes(x, step);
    NearMultiple(RoundHalfUp(x / step) as real, x / step, step, RoundTo(x, step), x);
  }

  lemma NearMultiple(n: real, q: real, step: real, r: real, x: real)
    requires -0.5 <= n - q <= 0.5 && step > 0.0 && r == n * step && x == q * step
    ensures Abs(r - x) <= step / 2.0
  {
    NotFarAbove(n, q, step, r, x);
    NotFarAbove(q, n, step, x, r);
  }

  lemma NotFarAbove(n: real, q: real, step: real, r: real, x: real)
    requires n - q <= 0.5 && step > 0.0 && r == n * step && x == q * step
    ensures r - x <= step / 2.0
  {
    TimesOrder(n, q + 0.5, step);
    assert (q + 0.5) * step == q * step + 0.5 * step;
  }

  // ----- powers of ten ------------------------------------------------------------------------

  lemma {:induction false} PowersGrow(a: int, b: int)
    requires a <= b
    ensures P(a) <= P(b)
    decreases b - a
  {
    if a < b {
      PowersGrow(a, b - 1);
      PStep(b - 1);
    }
  }

  lemma {:induction false} DigitBounds(c: nat)
    requires c > 0
    ensures Pow10(DigitCount(c) - 1) <= c < Pow10(DigitCount(c))
  {
    if c >= 10 {
      DigitBounds(c / 10);
    }
  }

  /** a is the exponent of the leading digit of m. */
  predicate LeadsAt(m: real, a: int) {
    P(a) <= m < P(a + 1)
  }

  lemma {:induction false} AdjustedLeads(d: Dec)
    requires d.coeff > 0
    ensures LeadsAt(Magnitude(d.coeff, d.exp), Adjusted(d))
  {
    hide P, Pow10, DigitCount;
    var n := DigitCount(d.coeff);
    DigitBounds(d.coeff);
    ShiftTo(d.exp, n - 1, Adjusted(d));
    ShiftTo(d.exp, n, Adjusted(d) + 1);
    LeadsFrom(d.coeff as real, d.exp, Adjusted(d), Pow10(n - 1) as real, Pow10(n) as real);
  }

  lemma ShiftTo(e: int, k: nat, a: int)
    requires a == e + k
    ensures P(a) == P(e) * Pow10(k) as real
  {
    PShift(e, k);
  }

  lemma LeadsFrom(c: real, e: int, a: int, low: real, high: real)
    requires low <= c < high && P(a) == P(e) * low && P(a + 1) == P(e) * high
    ensures P(a) <= c * P(e) < P(a + 1)
  {
    hide P;
    TimesOrder(low, c, P(e));
    TimesLess(c, high, P(e));
  }

  lemma TimesLess(x: real, y: real, step: real)
    requires step > 0.0 && x < y
    ensures x * step < y * step
  {
  }

  lemma LeadsUnique(m: real, a: int, b: int)
    requires LeadsAt(m, a) && LeadsAt(m, b)
    ensures a == b
  {
    if a < b {
      PowersGrow(a + 1, b);
    } else if b < a {
      PowersGrow(b + 1, a);
    }
  }

  lemma SmallPowers()
    ensures P(-3) == 0.001 && P(-2) == 0.01 && P(-1) == 0.1 && P(0) == 1.0
  {
    assert P(-1) == P(0) / 10.0;
    assert P(-2) == P(-1) / 10.0;
    assert P(-3) == P(-2) / 10.0;
  }

  /** Below a power of ten the leading exponent is smaller. */
  lemma LeadsBelow(m: real, a: int, k: int)
    requires LeadsAt(m, a) && m < P(k)
    ensures a < k
  {
    if k <= a {
      PowersGrow(k, a);
    }
  }

  // ----- snapping a positive magnitude ---------------------------------------------------------------

  /** The step of the metric band. */
  function BandStep(m: real): (step: real)
    ensures step > 0.0
  {
    if m < 1.0 then 0.1 else if m < 10.0 then 0.5 else if m < 100.0 then 1.0 else if m < 1000.0 then 5.0 else 25.0
  }

  /** Significant figures below half the smallest step, the band's step above. */
  function SnapPositive(m: real, a: int): real {
    if m < 0.05 then RoundTo(m, P(a - 1)) else RoundTo(m, BandStep(m))
  }

  lemma StepForMetric(m: real)
    ensures Value(StepFor(METRIC_BANDS, m)) == BandStep(m)
  {
    MetricSteps();
    assert METRIC_BANDS[1..][1..] == METRIC_BANDS[2..] && METRIC_BANDS[2..][1..] == METRIC_BANDS[3..]
        && METRIC_BANDS[3..][1..] == METRIC_BANDS[4..];
    assert StepFor(METRIC_BANDS[4..], m) == TWENTY_FIVE;
    assert StepFor(METRIC_BANDS[3..], m) == if m < 1000.0 then FIVE else TWENTY_FIVE;
    assert StepFor(METRIC_BANDS[2..], m) == if m < 100.0 then ONE else StepFor(METRIC_BANDS[3..], m);
    assert StepFor(METRIC_BANDS[1..], m) == if m < 10.0 then HALF else StepFor(METRIC_BANDS[2..], m);
    assert StepFor(METRIC_BANDS, m) == if m < 1.0 then TENTH else StepFor(METRIC_BANDS[1..], m);
  }

  /** The band rounds a positive magnitude to zero exactly if it is below half the smallest step. */
  lemma ZeroBelowHalf(m: real)
    requires m > 0.0
    ensures RoundTo(m, BandStep(m)) == 0.0 <==> m < 0.05
    ensures m >= 0.05 ==> RoundTo(m, BandStep(m)) >= 0.1
  {
    var s := BandStep(m);
    if m < 0.05 {
      assert RoundHalfUp(m / 0.1) == 0;
    } else if m < 1.0 {
      assert RoundHalfUp(m / 0.1) >= 1;
      TimesOrder(1.0, RoundHalfUp(m / s) as real, s);
    } else {
      RoundToMultiple(m, s, if m < 10.0 then 2 else if m < 100.0 then 1 else if m < 1000.0 then 20 else 40);
    }
  }

  lemma RoundToStepValue(v: real, step: Dec)
    requires !step.neg && Value(step) > 0.0
    ensures Value(RoundToStep(v, step)) == RoundTo(v, Value(step))
  {
    MultipleValue(RoundHalfUp(v / Value(step)), step);
  }

  lemma SignedMagnitude(d: Dec)
    ensures Abs(Value(d)) == Magnitude(d.coeff, d.exp)
    ensures Value(d) == if d.neg then -Magnitude(d.coeff, d.exp) else Magnitude(d.coeff, d.exp)
    ensures Value(d) == 0.0 <==> d.coeff == 0
  {
    NonNegative(d.coeff as real, P(d.exp));
  }

  lemma NonNegative(x: real, p: real)
    requires x >= 0.0 && p > 0.0
    ensures x * p >= 0.0 && (x * p == 0.0 <==> x == 0.0)
  {
  }

  lemma StepNotNegative(m: real)
    ensures !StepFor(METRIC_BANDS, m).neg
  {
    assert METRIC_BANDS[1..][1..] == METRIC_BANDS[2..] && METRIC_BANDS[2..][1..] == METRIC_BANDS[3..]
        && METRIC_BANDS[3..][1..] == METRIC_BANDS[4..];
    assert !StepFor(METRIC_BANDS[4..], m).neg;
    assert !StepFor(METRIC_BANDS[3..], m).neg;
    assert !StepFor(METRIC_BANDS[2..], m).neg;
    assert !StepFor(METRIC_BANDS[1..], m).neg;
  }

  /** The value of the snapped Decimal: zero stays, otherwise the sign times the snapped magnitude. */
  lemma {:induction false} SnapValue(d: Dec)
    ensures var m := Abs(Value(d));
            Value(Snap(d)) == if m == 0.0 then 0.0
                              else if d.neg then -SnapPositive(m, Adjusted(d)) else SnapPositive(m, Adjusted(d))
  {
    var v, m := Value(d), Abs(Value(d));
    SignedMagnitude(d);
    if m != 0.0 {
      MetricSteps();
      StepForMetric(m);
      StepNotNegative(m);
      var step := StepFor(METRIC_BANDS, m);
      hide StepFor, BandStep, RoundTo, P, METRIC_BANDS;
      RoundToStepValue(v, step);
      RoundToOdd(m, BandStep(m));
      ZeroBelowHalf(m);
      RoundToStepValue(v, Quantum(Adjusted(d) - 1));
      RoundToOdd(m, P(Adjusted(d) - 1));
    }
  }
}
