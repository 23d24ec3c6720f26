/** The laws of metric snapping, over every decimal. */
module SnapLaws {
  import opened Decimals
  import opened Rounding
  import opened RoundingLaws

  function Negated(d: Dec): Dec {
    Dec(!d.neg, d.coeff, d.exp)
  }

  /** A positive magnitude with its leading exponent. */
  predicate Leading(m: real, a: int) {
    m > 0.0 && LeadsAt(m, a)
  }

  lemma MagnitudeLeads(d: Dec)
    requires Value(d) != 0.0
    ensures Leading(Abs(Value(d)), Adjusted(d))
  {
    SignedMagnitude(d);
    AdjustedLeads(d);
  }

  // ----- odd ------------------------------------------------------------------------------

  /** Snapping a number and its opposite gives opposite numbers. */
  lemma {:induction false} SnapOdd(d: Dec)
    ensures Value(Snap(Negated(d))) == -Value(Snap(d))
  {
    SignedMagnitude(d);
    SignedMagnitude(Negated(d));
    SnapValue(d);
    SnapValue(Negated(d));
    hide SnapPositive, Snap, Magnitude;
  }

  // ----- where a snapped magnitude lies -----------------------------------------------------

  lemma TenSteps(a: int)
    ensures P(a) == 10.0 * P(a - 1) && P(a + 1) == 100.0 * P(a - 1)
  {
    PStep(a - 1);
    PStep(a);
  }

  /** Two significant figures keep the decade, up to its end. */
  lemma FiguresInDecade(m: real, a: int)
    requires Leading(m, a)
    ensures P(a) <= RoundTo(m, P(a - 1)) <= P(a + 1)
  {
    TenSteps(a);
    RoundToMultiple(m, P(a - 1), 10);
    RoundToMultiple(m, P(a - 1), 100);
    hide RoundTo, P;
  }

  /** Below a twentieth the leading exponent is at most -2, and rounding reaches at most a twentieth. */
  lemma SmallFigures(m: real, a: int)
    requires Leading(m, a) && m < 0.05
    ensures a <= -2 && 0.0 < RoundTo(m, P(a - 1)) <= 0.05
    ensures a < -2 ==> RoundTo(m, P(a - 1)) <= 0.01
    ensures a == -2 ==> P(a - 1) == 0.001
  {
    SmallPowers();
    LeadsBelow(m, a, -1);
    FiguresInDecade(m, a);
    if a == -2 {
      RoundToMultiple(m, 0.001, 50);
    } else {
      PowersGrow(a + 1, -2);
    }
    hide RoundTo, P;
  }

  /** A snapped magnitude stays in its band, up to the band's end. */
  lemma BandKept(m: real)
    requires m >= 0.05
    ensures var r := RoundTo(m, BandStep(m));
            && (m < 1.0 ==> 0.1 <= r <= 1.0) && (1.0 <= m < 10.0 ==> 1.0 <= r <= 10.0)
            && (10.0 <= m < 100.0 ==> 10.0 <= r <= 100.0) && (100.0 <= m < 1000.0 ==> 100.0 <= r <= 1000.0)
            && (1000.0 <= m ==> 1000.0 <= r)
  {
    hide RoundTo;
    var s := BandStep(m);
    ZeroBelowHalf(m);
    if m < 1.0 {
      RoundToMultiple(m, s, 10);
    } else if m < 10.0 {
      RoundToMultiple(m, s, 2);
      RoundToMultiple(m, s, 20);
    } else if m < 100.0 {
      RoundToMultiple(m, s, 10);
      RoundToMultiple(m, s, 100);
    } else if m < 1000.0 {
      RoundToMultiple(m, s, 20);
      RoundToMultiple(m, s, 200);
    } else {
      RoundToMultiple(m, s, 40);
    }
  }

  // ----- never zero -----------------------------------------------------------------------------

  lemma PositiveStays(m: real, a: int)
    requires Leading(m, a)
    ensures SnapPositive(m, a) > 0.0
  {
    if m < 0.05 {
      SmallFigures(m, a);
    } else {
      BandKept(m);
    }
    hide RoundTo, BandStep, P;
  }

  /** A snapped number has the sign of the number: zero stays zero and nothing else becomes it. */
  lemma {:induction false} SnapKeepsSign(d: Dec)
    ensures Value(d) == 0.0 <==> Value(Snap(d)) == 0.0
    ensures Value(d) > 0.0 <==> Value(Snap(d)) > 0.0
  {
    SignedMagnitude(d);
    SnapValue(d);
    if Value(d) != 0.0 {
      MagnitudeLeads(d);
      PositiveStays(Abs(Value(d)), Adjusted(d));
    }
    hide SnapPositive, Snap, Leading, Magnitude;
  }

  // ----- in order -----------------------------------------------------------------------------------

  lemma FiguresOrder(m: real, a: int, n: real, b: int)
    requires Leading(m, a) && Leading(n, b) && m <= n
    ensures RoundTo(m, P(a - 1)) <= RoundTo(n, P(b - 1))
  {
    if a == b {
      RoundToOrder(m, n, P(a - 1));
    } else {
      if b < a {
        PowersGrow(b + 1, a);
      }
      FiguresInDecade(m, a);
      FiguresInDecade(n, b);
      PowersGrow(a + 1, b);
    }
    hide RoundTo, P;
  }

  lemma BandOrder(m: real, n: real)
    requires 0.05 <= m <= n
    ensures RoundTo(m, BandStep(m)) <= RoundTo(n, BandStep(n))
  {
    BandKept(m);
    BandKept(n);
    if BandStep(m) == BandStep(n) {
      RoundToOrder(m, n, BandStep(m));
    }
    hide RoundTo;
  }

  lemma PositiveOrder(m: real, a: int, n: real, b: int)
    requires Leading(m, a) && Leading(n, b) && m <= n
    ensures SnapPositive(m, a) <= SnapPositive(n, b)
  {
    if n < 0.05 {
      FiguresOrder(m, a, n, b);
    } else if m < 0.05 {
      SmallFigures(m, a);
      ZeroBelowHalf(n);
    } else {
      BandOrder(m, n);
    }
    hide RoundTo, BandStep, P;
  }

  /** Snapping keeps order, through every band and into the significant figures: ranges display in order. */
  lemma {:induction false} SnapOrder(d: Dec, e: Dec)
    requires Value(d) <= Value(e)
    ensures Value(Snap(d)) <= Value(Snap(e))
  {
    SignedMagnitude(d);
    SignedMagnitude(e);
    SnapKeepsSign(d);
    SnapKeepsSign(e);
    SnapValue(d);
    SnapValue(e);
    hide SnapPositive, Snap, Magnitude;
    if Value(d) > 0.0 || Value(e) < 0.0 {
      MagnitudeLeads(d);
      MagnitudeLeads(e);
      if Value(d) > 0.0 {
        PositiveOrder(Abs(Value(d)), Adjusted(d), Abs(Value(e)), Adjusted(e));
      } else {
        PositiveOrder(Abs(Value(e)), Adjusted(e), Abs(Value(d)), Adjusted(d));
      }
    }
  }

  // ----- close ------------------------------------------------------------------------------------------

  /** How far from a magnitude snapping may go: half the band's step, below a twentieth a twentieth of it. */
  function SnapError(m: real): real {
    if m >= 0.05 then BandStep(m) / 2.0 else m / 20.0
  }

  /** Two significant figures are within a twentieth. */
  lemma FiguresNear(m: real, a: int)
    requires Leading(m, a)
    ensures Abs(RoundTo(m, P(a - 1)) - m) <= m / 20.0
  {
    TenSteps(a);
    RoundToNear(m, P(a - 1));
    hide RoundTo, P;
  }

  /** The snapped number is within half the band's step, or within a twentieth of a small number. */
  lemma {:induction false} SnapNear(d: Dec)
    ensures Abs(Value(Snap(d)) - Value(d)) <= SnapError(Abs(Value(d)))
  {
    var m := Abs(Value(d));
    SignedMagnitude(d);
    SnapValue(d);
    hide RoundTo, Snap, BandStep, Value, Leading;
    if m >= 0.05 {
      RoundToNear(m, BandStep(m));
    } else if m > 0.0 {
      MagnitudeLeads(d);
      FiguresNear(m, Adjusted(d));
    }
  }

  lemma TieAway(m: real, step: real)
    requires step > 0.0 && m > 0.0 && Abs(RoundTo(m, step) - m) == step / 2.0
    ensures RoundTo(m, step) > m
  {
    var n := RoundHalfUp(m / step);
    RoundHalfUpIff(m / step, n);
    DivideTimes(m, step);
    if RoundTo(m, step) < m {
      HalfStep(n as real, m / step, step, m);
    }
    hide RoundHalfUp;
  }

  lemma HalfStep(n: real, q: real, step: real, m: real)
    requires step > 0.0 && q * step == m && n * step == m - step / 2.0
    ensures q == n + 0.5
  {
    var x := q - n - 0.5;
    assert x * step == q * step - n * step - step / 2.0;
    assert x * step == 0.0;
    DivideTimes(x, step);
  }

  /** Halfway between two steps the larger magnitude is taken. */
  lemma {:induction false} SnapTiesAway(d: Dec)
    requires Abs(Value(d)) >= 0.05
    requires Abs(Value(Snap(d)) - Value(d)) == BandStep(Abs(Value(d))) / 2.0
    ensures Abs(Value(Snap(d))) > Abs(Value(d))
  {
    var m := Abs(Value(d));
    SignedMagnitude(d);
    SnapValue(d);
    SnapKeepsSign(d);
    TieAway(m, BandStep(m));
    hide RoundTo, Snap, BandStep, Value;
  }

  // ----- fixed points --------------------------------------------------------------------------------------

  lemma FixedMultiple(r: real, step: real, n: int)
    requires step > 0.0 && r == n as real * step
    ensures RoundTo(r, step) == r
  {
    RoundToMultiple(r, step, n);
  }

  /** A snapped value from the bands is kept: it is a multiple of the step of the band it lies in. */
  lemma BandFixed(m: real)
    requires m >= 0.05
    ensures var r := RoundTo(m, BandStep(m)); r >= 0.1 && RoundTo(r, BandStep(r)) == r
  {
    BandKept(m);
    var r := RoundTo(m, BandStep(m));
    if BandStep(r) == BandStep(m) {
      FixedMultiple(r, BandStep(m), RoundHalfUp(m / BandStep(m)));
    } else {
      FixedMultiple(r, BandStep(r), if r == 1.0 then 2 else if r == 10.0 then 10 else if r == 100.0 then 20 else 40);
    }
    hide RoundHalfUp;
  }

  /** Two figures of a value already rounded to two figures. */
  lemma FiguresFixed(m: real, a: int, r: real, b: int)
    requires Leading(m, a) && r == RoundTo(m, P(a - 1)) && Leading(r, b)
    ensures RoundTo(r, P(b - 1)) == r
  {
    hide RoundHalfUp, P;
    FiguresInDecade(m, a);
    TenSteps(a);
    if r < P(a + 1) {
      LeadsUnique(r, a, b);
      FixedMultiple(r, P(a - 1), RoundHalfUp(m / P(a - 1)));
    } else {
      PStep(a + 1);
      LeadsUnique(r, a + 1, b);
      FixedMultiple(r, P(a), 10);
    }
  }

  /** Exactly the last half thousandth below a twentieth rounds up to a twentieth. */
  lemma ReachesTwentiethIff(m: real, a: int)
    requires Leading(m, a) && m < 0.05
    ensures RoundTo(m, P(a - 1)) == 0.05 <==> m >= 0.0495
  {
    SmallPowers();
    SmallFigures(m, a);
    if a == -2 {
      TwentiethInThousandths(m);
    }
    if m >= 0.0495 && a < -2 {
      PowersGrow(a + 1, -2);
    }
    hide RoundTo, P;
  }

  lemma TwentiethInThousandths(m: real)
    requires 0.0 < m < 0.05
    ensures RoundTo(m, 0.001) == 0.05 <==> m >= 0.0495
  {
    assert RoundHalfUp(m / 0.001) == 50 <==> m / 0.001 >= 49.5;
  }

  lemma PositiveFixedIff(m: real, a: int, b: int)
    requires Leading(m, a) && Leading(SnapPositive(m, a), b)
    ensures SnapPositive(SnapPositive(m, a), b) == SnapPositive(m, a) <==> !(0.0495 <= m < 0.05)
  {
    var r := SnapPositive(m, a);
    if m < 0.05 {
      SmallFigures(m, a);
      FiguresFixed(m, a, r, b);
      ReachesTwentiethIff(m, a);
      ZeroBelowHalf(r);
    } else {
      BandFixed(m);
    }
    hide RoundTo, P, BandStep;
  }

  /** Snapping again changes nothing, except from 0.0495 to 0.05, where it goes on to a tenth. */
  lemma {:induction false} SnapFixedIff(d: Dec)
    ensures Value(Snap(Snap(d))) == Value(Snap(d)) <==> !(0.0495 <= Abs(Value(d)) < 0.05)
  {
    var e := Snap(d);
    SignedMagnitude(d);
    SignedMagnitude(e);
    SnapKeepsSign(d);
    SnapValue(d);
    SnapValue(e);
    hide SnapPositive, Snap, Magnitude, Leading;
    if Value(d) != 0.0 {
      MagnitudeLeads(d);
      MagnitudeLeads(e);
      PositiveFixedIff(Abs(Value(d)), Adjusted(d), Adjusted(e));
    }
  }
}
