/**
 Python's finite Decimal values, their canonical text, and the grammar `Decimal(text)` accepts.
 Precision is unbounded: Python's 28-digit context is not part of the model.
 */
module Decimals {
  import opened Text

  /** sign, coefficient, exponent: the triple a finite Decimal stores. */
  datatype Dec = Dec(neg: bool, coeff: nat, exp: int)

  const ZERO := Dec(false, 0, 0)

  // ----- powers of ten and values ---------------------------------------------

  function Pow10(k: nat): (p: nat)
    ensures p > 0
  {
    if k == 0 then 1 else 10 * Pow10(k - 1)
  }

  /** 10 to the power k, for any integer k. */
  function P(k: int): (p: real)
    ensures p > 0.0
    decreases if k < 0 then -k else k
  {
    if k == 0 then 1.0 else if k > 0 then 10.0 * P(k - 1) else P(k + 1) / 10.0
  }

  lemma PStep(k: int)
    ensures P(k + 1) == 10.0 * P(k)
  {
  }

  lemma {:induction false} PNat(k: nat)
    ensures P(k) == Pow10(k) as real
  {
    if k > 0 {
      PNat(k - 1);
    }
  }

  lemma {:induction false} PShift(a: int, k: nat)
    ensures P(a + k) == P(a) * Pow10(k) as real
  {
    if k > 0 {
      PShift(a, k - 1);
      PStep(a + k - 1);
      assert Pow10(k) as real == 10.0 * Pow10(k - 1) as real;
    }
  }

  /** The number a Decimal denotes. */
  function Value(d: Dec): real {
    if d.neg then -Magnitude(d.coeff, d.exp) else Magnitude(d.coeff, d.exp)
  }

  function Magnitude(c: nat, e: int): real {
    c as real * P(e)
  }

  predicate IsNegative(d: Dec) {
    d.neg && d.coeff > 0
  }

  // ----- canonical text -------------------------------------------------------

  /** `Decimal.normalize()`: strip the trailing zeros of a non-zero coefficient. */
  function Normalize(c: nat, e: int): (r: (nat, int))
    requires c > 0
    ensures r.0 > 0 && r.0 % 10 != 0 && r.1 >= e
  {
    if c % 10 != 0 then (c, e) else Normalize(c / 10, e + 1)
  }

  lemma {:induction false} NormalizeMagnitude(c: nat, e: int)
    requires c > 0
    ensures Magnitude(Normalize(c, e).0, Normalize(c, e).1) == Magnitude(c, e)
  {
    if c % 10 == 0 {
      NormalizeMagnitude(c / 10, e + 1);
      PStep(e);
      TenTimes((c / 10) as real, P(e));
      assert c as real == 10.0 * (c / 10) as real;
    }
  }

  lemma TenTimes(x: real, p: real)
    ensures x * (10.0 * p) == (10.0 * x) * p
  {
  }

  lemma WholeMagnitude(c: nat, e: nat)
    ensures Magnitude(c * Pow10(e), 0) == Magnitude(c, e)
  {
    PNat(e);
    assert (c * Pow10(e)) as real == c as real * Pow10(e) as real;
  }

  function Zeros(k: nat): (s: string)
    ensures |s| == k && forall i :: 0 <= i < k ==> s[i] == '0'
  {
    seq(k, _ => '0')
  }

  /** `s` padded on the left with zeros to at least `width` characters. */
  function PadLeft(s: string, width: int): (r: string)
    ensures |r| >= width && |r| >= |s|
    ensures Digits(s) ==> Digits(r)
  {
    if |s| >= width then s else Zeros(width - |s|) + s
  }

  /** The digits before the point of c times ten to the power e, written out without an exponent. */
  function WholeDigits(c: nat, e: int): (w: string)
    ensures Digits(w) && w != ""
  {
    if e >= 0 then NatText(c) + Zeros(e)
    else
      var s := PadLeft(NatText(c), 1 - e);
      s[..|s| + e]
  }

  /** The digits after the point. */
  function FractionDigits(c: nat, e: int): (f: string)
    ensures Digits(f) && |f| == if e < 0 then -e else 0
  {
    if e >= 0 then ""
    else
      var s := PadLeft(NatText(c), 1 - e);
      s[|s| + e..]
  }

  function Numeral(neg: bool, whole: string, fraction: string): string {
    (if neg then "-" else "") + whole + (if fraction == "" then "" else "." + fraction)
  }

  /** `encode_decimal` on a finite value: `format(value.normalize(), "f")`, and "0" for any zero. */
  function Encode(d: Dec): string {
    if d.coeff == 0 then "0"
    else
      var n := Normalize(d.coeff, d.exp);
      Numeral(d.neg, WholeDigits(n.0, n.1), FractionDigits(n.0, n.1))
  }

  /** The Decimal that reading the canonical text of `d` gives. */
  function Plain(d: Dec): Dec {
    if d.coeff == 0 then ZERO
    else
      var n := Normalize(d.coeff, d.exp);
      if n.1 >= 0 then Dec(d.neg, n.0 * Pow10(n.1), 0) else Dec(d.neg, n.0, n.1)
  }

  lemma PlainValue(d: Dec)
    ensures Value(Plain(d)) == Value(d)
    ensures IsNegative(Plain(d)) == IsNegative(d)
  {
    if d.coeff > 0 {
      NormalizeMagnitude(d.coeff, d.exp);
      var n := Normalize(d.coeff, d.exp);
      if n.1 >= 0 {
        WholeMagnitude(n.0, n.1);
        assert n.0 * Pow10(n.1) > 0;
      }
    }
  }

  // ----- the text `Decimal(text)` accepts -----------------------------------------

  /** NotNumber: InvalidOperation is raised. NonFinite: an infinity or a NaN, which the schema rejects. */
  datatype Reading = Number(value: Dec) | NonFinite | NotNumber

  function RemoveUnderscores(s: string): (r: string)
    ensures '_' !in s ==> r == s
  {
    if s == "" then ""
    else if s[0] == '_' then RemoveUnderscores(s[1..])
    else [s[0]] + RemoveUnderscores(s[1..])
  }

  function LowerAscii(s: string): string {
    seq(|s|, i requires 0 <= i < |s| => if 'A' <= s[i] <= 'Z' then s[i] - 'A' + 'a' else s[i])
  }

  predicate IsNonFiniteName(s: string) {
    var l := LowerAscii(s);
    || l == "inf" || l == "infinity"
    || ("nan" <= l && Digits(l[3..]))
    || ("snan" <= l && Digits(l[4..]))
  }

  function ReadDecimal(text: string): Reading {
    var s := RemoveUnderscores(Strip(text));
    if s != "" && (s[0] == '-' || s[0] == '+') then ReadUnsigned(s[0] == '-', s[1..])
    else ReadUnsigned(false, s)
  }

  /** Digits, an optional point and more digits, and what is left. */
  datatype Mantissa = Mantissa(whole: string, fraction: string, rest: string)

  function SplitMantissa(s: string): (m: Mantissa)
    ensures Digits(m.whole) && Digits(m.fraction)
  {
    var i := DigitSpan(s);
    if i < |s| && s[i] == '.' then
      var after := s[i + 1..];
      var j := DigitSpan(after);
      Mantissa(s[..i], after[..j], after[j..])
    else Mantissa(s[..i], "", s[i..])
  }

  function ReadUnsigned(neg: bool, s: string): Reading {
    var m := SplitMantissa(s);
    if m.whole + m.fraction == "" then (if IsNonFiniteName(s) then NonFinite else NotNumber)
    else ReadExponent(neg, m.whole + m.fraction, |m.fraction|, m.rest)
  }

  function ReadExponent(neg: bool, digits: string, frac: nat, s: string): Reading
    requires Digits(digits)
  {
    if s == "" then Number(Dec(neg, ReadNat(digits), -(frac as int)))
    else if s[0] == 'e' || s[0] == 'E' then
      var signed := |s| > 1 && (s[1] == '-' || s[1] == '+');
      var power := if signed then s[2..] else s[1..];
      if power == "" || !Digits(power) then NotNumber
      else
        var k: int := ReadNat(power);
        Number(Dec(neg, ReadNat(digits), (if signed && s[1] == '-' then -k else k) - frac))
    else NotNumber
  }

  // ----- reading undoes writing -------------------------------------------------

  lemma {:induction false} ReadNatZeros(s: string, k: nat)
    requires Digits(s)
    ensures Digits(s + Zeros(k))
    ensures ReadNat(s + Zeros(k)) == ReadNat(s) * Pow10(k)
  {
    if k == 0 {
      assert s + Zeros(0) == s;
    } else {
      ReadNatZeros(s, k - 1);
      var t := s + Zeros(k);
      assert t[..|t| - 1] == s + Zeros(k - 1);
      assert t[|t| - 1] == '0';
      assert ReadNat(s) * (10 * Pow10(k - 1)) == 10 * (ReadNat(s) * Pow10(k - 1));
    }
  }

  lemma {:induction false} ReadNatPadded(s: string, k: nat)
    requires Digits(s)
    ensures Digits(Zeros(k) + s) && ReadNat(Zeros(k) + s) == ReadNat(s)
  {
    if s == "" {
      ReadNatZeros("", k);
      assert Zeros(k) + s == "" + Zeros(k);
    } else {
      ReadNatPadded(s[..|s| - 1], k);
      var t := Zeros(k) + s;
      assert t[..|t| - 1] == Zeros(k) + s[..|s| - 1];
    }
  }

  lemma ReadParts(c: nat, e: int)
    ensures ReadNat(WholeDigits(c, e) + FractionDigits(c, e)) == if e >= 0 then c * Pow10(e) else c
  {
    ReadNatText(c);
    var w, f := WholeDigits(c, e), FractionDigits(c, e);
    if e >= 0 {
      ReadNatZeros(NatText(c), e);
      assert w + f == NatText(c) + Zeros(e);
    } else {
      assert w + f == PadLeft(NatText(c), 1 - e);
      if |NatText(c)| < 1 - e {
        ReadNatPadded(NatText(c), 1 - e - |NatText(c)|);
      }
    }
  }

  lemma SplitNumeral(w: string, f: string)
    requires Digits(w) && Digits(f)
    ensures SplitMantissa(Numeral(false, w, f)) == Mantissa(w, f, "")
  {
    var tail := if f == "" then "" else "." + f;
    var s := Numeral(false, w, f);
    assert s == w + tail;
    DigitSpanStops(w, tail);
    assert s[..|w|] == w;
    if f != "" {
      assert s[|w| + 1..] == f == f + "";
      DigitSpanStops(f, "");
    }
  }

  lemma ReadUnsignedNumeral(neg: bool, w: string, f: string)
    requires Digits(w) && Digits(f) && w != ""
    ensures ReadUnsigned(neg, Numeral(false, w, f)) == Number(Dec(neg, ReadNat(w + f), -(|f| as int)))
  {
    SplitNumeral(w, f);
  }

  /** The characters of a canonical decimal text. */
  predicate IsNumeralChar(c: char) {
    IsDigit(c) || c == '.' || c == '-'
  }

  lemma NumeralShape(neg: bool, w: string, f: string)
    requires Digits(w) && Digits(f) && w != ""
    ensures var t := Numeral(neg, w, f);
            && t != "" && Trimmed(t)
            && (forall i :: 0 <= i < |t| ==> IsNumeralChar(t[i]))
            && (t[0] == '-' <==> neg) && ('-' in t <==> neg)
  {
    var t := Numeral(neg, w, f);
    var sign := if neg then "-" else "";
    assert forall i :: |sign| <= i < |t| ==> IsDigit(t[i]) || t[i] == '.';
    assert IsDigit(t[|t| - 1]) by {
      assert f != "" ==> t[|t| - 1] == f[|f| - 1];
      assert f == "" ==> t[|t| - 1] == w[|w| - 1];
    }
    assert t[|sign|] == w[0];
  }

  lemma EncodeIsNumeral(d: Dec)
    ensures exists w, f :: Digits(w) && Digits(f) && w != "" && Encode(d) == Numeral(IsNegative(d), w, f)
  {
    if d.coeff == 0 {
      assert Digits("0") && Digits("") && Encode(d) == Numeral(IsNegative(d), "0", "");
    } else {
      var n := Normalize(d.coeff, d.exp);
      assert Encode(d) == Numeral(IsNegative(d), WholeDigits(n.0, n.1), FractionDigits(n.0, n.1));
    }
  }

  lemma EncodeShape(d: Dec)
    ensures var t := Encode(d);
            && t != "" && Trimmed(t)
            && (forall i :: 0 <= i < |t| ==> IsNumeralChar(t[i]))
            && (t[0] == '-' <==> IsNegative(d)) && ('-' in t <==> IsNegative(d))
  {
    EncodeIsNumeral(d);
    var w, f :| Digits(w) && Digits(f) && w != "" && Encode(d) == Numeral(IsNegative(d), w, f);
    NumeralShape(IsNegative(d), w, f);
  }

  lemma NothingToStrip(t: string)
    requires Trimmed(t) && '_' !in t
    ensures RemoveUnderscores(Strip(t)) == t
  {
    StripTrimmed(t);
  }

  lemma SignedNumeral(w: string, f: string)
    ensures Numeral(true, w, f) != "" && Numeral(true, w, f)[1..] == Numeral(false, w, f)
  {
  }

  lemma ReadSigned(t: string)
    requires t != "" && t[0] != '+' && RemoveUnderscores(Strip(t)) == t
    ensures ReadDecimal(t) == ReadUnsigned(t[0] == '-', if t[0] == '-' then t[1..] else t)
  {
  }

  lemma ReadNumeral(neg: bool, w: string, f: string)
    requires Digits(w) && Digits(f) && w != ""
    ensures ReadDecimal(Numeral(neg, w, f)) == Number(Dec(neg, ReadNat(w + f), -(|f| as int)))
  {
    var t := Numeral(neg, w, f);
    NumeralShape(neg, w, f);
    NothingToStrip(t);
    ReadSigned(t);
    SignedNumeral(w, f);
    ReadUnsignedNumeral(neg, w, f);
  }

  /** Reading the canonical text of any finite Decimal gives back the same number. */
  lemma {:induction false} ReadEncode(d: Dec)
    ensures ReadDecimal(Encode(d)) == Number(Plain(d))
    ensures Value(Plain(d)) == Value(d)
  {
    PlainValue(d);
    if d.coeff == 0 {
      ReadNumeral(false, "0", "");
      assert Numeral(false, "0", "") == "0" == "0" + "";
    } else {
      var n := Normalize(d.coeff, d.exp);
      ReadParts(n.0, n.1);
      ReadNumeral(d.neg, WholeDigits(n.0, n.1), FractionDigits(n.0, n.1));
    }
  }

  // ----- the canonical text is a complete invariant ----------------------------------

  lemma NormalizeUnique(c1: nat, e1: int, c2: nat, e2: int)
    requires c1 % 10 != 0 && c2 % 10 != 0 && e1 <= e2
    requires Magnitude(c1, e1) == Magnitude(c2, e2)
    ensures c1 == c2 && e1 == e2
  {
    hide P, Pow10;
    var k: nat := e2 - e1;
    PShift(e1, k);
    assert e1 + k == e2;
    CancelPower(c1, c2, P(e1), k, P(e2));
  }

  lemma CancelPower(a: nat, b: nat, p: real, k: nat, pk: real)
    requires a % 10 != 0
    requires p > 0.0 && pk == p * Pow10(k) as real && a as real * p == b as real * pk
    ensures k == 0 && a == b
  {
    var q := Pow10(k);
    ProductOfInts(b, q);
    assert b as real * (p * q as real) == (b as real * q as real) * p;
    assert (a as real - (b * q) as real) * p == 0.0;
    assert a == b * q;
    if k > 0 {
      TenDivides(b, Pow10(k - 1));
    }
  }

  lemma ProductOfInts(a: int, b: int)
    ensures a as real * b as real == (a * b) as real
  {
  }

  lemma TenDivides(a: nat, b: nat)
    ensures (a * (10 * b)) % 10 == 0
  {
    assert a * (10 * b) == 10 * (a * b);
  }

  /** Two finite Decimals have the same canonical text exactly when they are numerically equal. */
  lemma {:induction false} EncodeComplete(d1: Dec, d2: Dec)
    ensures Encode(d1) == Encode(d2) <==> Value(d1) == Value(d2)
  {
    ReadEncode(d1);
    ReadEncode(d2);
    if Value(d1) == Value(d2) {
      SameValueSameText(d1, d2);
    }
  }

  lemma SameValueSameText(d1: Dec, d2: Dec)
    requires Value(d1) == Value(d2)
    ensures Encode(d1) == Encode(d2)
  {
    SignOfValue(d1);
    SignOfValue(d2);
    if d1.coeff > 0 {
      NormalizeMagnitude(d1.coeff, d1.exp);
      NormalizeMagnitude(d2.coeff, d2.exp);
      var n1, n2 := Normalize(d1.coeff, d1.exp), Normalize(d2.coeff, d2.exp);
      if n1.1 <= n2.1 {
        NormalizeUnique(n1.0, n1.1, n2.0, n2.1);
      } else {
        NormalizeUnique(n2.0, n2.1, n1.0, n1.1);
      }
    }
  }

  lemma SignOfValue(d: Dec)
    ensures Value(d) == 0.0 <==> d.coeff == 0
    ensures Value(d) < 0.0 <==> IsNegative(d)
    ensures d.coeff > 0 ==> Magnitude(d.coeff, d.exp) == if d.neg then -Value(d) else Value(d)
  {
    if d.coeff > 0 {
      assert d.coeff as real * P(d.exp) > 0.0;
    }
  }

  /** No exponent, no superfluous leading zero, no trailing fractional zero, no negative zero. */
  predicate IsCanonicalNumeral(s: string) {
    var neg := s != "" && s[0] == '-';
    var m := SplitMantissa(if neg then s[1..] else s);
    && m.rest == "" && m.whole != ""
    && (|m.whole| > 1 ==> m.whole[0] != '0')
    && (m.fraction != "" ==> m.fraction[|m.fraction| - 1] != '0')
    && s == Numeral(neg, m.whole, m.fraction)
    && (neg ==> m.whole != "0" || m.fraction != "")
  }

  lemma {:induction false} NatTextEnds(n: nat)
    ensures n > 0 ==> NatText(n)[0] != '0'
    ensures DigitValue(NatText(n)[|NatText(n)| - 1]) == n % 10
  {
    if n >= 10 {
      NatTextEnds(n / 10);
    }
  }

  lemma NumeralCanonical(neg: bool, w: string, f: string)
    requires Digits(w) && Digits(f) && w != ""
    requires |w| > 1 ==> w[0] != '0'
    requires f != "" ==> f[|f| - 1] != '0'
    requires neg ==> w != "0" || f != ""
    ensures IsCanonicalNumeral(Numeral(neg, w, f))
  {
    var s := Numeral(neg, w, f);
    NumeralShape(neg, w, f);
    SplitNumeral(w, f);
    SignedNumeral(w, f);
  }

  lemma {:induction false} EncodeCanonical(d: Dec)
    ensures IsCanonicalNumeral(Encode(d))
  {
    if d.coeff == 0 {
      NumeralCanonical(false, "0", "");
      assert Encode(d) == Numeral(false, "0", "");
    } else {
      var n := Normalize(d.coeff, d.exp);
      var w, f := WholeDigits(n.0, n.1), FractionDigits(n.0, n.1);
      NatTextEnds(n.0);
      if n.1 >= 0 {
        assert w[0] == NatText(n.0)[0];
      } else {
        var s := PadLeft(NatText(n.0), 1 - n.1);
        assert f[|f| - 1] == s[|s| - 1] == NatText(n.0)[|NatText(n.0)| - 1];
        if |w| > 1 {
          assert w[0] == s[0] == NatText(n.0)[0];
        }
      }
      NumeralCanonical(d.neg, w, f);
    }
  }
}
