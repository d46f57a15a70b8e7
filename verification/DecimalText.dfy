/**
 Exact decimals and their canonical text (src/app/domain/price.py, format_price_str).

 A finite positive Decimal is a coefficient and an exponent of any sign; many
 representations share one numeric value.  The printed form is what the duplicate
 check of an intent is keyed on, so it must depend on the value alone.
 */
module DecimalText {

  datatype Dec = Dec(coef: nat, exp: int)

  ghost predicate Positive(d: Dec) {
    d.coef > 0
  }

  /** A coefficient with n zeros written after it. */
  function Shift(c: nat, n: nat): (r: nat)
    ensures c > 0 ==> r > 0
  {
    if n == 0 then c else 10 * Shift(c, n - 1)
  }

  /** Ten to any integer power. */
  function Scale(e: int): (s: real)
    ensures s > 0.0
    decreases if e >= 0 then e else -e
  {
    if e == 0 then 1.0 else if e > 0 then 10.0 * Scale(e - 1) else Scale(e + 1) / 10.0
  }

  /** The number a decimal stands for. */
  function Value(d: Dec): (v: real)
    ensures d.coef > 0 ==> v > 0.0
  {
    d.coef as real * Scale(d.exp)
  }

  // ---------------------------------------------------------------- digits

  type Text = string

  function DigitChar(n: nat): (c: char)
    requires n < 10
  {
    ['0', '1', '2', '3', '4', '5', '6', '7', '8', '9'][n]
  }

  predicate IsDigit(c: char) {
    '0' <= c <= '9'
  }

  function DigitValue(c: char): (n: nat)
    requires IsDigit(c)
  {
    c as int - '0' as int
  }

  ghost predicate AllDigits(s: Text) {
    forall i :: 0 <= i < |s| ==> IsDigit(s[i])
  }

  function Digits(n: nat): (s: Text)
    ensures |s| > 0 && AllDigits(s)
  {
    if n < 10 then [DigitChar(n)] else Digits(n / 10) + [DigitChar(n % 10)]
  }

  /** Reads a string of digits as a number: the inverse the printer is held to. */
  function NatOf(s: Text): (n: nat)
    requires AllDigits(s)
  {
    if s == [] then 0 else 10 * NatOf(s[..|s| - 1]) + DigitValue(s[|s| - 1])
  }

  function Zeros(n: nat): (s: Text)
    ensures |s| == n && forall i :: 0 <= i < n ==> s[i] == '0'
  {
    seq(n, i => '0')
  }

  // ---------------------------------------------------------------- printing

  function PadLeft(s: Text, width: nat): (r: Text) {
    if |s| >= width then s else Zeros(width - |s|) + s
  }

  function StripRight(s: Text): (r: Text) {
    if s != [] && s[|s| - 1] == '0' then StripRight(s[..|s| - 1]) else s
  }

  function PadRight(s: Text, width: nat): (r: Text) {
    if |s| >= width then s else s + Zeros(width - |s|)
  }

  /** Fixed-point text before trimming: integer digits and fraction digits. */
  function FixedPoint(d: Dec): (r: (Text, Text)) {
    if d.exp >= 0 then (Digits(d.coef) + Zeros(d.exp), [])
    else
      var k := -d.exp;
      var s := PadLeft(Digits(d.coef), k + 1);
      (s[..|s| - k], s[|s| - k..])
  }

  /** The printed price: no trailing zeros beyond the second fraction digit. */
  function FormatPrice(d: Dec): (s: Text) {
    var (whole, fraction) := FixedPoint(d);
    whole + "." + PadRight(StripRight(fraction), 2)
  }

  // ---------------------------------------------------------------- parsing back

  function IndexOf(s: Text, c: char): (i: nat)
    ensures i <= |s|
    ensures i < |s| ==> s[i] == c
    ensures forall j :: 0 <= j < i ==> s[j] != c
  {
    if s == [] || s[0] == c then 0 else 1 + IndexOf(s[1..], c)
  }

  predicate IsFixedPoint(s: Text) {
    var i := IndexOf(s, '.');
    i < |s| && (forall j :: 0 <= j < |s| && j != i ==> IsDigit(s[j]))
  }

  /** Reads "whole.fraction" back as a decimal. */
  function ParsePrice(s: Text): (d: Dec)
    requires IsFixedPoint(s)
  {
    var i := IndexOf(s, '.');
    Dec(NatOf(s[..i] + s[i + 1..]), i + 1 - |s|)
  }

  // ---------------------------------------------------------------- lemmas

  lemma {:induction false} NatOfDigits(n: nat)
    ensures NatOf(Digits(n)) == n
  {
    if n >= 10 {
      NatOfDigits(n / 10);
      assert Digits(n)[..|Digits(n)| - 1] == Digits(n / 10);
    }
  }

  lemma {:induction false} NatOfZerosLeft(n: nat, s: Text)
    requires AllDigits(s)
    ensures AllDigits(Zeros(n) + s) && NatOf(Zeros(n) + s) == NatOf(s)
  {
    var t := Zeros(n) + s;
    if s != [] {
      assert t[..|t| - 1] == Zeros(n) + s[..|s| - 1];
      NatOfZerosLeft(n, s[..|s| - 1]);
    } else if n > 0 {
      assert t[..|t| - 1] == Zeros(n - 1) + s;
      NatOfZerosLeft(n - 1, s);
    }
  }

  lemma {:induction false} NatOfZerosRight(s: Text, n: nat)
    requires AllDigits(s)
    ensures AllDigits(s + Zeros(n)) && NatOf(s + Zeros(n)) == Shift(NatOf(s), n)
  {
    if n == 0 {
      assert s + Zeros(0) == s;
    } else {
      var t := s + Zeros(n);
      assert t[..|t| - 1] == s + Zeros(n - 1);
      NatOfZerosRight(s, n - 1);
    }
  }

  /** Trimming zeros only removes zeros. */
  lemma {:induction false} StripRightSplits(s: Text)
    ensures |StripRight(s)| <= |s|
    ensures s == StripRight(s) + Zeros(|s| - |StripRight(s)|)
  {
    if s != [] && s[|s| - 1] == '0' {
      StripRightSplits(s[..|s| - 1]);
    }
  }

  lemma Cancel(a: real, b: real, s: real)
    requires s > 0.0 && a * s == b * s
    ensures a == b
  {
    assert a == (a * s) / s;
    assert b == (b * s) / s;
  }

  /** One more zero in the coefficient, one less in the exponent: same value. */
  lemma ScalingKeepsValue(c: nat, e: int)
    ensures Value(Dec(10 * c, e - 1)) == Value(Dec(c, e))
  {
    var s := Scale(e - 1);
    assert Scale(e) == 10.0 * s;
    assert (10 * c) as real == 10.0 * c as real;
  }

  lemma {:induction false} ShiftKeepsValue(c: nat, e: int, n: nat)
    ensures Value(Dec(Shift(c, n), e - n)) == Value(Dec(c, e))
  {
    if n > 0 {
      ShiftKeepsValue(c, e, n - 1);
      ScalingKeepsValue(Shift(c, n - 1), e - (n - 1));
    }
  }

  lemma {:induction false} DigitsTimesTen(n: nat)
    requires n > 0
    ensures Digits(10 * n) == Digits(n) + "0"
  {
    assert (10 * n) / 10 == n && (10 * n) % 10 == 0;
  }

  lemma PadLeftExtends(s: Text, width: nat)
    ensures PadLeft(s + "0", width + 1) == PadLeft(s, width) + "0"
  {
    if |s| < width {
      assert Zeros(width - |s|) + (s + "0") == (Zeros(width - |s|) + s) + "0";
    }
  }

  lemma CutExtends(s: Text, k: nat)
    requires k <= |s|
    ensures (s + "0")[..|s| - k] == s[..|s| - k]
    ensures (s + "0")[|s| - k..] == s[|s| - k..] + "0"
  {
  }

  /** With a fractional exponent, the extra zero lands at the end of the fraction. */
  lemma ScalingExtendsFraction(d: Dec)
    requires Positive(d) && d.exp <= 0
    ensures FixedPoint(Dec(10 * d.coef, d.exp - 1)) == (FixedPoint(d).0, FixedPoint(d).1 + "0")
  {
    hide Digits, PadLeft;
    var k := -d.exp;
    var s := PadLeft(Digits(d.coef), k + 1);
    DigitsTimesTen(d.coef);
    PadLeftExtends(Digits(d.coef), k + 1);
    PadLeftWidth(Digits(d.coef), k + 1);
    CutExtends(s, k);
    if k == 0 {
      NoPadding(d.coef);
    }
  }

  lemma PadLeftWidth(s: Text, width: nat)
    ensures |PadLeft(s, width)| >= width
  {
  }

  lemma NoPadding(n: nat)
    requires n > 0
    ensures PadLeft(Digits(n), 1) == Digits(n) && Digits(n) + Zeros(0) == Digits(n)
  {
  }

  /** The printed form does not see the extra zero. */
  lemma ScalingKeepsText(d: Dec)
    requires Positive(d)
    ensures FormatPrice(Dec(10 * d.coef, d.exp - 1)) == FormatPrice(d)
  {
    if d.exp > 0 {
      DigitsTimesTen(d.coef);
      assert "0" + Zeros(d.exp - 1) == Zeros(d.exp);
      assert Digits(10 * d.coef) + Zeros(d.exp - 1) == Digits(d.coef) + Zeros(d.exp);
    } else {
      ScalingExtendsFraction(d);
      var f := FixedPoint(d).1;
      assert (f + "0")[..|f + "0"| - 1] == f;
    }
  }

  lemma {:induction false} ShiftKeepsText(d: Dec, n: nat)
    requires Positive(d)
    ensures FormatPrice(Dec(Shift(d.coef, n), d.exp - n)) == FormatPrice(d)
  {
    hide FormatPrice;
    if n > 0 {
      ShiftKeepsText(d, n - 1);
      ScalingKeepsText(Dec(Shift(d.coef, n - 1), d.exp - (n - 1)));
    }
  }

  lemma SameExponentSameValue(a: Dec, b: Dec)
    requires a.exp == b.exp && Value(a) == Value(b)
    ensures a == b
  {
    Cancel(a.coef as real, b.coef as real, Scale(a.exp));
  }

  /** Writing a value with a lower exponent does not change its text. */
  lemma LowerExponentPrintsAlike(a: Dec, b: Dec)
    requires Positive(a) && Positive(b) && Value(a) == Value(b) && a.exp <= b.exp
    ensures FormatPrice(a) == FormatPrice(b)
  {
    hide FormatPrice, Value;
    var n := b.exp - a.exp;
    var c := Dec(Shift(b.coef, n), b.exp - n);
    assert Value(c) == Value(b) by { ShiftKeepsValue(b.coef, b.exp, n); }
    assert a == c by { SameExponentSameValue(a, c); }
    assert FormatPrice(c) == FormatPrice(b) by { ShiftKeepsText(b, n); }
  }

  /** Equal values print alike, whatever exponents they are written with. */
  lemma EqualValuesPrintAlike(a: Dec, b: Dec)
    requires Positive(a) && Positive(b) && Value(a) == Value(b)
    ensures FormatPrice(a) == FormatPrice(b)
  {
    hide FormatPrice, Value;
    if a.exp <= b.exp {
      LowerExponentPrintsAlike(a, b);
    } else {
      LowerExponentPrintsAlike(b, a);
    }
  }

  /** The fixed-point pair, read as one number, is the coefficient scaled up. */
  lemma FixedPointDigits(d: Dec)
    requires Positive(d)
    ensures AllDigits(FixedPoint(d).0) && AllDigits(FixedPoint(d).1)
    ensures AllDigits(FixedPoint(d).0 + FixedPoint(d).1)
    ensures Value(Dec(NatOf(FixedPoint(d).0 + FixedPoint(d).1), 0 - |FixedPoint(d).1|)) == Value(d)
  {
    hide Digits, NatOf, Value;
    var (whole, fraction) := FixedPoint(d);
    NatOfDigits(d.coef);
    if d.exp >= 0 {
      NatOfZerosRight(Digits(d.coef), d.exp);
      ShiftKeepsValue(d.coef, d.exp, d.exp);
      assert whole + fraction == whole;
    } else {
      var k := -d.exp;
      var s := PadLeft(Digits(d.coef), k + 1);
      if |Digits(d.coef)| < k + 1 {
        NatOfZerosLeft(k + 1 - |Digits(d.coef)|, Digits(d.coef));
      }
      assert whole + fraction == s;
      assert |fraction| == k;
    }
  }

  /** Zeros after the fraction digits leave the value alone. */
  lemma TrailingZerosKeepValue(s: Text, places: nat, n: nat)
    requires AllDigits(s)
    ensures AllDigits(s + Zeros(n))
    ensures Value(Dec(NatOf(s + Zeros(n)), 0 - places - n)) == Value(Dec(NatOf(s), 0 - places))
  {
    NatOfZerosRight(s, n);
    ShiftKeepsValue(NatOf(s), 0 - places, n);
  }

  lemma PointIndex(whole: Text, shown: Text)
    requires AllDigits(whole)
    ensures IndexOf(whole + "." + shown, '.') == |whole|
  {
    hide IndexOf;
    var s := whole + "." + shown;
    assert s[|whole|] == '.';
    assert forall j :: 0 <= j < |whole| ==> s[j] == whole[j] != '.';
  }

  lemma SplitAtPoint(whole: Text, shown: Text)
    requires AllDigits(whole) && AllDigits(shown)
    ensures AllDigits(whole + shown)
    ensures var s := whole + "." + shown;
            IsFixedPoint(s) && ParsePrice(s) == Dec(NatOf(whole + shown), 0 - |shown|)
  {
    hide NatOf, IndexOf;
    var s := whole + "." + shown;
    PointIndex(whole, shown);
    var i := |whole|;
    forall j | 0 <= j < |s| && j != i
      ensures IsDigit(s[j])
    {
      assert s[j] == if j < i then whole[j] else shown[j - 1 - i];
    }
    assert s[..i] == whole && s[i + 1..] == shown;
  }

  /** The value of whole and fraction digits on either side of the point. */
  function PairValue(whole: Text, fraction: Text): (v: real)
    requires AllDigits(whole + fraction)
  {
    Value(Dec(NatOf(whole + fraction), 0 - |fraction|))
  }

  lemma ZerosAfterFraction(whole: Text, kept: Text, n: nat)
    requires AllDigits(whole) && AllDigits(kept)
    ensures AllDigits(whole + kept) && AllDigits(whole + (kept + Zeros(n)))
    ensures PairValue(whole, kept + Zeros(n)) == PairValue(whole, kept)
  {
    assert whole + (kept + Zeros(n)) == (whole + kept) + Zeros(n);
    assert 0 - |kept + Zeros(n)| == 0 - |kept| - n;
    TrailingZerosKeepValue(whole + kept, |kept|, n);
  }

  lemma PrefixOfDigits(s: Text, kept: Text, n: nat)
    requires AllDigits(s) && s == kept + Zeros(n)
    ensures AllDigits(kept)
  {
    assert forall i :: 0 <= i < |kept| ==> kept[i] == s[i];
  }

  /** Trimming and padding the fraction keeps the value of the pair. */
  lemma TrimKeepsValue(whole: Text, fraction: Text)
    requires AllDigits(whole) && AllDigits(fraction)
    ensures var shown := PadRight(StripRight(fraction), 2);
            AllDigits(shown) && AllDigits(whole + shown) && AllDigits(whole + fraction) &&
            PairValue(whole, shown) == PairValue(whole, fraction)
  {
    hide PairValue, StripRight;
    var kept := StripRight(fraction);
    StripRightSplits(fraction);
    PrefixOfDigits(fraction, kept, |fraction| - |kept|);
    ZerosAfterFraction(whole, kept, |fraction| - |kept|);
    if |kept| < 2 {
      ZerosAfterFraction(whole, kept, 2 - |kept|);
    }
  }

  /** Reading a printed price gives back exactly the value printed. */
  lemma ParseInvertsFormat(d: Dec)
    requires Positive(d)
    ensures IsFixedPoint(FormatPrice(d))
    ensures Value(ParsePrice(FormatPrice(d))) == Value(d)
  {
    hide FixedPoint, PadRight, StripRight, NatOf, ParsePrice, IsFixedPoint, Value;
    var (whole, fraction) := FixedPoint(d);
    FixedPointDigits(d);
    TrimKeepsValue(whole, fraction);
    SplitAtPoint(whole, PadRight(StripRight(fraction), 2));
  }

  /** The key is canonical: equal text exactly for equal values. */
  lemma FormatIsCanonical(a: Dec, b: Dec)
    requires Positive(a) && Positive(b)
    ensures FormatPrice(a) == FormatPrice(b) <==> Value(a) == Value(b)
  {
    hide FormatPrice, ParsePrice, Value, IsFixedPoint;
    ParseInvertsFormat(a);
    ParseInvertsFormat(b);
    if Value(a) == Value(b) {
      EqualValuesPrintAlike(a, b);
    }
  }
}
