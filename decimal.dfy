/** Decimal text and numbers, as JavaScript converts between them in the
    client: the template literal `${price}` that renders a price inside a
    level key, and `Number(text)` that parses what the user typed into an
    order form field. */
module Decimal {
  import opened Wrappers

  predicate IsDigit(c: char) {
    '0' <= c <= '9'
  }

  predicate AllDigits(s: string) {
    forall i :: 0 <= i < |s| ==> IsDigit(s[i])
  }

  function DigitValue(c: char): (d: nat)
    requires IsDigit(c)
    ensures d < 10
  {
    (c as int) - ('0' as int)
  }

  function DigitChar(d: nat): (c: char)
    requires d < 10
    ensures IsDigit(c) && DigitValue(c) == d
  {
    (('0' as int) + d) as char
  }

  /** The decimal rendering of a non-negative integer: no sign, no leading
      zero (except for 0 itself). */
  function NatToDecimal(n: nat): (s: string)
    ensures |s| > 0 && AllDigits(s)
    ensures s[0] == '0' <==> n == 0
    decreases n
  {
    if n < 10 then [DigitChar(n)]
    else NatToDecimal(n / 10) + [DigitChar(n % 10)]
  }

  /** The value of a string of decimal digits, read left to right. */
  function DigitsValue(s: string): nat
    requires AllDigits(s)
  {
    if s == [] then 0 else DigitsValue(s[..|s| - 1]) * 10 + DigitValue(s[|s| - 1])
  }

  /** Reading back a rendered integer gives the integer. */
  lemma {:induction false} DecimalRoundTrip(n: nat)
    ensures DigitsValue(NatToDecimal(n)) == n
    decreases n
  {
    var s := NatToDecimal(n);
    if n >= 10 {
      DecimalRoundTrip(n / 10);
      assert s[..|s| - 1] == NatToDecimal(n / 10);
    }
  }

  /** Distinct integers render as distinct strings. */
  lemma NatToDecimalInjective(m: nat, n: nat)
    requires NatToDecimal(m) == NatToDecimal(n)
    ensures m == n
  {
    DecimalRoundTrip(m);
    DecimalRoundTrip(n);
  }

  function Pow10(k: nat): (p: nat)
    ensures p > 0
  {
    if k == 0 then 1 else 10 * Pow10(k - 1)
  }

  /** A JavaScript number as far as the order form sees it: a finite value
      or NaN. */
  datatype JsNumber = Finite(value: real) | NaN

  /** Position of the first '.' in `s`, or |s| when there is none. */
  function DotIndex(s: string): (i: nat)
    ensures i <= |s|
    ensures i < |s| ==> s[i] == '.'
    ensures forall j :: 0 <= j < i ==> s[j] != '.'
  {
    if s == [] then 0
    else if s[0] == '.' then 0
    else 1 + DotIndex(s[1..])
  }

  /** Position of the first exponent marker ('e' or 'E') in `s`, or |s|
      when there is none. */
  function ExpIndex(s: string): (i: nat)
    ensures i <= |s|
    ensures i < |s| ==> s[i] == 'e' || s[i] == 'E'
    ensures forall j :: 0 <= j < i ==> s[j] != 'e' && s[j] != 'E'
  {
    if s == [] then 0
    else if s[0] == 'e' || s[0] == 'E' then 0
    else 1 + ExpIndex(s[1..])
  }

  /** Every digit of `s` (every character but a '.') is '0'. */
  predicate ZeroDigits(s: string) {
    forall i :: 0 <= i < |s| && s[i] != '.' ==> s[i] == '0'
  }

  /** A digit string reads as 0 exactly when all its digits are '0'. */
  lemma {:induction false} DigitsValueZero(s: string)
    requires AllDigits(s)
    ensures DigitsValue(s) == 0 <==> forall i :: 0 <= i < |s| ==> s[i] == '0'
  {
    if s != [] {
      var init := s[..|s| - 1];
      assert forall i :: 0 <= i < |init| ==> init[i] == s[i];
      DigitsValueZero(init);
      if forall i :: 0 <= i < |init| ==> init[i] == '0' {
        if s[|s| - 1] == '0' {
          forall i | 0 <= i < |s|
            ensures s[i] == '0'
          {
            if i < |init| {
              assert init[i] == s[i];
            }
          }
        }
      }
    }
  }

  /** The significand of a literal: digits, optionally a '.' and more
      digits, with at least one digit in all; anything else is NaN. Its
      value is 0 exactly when all its digits are '0'. */
  function SignificandValue(m: string): (r: JsNumber)
    ensures r.Finite? ==> r.value >= 0.0
    ensures r.Finite? ==> (r.value == 0.0 <==> ZeroDigits(m))
  {
    var i := DotIndex(m);
    var whole := m[..i];
    var frac := if i < |m| then m[i + 1..] else [];
    if AllDigits(whole) && AllDigits(frac) && |whole| + |frac| > 0 then
      SignificandZero(m, i, whole, frac);
      Finite(DigitsValue(whole) as real + DigitsValue(frac) as real / Pow10(|frac|) as real)
    else NaN
  }

  /** The digits of a significand are all '0' exactly when both its whole
      and its fractional part read as 0. */
  lemma SignificandZero(m: string, i: nat, whole: string, frac: string)
    requires i == DotIndex(m) && whole == m[..i]
    requires frac == if i < |m| then m[i + 1..] else []
    requires AllDigits(whole) && AllDigits(frac)
    ensures ZeroDigits(m) <==> DigitsValue(whole) == 0 && DigitsValue(frac) == 0
    ensures DigitsValue(whole) as real + DigitsValue(frac) as real / Pow10(|frac|) as real == 0.0
        <==> DigitsValue(whole) == 0 && DigitsValue(frac) == 0
  {
    DigitsValueZero(whole);
    DigitsValueZero(frac);
    ZeroDigitsOfDigits(whole);
    ZeroDigitsOfDigits(frac);
    ZeroDigitsSplit(m, i, whole, frac);
    SumOfNonNegativesZero(DigitsValue(whole), DigitsValue(frac), Pow10(|frac|));
  }

  lemma SumOfNonNegativesZero(a: nat, b: nat, p: nat)
    requires p > 0
    ensures a as real + b as real / p as real == 0.0 <==> a == 0 && b == 0
  {
    assert b as real / p as real >= 0.0;
    if b > 0 {
      assert b as real / p as real > 0.0;
    }
  }

  /** The digits of `m` are all '0' exactly when those before its '.' and
      those after it are. */
  lemma ZeroDigitsSplit(m: string, i: nat, whole: string, frac: string)
    requires i == DotIndex(m) && whole == m[..i]
    requires frac == if i < |m| then m[i + 1..] else []
    ensures ZeroDigits(m) <==> ZeroDigits(whole) && ZeroDigits(frac)
  {
    if i < |m| {
      SplitAtDot(m, i);
      ZeroDigitsConcat(whole, "." + frac);
      ZeroDigitsConcat(".", frac);
      assert ZeroDigits(".");
    } else {
      assert m == whole;
    }
  }

  lemma SplitAtDot(m: string, i: nat)
    requires i < |m| && m[i] == '.'
    ensures m == m[..i] + ("." + m[i + 1..])
  {
    assert m == m[..i] + m[i..];
    assert m[i..] == [m[i]] + m[i + 1..];
  }

  lemma ZeroDigitsOfDigits(s: string)
    requires AllDigits(s)
    ensures ZeroDigits(s) <==> forall j :: 0 <= j < |s| ==> s[j] == '0'
  {
    if ZeroDigits(s) {
      forall j | 0 <= j < |s|
        ensures s[j] == '0'
      {
        assert IsDigit(s[j]);
      }
    }
  }

  lemma ZeroDigitsConcat(a: string, b: string)
    ensures ZeroDigits(a + b) <==> ZeroDigits(a) && ZeroDigits(b)
  {
    if ZeroDigits(a) && ZeroDigits(b) {
      forall j | 0 <= j < |a + b| && (a + b)[j] != '.'
        ensures (a + b)[j] == '0'
      {
        if j < |a| {
          assert (a + b)[j] == a[j];
        } else {
          assert (a + b)[j] == b[j - |a|];
        }
      }
    }
    if ZeroDigits(a + b) {
      forall j | 0 <= j < |a| && a[j] != '.'
        ensures a[j] == '0'
      {
        assert (a + b)[j] == a[j];
      }
      forall j | 0 <= j < |b| && b[j] != '.'
        ensures b[j] == '0'
      {
        assert (a + b)[|a| + j] == b[j];
      }
    }
  }

  /** The exponent of a literal, after its 'e': an optional sign and at
      least one digit; anything else is None. */
  function ExponentValue(e: string): (r: Option<int>)
    ensures r.Some? ==> |e| > 0
  {
    if |e| > 1 && (e[0] == '+' || e[0] == '-') && AllDigits(e[1..]) then
      var magnitude: int := DigitsValue(e[1..]);
      Some(if e[0] == '-' then -magnitude else magnitude)
    else if |e| > 0 && AllDigits(e) then Some(DigitsValue(e))
    else None
  }

  /** `x` times ten to the `k`; a negative `k` divides. Scaling keeps the
      sign, and the result is 0 exactly when `x` is. */
  function Scale(x: real, k: int): (r: real)
    ensures x >= 0.0 ==> r >= 0.0
    ensures r == 0.0 <==> x == 0.0
  {
    if k >= 0 then x * Pow10(k) as real else x / Pow10(-k) as real
  }

  /** `Number` on an unsigned decimal literal: a significand, optionally
      followed by 'e' or 'E' and an exponent; anything else is NaN. A
      literal reads as 0 exactly when every digit of its significand is
      '0'. */
  function ParseUnsigned(s: string): (r: JsNumber)
    ensures r.Finite? ==> r.value >= 0.0
    ensures r.Finite? ==> |s| > 0
    ensures r.Finite? ==> (r.value == 0.0 <==> ZeroDigits(s[..ExpIndex(s)]))
  {
    var k := ExpIndex(s);
    var significand := SignificandValue(s[..k]);
    if k == |s| then
      assert s[..k] == s;
      significand
    else
      match (significand, ExponentValue(s[k + 1..]))
      case (Finite(v), Some(e)) => Finite(Scale(v, e))
      case _ => NaN
  }

  /** JavaScript's `Number(text)` on the decimal forms a number input
      produces: the empty string is 0, a leading '-' or '+' sets the sign.
      An unsigned literal is positive exactly when some digit of its
      significand is not '0'. */
  function JsNumberOf(s: string): (r: JsNumber)
    ensures s == "" ==> r == Finite(0.0)
    ensures |s| > 0 && s[0] == '-' && r.Finite? ==> r.value <= 0.0
    ensures |s| > 0 && (IsDigit(s[0]) || s[0] == '.') && r.Finite? ==>
      r.value >= 0.0 && (r.value > 0.0 <==> !ZeroDigits(s[..ExpIndex(s)]))
  {
    if s == "" then Finite(0.0)
    else if s[0] == '-' then
      match ParseUnsigned(s[1..])
      case Finite(v) => Finite(-v)
      case NaN => NaN
    else if s[0] == '+' then ParseUnsigned(s[1..])
    else ParseUnsigned(s)
  }

  /** A rendered integer parses back to the same number. */
  lemma NumberOfDecimal(n: nat)
    ensures JsNumberOf(NatToDecimal(n)) == Finite(n as real)
  {
    var s := NatToDecimal(n);
    NoExponentMarker(s);
    SignificandOfDecimal(n);
    assert s[..|s|] == s;
    assert ParseUnsigned(s) == Finite(n as real);
    assert IsDigit(s[0]);
  }

  /** Digits, optionally followed by a '.' and more digits, parse to a
      finite number. */
  lemma PlainLiteralParses(whole: string, frac: string)
    requires AllDigits(whole) && AllDigits(frac) && |whole| > 0
    ensures JsNumberOf(whole).Finite?
    ensures JsNumberOf(whole + "." + frac).Finite?
  {
    NoExponentMarker(whole);
    assert DotIndex(whole) == |whole| && whole[..|whole|] == whole;
    assert IsDigit(whole[0]);
    var s := whole + "." + frac;
    assert s == whole + ("." + frac);
    DotIndexOfPrefix(whole, "." + frac);
    ExpIndexOfDigitsAndDot(whole, frac);
    assert s[..|s|] == s && s[..|whole|] == whole && s[|whole| + 1..] == frac;
    assert SignificandValue(s).Finite?;
    assert s[0] == whole[0];
  }

  lemma {:induction false} DotIndexOfPrefix(digits: string, tail: string)
    requires AllDigits(digits) && |tail| > 0 && tail[0] == '.'
    ensures DotIndex(digits + tail) == |digits|
    decreases |digits|
  {
    if digits != [] {
      assert (digits + tail)[1..] == digits[1..] + tail;
      DotIndexOfPrefix(digits[1..], tail);
    }
  }

  lemma ExpIndexOfDigitsAndDot(whole: string, frac: string)
    requires AllDigits(whole) && AllDigits(frac)
    ensures ExpIndex(whole + "." + frac) == |whole + "." + frac|
  {
    var s := whole + "." + frac;
    assert forall i :: 0 <= i < |s| ==> s[i] == '.' || IsDigit(s[i]);
    NoMarkerIn(s);
  }

  lemma {:induction false} NoMarkerIn(s: string)
    requires forall i :: 0 <= i < |s| ==> s[i] == '.' || IsDigit(s[i])
    ensures ExpIndex(s) == |s|
    decreases |s|
  {
    if s != [] {
      assert forall i :: 0 <= i < |s[1..]| ==> s[1..][i] == s[i + 1];
      NoMarkerIn(s[1..]);
    }
  }

  /** A digit string holds no exponent marker. */
  lemma NoExponentMarker(s: string)
    requires AllDigits(s)
    ensures ExpIndex(s) == |s|
  {
    NoMarkerIn(s);
  }

  /** A minus sign in front of a rendered integer gives its negation: a
      negative literal never parses to a positive number. */
  lemma NumberOfNegatedDecimal(n: nat)
    ensures JsNumberOf("-" + NatToDecimal(n)) == Finite(-(n as real))
  {
    var s := "-" + NatToDecimal(n);
    assert s[1..] == NatToDecimal(n);
    NumberOfDecimal(n);
  }

  /** Exponent notation: `m` followed by 'e' and `k` reads as m times ten
      to the k. */
  lemma NumberOfExponentForm(m: nat, k: nat)
    ensures JsNumberOf(NatToDecimal(m) + "e" + NatToDecimal(k)) == Finite((m * Pow10(k)) as real)
  {
    ExponentAfterMarker(k);
    ExponentFormValue(m, "e", NatToDecimal(k), k);
    ScaleUp(m, k);
  }

  lemma ExponentAfterMarker(k: nat)
    ensures ExponentValue("e"[1..] + NatToDecimal(k)) == Some(k as int)
    ensures ExponentValue("e-"[1..] + NatToDecimal(k)) == Some(-(k as int))
  {
    ExponentOfDecimal(k);
    assert "e"[1..] + NatToDecimal(k) == NatToDecimal(k);
    assert "e-"[1..] + NatToDecimal(k) == "-" + NatToDecimal(k);
  }

  lemma ScaleUp(m: nat, k: nat)
    ensures Scale(m as real, k) == (m * Pow10(k)) as real
  {
    var p := Pow10(k);
    assert Scale(m as real, k) == m as real * p as real;
    ProductAsReal(m, p);
  }

  lemma {:induction false} ProductAsReal(a: nat, b: nat)
    ensures (a * b) as real == a as real * b as real
  {
    if b > 0 {
      ProductAsReal(a, b - 1);
      assert a * b == a * (b - 1) + a;
      assert a as real * b as real == a as real * (b - 1) as real + a as real;
    }
  }

  /** With 'e-', `m` followed by the marker and `k` reads as m divided by
      ten to the k. */
  lemma NumberOfNegativeExponentForm(m: nat, k: nat)
    ensures JsNumberOf(NatToDecimal(m) + "e-" + NatToDecimal(k)) == Finite(m as real / Pow10(k) as real)
  {
    ExponentAfterMarker(k);
    ExponentFormValue(m, "e-", NatToDecimal(k), -(k as int));
    ScaleDown(m, k);
  }

  lemma ScaleDown(m: nat, k: nat)
    ensures Scale(m as real, -(k as int)) == m as real / Pow10(k) as real
  {
    if k == 0 {
      assert Pow10(0) == 1;
    }
  }

  /** A rendered integer, with or without a '-' in front, is an exponent. */
  lemma ExponentOfDecimal(k: nat)
    ensures ExponentValue(NatToDecimal(k)) == Some(k as int)
    ensures ExponentValue("-" + NatToDecimal(k)) == Some(-(k as int))
  {
    var e := NatToDecimal(k);
    DecimalRoundTrip(k);
    assert IsDigit(e[0]);
    assert ("-" + e)[1..] == e;
  }

  /** `m` rendered, then a marker starting with 'e' whose remainder and
      `rest` form an exponent `e`, reads as `m` scaled by `e`. */
  lemma ExponentFormValue(m: nat, marker: string, rest: string, e: int)
    requires |marker| > 0 && marker[0] == 'e'
    requires ExponentValue(marker[1..] + rest) == Some(e)
    ensures JsNumberOf(NatToDecimal(m) + marker + rest) == Finite(Scale(m as real, e))
  {
    var digits := NatToDecimal(m);
    var s := digits + marker + rest;
    ExponentSplit(digits, marker, rest);
    SignificandOfDecimal(m);
    var k := ExpIndex(s);
    assert k == |digits| && k < |s|;
    assert SignificandValue(s[..k]) == Finite(m as real);
    assert ExponentValue(s[k + 1..]) == Some(e);
    assert ParseUnsigned(s) == Finite(Scale(m as real, e));
    assert IsDigit(s[0]);
  }

  /** A rendered integer read as a significand is that integer. */
  lemma SignificandOfDecimal(n: nat)
    ensures SignificandValue(NatToDecimal(n)) == Finite(n as real)
  {
    var s := NatToDecimal(n);
    assert DotIndex(s) == |s| && s[..|s|] == s;
    DecimalRoundTrip(n);
  }

  /** Splitting `digits + marker + rest` at its exponent marker gives back
      `digits` and what follows the 'e'. */
  lemma ExponentSplit(digits: string, marker: string, rest: string)
    requires AllDigits(digits) && |digits| > 0 && |marker| > 0 && marker[0] == 'e'
    ensures var s := digits + marker + rest;
      ExpIndex(s) == |digits| && s[..|digits|] == digits && s[|digits| + 1..] == marker[1..] + rest
      && s[0] == digits[0]
  {
    var s := digits + marker + rest;
    ExpIndexOfPrefix(digits, marker + rest);
    assert s == digits + (marker + rest);
  }

  lemma {:induction false} ExpIndexOfPrefix(digits: string, tail: string)
    requires AllDigits(digits) && |tail| > 0 && tail[0] == 'e'
    ensures ExpIndex(digits + tail) == |digits|
    decreases |digits|
  {
    if digits != [] {
      assert (digits + tail)[1..] == digits[1..] + tail;
      ExpIndexOfPrefix(digits[1..], tail);
    }
  }
}
