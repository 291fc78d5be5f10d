/**
 * JavaScript's `Number(text)` on the text of a form field, restricted to the
 * decimal literals a numeric input produces: surrounding white space is
 * ignored, the empty string is 0, and a literal is an optional sign, digits
 * with an optional fraction, and an optional exponent. `None` stands for NaN
 * and for the non-finite results (`Infinity`), which the form treats alike.
 * Values are exact reals: the rounding to a 64-bit double is not modelled.
 */
module JsNumber {
  import opened Wrappers

  /** The white-space and line-terminator characters `Number` strips. */
  predicate IsWhiteSpace(c: char) {
    c == ' ' || c == '\t' || c == '\n' || c == '\r' || c == '\U{000B}' || c == '\U{000C}'
    || c == '\U{00A0}' || c == '\U{FEFF}' || c == '\U{2028}' || c == '\U{2029}'
  }

  predicate IsDigit(c: char) {
    '0' <= c <= '9'
  }

  predicate AllDigits(s: string) {
    forall i :: 0 <= i < |s| ==> IsDigit(s[i])
  }

  function TrimStart(s: string): (r: string)
    ensures |r| <= |s| && r == s[|s| - |r|..]
    ensures |r| > 0 ==> !IsWhiteSpace(r[0])
  {
    if |s| > 0 && IsWhiteSpace(s[0]) then TrimStart(s[1..]) else s
  }

  function TrimEnd(s: string): (r: string)
    ensures |r| <= |s| && r == s[..|r|]
    ensures |r| > 0 ==> !IsWhiteSpace(r[|r| - 1])
  {
    if |s| > 0 && IsWhiteSpace(s[|s| - 1]) then TrimEnd(s[..|s| - 1]) else s
  }

  function Trim(s: string): string {
    TrimEnd(TrimStart(s))
  }

  /** The length of the longest prefix of `s` made of decimal digits. */
  function LeadingDigits(s: string): (n: nat)
    ensures n <= |s| && AllDigits(s[..n])
    ensures n < |s| ==> !IsDigit(s[n])
  {
    if |s| > 0 && IsDigit(s[0]) then 1 + LeadingDigits(s[1..]) else 0
  }

  function DigitValue(c: char): (d: nat)
    requires IsDigit(c)
    ensures d < 10
  {
    c as int - '0' as int
  }

  /** The number a string of decimal digits denotes ("" denotes 0). */
  function DigitsValue(ds: string): nat
    requires AllDigits(ds)
  {
    if |ds| == 0 then 0 else 10 * DigitsValue(ds[..|ds| - 1]) + DigitValue(ds[|ds| - 1])
  }

  function Pow10(n: nat): (r: nat)
    ensures r >= 1
  {
    if n == 0 then 1 else 10 * Pow10(n - 1)
  }

  /** `m` times ten to the power `e`. */
  function Scale(m: real, e: int): real {
    if e >= 0 then m * Pow10(e) as real else m / Pow10(-e) as real
  }

  /** The exponent suffix of a literal: nothing, or `e`/`E`, an optional sign and digits. */
  function Exponent(rest: string): Option<int> {
    if rest == "" then Some(0)
    else if rest[0] != 'e' && rest[0] != 'E' then None
    else
      var signed := rest[1..];
      var negative := |signed| > 0 && signed[0] == '-';
      var digits := if |signed| > 0 && (signed[0] == '+' || signed[0] == '-') then signed[1..] else signed;
      if digits == [] || !AllDigits(digits) then None
      else
        var magnitude: int := DigitsValue(digits);
        Some(if negative then -magnitude else magnitude)
  }

  /** The parts of a decimal literal: integer digits, fraction digits and what follows them. */
  datatype Literal = Literal(whole: string, fraction: string, rest: string)

  function SplitLiteral(u: string): (p: Literal)
    ensures AllDigits(p.whole) && AllDigits(p.fraction)
  {
    var i := LeadingDigits(u);
    var afterInt := u[i..];
    if |afterInt| > 0 && afterInt[0] == '.' then
      var afterDot := afterInt[1..];
      var j := LeadingDigits(afterDot);
      Literal(u[..i], afterDot[..j], afterDot[j..])
    else
      Literal(u[..i], "", afterInt)
  }

  /** An unsigned decimal literal: `12`, `12.`, `.5`, `12.5e-1`, ... */
  function UnsignedDecimal(u: string): Option<real> {
    var p := SplitLiteral(u);
    if |p.whole| + |p.fraction| == 0 then None
    else
      match Exponent(p.rest)
      case None => None
      case Some(e) => Some(Scale(Mantissa(p.whole, p.fraction), e))
  }

  /** The value of the digits before and after the point. */
  function Mantissa(whole: string, fraction: string): real
    requires AllDigits(whole) && AllDigits(fraction)
  {
    DigitsValue(whole) as real + DigitsValue(fraction) as real / Pow10(|fraction|) as real
  }

  /** `Number(s)`, with NaN and the infinities as `None`. */
  function StringToNumber(s: string): Option<real> {
    var t := Trim(s);
    if t == "" then Some(0.0)
    else if t[0] == '-' then
      match UnsignedDecimal(t[1..])
      case Some(v) => Some(-v)
      case None => None
    else if t[0] == '+' then UnsignedDecimal(t[1..])
    else UnsignedDecimal(t)
  }

  /** The decimal text of a natural number, as a user would type it. */
  function ShowNat(n: nat): (s: string)
    ensures |s| > 0 && AllDigits(s)
  {
    if n < 10 then ['0' + n as char] else ShowNat(n / 10) + ['0' + (n % 10) as char]
  }

  lemma {:induction false} DigitsValueShowNat(n: nat)
    ensures DigitsValue(ShowNat(n)) == n
  {
    var s := ShowNat(n);
    if n >= 10 {
      assert s[..|s| - 1] == ShowNat(n / 10);
      DigitsValueShowNat(n / 10);
    }
  }

  lemma {:induction false} LeadingDigitsAll(s: string)
    requires AllDigits(s)
    ensures LeadingDigits(s) == |s|
  {
    if |s| > 0 {
      LeadingDigitsAll(s[1..]);
    }
  }

  /** A run of digits splits into itself as the integer part, with no fraction and nothing after it. */
  lemma SplitDigits(s: string)
    requires AllDigits(s)
    ensures SplitLiteral(s) == Literal(s, "", "")
  {
    LeadingDigitsAll(s);
    assert s[|s|..] == "";
    assert s[..|s|] == s;
  }

  lemma ScaleByOne(m: real)
    ensures Scale(m, 0) == m
  {
    assert Pow10(0) == 1;
  }

  lemma DigitsAreDecimal(s: string)
    requires |s| > 0 && AllDigits(s)
    ensures UnsignedDecimal(s) == Some(DigitsValue(s) as real)
  {
    SplitDigits(s);
    assert Exponent("") == Some(0);
    assert Mantissa(s, "") == DigitsValue(s) as real by {
      assert DigitsValue("") == 0 && Pow10(0) == 1;
    }
    ScaleByOne(DigitsValue(s) as real);
  }

  /** Typing a whole number into a field yields exactly that number. */
  lemma ShowNatParses(n: nat)
    ensures StringToNumber(ShowNat(n)) == Some(n as real)
  {
    var s := ShowNat(n);
    assert IsDigit(s[0]) && IsDigit(s[|s| - 1]);
    TrimNoop(s);
    assert s[0] != '-' && s[0] != '+';
    DigitsAreDecimal(s);
    DigitsValueShowNat(n);
  }

  lemma {:induction false} LeadingDigitsStops(a: string, rest: string)
    requires AllDigits(a)
    requires rest == [] || !IsDigit(rest[0])
    ensures LeadingDigits(a + rest) == |a|
  {
    if |a| > 0 {
      assert (a + rest)[1..] == a[1..] + rest;
      LeadingDigitsStops(a[1..], rest);
    } else {
      assert a + rest == rest;
    }
  }

  lemma TrimNoop(s: string)
    requires |s| > 0 && !IsWhiteSpace(s[0]) && !IsWhiteSpace(s[|s| - 1])
    ensures Trim(s) == s
  {
    assert TrimStart(s) == s;
  }

  lemma SplitFraction(whole: string, fraction: string)
    requires AllDigits(whole) && AllDigits(fraction)
    ensures SplitLiteral(whole + "." + fraction) == Literal(whole, fraction, "")
  {
    var s := whole + "." + fraction;
    LeadingDigitsStops(whole, "." + fraction);
    assert s[..|whole|] == whole;
    assert s[|whole|..] == "." + fraction;
    assert s[|whole|..][1..] == fraction;
    LeadingDigitsAll(fraction);
    assert fraction[..|fraction|] == fraction;
    assert fraction[|fraction|..] == "";
  }

  lemma FractionIsDecimal(whole: string, fraction: string)
    requires AllDigits(whole) && AllDigits(fraction) && |whole| + |fraction| > 0
    ensures UnsignedDecimal(whole + "." + fraction) == Some(Mantissa(whole, fraction))
  {
    SplitFraction(whole, fraction);
    assert Exponent("") == Some(0);
    ScaleByOne(Mantissa(whole, fraction));
  }

  /** Typing digits, a point and more digits yields the decimal fraction they denote. */
  lemma DecimalParses(whole: string, fraction: string)
    requires |whole| > 0 && AllDigits(whole) && AllDigits(fraction)
    ensures StringToNumber(whole + "." + fraction) == Some(Mantissa(whole, fraction))
  {
    var s := whole + "." + fraction;
    assert s[0] == whole[0];
    assert s[0] != '-' && s[0] != '+';
    assert s[|s| - 1] == if |fraction| > 0 then fraction[|fraction| - 1] else '.';
    TrimNoop(s);
    FractionIsDecimal(whole, fraction);
  }

  /** A field left empty, or holding only white space, reads as 0 (not NaN). */
  lemma BlankIsZero(s: string)
    requires forall i :: 0 <= i < |s| ==> IsWhiteSpace(s[i])
    ensures StringToNumber(s) == Some(0.0)
  {
    BlankTrims(s);
  }

  lemma {:induction false} BlankTrims(s: string)
    requires forall i :: 0 <= i < |s| ==> IsWhiteSpace(s[i])
    ensures TrimStart(s) == ""
  {
    if |s| > 0 {
      BlankTrims(s[1..]);
    }
  }

  /** Text that starts with a letter other than a sign or digit (`Infinity`, `abc`) is not a finite number. */
  lemma LetterIsNotFinite(s: string)
    requires |s| > 0 && !IsWhiteSpace(s[0]) && !IsDigit(s[0]) && s[0] != '.' && s[0] != '+' && s[0] != '-'
    ensures StringToNumber(s) == None
  {
    var t := Trim(s);
    assert TrimStart(s) == s;
    assert |t| > 0 ==> t[0] == s[0];
    if |t| == 0 {
      assert !IsWhiteSpace(s[0]);
      assert TrimEnd(s) == "";
      TrimEndEmpty(s);
    }
  }

  lemma {:induction false} TrimEndEmpty(s: string)
    requires TrimEnd(s) == ""
    ensures forall i :: 0 <= i < |s| ==> IsWhiteSpace(s[i])
  {
    if |s| > 0 {
      assert IsWhiteSpace(s[|s| - 1]);
      TrimEndEmpty(s[..|s| - 1]);
      assert forall i :: 0 <= i < |s| - 1 ==> s[i] == s[..|s| - 1][i];
    }
  }
}
