/** Decimal text: digits, integers, and the value a decimal numeral stands for. */
module Decimals {
  import opened Wrappers
  import opened Texts

  predicate IsDigit(c: char) { '0' <= c <= '9' }

  predicate AllDigits(s: string) { forall i :: 0 <= i < |s| ==> IsDigit(s[i]) }

  function DigitValue(c: char): nat
    requires IsDigit(c)
  {
    c as int - '0' as int
  }

  function DigitChar(n: nat): (c: char)
    requires n < 10
    ensures IsDigit(c) && DigitValue(c) == n
  {
    ('0' as int + n) as char
  }

  function DigitsValue(s: string): nat
    requires AllDigits(s)
  {
    if s == [] then 0 else 10 * DigitsValue(s[..|s| - 1]) + DigitValue(s[|s| - 1])
  }

  /** The usual numeral of a natural number. */
  function NatText(n: nat): (s: string)
    ensures |s| > 0 && AllDigits(s)
  {
    if n < 10 then [DigitChar(n)] else NatText(n / 10) + [DigitChar(n % 10)]
  }

  lemma {:induction false} NatTextValue(n: nat)
    ensures DigitsValue(NatText(n)) == n
  {
    if n >= 10 {
      NatTextValue(n / 10);
      assert NatText(n)[..|NatText(n)| - 1] == NatText(n / 10);
    } else {
      assert NatText(n)[..0] == [];
    }
  }

  /** Distinct numbers have distinct numerals. */
  lemma NatTextInjective(m: nat, n: nat)
    requires NatText(m) == NatText(n)
    ensures m == n
  {
    NatTextValue(m);
    NatTextValue(n);
  }

  function IntText(n: int): string {
    if n < 0 then "-" + NatText(-n) else NatText(n)
  }

  const MaxI32: int := 0x7FFF_FFFF

  /** Parsing a signed integer: one optional sign, then digits. */
  function ParseInt(s: string): Option<int> {
    var digits := if s != [] && (s[0] == '+' || s[0] == '-') then s[1..] else s;
    if digits == [] || !AllDigits(digits) then None
    else Some(if s[0] == '-' then 0 - DigitsValue(digits) as int else DigitsValue(digits))
  }

  function ParseI32(s: string): Option<int> {
    var n := ParseInt(s);
    if n.Some? && -MaxI32 - 1 <= n.value <= MaxI32 then n else None
  }

  lemma ParsePrinted(n: int)
    ensures ParseInt(IntText(n)) == Some(n)
    ensures n >= 0 ==> ParseInt("+" + IntText(n)) == Some(n)
  {
    hide NatText, DigitsValue;
    if n < 0 {
      NatTextValue(-n);
      assert IntText(n)[1..] == NatText(-n);
    } else {
      NatTextValue(n);
      assert IsDigit(NatText(n)[0]);
      assert ("+" + IntText(n))[1..] == NatText(n);
    }
  }

  function Zeros(n: nat): (s: string)
    ensures |s| == n && AllDigits(s)
  {
    if n == 0 then "" else Zeros(n - 1) + "0"
  }

  function Pow10(n: int): (p: real)
    ensures p > 0.0
    decreases if n < 0 then -n else n
  {
    if n == 0 then 1.0 else if n > 0 then 10.0 * Pow10(n - 1) else Pow10(n + 1) / 10.0
  }

  lemma Pow10Next(n: int)
    ensures Pow10(n + 1) == 10.0 * Pow10(n)
  {
  }

  lemma {:induction false} LeadingZero(s: string)
    requires AllDigits(s) && s != [] && s[0] == '0'
    ensures AllDigits(s[1..]) && DigitsValue(s) == DigitsValue(s[1..])
    decreases |s|
  {
    var front := s[..|s| - 1];
    if |s| > 1 {
      LeadingZero(front);
      assert s[1..][..|s| - 2] == front[1..];
    } else {
      assert front == [] && s[1..] == [];
    }
  }

  lemma {:induction false} LeadingZeros(n: nat, s: string)
    requires AllDigits(s)
    ensures AllDigits(Zeros(n) + s) && DigitsValue(Zeros(n) + s) == DigitsValue(s)
    decreases n
  {
    if n == 0 {
      assert Zeros(0) + s == s;
    } else {
      assert Zeros(n) + s == Zeros(n - 1) + ("0" + s);
      LeadingZeros(n - 1, "0" + s);
      LeadingZero("0" + s);
      assert ("0" + s)[1..] == s;
    }
  }

  /** A digit string at a scale: the number `s` times ten to the `scale`. */
  function Scaled(s: string, scale: int): real
    requires AllDigits(s)
  {
    DigitsValue(s) as real * Pow10(scale)
  }

  /** Dropping a final zero and raising the scale keeps the number. */
  lemma TrailingZero(s: string, scale: int)
    requires AllDigits(s) && s != [] && s[|s| - 1] == '0'
    ensures AllDigits(s[..|s| - 1]) && Scaled(s, scale) == Scaled(s[..|s| - 1], scale + 1)
  {
    Pow10Next(scale);
    var front := s[..|s| - 1];
    assert DigitsValue(s) == 10 * DigitsValue(front);
    assert DigitsValue(s) as real == 10.0 * DigitsValue(front) as real;
  }

  lemma {:induction false} TrailingZeros(s: string, n: nat, scale: int)
    requires AllDigits(s)
    ensures AllDigits(s + Zeros(n)) && Scaled(s + Zeros(n), scale) == Scaled(s, scale + n)
    decreases n
  {
    if n == 0 {
      assert s + Zeros(0) == s;
    } else {
      var t := s + Zeros(n);
      assert t[..|t| - 1] == s + Zeros(n - 1);
      TrailingZero(t, scale);
      TrailingZeros(s, n - 1, scale + 1);
    }
  }

  lemma {:induction false} PositiveDigits(s: string)
    requires AllDigits(s) && s != [] && s[0] != '0'
    ensures DigitsValue(s) > 0
    decreases |s|
  {
    if |s| > 1 {
      PositiveDigits(s[..|s| - 1]);
    }
  }

  /** Without leading zeros a value has one numeral. */
  lemma {:induction false} DigitsInjective(s: string, t: string)
    requires AllDigits(s) && AllDigits(t) && DigitsValue(s) == DigitsValue(t)
    requires s != [] ==> s[0] != '0'
    requires t != [] ==> t[0] != '0'
    ensures s == t
    decreases |s|
  {
    if s != [] { PositiveDigits(s); }
    if t != [] { PositiveDigits(t); }
    if s != [] && t != [] {
      DigitsInjective(s[..|s| - 1], t[..|t| - 1]);
      assert s == s[..|s| - 1] + [s[|s| - 1]] && t == t[..|t| - 1] + [t[|t| - 1]];
    }
  }

  /** With no zero at either end, digits and scale are determined by the number. */
  lemma ScaledUnique(s: string, j: int, t: string, k: int)
    requires AllDigits(s) && s != [] && s[0] != '0' && s[|s| - 1] != '0'
    requires AllDigits(t) && t != [] && t[0] != '0' && t[|t| - 1] != '0'
    requires Scaled(s, j) == Scaled(t, k)
    ensures s == t && j == k
  {
    if j <= k {
      ScaledUniqueOrdered(s, j, t, k);
    } else {
      ScaledUniqueOrdered(t, k, s, j);
    }
  }

  lemma ScaledUniqueOrdered(s: string, j: int, t: string, k: int)
    requires AllDigits(s) && s != [] && s[0] != '0' && s[|s| - 1] != '0'
    requires AllDigits(t) && t != [] && t[0] != '0'
    requires j <= k && Scaled(s, j) == Scaled(t, k)
    ensures s == t && j == k
  {
    hide DigitsValue, Pow10;
    var padded := t + Zeros(k - j);
    TrailingZeros(t, k - j, j);
    Cancel(DigitsValue(s), DigitsValue(padded), Pow10(j));
    assert j < k ==> padded[|padded| - 1] == '0';
    DigitsInjective(s, padded);
  }

  lemma Cancel(m: nat, n: nat, p: real)
    requires p > 0.0 && m as real * p == n as real * p
    ensures m == n
  {
    assert (n as real - m as real) * p == 0.0;
  }

  /** The exponent mark, in either case. */
  function Mark(s: string): (mark: nat)
    ensures mark <= |s|
  {
    var i, j := Find(s, 'e'), Find(s, 'E');
    if i <= j then i else j
  }

  /**
   * The number an unsigned numeral stands for: digits with at most one point, then an optional
   * exponent. This is the reading that printing must preserve.
   */
  function Magnitude(text: string): Option<real> {
    var mark := Mark(text);
    var mantissa := text[..mark];
    var exponent := if mark < |text| then ParseInt(text[mark + 1..]) else Some(0);
    var point := Find(mantissa, '.');
    var fraction := if point < |mantissa| then mantissa[point + 1..] else "";
    var digits := mantissa[..point] + fraction;
    if exponent.None? || digits == [] || !AllDigits(digits) then None
    else Some(Scaled(digits, exponent.value - |fraction|))
  }

  /** The sign and magnitude of a signed numeral. */
  function ReadDecimal(text: string): Option<(bool, real)> {
    var negative := text != [] && text[0] == '-';
    var m := Magnitude(if negative then text[1..] else text);
    if m.None? then None else Some((negative, m.value))
  }

  function Numeral(whole: string, fraction: Option<string>, exponent: Option<string>): string {
    whole + (if fraction.Some? then "." + fraction.value else "") + (if exponent.Some? then "e" + exponent.value else "")
  }

  lemma MarkOf(mantissa: string, exponent: Option<string>)
    requires forall i :: 0 <= i < |mantissa| ==> mantissa[i] != 'e' && mantissa[i] != 'E'
    ensures Mark(mantissa + (if exponent.Some? then "e" + exponent.value else "")) == |mantissa|
  {
    hide Find;
    var text := mantissa + (if exponent.Some? then "e" + exponent.value else "");
    assert forall i :: 0 <= i < |mantissa| ==> text[i] == mantissa[i];
    FindIs(text, 'e', |mantissa|);
  }

  lemma PointOf(whole: string, fraction: Option<string>)
    requires AllDigits(whole)
    ensures Find(whole + (if fraction.Some? then "." + fraction.value else ""), '.') == |whole|
  {
    hide Find;
    var mantissa := whole + (if fraction.Some? then "." + fraction.value else "");
    assert forall i :: 0 <= i < |whole| ==> mantissa[i] == whole[i] != '.';
    FindIs(mantissa, '.', |whole|);
  }

  /** Reading back a numeral assembled from its parts. */
  lemma ReadNumeral(whole: string, fraction: Option<string>, exponent: Option<string>)
    requires AllDigits(whole) && whole != []
    requires fraction.Some? ==> AllDigits(fraction.value)
    requires exponent.Some? ==> ParseInt(exponent.value).Some?
    ensures var f := if fraction.Some? then fraction.value else "";
            var x := if exponent.Some? then ParseInt(exponent.value).value else 0;
            && AllDigits(whole + f)
            && Magnitude(Numeral(whole, fraction, exponent)) == Some(Scaled(whole + f, x - |f|))
  {
    hide Find, Mark, ParseInt, Scaled;
    var f := if fraction.Some? then fraction.value else "";
    var mantissa := whole + (if fraction.Some? then "." + fraction.value else "");
    var text := Numeral(whole, fraction, exponent);
    MarkOf(mantissa, exponent);
    PointOf(whole, fraction);
    assert text == mantissa + (if exponent.Some? then "e" + exponent.value else "");
    assert text[..|mantissa|] == mantissa;
    assert mantissa[..|whole|] == whole;
    if exponent.Some? {
      assert text[|mantissa| + 1..] == exponent.value;
    }
    if fraction.Some? {
      assert mantissa[|whole| + 1..] == f;
    }
  }
}
