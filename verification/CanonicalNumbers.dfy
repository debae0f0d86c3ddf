/** Canonical numbers: the shortest digits of a float, re-pointed into fixed or exponent form. */
module CanonicalNumbers {
  import opened Wrappers
  import opened Texts
  import opened Decimals
  import opened JsonReader

  function Without(s: string, c: char): string {
    if s == [] then [] else (if s[0] == c then [] else [s[0]]) + Without(s[1..], c)
  }

  function LeadingCount(s: string): (n: nat)
    ensures n <= |s| && (n < |s| ==> s[n] != '0')
  {
    if s == [] || s[0] != '0' then 0 else 1 + LeadingCount(s[1..])
  }

  function StripTrailing(s: string): string {
    if |s| > 1 && s[|s| - 1] == '0' then StripTrailing(s[..|s| - 1]) else s
  }

  function ExponentOf(repr: string): Option<int> {
    if Mark(repr) < |repr| then ParseI32(repr[Mark(repr) + 1..]) else Some(0)
  }

  /** What a float printer emits for a positive number: a numeral above zero whose exponent, if any, is 32-bit. */
  ghost predicate Printed(repr: string) {
    ExponentOf(repr).Some? && Magnitude(repr).Some? && Magnitude(repr).value > 0.0
  }

  function Digits(repr: string): string {
    var all := Without(repr[..Mark(repr)], '.');
    StripTrailing(all[LeadingCount(all)..])
  }

  /** Where the decimal point stands, counted from the first significant digit. */
  function PointAfter(repr: string): int
    requires ExponentOf(repr).Some?
  {
    var mantissa := repr[..Mark(repr)];
    Find(mantissa, '.') + ExponentOf(repr).value - LeadingCount(Without(mantissa, '.'))
  }

  function Exponential(digits: string, point: int): string
    requires digits != []
  {
    Numeral(digits[..1], if |digits| > 1 then Some(digits[1..]) else None,
            Some((if point - 1 >= 0 then "+" else "") + IntText(point - 1)))
  }

  function Fixed(digits: string, point: int): string {
    if point <= 0 then "0." + Zeros(-point) + digits
    else if point >= |digits| then digits + Zeros(point - |digits|)
    else digits[..point] + "." + digits[point..]
  }

  /** The canonical text of a nonzero finite number; `fixed` when it lies in [1e-6, 1e21). */
  function NumberText(negative: bool, repr: string, fixed: bool): string
    requires ExponentOf(repr).Some? && Digits(repr) != []
  {
    (if negative then "-" else "") +
    (if fixed then Fixed(Digits(repr), PointAfter(repr)) else Exponential(Digits(repr), PointAfter(repr)))
  }

  /** The digit buffer as the code edits it: points removed, drained from the front, popped from the back. */
  method Normalise(repr: string) returns (r: Option<(string, int)>)
    ensures r.Some? <==> ExponentOf(repr).Some?
    ensures r.Some? ==> r.value == (Digits(repr), PointAfter(repr))
  {
    hide Mark, Find, Without, LeadingCount, ParseI32;
    var mark := Mark(repr);
    var mantissa := repr[..mark];
    var exponent := 0;
    if mark < |repr| {
      var parsed := ParseI32(repr[mark + 1..]);
      if parsed.None? { return None; }
      exponent := parsed.value;
    }
    var point := Find(mantissa, '.');
    var digits := Without(mantissa, '.');
    var leading := LeadingCount(digits);
    digits := digits[leading..];
    var decimal := point + exponent - leading;
    while |digits| > 1 && digits[|digits| - 1] == '0'
      invariant StripTrailing(digits) == Digits(repr)
    {
      digits := digits[..|digits| - 1];
    }
    r := Some((digits, decimal));
  }

  method PushExponential(sign: string, digits: string, decimal: int) returns (result: string)
    requires digits != []
    ensures result == sign + Exponential(digits, decimal)
  {
    hide IntText;
    result := sign + digits[..1];
    if |digits| > 1 {
      result := result + ".";
      result := result + digits[1..];
    }
    ghost var mantissa := result;
    var exp := decimal - 1;
    result := result + "e";
    if exp >= 0 {
      result := result + "+";
    }
    result := result + IntText(exp);
    assert result == mantissa + ("e" + ((if exp >= 0 then "+" else "") + IntText(exp)));
  }

  method PushFixed(sign: string, digits: string, decimal: int) returns (result: string)
    ensures result == sign + Fixed(digits, decimal)
  {
    hide Zeros;
    result := sign;
    if decimal <= 0 {
      result := result + "0.";
      result := result + Zeros(-decimal);
      result := result + digits;
    } else if decimal >= |digits| {
      result := result + digits;
      result := result + Zeros(decimal - |digits|);
    } else {
      result := result + digits[..decimal];
      result := result + ".";
      result := result + digits[decimal..];
    }
  }

  /** The canonical text, pushed out piece by piece. */
  method Number(negative: bool, repr: string, fixed: bool) returns (r: Option<string>)
    requires ExponentOf(repr).Some? ==> Digits(repr) != []
    ensures r == if ExponentOf(repr).Some? then Some(NumberText(negative, repr, fixed)) else None
  {
    hide Digits, PointAfter, ExponentOf, Fixed, Exponential;
    var normal := Normalise(repr);
    if normal.None? { return None; }
    var (digits, decimal) := normal.value;
    var result := "";
    if negative {
      result := result + "-";
    }
    assert result == if negative then "-" else "";
    if !fixed {
      result := PushExponential(result, digits, decimal);
    } else {
      result := PushFixed(result, digits, decimal);
    }
    r := Some(result);
  }

  lemma {:induction false} WithoutAll(s: string, c: char)
    requires forall i :: 0 <= i < |s| ==> s[i] != c
    ensures Without(s, c) == s
    decreases |s|
  {
    if s != [] {
      WithoutAll(s[1..], c);
    }
  }

  lemma {:induction false} WithoutConcat(s: string, t: string, c: char)
    ensures Without(s + t, c) == Without(s, c) + Without(t, c)
    decreases |s|
  {
    if s == [] {
      assert s + t == t;
    } else {
      assert (s + t)[1..] == s[1..] + t;
      WithoutConcat(s[1..], t, c);
    }
  }

  lemma WithoutHead(c: char, rest: string)
    ensures Without([c] + rest, c) == Without(rest, c)
  {
    assert ([c] + rest)[1..] == rest;
  }

  /** With one point to remove, what is left is what stands before and after it. */
  lemma WithoutOne(s: string, c: char)
    requires Find(s, c) < |s| ==> forall i :: Find(s, c) < i < |s| ==> s[i] != c
    ensures Without(s, c) == s[..Find(s, c)] + (if Find(s, c) < |s| then s[Find(s, c) + 1..] else "")
  {
    hide Find, Without;
    var p := Find(s, c);
    var head := s[..p];
    WithoutAll(head, c);
    if p < |s| {
      var rest := s[p + 1..];
      forall i | 0 <= i < |rest| ensures rest[i] != c {
        assert rest[i] == s[p + 1 + i];
      }
      WithoutAll(rest, c);
      WithoutHead(c, rest);
      Parted(s, p);
      WithoutConcat(head, [c] + rest, c);
    } else {
      assert head == s && head + "" == head;
    }
  }

  lemma Parted(s: string, p: nat)
    requires p < |s|
    ensures s == s[..p] + ([s[p]] + s[p + 1..])
  {
  }

  lemma {:induction false} DropLeading(s: string, point: int)
    requires AllDigits(s)
    ensures var n := LeadingCount(s);
            AllDigits(s[n..]) && Scaled(s[n..], point - n - |s[n..]|) == Scaled(s, point - |s|)
    decreases |s|
  {
    hide Scaled, DigitsValue;
    if s != [] && s[0] == '0' {
      var n := LeadingCount(s[1..]);
      DropLeading(s[1..], point - 1);
      LeadingZero(s);
      SameScaled(s, s[1..], point - |s|);
      assert s[n + 1..] == s[1..][n..];
    } else {
      assert s[0..] == s;
    }
  }

  lemma {:induction false} DropTrailing(s: string, point: int)
    requires AllDigits(s)
    ensures var t := StripTrailing(s);
            && AllDigits(t) && Scaled(t, point - |t|) == Scaled(s, point - |s|)
            && |t| <= |s| && t == s[..|t|] && (s != [] ==> t != []) && (|t| > 1 ==> t[|t| - 1] != '0')
    decreases |s|
  {
    if |s| > 1 && s[|s| - 1] == '0' {
      var front := s[..|s| - 1];
      DropTrailing(front, point);
      TrailingZero(s, point - |s|);
      assert front[..|StripTrailing(front)|] == s[..|StripTrailing(front)|];
    }
  }

  lemma MantissaDigits(repr: string)
    requires ExponentOf(repr).Some? && Magnitude(repr).Some?
    ensures var all := Without(repr[..Mark(repr)], '.');
            && AllDigits(all)
            && Magnitude(repr) == Some(Scaled(all, Find(repr[..Mark(repr)], '.') + ExponentOf(repr).value - |all|))
  {
    hide Find, Mark, Scaled, ParseInt, Without;
    var mantissa := repr[..Mark(repr)];
    var point := Find(mantissa, '.');
    var fraction := if point < |mantissa| then mantissa[point + 1..] else "";
    var digits := mantissa[..point] + fraction;
    assert AllDigits(digits);
    forall i | point < i < |mantissa| ensures mantissa[i] != '.' {
      assert mantissa[i] == digits[i - 1];
    }
    WithoutOne(mantissa, '.');
  }

  /** Draining and popping zeros keeps the number, and leaves digits with no zero at either end. */
  lemma NormalForm(repr: string)
    requires Printed(repr)
    ensures ExponentOf(repr).Some?
    ensures var digits := Digits(repr);
            && AllDigits(digits) && digits != [] && digits[0] != '0' && digits[|digits| - 1] != '0'
            && Scaled(digits, PointAfter(repr) - |digits|) == Magnitude(repr).value
  {
    hide Scaled, Magnitude, Find, Mark, Without, StripTrailing;
    MantissaDigits(repr);
    var mantissa := repr[..Mark(repr)];
    var all := Without(mantissa, '.');
    var point := Find(mantissa, '.') + ExponentOf(repr).value;
    DropLeading(all, point);
    var n := LeadingCount(all);
    DropTrailing(all[n..], point - n);
    assert Scaled(Digits(repr), PointAfter(repr) - |Digits(repr)|) == Magnitude(repr).value;
    if all[n..] == [] {
      ScaledEmpty(PointAfter(repr) - |all[n..]|);
    }
  }

  lemma ScaledEmpty(scale: int)
    ensures Scaled([], scale) == 0.0
  {
  }

  lemma SmallReads(digits: string, point: int)
    requires AllDigits(digits) && point <= 0
    ensures Magnitude("0." + Zeros(-point) + digits) == Some(Scaled(digits, point - |digits|))
  {
    hide Scaled, Magnitude, Zeros, DigitsValue;
    var f := Zeros(-point) + digits;
    assert "0." + Zeros(-point) + digits == Numeral("0", Some(f), None);
    ReadNumeral("0", Some(f), None);
    assert "0" + f == Zeros(1) + f by { ZerosOne(); }
    LeadingZeros(1, f);
    LeadingZeros(-point, digits);
    SameScaled("0" + f, digits, -|f|);
  }

  lemma LargeReads(digits: string, point: int)
    requires AllDigits(digits) && digits != [] && point >= |digits|
    ensures Magnitude(digits + Zeros(point - |digits|)) == Some(Scaled(digits, point - |digits|))
  {
    hide Scaled, Magnitude, Zeros, DigitsValue;
    var w := digits + Zeros(point - |digits|);
    assert w == Numeral(w, None, None);
    ReadNumeral(w, None, None);
    assert w + "" == w;
    TrailingZeros(digits, point - |digits|, 0);
  }

  lemma FixedReads(digits: string, point: int)
    requires AllDigits(digits) && digits != []
    ensures Magnitude(Fixed(digits, point)) == Some(Scaled(digits, point - |digits|))
    ensures Fixed(digits, point) != [] && IsDigit(Fixed(digits, point)[0])
  {
    hide Scaled, Magnitude, Zeros, DigitsValue;
    if point <= 0 {
      SmallReads(digits, point);
    } else if point >= |digits| {
      LargeReads(digits, point);
    } else {
      assert Fixed(digits, point) == Numeral(digits[..point], Some(digits[point..]), None);
      ReadNumeral(digits[..point], Some(digits[point..]), None);
      assert digits[..point] + digits[point..] == digits;
    }
  }

  lemma ZerosOne()
    ensures Zeros(1) == "0"
  {
  }

  lemma SameScaled(s: string, t: string, scale: int)
    requires AllDigits(s) && AllDigits(t) && DigitsValue(s) == DigitsValue(t)
    ensures Scaled(s, scale) == Scaled(t, scale)
  {
    hide DigitsValue, Pow10;
  }

  lemma ExponentialReads(digits: string, point: int)
    requires AllDigits(digits) && digits != []
    ensures Magnitude(Exponential(digits, point)) == Some(Scaled(digits, point - |digits|))
    ensures Exponential(digits, point) != [] && IsDigit(Exponential(digits, point)[0])
  {
    hide Scaled, Magnitude, ParseInt;
    var exponent := (if point - 1 >= 0 then "+" else "") + IntText(point - 1);
    ParsePrinted(point - 1);
    assert point - 1 < 0 ==> exponent == IntText(point - 1);
    var f := if |digits| > 1 then Some(digits[1..]) else None;
    ReadNumeral(digits[..1], f, Some(exponent));
    assert digits[..1] + digits[1..] == digits;
    assert |digits| == 1 ==> digits[..1] + "" == digits;
  }

  /** Reformatting keeps the decimal value exactly, in both forms, whatever the digits. */
  lemma NumberKeepsValue(negative: bool, repr: string, fixed: bool)
    requires Printed(repr)
    ensures ExponentOf(repr).Some? && Digits(repr) != []
    ensures ReadDecimal(NumberText(negative, repr, fixed)) == Some((negative, Magnitude(repr).value))
  {
    hide Scaled, Magnitude, Fixed, Exponential, Digits, PointAfter, DigitsValue;
    NormalForm(repr);
    var digits, point := Digits(repr), PointAfter(repr);
    FixedReads(digits, point);
    ExponentialReads(digits, point);
    var body := if fixed then Fixed(digits, point) else Exponential(digits, point);
    var text := NumberText(negative, repr, fixed);
    assert text == (if negative then "-" else "") + body;
    assert negative ==> text[1..] == body;
    assert !negative ==> text == body;
  }

  /**
   * The text is canonical: within one form, two printed numerals give the same text exactly when
   * they have the same sign and the same value, however many zeros or whatever exponent they carry.
   */
  lemma NumberIsCanonical(n1: bool, r1: string, n2: bool, r2: string, fixed: bool)
    requires Printed(r1) && Printed(r2)
    ensures ExponentOf(r1).Some? && Digits(r1) != [] && ExponentOf(r2).Some? && Digits(r2) != []
    ensures NumberText(n1, r1, fixed) == NumberText(n2, r2, fixed) <==>
            n1 == n2 && Magnitude(r1) == Magnitude(r2)
  {
    hide Scaled, Magnitude, Fixed, Exponential, Digits, PointAfter, ReadDecimal, ExponentOf, NumberText;
    NumberKeepsValue(n1, r1, fixed);
    NumberKeepsValue(n2, r2, fixed);
    if n1 == n2 && Magnitude(r1) == Magnitude(r2) {
      SameNormalForm(n1, r1, r2, fixed);
    }
  }

  lemma SameNormalForm(negative: bool, r1: string, r2: string, fixed: bool)
    requires Printed(r1) && Printed(r2) && Magnitude(r1) == Magnitude(r2)
    ensures ExponentOf(r1).Some? && Digits(r1) != [] && ExponentOf(r2).Some? && Digits(r2) != []
    ensures NumberText(negative, r1, fixed) == NumberText(negative, r2, fixed)
  {
    hide Scaled, Magnitude, Fixed, Exponential, Digits, PointAfter, ExponentOf, DigitsValue;
    NormalForm(r1);
    NormalForm(r2);
    assert PointAfter(r1) == PointAfter(r2) && Digits(r1) == Digits(r2) by {
      ScaledUnique(Digits(r1), PointAfter(r1) - |Digits(r1)|, Digits(r2), PointAfter(r2) - |Digits(r2)|);
    }
  }

  // ---------------------------------------------------------------- its form

  /** The parts of an unsigned numeral: before the point, after it, and after the exponent mark. */
  function WholeOf(body: string): string {
    body[..Mark(body)][..Find(body[..Mark(body)], '.')]
  }

  function FractionOf(body: string): Option<string> {
    var mantissa := body[..Mark(body)];
    var point := Find(mantissa, '.');
    if point < |mantissa| then Some(mantissa[point + 1..]) else None
  }

  function ExponentTextOf(body: string): Option<string> {
    if Mark(body) < |body| then Some(body[Mark(body) + 1..]) else None
  }

  function BodyOf(token: string): string {
    if token != [] && token[0] == '-' then token[1..] else token
  }

  /** No fraction ends in a zero. In fixed form there is no exponent; in exponent form one nonzero digit stands
      before the point, and the exponent has a sign and no leading zero. */
  predicate CanonicalShape(token: string, fixed: bool) {
    var body := BodyOf(token);
    && (FractionOf(body).Some? ==> FractionOf(body).value != [] && FractionOf(body).value[|FractionOf(body).value| - 1] != '0')
    && (fixed ==> ExponentTextOf(body).None?)
    && (!fixed ==>
          && |WholeOf(body)| == 1 && WholeOf(body)[0] != '0' && ExponentTextOf(body).Some?
          && var e := ExponentTextOf(body).value;
             |e| >= 2 && e[0] in {'+', '-'} && (e[1] == '0' ==> e == "+0"))
  }

  lemma NumeralParts(whole: string, fraction: Option<string>, exponent: Option<string>)
    requires Digits1(whole) && (fraction.Some? ==> Digits1(fraction.value))
    ensures var body := Numeral(whole, fraction, exponent);
            && WholeOf(body) == whole && FractionOf(body) == fraction && ExponentTextOf(body) == exponent
            && BodyOf(body) == body && BodyOf("-" + body) == body
  {
    hide Find, Mark;
    var mantissa := whole + (if fraction.Some? then "." + fraction.value else "");
    var body := Numeral(whole, fraction, exponent);
    assert body == mantissa + (if exponent.Some? then "e" + exponent.value else "");
    assert forall i :: 0 <= i < |mantissa| ==> mantissa[i] != 'e' && mantissa[i] != 'E';
    MarkOf(mantissa, exponent);
    PointOf(whole, fraction);
    assert body[..|mantissa|] == mantissa && mantissa[..|whole|] == whole;
    assert fraction.Some? ==> mantissa[|whole| + 1..] == fraction.value;
    assert exponent.Some? ==> body[|mantissa| + 1..] == exponent.value;
    assert body[0] == whole[0] && ("-" + body)[1..] == body;
  }

  lemma NumberByParts(token: string)
    ensures IsNumber(token) <==>
            var body := BodyOf(token);
            && Digits1(WholeOf(body)) && (WholeOf(body)[0] == '0' ==> |WholeOf(body)| == 1)
            && (FractionOf(body).Some? ==> Digits1(FractionOf(body).value))
            && (ExponentTextOf(body).Some? ==>
                  var e := ExponentTextOf(body).value;
                  Digits1(if e != [] && e[0] in {'+', '-'} then e[1..] else e))
  {
    hide Find, Mark;
  }

  lemma {:induction false} NatTextLead(n: nat)
    ensures NatText(n)[0] == '0' ==> n == 0 && NatText(n) == "0"
  {
    if n >= 10 {
      NatTextLead(n / 10);
    }
  }

  /** A fraction worth writing. */
  predicate Significant(fraction: Option<string>) {
    fraction.Some? ==> Digits1(fraction.value) && fraction.value[|fraction.value| - 1] != '0'
  }

  lemma FixedForm(digits: string, point: int) returns (whole: string, fraction: Option<string>)
    requires AllDigits(digits) && digits != [] && digits[0] != '0' && digits[|digits| - 1] != '0'
    ensures Fixed(digits, point) == Numeral(whole, fraction, None)
    ensures Digits1(whole) && (whole[0] == '0' ==> |whole| == 1) && Significant(fraction)
  {
    hide Zeros, Fixed, Numeral;
    FixedParts(digits, point);
    if point <= 0 {
      whole, fraction := "0", Some(Zeros(-point) + digits);
      assert fraction.value[|fraction.value| - 1] == digits[|digits| - 1];
    } else if point >= |digits| {
      whole, fraction := digits + Zeros(point - |digits|), None;
    } else {
      whole, fraction := digits[..point], Some(digits[point..]);
    }
  }

  lemma FixedParts(digits: string, point: int)
    ensures point <= 0 ==> Fixed(digits, point) == Numeral("0", Some(Zeros(-point) + digits), None)
    ensures 0 < point && point >= |digits| ==> Fixed(digits, point) == Numeral(digits + Zeros(point - |digits|), None, None)
    ensures 0 < point < |digits| ==> Fixed(digits, point) == Numeral(digits[..point], Some(digits[point..]), None)
  {
    hide Zeros;
  }

  lemma ExponentialForm(digits: string, point: int) returns (fraction: Option<string>, sign: char, e: string)
    requires AllDigits(digits) && digits != [] && digits[0] != '0' && digits[|digits| - 1] != '0'
    ensures Exponential(digits, point) == Numeral(digits[..1], fraction, Some([sign] + e))
    ensures Significant(fraction)
    ensures sign in {'+', '-'} && Digits1(e) && (e[0] == '0' ==> sign == '+' && e == "0")
  {
    hide NatText;
    fraction := if |digits| > 1 then Some(digits[1..]) else None;
    if point >= 1 {
      sign, e := '+', NatText(point - 1);
      NatTextLead(point - 1);
      assert "+" + IntText(point - 1) == [sign] + e;
    } else {
      sign, e := '-', NatText(1 - point);
      NatTextLead(1 - point);
      assert "" + IntText(point - 1) == [sign] + e;
    }
  }

  /** The text is a JSON number, in the one shape that its form allows. */
  lemma NumberIsWellFormed(negative: bool, repr: string, fixed: bool)
    requires Printed(repr)
    ensures ExponentOf(repr).Some? && Digits(repr) != []
    ensures IsNumber(NumberText(negative, repr, fixed)) && CanonicalShape(NumberText(negative, repr, fixed), fixed)
  {
    hide Digits, PointAfter, Printed, ExponentOf, Fixed, Exponential, IsNumber, WholeOf, FractionOf, ExponentTextOf, Numeral, BodyOf, CanonicalShape;
    NormalForm(repr);
    var digits, point := Digits(repr), PointAfter(repr);
    var token := NumberText(negative, repr, fixed);
    if fixed {
      var whole, fraction := FixedForm(digits, point);
      NumeralParts(whole, fraction, None);
      SignedText(negative, Fixed(digits, point), token);
      ShapeByParts(token, true, whole, fraction, None);
    } else {
      var fraction, sign, e := ExponentialForm(digits, point);
      NumeralParts(digits[..1], fraction, Some([sign] + e));
      SignedText(negative, Exponential(digits, point), token);
      assert ([sign] + e)[1..] == e;
      assert e == "0" ==> [sign] + e == "+0" || sign == '-';
      ShapeByParts(token, false, digits[..1], fraction, Some([sign] + e));
    }
  }

  lemma ShapeByParts(token: string, fixed: bool, whole: string, fraction: Option<string>, exponent: Option<string>)
    requires WholeOf(BodyOf(token)) == whole && FractionOf(BodyOf(token)) == fraction && ExponentTextOf(BodyOf(token)) == exponent
    requires Digits1(whole) && (whole[0] == '0' ==> |whole| == 1) && Significant(fraction)
    requires fixed ==> exponent.None?
    requires !fixed ==>
      && |whole| == 1 && whole[0] != '0' && exponent.Some? && exponent.value != [] && exponent.value[0] in {'+', '-'}
      && Digits1(exponent.value[1..]) && (exponent.value[1] == '0' ==> exponent.value == "+0")
    ensures IsNumber(token) && CanonicalShape(token, fixed)
  {
    hide IsNumber, WholeOf, FractionOf, ExponentTextOf, BodyOf;
    NumberByParts(token);
  }

  lemma SignedText(negative: bool, body: string, token: string)
    requires BodyOf(body) == body && BodyOf("-" + body) == body && token == (if negative then "-" else "") + body
    ensures BodyOf(token) == body
  {
    assert !negative ==> token == body;
  }

  predicate NumberChars(s: string) { forall i :: 0 <= i < |s| ==> NumberChar(s[i]) }

  lemma NumberIsOneToken(negative: bool, repr: string, fixed: bool)
    requires Printed(repr)
    ensures ExponentOf(repr).Some? && Digits(repr) != []
    ensures NumberChars(NumberText(negative, repr, fixed))
    ensures var t := NumberText(negative, repr, fixed); t != [] && (t[0] == '-' || IsDigit(t[0]))
  {
    hide Digits, PointAfter, Printed, ExponentOf, Fixed, Exponential;
    NormalForm(repr);
    var digits, point := Digits(repr), PointAfter(repr);
    FixedIsOneToken(digits, point);
    ExponentialIsOneToken(digits, point);
  }

  lemma FixedIsOneToken(digits: string, point: int)
    requires AllDigits(digits) && digits != []
    ensures var t := Fixed(digits, point); NumberChars(t) && t != [] && IsDigit(t[0])
  {
    hide Zeros;
  }

  lemma ExponentialIsOneToken(digits: string, point: int)
    requires AllDigits(digits) && digits != []
    ensures var t := Exponential(digits, point); NumberChars(t) && t != [] && IsDigit(t[0])
  {
    hide NatText;
    assert NumberChars(IntText(point - 1));
  }
}
