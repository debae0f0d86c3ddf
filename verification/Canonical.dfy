/**
 * The canonical JSON text that feeds the idempotency hash. The float printer and the digest are
 * parameters: of the first the code needs that it round-trips, of the second that it does not collide.
 */
module Canonical {
  import opened Wrappers
  import opened JsonValues
  import Floats
  import Decimals
  import opened CanonicalNumbers
  import opened CanonicalStrings
  import opened JsonReader

  type Bits = Floats.Bits
  predicate Positive(b: Bits) {
    Floats.IsFinite(b) && !Floats.IsNegative(b) && !Floats.IsZero(b)
  }

  /** Printing a positive float gives a decimal numeral from which the float can be told. */
  ghost predicate Faithful(repr: Bits -> string) {
    && (forall b: Bits :: Positive(b) ==> Printed(repr(b)))
    && (forall b: Bits, c: Bits :: Positive(b) && Positive(c) && Decimals.Magnitude(repr(b)) == Decimals.Magnitude(repr(c)) ==> b == c)
  }

  /** A printer that keeps the promise. It can be kept: even printing the bare pattern as a number would do. */
  type Printer = repr: Bits -> string | Faithful(repr) ghost witness (FaithfulPrinterExists(); PatternText)

  function PatternText(b: Bits): string { Decimals.NatText(b) }

  /** The floats nearest 1e-6 and 1e21, the bounds of the fixed form. */
  const FixedFrom: Bits := 0x3EB0_C6F7_A0B5_ED8D
  const FixedBelow: Bits := 0x444B_1AE4_D6E2_EF50

  predicate InFixedRange(b: Bits) { FixedFrom <= b < FixedBelow }

  lemma FixedBelowIsExact()
    ensures Floats.Magnitude(FixedBelow) == 1_000_000_000_000_000_000_000.0
  {
    assert Floats.Exponent(FixedBelow) == 1092 && Floats.Fraction(FixedBelow) == 0xB_1AE4_D6E2_EF50;
    hide Floats.Pow2;
    Floats.SmallPowers();
    Floats.Pow2Add(16, 1);
  }

  /** How far a number is from one millionth. */
  function FromMillionth(x: real): real { if x < 0.000001 then 0.000001 - x else x - 0.000001 }

  /** The numbers around the lower bound, in units of two to the minus 72. */
  lemma AroundFixedFrom(b: Bits)
    requires FixedFrom - 1 <= b <= FixedFrom + 1
    ensures Floats.Magnitude(b) == (4_722_366_482_869_645 + (b as int - FixedFrom as int)) as real / 4_722_366_482_869_645_213_696.0
  {
    assert Floats.Exponent(b) == 1003 && Floats.Fraction(b) == b - 1003 * Floats.TwoTo52 by {
      Floats.Quotient(1003, b - 1003 * Floats.TwoTo52, Floats.TwoTo52);
    }
    hide Floats.Pow2, Floats.Exponent, Floats.Fraction;
    Floats.SmallPowers();
    Floats.TwoTos();
    Floats.Pow2Add(4, 4);
    Floats.Pow2Add(64, 8);
  }

  /** No binary64 is nearer to one millionth than the lower bound. */
  lemma FixedFromIsNearest(b: Bits)
    requires b < Floats.TwoTo63
    ensures FromMillionth(Floats.Magnitude(FixedFrom)) <= FromMillionth(Floats.Magnitude(b))
  {
    hide Floats.Magnitude;
    AroundFixedFrom(FixedFrom - 1);
    AroundFixedFrom(FixedFrom);
    AroundFixedFrom(FixedFrom + 1);
    Floats.PatternsOrder(b, FixedFrom - 1);
    Floats.PatternsOrder(FixedFrom - 1, b);
    Floats.PatternsOrder(FixedFrom + 1, b);
  }

  /** Comparing patterns is comparing numbers: fixed form is for numbers from the float at 1e-6 up to below 1e21. */
  lemma FixedRangeIs(b: Bits)
    requires Positive(b)
    ensures InFixedRange(b) <==>
            Floats.Magnitude(FixedFrom) <= Floats.Magnitude(b) < 1_000_000_000_000_000_000_000.0
  {
    hide Floats.Magnitude, Floats.IsFinite, Floats.IsZero;
    FixedBelowIsExact();
    Floats.PatternsOrder(b, FixedFrom);
    Floats.PatternsOrder(b, FixedBelow);
  }

  lemma FaithfulPrinterExists()
    ensures Faithful(PatternText)
  {
    hide Printed, Decimals.Magnitude, PatternText;
    forall b: Bits | Positive(b)
      ensures Printed(PatternText(b)) && Decimals.Magnitude(PatternText(b)) == Some(b as real)
    {
      PatternReads(b);
      assert b > 0;
    }
  }

  lemma PatternReads(b: Bits)
    requires b > 0
    ensures Printed(PatternText(b)) && Decimals.Magnitude(PatternText(b)) == Some(b as real)
  {
    var t := PatternText(b);
    Decimals.NatTextValue(b);
    Decimals.ReadNumeral(t, None, None);
    Decimals.MarkOf(t, None);
    hide Decimals.NatText, Decimals.Mark, Decimals.Magnitude, Decimals.DigitsValue;
    assert Decimals.Numeral(t, None, None) == t && t + "" == t;
    assert Decimals.Pow10(0) == 1.0;
  }

  lemma AbsIsPositive(b: Bits)
    requires Floats.IsFinite(b) && !Floats.IsZero(b)
    ensures Positive(Floats.Abs(b))
  {
    Floats.AbsParts(b);
    Floats.AbsParts(Floats.Abs(b));
    hide Floats.Exponent, Floats.Fraction, Floats.Abs, Floats.IsNegative;
  }

  ghost function FloatText(b: Bits, repr: Printer): Option<string>
  {
    if !Floats.IsFinite(b) then None
    else if Floats.IsZero(b) then Some(if Floats.IsNegative(b) then "-0" else "0")
    else
      AbsIsPositive(b);
      NormalForm(repr(Floats.Abs(b)));
      Some(NumberText(Floats.IsNegative(b), repr(Floats.Abs(b)), InFixedRange(Floats.Abs(b))))
  }

  /** The float a JSON number is read as; integers beyond two to the 53 are refused, not rounded. */
  function F64(n: Number): Option<Bits> {
    match n
    case Unsigned(u) => if u > Floats.MaxExact then None else Some(Floats.OfNat(u))
    case Negative(i) =>
      var m := 0 - i as int;
      if m > Floats.MaxExact then None else
        Floats.OfNatParts(m);
        Some(Floats.OfNat(m) + Floats.TwoTo63)
    case Float(f) => Some(f)
  }

  // Object keys are written in code point order.

  predicate Before(a: string, b: string) {
    b != [] && (a == [] || a[0] < b[0] || (a[0] == b[0] && Before(a[1..], b[1..])))
  }

  lemma {:induction false} BeforeIsTotal(a: string, b: string)
    ensures Before(a, b) || a == b || Before(b, a)
    decreases |a|
  {
    if a != [] && b != [] {
      BeforeIsTotal(a[1..], b[1..]);
      assert a == [a[0]] + a[1..] && b == [b[0]] + b[1..];
    }
  }

  lemma {:induction false} BeforeIsTransitive(a: string, b: string, c: string)
    requires Before(a, b) && Before(b, c)
    ensures Before(a, c)
    decreases |a|
  {
    if a != [] && a[0] == b[0] && b[0] == c[0] {
      BeforeIsTransitive(a[1..], b[1..], c[1..]);
    }
  }

  ghost predicate IsLeast(k: string, keys: set<string>) {
    k in keys && forall o :: o in keys && o != k ==> Before(k, o)
  }

  lemma {:induction false} LeastExists(keys: set<string>)
    requires keys != {}
    ensures exists k :: IsLeast(k, keys)
    decreases |keys|
  {
    var any :| any in keys;
    var others := keys - {any};
    assert forall o :: o in keys && o != any ==> o in others;
    if others == {} {
      assert IsLeast(any, keys);
    } else {
      LeastExists(others);
      var k :| IsLeast(k, others);
      BeforeIsTotal(any, k);
      if Before(any, k) {
        forall o | o in keys && o != any ensures Before(any, o) {
          if o != k { BeforeIsTransitive(any, k, o); }
        }
        assert IsLeast(any, keys);
      } else {
        assert IsLeast(k, keys);
      }
    }
  }

  ghost function SortedKeys(keys: set<string>): (r: seq<string>)
    ensures forall k :: k in keys <==> k in r
    ensures forall i, j :: 0 <= i < j < |r| ==> Before(r[i], r[j])
    decreases |keys|
  {
    if keys == {} then [] else
      LeastExists(keys);
      var k :| IsLeast(k, keys);
      [k] + SortedKeys(keys - {k})
  }

  ghost function Text(v: Json, repr: Printer): Option<string>
    decreases v, 1, 0
  {
    match v
    case Null => Some("null")
    case Bool(b) => Some(if b then "true" else "false")
    case Text(s) => Some(StringText(s))
    case Num(n) => var f := F64(n); if f.None? then None else FloatText(f.value, repr)
    case Array(items) =>
      var t := ItemsText(v, 0, repr);
      if t.None? then None else Some("[" + t.value + "]")
    case Object(fields) =>
      var t := FieldsText(v, SortedKeys(fields.Keys), repr);
      if t.None? then None else Some("{" + t.value + "}")
  }

  ghost function ItemsText(v: Json, i: nat, repr: Printer): Option<string>
    requires v.Array? && i <= |v.items|
    decreases v, 0, |v.items| - i
  {
    if i == |v.items| then Some("") else
      var t := Text(v.items[i], repr);
      var rest := ItemsText(v, i + 1, repr);
      if t.None? || rest.None? then None
      else Some(t.value + (if i + 1 < |v.items| then "," else "") + rest.value)
  }

  ghost function FieldsText(v: Json, keys: seq<string>, repr: Printer): Option<string>
    requires v.Object? && forall k :: k in keys ==> k in v.fields
    decreases v, 0, |keys|
  {
    if keys == [] then Some("") else
      var t := Text(v.fields[keys[0]], repr);
      var rest := FieldsText(v, keys[1..], repr);
      if t.None? || rest.None? then None
      else Some(StringText(keys[0]) + ":" + t.value + (if |keys| > 1 then "," else "") + rest.value)
  }

  /** The same JSON, up to the order of keys and to how a number's float is spelt; the two zeros differ. */
  predicate SameForm(a: Json, b: Json) {
    match (a, b)
    case (Num(m), Num(n)) => F64(m) == F64(n)
    case (Array(x), Array(y)) => |x| == |y| && forall i :: 0 <= i < |x| ==> SameForm(x[i], y[i])
    case (Object(x), Object(y)) => x.Keys == y.Keys && forall k :: k in x ==> SameForm(x[k], y[k])
    case _ => a == b
  }

  /** The sign and decimal value that a float's text reads as. */
  lemma FloatReads(b: Bits, repr: Printer)
    requires Floats.IsFinite(b)
    ensures FloatText(b, repr).Some?
    ensures Floats.IsZero(b) ==> Decimals.ReadDecimal(FloatText(b, repr).value) == Some((Floats.IsNegative(b), 0.0))
    ensures !Floats.IsZero(b) ==>
      (var m := Decimals.Magnitude(repr(Floats.Abs(b)));
       m.Some? && m.value > 0.0 && Decimals.ReadDecimal(FloatText(b, repr).value) == Some((Floats.IsNegative(b), m.value)))
  {
    if Floats.IsZero(b) {
      ZerosRead();
    } else {
      hide Decimals.Magnitude, Decimals.ReadDecimal, NumberText, Floats.Abs;
      AbsIsPositive(b);
      NumberKeepsValue(Floats.IsNegative(b), repr(Floats.Abs(b)), InFixedRange(Floats.Abs(b)));
    }
  }

  lemma ZerosRead()
    ensures Decimals.ReadDecimal("0") == Some((false, 0.0)) && Decimals.ReadDecimal("-0") == Some((true, 0.0))
  {
    hide Decimals.Magnitude, Decimals.Pow10;
    Decimals.ReadNumeral("0", None, None);
    assert Decimals.Numeral("0", None, None) == "0" && "0" + "" == "0";
    assert "-0"[1..] == "0";
  }

  lemma AbsAndSign(b: Bits)
    ensures b == Floats.Abs(b) + (if Floats.IsNegative(b) then Floats.TwoTo63 else 0)
  {
  }

  lemma FloatIsOneToken(b: Bits, repr: Printer)
    requires Floats.IsFinite(b)
    ensures FloatText(b, repr).Some?
    ensures NumberChars(FloatText(b, repr).value)
    ensures var t := FloatText(b, repr).value; t != [] && (t[0] == '-' || Decimals.IsDigit(t[0]))
  {
    if !Floats.IsZero(b) {
      hide NumberText, Floats.Abs;
      AbsIsPositive(b);
      NumberIsOneToken(Floats.IsNegative(b), repr(Floats.Abs(b)), InFixedRange(Floats.Abs(b)));
    }
  }

  /** No accepted number is rounded on its way to the text: so no two integers can share a hash. */
  lemma F64IsExact(n: Number)
    requires F64(n).Some?
    ensures Floats.IsFinite(F64(n).value) && Floats.Value(F64(n).value) == NumberValue(n)
  {
    hide Floats.OfNat, Floats.Magnitude, Floats.Exponent, Floats.Fraction;
    match n
    case Unsigned(u) => Floats.OfNatValue(u);
    case Negative(i) =>
      var m := 0 - i as int;
      Floats.OfNatValue(m);
      var b := Floats.OfNat(m) + Floats.TwoTo63;
      Floats.AbsParts(b);
      assert Floats.Abs(b) == Floats.OfNat(m);
    case Float(f) =>
  }

  // ------------------------------------------------------------- reading it back

  /** What may follow a complete value. */
  predicate Ends(x: string) { x == [] || x[0] in {',', ']', '}'} }

  lemma {:induction false} TokenEnds(s: string, x: string)
    requires NumberChars(s) && Ends(x)
    ensures TokenLength(s + x) == |s|
    decreases |s|
  {
    if s == [] {
      assert s + x == x;
    } else {
      assert (s + x)[1..] == s[1..] + x && (s + x)[0] == s[0];
      TokenEnds(s[1..], x);
    }
  }

  /** The decimal that a float prints as. */
  ghost function NumberForm(b: Bits, repr: Printer): Form
    requires Floats.IsFinite(b)
  {
    if Floats.IsZero(b) then FNumber(Floats.IsNegative(b), 0.0)
    else
      FloatReads(b, repr);
      FNumber(Floats.IsNegative(b), Decimals.Magnitude(repr(Floats.Abs(b))).value)
  }

  /** What an accepted value denotes: members in key order, numbers as their floats print. */
  ghost function FormOf(v: Json, repr: Printer): Form
    requires Text(v, repr).Some?
    decreases v, 1, 0
  {
    match v
    case Null => FNull
    case Bool(b) => FBool(b)
    case Text(s) => FText(s)
    case Num(n) =>
      F64IsExact(n);
      NumberForm(F64(n).value, repr)
    case Array(items) => FArray(ItemForms(v, 0, repr))
    case Object(fields) => FObject(MemberForms(v, SortedKeys(fields.Keys), repr))
  }

  ghost function ItemForms(v: Json, i: nat, repr: Printer): (forms: seq<Form>)
    requires v.Array? && i <= |v.items| && ItemsText(v, i, repr).Some?
    ensures |forms| == |v.items| - i
    decreases v, 0, |v.items| - i
  {
    if i == |v.items| then [] else [FormOf(v.items[i], repr)] + ItemForms(v, i + 1, repr)
  }

  ghost function MemberForms(v: Json, keys: seq<string>, repr: Printer): (forms: seq<(string, Form)>)
    requires v.Object? && (forall k :: k in keys ==> k in v.fields) && FieldsText(v, keys, repr).Some?
    ensures |forms| == |keys| && forall i :: 0 <= i < |keys| ==> forms[i].0 == keys[i]
    decreases v, 0, |keys|
  {
    if keys == [] then [] else [(keys[0], FormOf(v.fields[keys[0]], repr))] + MemberForms(v, keys[1..], repr)
  }

  lemma FloatTextReads(b: Bits, x: string, repr: Printer)
    requires Floats.IsFinite(b) && Ends(x)
    ensures FloatText(b, repr).Some?
    ensures ReadValue(FloatText(b, repr).value + x) == Some((NumberForm(b, repr), x))
  {
    hide FloatText, NumberText, IsNumber, Decimals.ReadDecimal, TokenLength, ReadValue, Decimals.Magnitude, Printed;
    FloatReads(b, repr);
    FloatIsOneToken(b, repr);
    FloatIsNumber(b, repr);
    var t := FloatText(b, repr).value;
    TokenEnds(t, x);
    TokenReads(t, x);
  }

  lemma FirstDecides(text: string, word: string)
    requires word != []
    ensures StartsWith(text, word) ==> text != [] && text[0] == word[0]
    ensures StartsWith(text, word) && |word| == 2 ==> |text| >= 2 && text[1] == word[1]
    ensures |word| == 1 ==> (StartsWith(text, word) <==> text != [] && text[0] == word[0])
  {
  }

  lemma FirstsDecide(text: string)
    ensures forall word :: word in {"null", "true", "false", "\"", "[]", "[", "{}", "{"} ==>
      (StartsWith(text, word) ==> text != [] && text[0] == word[0])
    ensures StartsWith(text, "[]") ==> |text| >= 2 && text[1] == ']'
    ensures StartsWith(text, "{}") ==> |text| >= 2 && text[1] == '}'
    ensures (StartsWith(text, "[") <==> text != [] && text[0] == '[') && (StartsWith(text, "{") <==> text != [] && text[0] == '{')
  {
    hide StartsWith;
    FirstDecides(text, "null");
    FirstDecides(text, "true");
    FirstDecides(text, "false");
    FirstDecides(text, "\"");
    FirstDecides(text, "[]");
    FirstDecides(text, "[");
    FirstDecides(text, "{}");
    FirstDecides(text, "{");
  }

  lemma TokenReads(t: string, x: string)
    requires t != [] && (t[0] == '-' || Decimals.IsDigit(t[0])) && TokenLength(t + x) == |t|
    requires IsNumber(t) && Decimals.ReadDecimal(t).Some?
    ensures var d := Decimals.ReadDecimal(t).value; ReadValue(t + x) == Some((FNumber(d.0, d.1), x))
  {
    hide StartsWith, IsNumber, Decimals.ReadDecimal, TokenLength, ReadString, ReadItems, ReadMembers;
    var text := t + x;
    assert text[..|t|] == t && text[|t|..] == x && text[0] == t[0];
    FirstsDecide(text);
  }

  lemma FloatIsNumber(b: Bits, repr: Printer)
    requires Floats.IsFinite(b)
    ensures FloatText(b, repr).Some? && IsNumber(FloatText(b, repr).value)
  {
    if Floats.IsZero(b) {
      ZeroIsNumber();
    } else {
      hide NumberText, IsNumber, Floats.Abs;
      AbsIsPositive(b);
      NumberIsWellFormed(Floats.IsNegative(b), repr(Floats.Abs(b)), InFixedRange(Floats.Abs(b)));
    }
  }

  lemma ZeroIsNumber()
    ensures IsNumber("0") && IsNumber("-0")
  {
    NumeralParts("0", None, None);
    assert Decimals.Numeral("0", None, None) == "0" && "-" + "0" == "-0";
    hide WholeOf, FractionOf, ExponentTextOf, BodyOf, IsNumber;
    NumberByParts("0");
    NumberByParts("-0");
  }

  /** The first character of a value's text. */
  lemma TextStart(v: Json, repr: Printer)
    requires Text(v, repr).Some?
    ensures Text(v, repr).value != [] && Text(v, repr).value[0] !in {']', '}', ',', ':'}
  {
    hide StringText, FloatText, F64, ItemsText, FieldsText;
    if v.Text? {
      StringTextIs(v.s);
    } else if v.Num? {
      F64IsExact(v.n);
      FloatIsOneToken(F64(v.n).value, repr);
    }
  }

  lemma WordsRead(x: string)
    ensures ReadValue("null" + x) == Some((FNull, x))
    ensures ReadValue("true" + x) == Some((FBool(true), x))
    ensures ReadValue("false" + x) == Some((FBool(false), x))
  {
    hide TokenLength, IsNumber, ReadString, ReadItems, ReadMembers, Decimals.ReadDecimal;
    var n, t, f := "null" + x, "true" + x, "false" + x;
    assert n[..4] == "null" && n[4..] == x;
    assert t[..4] == "true" && t[4..] == x && t[0] == 't';
    assert f[..5] == "false" && f[5..] == x && f[0] == 'f';
  }

  lemma StringValueReads(s: string, x: string)
    ensures ReadValue(StringText(s) + x) == Some((FText(s), x))
  {
    hide StringText, ReadString, TokenLength, IsNumber, ReadItems, ReadMembers, Decimals.ReadDecimal;
    StringReads(s, x);
    assert (StringText(s) + x)[0] == '"' by { StringStarts(s, x); }
  }

  lemma StringStarts(s: string, x: string)
    ensures (StringText(s) + x)[0] == '"'
  {
    hide Escaped, StringText;
    StringTextIs(s);
  }

  /** A bracket that opens a list of at least one. */
  lemma ListOpens(rest: string)
    requires rest != [] && rest[0] != ']' && rest[0] != '}'
    ensures ReadValue("[" + rest) ==
            (var r := ReadItems(rest); if r.None? then None else Some((FArray(r.value.0), r.value.1)))
    ensures ReadValue("{" + rest) ==
            (var r := ReadMembers(rest); if r.None? then None else Some((FObject(r.value.0), r.value.1)))
  {
    hide StartsWith, TokenLength, IsNumber, ReadString, ReadItems, ReadMembers, Decimals.ReadDecimal;
    var a, o := "[" + rest, "{" + rest;
    assert a[0] == '[' && a[1] == rest[0] && a[1..] == rest;
    assert o[0] == '{' && o[1] == rest[0] && o[1..] == rest;
    FirstsDecide(a);
    FirstsDecide(o);
  }

  lemma EmptyLists(x: string)
    ensures ReadValue("[" + "" + "]" + x) == Some((FArray([]), x)) && ReadValue("{" + "" + "}" + x) == Some((FObject([]), x))
  {
    hide TokenLength, IsNumber, ReadString, ReadItems, ReadMembers, Decimals.ReadDecimal;
    var a, o := "[" + "" + "]" + x, "{" + "" + "}" + x;
    assert a[0] == '[' && a[..2] == "[]" && a[2..] == x;
    assert o[0] == '{' && o[..2] == "{}" && o[2..] == x;
  }

  /** Read as JSON, a canonical text denotes the value it was written from, and ends where it should. */
  lemma {:induction false} TextReads(v: Json, x: string, repr: Printer)
    requires Text(v, repr).Some? && Ends(x)
    ensures ReadValue(Text(v, repr).value + x) == Some((FormOf(v, repr), x))
    decreases v, 1, 0
  {
    hide StringText, FloatText, F64, ItemsText, FieldsText, SortedKeys, ReadValue, ItemForms, MemberForms, NumberForm;
    match v
    case Null => WordsRead(x);
    case Bool(_) => WordsRead(x);
    case Text(s) => StringValueReads(s, x);
    case Num(n) =>
      F64IsExact(n);
      FloatTextReads(F64(n).value, x, repr);
    case Array(items) =>
      var t := ItemsText(v, 0, repr).value;
      if items == [] {
        ItemsEnd(v, repr);
        EmptyLists(x);
      } else {
        ItemsRead(v, 0, x, repr);
        ItemsStart(v, 0, x, repr);
        assert "[" + t + "]" + x == "[" + (t + "]" + x);
        ListOpens(t + "]" + x);
      }
    case Object(fields) =>
      var keys := SortedKeys(fields.Keys);
      var t := FieldsText(v, keys, repr).value;
      if keys == [] {
        FieldsEnd(v, repr);
        EmptyLists(x);
      } else {
        FieldsRead(v, keys, x, repr);
        FieldsStart(v, keys, x, repr);
        assert "{" + t + "}" + x == "{" + (t + "}" + x);
        ListOpens(t + "}" + x);
      }
  }

  /** What stands after item `i`: a comma and more items, or the closing bracket. */
  ghost function AfterItem(v: Json, i: nat, x: string, repr: Printer): string
    requires v.Array? && i < |v.items| && ItemsText(v, i, repr).Some?
  {
    (if i + 1 < |v.items| then "," else "") + ItemsText(v, i + 1, repr).value + "]" + x
  }

  lemma ItemsSplit(v: Json, i: nat, x: string, repr: Printer)
    requires v.Array? && i < |v.items| && ItemsText(v, i, repr).Some?
    ensures Text(v.items[i], repr).Some? && ItemsText(v, i + 1, repr).Some?
    ensures ItemsText(v, i, repr).value + "]" + x == Text(v.items[i], repr).value + AfterItem(v, i, x, repr)
    ensures Ends(AfterItem(v, i, x, repr)) && AfterItem(v, i, x, repr) != []
    ensures AfterItem(v, i, x, repr)[0] == (if i + 1 < |v.items| then ',' else ']')
    ensures AfterItem(v, i, x, repr)[1..] == if i + 1 < |v.items| then ItemsText(v, i + 1, repr).value + "]" + x else x
  {
    hide Text;
    var t, comma, rest := Text(v.items[i], repr).value, if i + 1 < |v.items| then "," else "", ItemsText(v, i + 1, repr).value;
    assert t + comma + rest + "]" + x == t + (comma + rest + "]" + x);
  }

  lemma {:induction false} ItemsRead(v: Json, i: nat, x: string, repr: Printer)
    requires v.Array? && i < |v.items| && ItemsText(v, i, repr).Some?
    ensures ReadItems(ItemsText(v, i, repr).value + "]" + x) == Some((ItemForms(v, i, repr), x))
    decreases v, 0, |v.items| - i
  {
    hide Text, ItemsText, ReadValue, FormOf, AfterItem;
    ItemsSplit(v, i, x, repr);
    var after := AfterItem(v, i, x, repr);
    TextReads(v.items[i], after, repr);
    FirstDecides(after, "]");
    FirstDecides(after, ",");
    if i + 1 < |v.items| {
      ItemsRead(v, i + 1, x, repr);
    } else {
      ItemsEnd(v, repr);
      assert ItemForms(v, i, repr) == [FormOf(v.items[i], repr)];
    }
  }

  lemma ItemsStart(v: Json, i: nat, x: string, repr: Printer)
    requires v.Array? && i < |v.items| && ItemsText(v, i, repr).Some?
    ensures (ItemsText(v, i, repr).value + "]" + x)[0] !in {']', '}'}
  {
    hide Text;
    TextStart(v.items[i], repr);
  }

  lemma ItemsEnd(v: Json, repr: Printer)
    requires v.Array?
    ensures ItemsText(v, |v.items|, repr) == Some("") && ItemForms(v, |v.items|, repr) == []
  {
  }

  ghost function AfterField(v: Json, keys: seq<string>, x: string, repr: Printer): string
    requires v.Object? && (forall k :: k in keys ==> k in v.fields)
    requires keys != [] && FieldsText(v, keys, repr).Some?
  {
    (if |keys| > 1 then "," else "") + FieldsText(v, keys[1..], repr).value + "}" + x
  }

  lemma Regroup(key: string, t: string, comma: string, rest: string, x: string)
    ensures key + ":" + t + comma + rest + "}" + x == key + (":" + (t + (comma + rest + "}" + x)))
    ensures comma == "," ==> (comma + rest + "}" + x)[1..] == rest + "}" + x
  {
    var tail := comma + rest + "}" + x;
    assert tail == comma + (rest + "}" + x);
    assert key + ":" + t + comma + rest + "}" + x == (key + ":" + t) + tail;
  }

  lemma FieldsSplit(v: Json, keys: seq<string>, x: string, repr: Printer)
    requires v.Object? && (forall k :: k in keys ==> k in v.fields)
    requires keys != [] && FieldsText(v, keys, repr).Some?
    ensures Text(v.fields[keys[0]], repr).Some? && FieldsText(v, keys[1..], repr).Some?
    ensures FieldsText(v, keys, repr).value + "}" + x ==
            StringText(keys[0]) + (":" + (Text(v.fields[keys[0]], repr).value + AfterField(v, keys, x, repr)))
    ensures Ends(AfterField(v, keys, x, repr)) && AfterField(v, keys, x, repr) != []
    ensures AfterField(v, keys, x, repr)[0] == (if |keys| > 1 then ',' else '}')
    ensures AfterField(v, keys, x, repr)[1..] == if |keys| > 1 then FieldsText(v, keys[1..], repr).value + "}" + x else x
  {
    hide Text, StringText;
    assert |keys| == 1 ==> keys[1..] == [];
    var t, rest := Text(v.fields[keys[0]], repr).value, FieldsText(v, keys[1..], repr).value;
    Regroup(StringText(keys[0]), t, if |keys| > 1 then "," else "", rest, x);
    assert |keys| == 1 ==> AfterField(v, keys, x, repr) == "}" + x;
  }

  lemma {:induction false} FieldsRead(v: Json, keys: seq<string>, x: string, repr: Printer)
    requires v.Object? && (forall k :: k in keys ==> k in v.fields)
    requires keys != [] && FieldsText(v, keys, repr).Some?
    ensures ReadMembers(FieldsText(v, keys, repr).value + "}" + x) == Some((MemberForms(v, keys, repr), x))
    decreases v, 0, |keys|
  {
    hide Text, FieldsText, ReadValue, ReadString, FormOf, StringText, AfterField;
    FieldsSplit(v, keys, x, repr);
    var value := Text(v.fields[keys[0]], repr).value + AfterField(v, keys, x, repr);
    StringReads(keys[0], ":" + value);
    assert (":" + value)[1..] == value && (":" + value)[..1] == ":";
    var after := AfterField(v, keys, x, repr);
    TextReads(v.fields[keys[0]], after, repr);
    FirstDecides(after, "}");
    FirstDecides(after, ",");
    if |keys| > 1 {
      FieldsRead(v, keys[1..], x, repr);
    } else {
      assert keys[1..] == [];
      FieldsEnd(v, repr);
      assert MemberForms(v, keys, repr) == [(keys[0], FormOf(v.fields[keys[0]], repr))];
    }
  }

  lemma FieldsStart(v: Json, keys: seq<string>, x: string, repr: Printer)
    requires v.Object? && (forall k :: k in keys ==> k in v.fields)
    requires keys != [] && FieldsText(v, keys, repr).Some?
    ensures (FieldsText(v, keys, repr).value + "}" + x)[0] !in {']', '}'}
  {
    hide Text, StringText;
    StringStarts(keys[0], "");
    assert StringText(keys[0]) + "" == StringText(keys[0]);
  }

  lemma FieldsEnd(v: Json, repr: Printer)
    requires v.Object?
    ensures FieldsText(v, [], repr) == Some("") && MemberForms(v, [], repr) == []
  {
  }

  // ----------------------------------------------------------------- identity

  lemma NumberFormDetermines(b: Bits, c: Bits, repr: Printer)
    requires Floats.IsFinite(b) && Floats.IsFinite(c) && NumberForm(b, repr) == NumberForm(c, repr)
    ensures b == c
  {
    hide Decimals.Magnitude, Decimals.ReadDecimal, FloatText, Printed;
    FloatReads(b, repr);
    FloatReads(c, repr);
    AbsAndSign(b);
    AbsAndSign(c);
    hide Floats.Abs, Floats.IsNegative, Floats.IsFinite;
    if !Floats.IsZero(b) && !Floats.IsZero(c) {
      AbsIsPositive(b);
      AbsIsPositive(c);
      assert Floats.Abs(b) == Floats.Abs(c);
    }
  }

  lemma FormKind(v: Json, repr: Printer)
    requires Text(v, repr).Some?
    ensures match FormOf(v, repr)
      case FNull => v == Null
      case FBool(b) => v == Bool(b)
      case FNumber(_, _) => v.Num?
      case FText(s) => v == Json.Text(s)
      case FArray(_) => v.Array?
      case FObject(_) => v.Object?
  {
    hide StringText, FloatText, F64, ItemsText, FieldsText, SortedKeys, ItemForms, MemberForms;
  }

  /** Values that denote the same are the same up to key order and the spelling of their floats. */
  lemma {:induction false} FormDetermines(a: Json, b: Json, repr: Printer)
    requires Text(a, repr).Some? && Text(b, repr).Some? && FormOf(a, repr) == FormOf(b, repr)
    ensures SameForm(a, b)
    decreases a, 1, 0
  {
    hide StringText, FloatText, F64, ItemsText, FieldsText, SortedKeys, ItemForms, MemberForms, NumberForm;
    FormKind(a, repr);
    FormKind(b, repr);
    match a
    case Num(_) =>
      F64IsExact(a.n);
      F64IsExact(b.n);
      NumberFormDetermines(F64(a.n).value, F64(b.n).value, repr);
    case Array(_) => ItemsDetermine(a, b, 0, repr);
    case Object(_) =>
      var ks, ls := SortedKeys(a.fields.Keys), SortedKeys(b.fields.Keys);
      MembersDetermine(a, ks, b, ls, repr);
      assert a.fields.Keys == b.fields.Keys;
    case _ =>
  }

  lemma {:induction false} ItemsDetermine(a: Json, b: Json, i: nat, repr: Printer)
    requires a.Array? && b.Array? && i <= |a.items| && i <= |b.items|
    requires ItemsText(a, i, repr).Some? && ItemsText(b, i, repr).Some? && ItemForms(a, i, repr) == ItemForms(b, i, repr)
    ensures |a.items| == |b.items| && forall n :: i <= n < |a.items| ==> SameForm(a.items[n], b.items[n])
    decreases a, 0, |a.items| - i
  {
    hide Text, SameForm, FormOf;
    if i < |a.items| {
      assert ItemForms(a, i, repr)[0] == ItemForms(b, i, repr)[0];
      assert ItemForms(a, i, repr)[1..] == ItemForms(a, i + 1, repr) && ItemForms(b, i, repr)[1..] == ItemForms(b, i + 1, repr);
      FormDetermines(a.items[i], b.items[i], repr);
      ItemsDetermine(a, b, i + 1, repr);
    }
  }

  lemma {:induction false} MembersDetermine(a: Json, ks: seq<string>, b: Json, ls: seq<string>, repr: Printer)
    requires a.Object? && b.Object?
    requires (forall k :: k in ks ==> k in a.fields) && (forall k :: k in ls ==> k in b.fields)
    requires FieldsText(a, ks, repr).Some? && FieldsText(b, ls, repr).Some? && MemberForms(a, ks, repr) == MemberForms(b, ls, repr)
    ensures ks == ls && forall k :: k in ks ==> SameForm(a.fields[k], b.fields[k])
    decreases a, 0, |ks|
  {
    hide Text, SameForm, FormOf, StringText;
    if ks != [] {
      var m, n := MemberForms(a, ks, repr), MemberForms(b, ls, repr);
      assert m[0] == n[0] && m[1..] == MemberForms(a, ks[1..], repr) && n[1..] == MemberForms(b, ls[1..], repr);
      FormDetermines(a.fields[ks[0]], b.fields[ls[0]], repr);
      MembersDetermine(a, ks[1..], b, ls[1..], repr);
      assert ks == [ks[0]] + ks[1..] && ls == [ls[0]] + ls[1..];
    }
  }

  /** A value's text determines the value and where it ends: no canonical text is a proper prefix of another. */
  lemma TextReadable(a: Json, b: Json, x: string, y: string, repr: Printer)
    requires Text(a, repr).Some? && Text(b, repr).Some? && Ends(x) && Ends(y)
    requires Text(a, repr).value + x == Text(b, repr).value + y
    ensures SameForm(a, b) && x == y
  {
    hide Text, SameForm, ReadValue, FormOf;
    TextReads(a, x, repr);
    TextReads(b, y, repr);
    FormDetermines(a, b, repr);
  }

  /** Values of the same form have the same text, or are both refused. */
  lemma {:induction false} SameFormSameText(a: Json, b: Json, repr: Printer)
    requires SameForm(a, b)
    ensures Text(a, repr) == Text(b, repr)
    decreases a, 1, 0
  {
    hide StringText, FloatText, F64, ItemsText, FieldsText, SortedKeys;
    match a
    case Array(_) => SameItems(a, b, 0, repr);
    case Object(_) => SameFields(a, b, SortedKeys(a.fields.Keys), repr);
    case _ =>
  }

  lemma {:induction false} SameItems(a: Json, b: Json, i: nat, repr: Printer)
    requires a.Array? && b.Array? && SameForm(a, b) && i <= |a.items|
    ensures ItemsText(a, i, repr) == ItemsText(b, i, repr)
    decreases a, 0, |a.items| - i
  {
    hide Text;
    if i < |a.items| {
      SameFormSameText(a.items[i], b.items[i], repr);
      SameItems(a, b, i + 1, repr);
    }
  }

  lemma {:induction false} SameFields(a: Json, b: Json, keys: seq<string>, repr: Printer)
    requires a.Object? && b.Object? && SameForm(a, b) && forall k :: k in keys ==> k in a.fields
    ensures FieldsText(a, keys, repr) == FieldsText(b, keys, repr)
    decreases a, 0, |keys|
  {
    hide Text;
    if keys != [] {
      SameFormSameText(a.fields[keys[0]], b.fields[keys[0]], repr);
      SameFields(a, b, keys[1..], repr);
    }
  }

  /** Accepted values have equal canonical texts exactly when they are the same JSON. */
  lemma CanonicalIffSame(a: Json, b: Json, repr: Printer)
    requires Text(a, repr).Some? && Text(b, repr).Some?
    ensures Text(a, repr) == Text(b, repr) <==> SameForm(a, b)
  {
    hide Text, SameForm;
    if SameForm(a, b) {
      SameFormSameText(a, b, repr);
    }
    if Text(a, repr) == Text(b, repr) {
      TextReadable(a, b, "", "", repr);
    }
  }

  // ------------------------------------------------------------------ refusal

  /** Some integer in the value is beyond two to the 53. */
  predicate HasUnsafe(v: Json) {
    match v
    case Num(Unsigned(u)) => u > 9_007_199_254_740_992
    case Num(Negative(i)) => i < -9_007_199_254_740_992
    case Array(items) => exists i :: 0 <= i < |items| && HasUnsafe(items[i])
    case Object(fields) => exists k :: k in fields && HasUnsafe(fields[k])
    case _ => false
  }

  /** A value is refused exactly when it holds an integer that binary64 might not tell from another. */
  lemma {:induction false} RefusedIffUnsafe(v: Json, repr: Printer)
    ensures Text(v, repr).None? <==> HasUnsafe(v)
    decreases v, 1, 0
  {
    hide StringText, FloatText, ItemsText, FieldsText, SortedKeys, Floats.OfNat;
    match v
    case Num(n) =>
      if F64(n).Some? {
        F64IsExact(n);
        FloatReads(F64(n).value, repr);
      }
    case Array(_) => ItemsRefused(v, 0, repr);
    case Object(fields) => FieldsRefused(v, SortedKeys(fields.Keys), repr);
    case _ =>
  }

  lemma {:induction false} ItemsRefused(v: Json, i: nat, repr: Printer)
    requires v.Array? && i <= |v.items|
    ensures ItemsText(v, i, repr).None? <==> exists j :: i <= j < |v.items| && HasUnsafe(v.items[j])
    decreases v, 0, |v.items| - i
  {
    hide Text, HasUnsafe;
    if i < |v.items| {
      RefusedIffUnsafe(v.items[i], repr);
      ItemsRefused(v, i + 1, repr);
    }
  }

  lemma {:induction false} FieldsRefused(v: Json, keys: seq<string>, repr: Printer)
    requires v.Object? && forall k :: k in keys ==> k in v.fields
    ensures FieldsText(v, keys, repr).None? <==> exists k :: k in keys && HasUnsafe(v.fields[k])
    decreases v, 0, |keys|
  {
    hide Text, HasUnsafe, StringText;
    if keys != [] {
      RefusedIffUnsafe(v.fields[keys[0]], repr);
      FieldsRefused(v, keys[1..], repr);
      assert forall k :: k in keys <==> k == keys[0] || k in keys[1..];
    }
  }

  // The scoped hash.

  /** A digest does not collide, and is written in lower-case hexadecimal. */
  ghost predicate Collisionless(digest: string -> string) {
    && (forall s, t :: digest(s) == digest(t) ==> s == t)
    && (forall s :: forall i :: 0 <= i < |digest(s)| ==> digest(s)[i] in Hex)
  }

  /** Spelling out every character in hexadecimal would be one. */
  type Digest = digest: string -> string | Collisionless(digest) ghost witness (SpellingIsCollisionless(); Spelling)

  function Spelled(c: char): (s: string)
    ensures |s| == 8
  {
    Hex4(c as nat / 0x10000) + Hex4(c as nat % 0x10000)
  }

  function Spelling(s: string): string {
    if s == [] then [] else Spelled(s[0]) + Spelling(s[1..])
  }

  lemma SpellingIsCollisionless()
    ensures Collisionless(Spelling)
  {
    forall s, t | Spelling(s) == Spelling(t) ensures s == t {
      SpellingTells(s, t);
    }
    forall s ensures forall i :: 0 <= i < |Spelling(s)| ==> Spelling(s)[i] in Hex {
      SpellingIsHex(s);
    }
  }

  lemma {:induction false} SpellingTells(s: string, t: string)
    requires Spelling(s) == Spelling(t)
    ensures s == t
    decreases |s|
  {
    hide Spelled;
    if s != [] && t != [] {
      var x, y := Spelling(s), Spelling(t);
      assert x[..8] == Spelled(s[0]) && y[..8] == Spelled(t[0]);
      assert x[8..] == Spelling(s[1..]) && y[8..] == Spelling(t[1..]);
      SpelledTells(s[0], t[0]);
      SpellingTells(s[1..], t[1..]);
      assert s == [s[0]] + s[1..] && t == [t[0]] + t[1..];
    }
  }

  lemma SpelledTells(c: char, d: char)
    requires Spelled(c) == Spelled(d)
    ensures c == d
  {
    var m, n := c as nat, d as nat;
    assert Spelled(c)[..4] == Hex4(m / 0x10000) && Spelled(d)[..4] == Hex4(n / 0x10000);
    assert Spelled(c)[4..] == Hex4(m % 0x10000) && Spelled(d)[4..] == Hex4(n % 0x10000);
    hide Hex4, Spelled;
    Hex4Reads(m / 0x10000);
    Hex4Reads(n / 0x10000);
    Hex4Reads(m % 0x10000);
    Hex4Reads(n % 0x10000);
    assert m == 0x10000 * (m / 0x10000) + m % 0x10000 && n == 0x10000 * (n / 0x10000) + n % 0x10000;
  }

  lemma {:induction false} SpellingIsHex(s: string)
    ensures forall i :: 0 <= i < |Spelling(s)| ==> Spelling(s)[i] in Hex
    decreases |s|
  {
    if s != [] {
      Hex4IsHex(s[0] as nat / 0x10000);
      Hex4IsHex(s[0] as nat % 0x10000);
      hide Hex4;
      SpellingIsHex(s[1..]);
    }
  }

  lemma Hex4IsHex(n: nat)
    requires n < 0x10000
    ensures forall i :: 0 <= i < 4 ==> Hex4(n)[i] in Hex
  {
    Nibbles(n);
  }

  ghost function ScopedHash(input: Json, brand: string, repr: Printer, digest: Digest): Option<string>
  {
    var raw := Text(input, repr);
    if raw.None? then None else
      var hash := digest(raw.value);
      if brand == "" then Some(hash) else
        var scope := Text(Array([Json.Text(brand), Json.Text(hash)]), repr);
        if scope.None? then None else Some("scope-v1:" + digest(scope.value))
  }

  lemma ScopeText(brand: string, hash: string, repr: Printer)
    ensures Text(Array([Json.Text(brand), Json.Text(hash)]), repr).Some?
  {
    hide StringText;
    var v := Array([Json.Text(brand), Json.Text(hash)]);
    assert ItemsText(v, 2, repr) == Some("");
    assert ItemsText(v, 1, repr).Some?;
    assert ItemsText(v, 0, repr).Some?;
  }

  /** Without a scope the hash is the digest of the text; with one it is the tagged digest of a text that denotes the
      pair of scope and digest. */
  lemma ScopedHashForm(input: Json, brand: string, repr: Printer, digest: Digest)
    ensures ScopedHash(input, brand, repr, digest).None? <==> HasUnsafe(input)
    ensures !HasUnsafe(input) && brand == "" ==>
      Text(input, repr).Some? && ScopedHash(input, brand, repr, digest) == Some(digest(Text(input, repr).value))
    ensures !HasUnsafe(input) && brand != "" ==>
      Text(input, repr).Some? && exists scope: string ::
        && ReadValue(scope) == Some((FArray([FText(brand), FText(digest(Text(input, repr).value))]), ""))
        && ScopedHash(input, brand, repr, digest) == Some("scope-v1:" + digest(scope))
  {
    hide Text, ReadValue, HasUnsafe;
    RefusedIffUnsafe(input, repr);
    if !HasUnsafe(input) {
      var hash := digest(Text(input, repr).value);
      var pair := Array([Json.Text(brand), Json.Text(hash)]);
      ScopeText(brand, hash, repr);
      TextReads(pair, "", repr);
      PairForm(brand, hash, repr);
      var scope := Text(pair, repr).value;
      assert scope + "" == scope;
    }
  }

  lemma PairForm(a: string, b: string, repr: Printer)
    ensures Text(Array([Json.Text(a), Json.Text(b)]), repr).Some?
    ensures FormOf(Array([Json.Text(a), Json.Text(b)]), repr) == FArray([FText(a), FText(b)])
  {
    hide StringText;
    ScopeText(a, b, repr);
    var v := Array([Json.Text(a), Json.Text(b)]);
    assert ItemsText(v, 0, repr).Some? && ItemsText(v, 1, repr).Some? && ItemsText(v, 2, repr) == Some("");
    assert ItemForms(v, 2, repr) == [];
    assert ItemForms(v, 1, repr) == [FText(b)];
    assert ItemForms(v, 0, repr) == [FText(a)] + [FText(b)];
  }

  /** Equal scoped hashes mean the same input in the same account scope, and conversely. */
  lemma ScopedHashIdentifies(a: Json, brandA: string, b: Json, brandB: string, repr: Printer, digest: Digest)
    requires Text(a, repr).Some? && Text(b, repr).Some?
    ensures ScopedHash(a, brandA, repr, digest) == ScopedHash(b, brandB, repr, digest) <==>
            brandA == brandB && SameForm(a, b)
  {
    hide Text, SameForm;
    var hashA, hashB := digest(Text(a, repr).value), digest(Text(b, repr).value);
    var scopeA, scopeB := Array([Json.Text(brandA), Json.Text(hashA)]), Array([Json.Text(brandB), Json.Text(hashB)]);
    ScopeText(brandA, hashA, repr);
    ScopeText(brandB, hashB, repr);
    CanonicalIffSame(a, b, repr);
    CanonicalIffSame(scopeA, scopeB, repr);
    SamePairs(brandA, hashA, brandB, hashB);
    var p, q := digest(Text(scopeA, repr).value), digest(Text(scopeB, repr).value);
    Prefixed(p, q);
    Prefixed(hashA, q);
    Prefixed(hashB, p);
  }

  lemma SamePairs(a: string, b: string, c: string, d: string)
    ensures SameForm(Array([Json.Text(a), Json.Text(b)]), Array([Json.Text(c), Json.Text(d)])) <==> a == c && b == d
  {
    var x, y := [Json.Text(a), Json.Text(b)], [Json.Text(c), Json.Text(d)];
    assert SameForm(Array(x), Array(y)) <==> SameForm(x[0], y[0]) && SameForm(x[1], y[1]);
  }

  /** A scoped digest is never mistaken for a bare one. */
  lemma Prefixed(p: string, q: string)
    ensures "scope-v1:" + p == "scope-v1:" + q <==> p == q
    ensures (forall i :: 0 <= i < |p| ==> p[i] in Hex) ==> p != "scope-v1:" + q
  {
    var tag := "scope-v1:";
    assert (tag + p)[|tag|..] == p && (tag + q)[|tag|..] == q;
    assert (tag + q)[0] == 's' && 's' !in Hex;
  }
}
