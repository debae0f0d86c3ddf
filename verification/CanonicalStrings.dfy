/** Canonical strings: JSON escaping, then five replacement passes that make the text safe in HTML and scripts. */
module CanonicalStrings {
  import opened Wrappers
  import opened JsonReader

  const Hex := "0123456789abcdef"

  function Hex4(n: nat): (s: string)
    requires n < 0x10000
    ensures |s| == 4
  {
    [Hex[n / 4096], Hex[n / 256 % 16], Hex[n / 16 % 16], Hex[n % 16]]
  }

  /** The letter of a two-character escape, or a space when there is none. */
  function ShortEscape(c: char): char {
    if c == '"' then '"'
    else if c == '\\' then '\\'
    else if c == '\U{08}' then 'b'
    else if c == '\U{0C}' then 'f'
    else if c == '\n' then 'n'
    else if c == '\r' then 'r'
    else if c == '\t' then 't'
    else ' '
  }

  /** What the JSON serializer writes for one character. */
  function JsonEscape(c: char): (s: string)
    ensures s != []
  {
    if ShortEscape(c) != ' ' then ['\\', ShortEscape(c)]
    else if c < ' ' then "\\u" + Hex4(c as nat)
    else [c]
  }

  function Serialized(s: string): string {
    if s == [] then [] else JsonEscape(s[0]) + Serialized(s[1..])
  }

  function Replace(s: string, c: char, text: string): string {
    if s == [] then [] else (if s[0] == c then text else [s[0]]) + Replace(s[1..], c, text)
  }

  /** The string as the code builds it, pass after pass. */
  function StringText(s: string): string {
    var t0 := "\"" + Serialized(s) + "\"";
    var t1 := Replace(t0, '<', "\\u003c");
    var t2 := Replace(t1, '>', "\\u003e");
    var t3 := Replace(t2, '&', "\\u0026");
    var t4 := Replace(t3, '\U{2028}', "\\u2028");
    Replace(t4, '\U{2029}', "\\u2029")
  }

  /** The place in the order of passes of a character that one of them rewrites; 0 for the others. */
  function PassOf(c: char): nat {
    if c == '<' then 1 else if c == '>' then 2 else if c == '&' then 3
    else if c == '\U{2028}' then 4 else if c == '\U{2029}' then 5 else 0
  }

  /** What the first `n` passes together write for one character. */
  function Escape(n: nat, c: char): (s: string)
    ensures s != []
  {
    if 1 <= PassOf(c) <= n then "\\u" + Hex4(c as nat) else JsonEscape(c)
  }

  function Escaped(n: nat, s: string): string {
    if s == [] then [] else Escape(n, s[0]) + Escaped(n, s[1..])
  }

  lemma {:induction false} ReplaceConcat(s: string, t: string, c: char, text: string)
    ensures Replace(s + t, c, text) == Replace(s, c, text) + Replace(t, c, text)
    decreases |s|
  {
    if s == [] {
      assert s + t == t;
    } else {
      assert (s + t)[1..] == s[1..] + t;
      ReplaceConcat(s[1..], t, c, text);
    }
  }

  lemma {:induction false} ReplaceAbsent(s: string, c: char, text: string)
    requires c !in s
    ensures Replace(s, c, text) == s
    decreases |s|
  {
    if s != [] {
      ReplaceAbsent(s[1..], c, text);
    }
  }

  lemma HexIsPlain(n: nat)
    requires n < 0x10000
    ensures forall c :: c in Hex4(n) ==> PassOf(c) == 0
  {
    assert forall i :: 0 <= i < 16 ==> PassOf(Hex[i]) == 0;
  }

  /** No escape contains a character that any pass rewrites, unless it is that very character. */
  lemma EscapeIsPlain(n: nat, c: char, target: char)
    requires c != target && PassOf(target) > 0
    ensures target !in Escape(n, c)
  {
    hide Hex4, Hex;
    if (1 <= PassOf(c) <= n) || (ShortEscape(c) == ' ' && c < ' ') {
      HexIsPlain(c as nat);
      assert Escape(n, c) == "\\u" + Hex4(c as nat);
    }
  }

  /** One more pass rewrites its own character and nothing else. */
  lemma PassOne(n: nat, c: char, target: char)
    requires PassOf(target) == n + 1
    ensures Replace(Escape(n, c), target, "\\u" + Hex4(target as nat)) == Escape(n + 1, c)
  {
    hide Hex4;
    var text := "\\u" + Hex4(target as nat);
    if c == target {
      assert Escape(n, c) == [c];
      assert Replace([c], target, text) == text + Replace([], target, text);
    } else {
      EscapeIsPlain(n, c, target);
      ReplaceAbsent(Escape(n, c), target, text);
    }
  }

  lemma {:induction false} PassInside(n: nat, s: string, target: char)
    requires PassOf(target) == n + 1
    ensures Replace(Escaped(n, s), target, "\\u" + Hex4(target as nat)) == Escaped(n + 1, s)
    decreases |s|
  {
    hide Hex4, Escape, Replace;
    var text := "\\u" + Hex4(target as nat);
    if s == [] {
      ReplaceAbsent([], target, text);
    } else {
      ReplaceConcat(Escape(n, s[0]), Escaped(n, s[1..]), target, text);
      PassOne(n, s[0], target);
      PassInside(n, s[1..], target);
    }
  }

  lemma Pass(n: nat, s: string, target: char, text: string)
    requires PassOf(target) == n + 1 && text == "\\u" + Hex4(target as nat)
    ensures Replace("\"" + Escaped(n, s) + "\"", target, text) == "\"" + Escaped(n + 1, s) + "\""
  {
    hide Escaped, Replace, Hex4;
    ReplaceConcat("\"" + Escaped(n, s), "\"", target, text);
    ReplaceConcat("\"", Escaped(n, s), target, text);
    ReplaceAbsent("\"", target, text);
    PassInside(n, s, target);
  }

  lemma {:induction false} SerializedIs(s: string)
    ensures Serialized(s) == Escaped(0, s)
    decreases |s|
  {
    if s != [] {
      SerializedIs(s[1..]);
    }
  }

  lemma MarkupCodes()
    ensures Hex4('<' as nat) == "003c" && Hex4('>' as nat) == "003e" && Hex4('&' as nat) == "0026"
  {
  }

  lemma SeparatorCodes()
    ensures Hex4('\U{2028}' as nat) == "2028" && Hex4('\U{2029}' as nat) == "2029"
  {
  }

  /** The passes never touch an escape already written: together they escape character by character. */
  lemma StringTextIs(s: string)
    ensures StringText(s) == "\"" + Escaped(5, s) + "\""
  {
    hide Replace, Escaped, Hex4, Serialized;
    SerializedIs(s);
    MarkupCodes();
    SeparatorCodes();
    assert "\\u" + "003c" == "\\u003c" && "\\u" + "003e" == "\\u003e" && "\\u" + "0026" == "\\u0026";
    assert "\\u" + "2028" == "\\u2028" && "\\u" + "2029" == "\\u2029";
    Pass(0, s, '<', "\\u003c");
    Pass(1, s, '>', "\\u003e");
    Pass(2, s, '&', "\\u0026");
    Pass(3, s, '\U{2028}', "\\u2028");
    Pass(4, s, '\U{2029}', "\\u2029");
  }

  // ------------------------------------------------------ reading it back

  lemma HexReads(n: nat)
    requires n < 16
    ensures HexDigit(Hex[n]) == Some(n)
  {
  }

  lemma Nibbles(n: nat)
    requires n < 0x10000
    ensures n == 4096 * (n / 4096) + 256 * (n / 256 % 16) + 16 * (n / 16 % 16) + n % 16
    ensures n / 4096 < 16
  {
    var a := n / 16;
    var b := a / 16;
    assert n == 16 * a + n % 16 && a == 16 * b + a % 16 && b == 16 * (b / 16) + b % 16;
    assert n / 256 == b && n / 4096 == b / 16;
  }

  lemma HexAppend(digits: string, c: char)
    ensures var front, last := HexNumber(digits), HexDigit(c);
            HexNumber(digits + [c]) == if front.None? || last.None? then None else Some(16 * front.value + last.value)
  {
    assert (digits + [c])[..|digits|] == digits;
  }

  lemma FourRead(w: char, x: char, y: char, z: char, a: nat, b: nat, c: nat, d: nat)
    requires HexDigit(w) == Some(a) && HexDigit(x) == Some(b) && HexDigit(y) == Some(c) && HexDigit(z) == Some(d)
    ensures HexNumber([w, x, y, z]) == Some(4096 * a + 256 * b + 16 * c + d)
  {
    hide HexDigit, HexNumber;
    HexAppend([], w);
    HexAppend([w], x);
    HexAppend([w, x], y);
    HexAppend([w, x, y], z);
    assert HexNumber([]) == Some(0) by { NothingReads(); }
    assert [] + [w] == [w] && [w] + [x] == [w, x] && [w, x] + [y] == [w, x, y] && [w, x, y] + [z] == [w, x, y, z];
  }

  lemma NothingReads()
    ensures HexNumber([]) == Some(0)
  {
  }

  lemma Hex4Reads(n: nat)
    requires n < 0x10000
    ensures HexNumber(Hex4(n)) == Some(n)
  {
    hide HexNumber, HexDigit;
    Nibbles(n);
    var a, b, c, d := n / 4096, n / 256 % 16, n / 16 % 16, n % 16;
    HexReads(a);
    HexReads(b);
    HexReads(c);
    HexReads(d);
    FourRead(Hex[a], Hex[b], Hex[c], Hex[d], a, b, c, d);
  }

  /** Escapes come in three shapes, told apart by their first two characters. */
  lemma EscapeShape(c: char)
    ensures var e := Escape(5, c);
            || (e == [c] && c != '\\' && c != '"' && c >= ' ')
            || (e == ['\\', ShortEscape(c)] && ShortEscape(c) !in {' ', 'u'})
            || (c as nat < 0x10000 && e == ['\\', 'u'] + Hex4(c as nat))
  {
  }

  lemma ShortReads(c: char)
    requires ShortEscape(c) != ' '
    ensures ShortMeaning(ShortEscape(c)) == Some(c)
  {
  }

  lemma EscapeReads(c: char, x: string)
    ensures ReadChar(Escape(5, c) + x) == Some((c, |Escape(5, c)|))
    ensures (Escape(5, c) + x)[0] != '"'
  {
    var e := Escape(5, c);
    var text := e + x;
    EscapeShape(c);
    if e == ['\\', ShortEscape(c)] {
      ShortReads(c);
    } else if e != [c] {
      assert text[2..6] == Hex4(c as nat);
      Hex4Reads(c as nat);
    }
  }

  lemma {:induction false} EscapedReads(s: string, x: string)
    ensures ReadChars(Escaped(5, s) + "\"" + x) == Some((s, x))
    decreases |s|
  {
    hide Escape, ReadChar;
    var text := Escaped(5, s) + "\"" + x;
    if s == [] {
      assert text[1..] == x;
    } else {
      var rest := Escaped(5, s[1..]) + "\"" + x;
      assert text == Escape(5, s[0]) + rest;
      EscapeReads(s[0], rest);
      assert text[|Escape(5, s[0])|..] == rest;
      EscapedReads(s[1..], x);
      assert s == [s[0]] + s[1..];
    }
  }

  /** Read as JSON, the text denotes exactly the string it was written from, and ends where it should. */
  lemma StringReads(s: string, x: string)
    ensures ReadString(StringText(s) + x) == Some((s, x))
  {
    hide StringText, Escaped;
    StringTextIs(s);
    var rest := Escaped(5, s) + "\"" + x;
    assert StringText(s) + x == "\"" + rest;
    assert ("\"" + rest)[1..] == rest;
    EscapedReads(s, x);
  }

  /** So a string's text determines the string and where it ends. */
  lemma StringReadable(s: string, t: string, x: string, y: string)
    requires StringText(s) + x == StringText(t) + y
    ensures s == t && x == y
  {
    hide StringText, ReadString;
    StringReads(s, x);
    StringReads(t, y);
  }

  /** Safe to embed: no control character, no markup and no line separator is left bare. */
  predicate Embeddable(c: char) { c >= ' ' && c !in {'<', '>', '&', '\U{2028}', '\U{2029}'} }

  lemma HexIsEmbeddable(n: nat)
    requires n < 0x10000
    ensures forall c :: c in Hex4(n) ==> Embeddable(c) && ('0' <= c <= '9' || 'a' <= c <= 'f')
  {
    assert forall i :: 0 <= i < 16 ==> Embeddable(Hex[i]) && ('0' <= Hex[i] <= '9' || 'a' <= Hex[i] <= 'f');
  }

  /** Each character takes its shortest form: itself, a two-character escape for the seven that have one, or four
      lower-case hexadecimal digits for the other control characters and the five rewritten ones. */
  lemma EscapeForm(c: char)
    ensures forall d :: d in Escape(5, c) ==> Embeddable(d)
    ensures |Escape(5, c)| == 2 <==> c in {'"', '\\', '\U{08}', '\U{09}', '\U{0A}', '\U{0C}', '\U{0D}'}
    ensures |Escape(5, c)| == 6 <==>
            c in {'<', '>', '&', '\U{2028}', '\U{2029}'}
            || (c < ' ' && c !in {'\U{08}', '\U{09}', '\U{0A}', '\U{0C}', '\U{0D}'})
    ensures |Escape(5, c)| == 6 ==>
            forall d :: d in Escape(5, c)[2..] ==> '0' <= d <= '9' || 'a' <= d <= 'f'
    ensures |Escape(5, c)| !in {2, 6} ==> Escape(5, c) == [c]
  {
    hide Hex4, Hex;
    if c as nat < 0x10000 {
      HexIsEmbeddable(c as nat);
    }
  }

  lemma {:induction false} EscapedIsEmbeddable(s: string)
    ensures forall c :: c in Escaped(5, s) ==> Embeddable(c)
    decreases |s|
  {
    hide Escape;
    if s != [] {
      EscapeForm(s[0]);
      EscapedIsEmbeddable(s[1..]);
    }
  }

  lemma StringIsEmbeddable(s: string)
    ensures forall c :: c in StringText(s) ==> Embeddable(c)
  {
    hide Escaped, StringText;
    StringTextIs(s);
    EscapedIsEmbeddable(s);
  }
}
