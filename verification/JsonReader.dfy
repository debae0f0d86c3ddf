/** A reader of compact JSON text, written from sections 3 to 7 of RFC 8259. It knows nothing of the writer. */
module JsonReader {
  import opened Wrappers
  import opened Texts
  import opened Decimals

  /** What JSON text denotes: numbers by sign and decimal value, objects by their members in order. */
  datatype Form =
    | FNull
    | FBool(b: bool)
    | FNumber(negative: bool, magnitude: real)
    | FText(s: string)
    | FArray(items: seq<Form>)
    | FObject(members: seq<(string, Form)>)

  // ------------------------------------------------------- strings, section 7

  function HexDigit(c: char): Option<nat> {
    if '0' <= c <= '9' then Some(c as nat - '0' as nat)
    else if 'a' <= c <= 'f' then Some(c as nat - 'a' as nat + 10)
    else if 'A' <= c <= 'F' then Some(c as nat - 'A' as nat + 10)
    else None
  }

  function HexNumber(digits: string): Option<nat> {
    if digits == [] then Some(0)
    else
      var front, last := HexNumber(digits[..|digits| - 1]), HexDigit(digits[|digits| - 1]);
      if front.None? || last.None? then None else Some(16 * front.value + last.value)
  }

  /** The character after a backslash, other than `u`. */
  function ShortMeaning(c: char): Option<char> {
    match c
    case '"' => Some('"')
    case '\\' => Some('\\')
    case '/' => Some('/')
    case 'b' => Some('\U{08}')
    case 'f' => Some('\U{0C}')
    case 'n' => Some('\U{0A}')
    case 'r' => Some('\U{0D}')
    case 't' => Some('\U{09}')
    case _ => None
  }

  /** One character of a string and how much text it took; surrogate escapes are not read. */
  function ReadChar(text: string): (r: Option<(char, nat)>)
    ensures r.Some? ==> 1 <= r.value.1 <= |text|
  {
    if text == [] || text[0] < ' ' || text[0] == '"' then None
    else if text[0] != '\\' then Some((text[0], 1))
    else if |text| < 2 then None
    else if text[1] != 'u' then
      var c := ShortMeaning(text[1]);
      if c.None? then None else Some((c.value, 2))
    else if |text| < 6 then None
    else
      var code := HexNumber(text[2..6]);
      if code.None? || code.value >= 0x10000 || 0xD800 <= code.value < 0xE000 then None else Some((code.value as char, 6))
  }

  /** The rest of a string after its opening quote, and the text after its closing quote. */
  function ReadChars(text: string): (r: Option<(string, string)>)
    ensures r.Some? ==> |r.value.1| < |text|
    decreases |text|
  {
    if text != [] && text[0] == '"' then Some(("", text[1..]))
    else
      var c := ReadChar(text);
      if c.None? then None
      else
        var more := ReadChars(text[c.value.1..]);
        if more.None? then None else Some(([c.value.0] + more.value.0, more.value.1))
  }

  function ReadString(text: string): (r: Option<(string, string)>)
    ensures r.Some? ==> |r.value.1| < |text|
  {
    if text == [] || text[0] != '"' then None else ReadChars(text[1..])
  }

  // ------------------------------------------------------- numbers, section 6

  predicate NumberChar(c: char) { IsDigit(c) || c in {'.', '-', '+', 'e', 'E'} }

  function TokenLength(text: string): (n: nat)
    ensures n <= |text| && (forall i :: 0 <= i < n ==> NumberChar(text[i])) && (n < |text| ==> !NumberChar(text[n]))
  {
    if text == [] || !NumberChar(text[0]) then 0 else 1 + TokenLength(text[1..])
  }

  predicate Digits1(s: string) { s != [] && AllDigits(s) }

  /** [ minus ] int [ frac ] [ exp ] */
  predicate IsNumber(token: string) {
    var body := if token != [] && token[0] == '-' then token[1..] else token;
    var mark := Mark(body);
    var mantissa := body[..mark];
    var point := Find(mantissa, '.');
    var whole := mantissa[..point];
    && Digits1(whole) && (whole[0] == '0' ==> |whole| == 1)
    && (point < |mantissa| ==> Digits1(mantissa[point + 1..]))
    && (mark < |body| ==>
          var exponent := body[mark + 1..];
          Digits1(if exponent != [] && exponent[0] in {'+', '-'} then exponent[1..] else exponent))
  }

  // ------------------------------------------- values, arrays and objects, sections 3 to 5

  predicate StartsWith(text: string, word: string) { |word| <= |text| && text[..|word|] == word }

  function ReadValue(text: string): (r: Option<(Form, string)>)
    ensures r.Some? ==> |r.value.1| < |text|
    decreases |text|, 1
  {
    if StartsWith(text, "null") then Some((FNull, text[4..]))
    else if StartsWith(text, "true") then Some((FBool(true), text[4..]))
    else if StartsWith(text, "false") then Some((FBool(false), text[5..]))
    else if StartsWith(text, "\"") then
      var s := ReadString(text);
      if s.None? then None else Some((FText(s.value.0), s.value.1))
    else if StartsWith(text, "[]") then Some((FArray([]), text[2..]))
    else if StartsWith(text, "[") then
      var items := ReadItems(text[1..]);
      if items.None? then None else Some((FArray(items.value.0), items.value.1))
    else if StartsWith(text, "{}") then Some((FObject([]), text[2..]))
    else if StartsWith(text, "{") then
      var members := ReadMembers(text[1..]);
      if members.None? then None else Some((FObject(members.value.0), members.value.1))
    else
      var token := text[..TokenLength(text)];
      var number := ReadDecimal(token);
      if token == [] || !IsNumber(token) || number.None? then None
      else Some((FNumber(number.value.0, number.value.1), text[|token|..]))
  }

  /** One or more values, each followed by a comma but the last by a closing bracket. */
  function ReadItems(text: string): (r: Option<(seq<Form>, string)>)
    ensures r.Some? ==> |r.value.1| < |text|
    decreases |text|, 2
  {
    var v := ReadValue(text);
    if v.None? then None
    else if StartsWith(v.value.1, "]") then Some(([v.value.0], v.value.1[1..]))
    else if StartsWith(v.value.1, ",") then
      var more := ReadItems(v.value.1[1..]);
      if more.None? then None else Some(([v.value.0] + more.value.0, more.value.1))
    else None
  }

  function ReadMembers(text: string): (r: Option<(seq<(string, Form)>, string)>)
    ensures r.Some? ==> |r.value.1| < |text|
    decreases |text|, 2
  {
    var k := ReadString(text);
    if k.None? || !StartsWith(k.value.1, ":") then None
    else
      var v := ReadValue(k.value.1[1..]);
      if v.None? then None
      else if StartsWith(v.value.1, "}") then Some(([(k.value.0, v.value.0)], v.value.1[1..]))
      else if StartsWith(v.value.1, ",") then
        var more := ReadMembers(v.value.1[1..]);
        if more.None? then None else Some(([(k.value.0, v.value.0)] + more.value.0, more.value.1))
      else None
  }
}
