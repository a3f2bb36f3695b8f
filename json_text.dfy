/**
 * `json.dumps(value, ensure_ascii=False)` with the default separators
 * (", " between items, ": " after a key), and a decoder for the string
 * literals it writes, which shows that the escaping loses nothing.
 */
module JsonText {
  import opened Wrappers
  import opened PyText
  import opened PyValue

  function HexDigit(d: nat): char
    requires d < 16
  {
    "0123456789abcdef"[d]
  }

  /**
   * One character of a string literal: the quote, the backslash and the
   * control characters below U+0020 are escaped (the five with a short form
   * use it); everything else, non-ASCII included, is written as it is.
   */
  function JsonChar(c: char): (r: string)
    ensures r != [] && forall i :: 0 <= i < |r| ==> r[i] as int >= 0x20
  {
    if c == '"' then "\\\""
    else if c == '\\' then "\\\\"
    else if c == '\n' then "\\n"
    else if c == '\r' then "\\r"
    else if c == '\t' then "\\t"
    else if c as int == 8 then "\\b"
    else if c as int == 12 then "\\f"
    else if c as int < 0x20 then "\\u00" + [HexDigit(c as int / 16), HexDigit(c as int % 16)]
    else [c]
  }

  /** The body of a string literal: no raw control character is left in it. */
  function JsonEscape(s: string): (r: string)
    ensures forall i :: 0 <= i < |r| ==> r[i] as int >= 0x20
    ensures |r| >= |s|
  {
    if s == [] then [] else JsonChar(s[0]) + JsonEscape(s[1..])
  }

  function JsonString(s: string): string {
    "\"" + JsonEscape(s) + "\""
  }

  /** `json.dumps(v, ensure_ascii=False)`. */
  function JsonDumps(v: Value): string
    decreases v
  {
    match v
    case VNone => "null"
    case VBool(b) => if b then "true" else "false"
    case VInt(i) => IntToString(i)
    case VStr(s) => JsonString(s)
    case VList(items) =>
      "[" + Join(seq(|items|, i requires 0 <= i < |items| => JsonDumps(items[i])), ", ") + "]"
    case VDict(d) =>
      "{" + Join(seq(|d|, i requires 0 <= i < |d| => JsonString(d[i].key) + ": " + JsonDumps(d[i].val)), ", ") + "}"
  }

  // ---------------------------------------------------------------------------
  // Reading a string literal's body back

  function HexValue(c: char): Option<nat> {
    if '0' <= c <= '9' then Some(c as int - '0' as int)
    else if 'a' <= c <= 'f' then Some(c as int - 'a' as int + 10)
    else if 'A' <= c <= 'F' then Some(c as int - 'A' as int + 10)
    else None
  }

  /** Four hex digits as a number. */
  function Hex4(s: string): Option<nat>
    requires |s| == 4
  {
    var a :- HexValue(s[0]);
    var b :- HexValue(s[1]);
    var c :- HexValue(s[2]);
    var d :- HexValue(s[3]);
    Some(((a * 16 + b) * 16 + c) * 16 + d)
  }

  /** The character a `\uXXXX` escape stands for; surrogate halves are not decoded. */
  function CodePoint(n: nat): Option<char> {
    if n < 0xD800 || (0xE000 <= n < 0x10000) then Some(n as char) else None
  }

  /** The character a short escape `\x` stands for. */
  function ShortEscape(c: char): Option<char> {
    if c == '"' then Some('"')
    else if c == '\\' then Some('\\')
    else if c == '/' then Some('/')
    else if c == 'n' then Some('\n')
    else if c == 'r' then Some('\r')
    else if c == 't' then Some('\t')
    else if c == 'b' then Some(8 as char)
    else if c == 'f' then Some(12 as char)
    else None
  }

  /**
   * The string denoted by the body of a JSON string literal, or None when the
   * body is malformed (a raw quote or control character, a bad escape).
   */
  function Unescape(s: string): Option<string>
    decreases |s|
  {
    if s == [] then Some([])
    else if s[0] == '"' || s[0] as int < 0x20 then None
    else if s[0] != '\\' then
      var r :- Unescape(s[1..]);
      Some([s[0]] + r)
    else if |s| < 2 then None
    else if s[1] == 'u' then
      if |s| < 6 then None
      else
        var n :- Hex4(s[2..6]);
        var c :- CodePoint(n);
        var r :- Unescape(s[6..]);
        Some([c] + r)
    else
      var c :- ShortEscape(s[1]);
      var r :- Unescape(s[2..]);
      Some([c] + r)
  }

  lemma HexDigitValue(d: nat)
    requires d < 16
    ensures HexValue(HexDigit(d)) == Some(d)
  {
  }

  /** A control character without a short form is read back from its `\u00XX` escape. */
  lemma UnescapeControl(c: char, rest: string)
    requires c as int < 0x20 && c != '\n' && c != '\r' && c != '\t' && c as int != 8 && c as int != 12
    ensures Unescape(JsonChar(c) + rest) ==
      match Unescape(rest)
      case Some(r) => Some([c] + r)
      case None => None
  {
    var s := JsonChar(c) + rest;
    var n := c as int;
    HexDigitValue(n / 16);
    HexDigitValue(n % 16);
    assert s[2..6] == ['0', '0', HexDigit(n / 16), HexDigit(n % 16)];
    assert Hex4(s[2..6]) == Some(n);
    assert s[6..] == rest;
  }

  /** A character with a two-character escape is read back from it. */
  lemma UnescapeShort(c: char, rest: string)
    requires |JsonChar(c)| == 2
    ensures Unescape(JsonChar(c) + rest) ==
      match Unescape(rest)
      case Some(r) => Some([c] + r)
      case None => None
  {
    var s := JsonChar(c) + rest;
    assert s[2..] == rest;
  }

  /** A character written as it is is read back as it is. */
  lemma UnescapePlain(c: char, rest: string)
    requires |JsonChar(c)| == 1
    ensures Unescape(JsonChar(c) + rest) ==
      match Unescape(rest)
      case Some(r) => Some([c] + r)
      case None => None
  {
    var s := JsonChar(c) + rest;
    assert s[1..] == rest;
  }

  /** Decoding undoes the escaping of one character. */
  lemma UnescapeChar(c: char, rest: string)
    ensures Unescape(JsonChar(c) + rest) ==
      match Unescape(rest)
      case Some(r) => Some([c] + r)
      case None => None
  {
    if c as int < 0x20 && c != '\n' && c != '\r' && c != '\t' && c as int != 8 && c as int != 12 {
      UnescapeControl(c, rest);
    } else if |JsonChar(c)| == 2 {
      UnescapeShort(c, rest);
    } else {
      UnescapePlain(c, rest);
    }
  }

  /** Escaping loses nothing: the written literal decodes to the original string. */
  lemma {:induction false} UnescapeEscape(s: string)
    ensures Unescape(JsonEscape(s)) == Some(s)
    decreases |s|
  {
    if s != [] {
      UnescapeEscape(s[1..]);
      UnescapeChar(s[0], JsonEscape(s[1..]));
      assert [s[0]] + s[1..] == s;
    }
  }

  /** Different strings are written as different literals. */
  lemma JsonStringInjective(s: string, t: string)
    requires JsonString(s) == JsonString(t)
    ensures s == t
  {
    assert JsonEscape(s) == JsonString(s)[1..|JsonString(s)| - 1];
    assert JsonEscape(t) == JsonString(t)[1..|JsonString(t)| - 1];
    UnescapeEscape(s);
    UnescapeEscape(t);
  }
}
