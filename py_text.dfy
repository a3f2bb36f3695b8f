/**
 * The parts of Python's `str` that the scripts use, over `string` (a sequence
 * of Unicode scalar values): whitespace, find, strip, replace, join, decimal
 * rendering of integers and `html.escape`.
 */
module PyText {
  import opened Wrappers

  /**
   * `str.isspace()`, which is also what `str.strip()` removes and what the
   * regular-expression class `\s` matches on str patterns.
   */
  predicate IsSpace(c: char) {
    var n := c as int;
    || (9 <= n <= 13) || (28 <= n <= 32) || n == 0x85 || n == 0xA0 || n == 0x1680
    || (0x2000 <= n <= 0x200A) || n == 0x2028 || n == 0x2029 || n == 0x202F
    || n == 0x205F || n == 0x3000
  }

  predicate IsSlash(c: char) { c == '/' }

  predicate AllSpace(s: string) {
    forall i :: 0 <= i < |s| ==> IsSpace(s[i])
  }

  /** Regrouping a concatenation; stated once so that proofs need not reach for extensionality. */
  lemma Assoc(a: string, b: string, c: string)
    ensures a + (b + c) == (a + b) + c
  {
  }

  /** The first character of a concatenation with a non-empty left part, and what follows it. */
  lemma SplitFirst(a: string, b: string)
    requires a != []
    ensures (a + b)[0] == a[0] && (a + b)[1..] == a[1..] + b && a == [a[0]] + a[1..]
  {
  }

  lemma EmptyLeft(a: string, b: string)
    requires a == []
    ensures a + b == b
  {
  }

  /** The two parts of a concatenation, recovered by slicing. */
  lemma PrefixParts(a: string, b: string)
    ensures (a + b)[..|a|] == a && (a + b)[|a|..] == b && IsPrefix(a, a + b)
  {
  }

  /** A suffix split at a later index. */
  lemma SliceSplit(s: string, i: nat, j: nat)
    requires i <= j <= |s|
    ensures s[i..] == s[i..j] + s[j..]
  {
  }

  predicate IsPrefix(p: string, s: string) {
    |p| <= |s| && s[..|p|] == p
  }

  /** `s.find(t)`: the index of the first occurrence of `t` in `s`. */
  function Find(s: string, t: string): (r: Option<nat>)
    ensures r.Some? ==> r.value + |t| <= |s| && IsPrefix(t, s[r.value..])
    ensures r.Some? ==> forall j :: 0 <= j < r.value ==> !IsPrefix(t, s[j..])
    ensures r.None? ==> forall j :: 0 <= j <= |s| ==> !IsPrefix(t, s[j..])
    decreases |s|
  {
    if IsPrefix(t, s) then Some(0)
    else if s == [] then None
    else
      var r := Find(s[1..], t);
      assert s[0..] == s;
      assert forall j :: 1 <= j <= |s| ==> s[j..] == s[1..][j - 1..];
      match r
      case Some(i) => Some(i + 1)
      case None => None
  }

  /** `t in s` for strings. */
  predicate Contains(s: string, t: string) {
    Find(s, t).Some?
  }

  lemma ContainsAt(s: string, t: string, i: nat)
    requires i + |t| <= |s| && s[i..i + |t|] == t
    ensures Contains(s, t)
  {
    assert IsPrefix(t, s[i..]);
  }

  /** A string that contains `pat` still contains it with text added on both sides. */
  lemma ContainsWithin(x: string, t: string, y: string, pat: string)
    requires Contains(t, pat)
    ensures Contains(x + t + y, pat)
  {
    var m := Find(t, pat).value;
    var s := x + t + y;
    assert s[|x| + m..|x| + m + |pat|] == t[m..m + |pat|];
    assert t[m..][..|pat|] == t[m..m + |pat|];
    ContainsAt(s, pat, |x| + m);
  }

  /** Removes the longest prefix of characters satisfying `drop`. */
  function LStripBy(s: string, drop: char -> bool): (r: string)
    ensures |r| <= |s|
  {
    if s != [] && drop(s[0]) then LStripBy(s[1..], drop) else s
  }

  /** What is left is a suffix that does not start with a dropped character, and all that went was dropped. */
  lemma {:induction false} LStripBySpec(s: string, drop: char -> bool)
    ensures var r := LStripBy(s, drop);
      && r == s[|s| - |r|..]
      && (r != [] ==> !drop(r[0]))
      && (forall i :: 0 <= i < |s| - |r| ==> drop(s[i]))
    decreases |s|
  {
    if s != [] && drop(s[0]) {
      LStripBySpec(s[1..], drop);
      var r := LStripBy(s, drop);
      assert forall i :: 1 <= i < |s| - |r| ==> s[i] == s[1..][i - 1];
      assert s[1..][|s| - 1 - |r|..] == s[|s| - |r|..];
    }
  }

  /** Removes the longest suffix of characters satisfying `drop`. */
  function RStripBy(s: string, drop: char -> bool): (r: string)
    ensures |r| <= |s|
  {
    if s != [] && drop(s[|s| - 1]) then RStripBy(s[..|s| - 1], drop) else s
  }

  /** What is left is a prefix that does not end with a dropped character, and all that went was dropped. */
  lemma {:induction false} RStripBySpec(s: string, drop: char -> bool)
    ensures var r := RStripBy(s, drop);
      && r == s[..|r|]
      && (r != [] ==> !drop(r[|r| - 1]))
      && (forall i :: |r| <= i < |s| ==> drop(s[i]))
    decreases |s|
  {
    if s != [] && drop(s[|s| - 1]) {
      RStripBySpec(s[..|s| - 1], drop);
      var r := RStripBy(s, drop);
      assert forall i :: |r| <= i < |s| - 1 ==> s[i] == s[..|s| - 1][i];
      assert s[..|s| - 1][..|r|] == s[..|r|];
    }
  }

  /** `s.strip()`: whitespace removed at both ends. */
  function Strip(s: string): string {
    LStripBy(RStripBy(s, IsSpace), IsSpace)
  }

  /** Replaces every non-overlapping occurrence of `pat`, scanning left to right (`str.replace`). */
  function ReplaceAll(s: string, pat: string, repl: string): string
    requires pat != []
    decreases |s|
  {
    if s == [] then []
    else if IsPrefix(pat, s) then repl + ReplaceAll(s[|pat|..], pat, repl)
    else [s[0]] + ReplaceAll(s[1..], pat, repl)
  }

  /** `s.replace(pat, by, 1)`. */
  function ReplaceFirst(s: string, pat: string, repl: string): string {
    match Find(s, pat)
    case Some(i) => s[..i] + repl + s[i + |pat|..]
    case None => s
  }

  /** `sep.join(parts)`. */
  function Join(parts: seq<string>, sep: string): string {
    if parts == [] then ""
    else if |parts| == 1 then parts[0]
    else parts[0] + sep + Join(parts[1..], sep)
  }

  /** `[p for p in parts if p]`: the non-empty strings of `parts`, in order. */
  function NonEmpty(parts: seq<string>): (r: seq<string>)
    ensures forall i :: 0 <= i < |r| ==> r[i] != []
  {
    if parts == [] then []
    else (if parts[0] == [] then [] else [parts[0]]) + NonEmpty(parts[1..])
  }

  lemma NonEmptyPair(a: string, b: string)
    ensures NonEmpty([a, b]) == (if a == [] then [] else [a]) + (if b == [] then [] else [b])
  {
    assert [a, b][1..] == [b];
    assert [b][1..] == [];
    assert NonEmpty([b]) == (if b == [] then [] else [b]) + NonEmpty([]);
  }

  function EscapeChar(c: char): (r: string)
    ensures '<' !in r && '>' !in r && '"' !in r && '\'' !in r && r != []
    ensures ('{' in r <==> c == '{') && ('}' in r <==> c == '}')
  {
    if c == '&' then "&amp;"
    else if c == '<' then "&lt;"
    else if c == '>' then "&gt;"
    else if c == '"' then "&quot;"
    else if c == '\'' then "&#x27;"
    else [c]
  }

  /** `html.escape(s)` (quote=True): the five markup characters become entities. */
  function HtmlEscape(s: string): (r: string)
    ensures '<' !in r && '>' !in r && '"' !in r && '\'' !in r
    ensures |r| >= |s| && (r == [] <==> s == [])
    ensures ('{' in r <==> '{' in s) && ('}' in r <==> '}' in s)
  {
    if s == [] then []
    else
      assert s == [s[0]] + s[1..];
      EscapeChar(s[0]) + HtmlEscape(s[1..])
  }

  function DigitChar(d: nat): char
    requires d < 10
  {
    "0123456789"[d]
  }

  /** `str(n)` for a non-negative integer. */
  function NatToString(n: nat): (r: string)
    ensures r != []
    ensures forall i :: 0 <= i < |r| ==> '0' <= r[i] <= '9'
  {
    if n < 10 then [DigitChar(n)] else NatToString(n / 10) + [DigitChar(n % 10)]
  }

  /** The number a run of decimal digits denotes, as `int(s)` reads it. */
  function DigitsValue(s: string): nat
    requires forall i :: 0 <= i < |s| ==> '0' <= s[i] <= '9'
  {
    if s == [] then 0 else DigitsValue(s[..|s| - 1]) * 10 + (s[|s| - 1] as int - '0' as int)
  }

  lemma DigitCharValue(d: nat)
    requires d < 10
    ensures DigitChar(d) as int - '0' as int == d
  {
    assert "0123456789"[d] as int == '0' as int + d;
  }

  /**
   * `str(n)` reads back as `n` (`int(str(n)) == n`), and it has no leading
   * zero: it starts with '0' only for 0 itself.
   */
  lemma {:induction false} NatToStringValue(n: nat)
    ensures DigitsValue(NatToString(n)) == n
    ensures NatToString(n)[0] == '0' ==> n == 0
  {
    var r := NatToString(n);
    if n < 10 {
      DigitCharValue(n);
    } else {
      var front := NatToString(n / 10);
      NatToStringValue(n / 10);
      DigitCharValue(n % 10);
      assert r[..|r| - 1] == front;
      assert r[0] == front[0];
    }
  }

  /** Two different numbers never print the same. */
  lemma NatToStringInjective(m: nat, n: nat)
    requires NatToString(m) == NatToString(n)
    ensures m == n
  {
    NatToStringValue(m);
    NatToStringValue(n);
  }

  /** `str(i)` for an integer. */
  function IntToString(i: int): string {
    if i < 0 then "-" + NatToString(-i) else NatToString(i)
  }

  /** The index of the last `c` in `s`. */
  function LastIndex(s: string, c: char): (r: Option<nat>)
    ensures r.Some? ==> r.value < |s| && s[r.value] == c && forall j :: r.value < j < |s| ==> s[j] != c
    ensures r.None? ==> forall j :: 0 <= j < |s| ==> s[j] != c
    decreases |s|
  {
    if s == [] then None
    else if s[|s| - 1] == c then Some(|s| - 1)
    else LastIndex(s[..|s| - 1], c)
  }

  /** `PurePath(name).suffix` of one path component: from its last dot on, unless that dot is its first or last character. */
  function NameSuffix(name: string): (r: string)
    ensures |r| <= |name| && r == name[|name| - |r|..]
  {
    match LastIndex(name, '.')
    case Some(i) => if 0 < i < |name| - 1 then name[i..] else ""
    case None => ""
  }

  function AsciiLowerChar(c: char): char {
    if 'A' <= c <= 'Z' then (c as int + 32) as char else c
  }

  /**
   * `s.lower()` on ASCII letters. The scripts only compare a lowered string with
   * an all-ASCII literal (".ipynb", "true"), and no other character lowers to a
   * lower-case ASCII letter occurring in those literals.
   */
  function AsciiLower(s: string): (r: string)
    ensures |r| == |s|
    ensures forall i :: 0 <= i < |s| ==> r[i] == AsciiLowerChar(s[i])
  {
    if s == [] then [] else [AsciiLowerChar(s[0])] + AsciiLower(s[1..])
  }

  // ---------------------------------------------------------------------------
  // The "</" rewrite that keeps embedded JSON from closing a <script> element.

  predicate NoLtSlash(s: string) {
    forall i :: 0 <= i < |s| - 1 ==> !(s[i] == '<' && s[i + 1] == '/')
  }

  /** `s.replace("</", "<\\/")`. */
  function EscapeScriptClose(s: string): string {
    ReplaceAll(s, "</", "<\\/")
  }

  /** After the rewrite no "</" is left, and the first character is kept. */
  lemma {:induction false} EscapeScriptCloseSafe(s: string)
    ensures NoLtSlash(EscapeScriptClose(s))
    ensures s != [] ==> EscapeScriptClose(s) != [] && EscapeScriptClose(s)[0] == s[0]
    decreases |s|
  {
    if s == [] {
    } else if IsPrefix("</", s) {
      var rest := EscapeScriptClose(s[2..]);
      EscapeScriptCloseSafe(s[2..]);
      assert EscapeScriptClose(s) == "<\\/" + rest;
    } else {
      var rest := EscapeScriptClose(s[1..]);
      EscapeScriptCloseSafe(s[1..]);
      assert EscapeScriptClose(s) == [s[0]] + rest;
      if s[0] == '<' && rest != [] {
        assert rest[0] == s[1];
        assert s[..2] == [s[0], s[1]];
      }
    }
  }
}
