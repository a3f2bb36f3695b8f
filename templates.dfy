/**
 * The two `{{ NAME }}` placeholder engines.
 *
 * `SubKey` is `re.sub(r"\{\{\s*" + re.escape(key) + r"\s*\}\}", lambda m: val, s)`
 * as build_site.py applies it once per key (the replacement comes from a
 * lambda, so it is inserted literally). `RenderText` is build_readme.py's
 * single `re.sub` over `\{\{\s*([A-Z0-9_]+)\s*\}\}`, which looks every name up
 * in the configuration and never rescans what it inserted.
 */
module Templates {
  import opened Wrappers
  import opened PyText
  import opened PyValue

  /** The number of characters `\s*` consumes greedily at the start of `s`. */
  function SpaceRun(s: string): (n: nat)
    ensures n <= |s|
  {
    if s != [] && IsSpace(s[0]) then 1 + SpaceRun(s[1..]) else 0
  }

  lemma {:induction false} SpaceRunAppend(w: string, t: string)
    requires AllSpace(w)
    requires t == [] || !IsSpace(t[0])
    ensures SpaceRun(w + t) == |w|
    decreases |w|
  {
    if w != [] {
      assert (w + t)[1..] == w[1..] + t;
      SpaceRunAppend(w[1..], t);
    } else {
      assert w + t == t;
    }
  }

  /** What may follow the leading whitespace: `KEY\s*}}`; the length it spans. */
  function KeyTail(t: string, key: string): (r: Option<nat>)
    ensures r.Some? ==> r.value <= |t|
  {
    if !IsPrefix(key, t) then None
    else
      var u := t[|key|..];
      var m := SpaceRun(u);
      if IsPrefix("}}", u[m..]) then Some(|key| + m + 2) else None
  }

  /** The regex engine's backtracking: the longest leading whitespace `rest[..j]` is tried first. */
  function TryCut(rest: string, key: string, j: nat): (r: Option<nat>)
    requires j <= |rest|
    ensures r.Some? ==> r.value <= |rest|
    decreases j
  {
    match KeyTail(rest[j..], key)
    case Some(n) => Some(j + n)
    case None => if j == 0 then None else TryCut(rest, key, j - 1)
  }

  /** The length of the match of `\{\{\s*KEY\s*\}\}` at the start of `s`, if there is one. */
  function MatchKey(s: string, key: string): (r: Option<nat>)
    ensures r.Some? ==> 2 <= r.value <= |s|
  {
    if !IsPrefix("{{", s) then None
    else
      var rest := s[2..];
      match TryCut(rest, key, SpaceRun(rest))
      case Some(n) => Some(2 + n)
      case None => None
  }

  /** Every match of the `key` pattern, left to right, replaced by `val` as literal text. */
  function SubKey(s: string, key: string, val: string): string
    decreases |s|
  {
    if s == [] then []
    else
      match MatchKey(s, key)
      case Some(n) => val + SubKey(s[n..], key, val)
      case None => [s[0]] + SubKey(s[1..], key, val)
  }

  // ---------------------------------------------------------------------------
  // Placeholders as they are written in templates

  /** A placeholder name that neither contains braces nor starts or ends in whitespace. */
  predicate IsIdent(name: string) {
    name != [] && forall i :: 0 <= i < |name| ==> !IsSpace(name[i]) && name[i] != '{' && name[i] != '}'
  }

  /** `{{` + whitespace + name + whitespace + `}}`. */
  function Token(w1: string, name: string, w2: string): string {
    "{{" + w1 + name + w2 + "}}"
  }

  /** Text without `{` holds no placeholder and is left as it is. */
  lemma {:induction false} SubKeyPlain(pre: string, rest: string, key: string, val: string)
    requires '{' !in pre
    ensures SubKey(pre + rest, key, val) == pre + SubKey(rest, key, val)
    decreases |pre|
  {
    if pre != [] {
      var tail := pre[1..];
      SplitFirst(pre, rest);
      NoBraceNoMatch(pre + rest, key);
      SubKeyStep(pre + rest, key, val);
      SubKeyPlain(tail, rest, key, val);
      Assoc([pre[0]], tail, SubKey(rest, key, val));
    } else {
      EmptyLeft(pre, rest);
      EmptyLeft(pre, SubKey(rest, key, val));
    }
  }

  /** Where the pattern of `key` does not match, the first character is copied. */
  lemma SubKeyStep(s: string, key: string, val: string)
    requires s != [] && MatchKey(s, key).None?
    ensures SubKey(s, key, val) == [s[0]] + SubKey(s[1..], key, val)
  {
  }

  lemma {:induction false} TryCutNone(rest: string, key: string, j: nat)
    requires j <= |rest|
    requires forall i :: 0 <= i <= j ==> KeyTail(rest[i..], key).None?
    ensures TryCut(rest, key, j).None?
    decreases j
  {
    if j > 0 {
      TryCutNone(rest, key, j - 1);
    }
  }

  /** The text after the opening braces and whitespace of a written placeholder. */
  function TokenTail(name: string, w2: string, rest: string): string {
    name + (w2 + ("}}" + rest))
  }

  lemma TokenShape(w1: string, name: string, w2: string, rest: string)
    ensures Token(w1, name, w2) + rest == "{{" + (w1 + TokenTail(name, w2, rest))
  {
  }

  /** After the leading whitespace, `KEY\s*}}` fits a written name exactly when the names agree. */
  lemma KeyTailAtName(name: string, w2: string, rest: string, key: string)
    requires IsIdent(name) && IsIdent(key) && AllSpace(w2)
    ensures KeyTail(TokenTail(name, w2, rest), key) ==
      if name == key then Some(|name| + |w2| + 2) else None
  {
    var t := TokenTail(name, w2, rest);
    if name == key {
      assert t[..|key|] == name;
      var u := t[|key|..];
      assert u == w2 + ("}}" + rest);
      SpaceRunAppend(w2, "}}" + rest);
      assert u[|w2|..] == "}}" + rest;
    } else if IsPrefix(key, t) {
      assert forall i :: 0 <= i < |key| ==> key[i] == t[i];
      assert IsSpace(t[|name|]) || t[|name|] == '}';
      if |key| < |name| {
        var u := t[|key|..];
        assert u[0] == name[|key|];
        assert SpaceRun(u) == 0;
        assert u[..2][0] != '}';
      }
    }
  }

  /** `KEY` starts with neither whitespace, so no match can begin inside the leading whitespace. */
  lemma KeyTailAtSpace(x: string, key: string)
    requires IsIdent(key) && x != [] && IsSpace(x[0])
    ensures KeyTail(x, key).None?
  {
  }

  lemma MatchKeyAt(w1: string, name: string, w2: string, rest: string, key: string)
    requires AllSpace(w1) && AllSpace(w2) && IsIdent(name) && IsIdent(key)
    ensures MatchKey("{{" + (w1 + TokenTail(name, w2, rest)), key) ==
      if name == key then Some(2 + |w1| + |name| + |w2| + 2) else None
  {
    var t := TokenTail(name, w2, rest);
    var r := w1 + t;
    var s := "{{" + r;
    assert s[..2] == "{{" && s[2..] == r;
    assert t[0] == name[0];
    SpaceRunAppend(w1, t);
    assert r[|w1|..] == t;
    KeyTailAtName(name, w2, rest, key);
    if name != key {
      forall i | 0 <= i <= |w1| ensures KeyTail(r[i..], key).None? {
        if i < |w1| {
          assert r[i..][0] == w1[i];
          KeyTailAtSpace(r[i..], key);
        }
      }
      TryCutNone(r, key, |w1|);
    }
  }

  /** A written placeholder matches the pattern of `key` exactly when its name is `key`. */
  lemma MatchKeyToken(w1: string, name: string, w2: string, rest: string, key: string)
    requires AllSpace(w1) && AllSpace(w2) && IsIdent(name) && IsIdent(key)
    ensures MatchKey(Token(w1, name, w2) + rest, key) ==
      if name == key then Some(|Token(w1, name, w2)|) else None
  {
    var s := Token(w1, name, w2) + rest;
    var m := MatchKey("{{" + (w1 + TokenTail(name, w2, rest)), key);
    TokenShape(w1, name, w2, rest);
    assert MatchKey(s, key) == m;
    MatchKeyAt(w1, name, w2, rest, key);
    assert |Token(w1, name, w2)| == 2 + |w1| + |name| + |w2| + 2;
  }

  /** Upper-case placeholder names are identifiers. */
  lemma NameIsIdent(name: string)
    requires IsName(name)
    ensures IsIdent(name)
  {
    forall i | 0 <= i < |name| ensures !IsSpace(name[i]) {
      assert IsNameChar(name[i]);
    }
  }

  /** A written placeholder without its two opening braces. */
  function TokenBody(w1: string, name: string, w2: string): string {
    w1 + name + w2 + "}}"
  }

  lemma TokenParts(w1: string, name: string, w2: string, rest: string)
    requires AllSpace(w1) && AllSpace(w2) && IsIdent(name)
    ensures Token(w1, name, w2) + rest == "{" + ("{" + (TokenBody(w1, name, w2) + rest))
    ensures Token(w1, name, w2) == "{" + ("{" + TokenBody(w1, name, w2))
    ensures '{' !in TokenBody(w1, name, w2) && TokenBody(w1, name, w2) != []
  {
    var body := TokenBody(w1, name, w2);
    forall i | 0 <= i < |body| ensures body[i] != '{' {
      if i < |w1| { assert body[i] == w1[i]; }
      else if i < |w1| + |name| { assert body[i] == name[i - |w1|]; }
      else if i < |w1| + |name| + |w2| { assert body[i] == w2[i - |w1| - |name|]; }
    }
  }

  /** No placeholder starts at a `{` that is not followed by another `{`. */
  lemma SingleBrace(s: string, key: string)
    requires |s| >= 2 && s[1] != '{'
    ensures MatchKey(s, key).None? && MatchName(s).None?
  {
    assert s[..2][1] == s[1];
  }

  /** A written placeholder is replaced by `val` when its name is `key` and otherwise left alone. */
  lemma SubKeyToken(w1: string, name: string, w2: string, rest: string, key: string, val: string)
    requires AllSpace(w1) && AllSpace(w2) && IsIdent(name) && IsIdent(key)
    ensures SubKey(Token(w1, name, w2) + rest, key, val) ==
      (if name == key then val else Token(w1, name, w2)) + SubKey(rest, key, val)
  {
    MatchKeyToken(w1, name, w2, rest, key);
    if name == key {
      SubKeyHit(Token(w1, name, w2), rest, key, val);
    } else {
      TokenParts(w1, name, w2, rest);
      SubKeyMiss(TokenBody(w1, name, w2), rest, key, val);
    }
  }

  lemma SubKeyHit(tok: string, rest: string, key: string, val: string)
    requires MatchKey(tok + rest, key) == Some(|tok|)
    ensures SubKey(tok + rest, key, val) == val + SubKey(rest, key, val)
  {
    assert (tok + rest)[|tok|..] == rest;
  }

  lemma SubKeyMiss(body: string, rest: string, key: string, val: string)
    requires '{' !in body && body != []
    requires MatchKey("{" + ("{" + (body + rest)), key).None?
    ensures SubKey("{" + ("{" + (body + rest)), key, val) == "{" + ("{" + body) + SubKey(rest, key, val)
  {
    var s1 := "{" + (body + rest);
    var s := "{" + s1;
    assert s[1..] == s1 && s1[1..] == body + rest;
    assert s1[1] == body[0];
    SingleBrace(s1, key);
    SubKeyPlain(body, rest, key, val);
    assert SubKey(s1, key, val) == "{" + body + SubKey(rest, key, val);
  }

  /** One key's pass over a template holding one placeholder amid text without `{`. */
  lemma SubKeyAmid(pre: string, w1: string, name: string, w2: string, post: string, key: string, val: string)
    requires '{' !in pre && '{' !in post && AllSpace(w1) && AllSpace(w2) && IsIdent(name) && IsIdent(key)
    ensures SubKey(pre + Token(w1, name, w2) + post, key, val) ==
      pre + (if name == key then val else Token(w1, name, w2)) + post
  {
    var tok := Token(w1, name, w2);
    assert pre + tok + post == pre + (tok + post);
    SubKeyPlain(pre, tok + post, key, val);
    SubKeyToken(w1, name, w2, post, key, val);
    SubKeyPlain(post, [], key, val);
    assert post + [] == post;
  }

  // ---------------------------------------------------------------------------
  // Applying a table of replacements one after another (build_site.py)

  /**
   * The substitution loop of `render_index` and `render_tokens`: each key's
   * pattern is applied to the result of the previous one, so text inserted for
   * an earlier key is scanned again by every later key.
   */
  function ApplyAll(s: string, table: Dict): string
    decreases |table|
  {
    if table == [] then s else ApplyAll(SubKey(s, table[0].key, Str(table[0].val)), table[1..])
  }

  method SubstituteEach(src: string, table: Dict) returns (out: string)
    ensures out == ApplyAll(src, table)
  {
    out := src;
    var i := 0;
    while i < |table|
      invariant 0 <= i <= |table|
      invariant ApplyAll(out, table[i..]) == ApplyAll(src, table)
    {
      assert table[i..][1..] == table[i + 1..];
      out := SubKey(out, table[i].key, Str(table[i].val));
      i := i + 1;
    }
    assert table[i..] == [];
  }

  predicate IdentKeys(table: Dict) {
    forall i :: 0 <= i < |table| ==> IsIdent(table[i].key)
  }

  /** Text without `{` passes through the whole table unchanged. */
  lemma {:induction false} ApplyAllPlain(s: string, table: Dict)
    requires '{' !in s
    ensures ApplyAll(s, table) == s
    decreases |table|
  {
    if table != [] {
      SubKeyPlain(s, [], table[0].key, Str(table[0].val));
      assert s + [] == s;
      ApplyAllPlain(s, table[1..]);
    }
  }

  /**
   * A placeholder whose name is in the table is replaced by that key's text;
   * the text around it is kept.
   */
  lemma {:induction false} ApplyAllToken(pre: string, w1: string, name: string, w2: string, post: string, table: Dict)
    requires '{' !in pre && '{' !in post && AllSpace(w1) && AllSpace(w2)
    requires IdentKeys(table) && IsIdent(name) && name in Keys(table)
    requires '{' !in Str(Get(table, name).value)
    ensures ApplyAll(pre + Token(w1, name, w2) + post, table) == pre + Str(Get(table, name).value) + post
    decreases |table|
  {
    var k := table[0].key;
    var v := Str(table[0].val);
    SubKeyAmid(pre, w1, name, w2, post, k, v);
    if name == k {
      ApplyAllPlain(pre + v + post, table[1..]);
    } else {
      assert Keys(table) == [k] + Keys(table[1..]);
      ApplyAllToken(pre, w1, name, w2, post, table[1..]);
    }
  }

  /** A placeholder whose name is not in the table survives every substitution. */
  lemma {:induction false} ApplyAllKeepsToken(pre: string, w1: string, name: string, w2: string, post: string, table: Dict)
    requires '{' !in pre && '{' !in post && AllSpace(w1) && AllSpace(w2)
    requires IdentKeys(table) && IsIdent(name) && name !in Keys(table)
    ensures ApplyAll(pre + Token(w1, name, w2) + post, table) == pre + Token(w1, name, w2) + post
    decreases |table|
  {
    if table != [] {
      var k := table[0].key;
      SubKeyAmid(pre, w1, name, w2, post, k, Str(table[0].val));
      assert Keys(table) == [k] + Keys(table[1..]);
      ApplyAllKeepsToken(pre, w1, name, w2, post, table[1..]);
    }
  }

  // ---------------------------------------------------------------------------
  // The single-pass engine of build_readme.py

  predicate IsNameChar(c: char) {
    'A' <= c <= 'Z' || '0' <= c <= '9' || c == '_'
  }

  predicate IsName(name: string) {
    name != [] && forall i :: 0 <= i < |name| ==> IsNameChar(name[i])
  }

  /** The number of characters `[A-Z0-9_]+` consumes greedily at the start of `s`. */
  function NameRun(s: string): (n: nat)
    ensures n <= |s|
  {
    if s != [] && IsNameChar(s[0]) then 1 + NameRun(s[1..]) else 0
  }

  /** The run is all name characters. */
  lemma {:induction false} NameRunChars(s: string)
    ensures forall i :: 0 <= i < NameRun(s) ==> IsNameChar(s[i])
    decreases |s|
  {
    if s != [] && IsNameChar(s[0]) {
      NameRunChars(s[1..]);
      assert forall i :: 1 <= i < NameRun(s) ==> s[i] == s[1..][i - 1];
    }
  }

  lemma {:induction false} NameRunAppend(w: string, t: string)
    requires forall i :: 0 <= i < |w| ==> IsNameChar(w[i])
    requires t == [] || !IsNameChar(t[0])
    ensures NameRun(w + t) == |w|
    decreases |w|
  {
    if w != [] {
      assert (w + t)[1..] == w[1..] + t;
      NameRunAppend(w[1..], t);
    } else {
      assert w + t == t;
    }
  }

  /** The captured name and the length of a match of `\{\{\s*([A-Z0-9_]+)\s*\}\}` at the start of `s`. */
  function MatchName(s: string): (r: Option<(string, nat)>)
    ensures r.Some? ==> 2 <= r.value.1 <= |s|
  {
    if !IsPrefix("{{", s) then None
    else
      var rest := s[2..];
      var n := SpaceRun(rest);
      var t := rest[n..];
      var k := NameRun(t);
      if k == 0 then None
      else
        var u := t[k..];
        var m := SpaceRun(u);
        if IsPrefix("}}", u[m..]) then Some((t[..k], 2 + n + k + m + 2)) else None
  }

  /** `str(cfg.get(name, ""))`. */
  function Lookup(cfg: Dict, name: string): string {
    match Get(cfg, name)
    case Some(v) => Str(v)
    case None => ""
  }

  /** `_TOKEN.sub(lambda m: str(cfg.get(m.group(1), "")), template)`. */
  function RenderText(s: string, cfg: Dict): string
    decreases |s|
  {
    if s == [] then []
    else
      match MatchName(s)
      case Some((name, n)) => Lookup(cfg, name) + RenderText(s[n..], cfg)
      case None => [s[0]] + RenderText(s[1..], cfg)
  }

  /** Text without `{` is copied unchanged. */
  lemma {:induction false} RenderTextPlain(pre: string, rest: string, cfg: Dict)
    requires '{' !in pre
    ensures RenderText(pre + rest, cfg) == pre + RenderText(rest, cfg)
    decreases |pre|
  {
    if pre != [] {
      var tail := pre[1..];
      SplitFirst(pre, rest);
      NoBraceNoMatch(pre + rest, "");
      RenderTextStep(pre + rest, cfg);
      RenderTextPlain(tail, rest, cfg);
      Assoc([pre[0]], tail, RenderText(rest, cfg));
    } else {
      EmptyLeft(pre, rest);
      EmptyLeft(pre, RenderText(rest, cfg));
    }
  }

  /** Where no placeholder starts, the first character is copied. */
  lemma RenderTextStep(s: string, cfg: Dict)
    requires s != [] && MatchName(s).None?
    ensures RenderText(s, cfg) == [s[0]] + RenderText(s[1..], cfg)
  {
  }

  /** No placeholder starts at a character other than `{`. */
  lemma NoBraceNoMatch(s: string, key: string)
    requires s != [] && s[0] != '{'
    ensures MatchName(s).None? && MatchKey(s, key).None?
  {
    if |s| >= 2 {
      assert s[..2][0] == s[0];
    }
  }

  /** How the name pattern reads the text after the leading whitespace of a written placeholder. */
  lemma NameTailFacts(name: string, w2: string, rest: string)
    requires AllSpace(w2) && IsName(name)
    ensures var t := TokenTail(name, w2, rest);
      NameRun(t) == |name| && t[..|name|] == name && t[|name|..] == w2 + ("}}" + rest)
      && SpaceRun(t[|name|..]) == |w2| && IsPrefix("}}", t[|name|..][|w2|..])
  {
    var t := TokenTail(name, w2, rest);
    NameRunAppend(name, w2 + ("}}" + rest));
    var u := t[|name|..];
    assert u == w2 + ("}}" + rest);
    SpaceRunAppend(w2, "}}" + rest);
    assert u[|w2|..] == "}}" + rest;
  }

  /** The captured name of a written upper-case placeholder, and the length it spans. */
  lemma MatchNameAt(w1: string, name: string, w2: string, rest: string)
    requires AllSpace(w1) && AllSpace(w2) && IsName(name)
    ensures MatchName("{{" + (w1 + TokenTail(name, w2, rest))) == Some((name, 2 + |w1| + |name| + |w2| + 2))
  {
    var t := TokenTail(name, w2, rest);
    var r := w1 + t;
    PrefixParts("{{", r);
    PrefixParts(w1, t);
    assert t[0] == name[0] && !IsSpace(name[0]);
    SpaceRunAppend(w1, t);
    NameTailFacts(name, w2, rest);
    MatchNameOf("{{" + r, |w1|, |name|, |w2|);
  }

  /** `MatchName` read off the lengths of its parts. */
  lemma MatchNameOf(s: string, n: nat, k: nat, m: nat)
    requires IsPrefix("{{", s) && SpaceRun(s[2..]) == n
    requires NameRun(s[2..][n..]) == k && k > 0
    requires SpaceRun(s[2..][n..][k..]) == m && IsPrefix("}}", s[2..][n..][k..][m..])
    ensures MatchName(s) == Some((s[2..][n..][..k], 2 + n + k + m + 2))
  {
  }

  /** A placeholder whose name is not all `[A-Z0-9_]` is no match of the name pattern. */
  lemma MatchNameMiss(w1: string, name: string, w2: string, rest: string)
    requires AllSpace(w1) && AllSpace(w2) && IsIdent(name) && !IsName(name)
    ensures MatchName("{{" + (w1 + TokenTail(name, w2, rest))).None?
  {
    var t := TokenTail(name, w2, rest);
    var r := w1 + t;
    var s := "{{" + r;
    assert s[..2] == "{{" && s[2..] == r;
    assert t[0] == name[0];
    SpaceRunAppend(w1, t);
    assert r[|w1|..] == t;
    var k := NameRun(t);
    NameRunChars(t);
    assert forall i :: 0 <= i < |name| ==> t[i] == name[i];
    assert k < |name|;
    if k > 0 {
      var u := t[k..];
      assert u[0] == name[k];
      assert SpaceRun(u) == 0;
      assert u[..2][0] != '}';
    }
  }

  lemma RenderTextHit(tok: string, rest: string, cfg: Dict, name: string)
    requires MatchName(tok + rest) == Some((name, |tok|))
    ensures RenderText(tok + rest, cfg) == Lookup(cfg, name) + RenderText(rest, cfg)
  {
    assert (tok + rest)[|tok|..] == rest;
  }

  lemma RenderTextMiss(body: string, rest: string, cfg: Dict)
    requires '{' !in body && body != []
    requires MatchName("{" + ("{" + (body + rest))).None?
    ensures RenderText("{" + ("{" + (body + rest)), cfg) == "{" + ("{" + body) + RenderText(rest, cfg)
  {
    var s1 := "{" + (body + rest);
    var s := "{" + s1;
    assert s[1..] == s1 && s1[1..] == body + rest;
    assert s1[1] == body[0];
    SingleBrace(s1, "");
    RenderTextPlain(body, rest, cfg);
    assert RenderText(s1, cfg) == "{" + body + RenderText(rest, cfg);
  }

  /**
   * An upper-case placeholder becomes the configured text (or "" when the key
   * is missing), and that text is not scanned again: rendering continues after
   * the placeholder.
   */
  lemma RenderTextToken(w1: string, name: string, w2: string, rest: string, cfg: Dict)
    requires AllSpace(w1) && AllSpace(w2) && IsName(name)
    ensures RenderText(Token(w1, name, w2) + rest, cfg) == Lookup(cfg, name) + RenderText(rest, cfg)
  {
    var tok := Token(w1, name, w2);
    assert MatchName(tok + rest) == Some((name, |tok|)) by {
      TokenShape(w1, name, w2, rest);
      MatchNameAt(w1, name, w2, rest);
      assert |tok| == 2 + |w1| + |name| + |w2| + 2;
    }
    RenderTextHit(tok, rest, cfg, name);
  }

  /**
   * An instance of the above: a value that is itself a placeholder stays as
   * written, because A is looked up once and "{{ B }}" is never scanned.
   */
  lemma SinglePassNoChain()
    ensures RenderText("{{ A }}", [Item("A", VStr("{{ B }}")), Item("B", VStr("x"))]) == "{{ B }}"
  {
    var cfg := [Item("A", VStr("{{ B }}")), Item("B", VStr("x"))];
    assert AllSpace(" ");
    assert IsName("A");
    assert Token(" ", "A", " ") == "{{ A }}";
    RenderTextToken(" ", "A", " ", [], cfg);
    assert "{{ A }}" + [] == "{{ A }}";
  }

  /** A placeholder whose name is not all `[A-Z0-9_]` (a lower-case one, say) is left as written. */
  lemma RenderTextKeepsOtherToken(w1: string, name: string, w2: string, rest: string, cfg: Dict)
    requires AllSpace(w1) && AllSpace(w2) && IsIdent(name) && !IsName(name)
    ensures RenderText(Token(w1, name, w2) + rest, cfg) == Token(w1, name, w2) + RenderText(rest, cfg)
  {
    TokenShape(w1, name, w2, rest);
    MatchNameMiss(w1, name, w2, rest);
    TokenParts(w1, name, w2, rest);
    RenderTextMiss(TokenBody(w1, name, w2), rest, cfg);
  }
}
