/**
 * Page rendering in build_site.py: `render_index` and `render_tokens` fill
 * `{{ KEY }}` placeholders one key after another, and the notebook tree is
 * embedded as JSON that cannot close the surrounding <script> element.
 */
module SiteRender {
  import opened Wrappers
  import opened PyText
  import opened PyValue
  import opened Templates
  import opened JsonText
  import opened NotebookTree

  /** `json.dumps(tree, ensure_ascii=False).replace("</", "<\\/")`. */
  function SafeTreeJson(tree: Node): (r: string)
    ensures NoLtSlash(r)
    ensures r != [] && r[0] == '{'
  {
    var json := JsonDumps(ToValue(tree));
    EscapeScriptCloseSafe(json);
    EscapeScriptClose(json)
  }

  /** The keys every page gets: the escaped title, the build time and the notebook count. */
  function Builtins(title: string, nbCount: nat, ts: string): Dict {
    [Item("TITLE", VStr(HtmlEscape(title))), Item("TIMESTAMP", VStr(ts)), Item("NBCOUNT", VStr(NatToString(nbCount)))]
  }

  /** Every configured key whose value is not None, with `str(value)`, added to the table in order. */
  function AddConfigured(table: Dict, cfg: Dict): Dict
    decreases |cfg|
  {
    if cfg == [] then table
    else
      var next := if cfg[0].val.VNone? then table else Put(table, cfg[0].key, VStr(Str(cfg[0].val)));
      AddConfigured(next, cfg[1..])
  }

  /**
   * The table `render_tokens` builds. Patterns are keyed by the escaped key,
   * so a configured TITLE, TIMESTAMP or NBCOUNT replaces the built-in value in
   * its place. A missing or empty configuration adds nothing.
   */
  function TokenTable(title: string, nbCount: nat, cfg: Dict, ts: string): Dict {
    AddConfigured(Builtins(title, nbCount, ts), cfg)
  }

  /** The page `render_tokens` returns; TREE_JSON is filled last, and only on pages given a tree. */
  function RenderedPage(src: string, title: string, nbCount: nat, tree: Option<Node>, cfg: Dict, ts: string): string {
    var out := ApplyAll(src, TokenTable(title, nbCount, cfg, ts));
    match tree
    case Some(t) => SubKey(out, "TREE_JSON", SafeTreeJson(t))
    case None => out
  }

  /** `render_tokens`, with the clock reading `ts` as a parameter. */
  method RenderTokens(src: string, title: string, nbCount: nat, tree: Option<Node>, cfg: Dict, ts: string)
    returns (out: string)
    ensures out == RenderedPage(src, title, nbCount, tree, cfg, ts)
  {
    var rep := Builtins(title, nbCount, ts);
    var i := 0;
    while i < |cfg|
      invariant 0 <= i <= |cfg|
      invariant AddConfigured(rep, cfg[i..]) == TokenTable(title, nbCount, cfg, ts)
    {
      assert cfg[i..][1..] == cfg[i + 1..];
      if !cfg[i].val.VNone? {
        rep := Put(rep, cfg[i].key, VStr(Str(cfg[i].val)));
      }
      i := i + 1;
    }
    out := SubstituteEach(src, rep);
    if tree.Some? {
      out := SubKey(out, "TREE_JSON", SafeTreeJson(tree.value));
    }
  }

  /** The table `render_index` uses: the built-in keys and the tree. */
  function IndexTable(title: string, nbCount: nat, tree: Node, ts: string): Dict {
    Builtins(title, nbCount, ts) + [Item("TREE_JSON", VStr(SafeTreeJson(tree)))]
  }

  /** `render_index`, with the clock reading `ts` as a parameter. */
  method RenderIndex(src: string, title: string, nbCount: nat, tree: Node, ts: string) returns (out: string)
    ensures out == ApplyAll(src, IndexTable(title, nbCount, tree, ts))
  {
    out := SubstituteEach(src, IndexTable(title, nbCount, tree, ts));
  }

  // ---------------------------------------------------------------------------
  // What ends up in the table

  /** The value the configuration gives `k`: its last entry for `k` whose value is not None. */
  function Configured(cfg: Dict, k: string): Option<Value>
    decreases |cfg|
  {
    if cfg == [] then None
    else
      match Configured(cfg[1..], k)
      case Some(v) => Some(v)
      case None => if cfg[0].key == k && !cfg[0].val.VNone? then Some(cfg[0].val) else None
  }

  /** A key's text in the table is `str()` of its configured value if it has one, else the text it had before. */
  lemma {:induction false} AddConfiguredGet(table: Dict, cfg: Dict, k: string)
    ensures Get(AddConfigured(table, cfg), k) ==
      match Configured(cfg, k)
      case Some(v) => Some(VStr(Str(v)))
      case None => Get(table, k)
    decreases |cfg|
  {
    if cfg != [] {
      var next := if cfg[0].val.VNone? then table else Put(table, cfg[0].key, VStr(Str(cfg[0].val)));
      AddConfiguredGet(next, cfg[1..], k);
    }
  }

  /** The table's keys are the built-in ones and configured ones. */
  lemma {:induction false} AddConfiguredKeys(table: Dict, cfg: Dict)
    ensures forall k :: k in Keys(AddConfigured(table, cfg)) ==> k in Keys(table) || k in Keys(cfg)
    decreases |cfg|
  {
    if cfg != [] {
      var next := if cfg[0].val.VNone? then table else Put(table, cfg[0].key, VStr(Str(cfg[0].val)));
      AddConfiguredKeys(next, cfg[1..]);
      assert Keys(cfg) == [cfg[0].key] + Keys(cfg[1..]);
    }
  }

  lemma KeysAreIdents()
    ensures IsIdent("TITLE") && IsIdent("TIMESTAMP") && IsIdent("NBCOUNT") && IsIdent("TREE_JSON")
  {
    NameIsIdent("TITLE");
    NameIsIdent("TIMESTAMP");
    NameIsIdent("NBCOUNT");
    NameIsIdent("TREE_JSON");
  }

  predicate IsBuiltinKey(k: string) {
    k == "TITLE" || k == "TIMESTAMP" || k == "NBCOUNT"
  }

  lemma TokenTableKeys(title: string, nbCount: nat, cfg: Dict, ts: string)
    requires IdentKeys(cfg)
    ensures IdentKeys(TokenTable(title, nbCount, cfg, ts))
  {
    var b := Builtins(title, nbCount, ts);
    AddConfiguredKeys(b, cfg);
    assert Keys(b) == ["TITLE", "TIMESTAMP", "NBCOUNT"];
    KeysAreIdents();
    var t := TokenTable(title, nbCount, cfg, ts);
    forall i | 0 <= i < |t| ensures IsIdent(t[i].key) {
      assert Keys(t)[i] == t[i].key;
      if t[i].key in Keys(cfg) {
        var j :| 0 <= j < |cfg| && Keys(cfg)[j] == t[i].key;
        assert cfg[j].key == t[i].key;
      }
    }
  }

  lemma TokenTableGet(title: string, nbCount: nat, cfg: Dict, ts: string, k: string)
    ensures Get(TokenTable(title, nbCount, cfg, ts), k) ==
      match Configured(cfg, k)
      case Some(v) => Some(VStr(Str(v)))
      case None => Get(Builtins(title, nbCount, ts), k)
  {
    AddConfiguredGet(Builtins(title, nbCount, ts), cfg, k);
  }

  // ---------------------------------------------------------------------------
  // What the rendered page holds

  /**
   * A placeholder for a key in the table is replaced by the key's text, the
   * rest of the template being kept; TREE_JSON handling afterwards cannot touch
   * text without `{`.
   */
  lemma RenderTokensFills(pre: string, w1: string, k: string, w2: string, post: string,
                          title: string, nbCount: nat, tree: Option<Node>, cfg: Dict, ts: string, text: string)
    requires '{' !in pre && '{' !in post && '{' !in text && AllSpace(w1) && AllSpace(w2)
    requires IdentKeys(cfg) && IsIdent(k)
    requires Get(TokenTable(title, nbCount, cfg, ts), k) == Some(VStr(text))
    ensures RenderedPage(pre + Token(w1, k, w2) + post, title, nbCount, tree, cfg, ts) == pre + text + post
  {
    var table := TokenTable(title, nbCount, cfg, ts);
    TokenTableKeys(title, nbCount, cfg, ts);
    ApplyAllToken(pre, w1, k, w2, post, table);
    if tree.Some? {
      SubKeyPlain(pre + text + post, [], "TREE_JSON", SafeTreeJson(tree.value));
      assert pre + text + post + [] == pre + text + post;
    }
  }

  /** With no configured TITLE, the page shows the HTML-escaped title wherever `{{ TITLE }}` is written. */
  lemma RenderTokensTitle(pre: string, w1: string, w2: string, post: string,
                          title: string, nbCount: nat, tree: Option<Node>, cfg: Dict, ts: string)
    requires '{' !in pre && '{' !in post && '{' !in title && AllSpace(w1) && AllSpace(w2)
    requires IdentKeys(cfg) && Configured(cfg, "TITLE").None?
    ensures RenderedPage(pre + Token(w1, "TITLE", w2) + post, title, nbCount, tree, cfg, ts) == pre + HtmlEscape(title) + post
  {
    TokenTableGet(title, nbCount, cfg, ts, "TITLE");
    KeysAreIdents();
    RenderTokensFills(pre, w1, "TITLE", w2, post, title, nbCount, tree, cfg, ts, HtmlEscape(title));
  }

  /** A configured value that is not None is inserted as `str(value)`, HTML and all. */
  lemma RenderTokensConfigured(pre: string, w1: string, k: string, w2: string, post: string,
                               title: string, nbCount: nat, tree: Option<Node>, cfg: Dict, ts: string)
    requires '{' !in pre && '{' !in post && AllSpace(w1) && AllSpace(w2)
    requires IdentKeys(cfg) && IsIdent(k) && Configured(cfg, k).Some? && '{' !in Str(Configured(cfg, k).value)
    ensures RenderedPage(pre + Token(w1, k, w2) + post, title, nbCount, tree, cfg, ts) ==
      pre + Str(Configured(cfg, k).value) + post
  {
    TokenTableGet(title, nbCount, cfg, ts, k);
    RenderTokensFills(pre, w1, k, w2, post, title, nbCount, tree, cfg, ts, Str(Configured(cfg, k).value));
  }

  /**
   * A placeholder whose key is neither built in nor configured with a value
   * other than None is left in the page as written; so is TREE_JSON on a page
   * rendered without a tree.
   */
  lemma RenderTokensKeeps(pre: string, w1: string, k: string, w2: string, post: string,
                          title: string, nbCount: nat, tree: Option<Node>, cfg: Dict, ts: string)
    requires '{' !in pre && '{' !in post && AllSpace(w1) && AllSpace(w2)
    requires IdentKeys(cfg) && IsIdent(k) && !IsBuiltinKey(k) && Configured(cfg, k).None?
    requires k == "TREE_JSON" ==> tree.None?
    ensures RenderedPage(pre + Token(w1, k, w2) + post, title, nbCount, tree, cfg, ts) == pre + Token(w1, k, w2) + post
  {
    var table := TokenTable(title, nbCount, cfg, ts);
    TokenTableKeys(title, nbCount, cfg, ts);
    TokenTableGet(title, nbCount, cfg, ts, k);
    ApplyAllKeepsToken(pre, w1, k, w2, post, table);
    if tree.Some? {
      KeysAreIdents();
      SubKeyAmid(pre, w1, k, w2, post, "TREE_JSON", SafeTreeJson(tree.value));
    }
  }

  /** Applying a table that ends in one more key applies that key last. */
  lemma {:induction false} ApplyAllSnoc(s: string, table: Dict, last: Item)
    ensures ApplyAll(s, table + [last]) == SubKey(ApplyAll(s, table), last.key, Str(last.val))
    decreases |table|
  {
    if table != [] {
      assert (table + [last])[1..] == table[1..] + [last];
      ApplyAllSnoc(SubKey(s, table[0].key, Str(table[0].val)), table[1..], last);
    }
  }

  /** The tree's JSON takes the place of TREE_JSON, even though the JSON itself holds braces. */
  lemma EmbedsTree(pre: string, w1: string, w2: string, post: string, table: Dict, tree: Node)
    requires '{' !in pre && '{' !in post && AllSpace(w1) && AllSpace(w2)
    requires IdentKeys(table) && "TREE_JSON" !in Keys(table)
    ensures SubKey(ApplyAll(pre + Token(w1, "TREE_JSON", w2) + post, table), "TREE_JSON", SafeTreeJson(tree)) ==
      pre + SafeTreeJson(tree) + post
  {
    KeysAreIdents();
    ApplyAllKeepsToken(pre, w1, "TREE_JSON", w2, post, table);
    SubKeyAmid(pre, w1, "TREE_JSON", w2, post, "TREE_JSON", SafeTreeJson(tree));
  }

  /** On a page given a tree (and no configured TREE_JSON), `{{ TREE_JSON }}` becomes the tree's safe JSON. */
  lemma RenderTokensTree(pre: string, w1: string, w2: string, post: string,
                         title: string, nbCount: nat, tree: Node, cfg: Dict, ts: string)
    requires '{' !in pre && '{' !in post && AllSpace(w1) && AllSpace(w2)
    requires IdentKeys(cfg) && Configured(cfg, "TREE_JSON").None?
    ensures RenderedPage(pre + Token(w1, "TREE_JSON", w2) + post, title, nbCount, Some(tree), cfg, ts) ==
      pre + SafeTreeJson(tree) + post
  {
    TokenTableKeys(title, nbCount, cfg, ts);
    TokenTableGet(title, nbCount, cfg, ts, "TREE_JSON");
    EmbedsTree(pre, w1, w2, post, TokenTable(title, nbCount, cfg, ts), tree);
  }

  /** `render_index` always embeds the tree where `{{ TREE_JSON }}` is written. */
  lemma RenderIndexTree(pre: string, w1: string, w2: string, post: string,
                        title: string, nbCount: nat, tree: Node, ts: string)
    requires '{' !in pre && '{' !in post && AllSpace(w1) && AllSpace(w2)
    ensures ApplyAll(pre + Token(w1, "TREE_JSON", w2) + post, IndexTable(title, nbCount, tree, ts)) ==
      pre + SafeTreeJson(tree) + post
  {
    var b := Builtins(title, nbCount, ts);
    assert Keys(b) == ["TITLE", "TIMESTAMP", "NBCOUNT"];
    KeysAreIdents();
    ApplyAllSnoc(pre + Token(w1, "TREE_JSON", w2) + post, b, Item("TREE_JSON", VStr(SafeTreeJson(tree))));
    EmbedsTree(pre, w1, w2, post, b, tree);
  }

  /** Any table of other keys, followed by `ka` = `text`, turns "{{ ka }}" into `text`. */
  lemma TableThenKey(b: Dict, ka: string, w1: string, w2: string, text: string)
    requires IdentKeys(b) && ka !in Keys(b) && IsIdent(ka) && AllSpace(w1) && AllSpace(w2)
    ensures ApplyAll(Token(w1, ka, w2), b + [Item(ka, VStr(text))]) == text
  {
    var tokA := Token(w1, ka, w2);
    ApplyAllKeepsToken([], w1, ka, w2, [], b);
    assert [] + tokA + [] == tokA;
    ApplyAllSnoc(tokA, b, Item(ka, VStr(text)));
    SubKeyAmid([], w1, ka, w2, [], ka, text);
    assert [] + text + [] == text;
  }

  /**
   * Any table of other keys, followed by `ka` = "{{ kb }}" and then `kb` = `x`,
   * turns "{{ ka }}" into `x`.
   */
  lemma ChainThroughTable(b: Dict, ka: string, kb: string, w1: string, w2: string, x: string)
    requires IdentKeys(b) && ka !in Keys(b) && kb !in Keys(b)
    requires IsIdent(ka) && IsIdent(kb) && ka != kb && AllSpace(w1) && AllSpace(w2)
    ensures ApplyAll(Token(w1, ka, w2), b + [Item(ka, VStr(Token(w1, kb, w2))), Item(kb, VStr(x))]) == x
  {
    var tokA := Token(w1, ka, w2);
    var tokB := Token(w1, kb, w2);
    var itA := Item(ka, VStr(tokB));
    var itB := Item(kb, VStr(x));
    TableThenKey(b, ka, w1, w2, tokB);
    ApplyAllSnoc(tokA, b + [itA], itB);
    assert b + [itA] + [itB] == b + [itA, itB];
    SubKeyAmid([], w1, kb, w2, [], kb, x);
    assert [] + tokB + [] == tokB && [] + x + [] == x;
  }

  /** The built-in keys are identifiers, and a non-built-in key is not among them. */
  lemma BuiltinsOtherKeys(title: string, nbCount: nat, ts: string, ka: string, kb: string)
    requires !IsBuiltinKey(ka) && !IsBuiltinKey(kb)
    ensures var b := Builtins(title, nbCount, ts);
      IdentKeys(b) && ka !in Keys(b) && kb !in Keys(b)
  {
    assert Keys(Builtins(title, nbCount, ts)) == ["TITLE", "TIMESTAMP", "NBCOUNT"];
    KeysAreIdents();
  }

  /**
   * Keys are applied one after another, so a configured value that itself
   * holds a placeholder is filled by a later key: with the configuration
   * A = "{{ B }}", B = "x", the page `{{ A }}` renders as "x".
   */
  lemma ChainedPlaceholders(title: string, nbCount: nat, ts: string,
                            ka: string, kb: string, w1: string, w2: string, x: string)
    requires IsIdent(ka) && IsIdent(kb) && ka != kb && !IsBuiltinKey(ka) && !IsBuiltinKey(kb)
    requires AllSpace(w1) && AllSpace(w2)
    ensures var tokA, tokB := Token(w1, ka, w2), Token(w1, kb, w2);
      RenderedPage(tokA, title, nbCount, None, [Item(ka, VStr(tokB)), Item(kb, VStr(x))], ts) == x
  {
    var b := Builtins(title, nbCount, ts);
    BuiltinsOtherKeys(title, nbCount, ts, ka, kb);
    AddTwoNewStrings(b, ka, Token(w1, kb, w2), kb, x);
    ChainThroughTable(b, ka, kb, w1, w2, x);
  }

  /** A configured string under a key the table does not hold yet is appended to the table. */
  lemma AddNewString(b: Dict, k: string, text: string, rest: Dict)
    requires k !in Keys(b)
    ensures AddConfigured(b, [Item(k, VStr(text))] + rest) == AddConfigured(b + [Item(k, VStr(text))], rest)
  {
    PutNew(b, k, VStr(text));
    assert ([Item(k, VStr(text))] + rest)[1..] == rest;
  }

  lemma AddTwoNewStrings(b: Dict, ka: string, ta: string, kb: string, tb: string)
    requires ka !in Keys(b) && kb !in Keys(b) && ka != kb
    ensures AddConfigured(b, [Item(ka, VStr(ta)), Item(kb, VStr(tb))]) == b + [Item(ka, VStr(ta)), Item(kb, VStr(tb))]
  {
    var itA := Item(ka, VStr(ta));
    var itB := Item(kb, VStr(tb));
    var b1 := b + [itA];
    calc {
      AddConfigured(b, [itA, itB]);
      { assert [itA, itB] == [itA] + [itB]; }
      AddConfigured(b, [itA] + [itB]);
      { AddNewString(b, ka, ta, [itB]); }
      AddConfigured(b1, [itB]);
      { KeysSnoc(b, itA); assert [itB] == [itB] + []; AddNewString(b1, kb, tb, []); }
      AddConfigured(b1 + [itB], []);
      b1 + [itB];
      { assert b + [itA, itB] == b + ([itA] + [itB]); }
      b + [itA, itB];
    }
  }
}
