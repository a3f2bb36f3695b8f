/**
 * The two rewrites build_site.py applies to files around the nbconvert call:
 * `ensure_minimal_cell` gives a notebook a renderable cell before it is
 * converted, and `_widen_notebook_html` adds a full-width style block to the
 * HTML it produced. Reading and writing the files is not modelled: each rule
 * maps the parsed notebook (or the page text) to what would be written.
 */
module NotebookFiles {
  import opened Wrappers
  import opened PyText
  import opened PyValue

  // ---------------------------------------------------------------------------
  // ensure_minimal_cell

  /** The markdown cell put in front of a notebook that has nothing to render. */
  const PlaceholderCell: Value :=
    VDict([Item("cell_type", VStr("markdown")), Item("metadata", VDict([])),
           Item("source", VList([VStr("_Notebook criado — conteúdo em construção._\n")]))])

  /**
   * What `for c in cells` walks over: a list's items, a string's characters,
   * a dict's keys; None, booleans and integers are not iterable.
   */
  function Iterate(v: Value): (r: Result<seq<Value>, Exception>)
    ensures r.Err? <==> v.VNone? || v.VBool? || v.VInt?
    ensures v.VList? ==> r == Ok(v.items)
  {
    match v
    case VNone => Err(TypeError)
    case VBool(_) => Err(TypeError)
    case VInt(_) => Err(TypeError)
    case VStr(s) => Ok(seq(|s|, i requires 0 <= i < |s| => VStr([s[i]])))
    case VList(items) => Ok(items)
    case VDict(d) => Ok(seq(|d|, i requires 0 <= i < |d| => VStr(d[i].key)))
  }

  /** A dict whose `cell_type` is "markdown" or "code". */
  predicate IsRenderable(c: Value) {
    c.VDict? && (Get(c.entries, "cell_type") == Some(VStr("markdown")) || Get(c.entries, "cell_type") == Some(VStr("code")))
  }

  predicate HasRenderable(cells: seq<Value>) {
    exists i :: 0 <= i < |cells| && IsRenderable(cells[i])
  }

  /**
   * `ensure_minimal_cell` on a parsed notebook: `Ok(None)` when the file is
   * left as it is, `Ok(Some(nb'))` when `nb'` is written back. A notebook that
   * is not a dict fails in `.get`, cells that cannot be iterated in the scan.
   */
  function EnsureMinimalCell(nb: Value): Result<Option<Value>, Exception> {
    if !nb.VDict? then Err(AttributeError)
    else
      var cells := GetOr(nb.entries, "cells", VList([]));
      var walked :- Iterate(cells);
      if !Truthy(cells) || !HasRenderable(walked) then
        var kept := if cells.VList? then cells.items else [];
        Ok(Some(VDict(Put(nb.entries, "cells", VList([PlaceholderCell] + kept)))))
      else Ok(None)
  }

  lemma PlaceholderRenderable()
    ensures IsRenderable(PlaceholderCell)
  {
    assert Get(PlaceholderCell.entries, "cell_type") == Some(VStr("markdown"));
  }

  /**
   * The notebook is left alone exactly when its cells are a non-empty list
   * (or string, or dict) holding a markdown or code cell; otherwise the one
   * placeholder cell is put first, a list of cells follows it unchanged, and
   * every other key of the notebook keeps its value.
   */
  lemma EnsureMinimalCellSpec(nb: Value)
    requires nb.VDict?
    requires Iterate(GetOr(nb.entries, "cells", VList([]))).Ok?
    ensures var cells := GetOr(nb.entries, "cells", VList([]));
      var r := EnsureMinimalCell(nb);
      && r.Ok?
      && (r.value.None? <==> Truthy(cells) && HasRenderable(Iterate(cells).value))
      && (r.value.Some? ==>
           && r.value.value.VDict?
           && Get(r.value.value.entries, "cells") ==
                Some(VList([PlaceholderCell] + (if cells.VList? then cells.items else [])))
           && (forall k :: k != "cells" ==> Get(r.value.value.entries, k) == Get(nb.entries, k)))
  {
  }

  /** A notebook already given its placeholder is left alone the next time. */
  lemma EnsureMinimalCellIdempotent(nb: Value)
    requires EnsureMinimalCell(nb).Ok? && EnsureMinimalCell(nb).value.Some?
    ensures EnsureMinimalCell(EnsureMinimalCell(nb).value.value) == Ok(None)
  {
    var nb' := EnsureMinimalCell(nb).value.value;
    var cells := GetOr(nb.entries, "cells", VList([]));
    var kept := if cells.VList? then cells.items else [];
    var items := [PlaceholderCell] + kept;
    assert GetOr(nb'.entries, "cells", VList([])) == VList(items);
    PlaceholderRenderable();
    assert IsRenderable(items[0]);
  }

  /** A notebook whose cells are null, a boolean or a number makes the scan fail. */
  lemma EnsureMinimalCellRejects(nb: Value)
    requires nb.VDict? && "cells" in Keys(nb.entries)
    requires var c := Get(nb.entries, "cells").value; c.VNone? || c.VBool? || c.VInt?
    ensures EnsureMinimalCell(nb) == Err(TypeError)
  {
  }

  /**
   * The check raises exactly on a notebook that is not a dict (AttributeError
   * from `.get`) and on one whose `cells` is null, a boolean or a number
   * (TypeError from the walk); a missing `cells` never raises.
   */
  lemma EnsureMinimalCellFails(nb: Value)
    ensures EnsureMinimalCell(nb).Err? <==>
      !nb.VDict? || ("cells" in Keys(nb.entries) && var c := Get(nb.entries, "cells").value; c.VNone? || c.VBool? || c.VInt?)
    ensures EnsureMinimalCell(nb).Err? ==>
      EnsureMinimalCell(nb).error == (if nb.VDict? then TypeError else AttributeError)
  {
  }

  // ---------------------------------------------------------------------------
  // _widen_notebook_html

  /** The text whose presence marks a page that already has the style block. */
  const Marker: string := "id=\"wide-notebook\""

  /**
   * The style block: its text is not part of this model, only that it carries
   * the marker and, being used in a regex replacement template, no backslash.
   */
  predicate IsWideCss(css: string) {
    Contains(css, Marker) && '\\' !in css
  }

  /**
   * Where `re.sub(r"(<body[^>]*>)", ..., count=1)` matches: from the first
   * `<body` to the first `>` after it. Later `<body` occurrences cannot match
   * when the first one does not, so there is no match at all then.
   */
  function BodyTagEnd(s: string): (r: Option<nat>)
    ensures r.Some? ==> 6 <= r.value <= |s| && s[r.value - 1] == '>'
  {
    match Find(s, "<body")
    case None => None
    case Some(i) =>
      match Find(s[i + 5..], ">")
      case None => None
      case Some(j) => Some(i + 5 + j + 1)
  }

  /**
   * `_widen_notebook_html` on the page text: a page with the marker is left
   * as it is; otherwise the block goes right before the first `</head>`, else
   * on a line of its own after the first `<body ...>` tag, else at the top.
   */
  function Widen(s: string, css: string): string
    requires IsWideCss(css)
  {
    if Contains(s, Marker) then s
    else if Contains(s, "</head>") then ReplaceFirst(s, "</head>", css + "\n</head>")
    else if Contains(s, "<body") then
      match BodyTagEnd(s)
      case Some(k) => s[..k] + "\n" + css + "\n" + s[k..]
      case None => s
    else css + "\n" + s
  }

  /** A block carrying the marker, put anywhere into a page, leaves the marker in the page. */
  lemma InsertCarriesMarker(s: string, p: nat, a: string, css: string, b: string)
    requires p <= |s| && Contains(css, Marker)
    ensures Contains(s[..p] + (a + css + b) + s[p..], Marker)
  {
    ContainsWithin(a, css, b, Marker);
    ContainsWithin(s[..p], a + css + b, s[p..], Marker);
  }

  /** Replacing the first `pat` by `ins + pat` inserts `ins` right before it. */
  lemma ReplaceFirstInserts(s: string, pat: string, ins: string)
    requires Contains(s, pat)
    ensures var i := Find(s, pat).value;
      ReplaceFirst(s, pat, ins + pat) == s[..i] + ([] + ins) + s[i..]
  {
    var i := Find(s, pat).value;
    var a := s[..i];
    var b := s[i + |pat|..];
    assert s[i..i + |pat|] == pat;
    SliceSplit(s, i, i + |pat|);
    assert ReplaceFirst(s, pat, ins + pat) == a + (ins + pat) + b;
    Assoc(a, ins, pat);
    Assoc(a + ins, pat, b);
    EmptyLeft([], ins);
  }

  lemma WidenHead(s: string, css: string)
    requires IsWideCss(css) && !Contains(s, Marker) && Contains(s, "</head>")
    ensures var i := Find(s, "</head>").value;
      Widen(s, css) == s[..i] + ([] + (css + "\n")) + s[i..]
  {
    assert css + "\n</head>" == (css + "\n") + "</head>";
    ReplaceFirstInserts(s, "</head>", css + "\n");
  }

  lemma WidenBody(s: string, css: string)
    requires IsWideCss(css) && !Contains(s, Marker) && !Contains(s, "</head>") && BodyTagEnd(s).Some?
    ensures var k := BodyTagEnd(s).value;
      Widen(s, css) == s[..k] + ("\n" + css + "\n") + s[k..]
  {
    assert Find(s, "<body").Some?;
    var k := BodyTagEnd(s).value;
    var a := s[..k];
    assert Widen(s, css) == a + "\n" + css + "\n" + s[k..];
    Assoc(a, "\n", css);
    Assoc(a, "\n" + css, "\n");
  }

  /** Whenever the page changes, the old page surrounds the inserted block, and the result carries the marker. */
  lemma WidenInserts(s: string, css: string)
    requires IsWideCss(css)
    ensures var r := Widen(s, css);
      r != s ==> Contains(r, Marker) && exists p, a, b :: 0 <= p <= |s| && r == s[..p] + (a + css + b) + s[p..]
  {
    var r := Widen(s, css);
    if Contains(s, Marker) {
    } else if Contains(s, "</head>") {
      var i := Find(s, "</head>").value;
      WidenHead(s, css);
      assert [] + (css + "\n") == [] + css + "\n";
      InsertCarriesMarker(s, i, [], css, "\n");
    } else if BodyTagEnd(s).Some? {
      var k := BodyTagEnd(s).value;
      WidenBody(s, css);
      InsertCarriesMarker(s, k, "\n", css, "\n");
    } else if Contains(s, "<body") {
    } else {
      assert r == s[..0] + ([] + css + "\n") + s[0..];
      InsertCarriesMarker(s, 0, [], css, "\n");
    }
  }

  /** Widening a page twice gives the same page as widening it once. */
  lemma WidenIdempotent(s: string, css: string)
    requires IsWideCss(css)
    ensures Widen(Widen(s, css), css) == Widen(s, css)
  {
    WidenInserts(s, css);
  }
}
