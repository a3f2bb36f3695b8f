/**
 * `load_references` and `render_references_html` in build_site.py: the
 * `references` list of a repository's references.yml, and that list as HTML,
 * one `<li class='ref-item'>` per reference, every field HTML-escaped.
 */
module References {
  import opened Wrappers
  import opened PyText
  import opened PyValue

  /** The paragraph shown when there is no reference. */
  const NoReferences: string := "<p class=\"muted\"><em>No references provided yet.</em></p>"

  /** What reading a repository's `references.yml` gives. */
  datatype RefFile =
    | NoFile
      // reading or parsing the file raised
    | Unreadable
    | Parsed(doc: Value)

  /**
   * `load_references`: the list under `references` in the parsed document.
   * A missing file, a failed parse, an empty document, a document without
   * `.get` (the exception is caught) and a `references` value that is not a
   * list all give no references.
   */
  function LoadReferences(f: RefFile): (refs: seq<Value>)
    ensures refs != [] ==> f.Parsed? && f.doc.VDict? && Get(f.doc.entries, "references") == Some(VList(refs))
    ensures f.Parsed? && f.doc.VDict? && Get(f.doc.entries, "references").Some? &&
            Get(f.doc.entries, "references").value.VList? ==>
              refs == Get(f.doc.entries, "references").value.items
  {
    match f
    case Parsed(doc) =>
      var data := if Truthy(doc) then doc else VDict([]);
      if !data.VDict? then []
      else
        (match GetOr(data.entries, "references", VList([]))
         case VList(items) => items
         case _ => [])
    case _ => []
  }

  /** `str(r.get(k, "")).strip()`. */
  function Field(r: Dict, k: string): string {
    Strip(Str(GetOr(r, k, VStr(""))))
  }

  /** The title as shown: a blank title reads "Untitled". */
  function DisplayTitle(r: Dict): (t: string)
    ensures t != []
    ensures Field(r, "title") != [] ==> t == Field(r, "title")
  {
    var t := Field(r, "title");
    if t == "" then "Untitled" else t
  }

  /** `" — ".join(p for p in [author, year] if p)`. */
  function MetaLine(author: string, year: string): string {
    Join(NonEmpty([author, year]), " — ")
  }

  /** The separator appears only when there are both an author and a year. */
  lemma MetaLineCases(author: string, year: string)
    ensures MetaLine(author, year) ==
      if author != [] && year != [] then author + " — " + year else author + year
  {
    NonEmptyPair(author, year);
    if author == [] && year == [] {
    } else if author == [] {
      assert NonEmpty([author, year]) == [year];
      assert author + year == year;
    } else if year == [] {
      assert NonEmpty([author, year]) == [author];
      assert author + year == author;
    } else {
      assert NonEmpty([author, year]) == [author, year];
      assert [author, year][1..] == [year];
      assert Join([year], " — ") == year;
    }
  }

  /** The title line: a link opening in a new tab when the reference has a URL. */
  function TitleHtml(title: string, url: string): string {
    if url != "" then
      "<a href='" + HtmlEscape(url) + "' target='_blank' rel='noopener noreferrer'><strong>" + title + "</strong></a>"
    else "<strong>" + title + "</strong>"
  }

  /** The lines of one item: the title, then the meta and note lines when they are not empty. */
  function ItemParts(r: Dict): seq<string> {
    var meta := MetaLine(HtmlEscape(Field(r, "author")), HtmlEscape(Field(r, "year")));
    var note := HtmlEscape(Field(r, "note"));
    [TitleHtml(HtmlEscape(DisplayTitle(r)), Field(r, "url"))]
      + (if meta != "" then ["<div class='ref-meta'>" + meta + "</div>"] else [])
      + (if note != "" then ["<div class='ref-note'><em>" + note + "</em></div>"] else [])
  }

  /** One reference as a list item; `r.get` fails on a reference that is not a dict. */
  function RefItem(ref: Value): Result<string, Exception> {
    if !ref.VDict? then Err(AttributeError)
    else Ok("<li class='ref-item'>" + Join(ItemParts(ref.entries), "\n") + "</li>")
  }

  function ListHtml(items: seq<string>): string {
    "<ul class='ref-list'>\n" + Join(items, "\n") + "\n</ul>"
  }

  /** The whole block `render_references_html` returns. */
  function ReferencesHtml(refs: seq<Value>): Result<string, Exception> {
    if refs == [] then Ok(NoReferences)
    else
      var items :- MapResult(refs, RefItem);
      Ok(ListHtml(items))
  }

  /** `render_references_html`: the item loop. */
  method RenderReferencesHtml(refs: seq<Value>) returns (r: Result<string, Exception>)
    ensures r == ReferencesHtml(refs)
  {
    if refs == [] {
      return Ok(NoReferences);
    }
    var items: seq<string> := [];
    var i := 0;
    while i < |refs|
      invariant 0 <= i <= |refs|
      invariant MapResult(refs[..i], RefItem) == Ok(items)
    {
      var item := RefItem(refs[i]);
      MapResultSnoc(refs, RefItem, i);
      if item.Err? {
        MapResultErr(refs, RefItem, i + 1);
        return Err(item.error);
      }
      items := items + [item.value];
      i := i + 1;
    }
    assert refs[..i] == refs;
    r := Ok(ListHtml(items));
  }

  lemma RefItemOk(ref: Value)
    ensures RefItem(ref).Ok? <==> ref.VDict?
  {
  }

  /**
   * The list renders exactly when every reference is a dict, and then it has
   * one item per reference, in input order.
   */
  lemma RenderItemsSpec(refs: seq<Value>)
    ensures MapResult(refs, RefItem).Ok? <==> forall i :: 0 <= i < |refs| ==> refs[i].VDict?
    ensures MapResult(refs, RefItem).Ok? ==>
      |MapResult(refs, RefItem).value| == |refs| &&
      forall i :: 0 <= i < |refs| ==> MapResult(refs, RefItem).value[i] == RefItem(refs[i]).value
  {
    MapResultOk(refs, RefItem);
    forall i | 0 <= i < |refs| ensures RefItem(refs[i]).Ok? <==> refs[i].VDict? {
      RefItemOk(refs[i]);
    }
    if MapResult(refs, RefItem).Ok? {
      MapResultInOrder(refs, RefItem);
    }
  }

  /** No reference gives the fixed paragraph; otherwise the output is a `<ul>` list. */
  lemma ReferencesHtmlShape(refs: seq<Value>)
    ensures refs == [] ==> ReferencesHtml(refs) == Ok(NoReferences)
    ensures refs != [] && ReferencesHtml(refs).Ok? ==>
      IsPrefix("<ul class='ref-list'>\n", ReferencesHtml(refs).value)
  {
  }

  /**
   * Every field is shown HTML-escaped: the title text holds no `<`, `>` or
   * quote, so a reference cannot inject markup; a blank title reads "Untitled".
   */
  lemma TitleIsEscaped(r: Dict)
    ensures var t := HtmlEscape(DisplayTitle(r));
      t != [] && '<' !in t && '>' !in t && '\'' !in t
    ensures Field(r, "title") == [] ==> DisplayTitle(r) == "Untitled"
  {
  }
}
