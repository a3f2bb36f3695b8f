/**
 * assembly_posts.py: turns the course registry into Jekyll posts. The
 * registry document is a list of items, or a dict holding that list under one
 * of a few known keys; the items are sorted by completion date and name, and
 * each becomes one post numbered by its place in that order. Reading the YAML
 * file, creating the directory and writing the posts are not modelled: the
 * posts are returned as records, and "today" is a parameter.
 */
module AssemblyPosts {
  import opened Wrappers
  import opened PyText
  import opened PyValue

  // ---------------------------------------------------------------------------
  // load_registry

  /** The keys under which a dict registry may hold its list, in the order they are tried. */
  const RegistryKeys: seq<string> := ["repos", "repositories", "items", "orgs", "entries"]

  predicate ListUnder(d: Dict, k: string) {
    Get(d, k).Some? && Get(d, k).value.VList?
  }

  /** The first of `keys` from `k` on whose value is a list. */
  function FirstListKey(d: Dict, keys: seq<string>, k: nat): (r: Option<nat>)
    requires k <= |keys|
    ensures r.Some? ==> k <= r.value < |keys| && ListUnder(d, keys[r.value])
    ensures r.Some? ==> forall j :: k <= j < r.value ==> !ListUnder(d, keys[j])
    ensures r.None? ==> forall j :: k <= j < |keys| ==> !ListUnder(d, keys[j])
    decreases |keys| - k
  {
    if k == |keys| then None
    else if ListUnder(d, keys[k]) then Some(k)
    else FirstListKey(d, keys, k + 1)
  }

  /** `load_registry` on the parsed document. */
  function LoadRegistry(data: Value): Result<seq<Value>, Exception> {
    if data.VList? then Ok(data.items)
    else if data.VDict? then
      match FirstListKey(data.entries, RegistryKeys, 0)
      case Some(i) => Ok(Get(data.entries, RegistryKeys[i]).value.items)
      case None => Err(ValueError)
    else Err(ValueError)
  }

  /** `load_registry`: the loop over the known keys, returning the first list it meets. */
  method ReadRegistry(data: Value) returns (r: Result<seq<Value>, Exception>)
    ensures r == LoadRegistry(data)
  {
    if data.VList? {
      return Ok(data.items);
    }
    if data.VDict? {
      var k := 0;
      while k < |RegistryKeys|
        invariant 0 <= k <= |RegistryKeys|
        invariant FirstListKey(data.entries, RegistryKeys, k) == FirstListKey(data.entries, RegistryKeys, 0)
      {
        var val := Get(data.entries, RegistryKeys[k]);
        if val.Some? && val.value.VList? {
          return Ok(val.value.items);
        }
        k := k + 1;
      }
    }
    return Err(ValueError);
  }

  /**
   * A list document is returned as it is; a dict gives the list under the
   * first of repos, repositories, items, orgs, entries that holds one; every
   * other document (a scalar, null, a dict without such a list) raises ValueError.
   */
  lemma LoadRegistrySpec(data: Value)
    ensures data.VList? ==> LoadRegistry(data) == Ok(data.items)
    ensures LoadRegistry(data).Ok? <==>
      data.VList? || (data.VDict? && exists i :: 0 <= i < |RegistryKeys| && ListUnder(data.entries, RegistryKeys[i]))
    ensures LoadRegistry(data).Err? ==> LoadRegistry(data).error == ValueError
    ensures data.VDict? && LoadRegistry(data).Ok? ==>
      exists i :: 0 <= i < |RegistryKeys| && Get(data.entries, RegistryKeys[i]) == Some(VList(LoadRegistry(data).value)) &&
        forall j :: 0 <= j < i ==> !ListUnder(data.entries, RegistryKeys[j])
  {
    if data.VDict? {
      match FirstListKey(data.entries, RegistryKeys, 0)
      case Some(i) =>
        assert Get(data.entries, RegistryKeys[i]) == Some(VList(LoadRegistry(data).value));
      case None =>
    }
  }

  // ---------------------------------------------------------------------------
  // The sort

  /** Python's `<` on str: code point order, a proper prefix first. */
  predicate StrLt(a: string, b: string)
    decreases |a|
  {
    if a == [] then b != []
    else if b == [] then false
    else a[0] < b[0] || (a[0] == b[0] && StrLt(a[1..], b[1..]))
  }

  lemma {:induction false} StrLtIrreflexive(a: string)
    ensures !StrLt(a, a)
    decreases |a|
  {
    if a != [] {
      StrLtIrreflexive(a[1..]);
    }
  }

  lemma {:induction false} StrLtTransitive(a: string, b: string, c: string)
    requires StrLt(a, b) && StrLt(b, c)
    ensures StrLt(a, c)
    decreases |a|
  {
    if a != [] && a[0] == b[0] && b[0] == c[0] {
      StrLtTransitive(a[1..], b[1..], c[1..]);
    }
  }

  lemma {:induction false} StrLtTotal(a: string, b: string)
    requires a != b
    ensures StrLt(a, b) || StrLt(b, a)
    decreases |a|
  {
    if a != [] && b != [] && a[0] == b[0] {
      assert a == [a[0]] + a[1..] && b == [b[0]] + b[1..];
      StrLtTotal(a[1..], b[1..]);
    }
  }

  /** An item with its sort key `(completed_on or today, name)` and its place in the registry. */
  datatype Keyed = Keyed(date: string, name: string, idx: int, item: Value)

  /** `completed_on or today`. */
  function DateOf(d: Dict, today: string): Value {
    var c := GetOr(d, "completed_on", VNone);
    if Truthy(c) then c else VStr(today)
  }

  /**
   * `sort_key` on the item at place `idx`. Dates and names are compared as
   * strings; a key part of another type is a TypeError.
   */
  function KeyedOf(idx: int, item: Value, today: string): Result<Keyed, Exception> {
    if !item.VDict? then Err(AttributeError)
    else
      var date := DateOf(item.entries, today);
      var name := GetOr(item.entries, "name", VStr(""));
      if !date.VStr? || !name.VStr? then Err(TypeError)
      else Ok(Keyed(date.s, name.s, idx, item))
  }

  function KeyFn(today: string): ((int, Value)) -> Result<Keyed, Exception> {
    (p: (int, Value)) => KeyedOf(p.0, p.1, today)
  }

  /** The items with their keys and places, or the error computing a key raised. */
  function Decorated(items: seq<Value>, today: string): Result<seq<Keyed>, Exception> {
    MapResult(Places(items), KeyFn(today))
  }

  /** A keyed item whose key is the one `sort_key` computes for its item. */
  predicate KeyedRight(k: Keyed, today: string) {
    KeyedOf(k.idx, k.item, today) == Ok(k)
  }

  /**
   * The order `sorted(items, key=sort_key)` produces: by date, then by name,
   * and (the sort being stable) by place in the registry for equal keys.
   */
  predicate KeyLt(x: Keyed, y: Keyed) {
    StrLt(x.date, y.date) || (x.date == y.date && (StrLt(x.name, y.name) || (x.name == y.name && x.idx < y.idx)))
  }

  lemma KeyLtTransitive(x: Keyed, y: Keyed, z: Keyed)
    requires KeyLt(x, y) && KeyLt(y, z)
    ensures KeyLt(x, z)
  {
    if StrLt(x.date, y.date) && StrLt(y.date, z.date) {
      StrLtTransitive(x.date, y.date, z.date);
    }
    if x.date == y.date == z.date && StrLt(x.name, y.name) && StrLt(y.name, z.name) {
      StrLtTransitive(x.name, y.name, z.name);
    }
  }

  lemma KeyLtTotal(x: Keyed, y: Keyed)
    requires x.idx != y.idx
    ensures KeyLt(x, y) || KeyLt(y, x)
  {
    if x.date != y.date {
      StrLtTotal(x.date, y.date);
    } else if x.name != y.name {
      StrLtTotal(x.name, y.name);
    }
  }

  function Insert(x: Keyed, s: seq<Keyed>): seq<Keyed>
    decreases |s|
  {
    if s == [] then [x]
    else if KeyLt(x, s[0]) then [x] + s
    else [s[0]] + Insert(x, s[1..])
  }

  /** The sorted order, computed by insertion. */
  function SortKeyed(s: seq<Keyed>): seq<Keyed>
    decreases |s|
  {
    if s == [] then [] else Insert(s[0], SortKeyed(s[1..]))
  }

  predicate StrictlySorted(s: seq<Keyed>) {
    forall i, j :: 0 <= i < j < |s| ==> KeyLt(s[i], s[j])
  }

  predicate DistinctPlaces(s: seq<Keyed>) {
    forall i, j :: 0 <= i < j < |s| ==> s[i].idx != s[j].idx
  }

  /** Every element of `s` comes after `b`. */
  predicate Above(b: Keyed, s: seq<Keyed>) {
    forall i :: 0 <= i < |s| ==> KeyLt(b, s[i])
  }

  lemma {:induction false} InsertAbove(b: Keyed, x: Keyed, s: seq<Keyed>)
    requires Above(b, s) && KeyLt(b, x)
    ensures Above(b, Insert(x, s))
    decreases |s|
  {
    if s != [] && !KeyLt(x, s[0]) {
      InsertAbove(b, x, s[1..]);
    }
  }

  lemma ConsSorted(b: Keyed, s: seq<Keyed>)
    requires Above(b, s) && StrictlySorted(s)
    ensures StrictlySorted([b] + s)
  {
    var r := [b] + s;
    forall i, j | 0 <= i < j < |r| ensures KeyLt(r[i], r[j]) {
      if i > 0 {
        assert r[i] == s[i - 1] && r[j] == s[j - 1];
      }
    }
  }

  lemma {:induction false} InsertSorted(x: Keyed, s: seq<Keyed>)
    requires StrictlySorted(s)
    requires forall i :: 0 <= i < |s| ==> s[i].idx != x.idx
    ensures StrictlySorted(Insert(x, s))
    decreases |s|
  {
    if s == [] {
    } else if KeyLt(x, s[0]) {
      forall j | 0 <= j < |s| ensures KeyLt(x, s[j]) {
        if j > 0 {
          KeyLtTransitive(x, s[0], s[j]);
        }
      }
      ConsSorted(x, s);
    } else {
      KeyLtTotal(x, s[0]);
      var tail := s[1..];
      assert Above(s[0], tail) by {
        forall j | 0 <= j < |tail| ensures KeyLt(s[0], tail[j]) {
          assert tail[j] == s[j + 1];
        }
      }
      assert StrictlySorted(tail) by {
        forall i, j | 0 <= i < j < |tail| ensures KeyLt(tail[i], tail[j]) {
          assert tail[i] == s[i + 1] && tail[j] == s[j + 1];
        }
      }
      InsertAbove(s[0], x, tail);
      InsertSorted(x, tail);
      ConsSorted(s[0], Insert(x, tail));
    }
  }

  lemma {:induction false} InsertPermutes(x: Keyed, s: seq<Keyed>)
    ensures multiset(Insert(x, s)) == multiset(s) + multiset{x}
    decreases |s|
  {
    if s != [] && !KeyLt(x, s[0]) {
      InsertPermutes(x, s[1..]);
      assert s == [s[0]] + s[1..];
    }
  }

  /** Sorting keeps every keyed item (a permutation) and puts them in strictly ascending order. */
  lemma {:induction false} SortKeyedSpec(s: seq<Keyed>)
    requires DistinctPlaces(s)
    ensures multiset(SortKeyed(s)) == multiset(s)
    ensures StrictlySorted(SortKeyed(s))
    decreases |s|
  {
    if s != [] {
      var tail := s[1..];
      DistinctTail(s);
      SortKeyedSpec(tail);
      var sorted := SortKeyed(tail);
      PlaceAbsentPermuted(s[0], tail, sorted);
      InsertSorted(s[0], sorted);
      InsertPermutes(s[0], sorted);
      assert s == [s[0]] + tail;
    }
  }

  /** Without its first element, a sequence with distinct places keeps them, none equal to the first's. */
  lemma DistinctTail(s: seq<Keyed>)
    requires s != [] && DistinctPlaces(s)
    ensures DistinctPlaces(s[1..])
    ensures forall k :: 0 <= k < |s[1..]| ==> s[1..][k].idx != s[0].idx
  {
    var tail := s[1..];
    forall i, j | 0 <= i < j < |tail| ensures tail[i].idx != tail[j].idx {
      assert tail[i] == s[i + 1] && tail[j] == s[j + 1];
    }
    forall k | 0 <= k < |tail| ensures tail[k].idx != s[0].idx {
      assert tail[k] == s[k + 1];
    }
  }

  /** A place no element has is still absent after a permutation. */
  lemma PlaceAbsentPermuted(x: Keyed, t: seq<Keyed>, u: seq<Keyed>)
    requires multiset(u) == multiset(t)
    requires forall k :: 0 <= k < |t| ==> t[k].idx != x.idx
    ensures forall i :: 0 <= i < |u| ==> u[i].idx != x.idx
  {
    forall i | 0 <= i < |u| ensures u[i].idx != x.idx {
      assert u[i] in multiset(t);
      var k :| 0 <= k < |t| && t[k] == u[i];
    }
  }

  /** The pairs `(place, item)` the keys are computed from. */
  function Places(items: seq<Value>): (r: seq<(int, Value)>)
    ensures |r| == |items| && forall i :: 0 <= i < |items| ==> r[i] == (i, items[i])
  {
    seq(|items|, i requires 0 <= i < |items| => (i, items[i]))
  }


  /**
   * Computing the keys succeeds exactly when every item has one, and then
   * keeps each item at its place, with its own key.
   */
  lemma DecoratedSpec(items: seq<Value>, today: string)
    ensures Decorated(items, today).Ok? <==> forall i :: 0 <= i < |items| ==> KeyedOf(i, items[i], today).Ok?
    ensures Decorated(items, today).Ok? ==>
      |Decorated(items, today).value| == |items| &&
      forall i :: 0 <= i < |items| ==> Decorated(items, today).value[i] == KeyedOf(i, items[i], today).value
  {
    var ps := Places(items);
    forall i | 0 <= i < |items| ensures KeyFn(today)(ps[i]) == KeyedOf(i, items[i], today) {
    }
    MapResultOk(ps, KeyFn(today));
    if Decorated(items, today).Ok? {
      MapResultInOrder(ps, KeyFn(today));
    }
  }

  lemma DecoratedKeys(items: seq<Value>, today: string)
    requires Decorated(items, today).Ok?
    ensures DistinctPlaces(Decorated(items, today).value)
    ensures forall i :: 0 <= i < |Decorated(items, today).value| ==> KeyedRight(Decorated(items, today).value[i], today)
  {
    DecoratedSpec(items, today);
    var keyed := Decorated(items, today).value;
    forall i | 0 <= i < |keyed| ensures keyed[i].idx == i && KeyedRight(keyed[i], today) {
      assert keyed[i] == KeyedOf(i, items[i], today).value;
    }
  }

  /** The items in the order `generate_posts` numbers them. */
  function SortedItems(items: seq<Value>, today: string): seq<Keyed>
    requires Decorated(items, today).Ok?
  {
    SortKeyed(Decorated(items, today).value)
  }

  /**
   * The sorted items are the registry's keyed items, each once, in ascending
   * `(date, name)` order, with items of equal keys in registry order.
   */
  lemma SortedItemsSpec(items: seq<Value>, today: string)
    requires Decorated(items, today).Ok?
    ensures |SortedItems(items, today)| == |items|
    ensures multiset(SortedItems(items, today)) == multiset(Decorated(items, today).value)
    ensures forall i :: 0 <= i < |items| ==> KeyedRight(SortedItems(items, today)[i], today)
    ensures forall i, j :: 0 <= i < j < |items| ==>
      var x := SortedItems(items, today)[i];
      var y := SortedItems(items, today)[j];
      StrLt(x.date, y.date) || (x.date == y.date && StrLt(x.name, y.name)) ||
      (x.date == y.date && x.name == y.name && x.idx < y.idx)
  {
    DecoratedSpec(items, today);
    DecoratedKeys(items, today);
    var keyed := Decorated(items, today).value;
    var sorted := SortKeyed(keyed);
    SortKeyedSpec(keyed);
    assert |multiset(sorted)| == |multiset(keyed)|;
    forall i | 0 <= i < |sorted| ensures KeyedRight(sorted[i], today) {
      assert sorted[i] in multiset(keyed);
      var k :| 0 <= k < |keyed| && keyed[k] == sorted[i];
    }
    forall i, j | 0 <= i < j < |sorted| ensures KeyLt(sorted[i], sorted[j]) {
    }
  }

  // ---------------------------------------------------------------------------
  // generate_posts

  /** The front-matter fields of one post, and the file it is written to. */
  datatype Post = Post(
    fileName: string,
    title: string,
    link: string,
    category: string,
    area: string,
    modalId: int,
    date: string,
    img: string,
    description: string)

  /** `item[k]`. */
  function Required(d: Dict, k: string): (r: Result<Value, Exception>)
    ensures r.Err? <==> k !in Keys(d)
    ensures r.Err? ==> r.error == KeyError(k)
    ensures r.Ok? ==> Get(d, k) == Some(r.value)
  {
    match Get(d, k)
    case Some(v) => Ok(v)
    case None => Err(KeyError(k))
  }

  /** The post of an item with the fields read from it. */
  function PostOf(d: Dict, name: Value, id: Value, title: Value, modalId: int, date: string): Post {
    var desc := GetOr(d, "site_description", VStr(""));
    Post(
      date + "-" + Str(name) + ".markdown",
      Str(id) + " " + Str(title),
      "/" + Str(name),
      Str(GetOr(d, "academic_level", VNone)),
      Str(GetOr(d, "academic_area", VNone)),
      modalId,
      date,
      Str(GetOr(d, "site_hero_image", VNone)),
      if Truthy(desc) then Str(desc) else "")
  }

  /** One post: `name`, `id` and `title` are read in that order and must be present. */
  function MakePost(k: Keyed, modalId: int, today: string): Result<Post, Exception> {
    if !k.item.VDict? then Err(AttributeError)
    else
      var d := k.item.entries;
      var name :- Required(d, "name");
      var id :- Required(d, "id");
      var title :- Required(d, "title");
      Ok(PostOf(d, name, id, title, modalId, Str(DateOf(d, today))))
  }

  /**
   * For an item with its sort key: the post exists exactly when the item has
   * `name`, `id` and `title`, else a KeyError names the first one missing; the
   * post's `modal-id` is the number given, its date is the sort date, its file
   * is `<date>-<name>.markdown` and its link `/<name>`; a missing or falsy
   * `site_description` gives an empty description.
   */
  lemma MakePostSpec(k: Keyed, modalId: int, today: string)
    requires KeyedRight(k, today)
    ensures k.item.VDict?
    ensures var d := k.item.entries;
      MakePost(k, modalId, today).Ok? <==> "name" in Keys(d) && "id" in Keys(d) && "title" in Keys(d)
    ensures var d := k.item.entries;
      MakePost(k, modalId, today).Err? ==>
        MakePost(k, modalId, today).error ==
          (if "name" !in Keys(d) then KeyError("name") else if "id" !in Keys(d) then KeyError("id") else KeyError("title"))
    ensures MakePost(k, modalId, today).Ok? ==>
      var p := MakePost(k, modalId, today).value;
      && p.modalId == modalId
      && p.date == k.date
      && p.fileName == k.date + "-" + k.name + ".markdown"
      && p.link == "/" + k.name
      && (!Truthy(GetOr(k.item.entries, "site_description", VStr(""))) ==> p.description == "")
  {
    var d := k.item.entries;
    if MakePost(k, modalId, today).Ok? {
      var name := Required(d, "name").value;
      assert GetOr(d, "name", VStr("")) == name;
      assert Str(DateOf(d, today)) == k.date;
    }
  }

  /** The sorted items with their `enumerate(..., start=1)` numbers. */
  function Numbered(sorted: seq<Keyed>): (r: seq<(Keyed, int)>)
    ensures |r| == |sorted| && forall i :: 0 <= i < |sorted| ==> r[i] == (sorted[i], i + 1)
  {
    seq(|sorted|, i requires 0 <= i < |sorted| => (sorted[i], i + 1))
  }

  function PostFn(today: string): ((Keyed, int)) -> Result<Post, Exception> {
    (p: (Keyed, int)) => MakePost(p.0, p.1, today)
  }

  /** The posts of the sorted items, numbered from 1, or the first error raised. */
  function PostsOf(sorted: seq<Keyed>, today: string): Result<seq<Post>, Exception> {
    MapResult(Numbered(sorted), PostFn(today))
  }

  /** `generate_posts`: the keys and the sort, then the posts. */
  function Generate(items: seq<Value>, today: string): Result<seq<Post>, Exception> {
    var keyed :- Decorated(items, today);
    PostsOf(SortKeyed(keyed), today)
  }

  /** `generate_posts`: the sort, then the numbering loop. */
  method GeneratePosts(items: seq<Value>, today: string) returns (r: Result<seq<Post>, Exception>)
    ensures r == Generate(items, today)
  {
    var keyed := Decorated(items, today);
    if keyed.Err? {
      return Err(keyed.error);
    }
    var sorted := SortKeyed(keyed.value);
    ghost var numbered := Numbered(sorted);
    var posts: seq<Post> := [];
    for i := 0 to |sorted|
      invariant MapResult(numbered[..i], PostFn(today)) == Ok(posts)
    {
      MapResultSnoc(numbered, PostFn(today), i);
      var post := MakePost(sorted[i], i + 1, today);
      assert PostFn(today)(numbered[i]) == post;
      if post.Err? {
        MapResultErr(numbered, PostFn(today), i + 1);
        return Err(post.error);
      }
      posts := posts + [post.value];
    }
    assert numbered[..|sorted|] == numbered;
    r := Ok(posts);
  }

  lemma PostFnAt(sorted: seq<Keyed>, today: string)
    ensures forall i :: 0 <= i < |sorted| ==> PostFn(today)(Numbered(sorted)[i]) == MakePost(sorted[i], i + 1, today)
  {
  }

  /** The posts exist exactly when every numbered item makes one. */
  lemma PostsOfOk(sorted: seq<Keyed>, today: string)
    ensures PostsOf(sorted, today).Ok? <==> forall i :: 0 <= i < |sorted| ==> MakePost(sorted[i], i + 1, today).Ok?
  {
    PostFnAt(sorted, today);
    MapResultOk(Numbered(sorted), PostFn(today));
  }

  /** The posts follow the items one for one, the i-th numbered i + 1. */
  lemma PostsOfInOrder(sorted: seq<Keyed>, today: string)
    requires PostsOf(sorted, today).Ok?
    ensures |PostsOf(sorted, today).value| == |sorted|
    ensures forall i :: 0 <= i < |sorted| ==>
      MakePost(sorted[i], i + 1, today).Ok? && PostsOf(sorted, today).value[i] == MakePost(sorted[i], i + 1, today).value
  {
    PostFnAt(sorted, today);
    MapResultInOrder(Numbered(sorted), PostFn(today));
  }

  /** Posts of keyed items are numbered from 1 and named after their items' dates and names. */
  lemma PostsNumbering(sorted: seq<Keyed>, today: string)
    requires PostsOf(sorted, today).Ok?
    requires forall i :: 0 <= i < |sorted| ==> KeyedRight(sorted[i], today)
    ensures var posts := PostsOf(sorted, today).value;
      |posts| == |sorted| &&
      forall i :: 0 <= i < |posts| ==>
        && posts[i].modalId == i + 1
        && posts[i].date == sorted[i].date
        && posts[i].fileName == sorted[i].date + "-" + sorted[i].name + ".markdown"
  {
    PostsOfInOrder(sorted, today);
    forall i | 0 <= i < |sorted| ensures var p := MakePost(sorted[i], i + 1, today).value;
      p.modalId == i + 1 && p.date == sorted[i].date && p.fileName == sorted[i].date + "-" + sorted[i].name + ".markdown"
    {
      MakePostSpec(sorted[i], i + 1, today);
    }
  }

  /**
   * The posts follow the sorted items one for one, with `modal-id` running
   * 1..n; each file is named `<date>-<name>.markdown` after its item, with the
   * same date as its `date:` field.
   */
  lemma GenerateSpec(items: seq<Value>, today: string)
    requires Generate(items, today).Ok?
    ensures Decorated(items, today).Ok?
    ensures |SortedItems(items, today)| == |items|
    ensures |Generate(items, today).value| == |items|
    ensures var posts := Generate(items, today).value;
      var sorted := SortedItems(items, today);
      forall i :: 0 <= i < |items| ==>
        && posts[i].modalId == i + 1
        && posts[i].date == sorted[i].date
        && posts[i].fileName == sorted[i].date + "-" + sorted[i].name + ".markdown"
  {
    var sorted := SortedItems(items, today);
    assert Generate(items, today) == PostsOf(sorted, today);
    SortedItemsSpec(items, today);
    PostsNumbering(sorted, today);
  }

  /** When every post is made, the only error the numbering loop can raise is a KeyError. */
  lemma {:induction false} PostErrorsAreKeyErrors(ps: seq<(Keyed, int)>, today: string)
    requires forall i :: 0 <= i < |ps| ==> KeyedRight(ps[i].0, today)
    ensures MapResult(ps, PostFn(today)).Err? ==> MapResult(ps, PostFn(today)).error.KeyError?
    decreases |ps|
  {
    if ps != [] {
      var init := ps[..|ps| - 1];
      var last := ps[|ps| - 1];
      assert forall i :: 0 <= i < |init| ==> init[i] == ps[i];
      PostErrorsAreKeyErrors(init, today);
      MakePostSpec(last.0, last.1, today);
    }
  }

  /** An item without `name`, `id` or `title` makes the whole generation fail with a KeyError. */
  lemma MissingFieldFails(items: seq<Value>, today: string, n: nat, field: string)
    requires Decorated(items, today).Ok? && n < |items| && items[n].VDict?
    requires field == "name" || field == "id" || field == "title"
    requires field !in Keys(items[n].entries)
    ensures Generate(items, today).Err? && Generate(items, today).error.KeyError?
  {
    var m := SortedPlaceOf(items, today, n);
    var sorted := SortedItems(items, today);
    MakePostSpec(sorted[m], m + 1, today);
    PostsOfOk(sorted, today);
    SortedItemsSpec(items, today);
    PostErrorsAreKeyErrors(Numbered(sorted), today);
  }

  /** Where the `n`-th registry item lands in the sorted order. */
  lemma SortedPlaceOf(items: seq<Value>, today: string, n: nat) returns (m: nat)
    requires Decorated(items, today).Ok? && n < |items|
    ensures |SortedItems(items, today)| == |items|
    ensures m < |items| && SortedItems(items, today)[m].item == items[n]
    ensures KeyedRight(SortedItems(items, today)[m], today)
  {
    DecoratedSpec(items, today);
    var x := Decorated(items, today).value[n];
    assert x.item == items[n];
    SortedItemsSpec(items, today);
    var sorted := SortedItems(items, today);
    assert x in multiset(sorted);
    m :| 0 <= m < |sorted| && sorted[m] == x;
  }

  /** The front matter is delimited by `---` lines and carries the post's `modal-id`. */
  lemma FrontMatterShape(p: Post)
    ensures IsPrefix("---\n", FrontMatter(p))
    ensures Contains(FrontMatter(p), "modal-id: " + IntToString(p.modalId) + "\n")
  {
    var fields := FrontFields(p);
    var modal := ModalLine(p);
    Assoc("---\n", fields, "---\n");
    PrefixParts("---\n", fields + "---\n");
    assert modal[0..|modal|] == modal;
    ContainsAt(modal, modal, 0);
    ContainsWithin(FieldsBefore(p), modal, FieldsAfter(p), modal);
    ContainsWithin("---\n", fields, "---\n", modal);
  }

  /** The field lines before `modal-id`. */
  function FieldsBefore(p: Post): string {
    "title: \"" + p.title + "\"\n" +
    "link: \"" + p.link + "\"\n" +
    "category: " + p.category + "\n" +
    "area: " + p.area + "\n" +
    "layout: default\n"
  }

  function ModalLine(p: Post): string {
    "modal-id: " + IntToString(p.modalId) + "\n"
  }

  /** The field lines after `modal-id`. */
  function FieldsAfter(p: Post): string {
    "date: " + p.date + "\n" +
    "img: " + p.img + "\n" +
    "alt: image-alt\n" +
    "description: " + p.description + "\n"
  }

  function FrontFields(p: Post): string {
    FieldsBefore(p) + ModalLine(p) + FieldsAfter(p)
  }

  /** The front matter written to the post's file: the field lines between two `---` lines. */
  function FrontMatter(p: Post): string {
    "---\n" + FrontFields(p) + "---\n"
  }
}
