/**
 * The notebook tree that `collect_tree` in build_site.py builds from a
 * recursive listing of the source directory: directory nodes for every
 * directory met, a file node for every converted notebook, and then the
 * removal of every directory that holds no notebook.
 */
module NotebookTree {
  import opened Wrappers
  import opened PyText
  import opened PyValue
  import opened NotebookFiles

  datatype Node =
    | Dir(name: string, path: string, children: seq<Node>)
    | File(name: string, path: string, nbHtml: string)

  /** `str(Path(*parts))` for a relative path (the root's path is ""). */
  function PathOf(parts: seq<string>): string {
    Join(parts, "/")
  }

  // ---------------------------------------------------------------------------
  // File names

  /** `path.suffix.lower() == ".ipynb"`. */
  predicate IsNotebookName(name: string) {
    AsciiLower(NameSuffix(name)) == ".ipynb"
  }

  /** A notebook's name has a non-empty stem before a six-character extension that reads ".ipynb" in any case. */
  lemma NotebookNameShape(name: string)
    requires IsNotebookName(name)
    ensures |name| > 6 && name[|name| - 6] == '.'
    ensures AsciiLower(name[|name| - 6..]) == ".ipynb"
  {
    var i := LastIndex(name, '.').value;
    assert NameSuffix(name) == name[i..];
    assert |NameSuffix(name)| == 6;
    assert AsciiLowerChar(name[i]) == '.';
  }

  /** `PurePath(name).with_suffix(".html").name`. */
  function HtmlName(name: string): string {
    name[..|name| - |NameSuffix(name)|] + ".html"
  }

  // ---------------------------------------------------------------------------
  // The listing and the notebooks it holds

  /** One path of `sorted(src.rglob("*"))`, as its parts relative to the source directory. */
  datatype Listed = Listed(parts: seq<string>, isDir: bool)

  /** `out in path.parents or path == out`, where `outRel` is the output directory's place under the source, if it is under it. */
  predicate UnderOut(parts: seq<string>, outRel: Option<seq<string>>) {
    outRel.Some? && |outRel.value| <= |parts| && parts[..|outRel.value|] == outRel.value
  }

  /** A listed path that the scan converts to HTML. */
  predicate Converted(e: Listed, outRel: Option<seq<string>>) {
    !UnderOut(e.parts, outRel) && e.parts != [] && !e.isDir && IsNotebookName(e.parts[|e.parts| - 1])
  }

  /** The file node of the notebook at `parts`, with the page nbconvert writes for it. */
  function NotebookNode(parts: seq<string>): Node
    requires parts != []
  {
    var name := parts[|parts| - 1];
    File(name, PathOf(parts), PathOf(parts[..|parts| - 1] + [HtmlName(name)]))
  }

  /** The file nodes of the converted notebooks, in listing order. */
  function Notebooks(listing: seq<Listed>, outRel: Option<seq<string>>): seq<Node> {
    if listing == [] then []
    else
      var e := listing[|listing| - 1];
      Notebooks(listing[..|listing| - 1], outRel) + (if Converted(e, outRel) then [NotebookNode(e.parts)] else [])
  }

  // ---------------------------------------------------------------------------
  // The file nodes of a tree, and where each node sits

  function FilesOf(n: Node): seq<Node>
    decreases n
  {
    match n
    case File(_, _, _) => [n]
    case Dir(_, _, cs) => FilesIn(cs)
  }

  function FilesIn(cs: seq<Node>): seq<Node>
    decreases cs
  {
    if cs == [] then [] else FilesIn(cs[..|cs| - 1]) + FilesOf(cs[|cs| - 1])
  }

  lemma FilesInAppend(cs: seq<Node>, x: Node)
    ensures FilesIn(cs + [x]) == FilesIn(cs) + FilesOf(x)
  {
    assert (cs + [x])[..|cs|] == cs;
  }

  lemma FilesInLast(cs: seq<Node>)
    requires cs != []
    ensures FilesIn(cs) == FilesIn(cs[..|cs| - 1]) + FilesOf(cs[|cs| - 1])
  {
  }

  lemma MultisetAddBoth(a: multiset<Node>, b: multiset<Node>, c: multiset<Node>, d: multiset<Node>, x: multiset<Node>)
    requires a + c == d + x
    ensures (a + b) + c == (d + b) + x
  {
    forall e ensures ((a + b) + c)[e] == ((d + b) + x)[e] {
      assert (a + c)[e] == (d + x)[e];
    }
  }

  /** Replacing one child replaces that child's files. */
  lemma {:induction false} FilesInUpdate(cs: seq<Node>, i: nat, x: Node)
    requires i < |cs|
    ensures multiset(FilesIn(cs[i := x])) + multiset(FilesOf(cs[i])) == multiset(FilesIn(cs)) + multiset(FilesOf(x))
    decreases |cs|
  {
    if i == |cs| - 1 {
      FilesInUpdateLast(cs, x);
    } else {
      FilesInUpdate(cs[..|cs| - 1], i, x);
      FilesInUpdateFront(cs, i, x);
    }
  }

  lemma FilesInUpdateLast(cs: seq<Node>, x: Node)
    requires cs != []
    ensures var i := |cs| - 1;
      multiset(FilesIn(cs[i := x])) + multiset(FilesOf(cs[i])) == multiset(FilesIn(cs)) + multiset(FilesOf(x))
  {
    var last := |cs| - 1;
    var ds := cs[last := x];
    FilesInLast(cs);
    FilesInLast(ds);
    assert ds[..last] == cs[..last];
  }

  lemma FilesInUpdateFront(cs: seq<Node>, i: nat, x: Node)
    requires i < |cs| - 1
    requires var front := cs[..|cs| - 1];
      multiset(FilesIn(front[i := x])) + multiset(FilesOf(front[i])) == multiset(FilesIn(front)) + multiset(FilesOf(x))
    ensures multiset(FilesIn(cs[i := x])) + multiset(FilesOf(cs[i])) == multiset(FilesIn(cs)) + multiset(FilesOf(x))
  {
    var last := |cs| - 1;
    var front := cs[..last];
    var ds := cs[i := x];
    FilesInLast(cs);
    FilesInLast(ds);
    assert ds[..last] == front[i := x];
    assert ds[last] == cs[last];
    assert front[i] == cs[i];
    MultisetAddBoth(multiset(FilesIn(front[i := x])), multiset(FilesOf(cs[last])), multiset(FilesOf(cs[i])),
      multiset(FilesIn(front)), multiset(FilesOf(x)));
  }

  /**
   * `n` sits at the relative path `at`: a directory's path and name follow
   * from `at`, no two sub-directories share a name, every child sits one
   * level further down, and a file is the notebook node of its own path.
   */
  predicate WellPlaced(n: Node, at: seq<string>)
    decreases n
  {
    match n
    case File(_, _, _) => at != [] && n == NotebookNode(at)
    case Dir(name, path, cs) =>
      && path == PathOf(at)
      && (at != [] ==> name == at[|at| - 1])
      && DistinctDirNames(cs)
      && ChildrenPlaced(cs, at)
  }

  /** No two sub-directories among `cs` share a name. */
  predicate DistinctDirNames(cs: seq<Node>) {
    forall i, j :: 0 <= i < j < |cs| && cs[i].Dir? && cs[j].Dir? ==> cs[i].name != cs[j].name
  }

  /** Every child sits one level below `at`, under its own name. */
  predicate ChildrenPlaced(cs: seq<Node>, at: seq<string>)
    decreases cs
  {
    forall i :: 0 <= i < |cs| ==> WellPlaced(cs[i], at + [cs[i].name])
  }

  // ---------------------------------------------------------------------------
  // Building the tree

  /** The position of the sub-directory called `name`, if there is one. */
  function FindDirChild(cs: seq<Node>, name: string): (r: Option<nat>)
    ensures r.Some? ==> r.value < |cs| && cs[r.value].Dir? && cs[r.value].name == name
    ensures r.None? ==> forall j :: 0 <= j < |cs| ==> !(cs[j].Dir? && cs[j].name == name)
  {
    if cs == [] then None
    else if cs[0].Dir? && cs[0].name == name then Some(0)
    else
      match FindDirChild(cs[1..], name)
      case Some(j) => Some(j + 1)
      case None => None
  }

  /**
   * Walks down from the directory `node`, which sits at `at`, along the
   * directory names `rest`, appending a new directory node wherever one is
   * missing, and appends `file` (if any) to the last directory reached.
   */
  function Place(node: Node, at: seq<string>, rest: seq<string>, file: Option<Node>): (r: Node)
    requires node.Dir?
    ensures r.Dir? && r.name == node.name && r.path == node.path
    decreases |rest|
  {
    if rest == [] then
      match file
      case Some(f) => Dir(node.name, node.path, node.children + [f])
      case None => node
    else
      var here := at + [rest[0]];
      match FindDirChild(node.children, rest[0])
      case Some(i) =>
        Dir(node.name, node.path, node.children[i := Place(node.children[i], here, rest[1..], file)])
      case None =>
        Dir(node.name, node.path, node.children + [Place(Dir(rest[0], PathOf(here), []), here, rest[1..], file)])
  }

  /** Placing adds exactly the given file to the tree's files. */
  lemma MultisetCancel(m1: multiset<Node>, m2: multiset<Node>, m3: multiset<Node>, m4: multiset<Node>, a: multiset<Node>)
    requires m1 + m2 == m3 + m4 && m4 == m2 + a
    ensures m1 == m3 + a
  {
    forall e ensures m1[e] == (m3 + a)[e] {
      assert (m1 + m2)[e] == (m3 + m4)[e];
    }
  }

  lemma {:induction false} PlaceFiles(node: Node, at: seq<string>, rest: seq<string>, file: Option<Node>)
    requires node.Dir? && (file.Some? ==> file.value.File?)
    ensures multiset(FilesOf(Place(node, at, rest, file))) ==
      multiset(FilesOf(node)) + (if file.Some? then multiset{file.value} else multiset{})
    decreases |rest|
  {
    var cs := node.children;
    var added: multiset<Node> := if file.Some? then multiset{file.value} else multiset{};
    var r := Place(node, at, rest, file);
    if rest == [] {
      if file.Some? {
        assert r.children == cs + [file.value];
        FilesInAppend(cs, file.value);
      }
    } else {
      var here := at + [rest[0]];
      match FindDirChild(cs, rest[0])
      case Some(i) =>
        var x := Place(cs[i], here, rest[1..], file);
        assert r.children == cs[i := x];
        assert FilesOf(r) == FilesIn(cs[i := x]);
        PlaceFiles(cs[i], here, rest[1..], file);
        FilesInUpdate(cs, i, x);
        MultisetCancel(multiset(FilesIn(cs[i := x])), multiset(FilesOf(cs[i])), multiset(FilesIn(cs)), multiset(FilesOf(x)), added);
      case None =>
        var newDir := Dir(rest[0], PathOf(here), []);
        var x := Place(newDir, here, rest[1..], file);
        assert r.children == cs + [x];
        PlaceFiles(newDir, here, rest[1..], file);
        assert FilesOf(newDir) == [];
        FilesInAppend(cs, x);
    }
  }

  /** Replacing a child by a node of the same kind and name that sits where it belongs keeps the directory well placed. */
  lemma WellPlacedUpdate(node: Node, at: seq<string>, i: nat, x: Node)
    requires node.Dir? && WellPlaced(node, at) && i < |node.children|
    requires x.Dir? == node.children[i].Dir? && x.name == node.children[i].name
    requires WellPlaced(x, at + [x.name])
    ensures WellPlaced(Dir(node.name, node.path, node.children[i := x]), at)
  {
    var cs := node.children;
    var ds := cs[i := x];
    assert forall j :: 0 <= j < |ds| ==> ds[j].Dir? == cs[j].Dir? && ds[j].name == cs[j].name;
    assert forall j :: 0 <= j < |ds| && j != i ==> ds[j] == cs[j];
  }

  /** Appending a node that sits where it belongs, and whose name no sub-directory has, keeps the directory well placed. */
  lemma WellPlacedAppend(node: Node, at: seq<string>, x: Node)
    requires node.Dir? && WellPlaced(node, at)
    requires x.Dir? ==> forall j :: 0 <= j < |node.children| ==> !(node.children[j].Dir? && node.children[j].name == x.name)
    requires WellPlaced(x, at + [x.name])
    ensures WellPlaced(Dir(node.name, node.path, node.children + [x]), at)
  {
    ChildrenPlacedAppend(node.children, at, x);
    DistinctDirNamesAppend(node.children, x);
  }

  lemma ChildrenPlacedAppend(cs: seq<Node>, at: seq<string>, x: Node)
    requires ChildrenPlaced(cs, at) && WellPlaced(x, at + [x.name])
    ensures ChildrenPlaced(cs + [x], at)
  {
    var ds := cs + [x];
    forall j | 0 <= j < |ds|
      ensures WellPlaced(ds[j], at + [ds[j].name])
    {
      if j < |cs| {
        assert ds[j] == cs[j];
      }
    }
  }

  lemma DistinctDirNamesAppend(cs: seq<Node>, x: Node)
    requires DistinctDirNames(cs)
    requires x.Dir? ==> forall j :: 0 <= j < |cs| ==> !(cs[j].Dir? && cs[j].name == x.name)
    ensures DistinctDirNames(cs + [x])
  {
    var ds := cs + [x];
    forall i, j | 0 <= i < j < |ds| && ds[i].Dir? && ds[j].Dir?
      ensures ds[i].name != ds[j].name
    {
      assert ds[i] == cs[i];
      if j < |cs| {
        assert ds[j] == cs[j];
      }
    }
  }

  /** Placing keeps every node where it belongs. */
  lemma {:induction false} PlaceWellPlaced(node: Node, at: seq<string>, rest: seq<string>, file: Option<Node>)
    requires node.Dir? && WellPlaced(node, at)
    requires file.Some? ==> file.value.File? && WellPlaced(file.value, at + rest + [file.value.name])
    ensures WellPlaced(Place(node, at, rest, file), at)
    decreases |rest|
  {
    var cs := node.children;
    if rest == [] {
      if file.Some? {
        assert at + rest == at;
        WellPlacedAppend(node, at, file.value);
      }
    } else {
      var here := at + [rest[0]];
      assert at + rest == here + rest[1..] by {
        assert rest == [rest[0]] + rest[1..];
      }
      match FindDirChild(cs, rest[0])
      case Some(i) =>
        PlaceWellPlaced(cs[i], here, rest[1..], file);
        WellPlacedUpdate(node, at, i, Place(cs[i], here, rest[1..], file));
      case None =>
        var newDir := Dir(rest[0], PathOf(here), []);
        PlaceWellPlaced(newDir, here, rest[1..], file);
        WellPlacedAppend(node, at, Place(newDir, here, rest[1..], file));
    }
  }

  // ---------------------------------------------------------------------------
  // Removing directories without notebooks

  /** Every directory in the tree holds at least one notebook somewhere below it. */
  predicate NoEmptyDirs(n: Node)
    decreases n
  {
    match n
    case File(_, _, _) => true
    case Dir(_, _, cs) => FilesIn(cs) != [] && forall i :: 0 <= i < |cs| ==> NoEmptyDirs(cs[i])
  }

  lemma {:induction false} FilesInNonEmpty(cs: seq<Node>)
    ensures FilesIn(cs) != [] <==> exists i :: 0 <= i < |cs| && FilesOf(cs[i]) != []
    decreases |cs|
  {
    if cs != [] {
      var last := |cs| - 1;
      FilesInNonEmpty(cs[..last]);
      FilesInLast(cs);
      HasFilesSnoc(cs);
    }
  }

  /** Some child of `cs` has files exactly when one before the last does or the last does. */
  lemma HasFilesSnoc(cs: seq<Node>)
    requires cs != []
    ensures var front := cs[..|cs| - 1];
      (exists i :: 0 <= i < |cs| && FilesOf(cs[i]) != []) <==>
      (exists i :: 0 <= i < |front| && FilesOf(front[i]) != []) || FilesOf(cs[|cs| - 1]) != []
  {
    var front := cs[..|cs| - 1];
    if exists i :: 0 <= i < |front| && FilesOf(front[i]) != [] {
      var i :| 0 <= i < |front| && FilesOf(front[i]) != [];
      assert cs[i] == front[i];
    }
    if exists i :: 0 <= i < |cs| && FilesOf(cs[i]) != [] {
      var i :| 0 <= i < |cs| && FilesOf(cs[i]) != [];
      if i < |front| {
        assert front[i] == cs[i];
      }
    }
  }

  /**
   * `prune_empty_dirs`: a file stays; a directory stays, with its surviving
   * children in their order, exactly when it holds a notebook somewhere below.
   */
  function Prune(n: Node): (r: Option<Node>)
    ensures r.Some? <==> FilesOf(n) != []
    ensures r.Some? ==> r.value.Dir? == n.Dir? && r.value.name == n.name && r.value.path == n.path
    decreases n, 1
  {
    match n
    case File(_, _, _) => Some(n)
    case Dir(name, path, cs) =>
      var kept := PruneAll(cs);
      if FilesIn(cs) != [] then Some(Dir(name, path, kept)) else None
  }

  /** The pruned forms of the children that survive, in order. */
  function PruneAll(cs: seq<Node>): seq<Node>
    decreases cs, 0
  {
    if cs == [] then []
    else
      var front := PruneAll(cs[..|cs| - 1]);
      match Prune(cs[|cs| - 1])
      case Some(m) => front + [m]
      case None => front
  }

  /** Pruning keeps every file, in the same order, and leaves no directory without one. */
  lemma {:induction false} PruneSpec(n: Node)
    requires FilesOf(n) != []
    ensures FilesOf(Prune(n).value) == FilesOf(n) && NoEmptyDirs(Prune(n).value)
    decreases n, 1
  {
    if n.Dir? {
      PruneAllSpec(n.children);
    }
  }

  lemma {:induction false} PruneAllSpec(cs: seq<Node>)
    ensures FilesIn(PruneAll(cs)) == FilesIn(cs)
    ensures forall i :: 0 <= i < |PruneAll(cs)| ==> NoEmptyDirs(PruneAll(cs)[i])
    decreases cs, 0
  {
    if cs != [] {
      var front := cs[..|cs| - 1];
      var last := cs[|cs| - 1];
      PruneAllSpec(front);
      var pf := PruneAll(front);
      if FilesOf(last) != [] {
        PruneSpec(last);
        var m := Prune(last).value;
        assert PruneAll(cs) == pf + [m];
        FilesInAppend(pf, m);
      } else {
        assert PruneAll(cs) == pf;
      }
    }
  }

  /** The positions of the children that hold a notebook, in increasing order. */
  function Survivors(cs: seq<Node>): (idx: seq<nat>)
    ensures forall k :: 0 <= k < |idx| ==> idx[k] < |cs|
  {
    if cs == [] then []
    else Survivors(cs[..|cs| - 1]) + (if FilesOf(cs[|cs| - 1]) != [] then [|cs| - 1] else [])
  }

  lemma {:induction false} SurvivorsSpec(cs: seq<Node>)
    ensures forall k, l :: 0 <= k < l < |Survivors(cs)| ==> Survivors(cs)[k] < Survivors(cs)[l]
    ensures forall i :: 0 <= i < |cs| ==> (i in Survivors(cs) <==> FilesOf(cs[i]) != [])
    decreases |cs|
  {
    if cs != [] {
      var front := cs[..|cs| - 1];
      SurvivorsSpec(front);
      assert forall i :: 0 <= i < |front| ==> front[i] == cs[i];
    }
  }

  /** Pruning the children keeps exactly the survivors, each pruned, in their original order. */
  lemma {:induction false} PruneAllOrder(cs: seq<Node>)
    ensures |PruneAll(cs)| == |Survivors(cs)|
    ensures forall k :: 0 <= k < |PruneAll(cs)| ==>
      Prune(cs[Survivors(cs)[k]]) == Some(PruneAll(cs)[k])
    decreases |cs|
  {
    if cs != [] {
      var front := cs[..|cs| - 1];
      var last := cs[|cs| - 1];
      PruneAllOrder(front);
      var sf := Survivors(front);
      var pf := PruneAll(front);
      var s := Survivors(cs);
      var p := PruneAll(cs);
      assert |p| == |s| && |p| >= |pf| by {
        if FilesOf(last) != [] {
          assert s == sf + [|cs| - 1];
          assert p == pf + [Prune(last).value];
        } else {
          assert s == sf;
          assert p == pf;
        }
      }
      forall k | 0 <= k < |p| ensures Prune(cs[s[k]]) == Some(p[k]) {
        if k < |pf| {
          assert s[k] == sf[k] && p[k] == pf[k];
          assert cs[sf[k]] == front[sf[k]];
        } else {
          assert s[k] == |cs| - 1 && p[k] == Prune(last).value;
        }
      }
    }
  }

  /** A tree without empty directories is its own pruned form. */
  lemma {:induction false} PruneFixed(n: Node)
    requires NoEmptyDirs(n)
    ensures Prune(n) == Some(n)
    decreases n, 1
  {
    if n.Dir? {
      PruneAllFixed(n.children);
    }
  }

  lemma {:induction false} PruneAllFixed(cs: seq<Node>)
    requires forall i :: 0 <= i < |cs| ==> NoEmptyDirs(cs[i]) && FilesOf(cs[i]) != []
    ensures PruneAll(cs) == cs
    decreases cs, 0
  {
    if cs != [] {
      var front := cs[..|cs| - 1];
      assert forall i :: 0 <= i < |front| ==> front[i] == cs[i];
      PruneAllFixed(front);
      PruneFixed(cs[|cs| - 1]);
      assert front + [cs[|cs| - 1]] == cs;
    }
  }

  /** Pruning twice is pruning once. */
  lemma PruneIdempotent(n: Node)
    requires Prune(n).Some?
    ensures Prune(Prune(n).value) == Prune(n)
  {
    PruneSpec(n);
    PruneFixed(Prune(n).value);
  }

  /** Pruning keeps every surviving node where it was. */
  lemma {:induction false} PruneWellPlaced(n: Node, at: seq<string>)
    requires WellPlaced(n, at) && Prune(n).Some?
    ensures WellPlaced(Prune(n).value, at)
    decreases n
  {
    if n.Dir? {
      var cs := n.children;
      var ks := PruneAll(cs);
      var idx := Survivors(cs);
      PruneAllOrder(cs);
      SurvivorsSpec(cs);
      forall k | 0 <= k < |ks| ensures WellPlaced(ks[k], at + [ks[k].name]) {
        PruneWellPlaced(cs[idx[k]], at + [cs[idx[k]].name]);
      }
      forall k, l | 0 <= k < l < |ks| && ks[k].Dir? && ks[l].Dir? ensures ks[k].name != ks[l].name {
        assert idx[k] < idx[l];
      }
    }
  }

  /** The recursive `prune_empty_dirs` with its loop over the children. */
  method PruneEmptyDirs(node: Node) returns (pruned: Option<Node>, hasNotebook: bool)
    ensures pruned == Prune(node)
    ensures hasNotebook <==> FilesOf(node) != []
    decreases node
  {
    if node.File? {
      return Some(node), true;
    }
    var cs := node.children;
    var kept: seq<Node> := [];
    var has := false;
    var i := 0;
    while i < |cs|
      invariant 0 <= i <= |cs|
      invariant kept == PruneAll(cs[..i])
      invariant has <==> FilesIn(cs[..i]) != []
    {
      var p, h := PruneEmptyDirs(cs[i]);
      assert cs[..i + 1][..i] == cs[..i];
      if p.Some? {
        kept := kept + [p.value];
      }
      has := has || h;
      i := i + 1;
    }
    assert cs[..i] == cs;
    pruned := if has then Some(Dir(node.name, node.path, kept)) else None;
    hasNotebook := has;
  }

  // ---------------------------------------------------------------------------
  // The scan

  /**
   * The exception one pass of the scan raises, if any. Only a notebook the
   * scan converts can raise. `parsed` gives the notebook at a path as
   * `json.loads` reads it, `None` when that raises (then `ensure_minimal_cell`
   * returns at once). The cell check runs first; only a notebook that passes
   * it reaches nbconvert, whose failure raises CalledProcessError.
   */
  function EntryError(e: Listed, outRel: Option<seq<string>>, parsed: seq<string> -> Option<Value>,
                      converts: seq<string> -> bool): Option<Exception>
  {
    if Converted(e, outRel) then NotebookError(e.parts, parsed, converts) else None
  }

  /** The exception a notebook raises: that of its cell check, else that of nbconvert. */
  function NotebookError(parts: seq<string>, parsed: seq<string> -> Option<Value>, converts: seq<string> -> bool): Option<Exception> {
    if CellError(parsed(parts)).Some? then CellError(parsed(parts))
    else if converts(parts) then None
    else Some(CalledProcessError)
  }

  /** What `ensure_minimal_cell` raises on a file: nothing when the file does not parse. */
  function CellError(parsed: Option<Value>): Option<Exception> {
    match parsed
    case None => None
    case Some(nb) =>
      match EnsureMinimalCell(nb)
      case Err(x) => Some(x)
      case Ok(_) => None
  }

  /** The exception the scan raises: that of the first entry of the listing that raises. */
  function ScanError(listing: seq<Listed>, outRel: Option<seq<string>>, parsed: seq<string> -> Option<Value>,
                     converts: seq<string> -> bool): Option<Exception>
  {
    if listing == [] then None
    else
      var before := ScanError(listing[..|listing| - 1], outRel, parsed, converts);
      if before.Some? then before else EntryError(listing[|listing| - 1], outRel, parsed, converts)
  }

  /**
   * An entry raises exactly when it is a converted notebook that either parses
   * and fails its cell check, or passes the check and fails to convert. A
   * notebook that does not parse fails only in nbconvert. The exception is
   * AttributeError or TypeError from the cell check, else CalledProcessError.
   */
  lemma EntryErrorSpec(e: Listed, outRel: Option<seq<string>>, parsed: seq<string> -> Option<Value>,
                       converts: seq<string> -> bool)
    ensures var cellOk := parsed(e.parts).None? || EnsureMinimalCell(parsed(e.parts).value).Ok?;
      EntryError(e, outRel, parsed, converts).None? <==> !Converted(e, outRel) || (cellOk && converts(e.parts))
    ensures Converted(e, outRel) && parsed(e.parts).None? ==>
      EntryError(e, outRel, parsed, converts) == (if converts(e.parts) then None else Some(CalledProcessError))
    ensures EntryError(e, outRel, parsed, converts).Some? ==>
      EntryError(e, outRel, parsed, converts).value in {AttributeError, TypeError, CalledProcessError}
  {
    if Converted(e, outRel) && parsed(e.parts).Some? {
      EnsureMinimalCellFails(parsed(e.parts).value);
    }
  }

  /** The scan completes exactly when no entry of the listing raises. */
  lemma {:induction false} ScanErrorNone(listing: seq<Listed>, outRel: Option<seq<string>>,
                                         parsed: seq<string> -> Option<Value>, converts: seq<string> -> bool)
    ensures ScanError(listing, outRel, parsed, converts).None? <==>
      forall j :: 0 <= j < |listing| ==> EntryError(listing[j], outRel, parsed, converts).None?
    decreases |listing|
  {
    if listing != [] {
      var front := listing[..|listing| - 1];
      ScanErrorNone(front, outRel, parsed, converts);
      ForallSnoc(listing, front, e => EntryError(e, outRel, parsed, converts).None?);
    }
  }

  /** The scan raises the exception of the first entry that raises. */
  lemma {:induction false} ScanErrorFirst(listing: seq<Listed>, j: nat, outRel: Option<seq<string>>,
                                          parsed: seq<string> -> Option<Value>, converts: seq<string> -> bool)
    requires j < |listing| && EntryError(listing[j], outRel, parsed, converts).Some?
    requires forall k :: 0 <= k < j ==> EntryError(listing[k], outRel, parsed, converts).None?
    ensures ScanError(listing, outRel, parsed, converts) == EntryError(listing[j], outRel, parsed, converts)
    decreases |listing|
  {
    var front := listing[..|listing| - 1];
    if j < |front| {
      forall k | 0 <= k < j ensures EntryError(front[k], outRel, parsed, converts).None? {
        assert front[k] == listing[k];
      }
      assert front[j] == listing[j];
      ScanErrorFirst(front, j, outRel, parsed, converts);
    } else {
      ScanErrorNone(front, outRel, parsed, converts);
      forall k | 0 <= k < |front| ensures EntryError(front[k], outRel, parsed, converts).None? {
        assert front[k] == listing[k];
      }
    }
  }

  /** Once a prefix of the listing raises, the whole scan raises the same exception. */
  lemma {:induction false} ScanErrorPrefix(listing: seq<Listed>, i: nat, outRel: Option<seq<string>>,
                                           parsed: seq<string> -> Option<Value>, converts: seq<string> -> bool)
    requires i <= |listing| && ScanError(listing[..i], outRel, parsed, converts).Some?
    ensures ScanError(listing, outRel, parsed, converts) == ScanError(listing[..i], outRel, parsed, converts)
    decreases |listing|
  {
    if i < |listing| {
      var front := listing[..|listing| - 1];
      assert front[..i] == listing[..i];
      ScanErrorPrefix(front, i, outRel, parsed, converts);
    } else {
      assert listing[..i] == listing;
    }
  }

  /** A condition holds of every element exactly when it holds of all but the last and of the last. */
  lemma ForallSnoc<T>(s: seq<T>, front: seq<T>, p: T -> bool)
    requires s != [] && front == s[..|s| - 1]
    ensures (forall j :: 0 <= j < |s| ==> p(s[j])) <==> (forall j :: 0 <= j < |front| ==> p(front[j])) && p(s[|s| - 1])
  {
    if (forall j :: 0 <= j < |front| ==> p(front[j])) && p(s[|s| - 1]) {
      forall j | 0 <= j < |s| ensures p(s[j]) {
        if j < |front| {
          assert front[j] == s[j];
        }
      }
    }
  }

  /** The parts of the directories an entry needs: all of them for a directory, the parent's for a file. */
  function DirParts(e: Listed): seq<string>
    requires e.parts != []
  {
    if e.isDir then e.parts else e.parts[..|e.parts| - 1]
  }

  /**
   * What one pass of the scan loop does to the tree when it raises nothing: entries under the output directory are skipped, the
   * directories on the entry's path are ensured, and a notebook's file node is
   * appended to its parent directory.
   */
  function Step(root: Node, e: Listed, outRel: Option<seq<string>>): (r: Node)
    requires root.Dir?
    ensures r.Dir? && r.name == root.name && r.path == root.path
  {
    if UnderOut(e.parts, outRel) || e.parts == [] then root
    else
      var withDirs := Place(root, [], DirParts(e), None);
      if Converted(e, outRel) then Place(withDirs, [], DirParts(e), Some(NotebookNode(e.parts)))
      else withDirs
  }

  /** The tree before pruning, after the whole listing when no entry raises. */
  function Scan(srcName: string, listing: seq<Listed>, outRel: Option<seq<string>>): (r: Node)
    ensures r.Dir? && r.name == srcName && r.path == ""
  {
    if listing == [] then Dir(srcName, "", [])
    else Step(Scan(srcName, listing[..|listing| - 1], outRel), listing[|listing| - 1], outRel)
  }

  /** One pass adds the entry's notebook, if it is one, to the tree's files. */
  lemma StepFiles(root: Node, e: Listed, outRel: Option<seq<string>>)
    requires root.Dir?
    ensures multiset(FilesOf(Step(root, e, outRel))) ==
      multiset(FilesOf(root)) + (if Converted(e, outRel) then multiset{NotebookNode(e.parts)} else multiset{})
  {
    var r := Step(root, e, outRel);
    if !UnderOut(e.parts, outRel) && e.parts != [] {
      var dirs := DirParts(e);
      var withDirs := Place(root, [], dirs, None);
      PlaceFiles(root, [], dirs, None);
      assert multiset(FilesOf(withDirs)) == multiset(FilesOf(root));
      if Converted(e, outRel) {
        var f := NotebookNode(e.parts);
        assert r == Place(withDirs, [], dirs, Some(f));
        PlaceFiles(withDirs, [], dirs, Some(f));
      } else {
        assert r == withDirs;
      }
    } else {
      assert r == root;
    }
  }

  /** A notebook's file node sits at its own path, one level below its directory parts. */
  lemma NotebookWellPlaced(parts: seq<string>, dirs: seq<string>)
    requires parts != [] && dirs == parts[..|parts| - 1]
    ensures NotebookNode(parts).File? && WellPlaced(NotebookNode(parts), [] + dirs + [NotebookNode(parts).name])
  {
    assert [] + dirs + [parts[|parts| - 1]] == parts;
  }

  /** One pass keeps every node where it belongs. */
  lemma StepWellPlaced(root: Node, e: Listed, outRel: Option<seq<string>>)
    requires root.Dir? && WellPlaced(root, [])
    ensures WellPlaced(Step(root, e, outRel), [])
  {
    var r := Step(root, e, outRel);
    if !UnderOut(e.parts, outRel) && e.parts != [] {
      var dirs := DirParts(e);
      var withDirs := Place(root, [], dirs, None);
      PlaceWellPlaced(root, [], dirs, None);
      if Converted(e, outRel) {
        var f := NotebookNode(e.parts);
        NotebookWellPlaced(e.parts, dirs);
        assert r == Place(withDirs, [], dirs, Some(f));
        PlaceWellPlaced(withDirs, [], dirs, Some(f));
      } else {
        assert r == withDirs;
      }
    } else {
      assert r == root;
    }
  }

  /** The scanned tree holds exactly the listing's notebooks, each where it belongs. */
  lemma {:induction false} ScanSpec(srcName: string, listing: seq<Listed>, outRel: Option<seq<string>>)
    ensures multiset(FilesOf(Scan(srcName, listing, outRel))) == multiset(Notebooks(listing, outRel))
    ensures WellPlaced(Scan(srcName, listing, outRel), [])
    decreases |listing|
  {
    if listing != [] {
      var front := listing[..|listing| - 1];
      ScanSpec(srcName, front, outRel);
      StepFiles(Scan(srcName, front, outRel), listing[|listing| - 1], outRel);
      StepWellPlaced(Scan(srcName, front, outRel), listing[|listing| - 1], outRel);
    }
  }

  lemma NotebooksSnoc(listing: seq<Listed>, i: nat, outRel: Option<seq<string>>)
    requires i < |listing|
    ensures Notebooks(listing[..i + 1], outRel) ==
      Notebooks(listing[..i], outRel) + (if Converted(listing[i], outRel) then [NotebookNode(listing[i].parts)] else [])
  {
    assert listing[..i + 1][..i] == listing[..i];
  }

  lemma ScanErrorSnoc(listing: seq<Listed>, i: nat, outRel: Option<seq<string>>,
                      parsed: seq<string> -> Option<Value>, converts: seq<string> -> bool)
    requires i < |listing| && ScanError(listing[..i], outRel, parsed, converts).None?
    ensures ScanError(listing[..i + 1], outRel, parsed, converts) == EntryError(listing[i], outRel, parsed, converts)
  {
    assert listing[..i + 1][..i] == listing[..i];
  }

  lemma ScanSnoc(srcName: string, listing: seq<Listed>, i: nat, outRel: Option<seq<string>>)
    requires i < |listing|
    ensures Scan(srcName, listing[..i + 1], outRel) == Step(Scan(srcName, listing[..i], outRel), listing[i], outRel)
  {
    assert listing[..i + 1][..i] == listing[..i];
  }

  /**
   * The work the scan does on one notebook: `ensure_minimal_cell` on the
   * parsed file, then nbconvert; the first exception raised is returned.
   */
  method ConvertNotebook(parts: seq<string>, parsed: seq<string> -> Option<Value>, converts: seq<string> -> bool)
    returns (err: Option<Exception>)
    ensures err == NotebookError(parts, parsed, converts)
  {
    var nb := parsed(parts);
    if nb.Some? {
      var checked := EnsureMinimalCell(nb.value);
      if checked.Err? {
        return Some(checked.error);
      }
    }
    if !converts(parts) {
      return Some(CalledProcessError);
    }
    return None;
  }

  /**
   * The scan loop of `collect_tree` over the sorted listing. For each notebook
   * it runs `ensure_minimal_cell` on the parsed file (`parsed`), then nbconvert
   * (`converts` says whether it succeeds, `check=True` raising otherwise); the
   * first exception raised ends the scan.
   */
  method ScanListing(srcName: string, listing: seq<Listed>, outRel: Option<seq<string>>,
                     parsed: seq<string> -> Option<Value>, converts: seq<string> -> bool)
    returns (r: Result<(Node, nat), Exception>)
    ensures r.Err? <==> ScanError(listing, outRel, parsed, converts).Some?
    ensures r.Err? ==> Some(r.error) == ScanError(listing, outRel, parsed, converts)
    ensures r.Ok? ==> r.value == (Scan(srcName, listing, outRel), |Notebooks(listing, outRel)|)
  {
    var root := Dir(srcName, "", []);
    var count := 0;
    var i := 0;
    while i < |listing|
      invariant 0 <= i <= |listing|
      invariant ScanError(listing[..i], outRel, parsed, converts).None?
      invariant count == |Notebooks(listing[..i], outRel)|
      invariant root == Scan(srcName, listing[..i], outRel)
    {
      var e := listing[i];
      NotebooksSnoc(listing, i, outRel);
      ScanSnoc(srcName, listing, i, outRel);
      ScanErrorSnoc(listing, i, outRel, parsed, converts);
      ghost var before := root;
      if !UnderOut(e.parts, outRel) && e.parts != [] {
        var dirs := DirParts(e);
        root := Place(root, [], dirs, None);
        if Converted(e, outRel) {
          var err := ConvertNotebook(e.parts, parsed, converts);
          if err.Some? {
            ScanErrorPrefix(listing, i + 1, outRel, parsed, converts);
            return Err(err.value);
          }
          count := count + 1;
          root := Place(root, [], dirs, Some(NotebookNode(e.parts)));
        }
      }
      assert root == Step(before, e, outRel);
      i := i + 1;
    }
    assert listing[..i] == listing;
    return Ok((root, count));
  }

  /**
   * `collect_tree`: the scan, then the pruning, with an empty root in place
   * of a tree without notebooks.
   */
  method CollectTree(srcName: string, listing: seq<Listed>, outRel: Option<seq<string>>,
                     parsed: seq<string> -> Option<Value>, converts: seq<string> -> bool)
    returns (r: Result<(Node, nat), Exception>)
    ensures r.Err? <==> ScanError(listing, outRel, parsed, converts).Some?
    ensures r.Err? ==> Some(r.error) == ScanError(listing, outRel, parsed, converts)
    ensures r.Ok? ==> r.value.1 == |Notebooks(listing, outRel)|
    ensures r.Ok? ==> var tree := r.value.0;
      && tree.Dir? && tree.name == srcName && tree.path == ""
      && multiset(FilesOf(tree)) == multiset(Notebooks(listing, outRel))
      && WellPlaced(tree, [])
      && (Notebooks(listing, outRel) != [] ==> NoEmptyDirs(tree))
      && (Notebooks(listing, outRel) == [] ==> tree == Dir(srcName, "", []))
  {
    var scanned := ScanListing(srcName, listing, outRel, parsed, converts);
    if scanned.Err? {
      return Err(scanned.error);
    }
    var root := scanned.value.0;
    var count := scanned.value.1;
    ScanSpec(srcName, listing, outRel);
    var pruned, _ := PruneEmptyDirs(root);
    if pruned.Some? {
      PruneSpec(root);
      PruneWellPlaced(root, []);
      return Ok((pruned.value, count));
    }
    assert multiset(FilesOf(root)) == multiset{};
    return Ok((Dir(srcName, "", []), count));
  }

  // ---------------------------------------------------------------------------
  // The tree as the JSON document the pages embed

  function ToValue(n: Node): Value
    decreases n
  {
    match n
    case File(name, path, html) =>
      VDict([Item("type", VStr("file")), Item("name", VStr(name)), Item("path", VStr(path)), Item("nb_html", VStr(html))])
    case Dir(name, path, cs) =>
      VDict([Item("type", VStr("dir")), Item("name", VStr(name)), Item("path", VStr(path)),
             Item("children", VList(seq(|cs|, i requires 0 <= i < |cs| => ToValue(cs[i]))))])
  }

  /** Reads a node back from its JSON document. */
  function FromValue(v: Value): Option<Node>
    decreases v
  {
    match v
    case VDict(d) =>
      if |d| == 4 && d[0].key == "type" && d[1] .key == "name" && d[2].key == "path"
         && d[0].val.VStr? && d[1].val.VStr? && d[2].val.VStr? then
        if d[0].val.s == "file" && d[3].key == "nb_html" && d[3].val.VStr? then
          Some(File(d[1].val.s, d[2].val.s, d[3].val.s))
        else if d[0].val.s == "dir" && d[3].key == "children" && d[3].val.VList? then
          match FromValues(d[3].val.items)
          case Some(cs) => Some(Dir(d[1].val.s, d[2].val.s, cs))
          case None => None
        else None
      else None
    case _ => None
  }

  function FromValues(vs: seq<Value>): Option<seq<Node>>
    decreases vs
  {
    if vs == [] then Some([])
    else
      match (FromValues(vs[..|vs| - 1]), FromValue(vs[|vs| - 1]))
      case (Some(ns), Some(n)) => Some(ns + [n])
      case _ => None
  }

  /** The JSON document carries the whole tree: reading it back gives the same nodes. */
  lemma {:induction false} FromToValue(n: Node)
    ensures FromValue(ToValue(n)) == Some(n)
    decreases n, 1
  {
    if n.Dir? {
      FromToValues(n.children);
    }
  }

  lemma {:induction false} FromToValues(cs: seq<Node>)
    ensures FromValues(seq(|cs|, i requires 0 <= i < |cs| => ToValue(cs[i]))) == Some(cs)
    decreases cs, 0
  {
    if cs != [] {
      var vs := seq(|cs|, i requires 0 <= i < |cs| => ToValue(cs[i]));
      var front := cs[..|cs| - 1];
      assert vs[..|vs| - 1] == seq(|front|, i requires 0 <= i < |front| => ToValue(front[i]));
      FromToValues(front);
      FromToValue(cs[|cs| - 1]);
      assert front + [cs[|cs| - 1]] == cs;
    }
  }
}
