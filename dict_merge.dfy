/**
 * Shallow dict merging (`_merge_dicts` in build_site.py, `merge_dicts` in
 * build_readme.py, which are the same code) and the folding of a directory of
 * YAML files into one configuration (`load_config`, `load_placeholders`).
 */
module DictMerge {
  import opened Wrappers
  import opened PyValue

  /** The dict that `out = dict(base); for k, v in extra.items(): out[k] = v` leaves. */
  function Merge(base: Dict, extra: Dict): Dict
    decreases |extra|
  {
    if extra == [] then base else Merge(Put(base, extra[0].key, extra[0].val), extra[1..])
  }

  /** The merge loop itself; `base` is a value here, so the caller's dict is never changed. */
  method MergeDicts(base: Dict, extra: Dict) returns (out: Dict)
    ensures out == Merge(base, extra)
  {
    out := base;
    var i := 0;
    while i < |extra|
      invariant 0 <= i <= |extra|
      invariant Merge(out, extra[i..]) == Merge(base, extra)
    {
      assert extra[i..][1..] == extra[i + 1..];
      out := Put(out, extra[i].key, extra[i].val);
      i := i + 1;
    }
    assert extra[i..] == [];
  }

  /** A dict without repeated keys, split at its first item. */
  lemma DistinctFirst(extra: Dict, k: string)
    requires extra != [] && DistinctKeys(extra)
    ensures DistinctKeys(extra[1..])
    ensures k in Keys(extra) <==> k == extra[0].key || k in Keys(extra[1..])
    ensures k == extra[0].key ==> k !in Keys(extra[1..]) && Get(extra, k) == Some(extra[0].val)
    ensures k != extra[0].key ==> Get(extra, k) == Get(extra[1..], k)
  {
    assert Keys(extra) == [extra[0].key] + Keys(extra[1..]);
  }

  /** On a shared key the `extra` value wins; every other key keeps its `base` value. */
  lemma {:induction false} MergeGet(base: Dict, extra: Dict, k: string)
    requires DistinctKeys(extra)
    ensures Get(Merge(base, extra), k) == if k in Keys(extra) then Get(extra, k) else Get(base, k)
    decreases |extra|
  {
    if extra != [] {
      DistinctFirst(extra, k);
      MergeGet(Put(base, extra[0].key, extra[0].val), extra[1..], k);
    }
  }

  /** Assigning a key keeps the existing keys in their positions. */
  lemma PutKeepsKeyOrder(base: Dict, k: string, v: Value)
    ensures |Put(base, k, v)| >= |base| && Keys(Put(base, k, v))[..|base|] == Keys(base)
  {
  }

  lemma PrefixOfPrefix(ks: seq<string>, a: seq<string>, b: seq<string>)
    requires |a| <= |b| <= |ks| && ks[..|b|] == b && b[..|a|] == a
    ensures ks[..|a|] == a
  {
    assert ks[..|a|] == ks[..|b|][..|a|];
  }

  /** The keys of `base` keep their positions; new keys come after them. */
  lemma {:induction false} MergeKeepsBaseOrder(base: Dict, extra: Dict)
    ensures |Merge(base, extra)| >= |base|
    ensures Keys(Merge(base, extra))[..|base|] == Keys(base)
    decreases |extra|
  {
    if extra != [] {
      var b' := Put(base, extra[0].key, extra[0].val);
      MergeKeepsBaseOrder(b', extra[1..]);
      PutKeepsKeyOrder(base, extra[0].key, extra[0].val);
      PrefixOfPrefix(Keys(Merge(b', extra[1..])), Keys(base), Keys(b'));
    }
  }

  /** Folding a sequence of documents left to right with `Merge`, starting from `{}`. */
  function MergeAll(docs: seq<Dict>): Dict {
    if docs == [] then [] else Merge(MergeAll(docs[..|docs| - 1]), docs[|docs| - 1])
  }

  /** The value of `k` in the last document that has `k`. */
  function LastWith(docs: seq<Dict>, k: string): Option<Value> {
    if docs == [] then None
    else if k in Keys(docs[|docs| - 1]) then Get(docs[|docs| - 1], k)
    else LastWith(docs[..|docs| - 1], k)
  }

  /** After folding, each key holds its value from the last document that sets it. */
  lemma {:induction false} MergeAllLastWins(docs: seq<Dict>, k: string)
    requires forall i :: 0 <= i < |docs| ==> DistinctKeys(docs[i])
    ensures Get(MergeAll(docs), k) == LastWith(docs, k)
  {
    if docs != [] {
      var init := docs[..|docs| - 1];
      MergeAllLastWins(init, k);
      MergeGet(MergeAll(init), docs[|docs| - 1], k);
    }
  }

  /** A key set in a later group of documents overrides every earlier group. */
  lemma {:induction false} LastWithAppend(a: seq<Dict>, b: seq<Dict>, k: string)
    ensures LastWith(a + b, k) == if LastWith(b, k).Some? then LastWith(b, k) else LastWith(a, k)
    decreases |b|
  {
    if b == [] {
      assert a + b == a;
    } else {
      var ab := a + b;
      assert ab[..|ab| - 1] == a + b[..|b| - 1];
      assert ab[|ab| - 1] == b[|b| - 1];
      LastWithAppend(a, b[..|b| - 1], k);
    }
  }

  /** Where the configuration comes from: nothing, one YAML file, or a directory of them. */
  datatype ConfigSource =
    | Missing
    | SingleFile(doc: Dict)
      // the `*.yml` documents in sorted path order, then the `*.yaml` ones
    | Directory(yml: seq<Dict>, yaml: seq<Dict>)

  /**
   * `load_placeholders`: a missing path raises FileNotFoundError, a file is
   * used as it is, and a directory's documents are merged with the `*.yml`
   * files first and the `*.yaml` files after them, so the last one wins.
   */
  function LoadPlaceholders(src: ConfigSource): (r: Result<Dict, Exception>)
    ensures r.Err? <==> src.Missing?
    ensures src.SingleFile? ==> r == Ok(src.doc)
  {
    match src
    case Missing => Err(FileNotFoundError)
    case SingleFile(doc) => Ok(doc)
    case Directory(yml, yaml) => Ok(MergeAll(yml + yaml))
  }

  /**
   * `load_placeholders` as it runs: a missing path raises, a file is used as
   * it is, and a directory's documents go through `MergeFiles`.
   */
  method ReadPlaceholders(src: ConfigSource) returns (r: Result<Dict, Exception>)
    ensures r == LoadPlaceholders(src)
  {
    match src
    case Missing =>
      return Err(FileNotFoundError);
    case SingleFile(doc) =>
      return Ok(doc);
    case Directory(yml, yaml) =>
      var cfg := MergeFiles(yml + yaml);
      return Ok(cfg);
  }

  /** The file loop of `load_placeholders`: each document is merged into `cfg` with `merge_dicts`. */
  method MergeFiles(files: seq<Dict>) returns (cfg: Dict)
    ensures cfg == MergeAll(files)
  {
    cfg := [];
    var i := 0;
    while i < |files|
      invariant 0 <= i <= |files|
      invariant cfg == MergeAll(files[..i])
    {
      assert files[..i + 1][..i] == files[..i];
      cfg := MergeDicts(cfg, files[i]);
      i := i + 1;
    }
    assert files[..i] == files;
  }

  /** In a directory, a key set by any `*.yaml` file beats every `*.yml` file. */
  lemma LoadPlaceholdersYamlWins(yml: seq<Dict>, yaml: seq<Dict>, k: string)
    requires forall i :: 0 <= i < |yml| ==> DistinctKeys(yml[i])
    requires forall i :: 0 <= i < |yaml| ==> DistinctKeys(yaml[i])
    ensures Get(LoadPlaceholders(Directory(yml, yaml)).value, k) ==
      if LastWith(yaml, k).Some? then LastWith(yaml, k) else LastWith(yml, k)
  {
    var all := yml + yaml;
    forall i | 0 <= i < |all| ensures DistinctKeys(all[i]) {
      if i < |yml| { assert all[i] == yml[i]; } else { assert all[i] == yaml[i - |yml|]; }
    }
    MergeAllLastWins(all, k);
    LastWithAppend(yml, yaml, k);
  }
}
