/**
 * Documents as the scripts see them after `yaml.safe_load` or `json.loads`:
 * None, booleans, integers, strings, lists and insertion-ordered dicts, with
 * Python's truthiness, `str()` and the exceptions the scripts can raise.
 */
module PyValue {
  import opened Wrappers
  import opened PyText

  datatype Value =
    | VNone
    | VBool(b: bool)
    | VInt(i: int)
    | VStr(s: string)
    | VList(items: seq<Value>)
    | VDict(entries: Dict)

  /** One `key: value` pair of a dict. */
  datatype Item = Item(key: string, val: Value)

  /** A dict is its items in insertion order (Python dicts iterate in that order). */
  type Dict = seq<Item>

  /** The exception classes the modelled code raises, without their messages. */
  datatype Exception =
    | AttributeError      // a str method called on a non-str value, `.get` on a non-dict
    | TypeError           // iterating a non-iterable, comparing incomparable values
    | KeyError(key: string)
    | IndexError
    | ValueError
    | RuntimeError        // the scripts' own `raise RuntimeError(...)`
    | FileNotFoundError
    | SystemExit(status: int)
    | CalledProcessError  // a git or rsync invocation exited non-zero

  // ---------------------------------------------------------------------------
  // Dict operations

  function Keys(d: Dict): (ks: seq<string>)
    ensures |ks| == |d| && forall i :: 0 <= i < |d| ==> ks[i] == d[i].key
  {
    if d == [] then [] else [d[0].key] + Keys(d[1..])
  }

  lemma KeysSnoc(d: Dict, it: Item)
    ensures Keys(d + [it]) == Keys(d) + [it.key]
  {
    var l := Keys(d + [it]);
    var r := Keys(d) + [it.key];
    assert |l| == |r|;
    forall i | 0 <= i < |l| ensures l[i] == r[i] {
      if i < |d| {
        assert (d + [it])[i] == d[i];
      }
    }
  }

  /** Python dicts never hold a key twice; parsed documents satisfy this. */
  predicate DistinctKeys(d: Dict) {
    forall i, j :: 0 <= i < j < |d| ==> d[i].key != d[j].key
  }

  /** `d.get(k)`: the value stored under `k`, if any. */
  function Get(d: Dict, k: string): (r: Option<Value>)
    ensures r.Some? <==> k in Keys(d)
    ensures r.Some? ==> exists i :: 0 <= i < |d| && d[i] == Item(k, r.value)
  {
    if d == [] then None
    else if d[0].key == k then Some(d[0].val)
    else Get(d[1..], k)
  }

  /** `d.get(k, default)`. */
  function GetOr(d: Dict, k: string, default: Value): Value {
    match Get(d, k)
    case Some(v) => v
    case None => default
  }

  /**
   * `d[k] = v` on a copy: a key already present keeps its position and gets
   * the new value; a new key is appended.
   */
  function Put(d: Dict, k: string, v: Value): (r: Dict)
    ensures Get(r, k) == Some(v)
    ensures forall k' :: k' != k ==> Get(r, k') == Get(d, k')
    ensures Keys(r) == if k in Keys(d) then Keys(d) else Keys(d) + [k]
  {
    if d == [] then
      ConsFacts(Item(k, v), []);
      [Item(k, v)]
    else if d[0].key == k then
      ConsFacts(Item(k, v), d[1..]);
      ConsFacts(d[0], d[1..]);
      assert d == [d[0]] + d[1..];
      [Item(k, v)] + d[1..]
    else
      var rest := Put(d[1..], k, v);
      PutStep(d, k, v, rest);
      [d[0]] + rest
  }

  /** The step of `Put` past a first item with another key. */
  lemma PutStep(d: Dict, k: string, v: Value, rest: Dict)
    requires d != [] && d[0].key != k
    requires Get(rest, k) == Some(v)
    requires forall k' :: k' != k ==> Get(rest, k') == Get(d[1..], k')
    requires Keys(rest) == if k in Keys(d[1..]) then Keys(d[1..]) else Keys(d[1..]) + [k]
    ensures Get([d[0]] + rest, k) == Some(v)
    ensures forall k' :: k' != k ==> Get([d[0]] + rest, k') == Get(d, k')
    ensures Keys([d[0]] + rest) == if k in Keys(d) then Keys(d) else Keys(d) + [k]
  {
    ConsFacts(d[0], rest);
    ConsFacts(d[0], d[1..]);
    assert d == [d[0]] + d[1..];
    var ks := Keys(d[1..]);
    assert Keys(d) == [d[0].key] + ks;
    assert (k in Keys(d)) == (k in ks);
    if k !in ks {
      SnocAssoc(d[0].key, ks, k);
    }
  }

  lemma SnocAssoc(a: string, ks: seq<string>, k: string)
    ensures [a] + (ks + [k]) == ([a] + ks) + [k]
  {
  }

  /** Lookups and keys of a dict with one item in front. */
  lemma ConsFacts(it: Item, d: Dict)
    ensures Keys([it] + d) == [it.key] + Keys(d)
    ensures forall k :: Get([it] + d, k) == if it.key == k then Some(it.val) else Get(d, k)
  {
    var r := [it] + d;
    assert r[0] == it && r[1..] == d;
  }

  /** A new key goes at the end. */
  lemma {:induction false} PutNew(d: Dict, k: string, v: Value)
    requires k !in Keys(d)
    ensures Put(d, k, v) == d + [Item(k, v)]
  {
    if d != [] {
      var tail := d[1..];
      assert d == [d[0]] + tail;
      assert d[0].key != k && k !in Keys(tail) by {
        assert Keys(d) == [d[0].key] + Keys(tail);
      }
      PutNew(tail, k, v);
      PutCons(d[0], tail, k, v);
      ItemSnocAssoc(d[0], tail, Item(k, v));
    }
  }

  lemma PutCons(x: Item, t: Dict, k: string, v: Value)
    requires x.key != k
    ensures Put([x] + t, k, v) == [x] + Put(t, k, v)
  {
    var d := [x] + t;
    assert d[0] == x && d[1..] == t;
  }

  lemma ItemSnocAssoc(x: Item, t: Dict, y: Item)
    ensures [x] + (t + [y]) == ([x] + t) + [y]
  {
  }

  /** A key that the first part lacks is looked up in the second. */
  lemma {:induction false} GetAfter(a: Dict, b: Dict, k: string)
    requires k !in Keys(a)
    ensures Get(a + b, k) == Get(b, k)
    decreases |a|
  {
    if a == [] {
      assert a + b == b;
    } else {
      assert Keys(a) == [a[0].key] + Keys(a[1..]);
      assert (a + b)[1..] == a[1..] + b;
      GetAfter(a[1..], b, k);
    }
  }

  /** `d.setdefault(k, v)`, keeping the returned dict. */
  function SetDefault(d: Dict, k: string, v: Value): Dict {
    if k in Keys(d) then d else Put(d, k, v)
  }

  // ---------------------------------------------------------------------------
  // Truthiness and str()

  /** `bool(v)`. */
  predicate Truthy(v: Value) {
    match v
    case VNone => false
    case VBool(b) => b
    case VInt(i) => i != 0
    case VStr(s) => s != ""
    case VList(items) => items != []
    case VDict(entries) => entries != []
  }

  /** `str(v)`. */
  function Str(v: Value): string
    decreases v, 0
  {
    match v
    case VNone => "None"
    case VBool(b) => if b then "True" else "False"
    case VInt(i) => IntToString(i)
    case VStr(s) => s
    case VList(items) =>
      "[" + Join(seq(|items|, i requires 0 <= i < |items| => Repr(items[i])), ", ") + "]"
    case VDict(d) =>
      "{" + Join(seq(|d|, i requires 0 <= i < |d| => "'" + d[i].key + "': " + Repr(d[i].val)), ", ") + "}"
  }

  /**
   * `repr(v)` as it appears inside the `str()` of a list or dict. Strings are
   * shown between single quotes; Python's choice of quote character and its
   * escaping of special characters are not modelled.
   */
  function Repr(v: Value): string
    decreases v, 1
  {
    if v.VStr? then "'" + v.s + "'" else Str(v)
  }

  /**
   * `(v or "")` used as a str, as in `(d.get(k) or "").strip()`: an absent or
   * falsy value reads as "", a non-empty string as itself, and any other truthy
   * value makes the following str method raise AttributeError.
   */
  function StrOrEmpty(v: Option<Value>): (r: Result<string, Exception>)
    ensures r.Ok? && r.value != [] ==> v == Some(VStr(r.value))
    ensures r.Err? <==> v.Some? && Truthy(v.value) && !v.value.VStr?
  {
    match v
    case None => Ok("")
    case Some(x) =>
      if !Truthy(x) then Ok("")
      else if x.VStr? then Ok(x.s)
      else Err(AttributeError)
  }
}
