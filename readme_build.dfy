/**
 * build_readme.py: renders a repository's README and SVG banners from the
 * central templates. The configuration is loaded (`load_placeholders`, in
 * DictMerge), completed with defaults, stamped with the build time and given
 * the theme picture; every template then goes through `render_text` (in
 * Templates) and each SVG also gets a `data-build` attribute. The command
 * line, the file system and the clock are parameters.
 */
module ReadmeBuild {
  import opened Wrappers
  import opened PyText
  import opened PyValue

  // ---------------------------------------------------------------------------
  // ensure_defaults

  const DefaultCta: string := "Access the site →"

  /**
   * The defaults `ensure_defaults` offers, in the order it offers them. The
   * CTA text falls back to the configuration's BANNER_ACCESS_CTA, which none
   * of the earlier defaults can set.
   */
  function Defaults(cfg: Dict): Dict {
    [ Item("ASSETS_DIR", VStr(".github/readme")),
      Item("README_OUT", VStr("README.md")),
      Item("REPO_TAGLINE", VStr("lectures • notebooks • references")),
      Item("CTA_TEXT", GetOr(cfg, "BANNER_ACCESS_CTA", VStr(DefaultCta))),
      Item("BG_1", VStr("#0b1220")),
      Item("BG_2", VStr("#111827")),
      Item("TEXT_MAIN", VStr("#e5e7eb")),
      Item("TEXT_MUTED", VStr("#9ca3af")),
      Item("ACCENT", VStr("#93c5fd")),
      Item("CARD_RADIUS", VStr("18")),
      Item("THEME", VStr("")),
      Item("THEME_ASSET", VStr("")) ]
  }

  /** `d.setdefault(k, v)` for every default in turn. */
  function SetDefaults(d: Dict, defs: Dict): Dict
    decreases |defs|
  {
    if defs == [] then d else SetDefaults(SetDefault(d, defs[0].key, defs[0].val), defs[1..])
  }

  /** What `ensure_defaults(cfg)` returns. */
  function Defaulted(cfg: Dict): Dict {
    SetDefaults(cfg, Defaults(cfg))
  }

  /** `ensure_defaults`: a copy of the configuration, completed one `setdefault` at a time. */
  method EnsureDefaults(cfg: Dict) returns (out: Dict)
    ensures out == Defaulted(cfg)
  {
    var defs := Defaults(cfg);
    out := cfg;
    for i := 0 to |defs|
      invariant SetDefaults(out, defs[i..]) == Defaulted(cfg)
    {
      assert defs[i..][1..] == defs[i + 1..];
      out := SetDefault(out, defs[i].key, defs[i].val);
    }
    assert defs[|defs|..] == [];
  }

  /**
   * A key the dict already has keeps its value; any other key gets the value
   * of the first default offered for it, and keys with no default stay absent.
   */
  lemma {:induction false} SetDefaultsGet(d: Dict, defs: Dict, k: string)
    ensures Get(SetDefaults(d, defs), k) == if k in Keys(d) then Get(d, k) else Get(defs, k)
    decreases |defs|
  {
    if defs != [] {
      var e := defs[0];
      var d' := SetDefault(d, e.key, e.val);
      SetDefaultsGet(d', defs[1..], k);
      assert Keys(defs) == [e.key] + Keys(defs[1..]);
    }
  }

  /** Offering defaults for keys that are all present changes nothing. */
  lemma {:induction false} SetDefaultsPresent(d: Dict, defs: Dict)
    requires forall i :: 0 <= i < |defs| ==> defs[i].key in Keys(d)
    ensures SetDefaults(d, defs) == d
    decreases |defs|
  {
    if defs != [] {
      assert SetDefault(d, defs[0].key, defs[0].val) == d;
      SetDefaultsPresent(d, defs[1..]);
    }
  }

  /** The configured keys win; the others take their listed default. */
  lemma EnsureDefaultsKeeps(cfg: Dict, k: string)
    ensures k in Keys(cfg) ==> Get(Defaulted(cfg), k) == Get(cfg, k)
    ensures k !in Keys(cfg) ==> Get(Defaulted(cfg), k) == Get(Defaults(cfg), k)
  {
    SetDefaultsGet(cfg, Defaults(cfg), k);
  }

  /** The CTA default is the fourth one offered, after three defaults for other keys. */
  lemma DefaultsCta(cfg: Dict)
    ensures Get(Defaults(cfg), "CTA_TEXT") == Some(GetOr(cfg, "BANNER_ACCESS_CTA", VStr(DefaultCta)))
  {
    var defs := Defaults(cfg);
    assert defs == defs[..3] + defs[3..];
    assert Keys(defs[..3]) == ["ASSETS_DIR", "README_OUT", "REPO_TAGLINE"];
    GetAfter(defs[..3], defs[3..], "CTA_TEXT");
    assert defs[3..][0] == Item("CTA_TEXT", GetOr(cfg, "BANNER_ACCESS_CTA", VStr(DefaultCta)));
  }

  /** CTA_TEXT, when not configured, is BANNER_ACCESS_CTA if that is set, else "Access the site →". */
  lemma EnsureDefaultsCta(cfg: Dict)
    ensures Get(Defaulted(cfg), "CTA_TEXT") ==
      if "CTA_TEXT" in Keys(cfg) then Get(cfg, "CTA_TEXT")
      else Some(GetOr(cfg, "BANNER_ACCESS_CTA", VStr(DefaultCta)))
  {
    DefaultsCta(cfg);
    SetDefaultsGet(cfg, Defaults(cfg), "CTA_TEXT");
  }

  /** The keys offered, in order. */
  const DefaultKeys: seq<string> := ["ASSETS_DIR", "README_OUT", "REPO_TAGLINE", "CTA_TEXT", "BG_1", "BG_2",
    "TEXT_MAIN", "TEXT_MUTED", "ACCENT", "CARD_RADIUS", "THEME", "THEME_ASSET"]

  /** The keys offered do not depend on the configuration; only the CTA value does. */
  lemma DefaultsSameKeys(c1: Dict, c2: Dict)
    ensures Keys(Defaults(c1)) == Keys(Defaults(c2))
  {
    DefaultsKeys(c1);
    DefaultsKeys(c2);
  }

  lemma DefaultsKeys(c: Dict)
    ensures Keys(Defaults(c)) == DefaultKeys
  {
  }

  /** After `ensure_defaults`, every key it offers is present. */
  lemma DefaultedHasDefaultKeys(cfg: Dict)
    ensures forall i :: 0 <= i < |Defaults(cfg)| ==> Defaults(cfg)[i].key in Keys(Defaulted(cfg))
  {
    var defs := Defaults(cfg);
    forall i | 0 <= i < |defs| ensures defs[i].key in Keys(Defaulted(cfg)) {
      SetDefaultsGet(cfg, defs, defs[i].key);
      assert defs[i].key in Keys(defs);
    }
  }

  /** Every default key is present afterwards, so a second call changes nothing. */
  lemma EnsureDefaultsIdempotent(cfg: Dict)
    ensures Defaulted(Defaulted(cfg)) == Defaulted(cfg)
  {
    var d := Defaulted(cfg);
    DefaultsSameKeys(d, cfg);
    DefaultedHasDefaultKeys(cfg);
    forall i | 0 <= i < |Defaults(d)| ensures Defaults(d)[i].key in Keys(d) {
      assert Defaults(d)[i].key == Keys(Defaults(d))[i] == Keys(Defaults(cfg))[i];
    }
    SetDefaultsPresent(d, Defaults(d));
  }

  // ---------------------------------------------------------------------------
  // parse_args

  /** The three paths the argument loop tracks; None while a flag has not been seen. */
  datatype Args = Args(repo: string, central: Option<string>, cfg: Option<string>)

  /** The four spellings of the configuration path flag. */
  predicate IsCfgFlag(a: string) {
    a == "--cfg" || a == "--repo-cfg" || a == "--placeholders" || a == "--placeholders-path"
  }

  /** A flag that takes the next argument as its value. */
  predicate IsFlag(a: string) {
    a == "--repo" || a == "--central" || IsCfgFlag(a)
  }

  /** What a flag with its (resolved) value sets. */
  function SetFlag(st: Args, flag: string, v: string): Args {
    if flag == "--repo" then st.(repo := v)
    else if flag == "--central" then st.(central := Some(v))
    else st.(cfg := Some(v))
  }

  /**
   * The `while i < len(argv)` loop over the remaining arguments: a flag takes
   * the next argument (an IndexError when there is none), anything else is
   * skipped. `resolve` stands for `Path(..).resolve()`.
   */
  function Scan(args: seq<string>, st: Args, resolve: string -> string): Result<Args, Exception>
    decreases |args|
  {
    if args == [] then Ok(st)
    else if IsFlag(args[0]) then
      if |args| < 2 then Err(IndexError)
      else Scan(args[2..], SetFlag(st, args[0], resolve(args[1])), resolve)
    else Scan(args[1..], st, resolve)
  }

  /** The paths `parse_args` returns. */
  datatype Paths = Paths(repo: string, central: string, cfg: string)

  /** `parse_args`: --central is required; the cfg path defaults to `<repo>/.github/scripts`. */
  function ParseArgsSpec(argv: seq<string>, resolve: string -> string): Result<Paths, Exception> {
    var st :- Scan(argv, Args(resolve("."), None, None), resolve);
    if st.central.None? then Err(SystemExit(1))
    else Ok(Paths(st.repo, st.central.value, if st.cfg.Some? then st.cfg.value else st.repo + "/.github/scripts"))
  }

  /** `parse_args`: the index loop. */
  method ParseArgs(argv: seq<string>, resolve: string -> string) returns (r: Result<Paths, Exception>)
    ensures r == ParseArgsSpec(argv, resolve)
  {
    var repo := resolve(".");
    var central: Option<string> := None;
    var cfgPath: Option<string> := None;
    var i := 0;
    while i < |argv|
      invariant 0 <= i <= |argv|
      invariant Scan(argv[i..], Args(repo, central, cfgPath), resolve) == Scan(argv, Args(resolve("."), None, None), resolve)
    {
      var a := argv[i];
      assert argv[i..][0] == a && argv[i..][1..] == argv[i + 1..];
      if IsFlag(a) {
        if i + 1 >= |argv| {
          return Err(IndexError);
        }
        assert argv[i..][1] == argv[i + 1] && argv[i..][2..] == argv[i + 2..];
        var v := resolve(argv[i + 1]);
        if a == "--repo" {
          repo := v;
        } else if a == "--central" {
          central := Some(v);
        } else {
          cfgPath := Some(v);
        }
        i := i + 2;
      } else {
        i := i + 1;
      }
    }
    assert argv[i..] == [];
    if central.None? {
      return Err(SystemExit(1));
    }
    if cfgPath.None? {
      cfgPath := Some(repo + "/.github/scripts");
    }
    r := Ok(Paths(repo, central.value, cfgPath.value));
  }

  /** A well-formed run of arguments leaves the loop exactly at its end, so the rest is read from there. */
  lemma {:induction false} ScanAppend(a: seq<string>, b: seq<string>, st: Args, resolve: string -> string)
    requires Scan(a, st, resolve).Ok?
    ensures Scan(a + b, st, resolve) == Scan(b, Scan(a, st, resolve).value, resolve)
    decreases |a|
  {
    if a == [] {
      assert a + b == b;
    } else if IsFlag(a[0]) {
      assert (a + b)[0] == a[0] && (a + b)[1] == a[1] && (a + b)[2..] == a[2..] + b;
      ScanAppend(a[2..], b, SetFlag(st, a[0], resolve(a[1])), resolve);
    } else {
      assert (a + b)[0] == a[0] && (a + b)[1..] == a[1..] + b;
      ScanAppend(a[1..], b, st, resolve);
    }
  }

  /** A path is only changed by its own flag. */
  lemma {:induction false} ScanKeeps(args: seq<string>, st: Args, resolve: string -> string)
    requires Scan(args, st, resolve).Ok?
    ensures "--repo" !in args ==> Scan(args, st, resolve).value.repo == st.repo
    ensures "--central" !in args ==> Scan(args, st, resolve).value.central == st.central
    ensures (forall i :: 0 <= i < |args| ==> !IsCfgFlag(args[i])) ==> Scan(args, st, resolve).value.cfg == st.cfg
    decreases |args|
  {
    if args != [] {
      if IsFlag(args[0]) {
        assert forall i :: 0 <= i < |args[2..]| ==> args[2..][i] == args[i + 2];
        ScanKeeps(args[2..], SetFlag(st, args[0], resolve(args[1])), resolve);
      } else {
        assert forall i :: 0 <= i < |args[1..]| ==> args[1..][i] == args[i + 1];
        ScanKeeps(args[1..], st, resolve);
      }
    }
  }

  /** The last occurrence of a flag wins, whatever came before it; the four cfg spellings set the same path. */
  lemma ParseArgsLastFlagWins(a: seq<string>, flag: string, v: string, resolve: string -> string)
    requires IsFlag(flag)
    requires Scan(a, Args(resolve("."), None, None), resolve).Ok?
    ensures var st := Scan(a, Args(resolve("."), None, None), resolve).value;
      Scan(a + [flag, v], Args(resolve("."), None, None), resolve) ==
        Ok(if flag == "--repo" then st.(repo := resolve(v))
           else if flag == "--central" then st.(central := Some(resolve(v)))
           else st.(cfg := Some(resolve(v))))
  {
    var st := Scan(a, Args(resolve("."), None, None), resolve).value;
    ScanAppend(a, [flag, v], Args(resolve("."), None, None), resolve);
    assert [flag, v][2..] == [];
  }

  /** An argument that is not a flag (and is not a flag's value) is skipped. */
  lemma ParseArgsSkipsUnknown(a: seq<string>, x: string, b: seq<string>, resolve: string -> string)
    requires !IsFlag(x)
    requires Scan(a, Args(resolve("."), None, None), resolve).Ok?
    ensures ParseArgsSpec(a + [x] + b, resolve) == ParseArgsSpec(a + b, resolve)
  {
    var st0 := Args(resolve("."), None, None);
    var st := Scan(a, st0, resolve).value;
    ScanAppend(a, [x] + b, st0, resolve);
    assert a + [x] + b == a + ([x] + b);
    assert ([x] + b)[1..] == b;
    ScanAppend(a, b, st0, resolve);
  }

  /** Without --central the script exits (when every flag has its value). */
  lemma ParseArgsNeedsCentral(argv: seq<string>, resolve: string -> string)
    requires "--central" !in argv
    requires Scan(argv, Args(resolve("."), None, None), resolve).Ok?
    ensures ParseArgsSpec(argv, resolve) == Err(SystemExit(1))
  {
    ScanKeeps(argv, Args(resolve("."), None, None), resolve);
  }

  /** A flag given as the last argument has no value and raises IndexError. */
  lemma ParseArgsDanglingFlag(a: seq<string>, flag: string, resolve: string -> string)
    requires IsFlag(flag)
    requires Scan(a, Args(resolve("."), None, None), resolve).Ok?
    ensures ParseArgsSpec(a + [flag], resolve) == Err(IndexError)
  {
    ScanAppend(a, [flag], Args(resolve("."), None, None), resolve);
  }

  /** Without any cfg flag, the configuration is looked for under `<repo>/.github/scripts`. */
  lemma ParseArgsCfgDefault(argv: seq<string>, resolve: string -> string)
    requires forall i :: 0 <= i < |argv| ==> !IsCfgFlag(argv[i])
    requires ParseArgsSpec(argv, resolve).Ok?
    ensures ParseArgsSpec(argv, resolve).value.cfg == ParseArgsSpec(argv, resolve).value.repo + "/.github/scripts"
  {
    ScanKeeps(argv, Args(resolve("."), None, None), resolve);
  }

  // ---------------------------------------------------------------------------
  // _pick_theme_asset and THEME_ASSET

  /** The picture extensions, in the order they are tried. */
  const Exts: seq<string> := [".webp", ".gif", ".png", ".jpg", ".jpeg"]

  /** `central_readme / "assets" / f"{theme}{ext}"`. */
  function AssetPath(central: string, theme: string, ext: string): string {
    central + "/assets/" + theme + ext
  }

  /** The first extension from `k` on whose picture exists. */
  function FirstExt(central: string, theme: string, present: string -> bool, k: nat): (r: Option<nat>)
    requires k <= |Exts|
    ensures r.Some? ==> k <= r.value < |Exts| && present(AssetPath(central, theme, Exts[r.value]))
    ensures r.Some? ==> forall j :: k <= j < r.value ==> !present(AssetPath(central, theme, Exts[j]))
    ensures r.None? ==> forall j :: k <= j < |Exts| ==> !present(AssetPath(central, theme, Exts[j]))
    decreases |Exts| - k
  {
    if k == |Exts| then None
    else if present(AssetPath(central, theme, Exts[k])) then Some(k)
    else FirstExt(central, theme, present, k + 1)
  }

  /**
   * `_pick_theme_asset`: nothing for an empty theme, otherwise the first
   * existing `assets/<theme><ext>` in extension order, or nothing.
   */
  function PickedAsset(central: string, theme: string, present: string -> bool): (r: Option<string>)
    ensures theme == "" ==> r.None?
    ensures r.Some? ==>
      exists i :: 0 <= i < |Exts| && r.value == AssetPath(central, theme, Exts[i]) &&
        present(r.value) && (forall j :: 0 <= j < i ==> !present(AssetPath(central, theme, Exts[j])))
    ensures theme != "" && r.None? ==> forall j :: 0 <= j < |Exts| ==> !present(AssetPath(central, theme, Exts[j]))
  {
    if theme == "" then None
    else
      match FirstExt(central, theme, present, 0)
      case Some(i) => Some(AssetPath(central, theme, Exts[i]))
      case None => None
  }

  /** `_pick_theme_asset`: the extension loop. */
  method PickThemeAsset(central: string, theme: string, present: string -> bool) returns (r: Option<string>)
    ensures r == PickedAsset(central, theme, present)
  {
    if theme == "" {
      return None;
    }
    for i := 0 to |Exts|
      invariant FirstExt(central, theme, present, 0) == FirstExt(central, theme, present, i)
    {
      var p := AssetPath(central, theme, Exts[i]);
      if present(p) {
        return Some(p);
      }
    }
    return None;
  }

  /** The part of `s` after its last `c` (all of `s` when there is none). */
  function AfterLast(s: string, c: char): string
    decreases |s|
  {
    if s == [] then []
    else if s[|s| - 1] == c then []
    else AfterLast(s[..|s| - 1], c) + [s[|s| - 1]]
  }

  /** `Path(p).suffix`: the suffix of the final component. */
  function Suffix(path: string): string {
    NameSuffix(AfterLast(path, '/'))
  }

  /** `f"{cfg['ASSETS_DIR'].rstrip('/')}/theme{src.suffix.lower()}"`. */
  function ThemeAssetPath(assetsDir: string, src: string): string {
    RStripBy(assetsDir, IsSlash) + "/theme" + AsciiLower(Suffix(src))
  }

  lemma {:induction false} AfterLastTail(p: string, t: string, c: char)
    requires c !in t
    ensures AfterLast(p + [c] + t, c) == t
    decreases |t|
  {
    var s := p + [c] + t;
    if t == [] {
      assert s[|s| - 1] == c;
    } else {
      var t' := t[..|t| - 1];
      assert s[..|s| - 1] == p + [c] + t';
      AfterLastTail(p, t', c);
      assert t' + [t[|t| - 1]] == t;
    }
  }

  lemma {:induction false} LastIndexTail(x: string, y: string, c: char)
    requires y != [] && y[0] == c && c !in y[1..]
    ensures LastIndex(x + y, c) == Some(|x|)
    decreases |y|
  {
    var s := x + y;
    if |y| > 1 {
      var y' := y[..|y| - 1];
      assert s[|s| - 1] == y[|y| - 1] && y[|y| - 1] in y[1..];
      assert s[..|s| - 1] == x + y';
      assert y'[1..] == y[1..|y| - 1];
      LastIndexTail(x, y', c);
    }
  }

  /** An extension as the list holds them: a dot, then lower-case text with no dot or slash. */
  predicate PlainExt(ext: string) {
    |ext| >= 2 && ext[0] == '.' && '.' !in ext[1..] && '/' !in ext && AsciiLower(ext) == ext
  }

  lemma ExtsPlain(i: nat)
    requires i < |Exts|
    ensures PlainExt(Exts[i])
  {
  }

  /** The suffix of `<central>/assets/<theme><ext>` is `ext`, already lower-case. */
  lemma ThemeAssetOfExt(assetsDir: string, central: string, theme: string, ext: string)
    requires theme != "" && '/' !in theme && PlainExt(ext)
    ensures ThemeAssetPath(assetsDir, AssetPath(central, theme, ext)) == RStripBy(assetsDir, IsSlash) + "/theme" + ext
  {
    var name := theme + ext;
    assert '/' !in name by {
      forall j | 0 <= j < |name| ensures name[j] != '/' {
        if j < |theme| { assert name[j] == theme[j]; } else { assert name[j] == ext[j - |theme|]; }
      }
    }
    assert AssetPath(central, theme, ext) == (central + "/assets") + ['/'] + name;
    AfterLastTail(central + "/assets", name, '/');
    LastIndexTail(theme, ext, '.');
    assert name[|theme|..] == ext;
  }

  /**
   * For a theme with no `/`, the picture found for extension `Exts[i]` gives
   * THEME_ASSET = ASSETS_DIR without trailing slashes + "/theme" + that extension.
   */
  lemma ThemeAssetOfPicked(assetsDir: string, central: string, theme: string, i: nat)
    requires theme != "" && '/' !in theme && i < |Exts|
    ensures ThemeAssetPath(assetsDir, AssetPath(central, theme, Exts[i])) == RStripBy(assetsDir, IsSlash) + "/theme" + Exts[i]
  {
    ExtsPlain(i);
    ThemeAssetOfExt(assetsDir, central, theme, Exts[i]);
  }

  // ---------------------------------------------------------------------------
  // The configuration `main` renders with

  /** `(cfg.get("THEME") or "").strip()`. */
  function ThemeOf(cfg: Dict): Result<string, Exception> {
    var t :- StrOrEmpty(Get(cfg, "THEME"));
    Ok(Strip(t))
  }

  /**
   * The theme step of `main` on the stamped configuration: THEME_ASSET from
   * the picked picture, or left as it is (the `setdefault` finds it set).
   */
  function Themed(cfg: Dict, central: string, present: string -> bool): Result<Dict, Exception> {
    var dir := GetOr(cfg, "ASSETS_DIR", VNone);
    if !dir.VStr? then Err(TypeError)
    else
      var theme :- ThemeOf(cfg);
      match PickedAsset(central, theme, present)
      case Some(src) => Ok(Put(cfg, "THEME_ASSET", VStr(ThemeAssetPath(dir.s, src))))
      case None => Ok(SetDefault(cfg, "THEME_ASSET", VStr("")))
  }

  /**
   * `main` up to the rendering: defaults, the build stamp, then the theme. The
   * assets directory must be a string for `repo_root / cfg["ASSETS_DIR"]`.
   */
  function Prepared(loaded: Dict, stamp: string, central: string, present: string -> bool): Result<Dict, Exception> {
    Themed(Put(Defaulted(loaded), "TIMESTAMP", VStr(stamp)), central, present)
  }

  /** `main`'s configuration steps. */
  method PrepareConfig(loaded: Dict, stamp: string, central: string, present: string -> bool)
    returns (r: Result<Dict, Exception>)
    ensures r == Prepared(loaded, stamp, central, present)
  {
    var cfg := EnsureDefaults(loaded);
    cfg := Put(cfg, "TIMESTAMP", VStr(stamp));
    var dir := GetOr(cfg, "ASSETS_DIR", VNone);
    if !dir.VStr? {
      return Err(TypeError);
    }
    var theme := ThemeOf(cfg);
    if theme.Err? {
      return Err(theme.error);
    }
    var src := PickThemeAsset(central, theme.value, present);
    if src.Some? {
      cfg := Put(cfg, "THEME_ASSET", VStr(ThemeAssetPath(dir.s, src.value)));
    } else {
      cfg := SetDefault(cfg, "THEME_ASSET", VStr(""));
    }
    r := Ok(cfg);
  }

  /**
   * On a configuration that has THEME_ASSET, the theme step sets it to the
   * picked picture's path when there is one and otherwise leaves it; no other
   * key changes.
   */
  lemma ThemedSpec(cfg: Dict, central: string, present: string -> bool, k: string)
    requires Themed(cfg, central, present).Ok? && "THEME_ASSET" in Keys(cfg)
    ensures ThemeOf(cfg).Ok? && GetOr(cfg, "ASSETS_DIR", VNone).VStr?
    ensures var out := Themed(cfg, central, present).value;
      var src := PickedAsset(central, ThemeOf(cfg).value, present);
      && (src.Some? ==> Get(out, "THEME_ASSET") == Some(VStr(ThemeAssetPath(GetOr(cfg, "ASSETS_DIR", VNone).s, src.value))))
      && (src.None? ==> out == cfg)
      && (k != "THEME_ASSET" ==> Get(out, k) == Get(cfg, k))
  {
  }

  /** After `ensure_defaults` and the stamp, THEME_ASSET is always there and TIMESTAMP is the stamp. */
  lemma StampedHasThemeAsset(loaded: Dict, stamp: string)
    ensures var cfg := Put(Defaulted(loaded), "TIMESTAMP", VStr(stamp));
      "THEME_ASSET" in Keys(cfg) && Get(cfg, "TIMESTAMP") == Some(VStr(stamp))
  {
    var defs := Defaults(loaded);
    assert Get(defs, "THEME_ASSET").Some? by {
      assert defs[11].key == "THEME_ASSET";
    }
    SetDefaultsGet(loaded, defs, "THEME_ASSET");
  }

  /**
   * The prepared configuration: TIMESTAMP is the build stamp, THEME_ASSET is
   * the picked picture's path when there is one and otherwise what
   * `ensure_defaults` left, and every other key is as `ensure_defaults` left it.
   */
  lemma PreparedSpec(loaded: Dict, stamp: string, central: string, present: string -> bool, k: string)
    requires Prepared(loaded, stamp, central, present).Ok?
    ensures ThemeOf(Defaulted(loaded)).Ok? && GetOr(Defaulted(loaded), "ASSETS_DIR", VNone).VStr?
    ensures var d := Defaulted(loaded);
      var cfg := Prepared(loaded, stamp, central, present).value;
      var src := PickedAsset(central, ThemeOf(d).value, present);
      && Get(cfg, "TIMESTAMP") == Some(VStr(stamp))
      && (src.Some? ==> Get(cfg, "THEME_ASSET") == Some(VStr(ThemeAssetPath(GetOr(d, "ASSETS_DIR", VNone).s, src.value))))
      && (src.None? ==> Get(cfg, "THEME_ASSET") == Get(d, "THEME_ASSET"))
      && (k != "TIMESTAMP" && k != "THEME_ASSET" ==> Get(cfg, k) == Get(d, k))
  {
    var d := Defaulted(loaded);
    var stamped := Put(d, "TIMESTAMP", VStr(stamp));
    StampedHasThemeAsset(loaded, stamp);
    ThemedSpec(stamped, central, present, k);
    ThemedSpec(stamped, central, present, "TIMESTAMP");
    assert Get(stamped, "THEME") == Get(d, "THEME");
    assert Get(stamped, "ASSETS_DIR") == Get(d, "ASSETS_DIR");
  }

  // ---------------------------------------------------------------------------
  // inject_svg_build_attr

  /** `\w` on ASCII. */
  predicate IsWordChar(c: char) {
    'a' <= c <= 'z' || 'A' <= c <= 'Z' || '0' <= c <= '9' || c == '_'
  }

  /** Whether `<svg\b` matches at `i`. */
  predicate SvgAt(s: string, i: nat) {
    i + 4 <= |s| && s[i..i + 4] == "<svg" && (i + 4 == |s| || !IsWordChar(s[i + 4]))
  }

  /** The first match of `<svg\b` at or after `from`. */
  function FirstSvg(s: string, from: nat): (r: Option<nat>)
    ensures r.Some? ==> from <= r.value && SvgAt(s, r.value)
    ensures r.Some? ==> forall j :: from <= j < r.value ==> !SvgAt(s, j)
    ensures r.None? ==> forall j :: from <= j ==> !SvgAt(s, j)
    decreases |s| - from
  {
    if from + 4 > |s| then None
    else if SvgAt(s, from) then Some(from)
    else FirstSvg(s, from + 1)
  }

  /** The attribute text that goes after `<svg`. */
  function BuildAttr(ts: string): string {
    " data-build=\"" + ts + "\""
  }

  /**
   * `inject_svg_build_attr`: with a non-empty TIMESTAMP and no `data-build=`
   * yet, the first `<svg` tag gets `data-build="<ts>"`; otherwise the text is
   * returned as it is. The stamp goes into a regex replacement template, so it
   * must hold no backslash, as the build stamp never does.
   */
  function InjectSvgBuildAttr(svg: string, cfg: Dict): string
    requires !Truthy(GetOr(cfg, "TIMESTAMP", VStr(""))) || '\\' !in Str(GetOr(cfg, "TIMESTAMP", VStr("")))
  {
    var ts := GetOr(cfg, "TIMESTAMP", VStr(""));
    if !Truthy(ts) || Contains(svg, "data-build=") then svg
    else
      match FirstSvg(svg, 0)
      case Some(i) => svg[..i + 4] + BuildAttr(Str(ts)) + svg[i + 4..]
      case None => svg
  }

  /**
   * The text changes only when the stamp is set, no `data-build=` is present
   * and some `<svg` tag exists; then exactly the first such tag gets the
   * attribute right after `<svg`, and everything else is kept.
   */
  lemma InjectSvgSpec(svg: string, cfg: Dict)
    requires !Truthy(GetOr(cfg, "TIMESTAMP", VStr(""))) || '\\' !in Str(GetOr(cfg, "TIMESTAMP", VStr("")))
    ensures var ts := GetOr(cfg, "TIMESTAMP", VStr(""));
      InjectSvgBuildAttr(svg, cfg) != svg <==>
        Truthy(ts) && !Contains(svg, "data-build=") && exists i: nat :: SvgAt(svg, i)
    ensures var ts := GetOr(cfg, "TIMESTAMP", VStr(""));
      InjectSvgBuildAttr(svg, cfg) != svg ==>
        exists i: nat :: SvgAt(svg, i) && (forall j :: 0 <= j < i ==> !SvgAt(svg, j)) &&
          InjectSvgBuildAttr(svg, cfg) == svg[..i + 4] + BuildAttr(Str(ts)) + svg[i + 4..]
  {
    var ts := GetOr(cfg, "TIMESTAMP", VStr(""));
    var r := InjectSvgBuildAttr(svg, cfg);
    if Truthy(ts) && !Contains(svg, "data-build=") && FirstSvg(svg, 0).Some? {
      var i := FirstSvg(svg, 0).value;
      assert r == svg[..i + 4] + BuildAttr(Str(ts)) + svg[i + 4..];
      assert |r| > |svg|;
      assert SvgAt(svg, i) && forall j :: 0 <= j < i ==> !SvgAt(svg, j);
    } else {
      assert r == svg;
    }
  }

  /** Injecting twice gives the same text as injecting once. */
  lemma InjectSvgIdempotent(svg: string, cfg: Dict)
    requires !Truthy(GetOr(cfg, "TIMESTAMP", VStr(""))) || '\\' !in Str(GetOr(cfg, "TIMESTAMP", VStr("")))
    ensures InjectSvgBuildAttr(InjectSvgBuildAttr(svg, cfg), cfg) == InjectSvgBuildAttr(svg, cfg)
  {
    var ts := GetOr(cfg, "TIMESTAMP", VStr(""));
    if Truthy(ts) && !Contains(svg, "data-build=") {
      match FirstSvg(svg, 0)
      case Some(i) =>
        var attr := BuildAttr(Str(ts));
        assert attr[1..12] == "data-build=";
        ContainsAt(attr, "data-build=", 1);
        ContainsWithin(svg[..i + 4], attr, svg[i + 4..], "data-build=");
      case None =>
    }
  }
}
