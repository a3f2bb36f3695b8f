/**
 * `load_config` in build_site.py: the configuration documents are merged
 * (see DictMerge), then a missing HERO_URL is derived from ASSETS_BASE,
 * ASSETS_SUBDIR and HERO_FILE.
 */
module SiteConfig {
  import opened Wrappers
  import opened PyText
  import opened PyValue
  import opened DictMerge

  /** `"/".join(p for p in [base, sub, file] if p)`. */
  function HeroJoin(base: string, sub: string, file: string): string {
    Join(NonEmpty([base, sub, file]), "/")
  }

  /**
   * The HERO_URL rule. A truthy HERO_URL is kept; otherwise, when the base
   * (trailing slashes removed) and the file name (leading slashes removed)
   * are both non-empty, HERO_URL becomes their join with the sub-directory
   * (slashes removed at both ends) between them when it is not empty. A
   * truthy setting that is not a string fails in the strip call.
   */
  function HeroRule(data: Dict): Result<Dict, Exception> {
    if Truthy(GetOr(data, "HERO_URL", VNone)) then Ok(data)
    else
      var base :- StrOrEmpty(Get(data, "ASSETS_BASE"));
      var sub :- StrOrEmpty(Get(data, "ASSETS_SUBDIR"));
      var file :- StrOrEmpty(Get(data, "HERO_FILE"));
      var b := RStripBy(base, IsSlash);
      var s := LStripBy(RStripBy(sub, IsSlash), IsSlash);
      var f := LStripBy(file, IsSlash);
      if b != [] && f != [] then Ok(Put(data, "HERO_URL", VStr(HeroJoin(b, s, f))))
      else Ok(data)
  }

  /** `load_config`: a missing path gives `{}` and skips the HERO_URL rule. */
  function LoadConfig(src: ConfigSource): Result<Dict, Exception> {
    match src
    case Missing => Ok([])
    case SingleFile(doc) => HeroRule(doc)
    case Directory(yml, yaml) => HeroRule(MergeAll(yml + yaml))
  }

  /** The parts are joined by single slashes, an empty sub-directory being skipped. */
  lemma HeroJoinShape(b: string, s: string, f: string)
    requires b != [] && f != []
    ensures HeroJoin(b, s, f) == if s == [] then b + "/" + f else b + "/" + s + "/" + f
  {
    assert [b, s, f][1..] == [s, f];
    NonEmptyPair(s, f);
    var rest := if s == [] then [f] else [s, f];
    assert NonEmpty([b, s, f]) == [b] + rest;
    assert ([b] + rest)[1..] == rest;
    assert Join([f], "/") == f;
    if s != [] {
      assert rest[1..] == [f];
      assert Join(rest, "/") == s + "/" + f;
    } else {
      assert Join(rest, "/") == f;
    }
  }

  /** No part has a slash on a side where it is joined to another. */
  predicate JoinsCleanly(b: string, s: string, f: string) {
    b != [] && f != [] && b[|b| - 1] != '/' && f[0] != '/' && (s != [] ==> s[0] != '/' && s[|s| - 1] != '/')
  }

  /** A configured HERO_URL is left exactly as it is. */
  lemma HeroRuleKeeps(data: Dict)
    requires Truthy(GetOr(data, "HERO_URL", VNone))
    ensures HeroRule(data) == Ok(data)
  {
  }

  /**
   * Without a HERO_URL, given string settings whose base and file survive the
   * slash stripping, HERO_URL is set to their join, no other key changes, and
   * no part brings a slash of its own to a join.
   */
  lemma HeroRuleSets(data: Dict, base: string, sub: string, file: string)
    requires !Truthy(GetOr(data, "HERO_URL", VNone))
    requires StrOrEmpty(Get(data, "ASSETS_BASE")) == Ok(base)
    requires StrOrEmpty(Get(data, "ASSETS_SUBDIR")) == Ok(sub)
    requires StrOrEmpty(Get(data, "HERO_FILE")) == Ok(file)
    requires RStripBy(base, IsSlash) != [] && LStripBy(file, IsSlash) != []
    ensures HeroRule(data).Ok?
    ensures Get(HeroRule(data).value, "HERO_URL") ==
      Some(VStr(HeroJoin(RStripBy(base, IsSlash), LStripBy(RStripBy(sub, IsSlash), IsSlash), LStripBy(file, IsSlash))))
    ensures forall k :: k != "HERO_URL" ==> Get(HeroRule(data).value, k) == Get(data, k)
    ensures JoinsCleanly(RStripBy(base, IsSlash), LStripBy(RStripBy(sub, IsSlash), IsSlash), LStripBy(file, IsSlash))
  {
    var b := RStripBy(base, IsSlash);
    var s := LStripBy(RStripBy(sub, IsSlash), IsSlash);
    var f := LStripBy(file, IsSlash);
    assert HeroRule(data) == Ok(Put(data, "HERO_URL", VStr(HeroJoin(b, s, f))));
    HeroPartsClean(base, sub, file);
  }

  /** After the stripping, no part keeps a slash on a side where it is joined. */
  lemma HeroPartsClean(base: string, sub: string, file: string)
    requires RStripBy(base, IsSlash) != [] && LStripBy(file, IsSlash) != []
    ensures JoinsCleanly(RStripBy(base, IsSlash), LStripBy(RStripBy(sub, IsSlash), IsSlash), LStripBy(file, IsSlash))
  {
    RStripBySpec(base, IsSlash);
    LStripBySpec(file, IsSlash);
    var s1 := RStripBy(sub, IsSlash);
    var s := LStripBy(s1, IsSlash);
    RStripBySpec(sub, IsSlash);
    LStripBySpec(s1, IsSlash);
    if s != [] {
      assert s == s1[|s1| - |s|..];
      assert s[|s| - 1] == s1[|s1| - 1];
    }
  }

  /** Without a HERO_URL, a base or file that is empty after stripping leaves the configuration unchanged. */
  lemma HeroRuleSkips(data: Dict, base: string, sub: string, file: string)
    requires !Truthy(GetOr(data, "HERO_URL", VNone))
    requires StrOrEmpty(Get(data, "ASSETS_BASE")) == Ok(base)
    requires StrOrEmpty(Get(data, "ASSETS_SUBDIR")) == Ok(sub)
    requires StrOrEmpty(Get(data, "HERO_FILE")) == Ok(file)
    requires RStripBy(base, IsSlash) == [] || LStripBy(file, IsSlash) == []
    ensures HeroRule(data) == Ok(data)
  {
  }
}
