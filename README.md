# Notebook-site and course-repository automation, modelled in Dafny

The repository automates a family of course repositories on GitHub. Four
Python scripts form its core, and this project models each of them:

- **`bootstrap/repo_scripts/build_site.py`** turns a directory of Jupyter
  notebooks into a static site.
  - It gives every notebook a renderable cell (`ensure_minimal_cell`).
  - It converts each notebook with nbconvert and adds a full-width style block
    to the page (`_widen_notebook_html`).
  - It builds the directory tree of the notebooks and prunes directories
    without one (`collect_tree`, `prune_empty_dirs`).
  - It fills `{{ KEY }}` placeholders in the site templates (`render_index`,
    `render_tokens`).
  - It reads the YAML configuration, including the HERO_URL rule
    (`load_config`).
  - It reads and renders a repository's references (`load_references`,
    `render_references_html`).
- **`bootstrap/repo_scripts/repo_initializer.py`** reads the organisation
  registry. For each entry, it creates a missing repository, waits for GitHub
  to serve it, copies the bootstrap files into it and dispatches the site and
  README workflows.
- **`manager/manager_scripts/build_readme.py`** renders a repository's
  README.md and SVG banners from central templates. It reads the placeholder
  configuration, completes it with defaults, picks a theme picture and stamps
  the build time into the SVGs.
- **`manager/manager_scripts/assembly_posts.py`** turns the registry into
  Jekyll posts. It sorts the items by completion date and name, numbers them
  from 1 and writes each post's front matter.

Python values are modelled as `PyValue.Value`: None, bool, int, str, list
and dict. A dict is its items in insertion order, because `render_tokens`
and the merges depend on that order. Python's string operations live in
`PyText`, `json.dumps` and the decoding of its string literals in
`JsonText`, and Option/Result in `Wrappers`. The two regular-expression
substitution engines are in `Templates`:

- the per-key literal substitution loop of build_site.py;
- the single-pass `_TOKEN.sub` of build_readme.py.

Everything that touches the outside world is a parameter of the model:

- the file system, including the listing `sorted(src.rglob("*"))` and each notebook as `json.loads` reads it;
- nbconvert, and whether it succeeds;
- the clock, as the timestamp string;
- GitHub's HTTP answers and the git and rsync commands, as status codes and
  outcomes per entry;
- the environment variables, as `RepoInit.Settings`.

Each operation that the source writes as a loop is a `method` proved equal to
a specification function (the key search of `load_registry` and the file loop
of `load_placeholders` included). The properties are lemmas about those
functions.

The docstring of `normalize_repo_name` (repo_initializer.py:260-265) says
"MIT(8.20)-Intro" becomes "MIT-8-20--Intro". The code only strips the name
and turns each parenthesis into a hyphen, so the dot is kept. The model
follows the code, and `RepoInit.NormalizeKeepsDot` states the difference.

## Model

| member | source | states |
|---|---|---|
| PyValue.Get | bootstrap/repo_scripts/build_site.py:41-43 | `d.get(k)` finds a value exactly when `k` is a key, and the value found is stored under `k` |
| PyValue.Put | bootstrap/repo_scripts/build_site.py:18-19 | `out[k] = v` makes `k` read `v` and leaves every other key as it was; a present key keeps its position, a new one is appended |
| PyValue.StrOrEmpty | bootstrap/repo_scripts/build_site.py:42-44 | `(v or "")` used as a str: a non-empty result is the stored string itself; it fails exactly when the value is truthy and not a string |
| PyText.Find | bootstrap/repo_scripts/build_site.py:355-360 | `s.find(t)` returns the first index where `t` occurs, and None only when `t` occurs nowhere |
| PyText.LStripBySpec | bootstrap/repo_scripts/build_site.py:44 | `lstrip` leaves a suffix that starts with a kept character, and everything removed was a stripped character |
| PyText.RStripBySpec | bootstrap/repo_scripts/build_site.py:42 | `rstrip` leaves a prefix that ends with a kept character, and everything removed was a stripped character |
| PyText.HtmlEscape | bootstrap/repo_scripts/build_site.py:479-482 | `html.escape` leaves no `<`, `>`, `"` or `'`, is empty only on empty input, and keeps braces exactly where the input had them |
| PyText.NatToString | bootstrap/repo_scripts/build_site.py:89 | `str(n)` is a non-empty run of decimal digits |
| PyText.NatToStringValue | bootstrap/repo_scripts/build_site.py:89 | `str(n)` reads back as `n`, and starts with '0' only when `n` is 0 |
| PyText.NatToStringInjective | bootstrap/repo_scripts/build_site.py:89 | two different counts never print the same |
| PyText.AsciiLower | bootstrap/repo_scripts/build_site.py:166 | `.lower()` keeps the length and lowers each letter in place |
| PyText.EscapeScriptCloseSafe | bootstrap/repo_scripts/build_site.py:84 | after `.replace("</", "<\\/")` no `</` is left, so the embedded JSON cannot close the `<script>` element; the first character is kept |
| Wrappers.MapResultOk | bootstrap/repo_scripts/build_site.py:478-500 | a loop that appends one result per element succeeds exactly when every element succeeds |
| Wrappers.MapResultInOrder | bootstrap/repo_scripts/build_site.py:478-500 | a successful loop gives one result per element, in input order |
| Wrappers.MapResultErr | bootstrap/repo_scripts/build_site.py:478-500 | once a prefix of the loop fails, the whole loop fails with the same error |
| DictMerge.MergeDicts | bootstrap/repo_scripts/build_site.py:16-20 | the merge loop computes `Merge(base, extra)`; the caller's `base` is never changed |
| DictMerge.MergeGet | manager/manager_scripts/build_readme.py:18-23 | after a shallow merge, a key of `extra` holds its `extra` value and every other key keeps its `base` value |
| DictMerge.MergeKeepsBaseOrder | manager/manager_scripts/build_readme.py:18-23 | the merged dict starts with the keys of `base` in their order; new keys come after them |
| DictMerge.MergeAllLastWins | manager/manager_scripts/build_readme.py:49-51 | folding documents with the merge gives each key its value from the last document that sets it |
| DictMerge.LastWithAppend | manager/manager_scripts/build_readme.py:39-47 | a key set in a later group of documents overrides every earlier group |
| DictMerge.LoadPlaceholders | manager/manager_scripts/build_readme.py:26-56 | a missing path is FileNotFoundError and only that; a single file is used as it is |
| DictMerge.LoadPlaceholdersYamlWins | manager/manager_scripts/build_readme.py:39-51 | in a directory, a key set by any `*.yaml` file beats every `*.yml` file, and within a group the last file in path order wins |
| DictMerge.ReadPlaceholders | manager/manager_scripts/build_readme.py:26-51 | `load_placeholders` computes what `LoadPlaceholders` specifies: FileNotFoundError, the single file, or the merge of the `*.yml` then `*.yaml` documents |
| DictMerge.MergeFiles | manager/manager_scripts/build_readme.py:49-51 | the loop that merges one file at a time into `cfg` computes the left fold `MergeAll` of the documents |
| JsonText.JsonChar | bootstrap/repo_scripts/build_site.py:84 | each character is written without any raw control character |
| JsonText.JsonEscape | bootstrap/repo_scripts/build_site.py:456 | the body of a JSON string literal holds no raw control character and is no shorter than the string |
| JsonText.UnescapeChar | bootstrap/repo_scripts/build_site.py:456 | decoding undoes the escape of any single character: short escapes, `\u00XX` escapes and plain characters |
| JsonText.UnescapeEscape | bootstrap/repo_scripts/build_site.py:456 | the string literal `json.dumps` writes decodes back to the original string |
| JsonText.JsonStringInjective | bootstrap/repo_scripts/build_site.py:84 | two different strings never give the same JSON literal |
| Templates.SubKeyToken | bootstrap/repo_scripts/build_site.py:92-94 | one key's substitution replaces a written `{{ name }}` (any whitespace inside the braces) exactly when its name is that key, and otherwise leaves it |
| Templates.SubKeyAmid | bootstrap/repo_scripts/build_site.py:451-453 | one key's pass over a placeholder amid plain text replaces only that placeholder, and only when the names agree |
| Templates.SubstituteEach | bootstrap/repo_scripts/build_site.py:451-453 | the loop over the replacement table computes `ApplyAll`, each key's pattern applied to the previous key's output |
| Templates.ApplyAllPlain | bootstrap/repo_scripts/build_site.py:92-94 | text without `{` passes through the whole table unchanged |
| Templates.ApplyAllToken | bootstrap/repo_scripts/build_site.py:92-94 | a placeholder whose name is in the table becomes that key's text, and the surrounding text is kept |
| Templates.ApplyAllKeepsToken | bootstrap/repo_scripts/build_site.py:451-453 | a placeholder whose name is not in the table survives every substitution |
| Templates.MatchKeyToken | bootstrap/repo_scripts/build_site.py:447 | the pattern `\{\{\s*KEY\s*\}\}` matches a written placeholder, spanning all of it, exactly when its name is KEY |
| Templates.MatchNameAt | manager/manager_scripts/build_readme.py:101 | `_TOKEN` matches a written upper-case placeholder over its whole length and captures its name |
| Templates.MatchNameMiss | manager/manager_scripts/build_readme.py:101 | `_TOKEN` does not match a placeholder whose name is not all `[A-Z0-9_]` |
| Templates.RenderTextPlain | manager/manager_scripts/build_readme.py:104-105 | `render_text` copies text without `{` unchanged |
| Templates.RenderTextToken | manager/manager_scripts/build_readme.py:104-105 | an upper-case placeholder becomes `str(cfg.get(name, ""))`, and rendering continues after it without rescanning the inserted text |
| Templates.SinglePassNoChain | manager/manager_scripts/build_readme.py:104-105 | with A set to "{{ B }}" and B to "x", "{{ A }}" renders as "{{ B }}": the inserted text is not scanned again |
| Templates.RenderTextKeepsOtherToken | manager/manager_scripts/build_readme.py:101-105 | a placeholder with a lower-case (or other non-`[A-Z0-9_]`) name is left as written |
| SiteConfig.HeroJoinShape | bootstrap/repo_scripts/build_site.py:46 | the HERO_URL parts are joined by single slashes, and an empty sub-directory is skipped |
| SiteConfig.HeroRuleKeeps | bootstrap/repo_scripts/build_site.py:41 | a truthy HERO_URL leaves the configuration exactly as it is |
| SiteConfig.HeroRuleSets | bootstrap/repo_scripts/build_site.py:41-46 | without HERO_URL, and with a base and a file left after stripping, HERO_URL becomes their slash join and no other key changes; no part brings a slash of its own to a join |
| SiteConfig.HeroPartsClean | bootstrap/repo_scripts/build_site.py:42-44 | after the stripping, no part keeps a slash on a side where it is joined |
| SiteConfig.HeroRuleSkips | bootstrap/repo_scripts/build_site.py:45-46 | without HERO_URL, a base or file that is empty after stripping leaves the configuration unchanged |
| NotebookFiles.Iterate | bootstrap/repo_scripts/build_site.py:115-118 | `for c in cells` fails exactly on None, booleans and integers, and walks a list's own items |
| NotebookFiles.EnsureMinimalCellSpec | bootstrap/repo_scripts/build_site.py:115-130 | a notebook is left alone exactly when its cells are non-empty and hold a markdown or code cell; otherwise the placeholder cell goes first, a list of cells follows it unchanged, and no other key changes |
| NotebookFiles.EnsureMinimalCellIdempotent | bootstrap/repo_scripts/build_site.py:115-130 | a notebook that was given the placeholder is left alone the next time |
| NotebookFiles.EnsureMinimalCellRejects | bootstrap/repo_scripts/build_site.py:115-118 | cells that are null, a boolean or a number make the cell check raise TypeError |
| NotebookFiles.EnsureMinimalCellFails | bootstrap/repo_scripts/build_site.py:114-118 | the cell check raises exactly on a notebook that is not a dict (AttributeError) or whose `cells` is null, a boolean or a number (TypeError); a missing `cells` never raises |
| NotebookFiles.BodyTagEnd | bootstrap/repo_scripts/build_site.py:361 | the end of the `<body ...>` match lies inside the page and ends with `>` |
| NotebookFiles.WidenHead | bootstrap/repo_scripts/build_site.py:358-359 | with a `</head>`, the style block and a newline are inserted right before the first `</head>` |
| NotebookFiles.WidenBody | bootstrap/repo_scripts/build_site.py:360-361 | without a `</head>`, the block goes on a line of its own right after the first `<body ...>` tag |
| NotebookFiles.WidenInserts | bootstrap/repo_scripts/build_site.py:355-363 | whenever the page changes, the old page surrounds the inserted block, and the new page carries the marker |
| NotebookFiles.WidenIdempotent | bootstrap/repo_scripts/build_site.py:355-363 | widening a page twice gives the same page as widening it once |
| PyText.LastIndex | bootstrap/repo_scripts/build_site.py:166 | the last occurrence of a character in a name, or None when it has none |
| NotebookTree.NotebookNameShape | bootstrap/repo_scripts/build_site.py:166 | a notebook's name has a non-empty stem before a six-character suffix that lowers to `.ipynb` |
| NotebookTree.FindDirChild | bootstrap/repo_scripts/build_site.py:154-160 | finds the sub-directory with the given name, or reports that there is none |
| NotebookTree.PlaceFiles | bootstrap/repo_scripts/build_site.py:152-160 | ensuring the directories on a path and appending a file adds exactly that file to the tree |
| NotebookTree.PlaceWellPlaced | bootstrap/repo_scripts/build_site.py:152-160 | ensuring the directories on a path keeps every node at its own path, with no two sub-directories sharing a name |
| NotebookTree.Prune | bootstrap/repo_scripts/build_site.py:379-390 | a node survives pruning exactly when it holds a notebook, and keeps its kind, name and path |
| NotebookTree.PruneSpec | bootstrap/repo_scripts/build_site.py:379-390 | pruning keeps every file, in the same order, and leaves no directory without a notebook |
| NotebookTree.SurvivorsSpec | bootstrap/repo_scripts/build_site.py:383-387 | the surviving children are exactly those holding a notebook, at increasing positions |
| NotebookTree.PruneAllOrder | bootstrap/repo_scripts/build_site.py:383-389 | the pruned children are the survivors, each pruned, in their original order |
| NotebookTree.PruneFixed | bootstrap/repo_scripts/build_site.py:379-390 | a tree without empty directories is its own pruned form |
| NotebookTree.PruneIdempotent | bootstrap/repo_scripts/build_site.py:379-390 | pruning twice is pruning once |
| NotebookTree.PruneWellPlaced | bootstrap/repo_scripts/build_site.py:379-390 | pruning keeps every surviving node where it was |
| NotebookTree.PruneEmptyDirs | bootstrap/repo_scripts/build_site.py:379-390 | the recursive loop returns the pruned node, and its flag says whether the node holds a notebook |
| NotebookTree.EntryErrorSpec | bootstrap/repo_scripts/build_site.py:109-118 | one listed entry raises exactly when it is a notebook that parses and fails `ensure_minimal_cell`, or passes it and fails nbconvert; a file that does not parse fails only in nbconvert; the exception is AttributeError, TypeError or CalledProcessError |
| NotebookTree.ScanErrorNone | bootstrap/repo_scripts/build_site.py:142-370 | the scan raises nothing exactly when no entry of the listing raises |
| NotebookTree.ScanErrorFirst | bootstrap/repo_scripts/build_site.py:142-370 | the scan raises the exception of the first entry, in listing order, that raises |
| NotebookTree.ScanErrorPrefix | bootstrap/repo_scripts/build_site.py:142-370 | once a prefix of the listing raises, the whole scan raises that same exception |
| NotebookTree.StepFiles | bootstrap/repo_scripts/build_site.py:142-176 | one pass adds the entry's notebook, and nothing else, to the tree's files |
| NotebookTree.StepWellPlaced | bootstrap/repo_scripts/build_site.py:152-176 | one pass keeps every node where it belongs |
| NotebookTree.ScanSpec | bootstrap/repo_scripts/build_site.py:140-176 | the scanned tree holds exactly the listing's notebooks outside the output directory, each at its own path |
| NotebookTree.ScanListing | bootstrap/repo_scripts/build_site.py:142-376 | the scan loop runs the cell check, then nbconvert, on each notebook and raises exactly the exception of the first entry that raises; otherwise it gives the scanned tree and counts the notebooks |
| NotebookTree.CollectTree | bootstrap/repo_scripts/build_site.py:132-396 | `collect_tree` raises exactly when the scan raises, with the first entry's exception (a failed cell check or a failed conversion); otherwise the count is the number of notebooks, the tree holds exactly those notebooks, each at its own path, with no empty directory, and a site without notebooks gets the empty root |
| NotebookTree.FromToValue | bootstrap/repo_scripts/build_site.py:140-176 | the JSON document of a tree carries the whole tree: reading it back gives the same nodes |
| SiteRender.SafeTreeJson | bootstrap/repo_scripts/build_site.py:84 | the embedded tree JSON holds no `</` and starts with `{` |
| SiteRender.RenderTokens | bootstrap/repo_scripts/build_site.py:433-459 | the method computes `RenderedPage`: the built-in keys, then the configured ones, then TREE_JSON when a tree is given |
| SiteRender.RenderIndex | bootstrap/repo_scripts/build_site.py:82-95 | the method applies TITLE, TIMESTAMP, NBCOUNT and TREE_JSON in that order |
| SiteRender.AddConfiguredGet | bootstrap/repo_scripts/build_site.py:444-449 | a key's text is `str()` of its last configured value that is not None, or else the text it had before |
| SiteRender.AddConfiguredKeys | bootstrap/repo_scripts/build_site.py:444-449 | the table's keys are the built-in keys and the configured keys |
| SiteRender.TokenTableGet | bootstrap/repo_scripts/build_site.py:436-449 | a configured value that is not None overrides a built-in key; otherwise the built-in value stands |
| SiteRender.RenderTokensFills | bootstrap/repo_scripts/build_site.py:451-453 | a placeholder whose key the table holds is replaced by that key's text |
| SiteRender.RenderTokensTitle | bootstrap/repo_scripts/build_site.py:438 | without a configured TITLE, `{{ TITLE }}` shows the HTML-escaped title |
| SiteRender.RenderTokensConfigured | bootstrap/repo_scripts/build_site.py:444-449 | a configured value is inserted as `str(value)` without escaping, so HTML goes through |
| SiteRender.RenderTokensKeeps | bootstrap/repo_scripts/build_site.py:451-457 | a placeholder that is neither built-in nor configured is left in the page |
| SiteRender.EmbedsTree | bootstrap/repo_scripts/build_site.py:455-457 | the tree JSON takes the place of TREE_JSON, although the JSON itself holds braces |
| SiteRender.RenderTokensTree | bootstrap/repo_scripts/build_site.py:455-457 | on a page given a tree, and with no configured TREE_JSON, `{{ TREE_JSON }}` becomes the tree's safe JSON |
| SiteRender.RenderIndexTree | bootstrap/repo_scripts/build_site.py:84-94 | `render_index` always embeds the tree where `{{ TREE_JSON }}` is written |
| SiteRender.ChainedPlaceholders | bootstrap/repo_scripts/build_site.py:444-453 | a configured value that itself holds a placeholder of a later key is filled in as well, so "{{ A }}" with A = "{{ B }}" and B = x renders as x |
| References.LoadReferences | bootstrap/repo_scripts/build_site.py:461-471 | a non-empty result is the `references` list of a parsed dict document; when that list exists the result is that list; every failure gives no references |
| References.DisplayTitle | bootstrap/repo_scripts/build_site.py:479 | the title shown is never empty, and it is the stripped title when there is one |
| References.MetaLineCases | bootstrap/repo_scripts/build_site.py:494 | the separator ` — ` appears only between an author and a year that are both present |
| References.RenderReferencesHtml | bootstrap/repo_scripts/build_site.py:473-502 | the item loop computes `ReferencesHtml`, stopping at the first reference that is not a dict |
| References.RefItemOk | bootstrap/repo_scripts/build_site.py:478-479 | an item renders exactly when the reference is a dict |
| References.RenderItemsSpec | bootstrap/repo_scripts/build_site.py:478-500 | the list renders exactly when every reference is a dict, and then has one item per reference, in input order |
| References.ReferencesHtmlShape | bootstrap/repo_scripts/build_site.py:474-502 | no reference gives the fixed paragraph; otherwise the output is a `<ul class='ref-list'>` |
| References.TitleIsEscaped | bootstrap/repo_scripts/build_site.py:479 | the title text holds no `<`, `>` or quote, so a reference cannot inject markup; a blank title reads "Untitled" |
| ReadmeBuild.EnsureDefaults | manager/manager_scripts/build_readme.py:59-82 | the method computes `Defaulted(cfg)` on a copy, one `setdefault` at a time |
| ReadmeBuild.SetDefaultsGet | manager/manager_scripts/build_readme.py:62-79 | after the `setdefault` calls, a present key keeps its value and a missing one takes its default |
| ReadmeBuild.EnsureDefaultsKeeps | manager/manager_scripts/build_readme.py:59-82 | configured keys win; the other keys take their listed default |
| ReadmeBuild.EnsureDefaultsCta | manager/manager_scripts/build_readme.py:68 | an unset CTA_TEXT becomes BANNER_ACCESS_CTA if that is set, else "Access the site →" |
| ReadmeBuild.DefaultsKeys | manager/manager_scripts/build_readme.py:62-79 | the twelve keys offered, in order, whatever the configuration |
| ReadmeBuild.DefaultedHasDefaultKeys | manager/manager_scripts/build_readme.py:59-82 | after `ensure_defaults`, every key it offers is present |
| ReadmeBuild.EnsureDefaultsIdempotent | manager/manager_scripts/build_readme.py:59-82 | completing the defaults twice gives the same configuration as completing them once |
| ReadmeBuild.ParseArgs | manager/manager_scripts/build_readme.py:108-138 | the index loop computes `ParseArgsSpec` |
| ReadmeBuild.ScanAppend | manager/manager_scripts/build_readme.py:114-129 | a well-formed run of arguments leaves the loop exactly at its end, so the rest of the arguments is read from there |
| ReadmeBuild.ScanKeeps | manager/manager_scripts/build_readme.py:114-129 | a path is changed only by its own flag |
| ReadmeBuild.ParseArgsLastFlagWins | manager/manager_scripts/build_readme.py:116-128 | the last occurrence of a flag wins, and the four spellings of the cfg flag set the same path |
| ReadmeBuild.ParseArgsSkipsUnknown | manager/manager_scripts/build_readme.py:129 | an argument that is neither a flag nor a flag's value is ignored |
| ReadmeBuild.ParseArgsNeedsCentral | manager/manager_scripts/build_readme.py:131-132 | without `--central` the script exits with status 1 |
| ReadmeBuild.ParseArgsDanglingFlag | manager/manager_scripts/build_readme.py:117-128 | a flag given as the last argument has no value and raises IndexError |
| ReadmeBuild.ParseArgsCfgDefault | manager/manager_scripts/build_readme.py:134-136 | without any cfg flag, the configuration path is `<repo>/.github/scripts` |
| ReadmeBuild.FirstExt | manager/manager_scripts/build_readme.py:93-97 | the first extension, in list order, whose picture exists; none is skipped over |
| ReadmeBuild.PickedAsset | manager/manager_scripts/build_readme.py:85-98 | a blank theme picks nothing; a picked picture is `<central>/assets/<theme><ext>` for the first extension present; nothing is picked only when no extension is present |
| ReadmeBuild.PickThemeAsset | manager/manager_scripts/build_readme.py:85-98 | the extension loop computes `PickedAsset` |
| ReadmeBuild.ThemeAssetOfPicked | manager/manager_scripts/build_readme.py:172-174 | THEME_ASSET for a picked picture is `<ASSETS_DIR without trailing slashes>/theme<ext>` |
| ReadmeBuild.PrepareConfig | manager/manager_scripts/build_readme.py:159-178 | `main`'s configuration steps compute `Prepared`: defaults, timestamp, theme |
| ReadmeBuild.ThemedSpec | manager/manager_scripts/build_readme.py:167-178 | the theme step sets THEME_ASSET to the picked picture's path when there is one, otherwise leaves the configuration as it is, and changes no other key |
| ReadmeBuild.StampedHasThemeAsset | manager/manager_scripts/build_readme.py:160-161 | after `ensure_defaults` and the stamp, THEME_ASSET is present and TIMESTAMP is the stamp |
| ReadmeBuild.PreparedSpec | manager/manager_scripts/build_readme.py:159-178 | TIMESTAMP is the stamp, THEME_ASSET is the picked path or what `ensure_defaults` left, and every other key is as `ensure_defaults` left it |
| ReadmeBuild.FirstSvg | manager/manager_scripts/build_readme.py:153 | the first place where `<svg\b` matches, or None when it matches nowhere |
| ReadmeBuild.InjectSvgSpec | manager/manager_scripts/build_readme.py:141-153 | the SVG changes exactly when a stamp is set, no `data-build=` is present and an `<svg` tag exists; then only the first tag gets the attribute, right after `<svg` |
| ReadmeBuild.InjectSvgIdempotent | manager/manager_scripts/build_readme.py:141-153 | injecting twice gives the same text as injecting once |
| AssemblyPosts.FirstListKey | manager/manager_scripts/assembly_posts.py:26-29 | the first registry key, in order, whose value is a list; none before it holds one |
| AssemblyPosts.LoadRegistrySpec | manager/manager_scripts/assembly_posts.py:16-35 | a list document is returned as it is; a dict gives the list under the first of repos, repositories, items, orgs and entries that holds one; anything else raises ValueError |
| AssemblyPosts.ReadRegistry | manager/manager_scripts/assembly_posts.py:15-35 | the loop over the known keys returns what `LoadRegistry` specifies: the document itself, the first list it meets, or ValueError |
| AssemblyPosts.StrLtTotal | manager/manager_scripts/assembly_posts.py:46-51 | Python's string order is total on different strings |
| AssemblyPosts.StrLtTransitive | manager/manager_scripts/assembly_posts.py:46-51 | Python's string order is transitive |
| AssemblyPosts.SortKeyedSpec | manager/manager_scripts/assembly_posts.py:51 | sorting is a permutation into strictly ascending `(date, name, place)` order |
| AssemblyPosts.DecoratedSpec | manager/manager_scripts/assembly_posts.py:46-51 | computing the keys succeeds exactly when every item has one, and keeps each item at its place with its own key |
| AssemblyPosts.SortedItemsSpec | manager/manager_scripts/assembly_posts.py:46-51 | the sorted items are the registry's items, each once, in ascending `(date, name)` order, with equal keys in registry order |
| AssemblyPosts.Required | manager/manager_scripts/assembly_posts.py:54-56 | `item[k]` fails with KeyError(k) exactly when `k` is missing, and otherwise gives the stored value |
| AssemblyPosts.MakePostSpec | manager/manager_scripts/assembly_posts.py:54-79 | a post exists exactly when the item has name, id and title, else the KeyError names the first one missing; `modal-id` is the number given, the date is the sort date, the file is `<date>-<name>.markdown` and the link is `/<name>` |
| AssemblyPosts.Numbered | manager/manager_scripts/assembly_posts.py:53 | `enumerate(..., start=1)` pairs the i-th item with i + 1 |
| AssemblyPosts.GeneratePosts | manager/manager_scripts/assembly_posts.py:42-84 | the numbering loop computes `Generate`, stopping at the first error |
| AssemblyPosts.PostsOfOk | manager/manager_scripts/assembly_posts.py:53-56 | the posts exist exactly when every numbered item makes one |
| AssemblyPosts.PostsOfInOrder | manager/manager_scripts/assembly_posts.py:53-84 | the posts follow the items one for one, the i-th numbered i + 1 |
| AssemblyPosts.GenerateSpec | manager/manager_scripts/assembly_posts.py:51-79 | the posts follow the sorted items one for one, with `modal-id` running 1..n and each file named after its item's date and name |
| AssemblyPosts.PostErrorsAreKeyErrors | manager/manager_scripts/assembly_posts.py:54-56 | the only error the numbering loop can raise is a KeyError |
| AssemblyPosts.MissingFieldFails | manager/manager_scripts/assembly_posts.py:54-56 | an item without name, id or title makes the whole generation fail with a KeyError |
| AssemblyPosts.SortedPlaceOf | manager/manager_scripts/assembly_posts.py:51 | every registry item lands somewhere in the sorted order |
| AssemblyPosts.FrontMatterShape | manager/manager_scripts/assembly_posts.py:67-79 | the front matter is delimited by `---` lines and carries the post's `modal-id` line |
| RepoInit.RepoExists | bootstrap/repo_scripts/repo_initializer.py:84-88 | 200 means the repository exists, 404 that it does not, and any other status raises RuntimeError |
| RepoInit.CreateRepo | bootstrap/repo_scripts/repo_initializer.py:90-103 | 201 and 422 are accepted, and any other status raises RuntimeError |
| RepoInit.Dispatch | bootstrap/repo_scripts/repo_initializer.py:105-108 | only 204 is accepted |
| RepoInit.NormalizeRepoNameSpec | bootstrap/repo_scripts/repo_initializer.py:266-268 | the normalised name has the stripped name's length and no parenthesis; every other character stays in place |
| RepoInit.NormalizeKeepsDot | bootstrap/repo_scripts/repo_initializer.py:260-268 | the documented example does not hold: "MIT(8.20)-Intro" keeps its dot and does not become "MIT-8-20--Intro" |
| RepoInit.CloneUrlShape | bootstrap/repo_scripts/repo_initializer.py:127-129 | both clone URLs name the same repository, and only the token URL carries credentials |
| RepoInit.FirstHit | bootstrap/repo_scripts/repo_initializer.py:239-254 | the accepted probe lies within the attempts |
| RepoInit.FirstHitFrom | bootstrap/repo_scripts/repo_initializer.py:239-254 | the probe found is the first accepted one, and none is found only when no probe is accepted |
| RepoInit.Pauses | bootstrap/repo_scripts/repo_initializer.py:243 | the pause after failed probe i is `min(2 * i, 10)` seconds |
| RepoInit.ProbePhase | bootstrap/repo_scripts/repo_initializer.py:239-245 | one retry loop stops at the first accepted answer, pausing after each failed probe, or spends all attempts |
| RepoInit.WaitRepoReady | bootstrap/repo_scripts/repo_initializer.py:233-256 | the two retry loops compute `WaitSpec` |
| RepoInit.WaitSpecBounds | bootstrap/repo_scripts/repo_initializer.py:233-256 | the wait succeeds exactly when the API answers 200 and then the git endpoint answers something other than 404, each within its attempts; no pause exceeds 10 seconds; failure is RuntimeError |
| RepoInit.FinishBootstrap | bootstrap/repo_scripts/repo_initializer.py:216-227 | clone, sync and dispatch compute `AfterReady`, stopping at the first step that raises |
| RepoInit.ProcessRepo | bootstrap/repo_scripts/repo_initializer.py:193-229 | the step sequence computes `ProcessSpec`, stopping at the first step that raises |
| RepoInit.ProcessSkipsBlank | bootstrap/repo_scripts/repo_initializer.py:203-204 | an entry without an org or a name is skipped before any remote call |
| RepoInit.ProcessSkipsExisting | bootstrap/repo_scripts/repo_initializer.py:208-210 | an existing repository is only looked up: nothing is created, cloned, synced or dispatched |
| RepoInit.ProcessReachesBootstrap | bootstrap/repo_scripts/repo_initializer.py:208-214 | a well-formed entry naming a missing repository goes on to the bootstrap |
| RepoInit.BootstrapReachesReady | bootstrap/repo_scripts/repo_initializer.py:212-217 | a bootstrap that gets through the wait goes on to clone, sync and dispatch |
| RepoInit.AfterReadyDispatch | bootstrap/repo_scripts/repo_initializer.py:216-227 | after the clone (from the URL USE_TOKEN_IN_URL selects) and the sync, the site event and then the README event are sent exactly when ALWAYS_DISPATCH is on or nothing was pushed |
| RepoInit.BootstrapDispatchRule | bootstrap/repo_scripts/repo_initializer.py:221-227 | after a successful sync, workflows are dispatched exactly when ALWAYS_DISPATCH is on or the sync pushed nothing |
| RepoInit.ProcessDispatchRule | bootstrap/repo_scripts/repo_initializer.py:193-227 | the same dispatch rule holds for a whole entry whose repository did not exist |
| RepoInit.ReadyCallsQuiet | bootstrap/repo_scripts/repo_initializer.py:208-214 | no workflow is dispatched before the repository is ready |
| RepoInit.DistributeTopOrg | bootstrap/repo_scripts/repo_initializer.py:284-289 | a blank top-level org changes nothing; otherwise every dict entry without an org gets the top-level org and all other entries stay; an entry whose org is not a string stops the loop |
| RepoInit.WithTopOrgSpec | bootstrap/repo_scripts/repo_initializer.py:288-289 | an entry that lacks an org gets exactly the top-level org, and any other entry is kept as it is |
| RepoInit.RunEntriesAsWritten | bootstrap/repo_scripts/repo_initializer.py:291-296 | the entry loop as written computes `BatchAsWritten` |
| RepoInit.BatchAbortStays | bootstrap/repo_scripts/repo_initializer.py:291-296 | once an entry's label raises, the rest of the registry is never reached |
| RepoInit.NumericNameAbortsBatch | bootstrap/repo_scripts/repo_initializer.py:292 | an entry named `2024` ends the batch with AttributeError before the next, well-formed entry is tried |
| RepoInit.BatchFirstUnlabelled | bootstrap/repo_scripts/repo_initializer.py:292 | a first entry without a label ends the batch with the error that forming the label raised |
| RepoInit.RunEntries | bootstrap/repo_scripts/repo_initializer.py:291-296 | the corrected loop tries and reports every entry, in order, each with its own outcome |
| RepoInit.BatchAgreesWhenLabelled | bootstrap/repo_scripts/repo_initializer.py:291-296 | on a registry whose every entry has a label, the loop as written reports exactly what the corrected loop does |

## Left out

- File and directory I/O is not modelled: reading, writing, `mkdir`, `copy_tree`, `shutil.copy2` and `rmtree`. Each operation maps its parsed input (a listing, a document, a page) to what would be written.
- nbconvert is not modelled. The `converts` predicate says whether it succeeds on a notebook. The HTML it writes and `--execute` are not modelled.
- `git`, `rsync` and the HTTP calls are not modelled. Their outcomes are fields of `RepoInit.Remote`. `sync_bootstrap_into_main` is reduced to its outcome: pushed, not pushed, or failed.
- The clock is a parameter: the timestamp string, and today's date in assembly_posts.py. `time.sleep` is recorded as the list of pauses.
- Logging and `print` output are not modelled, and neither is argparse in the `main` functions of build_site.py and assembly_posts.py. The `main` of build_site.py (`build_static_site`, `copy_tree`, `load_template_index`) is not modelled either.
- Environment handling at import time is not modelled: `_default_registry_file`, the GH_TOKEN check and `HEADERS`. Only the flags are modelled, through `RepoInit.EnvFlag`.
- YAML floats, dates and other scalar types are not modelled. Registry dates are strings.
- `DictMerge.LoadPlaceholders`: the `recursive=False` branch is not modelled, because `main` always passes `recursive=True`. Each YAML document is assumed to be a mapping, and an empty file is given as the empty dict.
- `SiteConfig.LoadConfig`: a configuration file that parses to something other than a mapping is not modelled.
- `NotebookFiles.EnsureMinimalCell` takes the parsed notebook; the scan is given, per path, that notebook or `None` for a file `json.loads` cannot read (the early return). The JSON it writes back is not modelled, and nbconvert's outcome on the rewritten file is the `converts` parameter.
- `NotebookFiles.Widen`: the text of the style block is not modelled. It is abstracted as `IsWideCss`: a block that carries the marker and has no backslash.
- `ReadmeBuild.InjectSvgBuildAttr` requires a timestamp without a backslash. That text is a regex replacement template, and the stamp `main` writes (an ISO time) never holds one.
- `PyText.AsciiLower`, `ReadmeBuild.IsWordChar`: `.lower()` and `\w` are modelled on ASCII only. Python's full Unicode case mapping and word characters are not modelled.
- `PyValue.Repr` shows strings between single quotes. Python's choice of quote character and its escapes are not modelled, so `str()` of a list or dict is approximate.
- `AssemblyPosts.KeyedOf`: sort keys are modelled only when both parts are strings. A key part of another type is a TypeError. Python would compare, for example, two ints.
- `AssemblyPosts.GeneratePosts`: on a KeyError, the posts written before it are not returned. Only the error is returned.
- `RepoInit.WaitRepoReady` is modelled for any number of attempts. `process_repo` always uses the default of 12.
- `JsonText.CodePoint`: surrogate pairs in `\u` escapes are not decoded. Dafny strings hold scalar values only.

## Findings

| source | as written | input that shows it | evidently intended | confidence | as-written member | corrected member |
|---|---|---|---|---|---|---|
| bootstrap/repo_scripts/repo_initializer.py:291-296 | The log label `full` is formed before the `try`. An entry whose name or org is not a string, or that is not a dict, raises outside the handler and ends the whole batch. | a registry `[{org: acme, name: 2024}, <a well-formed entry>]` | every entry is tried and a failure is reported per entry, as the `try`/`except` around `process_repo` shows | not executed | RepoInit.NumericNameAbortsBatch | RepoInit.RunEntries |
