/**
 * repo_initializer.py: for every entry of an organisation's registry, create
 * the repository on GitHub if it does not exist yet, wait until it can be
 * cloned, push the bootstrap files into it and trigger its site and README
 * workflows. GitHub's answers (status codes, whether the sync pushed) are
 * oracle inputs; what the model records is the sequence of remote calls made.
 */
module RepoInit {
  import opened Wrappers
  import opened PyText
  import opened PyValue

  // ---------------------------------------------------------------------------
  // Status rules

  /** `repo_exists`: 200 means it exists, 404 that it does not, anything else fails. */
  function RepoExists(status: int): (r: Result<bool, Exception>)
    ensures r.Ok? <==> status == 200 || status == 404
    ensures r.Ok? ==> (r.value <==> status == 200)
    ensures r.Err? ==> r.error == RuntimeError
  {
    if status == 200 || status == 404 then Ok(status == 200) else Err(RuntimeError)
  }

  /** `create_repo`: 201 (created) and 422 (already there) are both accepted. */
  function CreateRepo(status: int): (r: Result<(), Exception>)
    ensures r.Ok? <==> status == 201 || status == 422
    ensures r.Err? ==> r.error == RuntimeError
  {
    if status == 201 || status == 422 then Ok(()) else Err(RuntimeError)
  }

  /** `dispatch`: only 204 is accepted. */
  function Dispatch(status: int): (r: Result<(), Exception>)
    ensures r.Ok? <==> status == 204
    ensures r.Err? ==> r.error == RuntimeError
  {
    if status == 204 then Ok(()) else Err(RuntimeError)
  }

  // ---------------------------------------------------------------------------
  // Names

  /** Every `c` in `s` replaced by `d`, as `s.replace(c, d)` does for one character. */
  lemma {:induction false} ReplaceOneChar(s: string, c: char, d: char)
    ensures |ReplaceAll(s, [c], [d])| == |s|
    ensures forall i :: 0 <= i < |s| ==> ReplaceAll(s, [c], [d])[i] == if s[i] == c then d else s[i]
    decreases |s|
  {
    if s != [] {
      ReplaceOneChar(s[1..], c, d);
      var rest := ReplaceAll(s[1..], [c], [d]);
      assert IsPrefix([c], s) <==> s[0] == c;
      assert ReplaceAll(s, [c], [d]) == (if s[0] == c then [d] else [s[0]]) + rest;
    }
  }

  /** `normalize_repo_name`: stripped, with each parenthesis turned into a hyphen. */
  function NormalizeRepoName(name: string): string {
    ReplaceAll(ReplaceAll(Strip(name), "(", "-"), ")", "-")
  }

  /**
   * The normalised name has the stripped name's length and no parenthesis;
   * every other character is kept in place.
   */
  lemma NormalizeRepoNameSpec(name: string)
    ensures var s := Strip(name);
      var r := NormalizeRepoName(name);
      && |r| == |s|
      && (forall i :: 0 <= i < |s| ==> r[i] == if s[i] == '(' || s[i] == ')' then '-' else s[i])
      && '(' !in r && ')' !in r
  {
    var s := Strip(name);
    ReplaceOneChar(s, '(', '-');
    ReplaceOneChar(ReplaceAll(s, "(", "-"), ')', '-');
  }

  /**
   * The documented example does not hold: the dot is kept, so
   * "MIT(8.20)-Intro" does not become "MIT-8-20--Intro".
   */
  lemma NormalizeKeepsDot(name: string)
    requires name == "MIT(8.20)-Intro"
    ensures '.' in NormalizeRepoName(name)
    ensures NormalizeRepoName(name) != "MIT-8-20--Intro"
  {
    StripUnpadded(name);
    NormalizeRepoNameSpec(name);
    assert NormalizeRepoName(name)[5] == '.';
  }

  /** A string with no white space at either end is its own strip. */
  lemma StripUnpadded(s: string)
    requires s != [] && !IsSpace(s[0]) && !IsSpace(s[|s| - 1])
    ensures Strip(s) == s
  {
  }

  /** The host and path both clone URLs end with. */
  function RepoPath(org: string, repo: string): string {
    "github.com/" + org + "/" + repo + ".git"
  }

  /** The URL `ensure_repo_clone` clones from: with the token embedded unless USE_TOKEN_IN_URL is off. */
  function CloneUrl(useTokenInUrl: bool, token: string, org: string, repo: string): string {
    if useTokenInUrl then "https://x-access-token:" + token + "@" + RepoPath(org, repo)
    else "https://" + RepoPath(org, repo)
  }

  /** Both URLs name the same repository; only the token URL carries credentials. */
  lemma CloneUrlShape(useTokenInUrl: bool, token: string, org: string, repo: string)
    ensures var u := CloneUrl(useTokenInUrl, token, org, repo);
      var tail := RepoPath(org, repo);
      u[|u| - |tail|..] == tail && (useTokenInUrl <==> IsPrefix("https://x-access-token:", u))
  {
    var tail := RepoPath(org, repo);
    var u := CloneUrl(useTokenInUrl, token, org, repo);
    var creds := "https://x-access-token:";
    if useTokenInUrl {
      var head := creds + token + "@";
      PrefixParts(head, tail);
      assert u == creds + (token + "@" + tail) by {
        Assoc(creds + token, "@", tail);
        Assoc(creds, token, "@" + tail);
        Assoc(token, "@", tail);
      }
      PrefixParts(creds, token + "@" + tail);
    } else {
      PrefixParts("https://", tail);
      assert u[8] == tail[0] == 'g';
    }
  }

  /** `os.environ.get(name, "true").lower() == "true"`, as ALWAYS_DISPATCH and USE_TOKEN_IN_URL are read. */
  function EnvFlag(raw: Option<string>): bool {
    AsciiLower(match raw case Some(v) => v case None => "true") == "true"
  }

  // ---------------------------------------------------------------------------
  // wait_repo_ready

  /** The default number of probes per phase. */
  const Attempts: nat := 12

  /** What ends a phase: the API answering 200, or the git endpoint answering anything but 404. */
  datatype Accept = Is200 | Not404

  predicate Accepts(a: Accept, status: int) {
    match a
    case Is200 => status == 200
    case Not404 => status != 404
  }

  /** The first probe number in `lo..attempts` whose answer is accepted. */
  function FirstHit(probe: nat -> int, a: Accept, lo: nat, attempts: nat): (r: Option<nat>)
    ensures r.Some? ==> lo <= r.value <= attempts
    decreases attempts + 1 - lo
  {
    if lo > attempts then None
    else if Accepts(a, probe(lo)) then Some(lo)
    else FirstHit(probe, a, lo + 1, attempts)
  }

  lemma {:induction false} FirstHitFrom(probe: nat -> int, a: Accept, lo: nat, attempts: nat)
    ensures var r := FirstHit(probe, a, lo, attempts);
      && (r.Some? ==> lo <= r.value <= attempts && Accepts(a, probe(r.value))
                      && forall j :: lo <= j < r.value ==> !Accepts(a, probe(j)))
      && (r.None? ==> forall j :: lo <= j <= attempts ==> !Accepts(a, probe(j)))
    decreases attempts + 1 - lo
  {
    if lo <= attempts && !Accepts(a, probe(lo)) {
      FirstHitFrom(probe, a, lo + 1, attempts);
    }
  }

  /** The pause after failed probe `i`, in seconds. */
  function Backoff(i: nat): nat {
    if 2 * i < 10 then 2 * i else 10
  }

  /** The pauses after failed probes 1..n. */
  function Pauses(n: nat): (r: seq<nat>)
    ensures |r| == n && forall i :: 0 <= i < n ==> r[i] == Backoff(i + 1)
  {
    seq(n, i requires 0 <= i < n => Backoff(i + 1))
  }

  /** What `wait_repo_ready` did: its outcome, the probes of each phase and its pauses. */
  datatype Wait = Wait(result: Result<(), Exception>, apiProbes: nat, gitProbes: nat, pauses: seq<nat>)

  /**
   * `wait_repo_ready` in closed form: phase 1 probes the API until a 200,
   * phase 2 the git endpoint until an answer other than 404, each phase at
   * most `attempts` times and pausing `Backoff(i)` after failed probe `i`; a
   * phase that runs out of probes raises.
   */
  function WaitSpec(api: nat -> int, git: nat -> int, attempts: nat): Wait {
    match FirstHit(api, Is200, 1, attempts)
    case None => Wait(Err(RuntimeError), attempts, 0, Pauses(attempts))
    case Some(k) =>
      match FirstHit(git, Not404, 1, attempts)
      case None => Wait(Err(RuntimeError), k, attempts, Pauses(k - 1) + Pauses(attempts))
      case Some(m) => Wait(Ok(()), k, m, Pauses(k - 1) + Pauses(m - 1))
  }

  /** One phase: probes until `a` accepts an answer or `attempts` probes are spent. */
  method ProbePhase(probe: nat -> int, a: Accept, attempts: nat) returns (hit: bool, probes: nat, pauses: seq<nat>)
    ensures hit <==> FirstHit(probe, a, 1, attempts).Some?
    ensures hit ==> probes == FirstHit(probe, a, 1, attempts).value && pauses == Pauses(probes - 1)
    ensures !hit ==> probes == attempts && pauses == Pauses(attempts)
  {
    hit := false;
    probes := 0;
    pauses := [];
    var i := 1;
    while i <= attempts
      invariant 1 <= i <= attempts + 1
      invariant FirstHit(probe, a, 1, attempts) == FirstHit(probe, a, i, attempts)
      invariant probes == i - 1 && pauses == Pauses(i - 1)
    {
      probes := i;
      if Accepts(a, probe(i)) {
        hit := true;
        return;
      }
      pauses := pauses + [Backoff(i)];
      i := i + 1;
    }
  }

  /** `wait_repo_ready`: the two counted retry loops. */
  method WaitRepoReady(api: nat -> int, git: nat -> int, attempts: nat) returns (w: Wait)
    ensures w == WaitSpec(api, git, attempts)
  {
    var hit1, n1, p1 := ProbePhase(api, Is200, attempts);
    if !hit1 {
      return Wait(Err(RuntimeError), n1, 0, p1);
    }
    var hit2, n2, p2 := ProbePhase(git, Not404, attempts);
    if !hit2 {
      return Wait(Err(RuntimeError), n1, n2, p1 + p2);
    }
    w := Wait(Ok(()), n1, n2, p1 + p2);
  }

  /**
   * Neither phase probes more than `attempts` times, no pause exceeds ten
   * seconds, and the wait succeeds exactly when the API answers 200 within
   * its probes and then the git endpoint answers something other than 404
   * within its own; the last probe of a successful phase is the accepted one.
   */
  lemma WaitSpecBounds(api: nat -> int, git: nat -> int, attempts: nat)
    ensures var w := WaitSpec(api, git, attempts);
      && w.apiProbes <= attempts && w.gitProbes <= attempts
      && (forall i :: 0 <= i < |w.pauses| ==> w.pauses[i] <= 10)
      && (w.result.Ok? <==>
            (exists i :: 1 <= i <= attempts && api(i) == 200) &&
            (exists j :: 1 <= j <= attempts && git(j) != 404))
      && (w.result.Ok? ==> api(w.apiProbes) == 200 && git(w.gitProbes) != 404)
      && (w.result.Err? ==> w.result.error == RuntimeError)
  {
    FirstHitFrom(api, Is200, 1, attempts);
    FirstHitFrom(git, Not404, 1, attempts);
    var h1 := FirstHit(api, Is200, 1, attempts);
    var h2 := FirstHit(git, Not404, 1, attempts);
    if h1.Some? && h2.Some? {
      assert 1 <= h1.value <= attempts && api(h1.value) == 200;
      assert 1 <= h2.value <= attempts && git(h2.value) != 404;
    }
  }

  // ---------------------------------------------------------------------------
  // process_repo

  /** The settings read from the environment at start-up. */
  datatype Settings = Settings(alwaysDispatch: bool, dispatchSite: string, dispatchReadme: string,
                               useTokenInUrl: bool, token: string)

  /** GitHub's and git's answers for one entry. */
  datatype Remote = Remote(
    existsStatus: int,
    createStatus: int,
    api: nat -> int,                  // the status of API probe i
    git: nat -> int,                  // the status of git endpoint probe i
    cloneOk: bool,                    // whether the clone, remote and config commands succeed
    sync: Result<bool, Exception>,    // `sync_bootstrap_into_main`: whether it pushed, or how it failed
    siteStatus: int,
    readmeStatus: int)

  /** The remote operations, in the order they are made. */
  datatype Call =
    | GetRepo
    | Create(org: string, repo: string, desc: string, private: bool)
    | ProbeApi(i: nat)
    | ProbeGit(i: nat)
    | Clone(url: string)
    | Sync
    | Send(event: string)

  function ProbeCalls(w: Wait): seq<Call> {
    seq(w.apiProbes, i requires 0 <= i < w.apiProbes => ProbeApi(i + 1))
      + seq(w.gitProbes, i requires 0 <= i < w.gitProbes => ProbeGit(i + 1))
  }

  /** `(entry.get(k) or "").strip()`. */
  function EntryText(d: Dict, k: string): Result<string, Exception> {
    var v :- StrOrEmpty(Get(d, k));
    Ok(Strip(v))
  }

  /** `(entry.get("description") or entry.get("title") or "").strip()`. */
  function EntryDesc(d: Dict): Result<string, Exception> {
    var desc := Get(d, "description");
    var v :- StrOrEmpty(if desc.Some? && Truthy(desc.value) then desc else Get(d, "title"));
    Ok(Strip(v))
  }

  /** The fields `process_repo` reads before any remote call. */
  datatype Fields = Fields(org: string, repo: string, desc: string, private: bool)

  function EntryFields(entry: Value): Result<Fields, Exception> {
    if !entry.VDict? then Err(AttributeError)
    else
      var d := entry.entries;
      var org :- EntryText(d, "org");
      var raw :- EntryText(d, "name");
      var desc :- EntryDesc(d);
      Ok(Fields(org, NormalizeRepoName(raw), desc, Truthy(GetOr(d, "private", VBool(false)))))
  }

  /** What a run of steps did: how it ended and the remote calls it made. */
  datatype Run = Run(result: Result<(), Exception>, calls: seq<Call>)

  /** The two dispatches: the site event, then (if that was accepted) the README event. */
  function Dispatches(s: Settings, remote: Remote): Run {
    if Dispatch(remote.siteStatus).Err? then Run(Err(RuntimeError), [Send(s.dispatchSite)])
    else Run(Dispatch(remote.readmeStatus), [Send(s.dispatchSite), Send(s.dispatchReadme)])
  }

  /** Clone, sync, and dispatch when ALWAYS_DISPATCH is set or the sync pushed nothing. */
  function AfterReady(f: Fields, s: Settings, remote: Remote): Run {
    var clone := Clone(CloneUrl(s.useTokenInUrl, s.token, f.org, f.repo));
    if !remote.cloneOk then Run(Err(CalledProcessError), [clone])
    else
      match remote.sync
      case Err(e) => Run(Err(e), [clone, Sync])
      case Ok(pushed) =>
        if s.alwaysDispatch || !pushed then
          var d := Dispatches(s, remote);
          Run(d.result, [clone, Sync] + d.calls)
        else Run(Ok(()), [clone, Sync])
  }

  /** The part of `process_repo` after the repository is known not to exist. */
  function Bootstrap(f: Fields, s: Settings, remote: Remote): Run {
    var created := [GetRepo, Create(f.org, f.repo, f.desc, f.private)];
    if CreateRepo(remote.createStatus).Err? then Run(Err(RuntimeError), created)
    else
      var w := WaitSpec(remote.api, remote.git, Attempts);
      if w.result.Err? then Run(w.result, created + ProbeCalls(w))
      else
        var rest := AfterReady(f, s, remote);
        Run(rest.result, created + ProbeCalls(w) + rest.calls)
  }

  /** `process_repo` for one entry: its outcome and the remote calls it made. */
  function ProcessSpec(entry: Value, s: Settings, remote: Remote): Run {
    match EntryFields(entry)
    case Err(e) => Run(Err(e), [])
    case Ok(f) =>
      if f.org == "" || f.repo == "" then Run(Ok(()), [])
      else
        match RepoExists(remote.existsStatus)
        case Err(e) => Run(Err(e), [GetRepo])
        case Ok(found) => if found then Run(Ok(()), [GetRepo]) else Bootstrap(f, s, remote)
  }

  /** Clone, sync and dispatch, stopping at the first step that raises. */
  method FinishBootstrap(f: Fields, s: Settings, remote: Remote) returns (run: Run)
    ensures run == AfterReady(f, s, remote)
  {
    var calls := [Clone(CloneUrl(s.useTokenInUrl, s.token, f.org, f.repo))];
    if !remote.cloneOk {
      return Run(Err(CalledProcessError), calls);
    }
    calls := calls + [Sync];
    if remote.sync.Err? {
      return Run(Err(remote.sync.error), calls);
    }
    var pushed := remote.sync.value;
    if s.alwaysDispatch || !pushed {
      calls := calls + [Send(s.dispatchSite)];
      if Dispatch(remote.siteStatus).Err? {
        return Run(Err(RuntimeError), calls);
      }
      calls := calls + [Send(s.dispatchReadme)];
      run := Run(Dispatch(remote.readmeStatus), calls);
    } else {
      run := Run(Ok(()), calls);
    }
  }

  /** `process_repo`: the step sequence, stopping at the first step that raises. */
  method ProcessRepo(entry: Value, s: Settings, remote: Remote) returns (run: Run)
    ensures run == ProcessSpec(entry, s, remote)
  {
    var fields := EntryFields(entry);
    if fields.Err? {
      return Run(Err(fields.error), []);
    }
    var f := fields.value;
    if f.org == "" || f.repo == "" {
      return Run(Ok(()), []);
    }
    var found := RepoExists(remote.existsStatus);
    if found.Err? {
      return Run(Err(found.error), [GetRepo]);
    }
    if found.value {
      return Run(Ok(()), [GetRepo]);
    }
    var calls := [GetRepo, Create(f.org, f.repo, f.desc, f.private)];
    if CreateRepo(remote.createStatus).Err? {
      return Run(Err(RuntimeError), calls);
    }
    var w := WaitRepoReady(remote.api, remote.git, Attempts);
    calls := calls + ProbeCalls(w);
    if w.result.Err? {
      return Run(w.result, calls);
    }
    var rest := FinishBootstrap(f, s, remote);
    run := Run(rest.result, calls + rest.calls);
  }

  /** An entry without an org or a name is skipped before any remote call. */
  lemma ProcessSkipsBlank(entry: Value, s: Settings, remote: Remote)
    requires EntryFields(entry).Ok?
    requires EntryFields(entry).value.org == "" || EntryFields(entry).value.repo == ""
    ensures ProcessSpec(entry, s, remote) == Run(Ok(()), [])
  {
  }

  /** An existing repository is only looked up: no create, clone, sync or dispatch. */
  lemma ProcessSkipsExisting(entry: Value, s: Settings, remote: Remote)
    requires EntryFields(entry).Ok?
    requires EntryFields(entry).value.org != "" && EntryFields(entry).value.repo != ""
    requires remote.existsStatus == 200
    ensures ProcessSpec(entry, s, remote) == Run(Ok(()), [GetRepo])
  {
  }

  /** The calls up to and including the wait, for an entry that reaches it. */
  function ReadyCalls(f: Fields, remote: Remote): seq<Call> {
    [GetRepo, Create(f.org, f.repo, f.desc, f.private)] + ProbeCalls(WaitSpec(remote.api, remote.git, Attempts))
  }

  /** A well-formed entry naming a repository that does not exist goes on to the bootstrap. */
  lemma ProcessReachesBootstrap(entry: Value, s: Settings, remote: Remote)
    requires EntryFields(entry).Ok?
    requires EntryFields(entry).value.org != "" && EntryFields(entry).value.repo != ""
    requires remote.existsStatus == 404
    ensures ProcessSpec(entry, s, remote) == Bootstrap(EntryFields(entry).value, s, remote)
  {
  }

  /** A bootstrap that gets through the wait goes on to clone, sync and dispatch. */
  lemma BootstrapReachesReady(f: Fields, s: Settings, remote: Remote)
    requires CreateRepo(remote.createStatus).Ok?
    requires WaitSpec(remote.api, remote.git, Attempts).result.Ok?
    ensures Bootstrap(f, s, remote) ==
      Run(AfterReady(f, s, remote).result, ReadyCalls(f, remote) + AfterReady(f, s, remote).calls)
  {
  }

  /**
   * Once the bootstrap is synced, the site event and then the README event
   * are dispatched exactly when ALWAYS_DISPATCH is set or nothing was pushed;
   * otherwise no event is sent.
   */
  lemma AfterReadyDispatch(f: Fields, s: Settings, remote: Remote)
    requires remote.cloneOk && remote.sync.Ok? && remote.siteStatus == 204
    ensures AfterReady(f, s, remote).calls ==
      [Clone(CloneUrl(s.useTokenInUrl, s.token, f.org, f.repo)), Sync] +
      (if s.alwaysDispatch || !remote.sync.value then [Send(s.dispatchSite), Send(s.dispatchReadme)] else [])
  {
  }

  predicate Sent(calls: seq<Call>) {
    exists i :: 0 <= i < |calls| && calls[i].Send?
  }

  /**
   * For a new repository that becomes ready and is synced, events are sent
   * exactly when ALWAYS_DISPATCH is set or nothing was pushed, and then the
   * last two calls are the site and README dispatches.
   */
  lemma BootstrapDispatchRule(f: Fields, s: Settings, remote: Remote)
    requires CreateRepo(remote.createStatus).Ok?
    requires WaitSpec(remote.api, remote.git, Attempts).result.Ok?
    requires remote.cloneOk && remote.sync.Ok?
    requires remote.siteStatus == 204
    ensures Sent(Bootstrap(f, s, remote).calls) <==> s.alwaysDispatch || !remote.sync.value
    ensures Sent(Bootstrap(f, s, remote).calls) ==>
      var calls := Bootstrap(f, s, remote).calls;
      |calls| >= 2 && calls[|calls| - 2..] == [Send(s.dispatchSite), Send(s.dispatchReadme)]
  {
    BootstrapReachesReady(f, s, remote);
    AfterReadyDispatch(f, s, remote);
    var events := if s.alwaysDispatch || !remote.sync.value then [Send(s.dispatchSite), Send(s.dispatchReadme)] else [];
    var quiet := ReadyCalls(f, remote) + [Clone(CloneUrl(s.useTokenInUrl, s.token, f.org, f.repo)), Sync];
    assert Bootstrap(f, s, remote).calls == quiet + events;
    ReadyCallsQuiet(f, remote);
    assert forall i :: 0 <= i < |quiet| ==> !quiet[i].Send? by {
      forall i | 0 <= i < |quiet| ensures !quiet[i].Send? {
        if i < |ReadyCalls(f, remote)| {
          assert quiet[i] == ReadyCalls(f, remote)[i];
        }
      }
    }
    SentAfterQuiet(quiet, events);
    assert Sent(events) <==> s.alwaysDispatch || !remote.sync.value by {
      if events != [] {
        assert events[0].Send?;
      }
    }
  }

  /** The same rule for a whole entry whose repository did not exist. */
  lemma ProcessDispatchRule(entry: Value, s: Settings, remote: Remote)
    requires EntryFields(entry).Ok?
    requires EntryFields(entry).value.org != "" && EntryFields(entry).value.repo != ""
    requires remote.existsStatus == 404 && CreateRepo(remote.createStatus).Ok?
    requires WaitSpec(remote.api, remote.git, Attempts).result.Ok?
    requires remote.cloneOk && remote.sync.Ok?
    requires remote.siteStatus == 204
    ensures Sent(ProcessSpec(entry, s, remote).calls) <==> s.alwaysDispatch || !remote.sync.value
    ensures Sent(ProcessSpec(entry, s, remote).calls) ==>
      var calls := ProcessSpec(entry, s, remote).calls;
      |calls| >= 2 && calls[|calls| - 2..] == [Send(s.dispatchSite), Send(s.dispatchReadme)]
  {
    ProcessReachesBootstrap(entry, s, remote);
    BootstrapDispatchRule(EntryFields(entry).value, s, remote);
  }

  lemma ReadyCallsQuiet(f: Fields, remote: Remote)
    ensures forall i :: 0 <= i < |ReadyCalls(f, remote)| ==> !ReadyCalls(f, remote)[i].Send?
  {
    var w := WaitSpec(remote.api, remote.git, Attempts);
    var probes := ProbeCalls(w);
    assert forall i :: 0 <= i < |probes| ==> probes[i].ProbeApi? || probes[i].ProbeGit?;
  }

  /** Calls with no dispatch among them, followed by some events. */
  lemma SentAfterQuiet(quiet: seq<Call>, events: seq<Call>)
    requires forall i :: 0 <= i < |quiet| ==> !quiet[i].Send?
    ensures Sent(quiet + events) <==> Sent(events)
  {
    if Sent(events) {
      var i :| 0 <= i < |events| && events[i].Send?;
      assert (quiet + events)[|quiet| + i] == events[i];
    }
  }

  // ---------------------------------------------------------------------------
  // main

  /**
   * The registry document: `yaml.safe_load(...) or {}`, its `repos` list
   * (anything else makes the script exit with status 2) and its stripped
   * top-level `org`.
   */
  function LoadRepos(data: Value): Result<(seq<Value>, string), Exception> {
    var doc := if Truthy(data) then data else VDict([]);
    if !doc.VDict? then Err(AttributeError)
    else
      var repos := GetOr(doc.entries, "repos", VList([]));
      if !repos.VList? then Err(SystemExit(2))
      else
        var top :- EntryText(doc.entries, "org");
        Ok((repos.items, top))
  }

  /** Whether a registry entry is a dict without an org of its own (an org that is not a string fails the test). */
  function LacksOrg(e: Value): Result<bool, Exception> {
    if !e.VDict? then Ok(false)
    else
      var org :- EntryText(e.entries, "org");
      Ok(org == "")
  }

  /** An entry after the distribution: one that lacks an org gets the top-level org. */
  function WithTopOrg(e: Value, top: string): Value {
    if top != "" && LacksOrg(e) == Ok(true) then VDict(Put(e.entries, "org", VStr(top))) else e
  }

  /**
   * Gives every entry that lacks an org the registry's top-level org, in
   * place; the loop only runs when that org is not blank, and an entry whose
   * org is not a string stops it.
   */
  method DistributeTopOrg(repos: seq<Value>, top: string) returns (r: Result<seq<Value>, Exception>)
    ensures top == "" ==> r == Ok(repos)
    ensures top != "" ==> (r.Err? <==> exists i :: 0 <= i < |repos| && LacksOrg(repos[i]).Err?)
    ensures r.Ok? ==> |r.value| == |repos| && forall i :: 0 <= i < |repos| ==> r.value[i] == WithTopOrg(repos[i], top)
  {
    if top == "" {
      return Ok(repos);
    }
    var out := repos;
    var i := 0;
    while i < |repos|
      invariant 0 <= i <= |repos| && |out| == |repos|
      invariant forall j :: 0 <= j < i ==> LacksOrg(repos[j]).Ok? && out[j] == WithTopOrg(repos[j], top)
      invariant forall j :: i <= j < |repos| ==> out[j] == repos[j]
    {
      var lacks := LacksOrg(repos[i]);
      if lacks.Err? {
        return Err(lacks.error);
      }
      ghost var before := out;
      if lacks.value {
        out := out[i := VDict(Put(repos[i].entries, "org", VStr(top)))];
      } else {
        assert before[i := WithTopOrg(repos[i], top)] == before;
      }
      assert out == before[i := WithTopOrg(repos[i], top)];
      MapStep(repos, e => LacksOrg(e).Ok?, e => WithTopOrg(e, top), before, out, i);
      i := i + 1;
    }
    r := Ok(out);
  }

  /**
   * One pass of a loop that checks `ok` of entry `i` and replaces it by `f` of
   * it: the entries before `i + 1` are done, the others untouched.
   */
  lemma MapStep<T>(xs: seq<T>, ok: T -> bool, f: T -> T, out: seq<T>, out': seq<T>, i: nat)
    requires i < |xs| == |out| && ok(xs[i])
    requires forall j :: 0 <= j < i ==> ok(xs[j]) && out[j] == f(xs[j])
    requires forall j :: i <= j < |xs| ==> out[j] == xs[j]
    requires out' == out[i := f(xs[i])]
    ensures |out'| == |xs|
    ensures forall j :: 0 <= j < i + 1 ==> ok(xs[j]) && out'[j] == f(xs[j])
    ensures forall j :: i + 1 <= j < |xs| ==> out'[j] == xs[j]
  {
  }

  /**
   * An entry with an org of its own keeps it, and everything else; one that
   * lacked it now has the top-level org, its other keys unchanged.
   */
  lemma WithTopOrgSpec(e: Value, top: string)
    requires top != "" && LacksOrg(e).Ok?
    ensures LacksOrg(e).value ==> WithTopOrg(e, top).VDict?
    ensures LacksOrg(e).value ==> Get(WithTopOrg(e, top).entries, "org") == Some(VStr(top))
    ensures LacksOrg(e).value ==>
      forall k :: k != "org" ==> Get(WithTopOrg(e, top).entries, k) == Get(e.entries, k)
    ensures !LacksOrg(e).value ==> WithTopOrg(e, top) == e
  {
  }

  /** The label `main` prints for an entry: "org/name", each part stripped. */
  function Label(entry: Value): Result<string, Exception> {
    if !entry.VDict? then Err(AttributeError)
    else
      var org :- EntryText(entry.entries, "org");
      var name :- EntryText(entry.entries, "name");
      Ok(org + "/" + name)
  }

  /** What the batch reports for one entry. */
  datatype Report = Report(full: string, run: Run)

  /**
   * The entry loop of `main` as written: the label is computed before the
   * `try`, so an entry whose label cannot be formed stops the whole batch.
   */
  function BatchAsWritten(repos: seq<Value>, s: Settings, remote: nat -> Remote): Result<seq<Report>, Exception> {
    if repos == [] then Ok([])
    else
      var n := |repos| - 1;
      var init :- BatchAsWritten(repos[..n], s, remote);
      var full :- Label(repos[n]);
      Ok(init + [Report(full, ProcessSpec(repos[n], s, remote(n)))])
  }

  /** The loop of `main` as written. */
  method RunEntriesAsWritten(repos: seq<Value>, s: Settings, remote: nat -> Remote) returns (r: Result<seq<Report>, Exception>)
    ensures r == BatchAsWritten(repos, s, remote)
  {
    var reports: seq<Report> := [];
    var i := 0;
    while i < |repos|
      invariant 0 <= i <= |repos|
      invariant BatchAsWritten(repos[..i], s, remote) == Ok(reports)
    {
      assert repos[..i + 1][..i] == repos[..i];
      var full := Label(repos[i]);
      if full.Err? {
        BatchAbortStays(repos, s, remote, i + 1);
        return Err(full.error);
      }
      var run := ProcessRepo(repos[i], s, remote(i));
      reports := reports + [Report(full.value, run)];
      i := i + 1;
    }
    assert repos[..i] == repos;
    r := Ok(reports);
  }

  lemma {:induction false} BatchAbortStays(repos: seq<Value>, s: Settings, remote: nat -> Remote, n: nat)
    requires n <= |repos| && BatchAsWritten(repos[..n], s, remote).Err?
    ensures BatchAsWritten(repos, s, remote) == BatchAsWritten(repos[..n], s, remote)
    decreases |repos| - n
  {
    if n < |repos| {
      assert repos[..n + 1][..n] == repos[..n];
      BatchAbortStays(repos, s, remote, n + 1);
    } else {
      assert repos[..n] == repos;
    }
  }

  /**
   * A registry whose first entry has a numeric name (`name: 2024`) aborts the
   * batch before the second, well-formed entry is tried, although the loop's
   * `try` is there to report a failing entry and go on.
   */
  lemma NumericNameAbortsBatch(s: Settings, remote: nat -> Remote, good: Value)
    ensures var bad := VDict([Item("org", VStr("acme")), Item("name", VInt(2024))]);
      BatchAsWritten([bad, good], s, remote) == Err(AttributeError)
  {
    var bad := VDict([Item("org", VStr("acme")), Item("name", VInt(2024))]);
    assert Get(bad.entries, "org") == Some(VStr("acme"));
    assert Get(bad.entries, "name") == Some(VInt(2024));
    assert StrOrEmpty(Get(bad.entries, "name")) == Err(AttributeError);
    assert Label(bad) == Err(AttributeError);
    BatchFirstUnlabelled([bad, good], s, remote);
  }

  /** A first entry without a label ends the batch with the error forming it raised. */
  lemma BatchFirstUnlabelled(repos: seq<Value>, s: Settings, remote: nat -> Remote)
    requires repos != [] && Label(repos[0]).Err?
    ensures BatchAsWritten(repos, s, remote) == Err(Label(repos[0]).error)
  {
    assert repos[..1][..0] == [];
    assert BatchAsWritten(repos[..1], s, remote) == Err(Label(repos[0]).error);
    BatchAbortStays(repos, s, remote, 1);
  }

  /** The label used when an entry's own fields cannot form one: the entry as Python prints it. */
  function SafeLabel(entry: Value): string {
    match Label(entry)
    case Ok(l) => l
    case Err(_) => Str(entry)
  }

  /** The entry loop as intended: every entry is tried and reported, whatever the others do. */
  method RunEntries(repos: seq<Value>, s: Settings, remote: nat -> Remote) returns (reports: seq<Report>)
    ensures reports == Intended(repos, s, remote)
    ensures |reports| == |repos|
    ensures forall i :: 0 <= i < |repos| ==>
      reports[i] == Report(SafeLabel(repos[i]), ProcessSpec(repos[i], s, remote(i)))
  {
    reports := [];
    var i := 0;
    while i < |repos|
      invariant 0 <= i <= |repos|
      invariant reports == Intended(repos[..i], s, remote)
    {
      var run := ProcessRepo(repos[i], s, remote(i));
      IntendedSnoc(repos[..i + 1], s, remote);
      assert repos[..i + 1][..i] == repos[..i];
      reports := reports + [Report(SafeLabel(repos[i]), run)];
      i := i + 1;
    }
    assert repos[..i] == repos;
  }

  /** A batch whose earlier entries went through reports its last labelled entry after them. */
  lemma BatchSnoc(repos: seq<Value>, s: Settings, remote: nat -> Remote, prev: seq<Report>, full: string)
    requires repos != [] && BatchAsWritten(repos[..|repos| - 1], s, remote) == Ok(prev)
    requires Label(repos[|repos| - 1]) == Ok(full)
    ensures BatchAsWritten(repos, s, remote) ==
      Ok(prev + [Report(full, ProcessSpec(repos[|repos| - 1], s, remote(|repos| - 1)))])
  {
  }

  /** What the intended loop reports: each entry's label (or printed form) with its run, in order. */
  function Intended(repos: seq<Value>, s: Settings, remote: nat -> Remote): seq<Report> {
    seq(|repos|, i requires 0 <= i < |repos| => Report(SafeLabel(repos[i]), ProcessSpec(repos[i], s, remote(i))))
  }

  lemma IntendedSnoc(repos: seq<Value>, s: Settings, remote: nat -> Remote)
    requires repos != []
    ensures var n := |repos| - 1;
      Intended(repos, s, remote) ==
        Intended(repos[..n], s, remote) + [Report(SafeLabel(repos[n]), ProcessSpec(repos[n], s, remote(n)))]
  {
    var n := |repos| - 1;
    var a := Intended(repos, s, remote);
    var b := Intended(repos[..n], s, remote) + [Report(SafeLabel(repos[n]), ProcessSpec(repos[n], s, remote(n)))];
    assert |a| == |b|;
    forall i | 0 <= i < |a|
      ensures a[i] == b[i]
    {
      if i < n {
        assert repos[..n][i] == repos[i];
      }
    }
  }

  /** On a registry whose every entry has a label, the loop as written reports what the intended loop does. */
  lemma {:induction false} BatchAgreesWhenLabelled(repos: seq<Value>, s: Settings, remote: nat -> Remote)
    requires forall i :: 0 <= i < |repos| ==> Label(repos[i]).Ok?
    ensures BatchAsWritten(repos, s, remote) == Ok(Intended(repos, s, remote))
  {
    if repos != [] {
      var n := |repos| - 1;
      var init := repos[..n];
      forall i | 0 <= i < n
        ensures Label(init[i]).Ok?
      {
        assert init[i] == repos[i];
      }
      BatchAgreesWhenLabelled(init, s, remote);
      var full := Label(repos[n]).value;
      assert SafeLabel(repos[n]) == full;
      BatchSnoc(repos, s, remote, Intended(init, s, remote), full);
      IntendedSnoc(repos, s, remote);
    } else {
      assert Intended(repos, s, remote) == [];
    }
  }
}
