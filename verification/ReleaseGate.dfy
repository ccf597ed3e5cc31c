/** The production release gate: its checks as a growing record, the preflight, the sensitive
    path classification, and what a green verdict plus tree equality guarantees. */
module ReleaseGate {
  import opened Text
  import opened Dicts

  // ---- the repository ------------------------------------------------------------------

  /** A git tree. Object ids identify contents, so an id is modelled by the contents themselves. */
  datatype Tree = Blob(content: string) | Dir(entries: map<string, Tree>)

  type Path = seq<string>

  /** What git answers: the tree each revision resolves to, which revisions origin/main reaches,
      and the changed paths of the pairs it can compare. */
  datatype GitFacts = GitFacts(commits: map<string, Tree>, onMain: set<string>, diffs: map<(string, string), seq<string>>) {
    predicate CommitExists(sha: string) { sha in commits }

    predicate ReachableFromMain(sha: string) { sha in onMain }

    function TreeOf(sha: string): Option<Tree> {
      if sha in commits then Some(commits[sha]) else None
    }

    /** `git rev-parse sha:path`; `None` where git fails. */
    function SubtreeOf(sha: string, path: Path): (r: Option<Tree>) {
      if sha in commits then Lookup(commits[sha], path) else None
    }

    function ChangedPaths(base: string, head: string): Option<seq<string>> {
      if (base, head) in diffs then Some(diffs[(base, head)]) else None
    }
  }

  function Lookup(tree: Tree, path: Path): (r: Option<Tree>) {
    if path == [] then Some(tree)
    else if tree.Dir? && path[0] in tree.entries then Lookup(tree.entries[path[0]], path[1..])
    else None
  }

  /** The production services in sorted order, with their runtime subtrees. */
  const SERVICES: seq<(string, Path)> := [
    ("dashboard", ["services", "dashboard"]),
    ("payment", ["services", "payment"]),
    ("registry", ["services", "registry"]),
    ("worker", ["services", "worker"])]

  // ---- the record -----------------------------------------------------------------------

  datatype Check = Check(name: string, ok: bool)

  predicate AllOk(checks: seq<Check>) {
    forall i | 0 <= i < |checks| :: checks[i].ok
  }

  /** Names of the failed checks, in order. */
  function Failed(checks: seq<Check>): (r: seq<string>) {
    if checks == [] then []
    else
      var last := checks[|checks| - 1];
      Failed(checks[..|checks| - 1]) + if last.ok then [] else [last.name]
  }

  lemma {:induction false} FailedExactly(checks: seq<Check>)
    ensures AllOk(checks) <==> Failed(checks) == []
    ensures forall name :: name in Failed(checks) <==> Check(name, false) in checks
  {
    if checks != [] {
      var n := |checks| - 1;
      FailedExactly(checks[..n]);
      assert checks == checks[..n] + [checks[n]];
    }
  }

  class GateResult {
    var ok: bool
    const target: string
    var checks: seq<Check>
    var blocking: seq<string>
    var sensitive: Dict<string, seq<string>>

    /** The verdict is the conjunction of the checks, and `blocking` names exactly the failed ones. */
    ghost predicate Consistent()
      reads this
    {
      ok == AllOk(checks) && blocking == Failed(checks)
    }

    constructor (target: string)
      ensures this.target == target && ok && checks == [] && blocking == [] && sensitive == []
      ensures Consistent()
    {
      this.target := target;
      ok, checks, blocking, sensitive := true, [], [], [];
    }

    method Record(name: string, passed: bool)
      requires Consistent()
      modifies this`ok, this`checks, this`blocking
      ensures Consistent()
      ensures checks == old(checks) + [Check(name, passed)]
      ensures ok == (old(ok) && passed)
      ensures blocking == old(blocking) + if passed then [] else [name]
    {
      checks := checks + [Check(name, passed)];
      assert checks[..|checks| - 1] == old(checks);
      if !passed {
        blocking := blocking + [name];
        ok := false;
      }
    }
  }

  // ---- sensitive paths --------------------------------------------------------------------

  /** fnmatch, for patterns whose only wildcard is `*` (any text, slashes included). */
  predicate FnMatch(name: string, pattern: string)
    decreases |pattern| + |name|
  {
    if pattern == "" then name == ""
    else if pattern[0] == '*' then FnMatch(name, pattern[1..]) || (name != "" && FnMatch(name[1..], pattern))
    else name != "" && name[0] == pattern[0] && FnMatch(name[1..], pattern[1..])
  }

  predicate MatchesAny(path: string, patterns: seq<string>) {
    exists i | 0 <= i < |patterns| :: FnMatch(path, patterns[i])
  }

  const SENSITIVE_PATTERNS: seq<(string, seq<string>)> := [
    ("migrations", ["services/*/migrations/*", "services/*/migrations/**"]),
    ("db_bootstrap", ["init-db/*", "init-db/**", "**/entrypoint.sh", "scripts/ci/*db*"]),
    ("auth", ["**/auth.py", "**/api/routes/auth.py", "**/security.py", "**/operator_auth.py"]),
    ("payment_economics", ["services/payment/**", "**/task_service.py", "**/wallet*.py", "**/escrow*.py",
                           "**/transactions.py", "**/wallets.py"]),
    ("society_policy", ["**/society/policy.py", "**/society/risk.py", "**/society/fitness.py",
                        "**/society/promotion.py", "**/society/promotion_github.py", "**/society/config.py",
                        "**/society/approvals.py", "**/society/intents.py"]),
    ("credential_boundary", ["**/github_credentials.py", "**/email_delivery.py", "**/secrets*.py"]),
    ("release_machinery", ["deploy/production/**", ".railway/**"]),
    ("ci", [".github/workflows/**"]),
    ("deployment_foundation", ["**/Dockerfile", "**/Dockerfile.*", "docker-compose*.yml"])]

  type Table = seq<(string, seq<string>)>

  /** First category of the table with a matching pattern. */
  function CategoryOf(path: string, table: Table): (r: Option<string>) {
    if table == [] then None
    else if MatchesAny(path, table[0].1) then Some(table[0].0)
    else CategoryOf(path, table[1..])
  }

  /** Paths of a category, in order. */
  function PathsOf(paths: seq<string>, table: Table, category: string): (r: seq<string>) {
    if paths == [] then []
    else
      var last := paths[|paths| - 1];
      PathsOf(paths[..|paths| - 1], table, category) + if CategoryOf(last, table) == Some(category) then [last] else []
  }

  /** Every path lands in its first matching category and nowhere else, in order; a category
      without paths has no entry. */
  ghost predicate Classified(hits: Dict<string, seq<string>>, paths: seq<string>, table: Table) {
    forall c :: Get(hits, c) == (if PathsOf(paths, table, c) == [] then None else Some(PathsOf(paths, table, c)))
  }

  method CategoryFor(path: string, table: Table) returns (category: Option<string>)
    ensures category == CategoryOf(path, table)
  {
    for i := 0 to |table|
      invariant CategoryOf(path, table) == CategoryOf(path, table[i..])
    {
      if MatchesAny(path, table[i].1) { return Some(table[i].0); }
      assert table[i..][1..] == table[i + 1..];
    }
    return None;
  }

  method ClassifySensitive(paths: seq<string>, table: Table) returns (hits: Dict<string, seq<string>>)
    ensures Classified(hits, paths, table)
  {
    hits := [];
    for i := 0 to |paths|
      invariant Classified(hits, paths[..i], table)
    {
      var category := CategoryFor(paths[i], table);
      OnePathMore(hits, paths[..i], paths[i], table);
      assert paths[..i + 1] == paths[..i] + [paths[i]];
      if category.Some? {
        hits := Put(hits, category.value, GetOr(hits, category.value, []) + [paths[i]]);
      }
    }
    assert paths[..|paths|] == paths;
  }

  lemma OnePathMore(hits: Dict<string, seq<string>>, paths: seq<string>, path: string, table: Table)
    requires Classified(hits, paths, table)
    ensures Classified(match CategoryOf(path, table)
                       case None => hits
                       case Some(c) => Put(hits, c, GetOr(hits, c, []) + [path]),
                       paths + [path], table)
  {
    hide CategoryOf;
    assert (paths + [path])[..|paths|] == paths;
    var category := CategoryOf(path, table);
    forall c: string
      ensures PathsOf(paths + [path], table, c)
           == PathsOf(paths, table, c) + if category == Some(c) then [path] else []
    {
    }
    if category.Some? {
      var key := category.value;
      var found := GetOr(hits, key, []);
      assert found == PathsOf(paths, table, key);
      var more := Put(hits, key, found + [path]);
      var all := paths + [path];
      forall c: string
        ensures Get(more, c) == if PathsOf(all, table, c) == [] then None else Some(PathsOf(all, table, c))
      {
        PutReads(hits, key, found + [path], c);
        assert Get(more, c) == if c == key then Some(found + [path]) else Get(hits, c);
        assert PathsOf(all, table, c) == if c == key then found + [path] else PathsOf(paths, table, c);
        assert Get(hits, c) == (if PathsOf(paths, table, c) == [] then None else Some(PathsOf(paths, table, c)));
      }
    } else {
      forall c: string ensures PathsOf(paths + [path], table, c) == PathsOf(paths, table, c) {
        assert PathsOf(paths, table, c) + [] == PathsOf(paths, table, c);
      }
    }
  }

  lemma {:induction false} PathsOfFinds(paths: seq<string>, table: Table, c: string)
    ensures PathsOf(paths, table, c) != [] <==> exists i | 0 <= i < |paths| :: CategoryOf(paths[i], table) == Some(c)
  {
    if paths != [] {
      PathsOfFinds(paths[..|paths| - 1], table, c);
    }
  }

  /** Nothing is classified exactly when no path matches any pattern of the table. */
  lemma NothingClassified(hits: Dict<string, seq<string>>, paths: seq<string>, table: Table)
    requires Classified(hits, paths, table)
    ensures hits == [] <==> forall i | 0 <= i < |paths| :: CategoryOf(paths[i], table).None?
  {
    forall c ensures PathsOf(paths, table, c) != [] <==> exists i | 0 <= i < |paths| :: CategoryOf(paths[i], table) == Some(c) {
      PathsOfFinds(paths, table, c);
    }
    if hits != [] {
      assert Get(hits, hits[0].0).Some?;
    } else if i :| 0 <= i < |paths| && CategoryOf(paths[i], table).Some? {
      assert Get(hits, CategoryOf(paths[i], table).value).None?;
    }
  }

  predicate EndsWith(text: string, end: string) {
    |end| <= |text| && text[|text| - |end|..] == end
  }

  predicate StarFree(text: string) { '*' !in text }

  lemma {:induction false} LiteralMatch(name: string, pattern: string)
    requires StarFree(pattern)
    ensures FnMatch(name, pattern) <==> name == pattern
  {
    if pattern != "" {
      assert pattern == [pattern[0]] + pattern[1..];
      if name != "" {
        assert name == [name[0]] + name[1..];
        assert StarFree(pattern[1..]);
        LiteralMatch(name[1..], pattern[1..]);
      }
    }
  }

  lemma {:induction false} StarsMatchAll(name: string)
    ensures FnMatch(name, "*") && FnMatch(name, "**")
  {
    assert "*"[1..] == "" && "**"[1..] == "*";
    if name != "" {
      StarsMatchAll(name[1..]);
    }
  }

  /** `prefix**` matches exactly the paths that begin with the prefix. */
  lemma {:induction false} PrefixPattern(name: string, prefix: string)
    requires StarFree(prefix)
    ensures FnMatch(name, prefix + "**") <==> prefix <= name
  {
    var pattern := prefix + "**";
    if prefix == "" {
      assert pattern == "**";
      StarsMatchAll(name);
    } else {
      assert pattern[0] == prefix[0] && pattern[1..] == prefix[1..] + "**";
      if name != "" {
        PrefixPattern(name[1..], prefix[1..]);
        assert name == [name[0]] + name[1..] && prefix == [prefix[0]] + prefix[1..];
      }
    }
  }

  lemma {:induction false} OneStarSuffix(name: string, suffix: string)
    requires StarFree(suffix)
    ensures FnMatch(name, "*" + suffix) <==> EndsWith(name, suffix)
    decreases |name|
  {
    var pattern := "*" + suffix;
    assert pattern[1..] == suffix;
    LiteralMatch(name, suffix);
    if name != "" {
      OneStarSuffix(name[1..], suffix);
      if |suffix| < |name| {
        assert name[1..][|name[1..]| - |suffix|..] == name[|name| - |suffix|..];
      }
    }
  }

  /** `**suffix` matches exactly the paths that end with the suffix; so `**` + "/auth.py" needs a
      slash, and a file of that name at the root is not matched. */
  lemma {:induction false} SuffixPattern(name: string, suffix: string)
    requires StarFree(suffix)
    ensures FnMatch(name, "**" + suffix) <==> EndsWith(name, suffix)
    decreases |name|
  {
    var pattern := "**" + suffix;
    assert pattern[1..] == "*" + suffix;
    OneStarSuffix(name, suffix);
    if name != "" {
      SuffixPattern(name[1..], suffix);
      if |suffix| < |name| {
        assert name[1..][|name[1..]| - |suffix|..] == name[|name| - |suffix|..];
      }
    }
  }

  // ---- the gate ---------------------------------------------------------------------------

  function Lower(text: string): (r: string) {
    seq(|text|, i requires 0 <= i < |text| => if 'A' <= text[i] <= 'Z' then text[i] - 'A' + 'a' else text[i])
  }

  /** Has staging run this subtree as it is at the target? */
  predicate StagingEvidence(git: GitFacts, path: Path, target: string, staged: Option<string>) {
    staged.Some?
    && (staged.value == target
        || (git.SubtreeOf(target, path).Some? && git.SubtreeOf(staged.value, path).Some?
            && git.SubtreeOf(target, path) == git.SubtreeOf(staged.value, path)))
  }

  /** What the gate is asked: `ci` is `None` where reading the CI status raises. */
  datatype Request = Request(target: string, ci: Option<string>, staged: map<string, string>,
                             currentRelease: string, allowSensitive: bool, freezeReasons: seq<string>)

  function StagedSha(q: Request, service: string): (r: Option<string>) {
    if service in q.staged then Some(q.staged[service]) else None
  }

  /** There is a current release to compare with; the empty string stands for none. */
  predicate HasBase(git: GitFacts, q: Request) {
    q.currentRelease != "" && git.CommitExists(q.currentRelease)
  }

  /** Some changed path is in a sensitive category. */
  predicate TouchesSensitive(paths: seq<string>) {
    exists i | 0 <= i < |paths| :: CategoryOf(paths[i], SENSITIVE_PATTERNS).Some?
  }

  predicate DiffFails(git: GitFacts, q: Request) {
    HasBase(git, q) && git.ChangedPaths(q.currentRelease, q.target).None?
  }

  /** The preflight raises: the CI status or the diff cannot be read. */
  predicate Raises(git: GitFacts, q: Request) {
    |q.target| >= 7 && git.CommitExists(q.target) && (q.ci.None? || DiffFails(git, q))
  }

  predicate SensitiveOk(git: GitFacts, q: Request)
    requires !DiffFails(git, q)
  {
    HasBase(git, q) ==>
      q.allowSensitive || !TouchesSensitive(git.ChangedPaths(q.currentRelease, q.target).value)
  }

  const STAGING := "staging_evidence:"

  function StagingCheck(git: GitFacts, q: Request, i: nat): (r: Check)
    requires i < |SERVICES|
  {
    Check(STAGING + SERVICES[i].0, StagingEvidence(git, SERVICES[i].1, q.target, StagedSha(q, SERVICES[i].0)))
  }

  function StagingChecks(git: GitFacts, q: Request): (r: seq<Check>)
    ensures |r| == |SERVICES| && forall i | 0 <= i < |r| :: r[i] == StagingCheck(git, q, i)
  {
    seq(|SERVICES|, i requires 0 <= i < |SERVICES| => StagingCheck(git, q, i))
  }

  method RecordStaging(git: GitFacts, q: Request, result: GateResult)
    requires result.Consistent()
    modifies result`ok, result`checks, result`blocking
    ensures result.Consistent() && result.checks == old(result.checks) + StagingChecks(git, q)
  {
    hide SERVICES, StagingEvidence;
    ghost var staging := StagingChecks(git, q);
    for i := 0 to |SERVICES|
      invariant result.Consistent() && result.checks == old(result.checks) + staging[..i]
    {
      var evidence := StagingEvidence(git, SERVICES[i].1, q.target, StagedSha(q, SERVICES[i].0));
      result.Record(STAGING + SERVICES[i].0, evidence);
      assert staging[..i + 1] == staging[..i] + [staging[i]];
    }
    assert staging[..|SERVICES|] == staging;
  }

  /** What the sensitive listing holds: with a base, the classified changes, else nothing. */
  ghost predicate Listed(git: GitFacts, q: Request, sensitive: Dict<string, seq<string>>)
    requires !DiffFails(git, q)
  {
    if HasBase(git, q)
    then Classified(sensitive, git.ChangedPaths(q.currentRelease, q.target).value, SENSITIVE_PATTERNS)
    else sensitive == []
  }

  method RecordSensitive(git: GitFacts, q: Request, result: GateResult)
    requires result.Consistent() && !DiffFails(git, q) && result.sensitive == []
    modifies result
    ensures result.Consistent() && Listed(git, q, result.sensitive)
    ensures result.checks == old(result.checks) + [SensitiveCheck(git, q)]
  {
    hide SENSITIVE_PATTERNS, Classified;
    if HasBase(git, q) {
      var changed := git.ChangedPaths(q.currentRelease, q.target).value;
      result.sensitive := ClassifySensitive(changed, SENSITIVE_PATTERNS);
      NothingClassified(result.sensitive, changed, SENSITIVE_PATTERNS);
      if result.sensitive != [] && !q.allowSensitive {
        result.Record("no_sensitive_changes", false);
      } else {
        result.Record("no_sensitive_changes", true);
      }
    } else {
      result.Record("no_sensitive_changes", true);
    }
  }

  const SHAPE := "target_shape"
  const EXISTS := "target_exists"

  /** The checks on the target's history. */
  function HistoryChecks(git: GitFacts, q: Request): (r: seq<Check>)
    requires q.ci.Some?
    ensures |r| == 3
    ensures AllOk(r) <==> git.ReachableFromMain(q.target) && Lower(q.ci.value) == "success" && q.freezeReasons == []
    ensures forall i | 0 <= i < 3 :: r[i].name in ["target_on_main", "target_ci_green", "no_autonomous_merge_freeze"]
  {
    var checks := [Check("target_on_main", git.ReachableFromMain(q.target)),
                   Check("target_ci_green", Lower(q.ci.value) == "success"),
                   Check("no_autonomous_merge_freeze", q.freezeReasons == [])];
    assert checks[0].ok == git.ReachableFromMain(q.target) && checks[1].ok == (Lower(q.ci.value) == "success");
    assert checks[2].ok == (q.freezeReasons == []);
    checks
  }

  function SensitiveCheck(git: GitFacts, q: Request): (r: Check)
    requires !DiffFails(git, q)
  {
    Check("no_sensitive_changes", SensitiveOk(git, q))
  }

  /** Every check of a preflight that does not raise, in order; an impossible target ends it. */
  function ExpectedChecks(git: GitFacts, q: Request): (r: seq<Check>)
    requires !Raises(git, q)
  {
    if |q.target| < 7 then [Check(SHAPE, false)]
    else if !git.CommitExists(q.target) then [Check(SHAPE, true), Check(EXISTS, false)]
    else
      [Check(SHAPE, true), Check(EXISTS, true)] + HistoryChecks(git, q) + StagingChecks(git, q) + [SensitiveCheck(git, q)]
  }

  method RecordHistory(git: GitFacts, q: Request, result: GateResult) returns (raised: bool)
    requires result.Consistent()
    modifies result`ok, result`checks, result`blocking
    ensures raised <==> q.ci.None?
    ensures !raised ==> result.Consistent() && result.checks == old(result.checks) + HistoryChecks(git, q)
  {
    hide Failed, AllOk, Lower;
    result.Record("target_on_main", git.ReachableFromMain(q.target));
    if q.ci.None? { return true; }
    result.Record("target_ci_green", Lower(q.ci.value) == "success");
    if q.freezeReasons != [] {
      result.Record("no_autonomous_merge_freeze", false);
    } else {
      result.Record("no_autonomous_merge_freeze", true);
    }
    return false;
  }

  /** Everything a green verdict stands for. */
  predicate Releasable(git: GitFacts, q: Request) {
    && |q.target| >= 7 && git.CommitExists(q.target) && git.ReachableFromMain(q.target)
    && q.ci.Some? && Lower(q.ci.value) == "success"
    && q.freezeReasons == []
    && (forall i | 0 <= i < |SERVICES| ::
          StagingEvidence(git, SERVICES[i].1, q.target, StagedSha(q, SERVICES[i].0)))
    && !DiffFails(git, q) && SensitiveOk(git, q)
  }

  /** The preflight never mutates, records exactly these checks, and is green exactly when
      every gate holds. */
  method Preflight(git: GitFacts, q: Request) returns (result: GateResult, raised: bool)
    ensures fresh(result) && result.target == q.target
    ensures raised <==> Raises(git, q)
    ensures !raised ==> result.Consistent() && result.checks == ExpectedChecks(git, q)
    ensures !raised ==> (result.ok <==> Releasable(git, q))
    ensures !raised && |q.target| >= 7 && git.CommitExists(q.target) ==> Listed(git, q, result.sensitive)
  {
    hide SENSITIVE_PATTERNS, SERVICES, Releasable, Listed, Failed, AllOk;
    hide SHAPE, EXISTS, HistoryChecks, StagingChecks, SensitiveCheck;
    raised := false;
    result := new GateResult(q.target);
    if !Raises(git, q) { GreenExactly(git, q); }
    if |q.target| < 7 {
      result.Record(SHAPE, false);
      return;
    }
    result.Record(SHAPE, true);
    var exists_ := git.CommitExists(q.target);
    result.Record(EXISTS, exists_);
    if !exists_ { return; }
    raised := RecordHistory(git, q, result);
    if raised { return; }
    RecordStaging(git, q, result);
    if DiffFails(git, q) {
      raised := true;
      return;
    }
    RecordSensitive(git, q, result);
  }

  lemma AllOkConcat(a: seq<Check>, b: seq<Check>)
    ensures AllOk(a + b) <==> AllOk(a) && AllOk(b)
  {
    if AllOk(a + b) {
      forall i | 0 <= i < |a| ensures a[i].ok { assert (a + b)[i] == a[i]; }
      forall i | 0 <= i < |b| ensures b[i].ok { assert (a + b)[|a| + i] == b[i]; }
    }
  }

  lemma FirstChecks(exists_: bool)
    ensures AllOk([Check(SHAPE, true), Check(EXISTS, exists_)]) <==> exists_
    ensures !AllOk([Check(SHAPE, false)])
  {
    assert [Check(SHAPE, true), Check(EXISTS, exists_)][1].ok == exists_;
    assert [Check(SHAPE, false)][0].ok == false;
  }

  lemma StagingOk(git: GitFacts, q: Request)
    ensures AllOk(StagingChecks(git, q))
       <==> forall i | 0 <= i < |SERVICES| :: StagingEvidence(git, SERVICES[i].1, q.target, StagedSha(q, SERVICES[i].0))
  {
    hide SERVICES, StagingEvidence;
    var staging := StagingChecks(git, q);
    if AllOk(staging) {
      forall i | 0 <= i < |SERVICES|
        ensures StagingEvidence(git, SERVICES[i].1, q.target, StagedSha(q, SERVICES[i].0))
      {
        assert staging[i].ok && staging[i] == StagingCheck(git, q, i);
      }
    } else {
      var i :| 0 <= i < |staging| && !staging[i].ok;
      assert staging[i] == StagingCheck(git, q, i);
      assert !StagingEvidence(git, SERVICES[i].1, q.target, StagedSha(q, SERVICES[i].0));
    }
  }

  lemma OneOk(check: Check)
    ensures AllOk([check]) <==> check.ok
  {
    assert [check][0] == check;
  }

  /** All recorded checks pass exactly when the request is releasable. */
  lemma GreenExactly(git: GitFacts, q: Request)
    requires !Raises(git, q)
    ensures AllOk(ExpectedChecks(git, q)) <==> Releasable(git, q)
  {
    hide SENSITIVE_PATTERNS, StagingEvidence, SensitiveOk, SERVICES, Lower, AllOk, HistoryChecks, StagingChecks;
    FirstChecks(git.CommitExists(q.target));
    if |q.target| >= 7 && git.CommitExists(q.target) {
      var first, history, staging := [Check(SHAPE, true), Check(EXISTS, true)], HistoryChecks(git, q), StagingChecks(git, q);
      var last := [SensitiveCheck(git, q)];
      AllOkConcat(first, history);
      AllOkConcat(first + history, staging);
      AllOkConcat(first + history + staging, last);
      StagingOk(git, q);
      OneOk(SensitiveCheck(git, q));
    }
  }

  lemma StagingNameIsNotFixed(name: string)
    ensures STAGING + name !in ["target_on_main", "target_ci_green", "no_autonomous_merge_freeze"]
    ensures STAGING + name != SHAPE && STAGING + name != EXISTS && STAGING + name != "no_sensitive_changes"
  {
    var full := STAGING + name;
    assert full[0] == 's' && STAGING[0] == 's';
  }

  lemma OtherChecksLackIt(git: GitFacts, q: Request, name: string)
    requires q.ci.Some? && !DiffFails(git, q)
    ensures Check(STAGING + name, false) !in [Check(SHAPE, true), Check(EXISTS, true)]
    ensures Check(STAGING + name, false) !in HistoryChecks(git, q)
    ensures Check(STAGING + name, false) !in [SensitiveCheck(git, q)]
  {
    StagingNameIsNotFixed(name);
    hide SHAPE, EXISTS, STAGING, SensitiveOk, HistoryChecks;
    var history := HistoryChecks(git, q);
    forall k | 0 <= k < |history| ensures history[k] != Check(STAGING + name, false) {
      assert history[k].name != STAGING + name;
    }
  }

  lemma StagingHasIt(git: GitFacts, q: Request, i: nat)
    requires i < |SERVICES|
    ensures Check(STAGING + SERVICES[i].0, false) in StagingChecks(git, q)
       <==> !StagingEvidence(git, SERVICES[i].1, q.target, StagedSha(q, SERVICES[i].0))
  {
    ServiceNamesDiffer(i);
    hide SERVICES, StagingEvidence, STAGING;
    var staging := StagingChecks(git, q);
    var check := Check(STAGING + SERVICES[i].0, false);
    assert staging[i] == StagingCheck(git, q, i);
    if check in staging {
      var k :| 0 <= k < |staging| && staging[k] == check;
      assert staging[k] == StagingCheck(git, q, k);
    }
  }

  /** A production service blocks by its name exactly when it lacks staging evidence. */
  lemma StagingBlocksExactly(git: GitFacts, q: Request, i: nat)
    requires !Raises(git, q) && |q.target| >= 7 && git.CommitExists(q.target) && i < |SERVICES|
    ensures STAGING + SERVICES[i].0 in Failed(ExpectedChecks(git, q))
       <==> !StagingEvidence(git, SERVICES[i].1, q.target, StagedSha(q, SERVICES[i].0))
  {
    hide StagingEvidence, SERVICES, STAGING, SHAPE, EXISTS, HistoryChecks, StagingChecks, SensitiveCheck, Failed;
    var check := Check(STAGING + SERVICES[i].0, false);
    FailedExactly(ExpectedChecks(git, q));
    OtherChecksLackIt(git, q, SERVICES[i].0);
    StagingHasIt(git, q, i);
    var first, history, staging := [Check(SHAPE, true), Check(EXISTS, true)], HistoryChecks(git, q), StagingChecks(git, q);
    var last := [SensitiveCheck(git, q)];
    InOneOf(check, first, history, staging, last);
  }

  lemma InOneOf(check: Check, a: seq<Check>, b: seq<Check>, c: seq<Check>, d: seq<Check>)
    ensures check in a + b + c + d <==> check in a || check in b || check in c || check in d
  {
  }

  lemma ServiceNamesDiffer(i: nat)
    requires i < |SERVICES|
    ensures forall k | 0 <= k < |SERVICES| && STAGING + SERVICES[k].0 == STAGING + SERVICES[i].0 :: k == i
  {
    forall k | 0 <= k < |SERVICES| && STAGING + SERVICES[k].0 == STAGING + SERVICES[i].0 ensures k == i {
      assert (STAGING + SERVICES[k].0)[|STAGING|..] == SERVICES[k].0;
      assert (STAGING + SERVICES[i].0)[|STAGING|..] == SERVICES[i].0;
      assert SERVICES[k].0[0] == SERVICES[i].0[0];
    }
  }

  /** `verify_tree_equality`: raises unless both revisions resolve to the same tree. */
  predicate TreesEqual(git: GitFacts, target: string, release: string) {
    git.TreeOf(target).Some? && git.TreeOf(target) == git.TreeOf(release)
  }

  lemma LookupAgrees(git: GitFacts, a: string, b: string, path: Path)
    requires TreesEqual(git, a, b)
    ensures git.SubtreeOf(a, path) == git.SubtreeOf(b, path)
  {
  }

  /** The release carries for this service the very subtree of a commit that staging recorded
      as deployed. It is there unless staging deployed the target itself and the target has
      none: then nobody looked. */
  predicate CarriesStaged(git: GitFacts, q: Request, subtree: Option<Tree>, i: nat)
    requires i < |SERVICES|
  {
    var (name, path) := SERVICES[i];
    && name in q.staged && q.staged[name] in git.commits
    && subtree == git.SubtreeOf(q.staged[name], path)
    && (subtree.Some? <==> q.staged[name] != q.target || git.SubtreeOf(q.target, path).Some?)
  }

  /** A green preflight and equal trees. */
  lemma GreenReleaseWasStaged(git: GitFacts, q: Request, release: string)
    requires Releasable(git, q) && TreesEqual(git, q.target, release)
    ensures forall i | 0 <= i < |SERVICES| :: CarriesStaged(git, q, git.SubtreeOf(release, SERVICES[i].1), i)
  {
    forall i | 0 <= i < |SERVICES| ensures CarriesStaged(git, q, git.SubtreeOf(release, SERVICES[i].1), i) {
      hide SERVICES, SENSITIVE_PATTERNS, TreesEqual;
      var path := SERVICES[i].1;
      LookupAgrees(git, q.target, release, path);
      assert StagingEvidence(git, path, q.target, StagedSha(q, SERVICES[i].0));
    }
  }

  /** An empty commit that staging recorded for every service is releasable. */
  lemma AbsentServicesAreReleasable()
    ensures exists git: GitFacts, q: Request ::
              Releasable(git, q) && forall i | 0 <= i < |SERVICES| :: git.SubtreeOf(q.target, SERVICES[i].1).None?
  {
    var sha := "0123456";
    var git := GitFacts(map[sha := Dir(map[])], {sha}, map[]);
    var q := Request(sha, Some("success"),
                     map["dashboard" := sha, "payment" := sha, "registry" := sha, "worker" := sha], "", false, []);
    assert Lower("success") == "success";
    assert forall i | 0 <= i < |SERVICES| :: StagedSha(q, SERVICES[i].0) == Some(sha);
    assert forall i | 0 <= i < |SERVICES| :: SERVICES[i].1 != [] && Lookup(Dir(map[]), SERVICES[i].1) == None;
    hide SERVICES, SENSITIVE_PATTERNS;
    assert Releasable(git, q);
  }

  /** A service whose subtree changed since staging and was not redeployed blocks the release. */
  lemma UnstagedChangeBlocks(git: GitFacts, q: Request, i: nat)
    requires i < |SERVICES| && SERVICES[i].0 in q.staged && q.staged[SERVICES[i].0] != q.target
    requires git.SubtreeOf(q.target, SERVICES[i].1) != git.SubtreeOf(q.staged[SERVICES[i].0], SERVICES[i].1)
    ensures !Releasable(git, q)
  {
    hide SERVICES, SENSITIVE_PATTERNS;
    assert !StagingEvidence(git, SERVICES[i].1, q.target, StagedSha(q, SERVICES[i].0));
  }

  /** The sensitive gate fails closed exactly against a current release that git can resolve:
      with such a base, a sensitive change without acknowledgement is never green; with none,
      or one git does not know, the gate lets every change pass. */
  lemma SensitiveGateExactly(git: GitFacts, q: Request)
    requires !DiffFails(git, q)
    ensures SensitiveOk(git, q)
       <==> !HasBase(git, q) || q.allowSensitive
            || forall p | p in git.ChangedPaths(q.currentRelease, q.target).value ::
                 forall k | 0 <= k < |SENSITIVE_PATTERNS| :: !MatchesAny(p, SENSITIVE_PATTERNS[k].1)
  {
    hide SENSITIVE_PATTERNS, FnMatch, MatchesAny;
    if HasBase(git, q) {
      var paths := git.ChangedPaths(q.currentRelease, q.target).value;
      forall i | 0 <= i < |paths|
        ensures CategoryOf(paths[i], SENSITIVE_PATTERNS).None?
           <==> forall k | 0 <= k < |SENSITIVE_PATTERNS| :: !MatchesAny(paths[i], SENSITIVE_PATTERNS[k].1)
      {
        CategoryMeansMatch(paths[i], SENSITIVE_PATTERNS);
      }
      if !TouchesSensitive(paths) {
        forall p | p in paths ensures CategoryOf(p, SENSITIVE_PATTERNS).None? {
          var i :| 0 <= i < |paths| && paths[i] == p;
        }
      } else {
        var i :| 0 <= i < |paths| && CategoryOf(paths[i], SENSITIVE_PATTERNS).Some?;
        assert paths[i] in paths;
      }
    }
  }

  lemma {:induction false} CategoryMeansMatch(path: string, table: Table)
    ensures CategoryOf(path, table).None? <==> forall k | 0 <= k < |table| :: !MatchesAny(path, table[k].1)
  {
    hide FnMatch, MatchesAny;
    if table != [] {
      CategoryMeansMatch(path, table[1..]);
      assert forall k | 0 < k < |table| :: table[k] == table[1..][k - 1];
      if MatchesAny(path, table[0].1) {
      } else {
        assert forall k | 0 <= k < |table[1..]| :: table[1..][k] == table[k + 1];
      }
    }
  }

  /** Every path under the payment service and under the release machinery is sensitive. */
  lemma PaymentAndReleasePathsAreSensitive(rest: string)
    ensures CategoryOf("services/payment/" + rest, SENSITIVE_PATTERNS).Some?
    ensures CategoryOf("deploy/production/" + rest, SENSITIVE_PATTERNS).Some?
  {
    hide FnMatch, CategoryOf;
    PrefixPattern("services/payment/" + rest, "services/payment/");
    PrefixPattern("deploy/production/" + rest, "deploy/production/");
    assert SENSITIVE_PATTERNS[3].1[0] == "services/payment/" + "**";
    assert SENSITIVE_PATTERNS[6].1[0] == "deploy/production/" + "**";
    assert MatchesAny("services/payment/" + rest, SENSITIVE_PATTERNS[3].1);
    assert MatchesAny("deploy/production/" + rest, SENSITIVE_PATTERNS[6].1);
    CategoryMeansMatch("services/payment/" + rest, SENSITIVE_PATTERNS);
    CategoryMeansMatch("deploy/production/" + rest, SENSITIVE_PATTERNS);
  }

  // ---- the command ----------------------------------------------------------------------

  datatype Exit = Released | PreflightOnly | Blocked | NoBranch

  /** `main`: a preflight and, with `execute`, the release branch. `made` is the tree the branch
      resolves to after git was asked to make it, `None` where that failed. */
  method ReleaseCommand(git: GitFacts, q: Request, execute: bool, made: Option<Tree>)
    returns (exit: Exit, after: GitFacts, branch: string)
    ensures exit == Blocked <==> Raises(git, q) || !Releasable(git, q)
    ensures exit == PreflightOnly <==> exit != Blocked && !execute
    ensures branch == "release/prod-" + Take(q.target, 12)
    ensures after == if exit in {Released, NoBranch} && made.Some?
                     then git.(commits := git.commits[branch := made.value]) else git
    ensures exit == Released <==>
              exit != Blocked && execute && made.Some? && (branch != q.target ==> made == git.TreeOf(q.target))
    ensures exit == Released && branch != q.target ==>
              branch in after.commits
              && forall i | 0 <= i < |SERVICES| :: CarriesStaged(git, q, after.SubtreeOf(branch, SERVICES[i].1), i)
  {
    hide SENSITIVE_PATTERNS, SERVICES, StagingEvidence, SensitiveOk;
    branch := "release/prod-" + Take(q.target, 12);
    after := git;
    var verdict, raised := Preflight(git, q);
    if raised || !verdict.ok { return Blocked, git, branch; }
    if !execute { return PreflightOnly, git, branch; }
    if made.None? { return NoBranch, git, branch; }
    after := git.(commits := git.commits[branch := made.value]);
    if !TreesEqual(after, q.target, branch) { return NoBranch, after, branch; }
    exit := Released;
    GreenReleaseWasStaged(git, q, q.target);
    forall i | 0 <= i < |SERVICES| && branch != q.target
      ensures CarriesStaged(git, q, after.SubtreeOf(branch, SERVICES[i].1), i)
    {
      assert after.SubtreeOf(branch, SERVICES[i].1) == git.SubtreeOf(q.target, SERVICES[i].1);
    }
  }
}
