/** What the release gate's parts mean one by one: the wildcard patterns, the listing of sensitive
    paths, and the check that blocks by each name. */
module ReleaseMeaning {
  import opened Text
  import opened Dicts
  import opened ReleaseGate

  // ---- wildcards ------------------------------------------------------------------------------

  lemma {:induction false} MatchJoins(a: string, b: string, p: string, q: string)
    requires FnMatch(a, p) && FnMatch(b, q)
    ensures FnMatch(a + b, p + q)
    decreases |p| + |a|
  {
    if p == "" {
      assert a + b == b && p + q == q;
    } else {
      assert (p + q)[1..] == p[1..] + q;
      if p[0] == '*' && FnMatch(a, p[1..]) {
        MatchJoins(a, b, p[1..], q);
      } else {
        assert (a + b)[1..] == a[1..] + b;
        MatchJoins(a[1..], b, if p[0] == '*' then p else p[1..], q);
      }
    }
  }

  lemma {:induction false} MatchParts(name: string, p: string, q: string) returns (i: nat)
    requires FnMatch(name, p + q)
    ensures i <= |name| && FnMatch(name[..i], p) && FnMatch(name[i..], q)
    decreases |p| + |name|
  {
    if p == "" {
      i := 0;
      assert p + q == q && name[0..] == name;
    } else {
      assert (p + q)[1..] == p[1..] + q;
      if p[0] == '*' && FnMatch(name, p[1..] + q) {
        i := MatchParts(name, p[1..], q);
      } else {
        var j := MatchParts(name[1..], if p[0] == '*' then p else p[1..], q);
        i := j + 1;
        assert name[..i][1..] == name[1..][..j] && name[i..] == name[1..][j..];
      }
    }
  }

  /** A pattern of two parts matches what splits into a match of each: with the meaning of a star
      and of a star-free text, that is what every pattern means. */
  lemma MatchSplitsExactly(name: string, p: string, q: string)
    ensures FnMatch(name, p + q) <==> exists i | 0 <= i <= |name| :: FnMatch(name[..i], p) && FnMatch(name[i..], q)
  {
    if FnMatch(name, p + q) {
      var i := MatchParts(name, p, q);
    }
    if i :| 0 <= i <= |name| && FnMatch(name[..i], p) && FnMatch(name[i..], q) {
      MatchJoins(name[..i], name[i..], p, q);
      assert name[..i] + name[i..] == name;
    }
  }

  lemma StarMatchesAll(name: string)
    ensures FnMatch(name, "*") && FnMatch(name, "**")
  {
    StarsMatchAll(name);
  }

  /** `before*after` between star-free texts: begins with the one and, behind it, ends with the other. */
  lemma OneStarExactly(name: string, before: string, after: string)
    requires StarFree(before) && StarFree(after)
    ensures FnMatch(name, before + ("*" + after))
       <==> |before| + |after| <= |name| && before <= name && EndsWith(name, after)
  {
    hide FnMatch;
    if FnMatch(name, before + ("*" + after)) {
      var i := MatchParts(name, before, "*" + after);
      LiteralMatch(name[..i], before);
      OneStarSuffix(name[i..], after);
      assert name[i..][|name[i..]| - |after|..] == name[|name| - |after|..];
    }
    if |before| + |after| <= |name| && before <= name && EndsWith(name, after) {
      var rest := name[|before|..];
      LiteralMatch(before, before);
      OneStarSuffix(rest, after);
      assert rest[|rest| - |after|..] == name[|name| - |after|..];
      MatchJoins(before, rest, before, "*" + after);
      assert before + rest == name;
    }
  }

  // ---- the listing --------------------------------------------------------------------------------

  /** Row k of the table is the first one with a pattern that matches the path. */
  ghost predicate FirstMatch(path: string, table: Table, k: nat) {
    && k < |table| && MatchesAny(path, table[k].1)
    && forall j | 0 <= j < k :: !MatchesAny(path, table[j].1)
  }

  ghost predicate FirstRowIs(path: string, table: Table, c: string) {
    exists k: nat | FirstMatch(path, table, k) :: table[k].0 == c
  }

  /** The category of a path is that of the first row that matches it. */
  lemma CategoryExactly(path: string, table: Table, c: string)
    ensures CategoryOf(path, table) == Some(c) <==> FirstRowIs(path, table, c)
  {
    hide CategoryOf, MatchesAny;
    if CategoryOf(path, table).Some? {
      var k := CategoryHasRow(path, table);
    }
    if k: nat :| FirstMatch(path, table, k) && table[k].0 == c {
      CategoryIsFirst(path, table, k);
    }
  }

  lemma {:induction false} CategoryIsFirst(path: string, table: Table, k: nat)
    requires FirstMatch(path, table, k)
    ensures CategoryOf(path, table) == Some(table[k].0)
  {
    hide MatchesAny;
    if k > 0 {
      assert !MatchesAny(path, table[0].1);
      assert forall j | 0 <= j < k :: table[1..][j] == table[j + 1];
      CategoryIsFirst(path, table[1..], k - 1);
    }
  }

  lemma {:induction false} CategoryHasRow(path: string, table: Table) returns (k: nat)
    requires CategoryOf(path, table).Some?
    ensures FirstMatch(path, table, k) && CategoryOf(path, table) == Some(table[k].0)
  {
    hide MatchesAny;
    if MatchesAny(path, table[0].1) {
      k := 0;
    } else {
      var j := CategoryHasRow(path, table[1..]);
      k := j + 1;
      assert forall i | 0 < i < k :: table[i] == table[1..][i - 1];
    }
  }

  /** The paths listed under a category, by their places among the changed paths. */
  ghost predicate ListedAt(paths: seq<string>, listed: seq<string>, places: seq<nat>, table: Table, c: string) {
    && |places| == |listed|
    && (forall k | 0 <= k < |places| :: places[k] < |paths| && listed[k] == paths[places[k]])
    && (forall k, l | 0 <= k < l < |places| :: places[k] < places[l])
    && (forall i: nat | i < |paths| :: i in places <==> CategoryOf(paths[i], table) == Some(c))
  }

  lemma PlaceOneMore(paths: seq<string>, path: string, listed: seq<string>, places: seq<nat>, table: Table, c: string)
    requires ListedAt(paths, listed, places, table, c)
    ensures CategoryOf(path, table) == Some(c) ==>
              ListedAt(paths + [path], listed + [path], places + [|paths|], table, c)
    ensures CategoryOf(path, table) != Some(c) ==> ListedAt(paths + [path], listed, places, table, c)
  {
    hide CategoryOf;
    var more := paths + [path];
    assert forall i | 0 <= i < |paths| :: more[i] == paths[i];
    assert |paths| !in places;
    if CategoryOf(path, table) == Some(c) {
      forall i: nat | i < |more| ensures i in places + [|paths|] <==> CategoryOf(more[i], table) == Some(c) {
      }
    }
  }

  lemma {:induction false} ListedInOrder(paths: seq<string>, table: Table, c: string) returns (places: seq<nat>)
    ensures ListedAt(paths, PathsOf(paths, table, c), places, table, c)
  {
    hide CategoryOf, ListedAt;
    if paths == [] {
      places := [];
      NothingListed(table, c);
    } else {
      var n := |paths| - 1;
      places := ListedInOrder(paths[..n], table, c);
      PlaceOneMore(paths[..n], paths[n], PathsOf(paths[..n], table, c), places, table, c);
      assert paths[..n] + [paths[n]] == paths;
      if CategoryOf(paths[n], table) == Some(c) {
        places := places + [n];
      } else {
        assert PathsOf(paths[..n], table, c) + [] == PathsOf(paths[..n], table, c);
      }
    }
  }

  lemma NothingListed(table: Table, c: string)
    ensures ListedAt([], [], [], table, c)
  {
  }

  /** What the listing holds: under each category, in their order, exactly the changed paths whose
      first matching row of the table is of that category. */
  lemma ListingExactly(hits: Dict<string, seq<string>>, paths: seq<string>, table: Table, c: string) returns (places: seq<nat>)
    requires Classified(hits, paths, table)
    ensures Get(hits, c) == None <==> places == []
    ensures |places| == |GetOr(hits, c, [])|
    ensures forall k | 0 <= k < |places| :: places[k] < |paths| && GetOr(hits, c, [])[k] == paths[places[k]]
    ensures forall k, l | 0 <= k < l < |places| :: places[k] < places[l]
    ensures forall i: nat | i < |paths| ::
              i in places <==> FirstRowIs(paths[i], table, c)
  {
    hide CategoryOf, FirstRowIs;
    places := ListedInOrder(paths, table, c);
    assert Get(hits, c) == (if PathsOf(paths, table, c) == [] then None else Some(PathsOf(paths, table, c)));
    forall i: nat | i < |paths| ensures CategoryOf(paths[i], table) == Some(c) <==> FirstRowIs(paths[i], table, c) {
      CategoryExactly(paths[i], table, c);
    }
  }

  // ---- sensitive files ------------------------------------------------------------------------------

  lemma PatternIsSensitive(path: string, k: nat, j: nat)
    requires k < |SENSITIVE_PATTERNS| && j < |SENSITIVE_PATTERNS[k].1| && FnMatch(path, SENSITIVE_PATTERNS[k].1[j])
    ensures CategoryOf(path, SENSITIVE_PATTERNS).Some?
  {
    hide FnMatch, CategoryOf, SENSITIVE_PATTERNS;
    CategoryMeansMatch(path, SENSITIVE_PATTERNS);
    assert MatchesAny(path, SENSITIVE_PATTERNS[k].1);
  }

  /** What a pattern of the table is for: `**end` stands for every file whose path ends so,
      `directory**` for every file under it, and an unacknowledged release that changes one of them
      against the current release is not green. */
  lemma SensitiveFileBlocks(git: GitFacts, q: Request, path: string, k: nat, j: nat, literal: string)
    requires !DiffFails(git, q) && HasBase(git, q) && path in git.ChangedPaths(q.currentRelease, q.target).value
    requires k < |SENSITIVE_PATTERNS| && j < |SENSITIVE_PATTERNS[k].1| && StarFree(literal)
    requires || (SENSITIVE_PATTERNS[k].1[j] == "**" + literal && EndsWith(path, literal))
             || (SENSITIVE_PATTERNS[k].1[j] == literal + "**" && literal <= path)
    ensures Releasable(git, q) ==> q.allowSensitive
  {
    hide SENSITIVE_PATTERNS, CategoryOf, FnMatch;
    SuffixPattern(path, literal);
    PrefixPattern(path, literal);
    PatternIsSensitive(path, k, j);
    var paths := git.ChangedPaths(q.currentRelease, q.target).value;
    var n :| 0 <= n < |paths| && paths[n] == path;
  }

  // ---- what blocks by which name ----------------------------------------------------------------

  lemma {:induction false} LowerSpells(text: string, word: string)
    requires forall i | 0 <= i < |word| :: 'a' <= word[i] <= 'z'
    ensures Lower(text) == word
       <==> |text| == |word| && forall i | 0 <= i < |word| :: text[i] == word[i] || text[i] as int + 32 == word[i] as int
  {
    if |text| == |word| && forall i | 0 <= i < |word| :: text[i] == word[i] || text[i] as int + 32 == word[i] as int {
      assert forall i | 0 <= i < |word| :: Lower(text)[i] == word[i];
    } else if |text| == |word| {
      var i :| 0 <= i < |word| && text[i] != word[i] && text[i] as int + 32 != word[i] as int;
      assert Lower(text)[i] != word[i];
    }
  }

  /** The words of a green CI, in any letter case. */
  ghost predicate SaysSuccess(ci: string) {
    |ci| == 7 && forall i | 0 <= i < 7 :: ci[i] == "success"[i] || ci[i] as int + 32 == "success"[i] as int
  }

  lemma NamesOfOthers(git: GitFacts, q: Request, i: nat)
    requires i < |StagingChecks(git, q)|
    ensures StagingChecks(git, q)[i].name
              !in ["target_on_main", "target_ci_green", "no_autonomous_merge_freeze", "no_sensitive_changes"]
  {
    assert StagingChecks(git, q)[i] == StagingCheck(git, q, i);
    hide SERVICES, STAGING;
    StagingNameIsNotFixed(SERVICES[i].0);
  }

  lemma NotInStaging(git: GitFacts, q: Request, name: string)
    requires name in ["target_on_main", "target_ci_green", "no_autonomous_merge_freeze", "no_sensitive_changes"]
    ensures Check(name, false) !in StagingChecks(git, q)
  {
    hide StagingChecks, StagingCheck;
    var staging := StagingChecks(git, q);
    forall i | 0 <= i < |staging| ensures staging[i] != Check(name, false) {
      NamesOfOthers(git, q, i);
    }
  }

  lemma HistoryHas(git: GitFacts, q: Request)
    requires q.ci.Some?
    ensures var history := HistoryChecks(git, q);
            && (Check("target_on_main", false) in history <==> !git.ReachableFromMain(q.target))
            && (Check("target_ci_green", false) in history <==> Lower(q.ci.value) != "success")
            && (Check("no_autonomous_merge_freeze", false) in history <==> q.freezeReasons != [])
            && Check("no_sensitive_changes", false) !in history
  {
    hide Lower;
    var history := HistoryChecks(git, q);
    assert history == [Check("target_on_main", git.ReachableFromMain(q.target)),
                       Check("target_ci_green", Lower(q.ci.value) == "success"),
                       Check("no_autonomous_merge_freeze", q.freezeReasons == [])];
    assert |"target_on_main"| == 14 && |"target_ci_green"| == 15;
    assert |"no_autonomous_merge_freeze"| == 26 && |"no_sensitive_changes"| == 20;
  }

  /** Some changed path matches a sensitive pattern. */
  ghost predicate ChangesSensitive(git: GitFacts, q: Request) {
    && q.currentRelease != "" && q.currentRelease in git.commits && (q.currentRelease, q.target) in git.diffs
    && exists i: nat, k: nat | i < |git.diffs[(q.currentRelease, q.target)]| ::
         FirstMatch(git.diffs[(q.currentRelease, q.target)][i], SENSITIVE_PATTERNS, k)
  }

  lemma SensitiveMeans(git: GitFacts, q: Request)
    requires !DiffFails(git, q)
    ensures SensitiveOk(git, q) <==> q.allowSensitive || !ChangesSensitive(git, q)
  {
    hide SENSITIVE_PATTERNS, FirstMatch, CategoryOf;
    if HasBase(git, q) {
      var paths := git.ChangedPaths(q.currentRelease, q.target).value;
      if i :| 0 <= i < |paths| && CategoryOf(paths[i], SENSITIVE_PATTERNS).Some? {
        var k := CategoryHasRow(paths[i], SENSITIVE_PATTERNS);
      }
      if i: nat, k: nat :| i < |paths| && FirstMatch(paths[i], SENSITIVE_PATTERNS, k) {
        CategoryIsFirst(paths[i], SENSITIVE_PATTERNS, k);
      }
    }
  }

  lemma BlocksBy(git: GitFacts, q: Request, name: string)
    requires !Raises(git, q) && |q.target| >= 7 && git.CommitExists(q.target)
    requires name in ["target_on_main", "target_ci_green", "no_autonomous_merge_freeze", "no_sensitive_changes"]
    ensures name in Failed(ExpectedChecks(git, q))
       <==> Check(name, false) in HistoryChecks(git, q) || Check(name, false) == SensitiveCheck(git, q)
  {
    hide SHAPE, EXISTS, HistoryChecks, StagingChecks, SensitiveCheck, Failed;
    FailedExactly(ExpectedChecks(git, q));
    NotInStaging(git, q, name);
    var last := [SensitiveCheck(git, q)];
    var first := [Check(SHAPE, true), Check(EXISTS, true)];
    InOneOf(Check(name, false), first, HistoryChecks(git, q), StagingChecks(git, q), last);
    assert first[0].ok && first[1].ok;
  }

  /** Each gate outside staging blocks by its own name exactly when what it asks for is not so. */
  lemma GatesBlockExactly(git: GitFacts, q: Request)
    requires !Raises(git, q) && |q.target| >= 7 && q.target in git.commits
    ensures var blocking := Failed(ExpectedChecks(git, q));
            && ("target_on_main" in blocking <==> q.target !in git.onMain)
            && ("target_ci_green" in blocking <==> !SaysSuccess(q.ci.value))
            && ("no_autonomous_merge_freeze" in blocking <==> q.freezeReasons != [])
            && ("no_sensitive_changes" in blocking <==> ChangesSensitive(git, q) && !q.allowSensitive)
  {
    hide HistoryChecks, Failed, Lower, ChangesSensitive, ExpectedChecks, SensitiveOk, DiffFails;
    BlocksBy(git, q, "target_on_main");
    BlocksBy(git, q, "target_ci_green");
    BlocksBy(git, q, "no_autonomous_merge_freeze");
    BlocksBy(git, q, "no_sensitive_changes");
    LowerSpells(q.ci.value, "success");
    HistoryHas(git, q);
    SensitiveMeans(git, q);
    assert |"target_on_main"| == 14 && |"target_ci_green"| == 15;
    assert |"no_autonomous_merge_freeze"| == 26 && |"no_sensitive_changes"| == 20;
  }

  /** Staging vouches for a service exactly when it runs the target itself, or a commit in which the
      service's directory is there and is the same as in the target. */
  lemma ServicePassesExactly(git: GitFacts, q: Request, i: nat)
    requires !Raises(git, q) && |q.target| >= 7 && q.target in git.commits && i < |SERVICES|
    ensures var (name, path) := SERVICES[i];
            STAGING + name !in Failed(ExpectedChecks(git, q)) <==>
              && name in q.staged
              && (|| q.staged[name] == q.target
                  || (&& q.staged[name] in git.commits
                      && exists tree :: Lookup(git.commits[q.target], path) == Some(tree)
                                     && Lookup(git.commits[q.staged[name]], path) == Some(tree)))
  {
    hide SERVICES, STAGING, Failed, ExpectedChecks, Lookup;
    StagingBlocksExactly(git, q, i);
    var (name, path) := SERVICES[i];
    if name in q.staged && q.staged[name] in git.commits {
      var a, b := Lookup(git.commits[q.target], path), Lookup(git.commits[q.staged[name]], path);
      assert a.Some? && b.Some? && a == b ==> a == Some(a.value) && b == Some(a.value);
    }
  }
}
