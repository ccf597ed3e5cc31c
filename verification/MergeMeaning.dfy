/** The merge rule in counted runs: what stops a merge, and what it takes to get one. */
module MergeMeaning {
  import opened Text
  import opened Dicts
  import opened HarnessVerdict

  /** Task i of the baseline is task j of the candidate; it was delivered in every run and is now
      delivered in none. */
  ghost predicate FellToNothing(b: PerTask, c: PerTask, i: nat, j: nat)
    requires i < |b| && j < |c|
  {
    b[i].0 == c[j].0 && b[i].1.delivered == b[i].1.runs > 0 && c[j].1.delivered == 0
  }

  /** Task i of the baseline is task j of the candidate and lost two runs or more. */
  ghost predicate LostTwoRuns(b: PerTask, c: PerTask, i: nat, j: nat)
    requires i < |b| && j < |c|
  {
    b[i].0 == c[j].0 && c[j].1.delivered + 2 <= b[i].1.delivered
  }

  ghost predicate SomeTaskFell(b: PerTask, c: PerTask, regression: set<string>) {
    exists i: nat, j: nat | i < |b| && j < |c| ::
      FellToNothing(b, c, i, j) || (b[i].0 in regression && LostTwoRuns(b, c, i, j))
  }

  lemma FellHere(b: PerTask, c: PerTask, i: nat)
    requires DistinctKeys(c) && i < |b|
    ensures Fell(b[i], c) <==> exists j: nat | j < |c| :: FellToNothing(b, c, i, j)
  {
    hide Get;
    if Fell(b[i], c) {
      GetFinds(c, b[i].0);
      var j :| 0 <= j < |c| && c[j] == (b[i].0, Get(c, b[i].0).value);
      assert FellToNothing(b, c, i, j);
    }
    if j: nat :| j < |c| && FellToNothing(b, c, i, j) { GetAt(c, j); }
  }

  lemma LostHere(b: PerTask, c: PerTask, i: nat, j: nat)
    requires DistinctKeys(b) && DistinctKeys(c) && i < |b| && j < |c| && b[i].0 == c[j].0
    ensures FellByMoreThanOne(b[i].0, b, c) <==> LostTwoRuns(b, c, i, j)
  {
    hide Get;
    GetAt(b, i);
    GetAt(c, j);
  }

  lemma LostSomewhere(id: string, b: PerTask, c: PerTask) returns (i: nat, j: nat)
    requires DistinctKeys(b) && DistinctKeys(c) && FellByMoreThanOne(id, b, c)
    ensures i < |b| && j < |c| && b[i].0 == id && LostTwoRuns(b, c, i, j)
  {
    hide Get;
    GetFinds(b, id);
    GetFinds(c, id);
    i :| 0 <= i < |b| && b[i] == (id, Get(b, id).value);
    j :| 0 <= j < |c| && c[j] == (id, Get(c, id).value);
  }

  lemma NothingFellMeans(b: PerTask, c: PerTask, regression: set<string>)
    requires DistinctKeys(b) && DistinctKeys(c)
    ensures NothingFell(b, c, regression) <==> !SomeTaskFell(b, c, regression)
  {
    hide Fell, FellByMoreThanOne, FellToNothing, LostTwoRuns;
    if NothingFell(b, c, regression) {
      forall i: nat, j: nat | i < |b| && j < |c|
        ensures !FellToNothing(b, c, i, j) && !(b[i].0 in regression && LostTwoRuns(b, c, i, j))
      {
        FellHere(b, c, i);
        if b[i].0 == c[j].0 { LostHere(b, c, i, j); } else { Elsewhere(b, c, i, j); }
      }
    }
    if !SomeTaskFell(b, c, regression) {
      forall i | 0 <= i < |b| ensures !Fell(b[i], c) { FellHere(b, c, i); }
      forall id | id in regression ensures !FellByMoreThanOne(id, b, c) {
        if FellByMoreThanOne(id, b, c) {
          var i, j := LostSomewhere(id, b, c);
        }
      }
    }
  }

  lemma Elsewhere(b: PerTask, c: PerTask, i: nat, j: nat)
    requires i < |b| && j < |c| && b[i].0 != c[j].0
    ensures !FellToNothing(b, c, i, j) && !LostTwoRuns(b, c, i, j)
  {
  }

  /** A task that falls from all its runs to none stops the merge, whatever else was gained. */
  lemma FallStopsMerge(baseline: Report, candidate: Report, regression: set<string>, i: nat, j: nat)
    requires DistinctKeys(baseline.perTask) && DistinctKeys(candidate.perTask)
    requires i < |baseline.perTask| && j < |candidate.perTask| && baseline.perTask[i].0 == candidate.perTask[j].0
    requires baseline.perTask[i].1.delivered == baseline.perTask[i].1.runs > 0
    requires candidate.perTask[j].1.delivered == 0
    ensures Judge(baseline, candidate, regression) != Mergeable
  {
    hide NothingFell, Saturated, HoldoutKept, Improves, Cheaper;
    NothingFellMeans(baseline.perTask, candidate.perTask, regression);
    assert FellToNothing(baseline.perTask, candidate.perTask, i, j);
  }

  /** So does a regression-set task that loses two runs or more. */
  lemma RegressionFallStopsMerge(baseline: Report, candidate: Report, regression: set<string>, i: nat, j: nat)
    requires DistinctKeys(baseline.perTask) && DistinctKeys(candidate.perTask)
    requires i < |baseline.perTask| && j < |candidate.perTask| && baseline.perTask[i].0 == candidate.perTask[j].0
    requires baseline.perTask[i].0 in regression
    requires candidate.perTask[j].1.delivered + 1 < baseline.perTask[i].1.delivered
    ensures Judge(baseline, candidate, regression) != Mergeable
  {
    hide NothingFell, Saturated, HoldoutKept, Improves, Cheaper;
    NothingFellMeans(baseline.perTask, candidate.perTask, regression);
    assert LostTwoRuns(baseline.perTask, candidate.perTask, i, j);
  }

  /** n merges in a row never take a task from all its runs to none in one step, and
      never a regression-set task down by two. */
  lemma ChainNeverDropsATask(chain: seq<Report>, regression: set<string>, k: nat, i: nat, j: nat)
    requires MergeChain(chain, regression) && 0 < k < |chain|
    requires forall r | r in chain :: DistinctKeys(r.perTask)
    requires i < |chain[k - 1].perTask| && j < |chain[k].perTask|
    requires chain[k - 1].perTask[i].0 == chain[k].perTask[j].0
    requires chain[k - 1].perTask[i].1.delivered == chain[k - 1].perTask[i].1.runs > 0
    ensures chain[k].perTask[j].1.delivered > 0
    ensures chain[k].perTask[j].0 in regression ==>
              chain[k].perTask[j].1.delivered + 1 >= chain[k - 1].perTask[i].1.delivered
  {
    hide Judge;
    assert chain[k - 1] in chain && chain[k] in chain;
    if chain[k].perTask[j].1.delivered == 0 {
      FallStopsMerge(chain[k - 1], chain[k], regression, i, j);
    } else if chain[k].perTask[j].0 in regression
              && chain[k].perTask[j].1.delivered + 1 < chain[k - 1].perTask[i].1.delivered {
      RegressionFallStopsMerge(chain[k - 1], chain[k], regression, i, j);
    }
  }

  ghost predicate Lists(report: Report, id: string, delivered: nat) {
    exists i | 0 <= i < |report.perTask| :: report.perTask[i].0 == id && report.perTask[i].1.delivered == delivered
  }

  /** The deliveries of a task in each report of a chain. */
  ghost predicate Tracks(chain: seq<Report>, id: string, delivered: seq<nat>) {
    |delivered| == |chain| && forall k | 0 <= k < |chain| :: Lists(chain[k], id, delivered[k])
  }

  lemma RegressionStep(before: Report, after: Report, regression: set<string>, id: string, was: nat, now: nat)
    requires DistinctKeys(before.perTask) && DistinctKeys(after.perTask) && id in regression
    requires Lists(before, id, was) && Lists(after, id, now) && Judge(before, after, regression) == Mergeable
    ensures now + 1 >= was
  {
    hide Judge;
    var i :| 0 <= i < |before.perTask| && before.perTask[i].0 == id && before.perTask[i].1.delivered == was;
    var j :| 0 <= j < |after.perTask| && after.perTask[j].0 == id && after.perTask[j].1.delivered == now;
    if now + 1 < was { RegressionFallStopsMerge(before, after, regression, i, j); }
  }

  /** Over a chain of n merges a regression-set task loses at most n runs. */
  lemma {:induction false} RegressionDrift(chain: seq<Report>, regression: set<string>, id: string, delivered: seq<nat>)
    requires chain != [] && MergeChain(chain, regression) && forall r | r in chain :: DistinctKeys(r.perTask)
    requires id in regression && Tracks(chain, id, delivered)
    ensures delivered[|chain| - 1] >= delivered[0] - (|chain| - 1)
  {
    hide Judge, Lists, DistinctKeys;
    var n := |chain| - 1;
    if n > 0 {
      var shorter := chain[..n];
      assert forall k | 0 <= k < n :: shorter[k] == chain[k];
      assert forall r | r in shorter :: r in chain;
      RegressionDrift(shorter, regression, id, delivered[..n]);
      assert chain[n - 1] in chain && chain[n] in chain;
      RegressionStep(chain[n - 1], chain[n], regression, id, delivered[n - 1], delivered[n]);
    }
  }

  // ---- what one task is worth -------------------------------------------------------------------

  /** A task is worth its delivery rate in its own split, and nothing in any other, nor when it is
      set aside or never ran. */
  lemma {:induction false} OneTaskIsWorth(tasks: PerTask, i: nat, split: string, skip: set<string>)
    requires i < |tasks|
    ensures Units(tasks, split, skip) - Units(tasks[..i] + tasks[i + 1..], split, skip)
         == if tasks[i].1.split == split && tasks[i].0 !in skip && tasks[i].1.runs > 0
            then tasks[i].1.delivered as real / tasks[i].1.runs as real
            else 0.0
    ensures Units([], split, skip) == 0.0
  {
    var others := tasks[..i] + tasks[i + 1..];
    if i == 0 {
      assert others == tasks[1..];
    } else {
      OneTaskIsWorth(tasks[1..], i - 1, split, skip);
      assert others[1..] == tasks[1..][..i - 1] + tasks[1..][i..];
    }
  }

  /** Every task of the report ran r times. */
  ghost predicate AllRan(tasks: PerTask, r: nat) {
    forall i | 0 <= i < |tasks| :: tasks[i].1.runs == r
  }

  /** The runs of a split in which its task was delivered, the tasks in `skip` left out. */
  ghost function DeliveredIn(tasks: PerTask, split: string, skip: set<string>): (n: nat)
    ensures (forall i | 0 <= i < |tasks| :: tasks[i].1.split != split || tasks[i].0 in skip) ==> n == 0
  {
    if tasks == [] then 0
    else
      var (id, score) := tasks[|tasks| - 1];
      DeliveredIn(tasks[..|tasks| - 1], split, skip) + if score.split == split && id !in skip then score.delivered else 0
  }

  /** The number of tasks of a split outside `skip`. */
  ghost function TasksIn(tasks: PerTask, split: string, skip: set<string>): (n: nat) {
    |set i | 0 <= i < |tasks| && tasks[i].1.split == split && tasks[i].0 !in skip|
  }

  lemma {:induction false} DeliveredFrontOrBack(tasks: PerTask, split: string, skip: set<string>)
    ensures DeliveredIn(tasks, split, skip) == SplitDelivered(tasks, split, skip)
  {
    if tasks != [] {
      DeliveredFrontOrBack(tasks[..|tasks| - 1], split, skip);
      SplitOneMore(tasks[..|tasks| - 1], tasks[|tasks| - 1], split, skip);
      assert tasks[..|tasks| - 1] + [tasks[|tasks| - 1]] == tasks;
    }
  }

  lemma {:induction false} SplitOneMore(tasks: PerTask, entry: (string, TaskScore), split: string, skip: set<string>)
    ensures SplitDelivered(tasks + [entry], split, skip)
         == SplitDelivered(tasks, split, skip) + if Counts(entry, split, skip) then entry.1.delivered else 0
    ensures SplitRuns(tasks + [entry], split, skip)
         == SplitRuns(tasks, split, skip) + if Counts(entry, split, skip) then entry.1.runs else 0
  {
    if tasks == [] {
      assert tasks + [entry] == [entry] && [entry][1..] == [];
    } else {
      SplitOneMore(tasks[1..], entry, split, skip);
      assert (tasks + [entry])[1..] == tasks[1..] + [entry];
    }
  }

  lemma {:induction false} RunsAreTasks(tasks: PerTask, split: string, skip: set<string>, r: nat)
    requires AllRan(tasks, r)
    ensures SplitRuns(tasks, split, skip) == TasksIn(tasks, split, skip) * r
  {
    if tasks != [] {
      var n := |tasks| - 1;
      RunsAreTasks(tasks[..n], split, skip, r);
      SplitOneMore(tasks[..n], tasks[n], split, skip);
      assert tasks[..n] + [tasks[n]] == tasks;
      TasksOneMore(tasks, split, skip);
    }
  }

  lemma TasksOneMore(tasks: PerTask, split: string, skip: set<string>)
    requires tasks != []
    ensures var n := |tasks| - 1;
            TasksIn(tasks, split, skip) == TasksIn(tasks[..n], split, skip) + if Counts(tasks[n], split, skip) then 1 else 0
  {
    var n := |tasks| - 1;
    var all := set i | 0 <= i < |tasks| && tasks[i].1.split == split && tasks[i].0 !in skip;
    var before := set i | 0 <= i < |tasks[..n]| && tasks[..n][i].1.split == split && tasks[..n][i].0 !in skip;
    forall i ensures i in before <==> i in all && i != n {
      if 0 <= i < n { assert tasks[..n][i] == tasks[i]; }
    }
    if Counts(tasks[n], split, skip) {
      assert all == before + {n};
    } else {
      assert all == before;
    }
  }

  /** With r runs of every task, units are deliveries by r. */
  lemma {:induction false} UnitsAreDeliveries(tasks: PerTask, split: string, skip: set<string>, r: nat)
    requires AllRan(tasks, r) && r > 0
    ensures Units(tasks, split, skip) == SplitDelivered(tasks, split, skip) as real / r as real
  {
    if tasks != [] {
      UnitsAreDeliveries(tasks[1..], split, skip, r);
      AddQuotients((if Counts(tasks[0], split, skip) then tasks[0].1.delivered else 0) as real,
                   SplitDelivered(tasks[1..], split, skip) as real, r as real);
    } 
  }

  lemma AddQuotients(a: real, b: real, n: real)
    requires n > 0.0
    ensures a / n + b / n == (a + b) / n
  {
  }

  lemma GainInRuns(a: nat, b: nat, r: nat, tasks: int)
    requires r > 0
    ensures b as real / r as real - a as real / r as real >= tasks as real <==> b - a >= tasks * r
  {
    var x, y, n := a as real / r as real, b as real / r as real, r as real;
    assert x * n == a as real && y * n == b as real;
    assert (y - x) * n == (b - a) as real;
    assert (tasks * r) as real == tasks as real * n;
    if y - x >= tasks as real { assert (y - x) * n >= tasks as real * n; }
    else { assert (y - x) * n < tasks as real * n; }
  }

  lemma CheaperInRuns(baseline: Report, candidate: Report)
    ensures Cheaper(baseline, candidate)
       <==> && baseline.delivered > 0 && candidate.delivered > 0
            && 100.0 * candidate.cost * baseline.delivered as real <= 85.0 * baseline.cost * candidate.delivered as real
  {
    if baseline.delivered > 0 && candidate.delivered > 0 {
      CrossMultiply(baseline.cost, baseline.delivered as real, candidate.cost, candidate.delivered as real);
    }
  }

  lemma CrossMultiply(was: real, m: real, now: real, n: real)
    requires m > 0.0 && n > 0.0
    ensures now / n <= 0.85 * (was / m) <==> 100.0 * now * m <= 85.0 * was * n
  {
    var x, y := now / n, was / m;
    assert x * n == now && y * m == was;
    var mn := m * n;
    assert mn > 0.0;
    assert 100.0 * now * m == 100.0 * x * mn;
    assert 85.0 * was * n == 85.0 * y * mn;
    if x <= 0.85 * y { assert x * mn <= 0.85 * y * mn; } else { assert x * mn > 0.85 * y * mn; }
  }

  /** The whole rule without a quotient, for reports in which every task ran r times: more than
      1799 deliveries per 2000 holdout runs saturate; otherwise a change merges exactly when it
      loses at most r holdout runs, gains 2 * r runs in a split or costs at most 85 % per
      delivery, and no task fell. */
  lemma MergeableInRuns(baseline: Report, candidate: Report, regression: set<string>, r: nat)
    requires 0 < r && AllRan(baseline.perTask, r) && AllRan(candidate.perTask, r)
    requires DistinctKeys(baseline.perTask) && DistinctKeys(candidate.perTask)
    requires TasksIn(baseline.perTask, "holdout", regression) * r <= 9_000_000_000_000
    ensures var b, c := baseline.perTask, candidate.perTask;
            var runs := TasksIn(b, "holdout", regression) * r;
            var holdWas, holdNow := DeliveredIn(b, "holdout", regression), DeliveredIn(c, "holdout", regression);
            var devWas, devNow := DeliveredIn(b, "dev", regression), DeliveredIn(c, "dev", regression);
            && (Judge(baseline, candidate, regression) == BenchSaturated <==> runs == 0 || 2000 * holdWas > 1799 * runs)
            && (Judge(baseline, candidate, regression) == Mergeable <==>
                && runs > 0 && 2000 * holdWas <= 1799 * runs
                && holdNow >= holdWas - r
                && (|| devNow >= devWas + 2 * r
                    || holdNow >= holdWas + 2 * r
                    || (&& baseline.delivered > 0 && candidate.delivered > 0
                        && 100.0 * candidate.cost * baseline.delivered as real
                           <= 85.0 * baseline.cost * candidate.delivered as real))
                && !SomeTaskFell(b, c, regression))
  {
    hide Units, SplitRuns, SplitDelivered, DeliveredIn, TasksIn, Saturated, NothingFell, SomeTaskFell, Cheaper, DistinctKeys;
    var b, c := baseline.perTask, candidate.perTask;
    RunsAreTasks(b, "holdout", regression, r);
    SaturationInPractice(b, regression);
    CheaperInRuns(baseline, candidate);
    NothingFellMeans(b, c, regression);
    SplitInRuns(b, c, "holdout", regression, r);
    SplitInRuns(b, c, "dev", regression, r);
    DeliveredFrontOrBack(b, "holdout", regression);
  }

  lemma SplitInRuns(b: PerTask, c: PerTask, split: string, skip: set<string>, r: nat)
    requires r > 0 && AllRan(b, r) && AllRan(c, r)
    ensures var was, now := DeliveredIn(b, split, skip), DeliveredIn(c, split, skip);
            && (Units(c, split, skip) - Units(b, split, skip) >= 2.0 <==> now >= was + 2 * r)
            && (Units(c, split, skip) >= Units(b, split, skip) - 1.0 <==> now >= was - r)
  {
    hide *;
    UnitsAreDeliveries(b, split, skip, r);
    UnitsAreDeliveries(c, split, skip, r);
    DeliveredFrontOrBack(b, split, skip);
    DeliveredFrontOrBack(c, split, skip);
    GainInRuns(SplitDelivered(b, split, skip), SplitDelivered(c, split, skip), r, 2);
    GainInRuns(SplitDelivered(b, split, skip), SplitDelivered(c, split, skip), r, -1);
  }

  // ---- which tasks are set aside ------------------------------------------------------------------

  /** A stored report made with at least three samples per task. */
  ghost predicate ThreeSamples(stored: Stored) {
    stored.samples.Some? && stored.samples.value >= 3
  }

  /** i and j are the first two places of the list, latest first, with such a report. */
  ghost predicate TwoLatest(reports: seq<Stored>, i: nat, j: nat) {
    && i < j < |reports| && ThreeSamples(reports[i]) && ThreeSamples(reports[j])
    && forall k | 0 <= k < j && k != i :: !ThreeSamples(reports[k])
  }

  ghost predicate DeliveredAlways(report: Report, id: string) {
    exists i | 0 <= i < |report.perTask| ::
      report.perTask[i].0 == id && 3 <= report.perTask[i].1.runs == report.perTask[i].1.delivered
  }

  lemma SamplesMean(stored: Stored)
    ensures SamplesOf(stored) >= MIN_SAMPLES <==> ThreeSamples(stored)
  {
  }

  lemma FullMeans(report: Report, id: string)
    ensures id in FullTasks(report) <==> DeliveredAlways(report, id)
  {
    if DeliveredAlways(report, id) {
      var i :| 0 <= i < |report.perTask| && report.perTask[i].0 == id
               && 3 <= report.perTask[i].1.runs == report.perTask[i].1.delivered;
      assert Full(report.perTask[i].1);
    }
  }

  lemma {:induction false} UnsampledDropped(reports: seq<Stored>, i: nat)
    requires i <= |reports| && forall k | 0 <= k < i :: !ThreeSamples(reports[k])
    ensures Sampled(reports) == Sampled(reports[i..])
  {
    if i > 0 {
      SamplesMean(reports[0]);
      UnsampledDropped(reports[1..], i - 1);
      assert reports[1..][i - 1..] == reports[i..];
    } else {
      assert reports[0..] == reports;
    }
  }

  lemma FirstIsSampled(reports: seq<Stored>, i: nat)
    requires i < |reports| && ThreeSamples(reports[i]) && forall k | 0 <= k < i :: !ThreeSamples(reports[k])
    ensures Sampled(reports) == [reports[i].report] + Sampled(reports[i + 1..])
  {
    UnsampledDropped(reports, i);
    SamplesMean(reports[i]);
    assert reports[i..][0] == reports[i] && reports[i..][1..] == reports[i + 1..];
  }

  lemma {:induction false} SampledSomewhere(reports: seq<Stored>) returns (i: nat)
    requires Sampled(reports) != []
    ensures i < |reports| && ThreeSamples(reports[i]) && forall k | 0 <= k < i :: !ThreeSamples(reports[k])
  {
    SamplesMean(reports[0]);
    if ThreeSamples(reports[0]) {
      i := 0;
    } else {
      var later := SampledSomewhere(reports[1..]);
      i := later + 1;
      assert forall k | 0 < k < i :: reports[k] == reports[1..][k - 1];
    }
  }

  lemma LatestTwo(reports: seq<Stored>, i: nat, j: nat)
    requires TwoLatest(reports, i, j)
    ensures |Sampled(reports)| >= 2
    ensures Sampled(reports)[0] == reports[i].report && Sampled(reports)[1] == reports[j].report
  {
    hide Sampled, ThreeSamples;
    FirstIsSampled(reports, i);
    var later := reports[i + 1..];
    assert forall k | 0 <= k < j - i - 1 :: later[k] == reports[i + 1 + k];
    FirstIsSampled(later, j - i - 1);
  }

  lemma FindLatestTwo(reports: seq<Stored>) returns (i: nat, j: nat)
    requires |Sampled(reports)| >= 2
    ensures TwoLatest(reports, i, j)
  {
    hide Sampled, ThreeSamples;
    i := SampledSomewhere(reports);
    FirstIsSampled(reports, i);
    var later := reports[i + 1..];
    var next := SampledSomewhere(later);
    j := i + 1 + next;
    assert forall k | i < k <= j :: reports[k] == later[k - i - 1];
  }

  /** A task is set aside exactly when the two latest reports with three samples or more both
      delivered it in all of at least three runs. */
  lemma SetAsideExactly(reports: seq<Stored>, id: string)
    ensures id in Partition(reports)
       <==> exists i: nat, j: nat | TwoLatest(reports, i, j) ::
              DeliveredAlways(reports[i].report, id) && DeliveredAlways(reports[j].report, id)
  {
    hide ThreeSamples, DeliveredAlways, Sampled, FullTasks;
    var best := Sampled(reports);
    if |best| >= 2 {
      FullMeans(best[0], id);
      FullMeans(best[1], id);
    }
    if id in Partition(reports) {
      var i, j := FindLatestTwo(reports);
      LatestTwo(reports, i, j);
    }
    forall i: nat, j: nat | TwoLatest(reports, i, j)
      ensures DeliveredAlways(reports[i].report, id) && DeliveredAlways(reports[j].report, id) ==> id in Partition(reports)
    {
      LatestTwo(reports, i, j);
    }
  }
}
