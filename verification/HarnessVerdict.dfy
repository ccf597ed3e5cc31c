/** The merge rule for a change of the builder's harness: two bench reports, one verdict.
    Rates and costs are real numbers. */
module HarnessVerdict {
  import opened Text
  import opened Dicts

  datatype TaskScore = TaskScore(split: string, delivered: nat, runs: nat)
  type PerTask = Dict<string, TaskScore>
  datatype Report = Report(perTask: PerTask, delivered: nat, cost: real)
  datatype Verdict = BenchSaturated | Mergeable | NotMergeable

  // ---- the rule ---------------------------------------------------------------------------

  predicate Counts(entry: (string, TaskScore), split: string, skip: set<string>) {
    entry.1.split == split && entry.0 !in skip
  }

  function Unit(entry: (string, TaskScore), split: string, skip: set<string>): (r: real) {
    if Counts(entry, split, skip) && entry.1.runs > 0
    then entry.1.delivered as real / entry.1.runs as real
    else 0.0
  }

  /** Delivered tasks of a split: a task delivered in two runs of three counts 2/3. */
  function Units(tasks: PerTask, split: string, skip: set<string>): (r: real) {
    if tasks == [] then 0.0 else Unit(tasks[0], split, skip) + Units(tasks[1..], split, skip)
  }

  function SplitRuns(tasks: PerTask, split: string, skip: set<string>): (r: nat) {
    if tasks == [] then 0
    else (if Counts(tasks[0], split, skip) then tasks[0].1.runs else 0) + SplitRuns(tasks[1..], split, skip)
  }

  function SplitDelivered(tasks: PerTask, split: string, skip: set<string>): (r: nat) {
    if tasks == [] then 0
    else (if Counts(tasks[0], split, skip) then tasks[0].1.delivered else 0) + SplitDelivered(tasks[1..], split, skip)
  }

  function CostPerDelivered(report: Report): (r: Option<real>) {
    if report.delivered > 0 then Some(report.cost / report.delivered as real) else None
  }

  /** Delivered in every run before, in none now. */
  predicate Fell(entry: (string, TaskScore), candidate: PerTask) {
    && entry.1.delivered == entry.1.runs > 0
    && var now := Get(candidate, entry.0);
    && now.Some? && now.value.delivered == 0
  }

  predicate FellByMoreThanOne(id: string, baseline: PerTask, candidate: PerTask) {
    var was, now := Get(baseline, id), Get(candidate, id);
    was.Some? && now.Some? && now.value.delivered < was.value.delivered - 1
  }

  function RoundHalfEven(x: real): (r: int) {
    var down := x.Floor;
    var rest := x - down as real;
    if rest < 0.5 || (rest == 0.5 && down % 2 == 0) then down else down + 1
  }

  /** To three places. */
  function Round3(x: real): (r: real) {
    RoundHalfEven(x * 1000.0) as real / 1000.0
  }

  /** A quotient as a float: the nearest multiple of 2^-53, which is what a double holds between
      1/2 and 1. Outside that range its grid is another one, but no rounding there reaches 0.9
      from below 1/2 or falls below 0.9 from above 1. */
  function Float(x: real): (r: real) {
    RoundHalfEven(x * 9007199254740992.0) as real / 9007199254740992.0
  }

  /** The active holdout pass@1 of the baseline, if any active holdout task ran. */
  function HoldRate(baseline: PerTask, skip: set<string>): (r: Option<real>) {
    var runs := SplitRuns(baseline, "holdout", skip);
    if runs == 0 then None
    else Some(Round3(Float(SplitDelivered(baseline, "holdout", skip) as real / runs as real)))
  }

  predicate Saturated(baseline: PerTask, skip: set<string>) {
    var rate := HoldRate(baseline, skip);
    rate.None? || rate.value >= 0.9
  }

  predicate Improves(baseline: PerTask, candidate: PerTask, skip: set<string>) {
    || Units(candidate, "dev", skip) - Units(baseline, "dev", skip) >= 2.0
    || Units(candidate, "holdout", skip) - Units(baseline, "holdout", skip) >= 2.0
  }

  predicate Cheaper(baseline: Report, candidate: Report) {
    var was, now := CostPerDelivered(baseline), CostPerDelivered(candidate);
    was.Some? && now.Some? && now.value <= 0.85 * was.value
  }

  predicate HoldoutKept(baseline: PerTask, candidate: PerTask, skip: set<string>) {
    Units(candidate, "holdout", skip) >= Units(baseline, "holdout", skip) - 1.0
  }

  predicate NothingFell(baseline: PerTask, candidate: PerTask, skip: set<string>) {
    && (forall i | 0 <= i < |baseline| :: !Fell(baseline[i], candidate))
    && (forall id | id in skip :: !FellByMoreThanOne(id, baseline, candidate))
  }

  function Judge(baseline: Report, candidate: Report, regression: set<string>): (r: Verdict) {
    var b, c := baseline.perTask, candidate.perTask;
    if Saturated(b, regression) then BenchSaturated
    else if HoldoutKept(b, c, regression) && (Improves(b, c, regression) || Cheaper(baseline, candidate))
            && NothingFell(b, c, regression)
    then Mergeable
    else NotMergeable
  }

  // ---- more deliveries never hurt -----------------------------------------------------------

  /** The same tasks with the same runs, each delivered at least as often. */
  ghost predicate Raised(low: PerTask, high: PerTask) {
    && |low| == |high|
    && forall i | 0 <= i < |low| ::
         && low[i].0 == high[i].0 && low[i].1.split == high[i].1.split
         && low[i].1.runs == high[i].1.runs && low[i].1.delivered <= high[i].1.delivered
  }

  function DeliveredTotal(tasks: PerTask): (r: nat) {
    if tasks == [] then 0 else tasks[0].1.delivered + DeliveredTotal(tasks[1..])
  }

  /** The report's total is the sum over its tasks. */
  ghost predicate Consistent(report: Report) {
    report.delivered == DeliveredTotal(report.perTask) && report.cost >= 0.0
  }

  lemma DivideMonotone(a: real, b: real, n: real)
    requires a <= b && n > 0.0
    ensures a / n <= b / n
  {
  }

  lemma DivisorAntitone(cost: real, m: real, n: real)
    requires cost >= 0.0 && 0.0 < m <= n
    ensures cost / n <= cost / m
  {
    var low, high := cost / n, cost / m;
    assert low * n == cost && high * m == cost;
    assert high * n >= high * m;
    assert low * n <= high * n;
  }

  lemma {:induction false} RaisedUnits(low: PerTask, high: PerTask, split: string, skip: set<string>)
    requires Raised(low, high)
    ensures Units(low, split, skip) <= Units(high, split, skip)
    ensures DeliveredTotal(low) <= DeliveredTotal(high)
  {
    if low != [] {
      RaisedUnits(low[1..], high[1..], split, skip);
      if low[0].1.runs > 0 {
        DivideMonotone(low[0].1.delivered as real, high[0].1.delivered as real, low[0].1.runs as real);
      }
    }
  }

  lemma {:induction false} RaisedGet(low: PerTask, high: PerTask, id: string)
    requires Raised(low, high)
    ensures Get(low, id).Some? <==> Get(high, id).Some?
    ensures Get(low, id).Some? ==> Get(low, id).value.delivered <= Get(high, id).value.delivered
  {
    if low != [] && low[0].0 != id { RaisedGet(low[1..], high[1..], id); }
  }

  lemma RaisedIsCheaper(baseline: Report, low: Report, high: Report)
    requires Raised(low.perTask, high.perTask) && Consistent(low) && Consistent(high) && low.cost == high.cost
    ensures Cheaper(baseline, low) ==> Cheaper(baseline, high)
  {
    RaisedUnits(low.perTask, high.perTask, "dev", {});
    if Cheaper(baseline, low) {
      DivisorAntitone(low.cost, low.delivered as real, high.delivered as real);
    }
  }

  /** The rule is monotone in the candidate: at the same total cost, raising the delivered runs
      of any tasks never turns a mergeable change into one that is not. */
  lemma MergeableIsMonotone(baseline: Report, low: Report, high: Report, regression: set<string>)
    requires Raised(low.perTask, high.perTask) && Consistent(low) && Consistent(high) && low.cost == high.cost
    requires Judge(baseline, low, regression) == Mergeable
    ensures Judge(baseline, high, regression) == Mergeable
  {
    hide Units, Get, Cheaper, Saturated;
    var b := baseline.perTask;
    RaisedUnits(low.perTask, high.perTask, "dev", regression);
    RaisedUnits(low.perTask, high.perTask, "holdout", regression);
    RaisedIsCheaper(baseline, low, high);
    forall i | 0 <= i < |b| ensures !Fell(b[i], high.perTask) {
      assert !Fell(b[i], low.perTask);
      RaisedGet(low.perTask, high.perTask, b[i].0);
    }
    forall id | id in regression ensures !FellByMoreThanOne(id, b, high.perTask) {
      assert !FellByMoreThanOne(id, b, low.perTask);
      RaisedGet(low.perTask, high.perTask, id);
    }
  }

  // ---- no gain, no merge ----------------------------------------------------------------------

  lemma NothingFallsAgainstItself(tasks: PerTask, regression: set<string>)
    requires DistinctKeys(tasks)
    ensures NothingFell(tasks, tasks, regression)
  {
    hide Get;
    forall i | 0 <= i < |tasks| ensures !Fell(tasks[i], tasks) {
      GetAt(tasks, i);
    }
  }

  lemma CheaperThanItself(report: Report)
    ensures Cheaper(report, report) <==> report.delivered > 0 && report.cost <= 0.0
  {
    if report.delivered > 0 {
      var n := report.delivered as real;
      var unit := report.cost / n;
      assert unit * n == report.cost;
      assert unit <= 0.85 * unit <==> unit <= 0.0;
      if unit <= 0.0 { assert unit * n <= 0.0; } else { assert unit * n > 0.0; }
    }
  }

  /** A report merges against itself exactly when the bench can tell, something was delivered
      and nothing was paid: with a positive cost, never. */
  lemma SelfComparison(report: Report, regression: set<string>)
    requires DistinctKeys(report.perTask)
    ensures Judge(report, report, regression) == Mergeable
       <==> !Saturated(report.perTask, regression) && report.delivered > 0 && report.cost <= 0.0
  {
    hide Saturated, Cheaper, NothingFell, Units;
    NothingFallsAgainstItself(report.perTask, regression);
    CheaperThanItself(report);
  }

  // ---- saturation -------------------------------------------------------------------------------

  /** Twice the least float above 0.8995, less one, in units of 2^-53: a quotient above half of
      this is rounded to that float or higher, any other to a float below 0.8995. */
  const LINE := 16203951459279045
  const FLOAT_UNITS := 18014398509481984

  predicate PastLine(delivered: int, runs: int) {
    FLOAT_UNITS * delivered > LINE * runs
  }

  /** The same for real numbers. */
  predicate QuotientPastLine(delivered: real, runs: real) {
    18014398509481984.0 * delivered > 16203951459279045.0 * runs
  }

  /** Where rounding puts the saturation line, for any number of runs. */
  lemma SaturationLine(baseline: PerTask, skip: set<string>)
    ensures var runs := SplitRuns(baseline, "holdout", skip);
            var delivered := SplitDelivered(baseline, "holdout", skip);
            Saturated(baseline, skip) <==> runs == 0 || FLOAT_UNITS * delivered > LINE * runs
  {
    hide SplitRuns, SplitDelivered;
    var runs := SplitRuns(baseline, "holdout", skip);
    if runs > 0 {
      RoundedLine(SplitDelivered(baseline, "holdout", skip), runs);
    }
  }

  /** Up to nine million million runs that is: more than 1799 deliveries per 2000 runs. At
      exactly 1799 of 2000 the float lies below 0.8995 and the bench is not saturated. */
  lemma SaturationInPractice(baseline: PerTask, skip: set<string>)
    requires SplitRuns(baseline, "holdout", skip) <= 9_000_000_000_000
    ensures var runs := SplitRuns(baseline, "holdout", skip);
            var delivered := SplitDelivered(baseline, "holdout", skip);
            Saturated(baseline, skip) <==> runs == 0 || 2000 * delivered > 1799 * runs
  {
    SaturationLine(baseline, skip);
    hide Saturated, SplitRuns, SplitDelivered;
    LineInPractice(SplitDelivered(baseline, "holdout", skip), SplitRuns(baseline, "holdout", skip));
  }

  /** Deliveries past the line by any whole run are past the float's line too. */
  lemma LineInPractice(delivered: nat, runs: nat)
    requires runs <= 9_000_000_000_000
    ensures FLOAT_UNITS * delivered > LINE * runs <==> 2000 * delivered > 1799 * runs
  {
  }

  lemma RoundsUpTo900(x: real)
    ensures RoundHalfEven(x) >= 900 <==> x >= 899.5
  {
  }

  lemma RoundedRate(q: real)
    ensures Round3(q) >= 0.9 <==> q >= 0.8995
  {
    RoundsUpTo900(q * 1000.0);
  }

  lemma RoundsUpToLine(x: real)
    ensures RoundHalfEven(x) >= 8101975729639523 <==> 2.0 * x > 16203951459279045.0
  {
  }

  /** The floats from 0.8995 on start at the one above the line. */
  lemma FloatPastLine(q: real)
    ensures Float(q) >= 0.8995 <==> QuotientPastLine(q, 1.0)
  {
    hide RoundHalfEven;
    RoundsUpToLine(q * 9007199254740992.0);
    var k := RoundHalfEven(q * 9007199254740992.0);
    assert k as real / 9007199254740992.0 >= 0.8995 <==> k as real >= 0.8995 * 9007199254740992.0;
    assert k as real >= 0.8995 * 9007199254740992.0 <==> k >= 8101975729639523;
  }

  lemma LineTimes(q: real, d: real, n: real)
    requires n > 0.0 && q * n == d
    ensures QuotientPastLine(q, 1.0) <==> QuotientPastLine(d, n)
  {
    var over := 18014398509481984.0 * q - 16203951459279045.0;
    assert 18014398509481984.0 * d - 16203951459279045.0 * n == over * n;
    assert over * n > 0.0 <==> over > 0.0;
  }

  lemma WholeLine(delivered: nat, runs: nat)
    ensures QuotientPastLine(delivered as real, runs as real) <==> PastLine(delivered, runs)
  {
    assert 18014398509481984.0 * delivered as real == (FLOAT_UNITS * delivered) as real;
    assert 16203951459279045.0 * runs as real == (LINE * runs) as real;
  }

  lemma RoundedLine(delivered: nat, runs: nat)
    requires runs > 0
    ensures Round3(Float(delivered as real / runs as real)) >= 0.9 <==> PastLine(delivered, runs)
  {
    hide Round3, Float, QuotientPastLine, PastLine;
    var q := delivered as real / runs as real;
    assert q * runs as real == delivered as real;
    RoundedRate(Float(q));
    FloatPastLine(q);
    LineTimes(q, delivered as real, runs as real);
    WholeLine(delivered, runs);
  }

  // ---- regression-set tasks ---------------------------------------------------------------------

  /** The same tasks, with the same scores outside the set. */
  ghost predicate SameOutside(a: PerTask, b: PerTask, skip: set<string>) {
    |a| == |b| && forall i | 0 <= i < |a| :: a[i].0 == b[i].0 && (a[i].0 !in skip ==> a[i].1 == b[i].1)
  }

  /** Regression-set tasks never count toward the gain, nor toward the holdout guard. */
  lemma {:induction false} RegressionTasksDoNotCount(a: PerTask, b: PerTask, split: string, skip: set<string>)
    requires SameOutside(a, b, skip)
    ensures Units(a, split, skip) == Units(b, split, skip)
    ensures SplitRuns(a, split, skip) == SplitRuns(b, split, skip)
    ensures SplitDelivered(a, split, skip) == SplitDelivered(b, split, skip)
  {
    if a != [] {
      RegressionTasksDoNotCount(a[1..], b[1..], split, skip);
      assert a[0].0 in skip || a[0] == b[0];
    }
  }

  /** As long as nothing falls, a difference in regression-set scores alone leaves the verdict
      unchanged exactly when the bench is saturated, when the active tasks fail the holdout
      guard or improve anyway, or when both candidates or neither are cheap enough. */
  lemma RegressionActsExactlyByCost(baseline: Report, one: Report, two: Report, regression: set<string>)
    requires SameOutside(one.perTask, two.perTask, regression)
    requires NothingFell(baseline.perTask, one.perTask, regression)
    requires NothingFell(baseline.perTask, two.perTask, regression)
    ensures Judge(baseline, one, regression) == Judge(baseline, two, regression)
       <==> || Saturated(baseline.perTask, regression)
            || !HoldoutKept(baseline.perTask, one.perTask, regression)
            || Improves(baseline.perTask, one.perTask, regression)
            || (Cheaper(baseline, one) <==> Cheaper(baseline, two))
  {
    hide Units, NothingFell, Saturated, CostPerDelivered, Cheaper;
    RegressionTasksDoNotCount(one.perTask, two.perTask, "dev", regression);
    RegressionTasksDoNotCount(one.perTask, two.perTask, "holdout", regression);
  }

  /** One task in each split the examples need: `h` is active, `r` is in the regression set. */
  function Example(h: nat, r: nat, cost: real): (report: Report) {
    Report([("h", TaskScore("holdout", h, 3)), ("r", TaskScore("holdout", r, 3))], h + r, cost)
  }

  lemma ExampleJudged(r: nat)
    requires 2 <= r <= 3
    ensures Judge(Example(1, 3, 4.0), Example(1, r, 3.3), {"r"}) == if r == 3 then Mergeable else NotMergeable
  {
    var before, after := Example(1, 3, 4.0), Example(1, r, 3.3);
    var b, c := before.perTask, after.perTask;
    RegressionTasksDoNotCount(b, c, "dev", {"r"});
    RegressionTasksDoNotCount(b, c, "holdout", {"r"});
    assert !Saturated(b, {"r"}) by {
      SaturationLine(b, {"r"});
      assert b[1..] == [b[1]] && b[1..][1..] == [];
      assert SplitRuns(b[1..], "holdout", {"r"}) == 0 && SplitDelivered(b[1..], "holdout", {"r"}) == 0;
    }
    assert Get(c, "h") == Some(c[0].1) && Get(b, "r") == Some(b[1].1) && Get(c, "r") == Some(c[1].1) by {
      assert b[1..][0] == b[1] && c[1..][0] == c[1];
    }
    hide Units, Saturated, Get;
    assert NothingFell(b, c, {"r"});
    assert Cheaper(before, after) <==> r == 3;
  }

  /** It does matter through the cost: the same active tasks at the same price merge or not
      by a single run of a regression-set task that has not fallen. */
  lemma RegressionTaskCanDecide()
    ensures exists baseline: Report, one: Report, two: Report, regression: set<string> ::
              && SameOutside(one.perTask, two.perTask, regression) && one.cost == two.cost
              && NothingFell(baseline.perTask, one.perTask, regression)
              && NothingFell(baseline.perTask, two.perTask, regression)
              && Judge(baseline, one, regression) == Mergeable
              && Judge(baseline, two, regression) == NotMergeable
  {
    var baseline, one, two := Example(1, 3, 4.0), Example(1, 3, 3.3), Example(1, 2, 3.3);
    ExampleJudged(3);
    ExampleJudged(2);
    hide Judge;
    assert NothingFell(baseline.perTask, one.perTask, {"r"});
    assert NothingFell(baseline.perTask, two.perTask, {"r"});
    assert SameOutside(one.perTask, two.perTask, {"r"});
  }

  // ---- the regression set itself ------------------------------------------------------------------

  /** A stored report with its best-of-n setting; an unset setting counts as one. */
  datatype Stored = Stored(report: Report, samples: Option<nat>)

  const MIN_SAMPLES := 3

  function SamplesOf(stored: Stored): (r: nat) {
    if stored.samples.None? || stored.samples.value == 0 then 1 else stored.samples.value
  }

  /** The reports with enough samples, latest first. */
  function Sampled(reports: seq<Stored>): (r: seq<Report>)
    ensures |r| <= |reports|
    ensures forall x | x in r :: exists i | 0 <= i < |reports| :: reports[i].report == x && SamplesOf(reports[i]) >= MIN_SAMPLES
  {
    if reports == [] then []
    else if SamplesOf(reports[0]) >= MIN_SAMPLES then [reports[0].report] + Sampled(reports[1..])
    else Sampled(reports[1..])
  }

  predicate Full(score: TaskScore) {
    score.runs >= 3 && score.delivered == score.runs
  }

  function FullTasks(report: Report): (r: set<string>) {
    set i | 0 <= i < |report.perTask| && Full(report.perTask[i].1) :: report.perTask[i].0
  }

  /** Tasks delivered in all of at least three runs on both of the two latest sampled reports. */
  function Partition(reports: seq<Stored>): (regression: set<string>) {
    var best := Sampled(reports);
    if |best| < 2 then {} else FullTasks(best[0]) * FullTasks(best[1])
  }

  /** Every run of a skipped task was delivered. */
  ghost predicate SkipsOnlyFull(tasks: PerTask, skip: set<string>) {
    forall i | 0 <= i < |tasks| && tasks[i].0 in skip :: tasks[i].1.delivered == tasks[i].1.runs
  }

  lemma PartitionSkipsOnlyFull(reports: seq<Stored>, k: nat)
    requires k < 2 && k < |Sampled(reports)| && DistinctKeys(Sampled(reports)[k].perTask)
    ensures SkipsOnlyFull(Sampled(reports)[k].perTask, Partition(reports))
  {
    hide Sampled;
    var tasks := Sampled(reports)[k].perTask;
    forall i | 0 <= i < |tasks| && tasks[i].0 in Partition(reports) ensures tasks[i].1.delivered == tasks[i].1.runs {
      assert tasks[i].0 in FullTasks(Sampled(reports)[k]);
      var j :| 0 <= j < |tasks| && Full(tasks[j].1) && tasks[j].0 == tasks[i].0;
      assert i == j;
    }
  }

  lemma {:induction false} SkippedRunsAreDelivered(tasks: PerTask, split: string, skip: set<string>)
    requires SkipsOnlyFull(tasks, skip)
    ensures SplitRuns(tasks, split, skip) <= SplitRuns(tasks, split, {})
    ensures SplitRuns(tasks, split, {}) - SplitRuns(tasks, split, skip)
         == SplitDelivered(tasks, split, {}) - SplitDelivered(tasks, split, skip)
  {
    if tasks != [] {
      assert tasks[0].0 in skip ==> tasks[0].1.delivered == tasks[0].1.runs;
      SkippedRunsAreDelivered(tasks[1..], split, skip);
    }
  }

  /** Setting the regression set aside can only make the bench tell more: where the active
      holdout tasks saturate it, all holdout tasks do. */
  lemma PartitionOnlyUnsaturates(reports: seq<Stored>, k: nat)
    requires k < 2 && k < |Sampled(reports)| && DistinctKeys(Sampled(reports)[k].perTask)
    requires Saturated(Sampled(reports)[k].perTask, Partition(reports))
    ensures Saturated(Sampled(reports)[k].perTask, {})
  {
    var tasks := Sampled(reports)[k].perTask;
    var skip := Partition(reports);
    PartitionSkipsOnlyFull(reports, k);
    SkippedRunsAreDelivered(tasks, "holdout", skip);
    SaturationLine(tasks, skip);
    SaturationLine(tasks, {});
    hide SplitRuns, SplitDelivered, Saturated, Sampled, Partition;
  }

  // ---- chains of merges ---------------------------------------------------------------------------

  /** Every report was merged on top of the one before. */
  ghost predicate MergeChain(chain: seq<Report>, regression: set<string>) {
    forall i | 0 < i < |chain| :: Judge(chain[i - 1], chain[i], regression) == Mergeable
  }

  /** n merges in a row lose at most n holdout tasks. */
  lemma {:induction false} HoldoutDrift(chain: seq<Report>, regression: set<string>)
    requires chain != [] && MergeChain(chain, regression)
    ensures Units(chain[|chain| - 1].perTask, "holdout", regression)
         >= Units(chain[0].perTask, "holdout", regression) - (|chain| - 1) as real
  {
    hide Units, Saturated, Improves, Cheaper, NothingFell;
    if |chain| > 1 {
      var shorter := chain[..|chain| - 1];
      HoldoutDrift(shorter, regression);
      assert Judge(chain[|chain| - 2], chain[|chain| - 1], regression) == Mergeable;
      assert HoldoutKept(chain[|chain| - 2].perTask, chain[|chain| - 1].perTask, regression);
    }
  }

  /** Both steps gain in the same way: by cost, or by the units of the same split. */
  predicate SameGain(a: Report, b: Report, c: Report, skip: set<string>) {
    || (Cheaper(a, b) && Cheaper(b, c))
    || (exists split | split in ["dev", "holdout"] ::
          && Units(b.perTask, split, skip) - Units(a.perTask, split, skip) >= 2.0
          && Units(c.perTask, split, skip) - Units(b.perTask, split, skip) >= 2.0)
  }

  lemma CheaperTwice(a: Report, b: Report, c: Report)
    requires a.cost >= 0.0 && Cheaper(a, b) && Cheaper(b, c)
    ensures Cheaper(a, c)
  {
    var unit := a.cost / a.delivered as real;
    assert unit >= 0.0;
  }

  /** Two merges that gain in the same way compose exactly when, over both, the holdout guard
      holds and nothing fell. */
  lemma SameGainComposesExactly(a: Report, b: Report, c: Report, regression: set<string>)
    requires a.cost >= 0.0 && SameGain(a, b, c, regression)
    requires Judge(a, b, regression) == Mergeable && Judge(b, c, regression) == Mergeable
    ensures Judge(a, c, regression) == Mergeable
       <==> HoldoutKept(a.perTask, c.perTask, regression) && NothingFell(a.perTask, c.perTask, regression)
  {
    hide Units, Saturated, NothingFell, Cheaper;
    if Cheaper(a, b) && Cheaper(b, c) { CheaperTwice(a, b, c); }
  }

  /** Two holdout tasks of four runs and a dev task of one. */
  function Step(h1: nat, h2: nat, cost: real): (report: Report) {
    Report([("h1", TaskScore("holdout", h1, 4)), ("h2", TaskScore("holdout", h2, 4)), ("d", TaskScore("dev", 1, 1))],
           h1 + h2 + 1, cost)
  }

  lemma StepMeasures(h1: nat, h2: nat, cost: real)
    ensures var tasks := Step(h1, h2, cost).perTask;
            && Units(tasks, "holdout", {}) == h1 as real / 4.0 + h2 as real / 4.0
            && Units(tasks, "dev", {}) == 1.0
            && SplitRuns(tasks, "holdout", {}) == 8 && SplitDelivered(tasks, "holdout", {}) == h1 + h2
  {
    var tasks := Step(h1, h2, cost).perTask;
    var two, one := tasks[1..], tasks[2..];
    assert two[0] == tasks[1] && two[1..] == one && one[0] == tasks[2] && one[1..] == [];
    assert Units(one, "holdout", {}) == 0.0 && Units(one, "dev", {}) == 1.0;
    assert SplitRuns(one, "holdout", {}) == 0 && SplitDelivered(one, "holdout", {}) == 0;
    assert Units(two, "holdout", {}) == h2 as real / 4.0 && Units(two, "dev", {}) == 1.0;
    assert SplitRuns(two, "holdout", {}) == 4 && SplitDelivered(two, "holdout", {}) == h2;
  }

  lemma StepJudged(h1: nat, h2: nat, cost: real, to1: nat, to2: nat, toCost: real)
    requires h1 < 4 && h2 < 4 && cost > 0.0
    requires toCost / (to1 + to2 + 1) as real <= 0.85 * (cost / (h1 + h2 + 1) as real)
    ensures Judge(Step(h1, h2, cost), Step(to1, to2, toCost), {})
         == if to1 + to2 >= h1 + h2 - 4 then Mergeable else NotMergeable
  {
    var before, after := Step(h1, h2, cost), Step(to1, to2, toCost);
    StepMeasures(h1, h2, cost);
    StepMeasures(to1, to2, toCost);
    SaturationLine(before.perTask, {});
    assert Get(after.perTask, "d") == Some(after.perTask[2].1) by {
      GetAt(after.perTask, 2);
    }
    hide Units, SplitRuns, SplitDelivered, Saturated, Get;
    assert NothingFell(before.perTask, after.perTask, {});
    assert Cheaper(before, after);
  }

  /** The holdout guard does not survive a chain: two mergeable changes in a row can add up
      to one that is not. */
  lemma MergesDoNotCompose()
    ensures exists a: Report, b: Report, c: Report ::
              MergeChain([a, b, c], {}) && Judge(a, c, {}) == NotMergeable
  {
    hide Judge, Step;
    var a, b, c := Step(3, 3, 7.0), Step(0, 3, 2.0), Step(0, 0, 0.25);
    StepJudged(3, 3, 7.0, 0, 3, 2.0);
    StepJudged(0, 3, 2.0, 0, 0, 0.25);
    StepJudged(3, 3, 7.0, 0, 0, 0.25);
    var chain := [a, b, c];
    assert forall i | 0 < i < |chain| :: Judge(chain[i - 1], chain[i], {}) == Mergeable;
    assert MergeChain([a, b, c], {});
  }
}
