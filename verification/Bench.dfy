/** The builder bench: the budgeted runner and the summary of its rows. Costs and rates are
    real numbers, without the display rounding. */
module Bench {
  import opened Text
  import opened Dicts
  import opened KeyedSums

  datatype Task = Task(id: string, split: string)
  datatype Result = Pass | SetupError | Miss(name: string)
  datatype Row = Row(id: string, split: string, rep: nat, result: Result, cost: real)

  /** What a run comes to: a setup failure costs nothing. */
  datatype Outcome = Ran(passed: bool, name: string, cost: real) | SetupFailed

  function CostOf(o: Outcome): (r: real) {
    if o.SetupFailed? then 0.0 else o.cost
  }

  function RowOf(task: Task, rep: nat, o: Outcome): (r: Row) {
    Row(task.id, task.split, rep,
        if o.SetupFailed? then SetupError else if o.passed then Pass else Miss(o.name), CostOf(o))
  }

  // ---- the runner -----------------------------------------------------------------------

  function Round(tasks: seq<Task>, rep: nat): (r: seq<(nat, Task)>)
    ensures |r| == |tasks| && forall i | 0 <= i < |r| :: r[i] == (rep, tasks[i])
  {
    seq(|tasks|, i requires 0 <= i < |tasks| => (rep, tasks[i]))
  }

  /** Every task once per repetition, repetition by repetition. */
  function Schedule(tasks: seq<Task>, repeat: nat): (r: seq<(nat, Task)>) {
    if repeat == 0 then [] else Schedule(tasks, repeat - 1) + Round(tasks, repeat - 1)
  }

  function Spent(rows: seq<Row>): (r: real) {
    if rows == [] then 0.0 else Spent(rows[..|rows| - 1]) + rows[|rows| - 1].cost
  }

  /** The environment: what the k-th scheduled run does under a cost cap. */
  type Runner = (nat, real) -> Outcome

  ghost predicate RespectsCap(run: Runner) {
    forall k, cap | cap > 0.0 :: CostOf(run(k, cap)) <= cap
  }

  /** Before each of these rows the budget was not used up. */
  ghost predicate EachStartedInBudget(rows: seq<Row>, budget: real) {
    forall k | 0 <= k < |rows| :: Spent(rows[..k]) < budget
  }

  /** Each row is what the run at its place of the schedule came to, under what the rows before
      it left of the budget. */
  ghost predicate RowsOfRuns(rows: seq<Row>, schedule: seq<(nat, Task)>, budget: real, run: Runner) {
    && |rows| <= |schedule|
    && (rows != [] ==>
          var k := |rows| - 1;
          && RowsOfRuns(rows[..k], schedule, budget, run)
          && rows[k] == RowOf(schedule[k].1, schedule[k].0, run(k, budget - Spent(rows[..k]))))
  }

  lemma {:induction false} RowAt(rows: seq<Row>, schedule: seq<(nat, Task)>, budget: real, run: Runner, k: nat)
    requires RowsOfRuns(rows, schedule, budget, run) && k < |rows|
    ensures rows[k] == RowOf(schedule[k].1, schedule[k].0, run(k, budget - Spent(rows[..k])))
  {
    hide Spent, RowOf;
    var n := |rows| - 1;
    if k < n {
      RowAt(rows[..n], schedule, budget, run, k);
      assert rows[..n][..k] == rows[..k];
    }
  }

  /** The rows of a bench: it starts runs in schedule order as long as the budget is not used
      up, and ends early only when it is. */
  ghost predicate BenchRows(rows: seq<Row>, tasks: seq<Task>, repeat: nat, budget: real, run: Runner) {
    && RowsOfRuns(rows, Schedule(tasks, repeat), budget, run)
    && EachStartedInBudget(rows, budget)
    && (|rows| < |Schedule(tasks, repeat)| ==> Spent(rows) >= budget)
  }

  lemma NothingSpent(schedule: seq<(nat, Task)>, budget: real, run: Runner)
    ensures Spent([]) == 0.0 && EachStartedInBudget([], budget) && RowsOfRuns([], schedule, budget, run)
  {
  }

  lemma OneRunMore(rows: seq<Row>, schedule: seq<(nat, Task)>, budget: real, run: Runner)
    requires RowsOfRuns(rows, schedule, budget, run) && |rows| < |schedule|
    ensures var k := |rows|;
            var row := RowOf(schedule[k].1, schedule[k].0, run(k, budget - Spent(rows)));
            RowsOfRuns(rows + [row], schedule, budget, run)
  {
    hide Spent, RowOf;
    var n := |rows|;
    var more := rows + [RowOf(schedule[n].1, schedule[n].0, run(n, budget - Spent(rows)))];
    assert more[..n] == rows;
  }

  lemma OneRowMore(rows: seq<Row>, row: Row, budget: real)
    requires EachStartedInBudget(rows, budget) && Spent(rows) < budget
    ensures EachStartedInBudget(rows + [row], budget)
    ensures Spent(rows + [row]) == Spent(rows) + row.cost
  {
    assert (rows + [row])[..|rows|] == rows;
    assert forall k | 0 <= k < |rows| :: (rows + [row])[..k] == rows[..k];
  }

  /** Runs exactly a prefix of the schedule and skips the rest: a run starts as long as the
      budget is not used up, and once it is, none does. */
  method RunBench(tasks: seq<Task>, repeat: nat, budget: real, run: Runner)
    returns (rows: seq<Row>, skipped: seq<string>, spent: real)
    ensures BenchRows(rows, tasks, repeat, budget, run) && spent == Spent(rows)
    ensures forall k | 0 <= k < |rows| ::
              rows[k] == RowOf(Schedule(tasks, repeat)[k].1, Schedule(tasks, repeat)[k].0,
                               run(k, budget - Spent(rows[..k])))
    ensures |rows| + |skipped| == |Schedule(tasks, repeat)|
    ensures forall k | 0 <= k < |skipped| :: skipped[k] == Schedule(tasks, repeat)[|rows| + k].1.id
    ensures RespectsCap(run) && rows != [] ==> spent <= budget
  {
    hide Schedule, Spent, EachStartedInBudget, RowsOfRuns, RowOf;
    var schedule := Schedule(tasks, repeat);
    NothingSpent(schedule, budget, run);
    rows, skipped, spent := [], [], 0.0;
    for k := 0 to |schedule|
      invariant |rows| + |skipped| == k && spent == Spent(rows)
      invariant RowsOfRuns(rows, schedule, budget, run) && EachStartedInBudget(rows, budget)
      invariant forall j | 0 <= j < |skipped| :: skipped[j] == schedule[|rows| + j].1.id
      invariant skipped != [] ==> spent >= budget
      invariant RespectsCap(run) && rows != [] ==> spent <= budget
    {
      var (rep, task) := schedule[k];
      if spent >= budget {
        skipped := skipped + [task.id];
      } else {
        assert |rows| == k;
        var outcome := run(k, budget - spent);
        var row := RowOf(task, rep, outcome);
        RowCost(task, rep, outcome);
        OneRowMore(rows, row, budget);
        OneRunMore(rows, schedule, budget, run);
        spent := spent + row.cost;
        rows := rows + [row];
      }
    }
    forall k | 0 <= k < |rows|
      ensures rows[k] == RowOf(schedule[k].1, schedule[k].0, run(k, budget - Spent(rows[..k])))
    {
      RowAt(rows, schedule, budget, run, k);
    }
  }

  lemma RowCost(task: Task, rep: nat, o: Outcome)
    ensures RowOf(task, rep, o).cost == CostOf(o)
  {
  }

  function Attempts(runs: seq<(nat, Task)>, id: string): (r: nat) {
    if runs == [] then 0
    else Attempts(runs[..|runs| - 1], id) + if runs[|runs| - 1].1.id == id then 1 else 0
  }

  ghost predicate DistinctTasks(tasks: seq<Task>) {
    forall i, j | 0 <= i < j < |tasks| :: tasks[i].id != tasks[j].id
  }

  lemma {:induction false} AttemptsAddUp(a: seq<(nat, Task)>, b: seq<(nat, Task)>, id: string)
    ensures Attempts(a + b, id) == Attempts(a, id) + Attempts(b, id)
  {
    if b == [] {
      assert a + b == a;
    } else {
      AttemptsAddUp(a, b[..|b| - 1], id);
      assert (a + b)[..|a + b| - 1] == a + b[..|b| - 1];
    }
  }

  lemma {:induction false} RoundPrefix(tasks: seq<Task>, rep: nat, n: nat, i: nat)
    requires DistinctTasks(tasks) && n <= |tasks| && i < |tasks|
    ensures Attempts(Round(tasks, rep)[..n], tasks[i].id) == if i < n then 1 else 0
  {
    if n > 0 {
      RoundPrefix(tasks, rep, n - 1, i);
      assert Round(tasks, rep)[..n][..n - 1] == Round(tasks, rep)[..n - 1];
      assert Round(tasks, rep)[..n][n - 1].1 == tasks[n - 1];
      assert i != n - 1 ==> tasks[i].id != tasks[n - 1].id;
    }
  }

  lemma {:induction false} FullSchedule(tasks: seq<Task>, repeat: nat, i: nat)
    requires DistinctTasks(tasks) && i < |tasks|
    ensures Attempts(Schedule(tasks, repeat), tasks[i].id) == repeat
  {
    if repeat > 0 {
      FullSchedule(tasks, repeat - 1, i);
      AttemptsAddUp(Schedule(tasks, repeat - 1), Round(tasks, repeat - 1), tasks[i].id);
      RoundPrefix(tasks, repeat - 1, |tasks|, i);
      assert Round(tasks, repeat - 1)[..|tasks|] == Round(tasks, repeat - 1);
    }
  }

  lemma {:induction false} ScheduleLength(tasks: seq<Task>, repeat: nat)
    ensures |Schedule(tasks, repeat)| == repeat * |tasks|
  {
    if repeat > 0 { ScheduleLength(tasks, repeat - 1); }
  }

  lemma QuotientIs(k: nat, n: nat, q: nat, m: nat)
    requires k == q * n + m && m < n
    ensures k / n == q && k % n == m
  {
    var x := k / n - q;
    assert x * n == m - k % n;
    assert x >= 1 ==> x * n >= n;
    assert x <= -1 ==> x * n + n <= 0;
  }

  /** The k-th run is the (k / n)-th attempt at the (k % n)-th of n tasks. */
  lemma {:induction false} ScheduleAt(tasks: seq<Task>, repeat: nat, k: nat)
    requires k < |Schedule(tasks, repeat)|
    ensures tasks != [] && Schedule(tasks, repeat)[k] == (k / |tasks|, tasks[k % |tasks|])
  {
    var before := Schedule(tasks, repeat - 1);
    if k < |before| {
      ScheduleAt(tasks, repeat - 1, k);
    } else {
      ScheduleLength(tasks, repeat - 1);
      QuotientIs(k, |tasks|, repeat - 1, k - |before|);
    }
  }

  /** What a run came to: a failed setup costs nothing, a run passes or misses under its name. */
  ghost predicate Records(row: Row, o: Outcome) {
    && (row.result == Pass <==> o.Ran? && o.passed)
    && (row.result == SetupError <==> o == SetupFailed)
    && (forall name :: row.result == Miss(name) <==> o.Ran? && !o.passed && o.name == name)
    && row.cost == match o case SetupFailed => 0.0 case Ran(_, _, cost) => cost
  }

  /** The rows of a bench one by one: the k-th attempts its task for the (k / n)-th time, under
      what the rows before it left of the budget. */
  lemma RowsOneByOne(rows: seq<Row>, tasks: seq<Task>, repeat: nat, budget: real, run: Runner, k: nat)
    requires BenchRows(rows, tasks, repeat, budget, run) && k < |rows|
    ensures tasks != [] && rows[k].rep == k / |tasks| < repeat
    ensures rows[k].id == tasks[k % |tasks|].id && rows[k].split == tasks[k % |tasks|].split
    ensures Spent(rows[..k]) < budget && Records(rows[k], run(k, budget - Spent(rows[..k])))
  {
    hide Schedule, Spent;
    RowAt(rows, Schedule(tasks, repeat), budget, run, k);
    ScheduleAt(tasks, repeat, k);
    ScheduleLength(tasks, repeat);
    InRange(k, |tasks|, repeat);
  }

  lemma InRange(k: nat, n: nat, repeat: nat)
    requires n > 0 && k < repeat * n
    ensures k / n < repeat
  {
    var q := k / n;
    assert q * n <= k;
    assert q >= repeat ==> q * n >= repeat * n;
  }

  lemma NoAttempts(tasks: seq<Task>, n: nat)
    requires n <= |Schedule(tasks, 0)|
    ensures forall i | 0 <= i < |tasks| :: Attempts(Schedule(tasks, 0)[..n], tasks[i].id) == 0
  {
  }

  /** Where the budget stops the runner, every task has been tried q or q + 1 times. */
  lemma {:induction false} AttemptsDifferByOne(tasks: seq<Task>, repeat: nat, n: nat) returns (q: nat)
    requires DistinctTasks(tasks) && n <= |Schedule(tasks, repeat)|
    ensures q <= repeat
    ensures forall i | 0 <= i < |tasks| ::
              q <= Attempts(Schedule(tasks, repeat)[..n], tasks[i].id) <= q + 1
  {
    hide Attempts, Round, DistinctTasks;
    if repeat == 0 {
      q := 0;
      NoAttempts(tasks, n);
    } else {
      var full := Schedule(tasks, repeat - 1);
      var last := Round(tasks, repeat - 1);
      if n <= |full| {
        q := AttemptsDifferByOne(tasks, repeat - 1, n);
        assert (full + last)[..n] == full[..n];
      } else {
        q := repeat - 1;
        var m := n - |full|;
        assert (full + last)[..n] == full + last[..m];
        forall i | 0 <= i < |tasks| ensures q <= Attempts((full + last)[..n], tasks[i].id) <= q + 1 {
          FullSchedule(tasks, repeat - 1, i);
          AttemptsAddUp(full, last[..m], tasks[i].id);
          RoundPrefix(tasks, repeat - 1, m, i);
        }
      }
    }
  }

  // ---- the summary ------------------------------------------------------------------------

  type Matrix = Dict<string, seq<Result>>

  function Passes(results: seq<Result>): (r: nat)
    ensures r <= |results|
    ensures r > 0 <==> Pass in results
  {
    if results == [] then 0
    else
      assert results == results[..|results| - 1] + [results[|results| - 1]];
      Passes(results[..|results| - 1]) + if results[|results| - 1] == Pass then 1 else 0
  }

  /** Rows that were not setup errors. */
  function RanRows(rows: seq<Row>): (r: seq<Row>)
    ensures forall row :: row in r <==> row in rows && row.result != SetupError
  {
    if rows == [] then []
    else
      var last := rows[|rows| - 1];
      RanRows(rows[..|rows| - 1]) + if last.result != SetupError then [last] else []
  }

  /** Results by task, in order of first appearance. */
  function MatrixOf(ran: seq<Row>): (r: Matrix) {
    if ran == [] then []
    else
      var last := ran[|ran| - 1];
      var before := MatrixOf(ran[..|ran| - 1]);
      Put(before, last.id, GetOr(before, last.id, []) + [last.result])
  }

  /** The split of each task: that of its last row. */
  function SplitsOf(rows: seq<Row>): (r: Dict<string, string>) {
    if rows == [] then []
    else Put(SplitsOf(rows[..|rows| - 1]), rows[|rows| - 1].id, rows[|rows| - 1].split)
  }

  function ResultsOf(ran: seq<Row>): (r: seq<Result>)
    ensures |r| == |ran| && forall i | 0 <= i < |r| :: r[i] == ran[i].result
  {
    seq(|ran|, i requires 0 <= i < |ran| => ran[i].result)
  }

  function SplitOf(splits: Dict<string, string>, id: string): (r: string) {
    GetOr(splits, id, "dev")
  }

  /** One number per task, keyed by the task's split. */
  function BySplit(matrix: Matrix, splits: Dict<string, string>, value: seq<Result> -> int): (r: Entries)
    ensures |r| == |matrix| && forall i | 0 <= i < |r| :: r[i] == (SplitOf(splits, matrix[i].0), value(matrix[i].1))
  {
    seq(|matrix|, i requires 0 <= i < |matrix| => (SplitOf(splits, matrix[i].0), value(matrix[i].1)))
  }

  function OneEach(v: seq<Result>): (r: int) { 1 }
  function RunCount(v: seq<Result>): (r: int) { |v| }
  function PassCount(v: seq<Result>): (r: int) { Passes(v) }
  function AnyPass(v: seq<Result>): (r: int) { if Pass in v then 1 else 0 }

  datatype SplitScore = SplitScore(split: string, tasks: int, delivered: int, runs: int, passAt1: real, passAtK: real)

  datatype Summary = Summary(tasksRun: nat, runs: nat, delivered: nat, perTask: Matrix, splits: seq<SplitScore>,
                             passAt1: real, passAtK: real)

  /** `a / (b or 1)`. */
  function Rate(a: int, b: int): (r: real) {
    a as real / (if b == 0 then 1 else b) as real
  }

  function ScoreOf(split: string, matrix: Matrix, splits: Dict<string, string>): (r: SplitScore) {
    var tasks := TotalFor(BySplit(matrix, splits, OneEach), split);
    var runs := TotalFor(BySplit(matrix, splits, RunCount), split);
    var delivered := TotalFor(BySplit(matrix, splits, PassCount), split);
    SplitScore(split, tasks, delivered, runs, Rate(delivered, runs),
               Rate(TotalFor(BySplit(matrix, splits, AnyPass), split), tasks))
  }

  /** One of the sums of a split score: over the tasks of the split. */
  method SumSplit(split: string, matrix: Matrix, splits: Dict<string, string>, value: seq<Result> -> int) returns (sum: int)
    ensures sum == TotalFor(BySplit(matrix, splits, value), split)
  {
    hide SplitOf;
    ghost var entries := BySplit(matrix, splits, value);
    sum := 0;
    for i := 0 to |matrix|
      invariant sum == TotalFor(entries[..i], split)
    {
      assert entries[..i + 1][..i] == entries[..i];
      assert entries[..i + 1][i] == entries[i];
      if SplitOf(splits, matrix[i].0) == split { sum := sum + value(matrix[i].1); }
    }
    assert entries[..|matrix|] == entries;
  }

  method CountSplit(split: string, matrix: Matrix, splits: Dict<string, string>) returns (score: SplitScore)
    ensures score == ScoreOf(split, matrix, splits)
  {
    hide BySplit, Rate;
    var tasks := SumSplit(split, matrix, splits, OneEach);
    var runs := SumSplit(split, matrix, splits, RunCount);
    var delivered := SumSplit(split, matrix, splits, PassCount);
    var passed := SumSplit(split, matrix, splits, AnyPass);
    score := SplitScore(split, tasks, delivered, runs, Rate(delivered, runs), Rate(passed, tasks));
  }

  function SumOver(matrix: Matrix, value: seq<Result> -> int): (r: int) {
    if matrix == [] then 0 else value(matrix[0].1) + SumOver(matrix[1..], value)
  }

  lemma {:induction false} SumOneMore(matrix: Matrix, entry: (string, seq<Result>), value: seq<Result> -> int)
    ensures SumOver(matrix + [entry], value) == SumOver(matrix, value) + value(entry.1)
  {
    if matrix == [] {
      assert matrix + [entry] == [entry];
      assert [entry][1..] == [];
    } else {
      SumOneMore(matrix[1..], entry, value);
      assert (matrix + [entry])[1..] == matrix[1..] + [entry];
    }
  }

  /** Tasks that passed at least once. */
  function TasksPassed(matrix: Matrix): (r: int) {
    SumOver(matrix, AnyPass)
  }

  /** `names` lists each value of the split dict once (the source sorts them). */
  ghost predicate ListsSplits(names: seq<string>, splits: Dict<string, string>) {
    DistinctStrings(names) && forall s :: s in names <==> exists i | 0 <= i < |splits| :: splits[i].1 == s
  }

  method CollectRows(rows: seq<Row>) returns (ran: seq<Row>, splits: Dict<string, string>)
    ensures ran == RanRows(rows) && splits == SplitsOf(rows)
  {
    ran, splits := [], [];
    for i := 0 to |rows|
      invariant ran == RanRows(rows[..i]) && splits == SplitsOf(rows[..i])
    {
      assert rows[..i + 1][..i] == rows[..i];
      if rows[i].result != SetupError { ran := ran + [rows[i]]; }
      splits := Put(splits, rows[i].id, rows[i].split);
    }
    assert rows[..|rows|] == rows;
  }

  lemma MatrixOneMore(ran: seq<Row>, row: Row)
    ensures MatrixOf(ran + [row]) == Put(MatrixOf(ran), row.id, GetOr(MatrixOf(ran), row.id, []) + [row.result])
  {
    assert (ran + [row])[..|ran|] == ran;
  }

  lemma ResultsOneMore(ran: seq<Row>, row: Row)
    ensures Passes(ResultsOf(ran + [row])) == Passes(ResultsOf(ran)) + if row.result == Pass then 1 else 0
  {
    assert ResultsOf(ran + [row])[..|ran|] == ResultsOf(ran);
  }

  lemma NothingTabulated()
    ensures MatrixOf([]) == [] && Passes(ResultsOf([])) == 0
  {
  }

  method Tabulate(ran: seq<Row>) returns (matrix: Matrix, delivered: nat)
    ensures matrix == MatrixOf(ran) && delivered == Passes(ResultsOf(ran))
  {
    hide Put, GetOr, MatrixOf, Passes, ResultsOf;
    NothingTabulated();
    matrix, delivered := [], 0;
    for i := 0 to |ran|
      invariant matrix == MatrixOf(ran[..i]) && delivered == Passes(ResultsOf(ran[..i]))
    {
      assert ran[..i + 1] == ran[..i] + [ran[i]];
      MatrixOneMore(ran[..i], ran[i]);
      ResultsOneMore(ran[..i], ran[i]);
      if ran[i].result == Pass { delivered := delivered + 1; }
      matrix := Put(matrix, ran[i].id, GetOr(matrix, ran[i].id, []) + [ran[i].result]);
    }
    assert ran[..|ran|] == ran;
  }

  method CountPassed(matrix: Matrix) returns (passed: int)
    ensures passed == TasksPassed(matrix)
  {
    passed := 0;
    for i := 0 to |matrix|
      invariant passed == TasksPassed(matrix[..i])
    {
      SumOneMore(matrix[..i], matrix[i], AnyPass);
      assert matrix[..i + 1] == matrix[..i] + [matrix[i]];
      if Pass in matrix[i].1 { passed := passed + 1; }
    }
    assert matrix[..|matrix|] == matrix;
  }

  ghost predicate Summarizes(summary: Summary, rows: seq<Row>, names: seq<string>) {
    var matrix := MatrixOf(RanRows(rows));
    && summary.perTask == matrix && summary.tasksRun == |matrix|
    && summary.runs == |RanRows(rows)| && summary.delivered == Passes(ResultsOf(RanRows(rows)))
    && |summary.splits| == |names|
    && (forall i | 0 <= i < |names| :: summary.splits[i] == ScoreOf(names[i], matrix, SplitsOf(rows)))
    && summary.passAt1 == Rate(summary.delivered, summary.runs)
    && summary.passAtK == Rate(TasksPassed(matrix), summary.tasksRun)
  }

  method Summarize(rows: seq<Row>, names: seq<string>) returns (summary: Summary)
    requires ListsSplits(names, SplitsOf(rows))
    ensures Summarizes(summary, rows, names)
  {
    hide MatrixOf, RanRows, SplitsOf, ScoreOf, Rate, ListsSplits, Passes, TasksPassed;
    var ran, splits := CollectRows(rows);
    var matrix, delivered := Tabulate(ran);
    var scores: seq<SplitScore> := [];
    for i := 0 to |names|
      invariant |scores| == i && forall j | 0 <= j < i :: scores[j] == ScoreOf(names[j], matrix, splits)
    {
      var score := CountSplit(names[i], matrix, splits);
      scores := scores + [score];
    }
    var passed := CountPassed(matrix);
    summary := Summary(|matrix|, |ran|, delivered, matrix, scores, Rate(delivered, |ran|), Rate(passed, |matrix|));
  }

  // ---- the counts add up --------------------------------------------------------------------

  lemma {:induction false} SumAfterPut(matrix: Matrix, id: string, results: seq<Result>, value: seq<Result> -> int)
    requires value([]) == 0
    ensures SumOver(Put(matrix, id, results), value) == SumOver(matrix, value) + value(results) - value(GetOr(matrix, id, []))
  {
    if matrix != [] {
      if matrix[0].0 == id {
        assert Put(matrix, id, results)[1..] == matrix[1..];
      } else {
        SumAfterPut(matrix[1..], id, results, value);
        assert Put(matrix, id, results)[1..] == Put(matrix[1..], id, results);
      }
    }
  }

  lemma PassesOneMore(results: seq<Result>, result: Result)
    ensures Passes(results + [result]) == Passes(results) + if result == Pass then 1 else 0
  {
    assert (results + [result])[..|results|] == results;
  }

  /** Per-task runs and per-task deliveries add up to the totals. */
  lemma {:induction false} PerTaskAddsUp(ran: seq<Row>)
    ensures SumOver(MatrixOf(ran), RunCount) == |ran|
    ensures SumOver(MatrixOf(ran), PassCount) == Passes(ResultsOf(ran))
  {
    hide Put, GetOr, MatrixOf, Passes, ResultsOf;
    if ran == [] {
      NothingTabulated();
    } else {
      var n := |ran| - 1;
      var before := MatrixOf(ran[..n]);
      var earlier := GetOr(before, ran[n].id, []);
      PerTaskAddsUp(ran[..n]);
      assert ran[..n] + [ran[n]] == ran;
      MatrixOneMore(ran[..n], ran[n]);
      ResultsOneMore(ran[..n], ran[n]);
      PassesOneMore(earlier, ran[n].result);
      NoPasses();
      SumAfterPut(before, ran[n].id, earlier + [ran[n].result], RunCount);
      SumAfterPut(before, ran[n].id, earlier + [ran[n].result], PassCount);
    }
  }

  lemma NoPasses()
    ensures Passes([]) == 0
  {
  }

  function Ids(ran: seq<Row>): (r: seq<string>)
    ensures |r| == |ran| && forall i | 0 <= i < |r| :: r[i] == ran[i].id
  {
    seq(|ran|, i requires 0 <= i < |ran| => ran[i].id)
  }

  lemma {:induction false} MatrixKeys(ran: seq<Row>)
    ensures forall id :: id in Keys(MatrixOf(ran)) <==> id in Ids(ran)
    ensures forall i | 0 <= i < |MatrixOf(ran)| :: MatrixOf(ran)[i].1 != []
  {
    if ran != [] {
      var n := |ran| - 1;
      var before := MatrixOf(ran[..n]);
      var results := GetOr(before, ran[n].id, []) + [ran[n].result];
      MatrixKeys(ran[..n]);
      assert Ids(ran) == Ids(ran[..n]) + [ran[n].id];
      assert MatrixOf(ran) == Put(before, ran[n].id, results);
      PutKeys(before, ran[n].id, results);
      PutKeepsNonEmpty(before, ran[n].id, results);
      hide *;
    }
  }

  lemma {:induction false} PutKeepsNonEmpty(matrix: Matrix, id: string, results: seq<Result>)
    requires results != [] && forall i | 0 <= i < |matrix| :: matrix[i].1 != []
    ensures forall i | 0 <= i < |Put(matrix, id, results)| :: Put(matrix, id, results)[i].1 != []
  {
    if matrix != [] && matrix[0].0 != id {
      PutKeepsNonEmpty(matrix[1..], id, results);
      var rest := Put(matrix[1..], id, results);
      forall i | 0 <= i < |rest| + 1 ensures ([matrix[0]] + rest)[i].1 != [] {
        if i > 0 { assert ([matrix[0]] + rest)[i] == rest[i - 1]; }
      }
    }
  }

  lemma {:induction false} BySplitTotal(matrix: Matrix, splits: Dict<string, string>, value: seq<Result> -> int)
    ensures Total(BySplit(matrix, splits, value)) == SumOver(matrix, value)
  {
    if matrix == [] {
    } else {
      BySplitTotal(matrix[1..], splits, value);
      var first := [(SplitOf(splits, matrix[0].0), value(matrix[0].1))];
      assert BySplit(matrix, splits, value) == first + BySplit(matrix[1..], splits, value);
      TotalConcat(first, BySplit(matrix[1..], splits, value));
      assert first[..0] == [];
    }
  }

  lemma {:induction false} TotalConcat(a: Entries, b: Entries)
    ensures Total(a + b) == Total(a) + Total(b)
  {
    if b == [] {
      assert a + b == a;
    } else {
      TotalConcat(a, b[..|b| - 1]);
      assert (a + b)[..|a + b| - 1] == a + b[..|b| - 1];
    }
  }

  lemma {:induction false} SplitKnown(rows: seq<Row>, i: nat)
    requires i < |rows|
    ensures Get(SplitsOf(rows), rows[i].id).Some?
  {
    var n := |rows| - 1;
    if i < n { SplitKnown(rows[..n], i); }
    PutReads(SplitsOf(rows[..n]), rows[n].id, rows[n].split, rows[i].id);
  }

  /** Every task that ran is counted in exactly one of the listed splits. */
  lemma EveryTaskHasASplit(rows: seq<Row>, names: seq<string>, k: nat)
    requires ListsSplits(names, SplitsOf(rows)) && k < |MatrixOf(RanRows(rows))|
    ensures SplitOf(SplitsOf(rows), MatrixOf(RanRows(rows))[k].0) in names
  {
    hide MatrixOf, SplitsOf, SplitOf, RanRows, Get;
    var matrix := MatrixOf(RanRows(rows));
    MatrixKeys(RanRows(rows));
    assert matrix[k].0 == Keys(matrix)[k];
    assert Keys(matrix)[k] in Ids(RanRows(rows));
    var j :| 0 <= j < |RanRows(rows)| && Ids(RanRows(rows))[j] == matrix[k].0;
    assert RanRows(rows)[j] in rows;
    var i :| 0 <= i < |rows| && rows[i] == RanRows(rows)[j];
    SplitKnown(rows, i);
    GetFinds(SplitsOf(rows), matrix[k].0);
    assert SplitOf(SplitsOf(rows), matrix[k].0) == Get(SplitsOf(rows), matrix[k].0).value by {
      GetOrKnown(SplitsOf(rows), matrix[k].0);
    }
  }

  lemma GetOrKnown(splits: Dict<string, string>, id: string)
    requires Get(splits, id).Some?
    ensures SplitOf(splits, id) == Get(splits, id).value
  {
  }

  /** Any per-task number, summed split by split, gives its sum over all tasks that ran. */
  lemma SplitsAddUp(rows: seq<Row>, names: seq<string>, value: seq<Result> -> int)
    requires ListsSplits(names, SplitsOf(rows))
    ensures TotalOver(names, BySplit(MatrixOf(RanRows(rows)), SplitsOf(rows), value))
         == SumOver(MatrixOf(RanRows(rows)), value)
  {
    var matrix := MatrixOf(RanRows(rows));
    var entries := BySplit(matrix, SplitsOf(rows), value);
    forall k | 0 <= k < |entries| ensures entries[k].0 in names {
      EveryTaskHasASplit(rows, names, k);
    }
    SumsByKeyAddUp(names, entries);
    BySplitTotal(matrix, SplitsOf(rows), value);
  }

  lemma {:induction false} OnesCount(matrix: Matrix)
    ensures SumOver(matrix, OneEach) == |matrix|
  {
    if matrix != [] { OnesCount(matrix[1..]); }
  }

  /** The split scores' tasks, runs and deliveries add up to the summary's totals. */
  lemma SummaryAddsUp(rows: seq<Row>, names: seq<string>)
    requires ListsSplits(names, SplitsOf(rows))
    ensures var matrix := MatrixOf(RanRows(rows));
            var splits := SplitsOf(rows);
            && TotalOver(names, BySplit(matrix, splits, OneEach)) == |matrix|
            && TotalOver(names, BySplit(matrix, splits, RunCount)) == |RanRows(rows)|
            && TotalOver(names, BySplit(matrix, splits, PassCount)) == Passes(ResultsOf(RanRows(rows)))
  {
    SplitsAddUp(rows, names, OneEach);
    SplitsAddUp(rows, names, RunCount);
    SplitsAddUp(rows, names, PassCount);
    OnesCount(MatrixOf(RanRows(rows)));
    PerTaskAddsUp(RanRows(rows));
  }

  lemma {:induction false} MatrixDistinct(ran: seq<Row>)
    ensures DistinctKeys(MatrixOf(ran))
  {
    hide Put, GetOr, DistinctKeys;
    if ran == [] {
      NoKeys();
    } else {
      var n := |ran| - 1;
      var before := MatrixOf(ran[..n]);
      MatrixDistinct(ran[..n]);
      PutKeepsDistinct(before, ran[n].id, GetOr(before, ran[n].id, []) + [ran[n].result]);
    }
  }

  lemma NoKeys()
    ensures DistinctKeys<string, seq<Result>>([])
  {
  }
}
