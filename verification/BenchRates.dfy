/** When the bench's two pass rates are in order: pass@1 <= pass@k. */
module BenchRates {
  import opened Dicts
  import opened Bench

  function PassAt1(rows: seq<Row>): (r: real) {
    Rate(Passes(ResultsOf(RanRows(rows))), |RanRows(rows)|)
  }

  function PassAtK(rows: seq<Row>): (r: real) {
    var matrix := MatrixOf(RanRows(rows));
    Rate(TasksPassed(matrix), |matrix|)
  }

  /** Every task that ran has the same number of scored runs. */
  ghost predicate EqualRuns(matrix: Matrix) {
    forall i, j | 0 <= i < |matrix| && 0 <= j < |matrix| :: |matrix[i].1| == |matrix[j].1|
  }

  // ---- equal runs -------------------------------------------------------------------------

  lemma {:induction false} EqualRunsCounts(matrix: Matrix, m: nat)
    requires forall i | 0 <= i < |matrix| :: |matrix[i].1| == m
    ensures SumOver(matrix, RunCount) == m * |matrix|
    ensures SumOver(matrix, PassCount) <= m * TasksPassed(matrix)
    ensures 0 <= TasksPassed(matrix) <= |matrix|
  {
    hide Passes;
    if matrix != [] {
      EqualRunsCounts(matrix[1..], m);
      var rest := TasksPassed(matrix[1..]);
      assert |matrix[0].1| == m;
      assert m * |matrix| == m + m * |matrix[1..]|;
      assert m * (1 + rest) == m + m * rest;
    }
  }

  /** a/b against c/d, by cross products. */
  lemma RatesCompare(a: int, b: int, c: int, d: int)
    requires b > 0 && d > 0
    ensures Rate(a, b) <= Rate(c, d) <==> a * d <= c * b
  {
    var x, y := Rate(a, b), Rate(c, d);
    assert x * b as real == a as real && y * d as real == c as real;
    Scale(x, y, (b * d) as real);
    assert x * (b * d) as real == (a * d) as real by { Regroup(x, b, d, a); }
    assert y * (b * d) as real == (c * b) as real by { Regroup(y, d, b, c); }
  }

  lemma Scale(x: real, y: real, n: real)
    requires n > 0.0
    ensures x <= y <==> x * n <= y * n
  {
    assert y * n - x * n == (y - x) * n;
  }

  lemma Regroup(x: real, b: int, d: int, a: int)
    requires x * b as real == a as real
    ensures x * (b * d) as real == (a * d) as real
  {
    assert (b * d) as real == b as real * d as real;
    assert x * (b as real * d as real) == (x * b as real) * d as real;
  }

  lemma EqualRunsCompare(delivered: int, passed: int, tasks: int, m: int)
    requires tasks > 0 && m > 0 && delivered <= m * passed && 0 <= passed <= tasks
    ensures Rate(delivered, m * tasks) <= Rate(passed, tasks) <= 1.0
  {
    assert m * tasks > 0;
    RatesCompare(delivered, m * tasks, passed, tasks);
    RatesCompare(passed, tasks, 1, 1);
    assert delivered * tasks <= (m * passed) * tasks;
    assert (m * passed) * tasks == passed * (m * tasks);
  }

  /** When every task has the same number of scored runs, pass@1 <= pass@k <= 1. */
  lemma PassRatesOrdered(rows: seq<Row>)
    requires EqualRuns(MatrixOf(RanRows(rows)))
    ensures PassAt1(rows) <= PassAtK(rows) <= 1.0
  {
    hide MatrixOf, RanRows, SumOver, Passes, TasksPassed, Rate;
    var ran := RanRows(rows);
    var matrix := MatrixOf(ran);
    PerTaskAddsUp(ran);
    MatrixKeys(ran);
    if matrix == [] {
      EmptyMatrix(ran);
    } else {
      var m := |matrix[0].1|;
      EqualRunsCounts(matrix, m);
      EqualRunsCompare(Passes(ResultsOf(ran)), TasksPassed(matrix), |matrix|, m);
    }
  }

  lemma EmptyMatrix(ran: seq<Row>)
    requires MatrixOf(ran) == []
    ensures ran == [] && TasksPassed(MatrixOf(ran)) == 0 && Rate(0, 0) == 0.0 && Passes(ResultsOf(ran)) == 0
  {
    PerTaskAddsUp(ran);
  }

  // ---- the same runs with other outcomes -----------------------------------------------------

  /** The same runs, setup errors included; the scored ones may end differently. */
  ghost predicate SameRuns(a: seq<Row>, b: seq<Row>) {
    |a| == |b| && forall i | 0 <= i < |a| :: a[i].id == b[i].id && (a[i].result == SetupError <==> b[i].result == SetupError)
  }

  ghost predicate SameShape(a: Matrix, b: Matrix) {
    |a| == |b| && forall i | 0 <= i < |a| :: a[i].0 == b[i].0 && |a[i].1| == |b[i].1|
  }

  predicate SameRun(a: Row, b: Row) {
    a.id == b.id && (a.result == SetupError <==> b.result == SetupError)
  }

  lemma RanOneMore(rows: seq<Row>, row: Row)
    ensures RanRows(rows + [row]) == if row.result == SetupError then RanRows(rows) else RanRows(rows) + [row]
  {
    assert (rows + [row])[..|rows|] == rows;
    assert RanRows(rows) + [] == RanRows(rows);
  }

  lemma SameOneMore(a: seq<Row>, b: seq<Row>, x: Row, y: Row)
    requires |a| == |b|
    ensures SameRuns(a + [x], b + [y]) <==> SameRuns(a, b) && SameRun(x, y)
  {
    var p, q := a + [x], b + [y];
    if SameRuns(p, q) {
      forall i | 0 <= i < |a| ensures a[i].id == b[i].id && (a[i].result == SetupError <==> b[i].result == SetupError) {
        assert p[i].id == q[i].id;
      }
      assert p[|a|].id == q[|a|].id;
    }
  }

  lemma {:induction false} RanSame(a: seq<Row>, b: seq<Row>)
    requires SameRuns(a, b)
    ensures SameRuns(RanRows(a), RanRows(b))
  {
    hide RanRows, SameRuns;
    if a == [] {
      SameRunsLength(a, b);
      NothingRan();
    } else {
      var n := |a| - 1;
      SameRunsLength(a, b);
      assert a == a[..n] + [a[n]] && b == b[..n] + [b[n]];
      SameOneMore(a[..n], b[..n], a[n], b[n]);
      RanSame(a[..n], b[..n]);
      SameRunsLength(RanRows(a[..n]), RanRows(b[..n]));
      RanOneMore(a[..n], a[n]);
      RanOneMore(b[..n], b[n]);
      SameOneMore(RanRows(a[..n]), RanRows(b[..n]), a[n], b[n]);
    }
  }

  lemma SameRunsLength(a: seq<Row>, b: seq<Row>)
    requires SameRuns(a, b)
    ensures |a| == |b|
  {
  }

  lemma NothingRan()
    ensures RanRows([]) == [] && SameRuns([], [])
  {
  }

  lemma ShapeOneMore(x: (string, seq<Result>), y: (string, seq<Result>), a: Matrix, b: Matrix)
    requires SameShape(a, b) && x.0 == y.0 && |x.1| == |y.1|
    ensures SameShape([x] + a, [y] + b)
  {
    forall i | 0 <= i < |a| + 1 ensures ([x] + a)[i].0 == ([y] + b)[i].0 && |([x] + a)[i].1| == |([y] + b)[i].1| {
      if i > 0 { assert a[i - 1].0 == b[i - 1].0; }
    }
  }

  lemma {:induction false} PutSameShape(a: Matrix, b: Matrix, id: string, v: seq<Result>, w: seq<Result>)
    requires SameShape(a, b) && |v| == |w|
    ensures SameShape(Put(a, id, v), Put(b, id, w))
  {
    if a != [] {
      assert SameShape(a[1..], b[1..]);
      if a[0].0 == id {
        ShapeOneMore((id, v), (id, w), a[1..], b[1..]);
      } else {
        PutSameShape(a[1..], b[1..], id, v, w);
        ShapeOneMore(a[0], b[0], Put(a[1..], id, v), Put(b[1..], id, w));
      }
    }
  }

  lemma {:induction false} GetSameShape(a: Matrix, b: Matrix, id: string)
    requires SameShape(a, b)
    ensures |GetOr(a, id, [])| == |GetOr(b, id, [])|
  {
    if a != [] && a[0].0 != id {
      assert SameShape(a[1..], b[1..]);
      GetSameShape(a[1..], b[1..], id);
    }
  }

  lemma {:induction false} MatrixSameShape(a: seq<Row>, b: seq<Row>)
    requires SameRuns(a, b)
    ensures SameShape(MatrixOf(a), MatrixOf(b))
  {
    hide Put, GetOr;
    if a != [] {
      var n := |a| - 1;
      var id := a[n].id;
      var before, after := MatrixOf(a[..n]), MatrixOf(b[..n]);
      MatrixSameShape(a[..n], b[..n]);
      GetSameShape(before, after, id);
      PutSameShape(before, after, id, GetOr(before, id, []) + [a[n].result], GetOr(after, id, []) + [b[n].result]);
    }
  }

  // ---- one task delivers everything, the others nothing ------------------------------------------

  function AsIfOnly(row: Row, id: string): (r: Row) {
    if row.result == SetupError then row
    else row.(result := if row.id == id then Pass else Miss("tests_fail"))
  }

  function OnlyTask(rows: seq<Row>, id: string): (r: seq<Row>)
    ensures |r| == |rows| && forall i | 0 <= i < |r| :: r[i] == AsIfOnly(rows[i], id)
  {
    seq(|rows|, i requires 0 <= i < |rows| => AsIfOnly(rows[i], id))
  }

  /** The task's runs all passed and no other did. */
  ghost predicate OnlyPasses(matrix: Matrix, id: string) {
    forall i | 0 <= i < |matrix| :: Passes(matrix[i].1) == if matrix[i].0 == id then |matrix[i].1| else 0
  }

  lemma {:induction false} PutOnly(matrix: Matrix, key: string, results: seq<Result>, id: string)
    requires OnlyPasses(matrix, id) && Passes(results) == if key == id then |results| else 0
    ensures OnlyPasses(Put(matrix, key, results), id)
    ensures Passes(GetOr(matrix, key, [])) == if key == id then |GetOr(matrix, key, [])| else 0
  {
    hide Passes;
    NoPasses();
    if matrix != [] && matrix[0].0 != key {
      PutOnly(matrix[1..], key, results, id);
      var rest := Put(matrix[1..], key, results);
      forall i | 0 <= i < |rest| + 1
        ensures Passes(([matrix[0]] + rest)[i].1) == if ([matrix[0]] + rest)[i].0 == id then |([matrix[0]] + rest)[i].1| else 0
      {
        if i > 0 { assert ([matrix[0]] + rest)[i] == rest[i - 1]; }
      }
    }
  }

  lemma {:induction false} MatrixOnly(ran: seq<Row>, id: string)
    requires forall i | 0 <= i < |ran| :: ran[i].result == Pass <==> ran[i].id == id
    ensures OnlyPasses(MatrixOf(ran), id)
  {
    hide Put, GetOr, Passes;
    if ran != [] {
      var n := |ran| - 1;
      var before := MatrixOf(ran[..n]);
      var earlier := GetOr(before, ran[n].id, []);
      MatrixOnly(ran[..n], id);
      NoPasses();
      SomePasses(ran[n].id == id);
      PutOnly(before, ran[n].id, if ran[n].id == id then [Pass] else [], id);
      PassesOneMore(earlier, ran[n].result);
      PutOnly(before, ran[n].id, earlier + [ran[n].result], id);
    }
  }

  lemma SomePasses(passed: bool)
    ensures passed ==> Passes([Pass]) == 1
  {
    PassesOneMore([], Pass);
    assert [] + [Pass] == [Pass];
  }

  lemma {:induction false} OthersAddNothing(matrix: Matrix, id: string)
    requires OnlyPasses(matrix, id) && id !in Keys(matrix)
    ensures SumOver(matrix, PassCount) == 0 && TasksPassed(matrix) == 0
  {
    hide Passes;
    if matrix != [] {
      assert Keys(matrix)[0] == matrix[0].0;
      assert forall i | 0 <= i < |matrix[1..]| :: Keys(matrix[1..])[i] == Keys(matrix)[i + 1];
      OthersAddNothing(matrix[1..], id);
    }
  }

  lemma {:induction false} OnlyAddsUp(matrix: Matrix, t: nat)
    requires DistinctKeys(matrix) && t < |matrix| && OnlyPasses(matrix, matrix[t].0) && matrix[t].1 != []
    ensures SumOver(matrix, PassCount) == |matrix[t].1| && TasksPassed(matrix) == 1
  {
    hide Passes;
    var rest := matrix[1..];
    assert forall i | 0 <= i < |rest| :: rest[i] == matrix[i + 1];
    if t == 0 {
      assert matrix[0].0 !in Keys(rest);
      OthersAddNothing(rest, matrix[0].0);
    } else {
      assert matrix[0].0 != matrix[t].0;
      OnlyAddsUp(rest, t - 1);
    }
  }

  lemma {:induction false} RanOfOnly(rows: seq<Row>, id: string)
    ensures forall i | 0 <= i < |RanRows(OnlyTask(rows, id))| ::
              RanRows(OnlyTask(rows, id))[i].result == Pass <==> RanRows(OnlyTask(rows, id))[i].id == id
  {
    var ran := RanRows(OnlyTask(rows, id));
    forall i | 0 <= i < |ran| ensures ran[i].result == Pass <==> ran[i].id == id {
      assert ran[i] in ran;
      var j :| 0 <= j < |rows| && OnlyTask(rows, id)[j] == ran[i];
    }
  }

  // ---- unequal runs ----------------------------------------------------------------------------------

  /** The task with the most runs. */
  function Busiest(matrix: Matrix): (t: nat)
    requires matrix != []
    ensures t < |matrix| && forall i | 0 <= i < |matrix| :: |matrix[i].1| <= |matrix[t].1|
  {
    if |matrix| == 1 then 0
    else
      var t := Busiest(matrix[1..]) + 1;
      assert forall i | 0 < i < |matrix| :: matrix[i] == matrix[1..][i - 1];
      if |matrix[0].1| > |matrix[t].1| then 0 else t
  }

  /** With a bound on the runs of each task that one task stays below, so does their sum. */
  lemma {:induction false} RunsBelow(matrix: Matrix, m: nat)
    requires forall i | 0 <= i < |matrix| :: |matrix[i].1| <= m
    ensures SumOver(matrix, RunCount) <= m * |matrix|
    ensures (exists i | 0 <= i < |matrix| :: |matrix[i].1| < m) ==> SumOver(matrix, RunCount) < m * |matrix|
  {
    if matrix != [] {
      var rest := matrix[1..];
      assert forall i | 0 <= i < |rest| :: rest[i] == matrix[i + 1];
      RunsBelow(rest, m);
      assert m * |matrix| == m + m * |rest|;
      if i :| 0 <= i < |matrix| && |matrix[i].1| < m {
        if i > 0 { assert |rest[i - 1].1| < m; }
      }
    }
  }

  lemma UnequalInverts(rows: seq<Row>) returns (other: seq<Row>)
    requires !EqualRuns(MatrixOf(RanRows(rows)))
    ensures SameRuns(rows, other) && PassAt1(other) > PassAtK(other)
  {
    hide MatrixOf, RanRows, Passes, TasksPassed, SumOver, Rate, OnlyPasses, DistinctKeys;
    var matrix := MatrixOf(RanRows(rows));
    var t := Busiest(matrix);
    var m := |matrix[t].1|;
    other := OnlyTask(rows, matrix[t].0);
    var ran := RanRows(other);
    var result := MatrixOf(ran);
    RanSame(rows, other);
    MatrixSameShape(RanRows(rows), ran);
    MatrixDistinct(ran);
    MatrixKeys(ran);
    RanOfOnly(rows, matrix[t].0);
    MatrixOnly(ran, matrix[t].0);
    OnlyAddsUp(result, t);
    PerTaskAddsUp(ran);
    RunsBelow(result, m);
    assert exists i | 0 <= i < |result| :: |result[i].1| < m by {
      var i, j :| 0 <= i < |matrix| && 0 <= j < |matrix| && |matrix[i].1| != |matrix[j].1|;
      assert |result[i].1| < m || |result[j].1| < m;
    }
    assert |ran| > 0 by { if |ran| == 0 { Nothing(ran); } }
    RatesCompare(m, |ran|, 1, |result|);
  }

  lemma Nothing(ran: seq<Row>)
    requires |ran| == 0
    ensures MatrixOf(ran) == []
  {
  }

  /** The order, exactly: pass@1 <= pass@k holds whatever the scored runs come to iff every task
      that ran has the same number of them. */
  lemma RatesOrderedExactly(rows: seq<Row>)
    ensures (forall other | SameRuns(rows, other) :: PassAt1(other) <= PassAtK(other))
       <==> EqualRuns(MatrixOf(RanRows(rows)))
  {
    hide MatrixOf, RanRows, PassAt1, PassAtK;
    if EqualRuns(MatrixOf(RanRows(rows))) {
      forall other | SameRuns(rows, other) ensures PassAt1(other) <= PassAtK(other) {
        RanSame(rows, other);
        MatrixSameShape(RanRows(rows), RanRows(other));
        PassRatesOrdered(other);
      }
    } else {
      var other := UnequalInverts(rows);
    }
  }

  // ---- benches -----------------------------------------------------------------------------------------

  lemma {:induction false} AllRan(rows: seq<Row>)
    requires forall i | 0 <= i < |rows| :: rows[i].result != SetupError
    ensures RanRows(rows) == rows
  {
    hide RanRows;
    if rows == [] {
      NothingRan();
    } else {
      var n := |rows| - 1;
      assert rows == rows[..n] + [rows[n]];
      AllRan(rows[..n]);
      RanOneMore(rows[..n], rows[n]);
    }
  }

  ghost predicate FollowsSchedule(rows: seq<Row>, schedule: seq<(nat, Task)>) {
    |rows| <= |schedule| && forall k | 0 <= k < |rows| :: rows[k].id == schedule[k].1.id
  }

  /** A task's scored runs are its attempts. */
  lemma {:induction false} RunsAreAttempts(rows: seq<Row>, schedule: seq<(nat, Task)>, id: string)
    requires FollowsSchedule(rows, schedule)
    ensures |GetOr(MatrixOf(rows), id, [])| == Attempts(schedule[..|rows|], id)
  {
    hide Put, Get, MatrixOf;
    if rows == [] {
      Nothing(rows);
      NothingToGet(id);
    } else {
      var n := |rows| - 1;
      var earlier := GetOr(MatrixOf(rows[..n]), rows[n].id, []);
      assert rows == rows[..n] + [rows[n]];
      RunsAreAttempts(rows[..n], schedule, id);
      MatrixOneMore(rows[..n], rows[n]);
      PutReads(MatrixOf(rows[..n]), rows[n].id, earlier + [rows[n].result], id);
      assert schedule[..n + 1][..n] == schedule[..n];
    }
  }

  lemma NothingToGet(id: string)
    ensures Get<string, seq<Result>>([], id).None?
  {
  }

  lemma {:induction false} ScheduledTask(tasks: seq<Task>, repeat: nat, k: nat) returns (i: nat)
    requires k < |Schedule(tasks, repeat)|
    ensures i < |tasks| && Schedule(tasks, repeat)[k].1 == tasks[i]
  {
    var n := |Schedule(tasks, repeat - 1)|;
    if k < n { i := ScheduledTask(tasks, repeat - 1, k); } else { i := k - n; }
  }

  lemma RowsFollow(rows: seq<Row>, schedule: seq<(nat, Task)>, budget: real, run: Runner)
    requires RowsOfRuns(rows, schedule, budget, run)
    ensures FollowsSchedule(rows, schedule)
  {
    hide Spent;
    forall k | 0 <= k < |rows| ensures rows[k].id == schedule[k].1.id {
      RowAt(rows, schedule, budget, run, k);
    }
    RowsFit(rows, schedule, budget, run);
  }

  lemma RowsFit(rows: seq<Row>, schedule: seq<(nat, Task)>, budget: real, run: Runner)
    requires RowsOfRuns(rows, schedule, budget, run)
    ensures |rows| <= |schedule|
  {
  }

  /** A bench that its budget does not cut and whose setups all work has its rates in order,
      whatever its runs come to. */
  lemma UncutBenchIsOrdered(rows: seq<Row>, tasks: seq<Task>, repeat: nat, budget: real, run: Runner)
    requires BenchRows(rows, tasks, repeat, budget, run) && DistinctTasks(tasks)
    requires |rows| == |Schedule(tasks, repeat)| && forall i | 0 <= i < |rows| :: rows[i].result != SetupError
    ensures PassAt1(rows) <= PassAtK(rows) <= 1.0
  {
    hide MatrixOf, RanRows, PassAt1, PassAtK, Schedule, RowsOfRuns, DistinctTasks, Attempts, Spent, GetOr;
    var schedule := Schedule(tasks, repeat);
    var matrix := MatrixOf(rows);
    AllRan(rows);
    MatrixDistinct(rows);
    MatrixKeys(rows);
    RowsFollow(rows, schedule, budget, run);
    forall i | 0 <= i < |matrix| ensures |matrix[i].1| == repeat {
      var id := matrix[i].0;
      assert Keys(matrix)[i] in Ids(rows);
      var k :| 0 <= k < |rows| && Ids(rows)[k] == id;
      var t := ScheduledTask(tasks, repeat, k);
      RunsAreAttempts(rows, schedule, id);
      assert schedule[..|rows|] == schedule;
      FullSchedule(tasks, repeat, t);
      GetOrAt(matrix, i);
    }
    PassRatesOrdered(rows);
  }

  lemma GetOrAt(matrix: Matrix, i: nat)
    requires DistinctKeys(matrix) && i < |matrix|
    ensures GetOr(matrix, matrix[i].0, []) == matrix[i].1
  {
    GetAt(matrix, i);
  }

  /** Runs that cost one, or what is left; only the second fails. */
  function SecondFails(k: nat, cap: real): (o: Outcome) {
    Ran(k != 1, "tests_fail", if cap < 1.0 then cap else 1.0)
  }

  const TWO_TASKS := [Task("a", "dev"), Task("b", "dev")]

  /** A budget that ends the bench within a repetition can put them out of order: task a twice,
      passing, and task b once, failing, give pass@1 = 2/3 and pass@k = 1/2. */
  lemma CutBenchCanInvert() returns (rows: seq<Row>)
    ensures BenchRows(rows, TWO_TASKS, 2, 3.0, SecondFails) && RespectsCap(SecondFails)
    ensures PassAt1(rows) > PassAtK(rows)
  {
    hide *;
    var a, b := Row("a", "dev", 0, Pass, 1.0), Row("b", "dev", 0, Miss("tests_fail"), 1.0);
    var c := a.(rep := 1);
    rows := [a, b, c];
    CutRows(a, b, c);
    CheapRuns();
    AllRan(rows);
    CutMatrix(a, b, c);
    CutPasses(a, b, c);
    TwoOfThree(rows);
  }

  lemma CutPasses(a: Row, b: Row, c: Row)
    requires a.result == c.result == Pass && b.result != Pass
    ensures Passes(ResultsOf([a, b, c])) == 2
  {
    hide *;
    assert [] + [a] == [a] && [a] + [b] == [a, b] && [a, b] + [c] == [a, b, c];
    ResultsOneMore([], a);
    ResultsOneMore([a], b);
    ResultsOneMore([a, b], c);
    NothingTabulated();
  }

  lemma TwoOfThree(rows: seq<Row>)
    requires |rows| == 3 && RanRows(rows) == rows && Passes(ResultsOf(rows)) == 2
    requires |MatrixOf(rows)| == 2 && TasksPassed(MatrixOf(rows)) == 1
    ensures PassAt1(rows) > PassAtK(rows)
  {
    hide Passes, ResultsOf, RanRows, MatrixOf, TasksPassed, Rate;
    RatesCompare(2, 3, 1, 2);
  }

  lemma CheapRuns()
    ensures RespectsCap(SecondFails)
  {
  }

  lemma CutRows(a: Row, b: Row, c: Row)
    requires a == Row("a", "dev", 0, Pass, 1.0) && b == Row("b", "dev", 0, Miss("tests_fail"), 1.0) && c == a.(rep := 1)
    ensures BenchRows([a, b, c], TWO_TASKS, 2, 3.0, SecondFails)
  {
    var schedule := Schedule(TWO_TASKS, 2);
    var first, second := Round(TWO_TASKS, 0), Round(TWO_TASKS, 1);
    assert Schedule(TWO_TASKS, 0) == [] && Schedule(TWO_TASKS, 1) == [] + first && schedule == [] + first + second;
    assert |schedule| == 4 && schedule[0] == (0, TWO_TASKS[0]) && schedule[1] == (0, TWO_TASKS[1]);
    assert schedule[2] == (1, TWO_TASKS[0]);
    hide Schedule, Round, Spent;
    NothingSpent(schedule, 3.0, SecondFails);
    assert [] + [a] == [a] && [a] + [b] == [a, b] && [a, b] + [c] == [a, b, c];
    OneRunMore([], schedule, 3.0, SecondFails);
    OneRowMore([], a, 3.0);
    OneRunMore([a], schedule, 3.0, SecondFails);
    OneRowMore([a], b, 3.0);
    OneRunMore([a, b], schedule, 3.0, SecondFails);
    OneRowMore([a, b], c, 3.0);
  }

  lemma CutMatrix(a: Row, b: Row, c: Row)
    requires a.id != b.id && c.id == a.id && a.result == c.result == Pass && b.result != Pass
    ensures |MatrixOf([a, b, c])| == 2 && TasksPassed(MatrixOf([a, b, c])) == 1
  {
    var none: seq<Result> := [];
    var one: Matrix := [(a.id, [Pass])];
    var last := (b.id, [b.result]);
    assert MatrixOf([a]) == one by {
      MatrixOneMore([], a);
      assert [] + [a] == [a] && none + [Pass] == [Pass];
    }
    assert MatrixOf([a, b]) == one + [last] by {
      MatrixOneMore([a], b);
      assert [a] + [b] == [a, b] && one[1..] == [] && Get(one, b.id).None?;
      assert GetOr(one, b.id, []) == none && none + [b.result] == [b.result];
      PutKeys(one, b.id, [b.result]);
    }
    assert MatrixOf([a, b, c]) == [(a.id, [Pass, Pass])] + [last] by {
      MatrixOneMore([a, b], c);
      assert [a, b] + [c] == [a, b, c] && [Pass] + [Pass] == [Pass, Pass];
      assert (one + [last])[1..] == [last];
    }
    SumOneMore([], (a.id, [Pass, Pass]), AnyPass);
    SumOneMore([(a.id, [Pass, Pass])], last, AnyPass);
    assert [] + [(a.id, [Pass, Pass])] == [(a.id, [Pass, Pass])];
  }
}
