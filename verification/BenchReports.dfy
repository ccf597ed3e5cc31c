/** From the bench's rows to the reports the merge rule compares. */
module BenchReports {
  import opened Dicts
  import opened Bench
  import BenchSummaries
  import HarnessVerdict

  /** The per-task part of a summary. */
  function PerTaskOf(matrix: Matrix, splits: Dict<string, string>): (r: HarnessVerdict.PerTask)
    ensures |r| == |matrix|
    ensures forall i | 0 <= i < |r| :: r[i] == (matrix[i].0, ScoreOfTask(matrix[i], splits))
  {
    seq(|matrix|, i requires 0 <= i < |matrix| => (matrix[i].0, ScoreOfTask(matrix[i], splits)))
  }

  function ScoreOfTask(entry: (string, seq<Result>), splits: Dict<string, string>): (r: HarnessVerdict.TaskScore) {
    HarnessVerdict.TaskScore(SplitOf(splits, entry.0), Passes(entry.1), |entry.1|)
  }

  function ReportOf(rows: seq<Row>): (r: HarnessVerdict.Report) {
    var ran := RanRows(rows);
    HarnessVerdict.Report(PerTaskOf(MatrixOf(ran), SplitsOf(rows)), Passes(ResultsOf(ran)), Spent(ran))
  }

  lemma {:induction false} TotalIsSum(matrix: Matrix, splits: Dict<string, string>)
    ensures HarnessVerdict.DeliveredTotal(PerTaskOf(matrix, splits)) == SumOver(matrix, PassCount)
  {
    if matrix != [] {
      TotalIsSum(matrix[1..], splits);
      assert PerTaskOf(matrix, splits)[1..] == PerTaskOf(matrix[1..], splits);
    }
  }

  lemma {:induction false} CostNotNegative(ran: seq<Row>)
    requires forall row | row in ran :: row.cost >= 0.0
    ensures Spent(ran) >= 0.0
  {
    if ran != [] { CostNotNegative(ran[..|ran| - 1]); }
  }

  /** Every report the bench writes meets what the merge rule's monotonicity rests on: one
      entry per task, and a total that is the sum over the tasks. */
  lemma ReportIsConsistent(rows: seq<Row>)
    requires forall row | row in rows :: row.cost >= 0.0
    ensures HarnessVerdict.Consistent(ReportOf(rows)) && DistinctKeys(ReportOf(rows).perTask)
  {
    var ran := RanRows(rows);
    MatrixDistinct(ran);
    TotalIsSum(MatrixOf(ran), SplitsOf(rows));
    PerTaskAddsUp(ran);
    CostNotNegative(ran);
  }

  lemma TableAt(ran: seq<Row>, k: nat)
    requires k < |MatrixOf(ran)|
    ensures MatrixOf(ran)[k].1 == ResultsOf(BenchSummaries.RowsOfTask(ran, MatrixOf(ran)[k].0))
  {
    hide MatrixOf, ResultsOf, Get;
    MatrixDistinct(ran);
    GetAt(MatrixOf(ran), k);
    BenchSummaries.TableEntry(ran, MatrixOf(ran)[k].0);
  }

  /** The report the merge rule reads counts rows: per task its rows that ran and those of them
      that passed, in all the rows that passed; and it has an entry for every task that ran. */
  lemma ReportCountsRows(rows: seq<Row>)
    ensures var report, ran := ReportOf(rows), RanRows(rows);
            && report.delivered == |BenchSummaries.PassPlaces(ran)|
            && |report.perTask| == |BenchSummaries.TaskNames(ran)|
            && forall i | 0 <= i < |report.perTask| ::
                 var (id, score) := report.perTask[i];
                 var own := BenchSummaries.RowsOfTask(ran, id);
                 score.runs == |own| && score.delivered == |BenchSummaries.PassPlaces(own)|
                 && score.split == SplitOf(SplitsOf(rows), id)
  {
    var ran := RanRows(rows);
    hide MatrixOf, RanRows, SplitsOf, SplitOf, Passes, Spent;
    BenchSummaries.PassesArePlaces(ran);
    BenchSummaries.TasksAreNames(ran);
    forall i | 0 <= i < |MatrixOf(ran)|
      ensures var own := BenchSummaries.RowsOfTask(ran, MatrixOf(ran)[i].0);
              |MatrixOf(ran)[i].1| == |own| && Passes(MatrixOf(ran)[i].1) == |BenchSummaries.PassPlaces(own)|
    {
      TableAt(ran, i);
      BenchSummaries.PassesArePlaces(BenchSummaries.RowsOfTask(ran, MatrixOf(ran)[i].0));
    }
  }

  /** A bench that paid anything never merges against itself. */
  lemma PaidBenchNeverMergesAgainstItself(rows: seq<Row>, regression: set<string>)
    requires (forall row | row in rows :: row.cost >= 0.0) && Spent(RanRows(rows)) > 0.0
    ensures HarnessVerdict.Judge(ReportOf(rows), ReportOf(rows), regression) != HarnessVerdict.Mergeable
  {
    ReportIsConsistent(rows);
    HarnessVerdict.SelfComparison(ReportOf(rows), regression);
  }
}
