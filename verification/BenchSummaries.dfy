/** What the numbers of a bench summary count, and that the split scores add up to the totals. */
module BenchSummaries {
  import opened Text
  import opened Dicts
  import opened KeyedSums
  import opened Bench

  // ---- counting the rows themselves -----------------------------------------------------------

  /** The places of the rows that passed. */
  ghost function PassPlaces(rows: seq<Row>): (r: set<nat>) {
    set i: nat | i < |rows| && rows[i].result == Pass
  }

  /** The tasks that have a row. */
  ghost function TaskNames(rows: seq<Row>): (r: set<string>) {
    set i | 0 <= i < |rows| :: rows[i].id
  }

  /** The tasks that have a row that passed. */
  ghost function PassedNames(rows: seq<Row>): (r: set<string>) {
    set i | 0 <= i < |rows| && rows[i].result == Pass :: rows[i].id
  }

  /** The rows of one task, in order. */
  ghost function RowsOfTask(ran: seq<Row>, id: string): (r: seq<Row>) {
    if ran == [] then []
    else
      var last := ran[|ran| - 1];
      RowsOfTask(ran[..|ran| - 1], id) + if last.id == id then [last] else []
  }

  /** The rows of the tasks of one split, in order. */
  ghost function OwnRows(ran: seq<Row>, splits: Dict<string, string>, split: string): (r: seq<Row>)
    ensures forall row :: row in r <==> row in ran && SplitOf(splits, row.id) == split
  {
    if ran == [] then []
    else
      var last := ran[|ran| - 1];
      OwnRows(ran[..|ran| - 1], splits, split) + if SplitOf(splits, last.id) == split then [last] else []
  }

  lemma {:induction false} PassesArePlaces(ran: seq<Row>)
    ensures Passes(ResultsOf(ran)) == |PassPlaces(ran)|
  {
    if ran != [] {
      hide Passes, PassPlaces;
      var n := |ran| - 1;
      PassesArePlaces(ran[..n]);
      ResultsOneMore(ran[..n], ran[n]);
      assert ran[..n] + [ran[n]] == ran;
      PlacesOneMore(ran[..n], ran[n]);
    } else {
      assert PassPlaces(ran) == {};
    }
  }

  lemma PlacesOneMore(rows: seq<Row>, row: Row)
    ensures |PassPlaces(rows + [row])| == |PassPlaces(rows)| + if row.result == Pass then 1 else 0
  {
    assert forall i: nat | i < |rows| :: (rows + [row])[i] == rows[i];
    assert PassPlaces(rows + [row]) == PassPlaces(rows) + if row.result == Pass then {|rows|} else {};
  }

  /** The places of the rows that ran: all but the setup errors. */
  ghost function RanPlaces(rows: seq<Row>): (r: set<nat>) {
    set i: nat | i < |rows| && rows[i].result != SetupError
  }

  /** As many rows ran as there are rows without a setup error. */
  lemma {:induction false} RanArePlaces(rows: seq<Row>)
    ensures |RanRows(rows)| == |RanPlaces(rows)|
  {
    if rows != [] {
      var n := |rows| - 1;
      RanArePlaces(rows[..n]);
      RanOneMore(rows[..n], rows[n]);
      assert rows[..n] + [rows[n]] == rows;
    } else {
      assert RanPlaces(rows) == {};
    }
  }

  lemma RanOneMore(rows: seq<Row>, row: Row)
    ensures |RanPlaces(rows + [row])| == |RanPlaces(rows)| + if row.result != SetupError then 1 else 0
  {
    assert forall i: nat | i < |rows| :: (rows + [row])[i] == rows[i];
    assert RanPlaces(rows + [row]) == RanPlaces(rows) + if row.result != SetupError then {|rows|} else {};
  }

  /** A task lies in the split of its last row. */
  lemma {:induction false} LastRowSplits(rows: seq<Row>, k: nat)
    requires k < |rows| && forall i | k < i < |rows| :: rows[i].id != rows[k].id
    ensures SplitOf(SplitsOf(rows), rows[k].id) == rows[k].split
  {
    var n := |rows| - 1;
    PutReads(SplitsOf(rows[..n]), rows[n].id, rows[n].split, rows[k].id);
    if k < n { LastRowSplits(rows[..n], k); }
  }

  // ---- the table by task ----------------------------------------------------------------------

  lemma TaskRowsOneMore(ran: seq<Row>, row: Row, id: string)
    ensures RowsOfTask(ran + [row], id) == RowsOfTask(ran, id) + if row.id == id then [row] else []
  {
    assert (ran + [row])[..|ran|] == ran;
  }

  lemma ResultsJoin(ran: seq<Row>, row: Row)
    ensures ResultsOf(ran + [row]) == ResultsOf(ran) + [row.result]
  {
  }

  lemma GetOrPut(matrix: Matrix, key: string, results: seq<Result>, id: string)
    ensures GetOr(Put(matrix, key, results), id, []) == if id == key then results else GetOr(matrix, id, [])
  {
    PutReads(matrix, key, results, id);
  }

  /** The table holds for each task the results of its rows, in order. */
  lemma {:induction false} TableEntry(ran: seq<Row>, id: string)
    ensures GetOr(MatrixOf(ran), id, []) == ResultsOf(RowsOfTask(ran, id))
  {
    if ran != [] {
      hide Put, GetOr, MatrixOf, RowsOfTask, ResultsOf;
      var n := |ran| - 1;
      TableEntry(ran[..n], id);
      assert ran[..n] + [ran[n]] == ran;
      MatrixOneMore(ran[..n], ran[n]);
      TaskRowsOneMore(ran[..n], ran[n], id);
      ResultsJoin(RowsOfTask(ran[..n], id), ran[n]);
      GetOrPut(MatrixOf(ran[..n]), ran[n].id, GetOr(MatrixOf(ran[..n]), ran[n].id, []) + [ran[n].result], id);
      assert RowsOfTask(ran[..n], id) + [] == RowsOfTask(ran[..n], id);
    }
  }

  lemma {:induction false} TaskRowsExactly(ran: seq<Row>, id: string)
    ensures forall row :: row in RowsOfTask(ran, id) <==> row in ran && row.id == id
  {
    if ran != [] {
      TaskRowsExactly(ran[..|ran| - 1], id);
      assert ran == ran[..|ran| - 1] + [ran[|ran| - 1]];
    }
  }

  lemma {:induction false} SizeOfKeys(matrix: Matrix)
    requires DistinctKeys(matrix)
    ensures |set i | 0 <= i < |matrix| :: matrix[i].0| == |matrix|
  {
    if matrix != [] {
      var n := |matrix| - 1;
      SizeOfKeys(matrix[..n]);
      var before := set i | 0 <= i < |matrix[..n]| :: matrix[..n][i].0;
      var all := set i | 0 <= i < |matrix| :: matrix[i].0;
      KeysOneMore(matrix, before, all);
    }
  }

  lemma KeysOneMore(matrix: Matrix, before: set<string>, all: set<string>)
    requires matrix != [] && DistinctKeys(matrix)
    requires var m := matrix[..|matrix| - 1]; before == set i | 0 <= i < |m| :: m[i].0
    requires all == set i | 0 <= i < |matrix| :: matrix[i].0
    ensures all == before + {matrix[|matrix| - 1].0} && matrix[|matrix| - 1].0 !in before
  {
    var n := |matrix| - 1;
    forall k ensures k in all <==> k in before || k == matrix[n].0 {
      if i :| 0 <= i < n && matrix[i].0 == k { assert matrix[..n][i].0 == k; }
    }
  }

  /** As many tasks ran as there are tasks with a row. */
  lemma TasksAreNames(ran: seq<Row>)
    ensures |MatrixOf(ran)| == |TaskNames(ran)|
  {
    hide MatrixOf;
    var matrix := MatrixOf(ran);
    MatrixDistinct(ran);
    MatrixKeys(ran);
    SizeOfKeys(matrix);
    var names := set i | 0 <= i < |matrix| :: matrix[i].0;
    forall id ensures id in names <==> id in TaskNames(ran) {
      assert id in names <==> id in Keys(matrix);
      assert id in TaskNames(ran) <==> id in Ids(ran);
    }
    assert names == TaskNames(ran);
  }

  // ---- tasks that passed ------------------------------------------------------------------------

  lemma {:induction false} PassedCounts(matrix: Matrix)
    requires DistinctKeys(matrix)
    ensures TasksPassed(matrix) == |set i | 0 <= i < |matrix| && Pass in matrix[i].1 :: matrix[i].0|
  {
    if matrix != [] {
      var n := |matrix| - 1;
      PassedCounts(matrix[..n]);
      SumOneMore(matrix[..n], matrix[n], AnyPass);
      assert matrix[..n] + [matrix[n]] == matrix;
      PassedOneMore(matrix, set i | 0 <= i < |matrix[..n]| && Pass in matrix[..n][i].1 :: matrix[..n][i].0,
                    set i | 0 <= i < |matrix| && Pass in matrix[i].1 :: matrix[i].0);
    }
  }

  lemma PassedOneMore(matrix: Matrix, before: set<string>, all: set<string>)
    requires matrix != [] && DistinctKeys(matrix)
    requires var m := matrix[..|matrix| - 1]; before == set i | 0 <= i < |m| && Pass in m[i].1 :: m[i].0
    requires all == set i | 0 <= i < |matrix| && Pass in matrix[i].1 :: matrix[i].0
    ensures var last := matrix[|matrix| - 1];
            && all == before + (if Pass in last.1 then {last.0} else {})
            && last.0 !in before
  {
    var n := |matrix| - 1;
    forall k ensures k in all <==> k in before || (k == matrix[n].0 && Pass in matrix[n].1) {
      if i :| 0 <= i < n && matrix[i].0 == k && Pass in matrix[i].1 { assert matrix[..n][i].0 == k; }
    }
  }

  lemma PassInRows(ran: seq<Row>, id: string)
    ensures Pass in ResultsOf(RowsOfTask(ran, id)) <==> id in PassedNames(ran)
  {
    hide RowsOfTask;
    TaskRowsExactly(ran, id);
    var rows := RowsOfTask(ran, id);
    if Pass in ResultsOf(rows) {
      var j :| 0 <= j < |rows| && ResultsOf(rows)[j] == Pass;
      assert rows[j] in ran;
    }
    if i :| 0 <= i < |ran| && ran[i].result == Pass && ran[i].id == id {
      assert ran[i] in rows;
      var j :| 0 <= j < |rows| && rows[j] == ran[i];
      assert ResultsOf(rows)[j] == Pass;
    }
  }

  lemma PassInTable(matrix: Matrix, id: string)
    requires DistinctKeys(matrix)
    ensures Pass in GetOr(matrix, id, []) <==> exists i | 0 <= i < |matrix| && Pass in matrix[i].1 :: matrix[i].0 == id
  {
    GetFinds(matrix, id);
    if i :| 0 <= i < |matrix| && Pass in matrix[i].1 && matrix[i].0 == id { GetAt(matrix, i); }
  }

  /** As many tasks passed as there are tasks with a row that passed. */
  lemma PassedAreNames(ran: seq<Row>)
    ensures TasksPassed(MatrixOf(ran)) == |PassedNames(ran)|
  {
    hide MatrixOf, TasksPassed, ResultsOf, RowsOfTask, PassedNames, GetOr;
    var matrix := MatrixOf(ran);
    MatrixDistinct(ran);
    PassedCounts(matrix);
    var passed := set i | 0 <= i < |matrix| && Pass in matrix[i].1 :: matrix[i].0;
    forall id ensures id in passed <==> id in PassedNames(ran) {
      PassInTable(matrix, id);
      TableEntry(ran, id);
      PassInRows(ran, id);
    }
    assert passed == PassedNames(ran);
  }

  // ---- one split ----------------------------------------------------------------------------------

  ghost function InSplit(matrix: Matrix, splits: Dict<string, string>, split: string): (r: Matrix) {
    if matrix == [] then []
    else (if SplitOf(splits, matrix[0].0) == split then [matrix[0]] else []) + InSplit(matrix[1..], splits, split)
  }

  lemma {:induction false} PutInSplit(matrix: Matrix, id: string, results: seq<Result>, splits: Dict<string, string>,
                                      split: string)
    ensures InSplit(Put(matrix, id, results), splits, split)
         == if SplitOf(splits, id) == split then Put(InSplit(matrix, splits, split), id, results)
            else InSplit(matrix, splits, split)
    ensures SplitOf(splits, id) == split ==> GetOr(InSplit(matrix, splits, split), id, []) == GetOr(matrix, id, [])
  {
    hide SplitOf;
    if matrix == [] {
      assert InSplit([(id, results)][1..], splits, split) == [];
    } else {
      PutInSplit(matrix[1..], id, results, splits, split);
      var rest := InSplit(matrix[1..], splits, split);
      assert Put(matrix, id, results)[1..] == if matrix[0].0 == id then matrix[1..] else Put(matrix[1..], id, results);
      assert [matrix[0]] + rest == InSplit(matrix, splits, split) || rest == InSplit(matrix, splits, split);
      assert ([matrix[0]] + rest)[1..] == rest;
    }
  }

  lemma OwnRowsOneMore(ran: seq<Row>, row: Row, splits: Dict<string, string>, split: string)
    ensures OwnRows(ran + [row], splits, split)
         == OwnRows(ran, splits, split) + if SplitOf(splits, row.id) == split then [row] else []
  {
    assert (ran + [row])[..|ran|] == ran;
  }

  /** The table of a split's own rows is the part of the whole table that lies in the split. */
  lemma {:induction false} OwnTable(ran: seq<Row>, splits: Dict<string, string>, split: string)
    ensures MatrixOf(OwnRows(ran, splits, split)) == InSplit(MatrixOf(ran), splits, split)
  {
    if ran != [] {
      hide Put, GetOr, MatrixOf, OwnRows, InSplit, SplitOf;
      var n := |ran| - 1;
      var before, own := MatrixOf(ran[..n]), OwnRows(ran[..n], splits, split);
      OwnTable(ran[..n], splits, split);
      assert ran[..n] + [ran[n]] == ran;
      MatrixOneMore(ran[..n], ran[n]);
      OwnRowsOneMore(ran[..n], ran[n], splits, split);
      PutInSplit(before, ran[n].id, GetOr(before, ran[n].id, []) + [ran[n].result], splits, split);
      MatrixOneMore(own, ran[n]);
      assert own + [] == own;
    }
  }

  lemma {:induction false} InSplitOneMore(matrix: Matrix, entry: (string, seq<Result>), splits: Dict<string, string>,
                                          split: string)
    ensures InSplit(matrix + [entry], splits, split)
         == InSplit(matrix, splits, split) + if SplitOf(splits, entry.0) == split then [entry] else []
  {
    hide SplitOf;
    if matrix == [] {
      assert matrix + [entry] == [entry] && [entry][1..] == [];
    } else {
      InSplitOneMore(matrix[1..], entry, splits, split);
      assert (matrix + [entry])[1..] == matrix[1..] + [entry];
    }
  }

  lemma {:induction false} SplitTotal(matrix: Matrix, splits: Dict<string, string>, split: string, value: seq<Result> -> int)
    ensures TotalFor(BySplit(matrix, splits, value), split) == SumOver(InSplit(matrix, splits, split), value)
  {
    if matrix != [] {
      hide SplitOf, InSplit, SumOver;
      var n := |matrix| - 1;
      var before := InSplit(matrix[..n], splits, split);
      SplitTotal(matrix[..n], splits, split, value);
      assert matrix[..n] + [matrix[n]] == matrix;
      InSplitOneMore(matrix[..n], matrix[n], splits, split);
      SumOneMore(before, matrix[n], value);
      assert BySplit(matrix, splits, value)[..n] == BySplit(matrix[..n], splits, value);
      assert before + [] == before;
    }
  }

  /** A rate times what it was taken over gives the count, a rate over nothing being zero. */
  lemma RateCounts(count: nat, over: nat)
    requires count <= over
    ensures Rate(count, over) * over as real == count as real
    ensures 0.0 <= Rate(count, over) <= 1.0
  {
  }

  lemma {:induction false} SubsetSize<T>(few: set<T>, more: set<T>)
    requires few <= more
    ensures |few| <= |more|
  {
    assert more == few + (more - few);
  }

  /** The numbers of a split, counted in its own rows. */
  ghost predicate Counts(score: SplitScore, own: seq<Row>) {
    && score.tasks == |TaskNames(own)| && score.runs == |own| && score.delivered == |PassPlaces(own)|
    && score.passAt1 * |own| as real == |PassPlaces(own)| as real && 0.0 <= score.passAt1 <= 1.0
    && score.passAtK * |TaskNames(own)| as real == |PassedNames(own)| as real && 0.0 <= score.passAtK <= 1.0
  }

  lemma OwnSums(ran: seq<Row>, splits: Dict<string, string>, split: string)
    ensures var matrix, own := MatrixOf(ran), OwnRows(ran, splits, split);
            && TotalFor(BySplit(matrix, splits, OneEach), split) == |TaskNames(own)|
            && TotalFor(BySplit(matrix, splits, RunCount), split) == |own|
            && TotalFor(BySplit(matrix, splits, PassCount), split) == |PassPlaces(own)|
            && TotalFor(BySplit(matrix, splits, AnyPass), split) == |PassedNames(own)|
  {
    hide TotalFor, BySplit, MatrixOf, OwnRows, TaskNames, PassPlaces, PassedNames, SumOver, InSplit, Passes, ResultsOf;
    var matrix, own := MatrixOf(ran), OwnRows(ran, splits, split);
    OwnTable(ran, splits, split);
    SplitTotal(matrix, splits, split, OneEach);
    SplitTotal(matrix, splits, split, RunCount);
    SplitTotal(matrix, splits, split, PassCount);
    SplitTotal(matrix, splits, split, AnyPass);
    OnesCount(MatrixOf(own));
    TasksAreNames(own);
    PerTaskAddsUp(own);
    PassesArePlaces(own);
    PassedAreNames(own);
  }

  lemma PassesFewer(own: seq<Row>)
    ensures |PassPlaces(own)| <= |own| && |PassedNames(own)| <= |TaskNames(own)|
  {
    PassesArePlaces(own);
    SubsetSize(PassedNames(own), TaskNames(own));
  }

  /** A split's score is the summary of its own rows: its tasks, its runs, the runs that passed, and
      the two rates taken over its runs and its tasks. */
  lemma SplitScoreCounts(rows: seq<Row>, split: string)
    ensures var score := ScoreOf(split, MatrixOf(RanRows(rows)), SplitsOf(rows));
            score.split == split && Counts(score, OwnRows(RanRows(rows), SplitsOf(rows), split))
  {
    hide TotalFor, BySplit, MatrixOf, RanRows, SplitsOf, OwnRows, TaskNames, PassPlaces, PassedNames, Rate;
    var own := OwnRows(RanRows(rows), SplitsOf(rows), split);
    OwnSums(RanRows(rows), SplitsOf(rows), split);
    PassesFewer(own);
    RateCounts(|PassPlaces(own)|, |own|);
    RateCounts(|PassedNames(own)|, |TaskNames(own)|);
  }

  // ---- all splits ---------------------------------------------------------------------------------

  ghost function SumScores(scores: seq<SplitScore>, value: SplitScore -> real): (r: real) {
    if scores == [] then 0.0 else SumScores(scores[..|scores| - 1], value) + value(scores[|scores| - 1])
  }

  function TasksOf(s: SplitScore): (r: real) { s.tasks as real }
  function RunsOf(s: SplitScore): (r: real) { s.runs as real }
  function DeliveredOf(s: SplitScore): (r: real) { s.delivered as real }
  function PassedTasksOf(s: SplitScore): (r: real) { s.passAtK * s.tasks as real }

  lemma {:induction false} ScoresAddUp(scores: seq<SplitScore>, names: seq<string>, entries: Entries, value: SplitScore -> real)
    requires |scores| == |names|
    requires forall i | 0 <= i < |names| :: value(scores[i]) == TotalFor(entries, names[i]) as real
    ensures SumScores(scores, value) == TotalOver(names, entries) as real
  {
    if scores != [] {
      var n := |scores| - 1;
      ScoresAddUp(scores[..n], names[..n], entries, value);
      assert value(scores[n]) == TotalFor(entries, names[n]) as real;
    }
  }

  /** What a summary counts: the tasks, runs and passes of all rows that ran; each split's score
      counts its own rows; and over the listed splits every number adds up to that of the whole. */
  lemma SummaryCounts(summary: Summary, rows: seq<Row>, names: seq<string>)
    requires ListsSplits(names, SplitsOf(rows)) && Summarizes(summary, rows, names)
    ensures var ran := RanRows(rows);
            && summary.tasksRun == |TaskNames(ran)| && summary.runs == |ran| && summary.delivered == |PassPlaces(ran)|
            && summary.passAt1 * summary.runs as real == summary.delivered as real
            && summary.passAtK * summary.tasksRun as real == |PassedNames(ran)| as real
            && |summary.splits| == |names|
            && (forall i | 0 <= i < |names| ::
                  summary.splits[i].split == names[i] && Counts(summary.splits[i], OwnRows(ran, SplitsOf(rows), names[i])))
    ensures SumScores(summary.splits, TasksOf) == summary.tasksRun as real
    ensures SumScores(summary.splits, RunsOf) == summary.runs as real
    ensures SumScores(summary.splits, DeliveredOf) == summary.delivered as real
    ensures SumScores(summary.splits, PassedTasksOf) == |PassedNames(RanRows(rows))| as real
  {
    hide TotalFor, TotalOver, BySplit, MatrixOf, RanRows, SplitsOf, OwnRows, TaskNames, PassPlaces, PassedNames, Rate, SumScores, SumOver, Passes, ListsSplits, ScoreOf;
    var ran, matrix, splits := RanRows(rows), MatrixOf(RanRows(rows)), SplitsOf(rows);
    TasksAreNames(ran);
    PassedAreNames(ran);
    PassesArePlaces(ran);
    PassesFewer(ran);
    RateCounts(|PassPlaces(ran)|, |ran|);
    RateCounts(|PassedNames(ran)|, |TaskNames(ran)|);
    SummaryAddsUp(rows, names);
    SplitsAddUp(rows, names, AnyPass);
    forall i | 0 <= i < |names|
      ensures summary.splits[i].split == names[i] && Counts(summary.splits[i], OwnRows(ran, splits, names[i]))
      ensures TasksOf(summary.splits[i]) == TotalFor(BySplit(matrix, splits, OneEach), names[i]) as real
      ensures RunsOf(summary.splits[i]) == TotalFor(BySplit(matrix, splits, RunCount), names[i]) as real
      ensures DeliveredOf(summary.splits[i]) == TotalFor(BySplit(matrix, splits, PassCount), names[i]) as real
      ensures PassedTasksOf(summary.splits[i]) == TotalFor(BySplit(matrix, splits, AnyPass), names[i]) as real
    {
      SplitScoreCounts(rows, names[i]);
      OwnSums(ran, splits, names[i]);
    }
    ScoresAddUp(summary.splits, names, BySplit(matrix, splits, OneEach), TasksOf);
    ScoresAddUp(summary.splits, names, BySplit(matrix, splits, RunCount), RunsOf);
    ScoresAddUp(summary.splits, names, BySplit(matrix, splits, PassCount), DeliveredOf);
    ScoresAddUp(summary.splits, names, BySplit(matrix, splits, AnyPass), PassedTasksOf);
  }
}
