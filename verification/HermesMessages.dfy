/** The backlog items, the chat messages of the fleet and the strings they are sent as. */
module HermesMessages {
  import opened Text

  datatype Status = Open | InProgress | Review | Done | Blocked | Other(name: string)

  /** One backlog entry; `blockedBy` is "" when the entry names no blocker. */
  datatype Item = Item(id: string, title: string, status: Status, retries: int,
                       blockedBy: string, acceptance: seq<string>)

  datatype CriterionRun = CriterionRun(criterion: string, ok: bool, output: string)

  /** What the sender knows when it posts; the title and the content below are what a reader gets. */
  datatype Message =
    | Proposal(itemId: string, title: string)
    | Completed(itemId: string, title: string, ok: bool, detail: string)
    | ReviewRequest(itemId: string, report: string)
    | ReviewResult(itemId: string, found: bool, runs: seq<CriterionRun>)

  const RETRY_LIMIT := 2
  const ALL_PASS := "ALL PASS"

  const NOT_FOUND := "Backlog item not found in AGENT_BACKLOG.md"
  const BUILDER_FINISHED := "Builder finished "
  const RUN_TESTS := ". Run acceptance tests.\n\n"
  const BACKLOG := "Backlog "
  const STATUS_IS := " -- status: "
  const TITLE_IS := "\n\nTitle: "
  const DETAIL_IS := "\n\nDetail:\n"
  const VERDICT_FOR := "QA verdict for "
  const TESTED := "Tested "
  const CRITERIA := " acceptance criteria."
  const OUTPUT := "   output: "

  function TitleOf(m: Message): (r: string) {
    match m
    case Proposal(id, title) => "BACKLOG " + id + ": " + title
    case Completed(id, title, ok, _) => "BUILDER " + (if ok then "OK" else "FAIL") + ": " + id + " -- " + title
    case ReviewRequest(id, _) => "REVIEW " + id
    case ReviewResult(id, found, runs) =>
      "REVIEW " + id + " -- " + (if found && AllPassed(runs) then "PASSED" else "FAILED")
  }

  function ContentOf(m: Message): (r: string) {
    match m
    case Proposal(id, title) => "Backlog item " + id + ": " + title
    case Completed(id, title, ok, detail) =>
      BACKLOG + id + STATUS_IS + (if ok then "ok" else "fail") + TITLE_IS + title + DETAIL_IS + Take(detail, 1500)
    case ReviewRequest(id, report) => BUILDER_FINISHED + id + RUN_TESTS + report
    case ReviewResult(id, found, runs) =>
      if found then Join(ReportLines(id, runs)) else NOT_FOUND
  }

  /** The text a reader searches for the item id. */
  function SearchText(m: Message): (r: string) {
    TitleOf(m) + " " + ContentOf(m)
  }

  /** QA's verdict: at least one criterion ran and every one exited 0. */
  predicate AllPassed(runs: seq<CriterionRun>) {
    runs != [] && forall i | 0 <= i < |runs| :: runs[i].ok
  }

  function ReportLines(id: string, runs: seq<CriterionRun>): (r: seq<string>) {
    [VERDICT_FOR + id + ": " + (if AllPassed(runs) then "PASSED" else "FAILED"),
     TESTED + Decimal(|runs|) + CRITERIA,
     ""] + RunLines(runs)
  }

  function RunLines(runs: seq<CriterionRun>): (r: seq<string>) {
    if runs == [] then [] else RunLine(runs[0]) + RunLines(runs[1..])
  }

  function RunLine(run: CriterionRun): (r: seq<string>) {
    [(if run.ok then "[PASS] " else "[FAIL] ") + run.criterion]
    + if !run.ok && run.output != "" then [OUTPUT + Take(run.output, 200)] else []
  }

  /** How the planner reads a review result. */
  predicate ReadsPassed(m: Message) {
    Contains(TitleOf(m), "PASSED") || Contains(ContentOf(m), ALL_PASS)
  }

  /** The phrase the planner also accepts occurs in a criterion, or in the shown output of a failed one. */
  predicate MentionsAllPass(runs: seq<CriterionRun>) {
    exists i | 0 <= i < |runs| :: RunMentions(runs[i])
  }

  predicate RunMentions(run: CriterionRun) {
    Contains(run.criterion, ALL_PASS) || (!run.ok && Contains(Take(run.output, 200), ALL_PASS))
  }

  // ---- which item a reader takes a message to be about -------------------------------

  lemma TitleSplits(m: Message) returns (prefix: string, rest: string)
    requires !m.Proposal?
    ensures TitleOf(m) == prefix + m.itemId + rest
    ensures prefix != "" && prefix[|prefix| - 1] == ' '
    ensures forall j | 0 <= j < |prefix| - 1 :: !(prefix[j] == 'A' && prefix[j + 1] == 'B')
    ensures rest == "" || rest[0] == ' '
  {
    match m {
      case Completed(id, title, ok, detail) =>
        prefix := "BUILDER " + (if ok then "OK" else "FAIL") + ": ";
        rest := " -- " + title;
      case ReviewRequest(id, report) => prefix, rest := "REVIEW ", "";
      case ReviewResult(id, found, runs) =>
        prefix := "REVIEW ";
        rest := " -- " + (if found && AllPassed(runs) then "PASSED" else "FAILED");
    }
  }

  /** Every message the planner or QA reads is taken to be about the item it was sent for. */
  lemma ReaderFindsItem(m: Message)
    requires IsBacklogId(m.itemId)
    requires !m.Proposal?
    ensures ExtractBacklogId(SearchText(m)) == Some(m.itemId)
  {
    var prefix, rest := TitleSplits(m);
    FindsAfterTitle(prefix, m.itemId, rest, ContentOf(m), TitleOf(m));
  }

  lemma FindsAfterTitle(prefix: string, id: string, rest: string, content: string, title: string)
    requires IsBacklogId(id) && title == prefix + id + rest
    requires prefix != "" && prefix[|prefix| - 1] == ' '
    requires forall j | 0 <= j < |prefix| - 1 :: !(prefix[j] == 'A' && prefix[j + 1] == 'B')
    requires rest == "" || rest[0] == ' '
    ensures ExtractBacklogId(title + " " + content) == Some(id)
  {
    var after := rest + " " + content;
    assert title + " " + content == prefix + id + after;
    ExtractAfterPrefix(prefix, id, after);
  }

  // ---- how the planner reads QA's verdict -----------------------------------------------

  lemma IdLacks(id: string, c: char)
    requires IsBacklogId(id)
    requires !Digit(c) && c != 'A' && c != 'B' && c != '-'
    ensures c !in id
  {
    forall i | 0 <= i < |id| ensures id[i] != c {
      if i >= 3 { assert Digit(id[i]); }
    }
  }

  lemma TitleSaysPassed(m: Message)
    requires m.ReviewResult? && IsBacklogId(m.itemId)
    ensures Contains(TitleOf(m), "PASSED") <==> m.found && AllPassed(m.runs)
  {
    if m.found && AllPassed(m.runs) {
      var before := "REVIEW " + m.itemId + " -- ";
      assert OccursAt("PASSED", "PASSED", 0);
      ContainsPart(before, "PASSED", "", "PASSED");
      assert TitleOf(m) == before + "PASSED" + "";
    } else {
      IdLacks(m.itemId, 'P');
      LacksChar(TitleOf(m), "PASSED", 0);
    }
  }

  lemma GuardedLine(prefix: string, text: string)
    requires prefix == "[PASS] " || prefix == "[FAIL] " || prefix == OUTPUT
    ensures Contains(prefix + text, ALL_PASS) <==> Contains(text, ALL_PASS)
  {
    forall i: nat | i < |prefix| ensures Clashes(prefix, ALL_PASS, i) {
      if prefix[i] != 'A' {
        assert ALL_PASS[0] == 'A';
      } else {
        assert prefix[i + 1] != 'L' && ALL_PASS[1] == 'L';
      }
    }
    ContainsAfterGuard(prefix, text, ALL_PASS);
  }

  lemma RunLineMentions(run: CriterionRun)
    ensures (exists l | l in RunLine(run) :: Contains(l, ALL_PASS)) <==> RunMentions(run)
  {
    var mark := if run.ok then "[PASS] " else "[FAIL] ";
    var first := mark + run.criterion;
    GuardedLine(mark, run.criterion);
    assert RunLine(run)[0] == first;
    if !run.ok {
      var shown := Take(run.output, 200);
      GuardedLine(OUTPUT, shown);
      if run.output == "" {
        LacksChar("", ALL_PASS, 0);
        assert RunLine(run) == [first];
      } else {
        assert RunLine(run) == [first, OUTPUT + shown];
        assert RunLine(run)[1] == OUTPUT + shown;
      }
    }
  }

  lemma {:induction false} RunLinesMention(runs: seq<CriterionRun>)
    ensures (exists l | l in RunLines(runs) :: Contains(l, ALL_PASS)) <==> MentionsAllPass(runs)
  {
    if runs != [] {
      RunLineMentions(runs[0]);
      RunLinesMention(runs[1..]);
      assert forall l :: l in RunLines(runs) <==> l in RunLine(runs[0]) || l in RunLines(runs[1..]);
      assert MentionsAllPass(runs) <==> RunMentions(runs[0]) || MentionsAllPass(runs[1..]) by {
        assert forall i | 0 <= i < |runs[1..]| :: runs[1..][i] == runs[i + 1];
        if MentionsAllPass(runs) {
          var i :| 0 <= i < |runs| && RunMentions(runs[i]);
          if i > 0 { assert RunMentions(runs[1..][i - 1]); }
        }
        if MentionsAllPass(runs[1..]) {
          var i :| 0 <= i < |runs[1..]| && RunMentions(runs[1..][i]);
          assert RunMentions(runs[i + 1]);
        }
      }
    }
  }

  lemma OnlyTailContains(a: string, b: string, c: string, tail: seq<string>)
    requires !Contains(a, ALL_PASS) && !Contains(b, ALL_PASS) && !Contains(c, ALL_PASS)
    ensures Contains(Join([a, b, c] + tail), ALL_PASS) <==> exists l | l in tail :: Contains(l, ALL_PASS)
  {
    hide Contains, Join;
    var lines := [a, b, c] + tail;
    JoinContains(lines, ALL_PASS);
    assert lines[0] == a && lines[1] == b && lines[2] == c;
    forall l | l in lines ensures l == a || l == b || l == c || l in tail {
      var i :| 0 <= i < |lines| && lines[i] == l;
      if i >= 3 { assert lines[i] == tail[i - 3]; }
    }
    forall l | l in tail ensures l in lines {
      var i :| 0 <= i < |tail| && tail[i] == l;
      assert lines[i + 3] == l;
    }
  }

  lemma FailedReportMentions(id: string, runs: seq<CriterionRun>)
    requires IsBacklogId(id) && !AllPassed(runs)
    ensures Contains(Join(ReportLines(id, runs)), ALL_PASS) <==> MentionsAllPass(runs)
  {
    hide Contains, Join;
    var first := VERDICT_FOR + id + ": " + "FAILED";
    var second := TESTED + Decimal(|runs|) + CRITERIA;
    IdLacks(id, 'P');
    LacksChar(first, ALL_PASS, 4);
    LacksChar(second, ALL_PASS, 4);
    LacksChar("", ALL_PASS, 4);
    RunLinesMention(runs);
    OnlyTailContains(first, second, "", RunLines(runs));
    assert ReportLines(id, runs) == [first, second, ""] + RunLines(runs);
  }

  /** The planner takes a review result as passed exactly when QA passed it, or when the
      phrase "ALL PASS" stands in a criterion or in the shown output of a failed criterion. */
  lemma VerdictReadExactly(m: Message)
    requires m.ReviewResult? && IsBacklogId(m.itemId)
    ensures ReadsPassed(m) <==> m.found && (AllPassed(m.runs) || MentionsAllPass(m.runs))
  {
    TitleSaysPassed(m);
    if !m.found {
      LacksChar(ContentOf(m), ALL_PASS, 4);
    } else if !AllPassed(m.runs) {
      FailedReportMentions(m.itemId, m.runs);
    }
  }

  /** QA failed the review, and the planner records the item as shipped. */
  predicate Misread(m: Message) {
    m.ReviewResult? && IsBacklogId(m.itemId) && m.found && !AllPassed(m.runs) && ReadsPassed(m)
  }

  /** The phrase in a criterion suffices. */
  lemma FailedReviewReadAsPassed() returns (m: Message)
    ensures Misread(m)
  {
    hide ReadsPassed;
    var run := CriterionRun("grep -q 'ALL PASS' log", false, "");
    m := ReviewResult("AB-001", true, [run]);
    assert run.criterion[9..17] == ALL_PASS;
    assert OccursAt(run.criterion, ALL_PASS, 9);
    assert RunMentions(m.runs[0]);
    assert IsBacklogId(m.itemId) && !m.runs[0].ok;
    VerdictReadExactly(m);
  }
}
