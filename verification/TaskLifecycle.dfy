/** The governed task lifecycle: the transition table and the traces it accepts. */
module TaskLifecycle {
  import opened Text
  import opened Dicts

  datatype Status =
    | Backlog | Ready | Assigned | InProgress | Blocked | InReview | ChangesRequested | Approved
    | QaTesting | QaPassed | QaFailed | AwaitingHumanApproval | DeploymentReady | Deployed
    | Done | Failed | Cancelled

  function NameOf(status: Status): (r: string) {
    match status
    case Backlog => "BACKLOG"
    case Ready => "READY"
    case Assigned => "ASSIGNED"
    case InProgress => "IN_PROGRESS"
    case Blocked => "BLOCKED"
    case InReview => "IN_REVIEW"
    case ChangesRequested => "CHANGES_REQUESTED"
    case Approved => "APPROVED"
    case QaTesting => "QA_TESTING"
    case QaPassed => "QA_PASSED"
    case QaFailed => "QA_FAILED"
    case AwaitingHumanApproval => "AWAITING_HUMAN_APPROVAL"
    case DeploymentReady => "DEPLOYMENT_READY"
    case Deployed => "DEPLOYED"
    case Done => "DONE"
    case Failed => "FAILED"
    case Cancelled => "CANCELLED"
  }

  function Allowed(from: Status): (r: seq<Status>) {
    match from
    case Backlog => [Ready]
    case Ready => [Assigned]
    case Assigned => [InProgress, Blocked]
    case InProgress => [InReview, Blocked, Failed]
    case InReview => [Approved, ChangesRequested, Blocked]
    case ChangesRequested => [InProgress, Blocked, Failed]
    case Approved => [QaTesting, Blocked]
    case QaTesting => [QaPassed, QaFailed, Blocked]
    case QaFailed => [ChangesRequested, Blocked]
    case QaPassed => [AwaitingHumanApproval, Blocked]
    case AwaitingHumanApproval => [DeploymentReady, Failed]
    case DeploymentReady => [Deployed, Failed]
    case Deployed => [Done, Failed]
    case Done => []
    case Failed => []
    case Cancelled => []
    case Blocked => [InProgress, ChangesRequested, Failed, Cancelled]
  }

  /** The same table by target: where a task can come from. */
  function Sources(to: Status): (r: set<Status>) {
    match to
    case Backlog => {}
    case Ready => {Backlog}
    case Assigned => {Ready}
    case InProgress => {Assigned, ChangesRequested, Blocked}
    case InReview => {InProgress}
    case ChangesRequested => {InReview, QaFailed, Blocked}
    case Approved => {InReview}
    case QaTesting => {Approved}
    case QaPassed => {QaTesting}
    case QaFailed => {QaTesting}
    case AwaitingHumanApproval => {QaPassed}
    case DeploymentReady => {AwaitingHumanApproval}
    case Deployed => {DeploymentReady}
    case Done => {Deployed}
    case Failed => {InProgress, ChangesRequested, AwaitingHumanApproval, DeploymentReady, Deployed, Blocked}
    case Cancelled => {Blocked}
    case Blocked => {Assigned, InProgress, InReview, ChangesRequested, Approved, QaTesting, QaFailed, QaPassed}
  }

  /** Both readings of the table are one relation. */
  lemma EdgesByTarget(from: Status, to: Status)
    ensures to in Allowed(from) <==> from in Sources(to)
  {
  }

  const TERMINAL_STATUSES: set<Status> := {Done, Failed, Cancelled}

  /** The table as the program has it: names by name. */
  const VALID_TRANSITIONS: Dict<string, seq<string>> := [
    ("BACKLOG", ["READY"]),
    ("READY", ["ASSIGNED"]),
    ("ASSIGNED", ["IN_PROGRESS", "BLOCKED"]),
    ("IN_PROGRESS", ["IN_REVIEW", "BLOCKED", "FAILED"]),
    ("IN_REVIEW", ["APPROVED", "CHANGES_REQUESTED", "BLOCKED"]),
    ("CHANGES_REQUESTED", ["IN_PROGRESS", "BLOCKED", "FAILED"]),
    ("APPROVED", ["QA_TESTING", "BLOCKED"]),
    ("QA_TESTING", ["QA_PASSED", "QA_FAILED", "BLOCKED"]),
    ("QA_FAILED", ["CHANGES_REQUESTED", "BLOCKED"]),
    ("QA_PASSED", ["AWAITING_HUMAN_APPROVAL", "BLOCKED"]),
    ("AWAITING_HUMAN_APPROVAL", ["DEPLOYMENT_READY", "FAILED"]),
    ("DEPLOYMENT_READY", ["DEPLOYED", "FAILED"]),
    ("DEPLOYED", ["DONE", "FAILED"]),
    ("DONE", []),
    ("FAILED", []),
    ("CANCELLED", []),
    ("BLOCKED", ["IN_PROGRESS", "CHANGES_REQUESTED", "FAILED", "CANCELLED"])]

  /** Statuses arrive as text in any letter case; an unknown name allows nothing. */
  function ValidateTransition(from: string, to: string): (ok: bool) {
    Upper(to) in GetOr(VALID_TRANSITIONS, Upper(from), [])
  }

  ghost predicate Accepted(trace: seq<Status>) {
    forall i | 0 < i < |trace| :: trace[i] in Allowed(trace[i - 1])
  }

  /** The stages a finished task passed through last. */
  const CHAIN: seq<Status> := [
    InProgress, InReview, Approved, QaTesting, QaPassed, AwaitingHumanApproval, DeploymentReady, Deployed, Done]

  /** Each stage after the first can only follow the stage before it. */
  lemma OnlyFromTheStageBefore(from: Status, k: nat)
    requires 0 < k < |CHAIN| && CHAIN[k] in Allowed(from)
    ensures from == CHAIN[k - 1]
  {
  }

  // ---- reaching a stage --------------------------------------------------------------------

  /** A task at stage k went through all stages before it, one after the other. */
  lemma {:induction false} StageTail(trace: seq<Status>, k: nat)
    requires Accepted(trace) && trace != [] && trace[0] == Backlog
    requires k < |CHAIN| && trace[|trace| - 1] == CHAIN[k]
    ensures |trace| > k && trace[|trace| - 1 - k..] == CHAIN[..k + 1]
  {
    hide Allowed;
    var n := |trace| - 1;
    if k == 0 {
      assert trace[n..] == [CHAIN[0]];
    } else {
      assert CHAIN[k] != Backlog;
      OnlyFromTheStageBefore(trace[n - 1], k);
      StageTail(trace[..n], k - 1);
      assert trace[n - k..] == trace[..n][n - k..] + [CHAIN[k]];
      assert CHAIN[..k + 1] == CHAIN[..k] + [CHAIN[k]];
    }
  }

  /** A finished task ends with exactly the nine stages of the chain. */
  lemma DoneTail(trace: seq<Status>)
    requires Accepted(trace) && trace != [] && trace[0] == Backlog && trace[|trace| - 1] == Done
    ensures |trace| >= |CHAIN| && trace[|trace| - |CHAIN|..] == CHAIN
  {
    StageTail(trace, |CHAIN| - 1);
    assert CHAIN[..|CHAIN|] == CHAIN;
  }

  /** So whatever sends a task back (requested changes, failed QA, a block), work, review, QA
      and the human approval all come again before it is done. */
  lemma ReworkRepeatsEveryGate(trace: seq<Status>, i: nat, k: nat)
    requires Accepted(trace) && trace != [] && trace[0] == Backlog && trace[|trace| - 1] == Done
    requires i < |trace| && trace[i] in {ChangesRequested, QaFailed, Blocked} && k < |CHAIN|
    ensures i < |trace| - |CHAIN| + k < |trace| && trace[|trace| - |CHAIN| + k] == CHAIN[k]
  {
    assert 0 <= |trace| - |CHAIN| <= i ==> trace[i] in trace[|trace| - |CHAIN|..];
    DoneTail(trace);
    assert trace[|trace| - |CHAIN|..][k] == CHAIN[k];
  }

  // ---- counting stages ------------------------------------------------------------------------

  function Visits(trace: seq<Status>, status: Status): (r: nat) {
    if trace == [] then 0
    else Visits(trace[..|trace| - 1], status) + if trace[|trace| - 1] == status then 1 else 0
  }

  /** No stage is entered more often than the one before it; the task can be ahead by the
      visit it is on. */
  lemma {:induction false} StagesOnlyAfterTheStageBefore(trace: seq<Status>, k: nat)
    requires Accepted(trace) && trace != [] && trace[0] == Backlog && 0 < k < |CHAIN|
    ensures Visits(trace, CHAIN[k]) + (if trace[|trace| - 1] == CHAIN[k - 1] then 1 else 0)
         <= Visits(trace, CHAIN[k - 1])
  {
    var n := |trace| - 1;
    if n == 0 {
      assert Visits(trace[..0], CHAIN[k]) == 0;
    } else {
      StagesOnlyAfterTheStageBefore(trace[..n], k);
      assert trace[..n][n - 1] == trace[n - 1];
      if trace[n] == CHAIN[k] { OnlyFromTheStageBefore(trace[n - 1], k); }
    }
  }

  /** Along a whole trace the visits only go down: as many deployments as approvals at most,
      and so on. */
  lemma {:induction false} VisitsGoDown(trace: seq<Status>, j: nat, k: nat)
    requires Accepted(trace) && trace != [] && trace[0] == Backlog && j <= k < |CHAIN|
    ensures Visits(trace, CHAIN[k]) <= Visits(trace, CHAIN[j])
  {
    if j < k {
      VisitsGoDown(trace, j, k - 1);
      StagesOnlyAfterTheStageBefore(trace, k);
    }
  }

  // ---- rework ---------------------------------------------------------------------------------

  /** The ways a review or QA sends a task back to work, and the way out of a block. */
  const REVIEW_LOOP: seq<Status> := [InProgress, InReview, ChangesRequested]
  const QA_LOOP: seq<Status> := [InProgress, InReview, Approved, QaTesting, QaFailed, ChangesRequested]
  const BLOCK_LOOP: seq<Status> := [InProgress, Blocked]

  ghost predicate Loop(stages: seq<Status>) {
    stages in {REVIEW_LOOP, QA_LOOP, BLOCK_LOOP}
  }

  lemma LoopsClose(stages: seq<Status>)
    requires Loop(stages)
    ensures stages != [] && stages[0] == InProgress && Accepted(stages) && InProgress in Allowed(stages[|stages| - 1])
  {
  }

  ghost function Concat(loops: seq<seq<Status>>): (r: seq<Status>) {
    if loops == [] then [] else Concat(loops[..|loops| - 1]) + loops[|loops| - 1]
  }

  /** An accepted trace after which work can start. */
  ghost predicate WorkNext(trace: seq<Status>) {
    trace != [] && Accepted(trace) && InProgress in Allowed(trace[|trace| - 1])
  }

  lemma LoopAfter(trace: seq<Status>, stages: seq<Status>)
    requires WorkNext(trace) && Loop(stages)
    ensures WorkNext(trace + stages)
  {
    LoopsClose(stages);
    hide Allowed, Loop;
    var both := trace + stages;
    forall i | 0 < i < |both| ensures both[i] in Allowed(both[i - 1]) {
      if i < |trace| { AcceptedAt(trace, i); } else if i > |trace| { AcceptedAt(stages, i - |trace|); }
    }
  }

  lemma AssignedIsNext()
    ensures WorkNext([Backlog, Ready, Assigned])
  {
  }

  /** Rework is unbounded and free in its order: any sequence of requested changes, failed QA runs
      and blocks can come before a task goes on with its work. */
  lemma {:induction false} AnyReworkIsAccepted(loops: seq<seq<Status>>)
    requires forall i | 0 <= i < |loops| :: Loop(loops[i])
    ensures WorkNext([Backlog, Ready, Assigned] + Concat(loops))
  {
    hide WorkNext, Loop;
    var start := [Backlog, Ready, Assigned];
    AssignedIsNext();
    if loops == [] {
      assert start + Concat(loops) == start;
    } else {
      var n := |loops| - 1;
      AnyReworkIsAccepted(loops[..n]);
      LoopAfter(start + Concat(loops[..n]), loops[n]);
      assert start + Concat(loops) == start + Concat(loops[..n]) + loops[n];
    }
  }

  // ---- ends and ways to the end -----------------------------------------------------------------

  /** The table has no exits from exactly the terminal statuses. */
  lemma TerminalExactly(status: Status)
    ensures Allowed(status) == [] <==> status in TERMINAL_STATUSES
  {
    if status !in TERMINAL_STATUSES { assert |Allowed(status)| > 0; }
  }

  lemma AcceptedAt(trace: seq<Status>, i: nat)
    requires Accepted(trace) && 0 < i < |trace|
    ensures trace[i] in Allowed(trace[i - 1])
  {
  }

  lemma TerminalOnlyLast(trace: seq<Status>, i: nat)
    requires Accepted(trace) && i < |trace| && trace[i] in TERMINAL_STATUSES
    ensures i == |trace| - 1
  {
    TerminalExactly(trace[i]);
    if i + 1 < |trace| { AcceptedAt(trace, i + 1); }
  }

  /** Steps still to go on the straight way to being done. */
  function StepsToDone(status: Status): (r: nat)
    requires status !in {Failed, Cancelled}
  {
    match status
    case Done => 0
    case Deployed => 1
    case DeploymentReady => 2
    case AwaitingHumanApproval => 3
    case QaPassed => 4
    case QaTesting => 5
    case Approved => 6
    case InReview => 7
    case InProgress => 8
    case Assigned => 9
    case Blocked => 9
    case ChangesRequested => 9
    case Ready => 10
    case QaFailed => 10
    case Backlog => 11
  }

  /** The first transition the table lists for a status is always one step closer to Done. */
  lemma FirstIsCloser(status: Status)
    requires status !in TERMINAL_STATUSES
    ensures Allowed(status) != [] && Allowed(status)[0] !in {Failed, Cancelled}
    ensures StepsToDone(Allowed(status)[0]) < StepsToDone(status)
  {
  }

  function WayToDone(status: Status): (way: seq<Status>)
    requires status !in {Failed, Cancelled}
    ensures way != [] && way[0] == status && way[|way| - 1] == Done
    decreases StepsToDone(status)
  {
    if status == Done then [Done]
    else
      FirstIsCloser(status);
      [status] + WayToDone(Allowed(status)[0])
  }

  /** No status short of the terminal ones is a dead end: every accepted trace that has not
      ended can be completed. */
  lemma EveryOpenTaskCanFinish(trace: seq<Status>)
    requires Accepted(trace) && trace != [] && trace[|trace| - 1] !in TERMINAL_STATUSES
    ensures exists rest: seq<Status> :: rest != [] && Accepted(trace + rest) && rest[|rest| - 1] == Done
  {
    hide Allowed, WayToDone;
    var last := trace[|trace| - 1];
    var way := WayToDone(last);
    WayAccepted(last);
    assert |way| > 1;
    var rest := way[1..];
    forall i | 0 < i < |trace + rest| ensures (trace + rest)[i] in Allowed((trace + rest)[i - 1]) {
      if i >= |trace| {
        var k := i - |trace| + 1;
        assert way[k] in Allowed(way[k - 1]);
        assert (trace + rest)[i] == way[k] && (trace + rest)[i - 1] == way[k - 1];
      }
    }
  }

  lemma {:induction false} WayAccepted(status: Status)
    requires status !in {Failed, Cancelled}
    ensures Accepted(WayToDone(status))
    decreases StepsToDone(status)
  {
    if status != Done {
      FirstIsCloser(status);
      WayAccepted(Allowed(status)[0]);
      hide Allowed;
      Prepend(status, WayToDone(Allowed(status)[0]));
    }
  }

  lemma Prepend(status: Status, trace: seq<Status>)
    requires Accepted(trace) && trace != [] && trace[0] in Allowed(status)
    ensures Accepted([status] + trace)
  {
    hide Allowed;
    var longer := [status] + trace;
    forall i | 0 < i < |longer| ensures longer[i] in Allowed(longer[i - 1]) {
      if i > 1 { AcceptedAt(trace, i - 1); }
    }
  }

  // ---- names ------------------------------------------------------------------------------------

  lemma NamesDiffer(a: Status, b: Status)
    requires NameOf(a) == NameOf(b)
    ensures a == b
  {
    assert |NameOf(a)| == |NameOf(b)|;
    assert NameOf(a)[0] == NameOf(b)[0] && NameOf(a)[1] == NameOf(b)[1] && NameOf(a)[3] == NameOf(b)[3];
  }

  /** The statuses in the table's order. */
  const TABLE_ORDER: seq<Status> := [
    Backlog, Ready, Assigned, InProgress, InReview, ChangesRequested, Approved, QaTesting, QaFailed, QaPassed,
    AwaitingHumanApproval, DeploymentReady, Deployed, Done, Failed, Cancelled, Blocked]

  lemma StatusListed(status: Status) returns (k: nat)
    ensures k < |TABLE_ORDER| && TABLE_ORDER[k] == status
  {
    k := match status
      case Backlog => 0 case Ready => 1 case Assigned => 2 case InProgress => 3 case InReview => 4
      case ChangesRequested => 5 case Approved => 6 case QaTesting => 7 case QaFailed => 8 case QaPassed => 9
      case AwaitingHumanApproval => 10 case DeploymentReady => 11 case Deployed => 12 case Done => 13
      case Failed => 14 case Cancelled => 15 case Blocked => 16;
  }

  function NamesOf(statuses: seq<Status>): (r: seq<string>)
    ensures |r| == |statuses| && forall i | 0 <= i < |r| :: r[i] == NameOf(statuses[i])
  {
    seq(|statuses|, i requires 0 <= i < |statuses| => NameOf(statuses[i]))
  }

  lemma TableLength()
    ensures |VALID_TRANSITIONS| == |TABLE_ORDER|
  {
  }

  lemma TableRow(k: nat)
    requires k < |TABLE_ORDER| && k < |VALID_TRANSITIONS|
    ensures VALID_TRANSITIONS[k] == (NameOf(TABLE_ORDER[k]), NamesOf(Allowed(TABLE_ORDER[k])))
  {
    var status := TABLE_ORDER[k];
    var names := VALID_TRANSITIONS[k].1;
    assert |names| == |Allowed(status)|;
    assert forall i | 0 <= i < |names| :: names[i] == NameOf(Allowed(status)[i]);
    assert names == NamesOf(Allowed(status));
  }

  lemma TableRowOf(status: Status)
    ensures Get(VALID_TRANSITIONS, NameOf(status)) == Some(NamesOf(Allowed(status)))
  {
    hide NameOf, Allowed, VALID_TRANSITIONS, TABLE_ORDER, Get;
    var k := StatusListed(status);
    TableLength();
    TableRow(k);
    GetFinds(VALID_TRANSITIONS, NameOf(status));
    forall i | 0 <= i < |VALID_TRANSITIONS| && VALID_TRANSITIONS[i].0 == NameOf(status)
      ensures VALID_TRANSITIONS[i].1 == NamesOf(Allowed(status))
    {
      TableRow(i);
      NamesDiffer(TABLE_ORDER[i], status);
    }
  }

  lemma OnlyStatuses(name: string)
    requires Get(VALID_TRANSITIONS, name).Some?
    ensures exists f: Status :: NameOf(f) == name
  {
    hide NameOf, VALID_TRANSITIONS, TABLE_ORDER, Get;
    TableLength();
    GetFinds(VALID_TRANSITIONS, name);
    var i :| 0 <= i < |VALID_TRANSITIONS| && VALID_TRANSITIONS[i].0 == name;
    TableRow(i);
  }

  lemma NameAllowed(from: Status, name: string)
    ensures name in NamesOf(Allowed(from)) <==> exists t: Status :: NameOf(t) == name && t in Allowed(from)
  {
    hide NameOf, Allowed;
    var names := NamesOf(Allowed(from));
    if t: Status :| NameOf(t) == name && t in Allowed(from) {
      var i :| 0 <= i < |Allowed(from)| && Allowed(from)[i] == t;
      assert names[i] == name;
    }
  }

  /** The check on text accepts exactly the edges between two named statuses, in whatever letter case. */
  lemma ValidExactly(from: string, to: string)
    ensures ValidateTransition(from, to)
       <==> exists f: Status, t: Status :: NameOf(f) == Upper(from) && NameOf(t) == Upper(to) && t in Allowed(f)
  {
    hide NameOf, Allowed, Upper, VALID_TRANSITIONS, Get;
    if Get(VALID_TRANSITIONS, Upper(from)).Some? { OnlyStatuses(Upper(from)); }
    forall f: Status | NameOf(f) == Upper(from)
      ensures ValidateTransition(from, to) <==> exists t: Status :: NameOf(t) == Upper(to) && t in Allowed(f)
    {
      TableRowOf(f);
      NameAllowed(f, Upper(to));
    }
  }
}
