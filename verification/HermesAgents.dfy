/** The three agents as they run: loops over fetched messages that update the store in place.
    Each tick is shown to be a run of the protocol's events. */
module HermesAgents {
  import opened Text
  import opened HermesMessages
  import opened HermesProtocol

  /** The items in flight, in backlog order. */
  function ItemsInFlight(items: seq<Item>): (r: seq<Item>)
    ensures forall it :: it in r <==> it in items && InFlight(it)
  {
    if items == [] then []
    else
      assert items == items[..|items| - 1] + [items[|items| - 1]];
      ItemsInFlight(items[..|items| - 1]) + if InFlight(items[|items| - 1]) then [items[|items| - 1]] else []
  }

  /** The YAML backlog: every update rewrites the first item with the id. */
  class BacklogStore {
    var items: seq<Item>

    constructor (items: seq<Item>)
      ensures this.items == items
    {
      this.items := items;
    }

    method UpdateStatus(id: string, status: Status, blockedBy: Option<string>) returns (found: bool)
      modifies this
      ensures found <==> IndexOf(old(items), id).Some?
      ensures match IndexOf(old(items), id)
              case None => items == old(items)
              case Some(i) =>
                var it := old(items)[i].(status := status);
                items == old(items)[i := if blockedBy.Some? then it.(blockedBy := blockedBy.value) else it]
    {
      var n := 0;
      while n < |items|
        invariant n <= |items| && items == old(items)
        invariant forall j | 0 <= j < n :: items[j].id != id
      {
        if items[n].id == id {
          var it := items[n].(status := status);
          if blockedBy.Some? { it := it.(blockedBy := blockedBy.value); }
          items := items[n := it];
          return true;
        }
        n := n + 1;
      }
      return false;
    }

    method IncrementRetry(id: string) returns (count: int)
      modifies this
      ensures items == Retried(old(items), id) && count == RetryCount(old(items), id)
    {
      var n := 0;
      while n < |items|
        invariant n <= |items| && items == old(items)
        invariant forall j | 0 <= j < n :: items[j].id != id
      {
        if items[n].id == id {
          count := items[n].retries + 1;
          items := items[n := items[n].(retries := count)];
          return;
        }
        n := n + 1;
      }
      return 0;
    }

    method FindNextOpen() returns (item: Option<Item>)
      ensures item == match NextOpen(items) case None => None case Some(i) => Some(items[i])
    {
      var doneIds: set<string> := {};
      for k := 0 to |items|
        invariant forall id :: id in doneIds <==> exists j | 0 <= j < k :: items[j].id == id && items[j].status == Done
      {
        if items[k].status == Done { doneIds := doneIds + {items[k].id}; }
      }
      for n := 0 to |items|
        invariant forall j | 0 <= j < n :: !Ready(items, items[j])
      {
        if items[n].status == Open && (items[n].blockedBy == "" || items[n].blockedBy in doneIds) {
          assert Ready(items, items[n]);
          return Some(items[n]);
        }
        assert !Ready(items, items[n]);
      }
      return None;
    }

    method InProgressItems() returns (found: seq<Item>)
      ensures found == ItemsInFlight(items)
      ensures found == [] <==> !AnyInFlight(items)
    {
      found := [];
      for n := 0 to |items|
        invariant found == ItemsInFlight(items[..n])
        invariant found == [] <==> forall j | 0 <= j < n :: !InFlight(items[j])
      {
        assert items[..n + 1][..n] == items[..n];
        if items[n].status == InProgress || items[n].status == Review { found := found + [items[n]]; }
      }
      assert items[..|items|] == items;
    }
  }

  /** The registry's chat: posts are appended, and an id is the position in the log. */
  class ChatLog {
    var log: seq<Message>

    constructor ()
      ensures log == []
    {
      log := [];
    }

    method SendMsg(m: Message, send: Send) returns (answer: Option<nat>)
      modifies this
      ensures log == Post(old(log), m, send)
      ensures answer == if send == Stored then Some(|old(log)|) else None
    {
      answer := if send == Stored then Some(|log|) else None;
      if send != Lost { log := log + [m]; }
    }
  }

  class ShipLogFile {
    var entries: seq<ShipEntry>

    constructor ()
      ensures entries == []
    {
      entries := [];
    }

    method Append(entry: ShipEntry)
      modifies this
      ensures entries == old(entries) + [entry]
    {
      entries := entries + [entry];
    }
  }

  /** The fetched messages not yet processed, in order. */
  function Unread(fetched: seq<nat>, processed: set<nat>): (r: seq<nat>)
    ensures |r| <= |fetched|
  {
    if fetched == [] then []
    else Unread(fetched[..|fetched| - 1], processed)
         + if fetched[|fetched| - 1] in processed then [] else [fetched[|fetched| - 1]]
  }

  ghost predicate Distinct(mids: seq<nat>) {
    forall i, j | 0 <= i < j < |mids| :: mids[i] != mids[j]
  }

  lemma {:induction false} UnreadKeeps(fetched: seq<nat>, processed: set<nat>)
    ensures forall mid :: mid in Unread(fetched, processed) <==> mid in fetched && mid !in processed
    ensures Distinct(fetched) ==> Distinct(Unread(fetched, processed))
  {
    if fetched != [] {
      var n := |fetched| - 1;
      var rest := Unread(fetched[..n], processed);
      UnreadKeeps(fetched[..n], processed);
      assert forall mid :: mid in fetched <==> mid in fetched[..n] || mid == fetched[n] by {
        assert fetched == fetched[..n] + [fetched[n]];
      }
      if Distinct(fetched) {
        assert Distinct(rest) && fetched[n] !in rest;
        assert Distinct(rest + [fetched[n]]);
      }
    }
  }

  /** The shared base: the processed set and its filter. */
  class HermesAgent {
    var processed: set<nat>

    constructor (processed: set<nat>)
      ensures this.processed == processed
    {
      this.processed := processed;
    }

    method MarkProcessed(mid: nat)
      modifies this
      ensures processed == old(processed) + {mid}
    {
      processed := processed + {mid};
    }

    method GetNewMessages(fetched: seq<nat>) returns (unseen: seq<nat>)
      ensures unseen == Unread(fetched, processed)
    {
      unseen := [];
      for n := 0 to |fetched|
        invariant unseen == Unread(fetched[..n], processed)
      {
        assert fetched[..n + 1][..n] == fetched[..n];
        if fetched[n] !in processed { unseen := unseen + [fetched[n]]; }
      }
      assert fetched[..|fetched|] == fetched;
    }
  }

  /** The processed set once the fetched messages are handled. */
  function AllRead(fetched: seq<nat>, processed: set<nat>): (r: set<nat>) {
    processed + (set mid | mid in fetched)
  }

  function VerdictEvents(mids: seq<nat>): (r: seq<Event>) {
    seq(|mids|, i requires 0 <= i < |mids| => ReadVerdict(mids[i]))
  }

  function RouteEvents(mids: seq<nat>, sends: seq<Send>): (r: seq<Event>)
    requires |mids| <= |sends|
  {
    seq(|mids|, i requires 0 <= i < |mids| => RouteCompleted(mids[i], sends[i]))
  }

  /** A planner tick: verdicts, then completed work, then at most one dispatch. */
  function PlannerEvents(results: seq<nat>, completed: seq<nat>, processed: set<nat>, sends: seq<Send>, dispatch: Send)
    : (r: seq<Event>)
    requires |completed| <= |sends|
  {
    VerdictEvents(Unread(results, processed))
    + RouteEvents(Unread(completed, AllRead(results, processed)), sends)
    + [Dispatch(dispatch)]
  }

  /** What the codegen, apply and commit steps came to, and the fate of the answer. */
  datatype BuildOutcome = BuildOutcome(ok: bool, detail: string, send: Send)

  function BuildEvents(mids: seq<nat>, outcomes: seq<BuildOutcome>): (r: seq<Event>)
    requires |mids| <= |outcomes|
  {
    seq(|mids|, i requires 0 <= i < |mids| => Build(mids[i], outcomes[i].ok, outcomes[i].detail, outcomes[i].send))
  }

  ghost predicate FetchedFrom(log: seq<Message>, fetched: seq<nat>, kind: Message -> bool) {
    Distinct(fetched) && forall i | 0 <= i < |fetched| :: fetched[i] < |log| && kind(log[fetched[i]])
  }

  class PlannerV4 {
    const agent: HermesAgent
    const store: BacklogStore
    const chat: ChatLog
    const shipLog: ShipLogFile

    constructor (agent: HermesAgent, store: BacklogStore, chat: ChatLog, shipLog: ShipLogFile)
      ensures this.agent == agent && this.store == store && this.chat == chat && this.shipLog == shipLog
    {
      this.agent, this.store, this.chat, this.shipLog := agent, store, chat, shipLog;
    }

    /** The protocol state, with the other two agents' processed sets. */
    ghost function View(builder: set<nat>, qa: set<nat>): State
      reads agent, store, chat, shipLog
    {
      State(store.items, chat.log, agent.processed, builder, qa, shipLog.entries)
    }

    method DispatchNext(send: Send, ghost builder: set<nat>, ghost qa: set<nat>) returns (sent: bool)
      modifies store, chat, shipLog
      ensures View(builder, qa) == Next(old(View(builder, qa)), Dispatch(send))
      ensures sent <==> old(!AnyInFlight(store.items) && NextOpen(store.items).Some?) && send == Stored
    {
      var inProgress := store.InProgressItems();
      if inProgress != [] { return false; }
      var next := store.FindNextOpen();
      if next.None? { return false; }
      var item := next.value;
      var answer := chat.SendMsg(Proposal(item.id, item.title), send);
      if answer.Some? {
        var _ := store.UpdateStatus(item.id, InProgress, None);
        shipLog.Append(ShipEntry(item.id, item.title, DISPATCHED, "to builder"));
        return true;
      }
      return false;
    }

    method RouteOne(mid: nat, send: Send, ghost builder: set<nat>, ghost qa: set<nat>)
      requires mid < |chat.log| && chat.log[mid].Completed? && mid !in agent.processed
      modifies agent, store, chat
      ensures View(builder, qa) == Next(old(View(builder, qa)), RouteCompleted(mid, send))
      ensures agent.processed == old(agent.processed) + {mid} && old(chat.log) <= chat.log
    {
      var m := chat.log[mid];
      var backlogId := ExtractBacklogId(TitleOf(m) + " " + ContentOf(m));
      if backlogId.None? {
        agent.MarkProcessed(mid);
        return;
      }
      var _ := store.UpdateStatus(backlogId.value, Review, None);
      var _ := chat.SendMsg(ReviewRequest(backlogId.value, ContentOf(m)), send);
      agent.MarkProcessed(mid);
    }

    method JudgeOne(mid: nat, ghost builder: set<nat>, ghost qa: set<nat>)
      requires mid < |chat.log| && chat.log[mid].ReviewResult? && mid !in agent.processed
      modifies agent, store, shipLog
      ensures View(builder, qa) == Next(old(View(builder, qa)), ReadVerdict(mid))
      ensures agent.processed == old(agent.processed) + {mid}
    {
      var title := TitleOf(chat.log[mid]);
      var content := ContentOf(chat.log[mid]);
      var extracted := ExtractBacklogId(title + " " + content);
      if extracted.None? {
        agent.MarkProcessed(mid);
        return;
      }
      var backlogId := extracted.value;
      var passed := Contains(title, "PASSED") || Contains(content, "ALL PASS");
      if passed {
        var _ := store.UpdateStatus(backlogId, Done, None);
        shipLog.Append(ShipEntry(backlogId, TitleIn(store.items, backlogId), SHIPPED, "QA passed"));
      } else {
        var retries := store.IncrementRetry(backlogId);
        if retries > RETRY_LIMIT {
          var reason := "qa-failed-" + SignedDecimal(retries) + "x";
          var _ := store.UpdateStatus(backlogId, Status.Blocked, Some(reason));
          shipLog.Append(ShipEntry(backlogId, "", BLOCKED, "QA failed " + SignedDecimal(retries) + "x"));
        } else {
          var _ := store.UpdateStatus(backlogId, Open, None);
          shipLog.Append(ShipEntry(backlogId, "", RETRY, "attempt " + SignedDecimal(retries)));
        }
      }
      agent.MarkProcessed(mid);
    }

    method ProcessQaResults(fetched: seq<nat>, ghost builder: set<nat>, ghost qa: set<nat>)
      requires FetchedFrom(chat.log, fetched, (m: Message) => m.ReviewResult?)
      modifies agent, store, shipLog
      ensures View(builder, qa)
           == Run(old(View(builder, qa)), VerdictEvents(Unread(fetched, old(agent.processed))))
      ensures agent.processed == AllRead(fetched, old(agent.processed))
    {
      hide Next;
      var unseen := agent.GetNewMessages(fetched);
      UnreadKeeps(fetched, agent.processed);
      ghost var events: seq<Event> := [];
      for n := 0 to |unseen|
        invariant |events| == n && forall k | 0 <= k < n :: events[k] == ReadVerdict(unseen[k])
        invariant View(builder, qa) == Run(old(View(builder, qa)), events)
        invariant agent.processed == old(agent.processed) + (set k | 0 <= k < n :: unseen[k])
      {
        assert unseen[n] in fetched;
        JudgeOne(unseen[n], builder, qa);
        RunAppend(old(View(builder, qa)), events, ReadVerdict(unseen[n]));
        events := events + [ReadVerdict(unseen[n])];
      }
      assert events == VerdictEvents(unseen);
    }

    method ProcessCompleted(fetched: seq<nat>, sends: seq<Send>, ghost builder: set<nat>, ghost qa: set<nat>)
      requires |fetched| <= |sends|
      requires FetchedFrom(chat.log, fetched, (m: Message) => m.Completed?)
      modifies agent, store, chat
      ensures View(builder, qa)
           == Run(old(View(builder, qa)), RouteEvents(Unread(fetched, old(agent.processed)), sends))
    {
      hide Next;
      var unseen := agent.GetNewMessages(fetched);
      UnreadKeeps(fetched, agent.processed);
      ghost var events: seq<Event> := [];
      for n := 0 to |unseen|
        invariant |events| == n && forall k | 0 <= k < n :: events[k] == RouteCompleted(unseen[k], sends[k])
        invariant View(builder, qa) == Run(old(View(builder, qa)), events)
        invariant old(chat.log) <= chat.log
        invariant forall k | n <= k < |unseen| :: unseen[k] !in agent.processed
      {
        assert unseen[n] in fetched && chat.log[unseen[n]] == old(chat.log)[unseen[n]];
        RouteOne(unseen[n], sends[n], builder, qa);
        RunAppend(old(View(builder, qa)), events, RouteCompleted(unseen[n], sends[n]));
        events := events + [RouteCompleted(unseen[n], sends[n])];
      }
      assert events == RouteEvents(unseen, sends);
    }

    method OnTick(results: seq<nat>, completed: seq<nat>, sends: seq<Send>, dispatch: Send,
                  ghost builder: set<nat>, ghost qa: set<nat>)
      requires |completed| <= |sends|
      requires FetchedFrom(chat.log, results, (m: Message) => m.ReviewResult?)
      requires FetchedFrom(chat.log, completed, (m: Message) => m.Completed?)
      modifies agent, store, chat, shipLog
      ensures View(builder, qa)
           == Run(old(View(builder, qa)), PlannerEvents(results, completed, old(agent.processed), sends, dispatch))
      ensures old(Inv(View(builder, qa))) && dispatch != Unanswered ==> Inv(View(builder, qa))
    {
      hide Next, Inv;
      ghost var start := View(builder, qa);
      ghost var judged := VerdictEvents(Unread(results, agent.processed));
      ghost var routed := RouteEvents(Unread(completed, AllRead(results, agent.processed)), sends);
      ghost var events := PlannerEvents(results, completed, agent.processed, sends, dispatch);
      ProcessQaResults(results, builder, qa);
      RunSplits(start, judged, routed);
      ProcessCompleted(completed, sends, builder, qa);
      RunAppend(start, judged + routed, Dispatch(dispatch));
      var _ := DispatchNext(dispatch, builder, qa);
      assert events == judged + routed + [Dispatch(dispatch)];
      if Inv(start) && dispatch != Unanswered {
        RunKeepsInv(start, events);
      }
    }
  }

  class BuilderV6 {
    const agent: HermesAgent
    const chat: ChatLog

    constructor (agent: HermesAgent, chat: ChatLog)
      ensures this.agent == agent && this.chat == chat
    {
      this.agent, this.chat := agent, chat;
    }

    /** The protocol state, with everything the builder does not touch. */
    ghost function View(rest: State): State
      reads agent, chat
    {
      rest.(log := chat.log, builder := agent.processed)
    }

    method BuildOne(mid: nat, outcome: BuildOutcome, ghost rest: State)
      requires mid < |chat.log| && chat.log[mid].Proposal? && mid !in agent.processed
      modifies agent, chat
      ensures View(rest) == Next(old(View(rest)), Build(mid, outcome.ok, outcome.detail, outcome.send))
      ensures agent.processed == old(agent.processed) + {mid} && old(chat.log) <= chat.log
    {
      var m := chat.log[mid];
      if m.itemId == "AB-410" || m.itemId == "PAP-5-METAVERSE-1" {
        agent.MarkProcessed(mid);
        return;
      }
      var _ := chat.SendMsg(Completed(m.itemId, m.title, outcome.ok, outcome.detail), outcome.send);
      agent.MarkProcessed(mid);
    }

    method BuildAll(mids: seq<nat>, outcomes: seq<BuildOutcome>, ghost rest: State)
      requires |mids| <= |outcomes| && Distinct(mids)
      requires forall k | 0 <= k < |mids| ::
                 mids[k] < |chat.log| && chat.log[mids[k]].Proposal? && mids[k] !in agent.processed
      modifies agent, chat
      ensures View(rest) == Run(old(View(rest)), BuildEvents(mids, outcomes))
    {
      ghost var start := View(rest);
      ghost var events: seq<Event> := [];
      for n := 0 to |mids|
        invariant |events| == n
        invariant forall k | 0 <= k < n ::
                    events[k] == Build(mids[k], outcomes[k].ok, outcomes[k].detail, outcomes[k].send)
        invariant View(rest) == Run(start, events)
        invariant old(chat.log) <= chat.log
        invariant forall k | n <= k < |mids| :: mids[k] !in agent.processed
      {
        assert chat.log[mids[n]] == old(chat.log)[mids[n]];
        BuildOne(mids[n], outcomes[n], rest);
        ghost var e := Build(mids[n], outcomes[n].ok, outcomes[n].detail, outcomes[n].send);
        RunAppend(start, events, e);
        events := events + [e];
      }
      assert events == BuildEvents(mids, outcomes);
    }

    /** One tick: at most two proposals, each answered unless its id is on the skip list. */
    method OnTick(fetched: seq<nat>, outcomes: seq<BuildOutcome>, ghost rest: State)
      requires |outcomes| == 2
      requires FetchedFrom(chat.log, fetched, (m: Message) => m.Proposal?)
      modifies agent, chat
      ensures var unseen := Unread(fetched, old(agent.processed));
              var taken := if |unseen| <= 2 then unseen else unseen[..2];
              View(rest) == Run(old(View(rest)), BuildEvents(taken, outcomes))
    {
      var unseen := agent.GetNewMessages(fetched);
      UnreadKeeps(fetched, agent.processed);
      var taken := if |unseen| <= 2 then unseen else unseen[..2];
      forall k | 0 <= k < |taken|
        ensures taken[k] < |chat.log| && chat.log[taken[k]].Proposal? && taken[k] !in agent.processed
      {
        assert unseen[k] in fetched && unseen[k] !in agent.processed;
      }
      BuildAll(taken, outcomes, rest);
    }
  }

  lemma {:induction false} RunLinesAppend(runs: seq<CriterionRun>, run: CriterionRun)
    ensures RunLines(runs + [run]) == RunLines(runs) + RunLine(run)
  {
    if runs == [] {
      assert [run][1..] == [];
      assert RunLines([run]) == RunLine(run) + RunLines([]);
    } else {
      RunLinesAppend(runs[1..], run);
      assert (runs + [run])[1..] == runs[1..] + [run];
    }
  }

  /** The shell's answer to the i-th criterion: exit code 0 or not, and the output. */
  type Shell = (nat, string) -> (bool, string)

  function RunsOf(criteria: seq<string>, shell: Shell): (r: seq<CriterionRun>) {
    seq(|criteria|, i requires 0 <= i < |criteria| => CriterionRun(criteria[i], shell(i, criteria[i]).0, shell(i, criteria[i]).1))
  }

  /** The review of the item a request names: its criteria, run by the shell. */
  function ReviewEvent(items: seq<Item>, request: Message, mid: nat, shell: Shell, send: Send): (e: Event)
    ensures e.RunReview? && e.mid == mid
  {
    match ExtractBacklogId(SearchText(request))
    case None => RunReview(mid, [], send)
    case Some(id) =>
      match IndexOf(items, id)
      case None => RunReview(mid, [], send)
      case Some(i) => RunReview(mid, RunsOf(items[i].acceptance, shell), send)
  }

  function ReviewEvents(items: seq<Item>, log: seq<Message>, mids: seq<nat>, shells: seq<Shell>, sends: seq<Send>)
    : (r: seq<Event>)
    requires |mids| <= |shells| && |mids| <= |sends| && forall k | 0 <= k < |mids| :: mids[k] < |log|
  {
    seq(|mids|, k requires 0 <= k < |mids| => ReviewEvent(items, log[mids[k]], mids[k], shells[k], sends[k]))
  }

  /** The result posted for an item: one run per criterion, in order, with the exit codes and
      outputs the shell gave. */
  ghost predicate ReportsShell(m: Message, item: Item, shell: Shell) {
    && m.ReviewResult? && m.itemId == item.id && m.found && |m.runs| == |item.acceptance|
    && forall c: nat | c < |m.runs| ::
         m.runs[c] == CriterionRun(item.acceptance[c], shell(c, item.acceptance[c]).0, shell(c, item.acceptance[c]).1)
  }

  lemma ReviewReportsShell(s: State, mid: nat, shell: Shell, send: Send, i: nat)
    requires DistinctIds(s.items) && mid < |s.log| && s.log[mid].ReviewRequest? && mid !in s.qa && send != Lost
    requires i < |s.items| && s.items[i].id == s.log[mid].itemId
    ensures var t := Next(s, ReviewEvent(s.items, s.log[mid], mid, shell, send));
            |t.log| == |s.log| + 1 && ReportsShell(t.log[|s.log|], s.items[i], shell)
  {
    hide ContentOf, TitleOf, ExtractBacklogId;
    ReaderFindsItem(s.log[mid]);
    IndexUnique(s.items, i);
    assert Criteria(RunsOf(s.items[i].acceptance, shell)) == s.items[i].acceptance;
  }

  class QAAgentV6 {
    const agent: HermesAgent
    const chat: ChatLog
    const store: BacklogStore

    constructor (agent: HermesAgent, chat: ChatLog, store: BacklogStore)
      ensures this.agent == agent && this.chat == chat && this.store == store
    {
      this.agent, this.chat, this.store := agent, chat, store;
    }

    ghost function View(rest: State): State
      reads agent, chat, store
    {
      rest.(log := chat.log, qa := agent.processed, items := store.items)
    }

    method RunCriteria(criteria: seq<string>, shell: Shell) returns (results: seq<CriterionRun>, passed: bool)
      ensures results == RunsOf(criteria, shell)
      ensures passed <==> criteria != [] && forall i | 0 <= i < |criteria| :: shell(i, criteria[i]).0
    {
      results := [];
      for i := 0 to |criteria|
        invariant results == RunsOf(criteria[..i], shell)
      {
        var (ok, out) := shell(i, criteria[i]);
        results := results + [CriterionRun(criteria[i], ok, out)];
      }
      assert criteria[..|criteria|] == criteria;
      passed := (forall r | r in results :: r.ok) && |results| > 0;
      assert forall i | 0 <= i < |criteria| :: results[i] in results && results[i].ok == shell(i, criteria[i]).0;
    }

    method FormatReport(id: string, results: seq<CriterionRun>, passed: bool) returns (body: string)
      requires passed == AllPassed(results)
      ensures body == ContentOf(ReviewResult(id, true, results))
    {
      var lines := [VERDICT_FOR + id + ": " + (if passed then "PASSED" else "FAILED"),
                    TESTED + Decimal(|results|) + CRITERIA,
                    ""];
      ghost var header := lines;
      for n := 0 to |results|
        invariant lines == header + RunLines(results[..n])
      {
        var r := results[n];
        RunLinesAppend(results[..n], r);
        assert results[..n + 1] == results[..n] + [r];
        lines := lines + [(if r.ok then "[PASS] " else "[FAIL] ") + r.criterion];
        if !r.ok && r.output != "" {
          lines := lines + [OUTPUT + Take(r.output, 200)];
        }
        assert lines == header + (RunLines(results[..n]) + RunLine(r));
      }
      assert results[..|results|] == results;
      assert lines == ReportLines(id, results);
      body := Join(lines);
    }

    method ReviewOne(mid: nat, shell: Shell, send: Send, ghost rest: State)
      requires mid < |chat.log| && chat.log[mid].ReviewRequest? && mid !in agent.processed
      modifies agent, chat
      ensures View(rest) == Next(old(View(rest)), ReviewEvent(store.items, old(chat.log[mid]), mid, shell, send))
      ensures agent.processed == old(agent.processed) + {mid} && old(chat.log) <= chat.log
      ensures forall i | 0 <= i < |store.items| && DistinctIds(store.items) && send != Lost
                         && store.items[i].id == old(chat.log[mid]).itemId ::
                |chat.log| == |old(chat.log)| + 1 && ReportsShell(chat.log[|old(chat.log)|], store.items[i], shell)
    {
      hide ContentOf, TitleOf, ExtractBacklogId, ReportsShell, DistinctIds;
      forall i | 0 <= i < |store.items| && DistinctIds(store.items) && send != Lost
                 && store.items[i].id == chat.log[mid].itemId
        ensures var t := Next(View(rest), ReviewEvent(store.items, chat.log[mid], mid, shell, send));
                |t.log| == |chat.log| + 1 && ReportsShell(t.log[|chat.log|], store.items[i], shell)
      {
        ReviewReportsShell(View(rest), mid, shell, send, i);
      }
      var m := chat.log[mid];
      var extracted := ExtractBacklogId(TitleOf(m) + " " + ContentOf(m));
      if extracted.Some? {
        var backlogId := extracted.value;
        var n := 0;
        while n < |store.items| && store.items[n].id != backlogId
          invariant n <= |store.items|
          invariant forall j | 0 <= j < n :: store.items[j].id != backlogId
        {
          n := n + 1;
        }
        if n == |store.items| {
          var _ := chat.SendMsg(ReviewResult(backlogId, false, []), send);
        } else {
          assert IndexOf(store.items, backlogId) == Some(n);
          var results, passed := RunCriteria(store.items[n].acceptance, shell);
          assert Criteria(results) == store.items[n].acceptance;
          assert passed == AllPassed(results);
          var body := FormatReport(backlogId, results, passed);
          assert body == ContentOf(ReviewResult(backlogId, true, results));
          var _ := chat.SendMsg(ReviewResult(backlogId, true, results), send);
        }
      }
      agent.MarkProcessed(mid);
    }

    method OnTick(fetched: seq<nat>, shells: seq<Shell>, sends: seq<Send>, ghost rest: State)
      requires |fetched| <= |shells| && |fetched| <= |sends|
      requires FetchedFrom(chat.log, fetched, (m: Message) => m.ReviewRequest?)
      modifies agent, chat
      ensures var unseen := Unread(fetched, old(agent.processed));
              && (forall k | 0 <= k < |unseen| :: unseen[k] < |old(chat.log)|)
              && View(rest) == Run(old(View(rest)), ReviewEvents(store.items, old(chat.log), unseen, shells, sends))
    {
      hide Next, ReviewEvent;
      var unseen := agent.GetNewMessages(fetched);
      UnreadKeeps(fetched, agent.processed);
      ghost var events: seq<Event> := [];
      for n := 0 to |unseen|
        invariant |events| == n
        invariant forall k | 0 <= k < n ::
                    unseen[k] < |old(chat.log)|
                    && events[k] == ReviewEvent(store.items, old(chat.log)[unseen[k]], unseen[k], shells[k], sends[k])
        invariant View(rest) == Run(old(View(rest)), events)
        invariant old(chat.log) <= chat.log
        invariant forall k | n <= k < |unseen| :: unseen[k] !in agent.processed
        invariant forall k | 0 <= k < |unseen| :: unseen[k] in fetched
      {
        assert chat.log[unseen[n]] == old(chat.log)[unseen[n]];
        ReviewOne(unseen[n], shells[n], sends[n], rest);
        ghost var e := ReviewEvent(store.items, old(chat.log)[unseen[n]], unseen[n], shells[n], sends[n]);
        RunAppend(old(View(rest)), events, e);
        events := events + [e];
      }
      assert events == ReviewEvents(store.items, old(chat.log), unseen, shells, sends);
    }
  }
}
