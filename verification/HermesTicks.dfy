/** What a whole tick achieves, in terms of the messages it fetched. */
module HermesTicks {
  import opened Text
  import opened HermesMessages
  import opened HermesProtocol
  import opened HermesEffects
  import opened HermesAgents

  /** The list names, in fetch order, the messages at these places: all that are unread. */
  ghost predicate InFetchOrder(fetched: seq<nat>, processed: set<nat>, list: seq<nat>, places: seq<nat>) {
    && |places| == |list|
    && (forall k | 0 <= k < |places| ::
          places[k] < |fetched| && fetched[places[k]] == list[k] && list[k] !in processed)
    && (forall k, l | 0 <= k < l < |places| :: places[k] < places[l])
    && (forall p | 0 <= p < |fetched| && fetched[p] !in processed :: p in places)
  }

  lemma SkipsRead(fetched: seq<nat>, mid: nat, processed: set<nat>, list: seq<nat>, places: seq<nat>)
    requires InFetchOrder(fetched, processed, list, places) && mid in processed
    ensures InFetchOrder(fetched + [mid], processed, list, places)
  {
    assert forall p | 0 <= p < |fetched| :: (fetched + [mid])[p] == fetched[p];
  }

  lemma AddsUnread(fetched: seq<nat>, mid: nat, processed: set<nat>, list: seq<nat>, places: seq<nat>)
    requires InFetchOrder(fetched, processed, list, places) && mid !in processed
    ensures InFetchOrder(fetched + [mid], processed, list + [mid], places + [|fetched|])
  {
    var more, all := fetched + [mid], places + [|fetched|];
    assert forall p | 0 <= p < |fetched| :: more[p] == fetched[p];
    forall p | 0 <= p < |more| && more[p] !in processed ensures p in all {
      if p < |fetched| { assert p in places; } else { assert all[|places|] == p; }
    }
  }

  /** The unread messages are handled in the order they were fetched, none is left out. */
  lemma {:induction false} UnreadInOrder(fetched: seq<nat>, processed: set<nat>) returns (places: seq<nat>)
    ensures InFetchOrder(fetched, processed, Unread(fetched, processed), places)
  {
    if fetched == [] {
      places := [];
    } else {
      hide InFetchOrder;
      var n := |fetched| - 1;
      places := UnreadInOrder(fetched[..n], processed);
      assert fetched == fetched[..n] + [fetched[n]];
      if fetched[n] in processed {
        assert Unread(fetched[..n], processed) + [] == Unread(fetched[..n], processed);
        SkipsRead(fetched[..n], fetched[n], processed, Unread(fetched[..n], processed), places);
      } else {
        AddsUnread(fetched[..n], fetched[n], processed, Unread(fetched[..n], processed), places);
        places := places + [n];
      }
    }
  }

  // ---- what is read stays read ------------------------------------------------------------

  lemma StepGrows(s: State, e: Event)
    ensures s.log <= Next(s, e).log && s.planner <= Next(s, e).planner
  {
    hide ExtractBacklogId, SearchText, ReadsPassed, IndexOf, ContentOf, TitleOf;
  }

  lemma {:induction false} RunGrows(s: State, events: seq<Event>)
    ensures s.log <= Run(s, events).log && s.planner <= Run(s, events).planner
  {
    hide Next;
    if events != [] {
      var n := |events| - 1;
      RunGrows(s, events[..n]);
      StepGrows(Run(s, events[..n]), events[n]);
    }
  }

  /** The event is the planner's handling of this message. */
  predicate HandlesMessage(e: Event, log: seq<Message>, mid: nat) {
    mid < |log|
    && ((e.ReadVerdict? && e.mid == mid && log[mid].ReviewResult?)
        || (e.RouteCompleted? && e.mid == mid && log[mid].Completed?))
  }

  lemma HandledIsRead(s: State, e: Event, mid: nat)
    requires HandlesMessage(e, s.log, mid)
    ensures mid in Next(s, e).planner
  {
    hide ExtractBacklogId, SearchText, ReadsPassed, IndexOf, ContentOf, TitleOf;
  }

  lemma {:induction false} RunReads(s: State, events: seq<Event>, j: nat, mid: nat)
    requires j < |events| && HandlesMessage(events[j], s.log, mid)
    ensures mid in Run(s, events).planner
  {
    hide Next;
    var n := |events| - 1;
    var u := Run(s, events[..n]);
    RunGrows(s, events[..n]);
    StepGrows(u, events[n]);
    if j < n {
      RunReads(s, events[..n], j, mid);
    } else {
      assert u.log[mid] == s.log[mid];
      HandledIsRead(u, events[n], mid);
    }
  }

  /** A planner tick reads every message it fetched. */
  lemma TickReadsAll(s: State, results: seq<nat>, completed: seq<nat>, sends: seq<Send>, dispatch: Send, mid: nat)
    requires |completed| <= |sends|
    requires FetchedFrom(s.log, results, (m: Message) => m.ReviewResult?)
    requires FetchedFrom(s.log, completed, (m: Message) => m.Completed?)
    requires mid in results || mid in completed
    ensures mid in Run(s, PlannerEvents(results, completed, s.planner, sends, dispatch)).planner
  {
    hide Next, Run;
    var events := PlannerEvents(results, completed, s.planner, sends, dispatch);
    var read := AllRead(results, s.planner);
    RunGrows(s, events);
    UnreadKeeps(results, s.planner);
    UnreadKeeps(completed, read);
    if mid in results && mid !in s.planner {
      var k :| 0 <= k < |Unread(results, s.planner)| && Unread(results, s.planner)[k] == mid;
      assert events[k] == ReadVerdict(mid);
      RunReads(s, events, k, mid);
    } else if mid in completed && mid !in s.planner {
      KindsDiffer(s.log, results, completed, mid);
      var k :| 0 <= k < |Unread(completed, read)| && Unread(completed, read)[k] == mid;
      var j := |Unread(results, s.planner)| + k;
      assert events[j] == RouteCompleted(mid, sends[k]);
      RunReads(s, events, j, mid);
    }
  }

  lemma KindsDiffer(log: seq<Message>, results: seq<nat>, completed: seq<nat>, mid: nat)
    requires FetchedFrom(log, results, (m: Message) => m.ReviewResult?)
    requires FetchedFrom(log, completed, (m: Message) => m.Completed?) && mid in completed
    ensures mid !in results && mid < |log| && log[mid].Completed?
  {
  }

  /** A planner tick whose dispatch is stored leaves no ready item waiting: afterwards an item is
      in flight or none can start. So it sends out again what its own verdicts reopened. */
  lemma TickLeavesNothingWaiting(s: State, results: seq<nat>, completed: seq<nat>, sends: seq<Send>)
    requires |completed| <= |sends| && Inv(s)
    ensures var t := Run(s, PlannerEvents(results, completed, s.planner, sends, Stored));
            AnyInFlight(t.items) || forall i | 0 <= i < |t.items| :: !Ready(t.items, t.items[i])
  {
    hide Next, Inv;
    var before := VerdictEvents(Unread(results, s.planner))
                  + RouteEvents(Unread(completed, AllRead(results, s.planner)), sends);
    RunAppend(s, before, Dispatch(Stored));
    RunKeepsInv(s, before);
    var u := Run(s, before);
    DispatchStarts(u);
  }

  lemma DispatchStarts(u: State)
    requires Inv(u)
    ensures var t := Next(u, Dispatch(Stored));
            AnyInFlight(t.items) || forall i | 0 <= i < |t.items| :: !Ready(t.items, t.items[i])
  {
    if !AnyInFlight(u.items) && NextOpen(u.items).Some? {
      var i := NextOpen(u.items).value;
      IndexUnique(u.items, i);
      assert InFlight(Next(u, Dispatch(Stored)).items[i]);
    }
  }

  // ---- the builder's and QA's ticks --------------------------------------------------------------

  lemma BuildReadsOne(s: State, e: Event)
    requires e.Build?
    ensures Next(s, e).builder <= s.builder + {e.mid}
  {
  }

  lemma {:induction false} BuildsReadTheirOwn(s: State, events: seq<Event>, mid: nat)
    requires forall k | 0 <= k < |events| :: events[k].Build? && events[k].mid != mid
    ensures mid in Run(s, events).builder ==> mid in s.builder
  {
    hide Next;
    if events != [] {
      var n := |events| - 1;
      BuildsReadTheirOwn(s, events[..n], mid);
      BuildReadsOne(Run(s, events[..n]), events[n]);
    }
  }

  /** Of the proposals a builder tick takes, each is answered by a completion about its item with
      the outcome of its own build, unless its id is skipped or the post is lost. */
  lemma BuilderTickAnswers(s: State, mids: seq<nat>, outcomes: seq<BuildOutcome>, k: nat) returns (place: nat)
    requires |mids| <= |outcomes| && Distinct(mids) && k < |mids|
    requires mids[k] < |s.log| && s.log[mids[k]].Proposal? && mids[k] !in s.builder
    requires s.log[mids[k]].itemId !in ["AB-410", "PAP-5-METAVERSE-1"] && outcomes[k].send != Lost
    ensures var t := Run(s, BuildEvents(mids, outcomes));
            var m := s.log[mids[k]];
            |s.log| <= place < |t.log| && t.log[place] == Completed(m.itemId, m.title, outcomes[k].ok, outcomes[k].detail)
  {
    hide Next;
    var events := BuildEvents(mids, outcomes);
    var u := Run(s, events[..k]);
    var v := Run(s, events[..k + 1]);
    RunGrows(s, events[..k]);
    BuildsReadTheirOwn(s, events[..k], mids[k]);
    assert events[..k + 1][..k] == events[..k] && events[..k + 1][k] == events[k];
    assert events[k] == Build(mids[k], outcomes[k].ok, outcomes[k].detail, outcomes[k].send);
    assert u.log[mids[k]] == s.log[mids[k]];
    BuildEffect(u, mids[k], outcomes[k].ok, outcomes[k].detail, outcomes[k].send);
    place := |u.log|;
    RunSplits(s, events[..k + 1], events[k + 1..]);
    assert events[..k + 1] + events[k + 1..] == events;
    RunGrows(v, events[k + 1..]);
  }

  lemma ReviewReadsOne(s: State, e: Event)
    requires e.RunReview?
    ensures Next(s, e).qa <= s.qa + {e.mid} && Next(s, e).items == s.items
  {
    hide ExtractBacklogId, SearchText, IndexOf;
  }

  lemma {:induction false} ReviewsReadTheirOwn(s: State, events: seq<Event>, mid: nat)
    requires forall k | 0 <= k < |events| :: events[k].RunReview? && events[k].mid != mid
    ensures mid in Run(s, events).qa ==> mid in s.qa
    ensures Run(s, events).items == s.items
  {
    hide Next;
    if events != [] {
      var n := |events| - 1;
      ReviewsReadTheirOwn(s, events[..n], mid);
      ReviewReadsOne(Run(s, events[..n]), events[n]);
    }
  }

  /** Of the requests a QA tick takes, each is answered, unless the post is lost, by a result
      with exactly what the shell gave for the criteria of the item it names. */
  lemma QaTickReports(s: State, mids: seq<nat>, shells: seq<Shell>, sends: seq<Send>, k: nat, i: nat) returns (place: nat)
    requires |mids| <= |shells| && |mids| <= |sends| && Distinct(mids) && k < |mids|
    requires forall l | 0 <= l < |mids| :: mids[l] < |s.log|
    requires s.log[mids[k]].ReviewRequest? && mids[k] !in s.qa && sends[k] != Lost
    requires DistinctIds(s.items) && i < |s.items| && s.items[i].id == s.log[mids[k]].itemId
    ensures var t := Run(s, ReviewEvents(s.items, s.log, mids, shells, sends));
            |s.log| <= place < |t.log| && ReportsShell(t.log[place], s.items[i], shells[k])
  {
    hide Next, ReportsShell, ReviewEvent, DistinctIds;
    var events := ReviewEvents(s.items, s.log, mids, shells, sends);
    var u := Run(s, events[..k]);
    var v := Run(s, events[..k + 1]);
    RunGrows(s, events[..k]);
    ReviewsReadTheirOwn(s, events[..k], mids[k]);
    assert events[..k + 1][..k] == events[..k] && events[..k + 1][k] == events[k];
    assert u.log[mids[k]] == s.log[mids[k]];
    ReviewReportsShell(u, mids[k], shells[k], sends[k], i);
    place := |u.log|;
    RunSplits(s, events[..k + 1], events[k + 1..]);
    assert events[..k + 1] + events[k + 1..] == events;
    RunGrows(v, events[k + 1..]);
  }
}
