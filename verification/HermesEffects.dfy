/** What each event of the fleet does to the whole state, and where, over a run, the review
    results come from. */
module HermesEffects {
  import opened Text
  import opened HermesMessages
  import opened HermesProtocol
  import opened HermesTheorems

  // ---- one event ----------------------------------------------------------------------------

  /** An item can start iff it is open and names no blocker or one that is done. */
  lemma ReadyExactly(items: seq<Item>, item: Item)
    ensures Ready(items, item)
       <==> && item.status == Open
            && (item.blockedBy == ""
                || exists j | 0 <= j < |items| :: items[j].id == item.blockedBy && items[j].status == Done)
  {
  }

  /** A dispatch attempt does nothing while an item is in progress or in review, or when none is
      ready. Otherwise it proposes the first ready item: a lost post changes nothing, an
      unanswered one only the chat; a stored one puts the item in progress and logs it. */
  lemma DispatchEffect(s: State, send: Send) returns (i: nat)
    requires DistinctIds(s.items)
    ensures (exists j | 0 <= j < |s.items| :: s.items[j].status == InProgress || s.items[j].status == Review)
            || (forall j | 0 <= j < |s.items| :: !Ready(s.items, s.items[j]))
            ==> Next(s, Dispatch(send)) == s
    ensures (forall j | 0 <= j < |s.items| :: s.items[j].status != InProgress && s.items[j].status != Review)
            && (exists j | 0 <= j < |s.items| :: Ready(s.items, s.items[j]))
            ==>
              && i < |s.items| && Ready(s.items, s.items[i]) && (forall j | 0 <= j < i :: !Ready(s.items, s.items[j]))
              && var item := s.items[i];
                 Next(s, Dispatch(send))
                 == match send
                    case Lost => s
                    case Unanswered => s.(log := s.log + [Proposal(item.id, item.title)])
                    case Stored =>
                      s.(log := s.log + [Proposal(item.id, item.title)],
                         items := s.items[i := item.(status := InProgress)],
                         ship := s.ship + [ShipEntry(item.id, item.title, DISPATCHED, "to builder")])
  {
    hide Ready, DistinctIds;
    i := 0;
    assert AnyInFlight(s.items)
      <==> exists j | 0 <= j < |s.items| :: s.items[j].status == InProgress || s.items[j].status == Review by {
      if AnyInFlight(s.items) {
        var j :| 0 <= j < |s.items| && InFlight(s.items[j]);
      }
      if j :| 0 <= j < |s.items| && (s.items[j].status == InProgress || s.items[j].status == Review) {
        assert InFlight(s.items[j]);
      }
    }
    if !AnyInFlight(s.items) && NextOpen(s.items).Some? {
      i := NextOpen(s.items).value;
      IndexUnique(s.items, i);
    }
  }

  /** Routing completed work: the item goes to review, and QA is asked about it unless the post
      is lost. */
  lemma RouteEffect(s: State, mid: nat, send: Send) returns (i: nat)
    requires Inv(s) && Pending(s, mid) && s.log[mid].Completed?
    ensures i < |s.items| && s.items[i].id == s.log[mid].itemId && s.items[i].status == InProgress
    ensures Next(s, RouteCompleted(mid, send))
         == s.(planner := s.planner + {mid}, items := s.items[i := s.items[i].(status := Review)],
               log := s.log + if send == Lost then [] else [ReviewRequest(s.items[i].id, ContentOf(s.log[mid]))])
  {
    hide ContentOf, TitleOf, ExtractBacklogId, Route;
    assert Carries(s, mid);
    ReaderFindsItem(s.log[mid]);
    i := IndexOf(s.items, s.log[mid].itemId).value;
    RouteIs(s, mid, send, i);
  }

  /** Reading a verdict: a result read as passed ships the item; a failed one reopens it with one
      more retry, or, from the third on, blocks it for good. */
  lemma VerdictEffect(s: State, mid: nat) returns (i: nat)
    requires Inv(s) && Pending(s, mid) && s.log[mid].ReviewResult?
    ensures i < |s.items| && s.items[i].id == s.log[mid].itemId && s.items[i].status == Review
    ensures var item := s.items[i];
            var n := item.retries + 1;
            var passed := AllPassed(s.log[mid].runs) || MentionsAllPass(s.log[mid].runs);
            var after := if passed then item.(status := Done)
                         else if n <= 2 then item.(status := Open, retries := n)
                         else item.(status := Status.Blocked, retries := n,
                                    blockedBy := "qa-failed-" + SignedDecimal(n) + "x");
            var entry := if passed then ShipEntry(item.id, item.title, SHIPPED, "QA passed")
                         else if n <= 2 then ShipEntry(item.id, "", RETRY, "attempt " + SignedDecimal(n))
                         else ShipEntry(item.id, "", BLOCKED, "QA failed " + SignedDecimal(n) + "x");
            Next(s, ReadVerdict(mid))
            == s.(planner := s.planner + {mid}, items := s.items[i := after], ship := s.ship + [entry])
  {
    hide ExtractBacklogId, ReadsPassed, SearchText, Judge, SignedDecimal, MentionsAllPass, AllPassed;
    assert Carries(s, mid);
    ReaderFindsItem(s.log[mid]);
    VerdictReadExactly(s.log[mid]);
    i := IndexOf(s.items, s.log[mid].itemId).value;
    JudgeItems(s, mid, s.log[mid].itemId, i);
  }

  /** The retry counts of an item that starts at 0 read 1, 2 and 3. */
  lemma RetryTexts()
    ensures SignedDecimal(1) == "1" && SignedDecimal(2) == "2" && SignedDecimal(3) == "3"
  {
  }

  /** Building: the proposal is read and answered with the outcome, unless its id is one of the
      two that are skipped or the post is lost. */
  lemma BuildEffect(s: State, mid: nat, ok: bool, detail: string, send: Send)
    requires Pending(s, mid) && s.log[mid].Proposal?
    ensures var m := s.log[mid];
            Next(s, Build(mid, ok, detail, send))
            == s.(builder := s.builder + {mid},
                  log := s.log + if send == Lost || m.itemId in ["AB-410", "PAP-5-METAVERSE-1"] then []
                                 else [Completed(m.itemId, m.title, ok, detail)])
  {
    assert s.log + [] == s.log;
  }

  /** Reviewing: the exit codes of the item's own criteria, and nothing else, are posted about
      the item, unless the post is lost. */
  lemma ReviewEffect(s: State, mid: nat, runs: seq<CriterionRun>, send: Send) returns (i: nat)
    requires Inv(s) && Pending(s, mid) && s.log[mid].ReviewRequest?
    ensures i < |s.items| && s.items[i].id == s.log[mid].itemId && s.items[i].status == Review
    ensures var own := |runs| == |s.items[i].acceptance|
                       && forall c | 0 <= c < |runs| :: runs[c].criterion == s.items[i].acceptance[c];
            Next(s, RunReview(mid, runs, send))
            == if own then
                 s.(qa := s.qa + {mid},
                    log := s.log + if send == Lost then [] else [ReviewResult(s.items[i].id, true, runs)])
               else s
  {
    hide ContentOf, TitleOf, ExtractBacklogId;
    var m := s.log[mid];
    assert Carries(s, mid);
    ReaderFindsItem(m);
    i := IndexOf(s.items, m.itemId).value;
    assert s.log + [] == s.log;
    CriteriaAre(runs, s.items[i].acceptance);
  }

  lemma CriteriaAre(runs: seq<CriterionRun>, acceptance: seq<string>)
    ensures Criteria(runs) == acceptance
       <==> |runs| == |acceptance| && forall c | 0 <= c < |runs| :: runs[c].criterion == acceptance[c]
  {
    if |runs| == |acceptance| && forall c | 0 <= c < |runs| :: runs[c].criterion == acceptance[c] {
      assert Criteria(runs) == acceptance;
    } else if Criteria(runs) == acceptance {
      forall c | 0 <= c < |runs| ensures runs[c].criterion == acceptance[c] {
        assert Criteria(runs)[c] == acceptance[c];
      }
    }
  }

  // ---- over a run: no result without its review ------------------------------------------------

  /** Event j of the run is the review whose outcome the result carries: it read a request about
      the same item and posted exactly the exit codes it was given. */
  ghost predicate ReviewedBy(s: State, events: seq<Event>, j: nat, result: Message) {
    && j < |events| && events[j].RunReview? && result.ReviewResult?
    && events[j].runs == result.runs && events[j].send != Lost
    && var u := Run(s, events[..j]);
       events[j].mid < |u.log| && u.log[events[j].mid].ReviewRequest? && u.log[events[j].mid].itemId == result.itemId
  }

  /** One event adds at most one message, and a result only as the answer to a review. */
  lemma ResultStep(s: State, e: Event)
    requires Inv(s) && Answered(e)
    ensures s.log <= Next(s, e).log && |Next(s, e).log| <= |s.log| + 1
    ensures |Next(s, e).log| > |s.log| && Next(s, e).log[|s.log|].ReviewResult? ==>
              && e.RunReview? && e.send != Lost && e.mid < |s.log| && s.log[e.mid].ReviewRequest?
              && e.runs == Next(s, e).log[|s.log|].runs && s.log[e.mid].itemId == Next(s, e).log[|s.log|].itemId
  {
    hide Route, Judge, BuildItem, ReviewItem, ContentOf, SearchText, ExtractBacklogId, Inv;
    match e {
      case Dispatch(send) =>
      case RouteCompleted(mid, send) =>
        if mid < |s.log| && s.log[mid].Completed? && mid !in s.planner { var i := RouteEffect(s, mid, send); }
      case ReadVerdict(mid) =>
        if mid < |s.log| && s.log[mid].ReviewResult? && mid !in s.planner { var i := VerdictEffect(s, mid); }
      case Build(mid, ok, detail, send) =>
        if mid < |s.log| && s.log[mid].Proposal? && mid !in s.builder { BuildEffect(s, mid, ok, detail, send); }
      case RunReview(mid, runs, send) =>
        if mid < |s.log| && s.log[mid].ReviewRequest? && mid !in s.qa { var i := ReviewEffect(s, mid, runs, send); }
    }
  }

  /** Every result that a run adds to the log comes from a review of that run. */
  lemma {:induction false} ResultComesFromReview(s: State, events: seq<Event>, mid: nat) returns (j: nat)
    requires Inv(s) && AllAnswered(events) && |s.log| <= mid < |Run(s, events).log|
    requires Run(s, events).log[mid].ReviewResult?
    ensures ReviewedBy(s, events, j, Run(s, events).log[mid])
  {
    hide Next, Inv;
    assert events != [];
    var n := |events| - 1;
    var u := Run(s, events[..n]);
    RunKeepsInv(s, events[..n]);
    ResultStep(u, events[n]);
    if mid < |u.log| {
      j := ResultComesFromReview(s, events[..n], mid);
      assert Run(s, events).log[mid] == u.log[mid];
      assert events[..n][..j] == events[..j];
    } else {
      j := n;
    }
  }

  /** From a quiet start an item becomes done only through a review of this run: every one of
      its criteria was run, in order, and all exited 0 unless the phrase "ALL PASS" stands in a
      criterion or in the shown output of a failed one. */
  lemma DoneOnlyByReview(s: State, events: seq<Event>, k: nat) returns (j: nat)
    requires Quiet(s) && AllAnswered(events) && k < |s.items| && s.items[k].status != Done
    requires |Run(s, events).items| == |s.items| && Run(s, events).items[k].status == Done
    ensures j < |events| && events[j].RunReview? && Criteria(events[j].runs) == s.items[k].acceptance
    ensures var u := Run(s, events[..j]);
            events[j].mid < |u.log| && u.log[events[j].mid].ReviewRequest? && u.log[events[j].mid].itemId == s.items[k].id
    ensures MentionsAllPass(events[j].runs)
            || (events[j].runs != [] && forall c | 0 <= c < |events[j].runs| :: events[j].runs[c].ok)
  {
    hide Run, MentionsAllPass;
    QuietStartsInvariant(s);
    var mid := DoneHasEvidence(s, events, k);
    assert mid >= |s.log| by {
      if mid < |s.log| {
        LogOnlyGrows(s, events);
        QuietHasRead(s, mid);
      }
    }
    hide Inv, Quiet;
    j := ResultComesFromReview(s, events, mid);
  }

  lemma QuietHasRead(s: State, mid: nat)
    requires Quiet(s) && mid < |s.log|
    ensures s.log[mid].ReviewResult? ==> mid in s.planner
  {
    assert !Pending(s, mid);
  }

  lemma {:induction false} LogOnlyGrows(s: State, events: seq<Event>)
    requires Inv(s) && AllAnswered(events)
    ensures s.log <= Run(s, events).log
  {
    hide Next, Inv;
    if events != [] {
      var n := |events| - 1;
      LogOnlyGrows(s, events[..n]);
      RunKeepsInv(s, events[..n]);
      ResultStep(Run(s, events[..n]), events[n]);
    }
  }

  /** When no such review mentions the phrase, all of its criteria exited 0. */
  lemma DoneMeansExitCodesZero(s: State, events: seq<Event>, k: nat) returns (j: nat)
    requires Quiet(s) && AllAnswered(events) && k < |s.items| && s.items[k].status != Done
    requires |Run(s, events).items| == |s.items| && Run(s, events).items[k].status == Done
    requires forall e | e in events && e.RunReview? && Criteria(e.runs) == s.items[k].acceptance :: !MentionsAllPass(e.runs)
    ensures j < |events| && events[j].RunReview? && |events[j].runs| == |s.items[k].acceptance| > 0
    ensures forall c | 0 <= c < |events[j].runs| ::
              events[j].runs[c].criterion == s.items[k].acceptance[c] && events[j].runs[c].ok
  {
    hide Run, MentionsAllPass, Quiet;
    j := DoneOnlyByReview(s, events, k);
    assert events[j] in events;
    CriteriaAre(events[j].runs, s.items[k].acceptance);
  }
}
