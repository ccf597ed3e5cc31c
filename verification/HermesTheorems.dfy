/** What every run of the fleet guarantees about dispatches, dependencies and shipped items. */
module HermesTheorems {
  import opened Text
  import opened HermesMessages
  import opened HermesProtocol

  // ---- what one event can do to the backlog and the ship log --------------------------

  ghost predicate MovesOn(before: Item, item: Item, added: seq<ShipEntry>) {
    InFlight(before) && InFlight(item) && item == before.(status := item.status) && added == []
  }

  ghost predicate IsDispatched(s: State, before: Item, item: Item, added: seq<ShipEntry>) {
    && Ready(s.items, before) && !AnyInFlight(s.items)
    && item == before.(status := InProgress)
    && added == [ShipEntry(before.id, before.title, DISPATCHED, "to builder")]
  }

  ghost predicate IsJudged(before: Item, item: Item, added: seq<ShipEntry>) {
    InFlight(before) && exists passed :: item == Judged(before, passed) && added == [JudgedEntry(before, passed)]
  }

  ghost predicate Changes(s: State, t: State, i: nat, item: Item, added: seq<ShipEntry>) {
    && i < |s.items| && item.id == s.items[i].id && item.acceptance == s.items[i].acceptance
    && t.items == s.items[i := item] && t.ship == s.ship + added
    && (MovesOn(s.items[i], item, added)
        || IsDispatched(s, s.items[i], item, added)
        || IsJudged(s.items[i], item, added))
  }

  ghost predicate Idle(s: State, t: State) {
    t.items == s.items && t.ship == s.ship
  }

  /** Every event leaves the backlog and the ship log alone, moves the item in flight on,
      dispatches a ready item, or judges the item in flight. */
  lemma Effect(s: State, e: Event) returns (i: nat, item: Item, added: seq<ShipEntry>)
    requires Inv(s) && Answered(e)
    ensures Idle(s, Next(s, e)) || Changes(s, Next(s, e), i, item, added)
    ensures s.log <= Next(s, e).log
    ensures Fits(s, e) ==> !Idle(s, Next(s, e)) || !e.ReadVerdict?
  {
    hide Route, Judge, BuildItem, ReviewItem;
    i, added := 0, [];
    item := Item("", "", Open, 0, "", []);
    if Fits(s, e) {
      var answers;
      i, item, answers := EventHandles(s, e);
      if e.ReadVerdict? {
        added := [JudgedEntry(s.items[i], ReadsPassed(s.log[e.mid]))];
        assert |Next(s, e).ship| == |s.ship| + 1;
      } else {
        assert s.ship + [] == s.ship;
      }
    } else if e.Dispatch? && !AnyInFlight(s.items) && NextOpen(s.items).Some? && e.send == Stored {
      i := NextOpen(s.items).value;
      item := s.items[i].(status := InProgress);
      added := [ShipEntry(item.id, item.title, DISPATCHED, "to builder")];
      IndexUnique(s.items, i);
    }
  }

  // ---- dispatches -------------------------------------------------------------------

  function Max(a: int, b: int): (r: int) {
    if a >= b then a else b
  }

  /** Dispatches an item can still get. */
  function Remaining(item: Item): (r: nat) {
    if item.status == Open then Max(1, RETRY_LIMIT + 1 - item.retries)
    else if InFlight(item) then Max(0, RETRY_LIMIT - item.retries)
    else 0
  }

  /** Entries with this status about this item. */
  function Count(ship: seq<ShipEntry>, id: string, status: ShipStatus): (r: nat) {
    if ship == [] then 0
    else
      var last := ship[|ship| - 1];
      Count(ship[..|ship| - 1], id, status) + if last.itemId == id && last.status == status then 1 else 0
  }

  function CountAll(ship: seq<ShipEntry>, status: ShipStatus): (r: nat) {
    if ship == [] then 0
    else CountAll(ship[..|ship| - 1], status) + if ship[|ship| - 1].status == status then 1 else 0
  }

  lemma CountOneMore(ship: seq<ShipEntry>, entry: ShipEntry, id: string, status: ShipStatus)
    ensures Count(ship + [entry], id, status)
         == Count(ship, id, status) + if entry.itemId == id && entry.status == status then 1 else 0
    ensures CountAll(ship + [entry], status)
         == CountAll(ship, status) + if entry.status == status then 1 else 0
  {
    assert (ship + [entry])[..|ship|] == ship;
  }

  /** One event never raises dispatched-so-far plus dispatches-left of any item. */
  lemma BudgetStep(s: State, e: Event, k: nat)
    requires Inv(s) && Answered(e) && k < |s.items|
    ensures var t := Next(s, e);
            && |t.items| == |s.items| && t.items[k].id == s.items[k].id
            && Count(t.ship, s.items[k].id, DISPATCHED) + Remaining(t.items[k])
               <= Count(s.ship, s.items[k].id, DISPATCHED) + Remaining(s.items[k])
  {
    hide Next;
    var i, item, added := Effect(s, e);
    if !Idle(s, Next(s, e)) {
      if added == [] {
        assert s.ship + added == s.ship;
      } else {
        CountOneMore(s.ship, added[0], s.items[k].id, DISPATCHED);
      }
    }
  }

  lemma {:induction false} BudgetKept(s: State, events: seq<Event>, k: nat)
    requires Inv(s) && AllAnswered(events) && k < |s.items|
    ensures var t := Run(s, events);
            && |t.items| == |s.items| && t.items[k].id == s.items[k].id
            && Count(t.ship, s.items[k].id, DISPATCHED) + Remaining(t.items[k])
               <= Count(s.ship, s.items[k].id, DISPATCHED) + Remaining(s.items[k])
  {
    if events != [] {
      var n := |events| - 1;
      BudgetKept(s, events[..n], k);
      RunKeepsInv(s, events[..n]);
      BudgetStep(Run(s, events[..n]), events[n], k);
    }
  }

  /** An item that starts open without retries is dispatched at most RETRY_LIMIT + 1 times. */
  lemma AtMostThreeDispatches(s: State, events: seq<Event>, k: nat)
    requires Inv(s) && AllAnswered(events) && k < |s.items|
    requires s.items[k].status == Open && s.items[k].retries == 0
    ensures Count(Run(s, events).ship, s.items[k].id, DISPATCHED)
         <= Count(s.ship, s.items[k].id, DISPATCHED) + RETRY_LIMIT + 1
  {
    BudgetKept(s, events, k);
  }

  // ---- the whole fleet runs out of work -------------------------------------------------

  /** Two for each dispatch left and one for a verdict still to come. */
  function Weight(item: Item): (r: nat) {
    2 * Remaining(item) + if InFlight(item) then 1 else 0
  }

  function TotalWeight(items: seq<Item>): (r: nat) {
    if items == [] then 0 else Weight(items[0]) + TotalWeight(items[1..])
  }

  function TotalRemaining(items: seq<Item>): (r: nat) {
    if items == [] then 0 else Remaining(items[0]) + TotalRemaining(items[1..])
  }

  lemma {:induction false} TotalsChange(items: seq<Item>, i: nat, item: Item)
    requires i < |items|
    ensures TotalWeight(items[i := item]) + Weight(items[i]) == TotalWeight(items) + Weight(item)
    ensures TotalRemaining(items[i := item]) + Remaining(items[i]) == TotalRemaining(items) + Remaining(item)
  {
    if i == 0 {
      assert items[0 := item][1..] == items[1..];
    } else {
      TotalsChange(items[1..], i - 1, item);
      assert items[i := item][1..] == items[1..][i - 1 := item];
    }
  }

  lemma {:induction false} TotalsBounded(items: seq<Item>)
    requires forall i | 0 <= i < |items| :: items[i].retries >= 0
    ensures TotalRemaining(items) <= (RETRY_LIMIT + 1) * |items|
    ensures TotalWeight(items) <= 2 * (RETRY_LIMIT + 1) * |items|
  {
    if items != [] {
      assert forall i | 0 <= i < |items[1..]| :: items[1..][i] == items[i + 1];
      TotalsBounded(items[1..]);
    }
  }

  /** The measure: it never rises, every new ship-log line uses up at least one of it,
      and a handled verdict always writes a line. */
  lemma MeasureStep(s: State, e: Event)
    requires Inv(s) && Answered(e)
    ensures var t := Next(s, e);
            && |s.ship| <= |t.ship| && |t.ship| + TotalWeight(t.items) <= |s.ship| + TotalWeight(s.items)
            && CountAll(t.ship, DISPATCHED) + TotalRemaining(t.items)
               <= CountAll(s.ship, DISPATCHED) + TotalRemaining(s.items)
    ensures e.ReadVerdict? && Fits(s, e) ==> TotalWeight(Next(s, e).items) < TotalWeight(s.items)
  {
    hide Next, Inv;
    var i, item, added := Effect(s, e);
    if !Idle(s, Next(s, e)) {
      TotalsChange(s.items, i, item);
      if added == [] {
        assert s.ship + added == s.ship;
        if e.ReadVerdict? && Fits(s, e) {
          var j, judged, answers := EventHandles(s, e);
        }
      } else {
        CountOneMore(s.ship, added[0], "", DISPATCHED);
      }
    }
  }

  lemma {:induction false} MeasureKept(s: State, events: seq<Event>)
    requires Inv(s) && AllAnswered(events)
    ensures var t := Run(s, events);
            && |t.ship| + TotalWeight(t.items) <= |s.ship| + TotalWeight(s.items)
            && CountAll(t.ship, DISPATCHED) + TotalRemaining(t.items)
               <= CountAll(s.ship, DISPATCHED) + TotalRemaining(s.items)
  {
    if events != [] {
      var n := |events| - 1;
      MeasureKept(s, events[..n]);
      RunKeepsInv(s, events[..n]);
      MeasureStep(Run(s, events[..n]), events[n]);
    }
  }

  /** In a run of any length there are at most three dispatches per item, and at most six
      dispatches and verdicts per item. */
  lemma FleetRunsOutOfWork(s: State, events: seq<Event>)
    requires Inv(s) && AllAnswered(events)
    requires forall i | 0 <= i < |s.items| :: s.items[i].retries >= 0
    ensures CountAll(Run(s, events).ship, DISPATCHED)
         <= CountAll(s.ship, DISPATCHED) + (RETRY_LIMIT + 1) * |s.items|
    ensures |Run(s, events).ship| <= |s.ship| + 2 * (RETRY_LIMIT + 1) * |s.items|
  {
    MeasureKept(s, events);
    TotalsBounded(s.items);
  }

  // ---- done and blocked are final ----------------------------------------------------

  /** What a run never changes in an item, and what it never leaves. */
  ghost predicate SameItem(before: Item, after: Item) {
    && after.id == before.id && after.title == before.title && after.acceptance == before.acceptance
    && (after.status != Status.Blocked ==> after.blockedBy == before.blockedBy)
    && (before.status == Done || before.status == Status.Blocked || before.status.Other? ==> after == before)
  }

  lemma SameItemStep(s: State, e: Event)
    requires Inv(s) && Answered(e)
    ensures |Next(s, e).items| == |s.items|
    ensures forall k | 0 <= k < |s.items| :: SameItem(s.items[k], Next(s, e).items[k])
  {
    hide Next;
    var i, item, added := Effect(s, e);
  }

  lemma {:induction false} FinalStatesStay(s: State, events: seq<Event>)
    requires Inv(s) && AllAnswered(events)
    ensures |Run(s, events).items| == |s.items|
    ensures forall k | 0 <= k < |s.items| :: SameItem(s.items[k], Run(s, events).items[k])
  {
    if events != [] {
      var n := |events| - 1;
      FinalStatesStay(s, events[..n]);
      RunKeepsInv(s, events[..n]);
      SameItemStep(Run(s, events[..n]), events[n]);
      var mid := Run(s, events[..n]).items;
      var end := Run(s, events).items;
      assert forall k | 0 <= k < |s.items| :: SameItem(s.items[k], mid[k]) && SameItem(mid[k], end[k]);
    }
  }

  // ---- what an item needs to become done ------------------------------------------------

  /** A review result about the item from a run of exactly its criteria that the planner takes as passed. */
  predicate Evidence(m: Message, item: Item) {
    && m.ReviewResult? && m.itemId == item.id && m.found
    && Criteria(m.runs) == item.acceptance
    && (AllPassed(m.runs) || MentionsAllPass(m.runs))
  }

  lemma DoneStep(s: State, e: Event, k: nat)
    requires Inv(s) && Answered(e) && k < |s.items| && s.items[k].status != Done
    requires |Next(s, e).items| == |s.items| && Next(s, e).items[k].status == Done
    ensures e.ReadVerdict? && e.mid < |s.log| && e.mid !in s.planner && Evidence(s.log[e.mid], s.items[k])
  {
    hide Route, Judge, BuildItem, ReviewItem;
    if e.Dispatch? {
      var i, item, added := Effect(s, e);
    } else if Fits(s, e) {
      var i, item, answers := EventHandles(s, e);
      assert Carries(s, e.mid);
      assert i == k;
      if e.ReadVerdict? {
        VerdictReadExactly(s.log[e.mid]);
      }
    }
  }

  /** What the planner has read stays read. */
  lemma PlannerGrows(s: State, e: Event)
    ensures s.planner <= Next(s, e).planner
  {
    hide ExtractBacklogId, SearchText, ReadsPassed, IndexOf, ContentOf, TitleOf;
  }

  lemma {:induction false} PlannerKeepsRead(s: State, events: seq<Event>)
    ensures s.planner <= Run(s, events).planner
  {
    hide Next;
    if events != [] {
      var n := |events| - 1;
      PlannerKeepsRead(s, events[..n]);
      PlannerGrows(Run(s, events[..n]), events[n]);
    }
  }

  /** The log shows why an item became done: a result the planner had not read before the run. */
  ghost predicate EvidenceRead(s: State, t: State, item: Item, mid: nat) {
    mid < |t.log| && mid !in s.planner && mid in t.planner && Evidence(t.log[mid], item)
  }

  /** An item that becomes done in a run has in the log the review result that shows why, and
      it is one that this run read. */
  lemma {:induction false} DoneHasEvidence(s: State, events: seq<Event>, k: nat) returns (mid: nat)
    requires Inv(s) && AllAnswered(events) && k < |s.items| && s.items[k].status != Done
    requires |Run(s, events).items| == |s.items| && Run(s, events).items[k].status == Done
    ensures EvidenceRead(s, Run(s, events), s.items[k], mid)
  {
    hide Next, Inv, Evidence;
    assert events != [];
    var n := |events| - 1;
    var u := Run(s, events[..n]);
    var t := Run(s, events);
    FinalStatesStay(s, events[..n]);
    RunKeepsInv(s, events[..n]);
    assert SameItem(s.items[k], u.items[k]);
    var i, item, added := Effect(u, events[n]);
    assert u.log <= t.log;
    PlannerGrows(u, events[n]);
    if u.items[k].status == Done {
      mid := DoneHasEvidence(s, events[..n], k);
      assert t.log[mid] == u.log[mid];
    } else {
      PlannerKeepsRead(s, events[..n]);
      DoneStep(u, events[n], k);
      mid := events[n].mid;
      ReadIsMarked(u, mid, u.items[k]);
      assert t.log[mid] == u.log[mid];
      SameEvidence(t.log[mid], s.items[k], u.items[k]);
    }
  }

  lemma ReadIsMarked(s: State, mid: nat, item: Item)
    requires mid < |s.log| && Evidence(s.log[mid], item) && mid !in s.planner
    ensures mid in Next(s, ReadVerdict(mid)).planner
  {
    hide ExtractBacklogId, SearchText, ReadsPassed, IndexOf;
  }

  lemma SameEvidence(m: Message, a: Item, b: Item)
    requires a.id == b.id && a.acceptance == b.acceptance && Evidence(m, b)
    ensures Evidence(m, a)
  {
  }

  /** So, when no result about the item that this run read carries the phrase "ALL PASS", at
      least one criterion of the item ran and every one of them exited 0. */
  lemma DoneMeansEveryCriterionPassed(s: State, events: seq<Event>, k: nat) returns (mid: nat)
    requires Inv(s) && AllAnswered(events) && k < |s.items| && s.items[k].status != Done
    requires |Run(s, events).items| == |s.items| && Run(s, events).items[k].status == Done
    requires forall m | 0 <= m < |Run(s, events).log| && m in Run(s, events).planner - s.planner
                        && Run(s, events).log[m].ReviewResult? && Run(s, events).log[m].itemId == s.items[k].id ::
               !MentionsAllPass(Run(s, events).log[m].runs)
    ensures s.items[k].acceptance != []
    ensures EvidenceRead(s, Run(s, events), s.items[k], mid)
    ensures forall c | 0 <= c < |Run(s, events).log[mid].runs| :: Run(s, events).log[mid].runs[c].ok
  {
    hide Run, Inv, MentionsAllPass;
    mid := DoneHasEvidence(s, events, k);
    assert |Criteria(Run(s, events).log[mid].runs)| > 0;
  }

  // ---- dependencies -----------------------------------------------------------------

  /** Every item the ship log shows as dispatched since line `base` had its blocker done, and has it still. */
  ghost predicate BlockersDone(s: State, t: State, base: nat) {
    && |t.items| == |s.items|
    && forall p | base <= p < |t.ship| && t.ship[p].status == DISPATCHED ::
         exists k | 0 <= k < |s.items| ::
           && s.items[k].id == t.ship[p].itemId
           && (s.items[k].blockedBy == "" || IsDone(t.items, s.items[k].blockedBy))
  }

  lemma DoneStays(s: State, e: Event, id: string)
    requires Inv(s) && Answered(e) && IsDone(s.items, id)
    ensures IsDone(Next(s, e).items, id)
  {
    SameItemStep(s, e);
    var k :| 0 <= k < |s.items| && s.items[k].id == id && s.items[k].status == Done;
    assert Next(s, e).items[k] == s.items[k];
  }

  lemma BlockersDoneStep(s: State, u: State, e: Event, base: nat)
    requires Inv(u) && Answered(e) && |u.items| == |s.items| && base <= |u.ship|
    requires forall k | 0 <= k < |s.items| :: SameItem(s.items[k], u.items[k])
    requires BlockersDone(s, u, base)
    ensures BlockersDone(s, Next(u, e), base)
  {
    hide Next, Inv;
    var t := Next(u, e);
    var i, item, added := Effect(u, e);
    forall p | base <= p < |t.ship| && t.ship[p].status == DISPATCHED
      ensures exists k | 0 <= k < |s.items| ::
                && s.items[k].id == t.ship[p].itemId
                && (s.items[k].blockedBy == "" || IsDone(t.items, s.items[k].blockedBy))
    {
      var k: nat;
      if p < |u.ship| {
        assert t.ship[p] == u.ship[p];
        k :| 0 <= k < |s.items| && s.items[k].id == u.ship[p].itemId
             && (s.items[k].blockedBy == "" || IsDone(u.items, s.items[k].blockedBy));
      } else {
        k := i;
        assert t.ship[p] == added[0];
        assert SameItem(s.items[i], u.items[i]);
      }
      if s.items[k].blockedBy != "" { DoneStays(u, e, s.items[k].blockedBy); }
    }
  }

  lemma ShipGrows(s: State, e: Event)
    requires Inv(s) && Answered(e)
    ensures s.ship <= Next(s, e).ship
  {
    var i, item, added := Effect(s, e);
  }

  lemma {:induction false} BlockersDoneAlways(s: State, events: seq<Event>)
    requires Inv(s) && AllAnswered(events)
    ensures s.ship <= Run(s, events).ship
    ensures BlockersDone(s, Run(s, events), |s.ship|)
  {
    if events != [] {
      var n := |events| - 1;
      BlockersDoneAlways(s, events[..n]);
      RunKeepsInv(s, events[..n]);
      FinalStatesStay(s, events[..n]);
      ShipGrows(Run(s, events[..n]), events[n]);
      BlockersDoneStep(s, Run(s, events[..n]), events[n], |s.ship|);
    }
  }

  /** The ship log is in topological order: an item whose blocker is also dispatched in the
      run is dispatched after every dispatch of the blocker. */
  ghost predicate Topological(s: State, t: State, base: nat) {
    forall p, q, k | base <= p < |t.ship| && base <= q < |t.ship| && 0 <= k < |s.items|
                     && t.ship[p].status == DISPATCHED && t.ship[q].status == DISPATCHED
                     && s.items[k].id == t.ship[p].itemId && s.items[k].blockedBy == t.ship[q].itemId ::
      q < p
  }

  lemma {:induction false} DispatchOrderIsTopological(s: State, events: seq<Event>)
    requires Inv(s) && AllAnswered(events)
    ensures Topological(s, Run(s, events), |s.ship|)
  {
    hide Next;
    if events != [] {
      var n := |events| - 1;
      var u := Run(s, events[..n]);
      var t := Run(s, events);
      DispatchOrderIsTopological(s, events[..n]);
      BlockersDoneAlways(s, events[..n]);
      RunKeepsInv(s, events[..n]);
      FinalStatesStay(s, events[..n]);
      var i, item, added := Effect(u, events[n]);
      forall p, q, k | |s.ship| <= p < |t.ship| && |s.ship| <= q < |t.ship| && 0 <= k < |s.items|
                       && t.ship[p].status == DISPATCHED && t.ship[q].status == DISPATCHED
                       && s.items[k].id == t.ship[p].itemId && s.items[k].blockedBy == t.ship[q].itemId
        ensures q < p
      {
        if q == |u.ship| {
          DispatchedWasNotDone(s, u, i, k, p, t.ship[q]);
        }
      }
    }
  }

  /** The blocker of an already dispatched item is done, so it is not the one dispatched now. */
  lemma DispatchedWasNotDone(s: State, u: State, i: nat, k: nat, p: nat, entry: ShipEntry)
    requires Inv(s) && Inv(u) && |u.items| == |s.items| && i < |u.items| && k < |s.items|
    requires forall j | 0 <= j < |s.items| :: SameItem(s.items[j], u.items[j])
    requires u.items[i].status == Open && entry.itemId == u.items[i].id
    requires s.items[k].blockedBy == entry.itemId
    requires |s.ship| <= p && BlockersDone(s, u, |s.ship|)
    ensures p < |u.ship| && u.ship[p].status == DISPATCHED ==> u.ship[p].itemId != s.items[k].id
  {
    assert !IsDone(u.items, u.items[i].id);
    assert entry.itemId != "" by { assert IsBacklogId(u.items[i].id); }
    if p < |u.ship| && u.ship[p].status == DISPATCHED && u.ship[p].itemId == s.items[k].id {
      DispatchedBlockerIsDone(s, u, k, p);
    }
  }

  lemma DispatchedBlockerIsDone(s: State, u: State, k: nat, p: nat)
    requires DistinctIds(s.items) && k < |s.items| && BlockersDone(s, u, |s.ship|)
    requires |s.ship| <= p < |u.ship| && u.ship[p].status == DISPATCHED && u.ship[p].itemId == s.items[k].id
    ensures s.items[k].blockedBy == "" || IsDone(u.items, s.items[k].blockedBy)
  {
    var j :| 0 <= j < |s.items| && s.items[j].id == u.ship[p].itemId
             && (s.items[j].blockedBy == "" || IsDone(u.items, s.items[j].blockedBy));
    assert j == k;
  }

  /** A set of items none of which can start: each is out of the queue for good, or open behind
      a blocker that is in the set or not in the backlog at all. */
  ghost predicate Stuck(items: seq<Item>, group: set<nat>) {
    forall k | k in group ::
      && k < |items|
      && (items[k].status == Status.Blocked || items[k].status.Other?
          || (items[k].status == Open && items[k].blockedBy != ""
              && forall j | 0 <= j < |items| && items[j].id == items[k].blockedBy :: j in group))
  }

  lemma StuckStep(s: State, e: Event, group: set<nat>, k: nat)
    requires Inv(s) && Answered(e) && Stuck(s.items, group) && k in group
    ensures Stuck(Next(s, e).items, group)
    ensures |Next(s, e).items| == |s.items| && Next(s, e).items[k].id == s.items[k].id
    ensures Count(Next(s, e).ship, s.items[k].id, DISPATCHED) == Count(s.ship, s.items[k].id, DISPATCHED)
  {
    hide Next;
    var t := Next(s, e);
    var i, item, added := Effect(s, e);
    if !Idle(s, t) {
      assert i !in group;
      if added == [] {
        assert s.ship + added == s.ship;
      } else {
        CountOneMore(s.ship, added[0], s.items[k].id, DISPATCHED);
      }
    }
  }

  /** Items on a dependency cycle with none done, behind a blocked item, or behind an id that
      is not in the backlog, are never dispatched again. */
  lemma {:induction false} StuckItemsNeverDispatched(s: State, events: seq<Event>, group: set<nat>, k: nat)
    requires Inv(s) && AllAnswered(events) && Stuck(s.items, group) && k in group
    ensures Stuck(Run(s, events).items, group)
    ensures |Run(s, events).items| == |s.items| && Run(s, events).items[k].id == s.items[k].id
    ensures Count(Run(s, events).ship, s.items[k].id, DISPATCHED) == Count(s.ship, s.items[k].id, DISPATCHED)
  {
    if events != [] {
      var n := |events| - 1;
      StuckItemsNeverDispatched(s, events[..n], group, k);
      RunKeepsInv(s, events[..n]);
      StuckStep(Run(s, events[..n]), events[n], group, k);
    }
  }

  // ---- where the guarantees end ---------------------------------------------------------

  /** A quiet backlog satisfies the invariant, so every run from it does. */
  lemma QuietStartsInvariant(s: State)
    requires Quiet(s)
    ensures Inv(s)
  {
  }

  /** From an invariant state a dispatch attempt keeps the invariant unless it posts a
      proposal whose answer is lost: then the item stays open although it is already out. */
  lemma DispatchKeepsInvExactly(s: State, send: Send)
    requires Inv(s)
    ensures Inv(Next(s, Dispatch(send)))
       <==> send != Unanswered || AnyInFlight(s.items) || NextOpen(s.items).None?
  {
    if send != Unanswered {
      DispatchKeepsInv(s, send);
    } else if !AnyInFlight(s.items) && NextOpen(s.items).Some? {
      var t := Next(s, Dispatch(send));
      var i := NextOpen(s.items).value;
      IndexUnique(s.items, i);
      assert t.log[|s.log|] == Proposal(s.items[i].id, s.items[i].title);
      assert Pending(t, |s.log|);
      assert !Carries(t, |s.log|);
    }
  }

  /** After a lost answer the same item is sent out a second time. */
  lemma LostAnswerDispatchesTwice(s: State)
    requires Inv(s) && !AnyInFlight(s.items) && NextOpen(s.items).Some?
    ensures var t := Run(s, [Dispatch(Unanswered), Dispatch(Stored)]);
            && |t.log| == |s.log| + 2 && Pending(t, |s.log|) && Pending(t, |s.log| + 1)
            && t.log[|s.log|] == t.log[|s.log| + 1]
  {
    var u := Next(s, Dispatch(Unanswered));
    RunOne(s, Dispatch(Unanswered));
    assert [Dispatch(Unanswered), Dispatch(Stored)][..1] == [Dispatch(Unanswered)];
    assert u.items == s.items;
  }
}
