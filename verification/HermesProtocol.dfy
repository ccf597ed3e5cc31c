/** The fleet as a state machine: the backlog, the append-only chat log, the three sets of
    processed message ids and the ship log, changed by one handled message at a time. */
module HermesProtocol {
  import opened Text
  import opened HermesMessages

  datatype ShipStatus = DISPATCHED | SHIPPED | BLOCKED | RETRY
  datatype ShipEntry = ShipEntry(itemId: string, title: string, status: ShipStatus, detail: string)

  datatype State = State(items: seq<Item>, log: seq<Message>, planner: set<nat>, builder: set<nat>,
                         qa: set<nat>, ship: seq<ShipEntry>)

  /** What became of a post: stored and answered, never stored, or stored with the answer lost. */
  datatype Send = Stored | Lost | Unanswered

  datatype Event =
    | Dispatch(send: Send)
    | RouteCompleted(mid: nat, send: Send)
    | ReadVerdict(mid: nat)
    | Build(mid: nat, ok: bool, detail: string, send: Send)
    | RunReview(mid: nat, runs: seq<CriterionRun>, send: Send)

  // ---- the backlog store -------------------------------------------------------------

  /** Index of the first item with this id. */
  function IndexOf(items: seq<Item>, id: string): (r: Option<nat>)
    ensures r.Some? ==> r.value < |items| && items[r.value].id == id
    ensures r.Some? ==> forall j | 0 <= j < r.value :: items[j].id != id
    ensures r.None? <==> forall j | 0 <= j < |items| :: items[j].id != id
  {
    if items == [] then None
    else if items[0].id == id then Some(0)
    else
      match IndexOf(items[1..], id)
      case None =>
        assert forall j | 0 < j < |items| :: items[j] == items[1..][j - 1];
        None
      case Some(i) =>
        assert forall j | 0 < j < |items| :: items[j] == items[1..][j - 1];
        Some(i + 1)
  }

  function SetStatus(items: seq<Item>, id: string, status: Status): (r: seq<Item>)
    ensures |r| == |items|
  {
    match IndexOf(items, id)
    case None => items
    case Some(i) => items[i := items[i].(status := status)]
  }

  function Retried(items: seq<Item>, id: string): (r: seq<Item>)
    ensures |r| == |items|
  {
    match IndexOf(items, id)
    case None => items
    case Some(i) => items[i := items[i].(retries := items[i].retries + 1)]
  }

  /** The count `increment_retry` returns: 0 for an unknown id. */
  function RetryCount(items: seq<Item>, id: string): (r: int) {
    match IndexOf(items, id)
    case None => 0
    case Some(i) => items[i].retries + 1
  }

  function SignedDecimal(n: int): (r: string) {
    if n < 0 then "-" + Decimal(-n) else Decimal(n)
  }

  function SetBlocked(items: seq<Item>, id: string, retries: int): (r: seq<Item>)
    ensures |r| == |items|
  {
    match IndexOf(items, id)
    case None => items
    case Some(i) =>
      items[i := items[i].(status := Status.Blocked, blockedBy := "qa-failed-" + SignedDecimal(retries) + "x")]
  }

  predicate InFlight(item: Item) {
    item.status == InProgress || item.status == Review
  }

  predicate AnyInFlight(items: seq<Item>) {
    exists i | 0 <= i < |items| :: InFlight(items[i])
  }

  predicate IsDone(items: seq<Item>, id: string) {
    exists i | 0 <= i < |items| :: items[i].id == id && items[i].status == Done
  }

  predicate Ready(items: seq<Item>, item: Item) {
    item.status == Open && (item.blockedBy == "" || IsDone(items, item.blockedBy))
  }

  /** Index of the first open item whose blocker, if it names one, is done. */
  function NextOpen(items: seq<Item>): (r: Option<nat>) {
    FirstReady(items, 0)
  }

  function FirstReady(items: seq<Item>, from: nat): (r: Option<nat>)
    requires from <= |items|
    ensures r.Some? ==> from <= r.value < |items| && Ready(items, items[r.value])
    ensures r.Some? ==> forall j | from <= j < r.value :: !Ready(items, items[j])
    ensures r.None? ==> forall j | from <= j < |items| :: !Ready(items, items[j])
    decreases |items| - from
  {
    if from == |items| then None
    else if Ready(items, items[from]) then Some(from)
    else FirstReady(items, from + 1)
  }

  // ---- the steps --------------------------------------------------------------------

  function Post(log: seq<Message>, m: Message, send: Send): (r: seq<Message>) {
    if send == Lost then log else log + [m]
  }

  /** The builder consumes these two ids without answering. */
  predicate SkippedByBuilder(id: string) {
    id == "AB-410" || id == "PAP-5-METAVERSE-1"
  }

  function Next(s: State, e: Event): (r: State) {
    match e
    case Dispatch(send) => DispatchOpen(s, send)
    case RouteCompleted(mid, send) =>
      if mid < |s.log| && s.log[mid].Completed? && mid !in s.planner then Route(s, mid, send) else s
    case ReadVerdict(mid) =>
      if mid < |s.log| && s.log[mid].ReviewResult? && mid !in s.planner then Judge(s, mid) else s
    case Build(mid, ok, detail, send) =>
      if mid < |s.log| && s.log[mid].Proposal? && mid !in s.builder then BuildItem(s, mid, ok, detail, send) else s
    case RunReview(mid, runs, send) =>
      if mid < |s.log| && s.log[mid].ReviewRequest? && mid !in s.qa then ReviewItem(s, mid, runs, send) else s
  }

  function DispatchOpen(s: State, send: Send): (r: State) {
    if AnyInFlight(s.items) then s
    else
      match NextOpen(s.items)
      case None => s
      case Some(i) =>
        var item := s.items[i];
        var posted := s.(log := Post(s.log, Proposal(item.id, item.title), send));
        if send == Stored then
          posted.(items := SetStatus(s.items, item.id, InProgress),
                  ship := s.ship + [ShipEntry(item.id, item.title, DISPATCHED, "to builder")])
        else posted
  }

  function Route(s: State, mid: nat, send: Send): (r: State)
    requires mid < |s.log|
  {
    var marked := s.(planner := s.planner + {mid});
    match ExtractBacklogId(SearchText(s.log[mid]))
    case None => marked
    case Some(id) =>
      marked.(items := SetStatus(s.items, id, Review),
              log := Post(s.log, ReviewRequest(id, ContentOf(s.log[mid])), send))
  }

  function TitleIn(items: seq<Item>, id: string): (r: string) {
    match IndexOf(items, id)
    case None => ""
    case Some(i) => items[i].title
  }

  function Judge(s: State, mid: nat): (r: State)
    requires mid < |s.log|
  {
    var marked := s.(planner := s.planner + {mid});
    match ExtractBacklogId(SearchText(s.log[mid]))
    case None => marked
    case Some(id) =>
      if ReadsPassed(s.log[mid]) then
        var shipped := SetStatus(s.items, id, Done);
        marked.(items := shipped, ship := s.ship + [ShipEntry(id, TitleIn(shipped, id), SHIPPED, "QA passed")])
      else
        var n := RetryCount(s.items, id);
        var counted := Retried(s.items, id);
        if n > RETRY_LIMIT then
          marked.(items := SetBlocked(counted, id, n),
                  ship := s.ship + [ShipEntry(id, "", BLOCKED, "QA failed " + SignedDecimal(n) + "x")])
        else
          marked.(items := SetStatus(counted, id, Open),
                  ship := s.ship + [ShipEntry(id, "", RETRY, "attempt " + SignedDecimal(n))])
  }

  function BuildItem(s: State, mid: nat, ok: bool, detail: string, send: Send): (r: State)
    requires mid < |s.log| && s.log[mid].Proposal?
  {
    var m := s.log[mid];
    var marked := s.(builder := s.builder + {mid});
    if SkippedByBuilder(m.itemId) then marked
    else marked.(log := Post(s.log, Completed(m.itemId, m.title, ok, detail), send))
  }

  function Criteria(runs: seq<CriterionRun>): (r: seq<string>) {
    seq(|runs|, i requires 0 <= i < |runs| => runs[i].criterion)
  }

  /** Runs that are not one per criterion of the item are no review of it: nothing happens. */
  function ReviewItem(s: State, mid: nat, runs: seq<CriterionRun>, send: Send): (r: State)
    requires mid < |s.log|
  {
    var marked := s.(qa := s.qa + {mid});
    match ExtractBacklogId(SearchText(s.log[mid]))
    case None => marked
    case Some(id) =>
      match IndexOf(s.items, id)
      case None => marked.(log := Post(s.log, ReviewResult(id, false, []), send))
      case Some(i) =>
        if Criteria(runs) == s.items[i].acceptance then
          marked.(log := Post(s.log, ReviewResult(id, true, runs), send))
        else s
  }

  /** The state after a run of events. */
  function Run(s: State, events: seq<Event>): (r: State) {
    if events == [] then s
    else Next(Run(s, events[..|events| - 1]), events[|events| - 1])
  }

  lemma {:induction false} RunSplits(s: State, a: seq<Event>, b: seq<Event>)
    ensures Run(s, a + b) == Run(Run(s, a), b)
  {
    if b == [] {
      assert a + b == a;
    } else {
      var n := |b| - 1;
      RunSplits(s, a, b[..n]);
      assert (a + b)[..|a + b| - 1] == a + b[..n];
    }
  }

  lemma RunAppend(s: State, events: seq<Event>, e: Event)
    ensures Run(s, events + [e]) == Next(Run(s, events), e)
  {
    assert (events + [e])[..|events|] == events;
  }

  lemma RunOne(s: State, e: Event)
    ensures Run(s, [e]) == Next(s, e)
  {
    assert [e][..0] == [];
    assert Run(s, [e][..0]) == s;
  }

  // ---- the invariant ------------------------------------------------------------------

  /** The set in which the reader of this kind of message keeps its processed ids. */
  function Reader(s: State, m: Message): (r: set<nat>) {
    match m
    case Proposal(_, _) => s.builder
    case ReviewRequest(_, _) => s.qa
    case _ => s.planner
  }

  predicate Pending(s: State, mid: nat) {
    mid < |s.log| && mid !in Reader(s, s.log[mid])
  }

  function StatusWhile(m: Message): (r: Status) {
    if m.Proposal? || m.Completed? then InProgress else Review
  }

  /** A pending message names an item that is in flight in the stage the message belongs to,
      and a pending review result comes from a run of that item's own criteria. */
  predicate Carries(s: State, mid: nat)
    requires mid < |s.log|
  {
    var m := s.log[mid];
    && IsBacklogId(m.itemId)
    && IndexOf(s.items, m.itemId).Some?
    && s.items[IndexOf(s.items, m.itemId).value].status == StatusWhile(m)
    && (m.ReviewResult? ==>
          m.found && Criteria(m.runs) == s.items[IndexOf(s.items, m.itemId).value].acceptance)
  }

  ghost predicate DistinctIds(items: seq<Item>) {
    && (forall i, j | 0 <= i < j < |items| :: items[i].id != items[j].id)
    && (forall i | 0 <= i < |items| :: IsBacklogId(items[i].id))
  }

  ghost predicate Bounded(s: State) {
    forall mid | mid in s.planner || mid in s.builder || mid in s.qa :: mid < |s.log|
  }

  ghost predicate OneInFlight(items: seq<Item>) {
    forall i, j | 0 <= i < |items| && 0 <= j < |items| && InFlight(items[i]) && InFlight(items[j]) :: i == j
  }

  ghost predicate OnePending(s: State) {
    forall a, b | Pending(s, a) && Pending(s, b) :: a == b
  }

  ghost predicate Inv(s: State) {
    && DistinctIds(s.items)
    && Bounded(s)
    && OneInFlight(s.items)
    && OnePending(s)
    && (forall mid | Pending(s, mid) :: Carries(s, mid))
  }

  /** Nothing is in flight and no message waits. */
  ghost predicate Quiet(s: State) {
    && DistinctIds(s.items)
    && Bounded(s)
    && !AnyInFlight(s.items)
    && (forall mid: nat :: !Pending(s, mid))
  }

  predicate Answered(e: Event) {
    e.Dispatch? ==> e.send != Unanswered
  }

  predicate AllAnswered(events: seq<Event>) {
    forall i | 0 <= i < |events| :: Answered(events[i])
  }

  lemma IndexUnique(items: seq<Item>, i: nat)
    requires DistinctIds(items) && i < |items|
    ensures IndexOf(items, items[i].id) == Some(i)
  {
  }

  /** Changing one item and keeping its id keeps every lookup. */
  lemma LookupStable(items: seq<Item>, i: nat, item: Item, id: string)
    requires DistinctIds(items) && i < |items| && item.id == items[i].id
    ensures DistinctIds(items[i := item])
    ensures IndexOf(items[i := item], id) == IndexOf(items, id)
  {
    var changed := items[i := item];
    assert forall j | 0 <= j < |items| :: changed[j].id == items[j].id;
    assert DistinctIds(changed);
    if IndexOf(items, id).Some? {
      IndexUnique(changed, IndexOf(items, id).value);
    }
  }

  // ---- each step keeps it ---------------------------------------------------------------

  /** Handling message `mid` about item i: the item changes, the message is read, and at most
      one answer, which carries the item on, is posted. */
  ghost predicate Handles(s: State, t: State, mid: nat, i: nat, item: Item, answers: seq<Message>) {
    && mid < |s.log| && i < |s.items| && IndexOf(s.items, s.log[mid].itemId) == Some(i)
    && item.id == s.items[i].id && item.acceptance == s.items[i].acceptance
    && t.items == s.items[i := item]
    && t.log == s.log + answers && |answers| <= 1
    && Reader(t, s.log[mid]) == Reader(s, s.log[mid]) + {mid}
    && (forall k: nat | k < |s.log| && k != mid :: Pending(t, k) == Pending(s, k))
    && Bounded(t)
    && (answers != [] ==> Carries(t, |s.log|))
  }

  lemma HandlingKeepsInv(s: State, t: State, mid: nat, i: nat, item: Item, answers: seq<Message>)
    requires Inv(s) && Pending(s, mid) && Handles(s, t, mid, i, item, answers)
    ensures Inv(t)
    ensures forall k: nat | Pending(t, k) :: k == |s.log| && answers != []
    ensures !InFlight(item) ==> !AnyInFlight(t.items)
  {
    assert Carries(s, mid);
    LookupStable(s.items, i, item, item.id);
    assert InFlight(s.items[i]);
    forall k: nat | k < |s.log| ensures !Pending(t, k) {
      assert k != mid ==> Pending(t, k) == Pending(s, k);
      assert t.log[mid] == s.log[mid];
    }
  }

  lemma PendingMeansInFlight(s: State, mid: nat)
    requires Inv(s) && Pending(s, mid)
    ensures AnyInFlight(s.items)
  {
    assert Carries(s, mid);
    assert InFlight(s.items[IndexOf(s.items, s.log[mid].itemId).value]);
  }

  lemma DispatchKeepsInv(s: State, send: Send)
    requires Inv(s) && send != Unanswered
    ensures Inv(DispatchOpen(s, send))
  {
    var t := DispatchOpen(s, send);
    if !AnyInFlight(s.items) && NextOpen(s.items).Some? && send == Stored {
      var i := NextOpen(s.items).value;
      var item := s.items[i];
      IndexUnique(s.items, i);
      LookupStable(s.items, i, item.(status := InProgress), item.id);
      assert t.items == s.items[i := item.(status := InProgress)];
      forall mid: nat | mid < |s.log| ensures !Pending(t, mid) {
        assert t.log[mid] == s.log[mid];
        if Pending(s, mid) { PendingMeansInFlight(s, mid); }
      }
    }
  }

  lemma RouteHandles(s: State, mid: nat, send: Send) returns (i: nat, item: Item, answers: seq<Message>)
    requires Inv(s) && Pending(s, mid) && s.log[mid].Completed?
    ensures Handles(s, Route(s, mid, send), mid, i, item, answers)
    ensures item == s.items[i].(status := Review) && Route(s, mid, send).ship == s.ship
  {
    hide ContentOf, TitleOf, ExtractBacklogId, Route, Post;
    var m := s.log[mid];
    var t := Route(s, mid, send);
    assert Carries(s, mid);
    ReaderFindsItem(m);
    i := IndexOf(s.items, m.itemId).value;
    item := s.items[i].(status := Review);
    answers := if send == Lost then [] else [ReviewRequest(m.itemId, ContentOf(m))];
    RouteIs(s, mid, send, i);
    LookupStable(s.items, i, item, m.itemId);
  }

  lemma RouteIs(s: State, mid: nat, send: Send, i: nat)
    requires mid < |s.log| && ExtractBacklogId(SearchText(s.log[mid])) == Some(s.log[mid].itemId)
    requires IndexOf(s.items, s.log[mid].itemId) == Some(i)
    ensures var m := s.log[mid];
            Route(s, mid, send)
            == s.(planner := s.planner + {mid}, items := s.items[i := s.items[i].(status := Review)],
                  log := s.log + if send == Lost then [] else [ReviewRequest(m.itemId, ContentOf(m))])
  {
    hide ContentOf, SearchText, ExtractBacklogId;
  }

  lemma BuildHandles(s: State, mid: nat, ok: bool, detail: string, send: Send)
    returns (i: nat, item: Item, answers: seq<Message>)
    requires Inv(s) && Pending(s, mid) && s.log[mid].Proposal?
    ensures Handles(s, BuildItem(s, mid, ok, detail, send), mid, i, item, answers)
    ensures item == s.items[i] && BuildItem(s, mid, ok, detail, send).ship == s.ship
  {
    var m := s.log[mid];
    assert Carries(s, mid);
    i := IndexOf(s.items, m.itemId).value;
    item := s.items[i];
    answers := if send == Lost || SkippedByBuilder(m.itemId) then [] else [Completed(m.itemId, m.title, ok, detail)];
    assert BuildItem(s, mid, ok, detail, send) == s.(builder := s.builder + {mid}, log := s.log + answers);
    assert s.items[i := item] == s.items;
  }

  lemma ReviewHandles(s: State, mid: nat, runs: seq<CriterionRun>, send: Send)
    returns (i: nat, item: Item, answers: seq<Message>)
    requires Inv(s) && Pending(s, mid) && s.log[mid].ReviewRequest?
    requires ReviewItem(s, mid, runs, send) != s
    ensures Handles(s, ReviewItem(s, mid, runs, send), mid, i, item, answers)
    ensures item == s.items[i] && ReviewItem(s, mid, runs, send).ship == s.ship
  {
    hide ContentOf, TitleOf, ExtractBacklogId;
    var m := s.log[mid];
    assert Carries(s, mid);
    ReaderFindsItem(m);
    i := IndexOf(s.items, m.itemId).value;
    item := s.items[i];
    answers := if send == Lost then [] else [ReviewResult(m.itemId, true, runs)];
    assert ReviewItem(s, mid, runs, send) == s.(qa := s.qa + {mid}, log := s.log + answers);
    assert s.items[i := item] == s.items;
  }

  /** What reading a verdict makes of the item. */
  function Judged(item: Item, passed: bool): (r: Item) {
    if passed then item.(status := Done)
    else if item.retries + 1 > RETRY_LIMIT then
      item.(status := Status.Blocked, retries := item.retries + 1,
            blockedBy := "qa-failed-" + SignedDecimal(item.retries + 1) + "x")
    else item.(status := Open, retries := item.retries + 1)
  }

  function JudgedEntry(item: Item, passed: bool): (r: ShipEntry) {
    if passed then ShipEntry(item.id, item.title, SHIPPED, "QA passed")
    else if item.retries + 1 > RETRY_LIMIT then
      ShipEntry(item.id, "", BLOCKED, "QA failed " + SignedDecimal(item.retries + 1) + "x")
    else ShipEntry(item.id, "", RETRY, "attempt " + SignedDecimal(item.retries + 1))
  }

  lemma JudgeItems(s: State, mid: nat, id: string, i: nat)
    requires DistinctIds(s.items) && mid < |s.log|
    requires ExtractBacklogId(SearchText(s.log[mid])) == Some(id) && IndexOf(s.items, id) == Some(i)
    ensures var passed := ReadsPassed(s.log[mid]);
            Judge(s, mid) == s.(planner := s.planner + {mid},
                                items := s.items[i := Judged(s.items[i], passed)],
                                ship := s.ship + [JudgedEntry(s.items[i], passed)])
  {
    hide ExtractBacklogId, ReadsPassed, SearchText;
    var passed := ReadsPassed(s.log[mid]);
    if passed {
      LookupStable(s.items, i, s.items[i].(status := Done), id);
    } else {
      var counted := s.items[i].(retries := s.items[i].retries + 1);
      LookupStable(s.items, i, counted, id);
      assert Retried(s.items, id) == s.items[i := counted];
      assert s.items[i := counted][i := Judged(s.items[i], false)] == s.items[i := Judged(s.items[i], false)];
    }
  }

  lemma JudgeHandles(s: State, mid: nat) returns (i: nat, item: Item)
    requires Inv(s) && Pending(s, mid) && s.log[mid].ReviewResult?
    ensures Handles(s, Judge(s, mid), mid, i, item, [])
    ensures s.items[i].status == Review && item == Judged(s.items[i], ReadsPassed(s.log[mid]))
    ensures Judge(s, mid).ship == s.ship + [JudgedEntry(s.items[i], ReadsPassed(s.log[mid]))]
  {
    hide ExtractBacklogId, ReadsPassed, SearchText, Judge;
    assert Carries(s, mid);
    ReaderFindsItem(s.log[mid]);
    i := IndexOf(s.items, s.log[mid].itemId).value;
    item := Judged(s.items[i], ReadsPassed(s.log[mid]));
    JudgeItems(s, mid, s.log[mid].itemId, i);
    assert s.log + [] == s.log;
  }

  /** An event either fits no pending message, dispatches, or handles one message. */
  predicate Fits(s: State, e: Event) {
    match e
    case Dispatch(_) => false
    case RouteCompleted(mid, _) => mid < |s.log| && s.log[mid].Completed? && mid !in s.planner
    case ReadVerdict(mid) => mid < |s.log| && s.log[mid].ReviewResult? && mid !in s.planner
    case Build(mid, _, _, _) => mid < |s.log| && s.log[mid].Proposal? && mid !in s.builder
    case RunReview(mid, _, _) => mid < |s.log| && s.log[mid].ReviewRequest? && mid !in s.qa && Next(s, e) != s
  }

  lemma EventHandles(s: State, e: Event) returns (i: nat, item: Item, answers: seq<Message>)
    requires Inv(s) && Fits(s, e)
    ensures Pending(s, e.mid) && Handles(s, Next(s, e), e.mid, i, item, answers)
    ensures !e.ReadVerdict? ==>
              && Next(s, e).ship == s.ship
              && item == s.items[i].(status := item.status) && InFlight(item)
    ensures e.ReadVerdict? ==>
              && item == Judged(s.items[i], ReadsPassed(s.log[e.mid]))
              && Next(s, e).ship == s.ship + [JudgedEntry(s.items[i], ReadsPassed(s.log[e.mid]))]
    ensures InFlight(s.items[i])
  {
    hide Route, Judge, BuildItem, ReviewItem;
    match e {
      case RouteCompleted(mid, send) => i, item, answers := RouteHandles(s, mid, send);
      case ReadVerdict(mid) => i, item := JudgeHandles(s, mid); answers := [];
      case Build(mid, ok, detail, send) => i, item, answers := BuildHandles(s, mid, ok, detail, send);
      case RunReview(mid, runs, send) => i, item, answers := ReviewHandles(s, mid, runs, send);
    }
    assert Carries(s, e.mid);
  }

  lemma NextKeepsInv(s: State, e: Event)
    requires Inv(s) && Answered(e)
    ensures Inv(Next(s, e))
  {
    if e.Dispatch? {
      DispatchKeepsInv(s, e.send);
    } else if Fits(s, e) {
      var i, item, answers := EventHandles(s, e);
      HandlingKeepsInv(s, Next(s, e), e.mid, i, item, answers);
    }
  }

  /** Over every run from a quiet state at most one item is in flight, at most one message is
      unread, and an unread message names the item in flight at the stage of that message. */
  lemma {:induction false} RunKeepsInv(s: State, events: seq<Event>)
    requires Inv(s) && AllAnswered(events)
    ensures Inv(Run(s, events))
  {
    if events != [] {
      RunKeepsInv(s, events[..|events| - 1]);
      NextKeepsInv(Run(s, events[..|events| - 1]), events[|events| - 1]);
    }
  }
}
