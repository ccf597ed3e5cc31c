/** The fleet and its storyteller together: what the published lists say about the backlog. */
module DailyStory {
  import opened Text
  import opened HermesMessages
  import opened HermesProtocol
  import opened HermesTheorems
  import ShipLog
  import Storyteller

  function StatusText(status: ShipStatus): (r: string) {
    match status
    case DISPATCHED => "DISPATCHED"
    case SHIPPED => "SHIPPED"
    case BLOCKED => "BLOCKED"
    case RETRY => "RETRY"
  }

  /** The ship log with the time each entry was appended at. */
  function Printed(ship: seq<ShipEntry>, stamps: seq<string>): (r: seq<ShipLog.Entry>)
    requires |ship| <= |stamps|
    ensures |r| == |ship|
    ensures forall i | 0 <= i < |r| ::
              r[i] == ShipLog.Entry(stamps[i], ship[i].itemId, ship[i].title, StatusText(ship[i].status), ship[i].detail)
  {
    seq(|ship|, i requires 0 <= i < |ship| =>
      ShipLog.Entry(stamps[i], ship[i].itemId, ship[i].title, StatusText(ship[i].status), ship[i].detail))
  }

  // ---- every entry is printable --------------------------------------------------------------

  /** The entry names a backlog item, with its title or none, and its detail is one line. */
  ghost predicate FromBacklog(items: seq<Item>, entry: ShipEntry) {
    && ShipLog.OneLine(entry.detail)
    && exists k | 0 <= k < |items| ::
         items[k].id == entry.itemId && (entry.title == items[k].title || entry.title == "")
  }

  ghost predicate AllFromBacklog(items: seq<Item>, ship: seq<ShipEntry>) {
    forall p | 0 <= p < |ship| :: FromBacklog(items, ship[p])
  }

  lemma DetailsAreOneLine(item: Item, passed: bool)
    ensures ShipLog.OneLine(JudgedEntry(item, passed).detail) && ShipLog.OneLine("to builder")
  {
    var digits := SignedDecimal(item.retries + 1);
    assert ShipLog.OneLine(digits) by {
      var n := item.retries + 1;
      var plain := Decimal(if n < 0 then -n else n);
      forall c | c in plain ensures Digit(c) {
        var i :| 0 <= i < |plain| && plain[i] == c;
      }
    }
    hide SignedDecimal;
    assert ShipLog.OneLine("QA failed " + digits + "x");
    assert ShipLog.OneLine("attempt " + digits);
  }

  lemma FromBacklogStep(s: State, u: State, e: Event)
    requires Inv(u) && Answered(e) && |u.items| == |s.items|
    requires forall k | 0 <= k < |s.items| :: SameItem(s.items[k], u.items[k])
    requires AllFromBacklog(s.items, u.ship)
    ensures AllFromBacklog(s.items, Next(u, e).ship)
  {
    hide Next, Inv, SignedDecimal;
    var t := Next(u, e);
    var i, item, added := Effect(u, e);
    if t.ship != u.ship {
      assert SameItem(s.items[i], u.items[i]);
      DetailsAreOneLine(u.items[i], true);
      DetailsAreOneLine(u.items[i], false);
      forall p | 0 <= p < |t.ship| ensures FromBacklog(s.items, t.ship[p]) {
        if p >= |u.ship| { assert t.ship[p] == added[0]; }
      }
    }
  }

  lemma {:induction false} AlwaysFromBacklog(s: State, events: seq<Event>)
    requires Inv(s) && AllAnswered(events) && s.ship == []
    ensures AllFromBacklog(s.items, Run(s, events).ship)
  {
    if events != [] {
      var n := |events| - 1;
      AlwaysFromBacklog(s, events[..n]);
      RunKeepsInv(s, events[..n]);
      FinalStatesStay(s, events[..n]);
      hide Next, Inv;
      FromBacklogStep(s, Run(s, events[..n]), events[n]);
    }
  }

  // ---- shipped entries are done items -----------------------------------------------------------

  /** Item k of the backlog has been shipped in the log. */
  ghost predicate ShippedInLog(t: State, id: string) {
    exists p | 0 <= p < |t.ship| :: t.ship[p].status == SHIPPED && t.ship[p].itemId == id
  }

  lemma ShippedStep(s: State, u: State, e: Event, k: nat)
    requires Inv(u) && Answered(e) && |u.items| == |s.items| && k < |s.items| && s.items[k].id == u.items[k].id
    requires s.items[k].status != Done
    requires u.items[k].status == Done <==> ShippedInLog(u, s.items[k].id)
    ensures |Next(u, e).items| == |s.items|
    ensures Next(u, e).items[k].status == Done <==> ShippedInLog(Next(u, e), s.items[k].id)
  {
    hide Next, Inv, SignedDecimal;
    var id := s.items[k].id;
    var t := Next(u, e);
    SameItemStep(u, e);
    IdsDistinct(u, k);
    var i, item, added := Effect(u, e);
    if ShippedInLog(u, id) {
      var p :| 0 <= p < |u.ship| && u.ship[p].status == SHIPPED && u.ship[p].itemId == id;
      assert t.ship[p] == u.ship[p];
    } else if t.ship != u.ship {
      assert forall p | 0 <= p < |u.ship| :: t.ship[p] == u.ship[p];
      assert t.ship[|u.ship|] == added[0];
    }
  }

  lemma IdsDistinct(u: State, k: nat)
    requires Inv(u) && k < |u.items|
    ensures forall i | 0 <= i < |u.items| && i != k :: u.items[i].id != u.items[k].id
  {
  }

  /** In every run from an empty log, an item that was not done is done exactly when the log
      shows it shipped. */
  lemma {:induction false} DoneExactlyIfShipped(s: State, events: seq<Event>, k: nat)
    requires Inv(s) && AllAnswered(events) && s.ship == [] && k < |s.items| && s.items[k].status != Done
    ensures |Run(s, events).items| == |s.items|
    ensures Run(s, events).items[k].status == Done <==> ShippedInLog(Run(s, events), s.items[k].id)
  {
    if events != [] {
      var n := |events| - 1;
      DoneExactlyIfShipped(s, events[..n], k);
      RunKeepsInv(s, events[..n]);
      FinalStatesStay(s, events[..n]);
      hide Next, Inv;
      assert SameItem(s.items[k], Run(s, events[..n]).items[k]);
      ShippedStep(s, Run(s, events[..n]), events[n], k);
    }
  }

  // ---- the published lists ------------------------------------------------------------------------

  ghost predicate GoodStamps(stamps: seq<string>) {
    forall i | 0 <= i < |stamps| :: ShipLog.IsStamp(stamps[i])
  }

  ghost predicate PlainTitles(items: seq<Item>) {
    forall k | 0 <= k < |items| :: ShipLog.OneLine(items[k].title)
  }

  lemma IdIsTicket(id: string)
    requires IsBacklogId(id)
    ensures ShipLog.IsTicket(id)
  {
    assert id[..3] == "AB-";
  }

  lemma StatusIsWord(status: ShipStatus)
    ensures ShipLog.OneWord(StatusText(status))
  {
  }

  lemma RunIsPrintable(s: State, events: seq<Event>, stamps: seq<string>)
    requires Inv(s) && AllAnswered(events) && s.ship == [] && PlainTitles(s.items)
    requires |Run(s, events).ship| <= |stamps| && GoodStamps(stamps)
    ensures forall e | e in Printed(Run(s, events).ship, stamps) :: ShipLog.Printable(e)
  {
    AlwaysFromBacklog(s, events);
    assert forall k | 0 <= k < |s.items| :: IsBacklogId(s.items[k].id);
    var ship := Run(s, events).ship;
    var printed := Printed(ship, stamps);
    hide Inv, Run, IsBacklogId, StatusText, ShipLog.IsStamp, ShipLog.IsTicket, ShipLog.OneWord;
    forall e | e in printed ensures ShipLog.Printable(e) {
      var p :| 0 <= p < |printed| && printed[p] == e;
      assert FromBacklog(s.items, ship[p]);
      var k :| 0 <= k < |s.items| && s.items[k].id == ship[p].itemId
               && (ship[p].title == s.items[k].title || ship[p].title == "");
      IdIsTicket(s.items[k].id);
      StatusIsWord(ship[p].status);
    }
  }

  lemma ClassOfText(status: ShipStatus)
    ensures Storyteller.ClassOf(StatusText(status))
         == match status case SHIPPED => Storyteller.Shipped case BLOCKED => Storyteller.Blocked case _ => Storyteller.InProgress
  {
    assert Upper("SHIPPED") == "SHIPPED" && Upper("BLOCKED") == "BLOCKED";
    assert |Upper("DISPATCHED")| == 10 && |Upper("RETRY")| == 5;
  }

  lemma ShippedInWindow(s: State, events: seq<Event>, stamps: seq<string>, clock: Storyteller.Clock, now: int, k: nat)
    requires Inv(s) && AllAnswered(events) && s.ship == [] && PlainTitles(s.items)
    requires |Run(s, events).ship| <= |stamps| && GoodStamps(stamps)
    requires k < |s.items| && s.items[k].status != Done
    ensures var t := Run(s, events);
            var listed := s.items[k].id
                          in Storyteller.StoryList(ShipLog.FileOf(Printed(t.ship, stamps)), Storyteller.Shipped, clock, now);
            && |t.items| == |s.items|
            && (listed <==> exists p | 0 <= p < |t.ship| ::
                              && t.ship[p].status == SHIPPED && t.ship[p].itemId == s.items[k].id
                              && Storyteller.InWindow(stamps[p], clock, now))
            && (listed ==> t.items[k].status == Done)
  {
    var t := Run(s, events);
    var printed := Printed(t.ship, stamps);
    DoneExactlyIfShipped(s, events, k);
    RunIsPrintable(s, events, stamps);
    hide Inv, Run, ShipLog.Printable, Storyteller.ClassOf, StatusText, Storyteller.StoryList;
    var places := Storyteller.StoryOfPrintedLog(printed, Storyteller.Shipped, clock, now);
    var list := Storyteller.StoryList(ShipLog.FileOf(printed), Storyteller.Shipped, clock, now);
    var seen := ShipLog.Seen(printed);
    forall p | 0 <= p < |t.ship|
      ensures Storyteller.Reports(seen[p], Storyteller.Shipped, clock, now)
         <==> t.ship[p].status == SHIPPED && Storyteller.InWindow(stamps[p], clock, now)
    {
      ClassOfText(t.ship[p].status);
    }
    var id := s.items[k].id;
    if id in list {
      var l :| 0 <= l < |list| && list[l] == id;
      var p := places[l];
      assert t.ship[p].itemId == id && t.ship[p].status == SHIPPED;
    }
    if p :| 0 <= p < |t.ship| && t.ship[p].status == SHIPPED && t.ship[p].itemId == id
            && Storyteller.InWindow(stamps[p], clock, now) {
      assert seen[p].ticket in list;
    }
  }

  /** The story of any run lists as shipped exactly the items whose shipping falls in the last
      24 hours; each of them is done in the backlog. */
  lemma StoryListsDoneItems(s: State, events: seq<Event>, stamps: seq<string>, clock: Storyteller.Clock, now: int, k: nat)
    requires Inv(s) && AllAnswered(events) && s.ship == [] && PlainTitles(s.items)
    requires |Run(s, events).ship| <= |stamps| && GoodStamps(stamps)
    requires k < |s.items| && s.items[k].status != Done
    ensures var t := Run(s, events);
            var listed := s.items[k].id
                          in Storyteller.StoryList(ShipLog.FileOf(Printed(t.ship, stamps)), Storyteller.Shipped, clock, now);
            && |t.items| == |s.items|
            && (listed <==> exists p | 0 <= p < |t.ship| ::
                              && t.ship[p].status == SHIPPED && t.ship[p].itemId == s.items[k].id
                              && clock(stamps[p]).Some? && 0 <= now - clock(stamps[p]).value <= 24 * 60 * 60)
            && (listed ==> t.items[k].status == Done)
  {
    hide Inv, Run, Storyteller.StoryList, ShipLog.FileOf;
    ShippedInWindow(s, events, stamps, clock, now, k);
    Storyteller.WindowIsLastDay(clock, now);
  }
}
