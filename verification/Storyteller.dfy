/** The daily story: which tickets of the ship log it lists under which heading. */
module Storyteller {
  import opened Text
  import opened ShipLog
  import opened ShipLogTheorems

  datatype Class = Shipped | InProgress | Blocked

  function ClassOf(status: string): (c: Class) {
    if Upper(status) == "SHIPPED" then Shipped
    else if Upper(status) == "BLOCKED" then Blocked
    else InProgress
  }

  /** `datetime.strptime` in seconds; `None` for its ValueError. */
  type Clock = string -> Option<int>

  const DAY := 86400

  predicate InWindow(stamp: string, clock: Clock, now: int) {
    match clock(stamp)
    case None => false
    case Some(at) => now - DAY <= at <= now
  }

  lemma WindowIsLastDay(clock: Clock, now: int)
    ensures forall stamp ::
              InWindow(stamp, clock, now) <==> clock(stamp).Some? && 0 <= now - clock(stamp).value <= 24 * 60 * 60
  {
  }

  predicate Reports(f: Found, c: Class, clock: Clock, now: int) {
    InWindow(f.stamp, clock, now) && ClassOf(f.status) == c
  }

  function Tickets(found: seq<Found>, c: Class, clock: Clock, now: int): (r: seq<string>) {
    if found == [] then []
    else
      var last := found[|found| - 1];
      Tickets(found[..|found| - 1], c, clock, now) + if Reports(last, c, clock, now) then [last.ticket] else []
  }

  /** `list(dict.fromkeys(list))`. */
  function Distinct(list: seq<string>): (r: seq<string>)
    ensures forall x :: x in r <==> x in list
  {
    if list == [] then []
    else
      var last := list[|list| - 1];
      var before := Distinct(list[..|list| - 1]);
      assert list == list[..|list| - 1] + [last];
      if last in before then before else before + [last]
  }

  /** The tickets under a heading; an absent file gives none. */
  function StoryList(text: Option<string>, c: Class, clock: Clock, now: int): (r: seq<string>) {
    if text.None? then [] else Distinct(Tickets(FindAll(text.value, true), c, clock, now))
  }

  method RemoveDuplicates(list: seq<string>) returns (kept: seq<string>)
    ensures kept == Distinct(list)
  {
    kept := [];
    for i := 0 to |list|
      invariant kept == Distinct(list[..i])
    {
      assert list[..i + 1][..i] == list[..i];
      if list[i] !in kept { kept := kept + [list[i]]; }
    }
    assert list[..|list|] == list;
  }

  method ParseShipLog(text: Option<string>, clock: Clock, now: int)
    returns (shipped: seq<string>, inProgress: seq<string>, blocked: seq<string>)
    ensures shipped == StoryList(text, Shipped, clock, now)
    ensures inProgress == StoryList(text, InProgress, clock, now)
    ensures blocked == StoryList(text, Blocked, clock, now)
  {
    hide FindAll;
    shipped, inProgress, blocked := [], [], [];
    if text.None? { return; }
    var found := FindAll(text.value, true);
    for i := 0 to |found|
      invariant shipped == Tickets(found[..i], Shipped, clock, now)
      invariant inProgress == Tickets(found[..i], InProgress, clock, now)
      invariant blocked == Tickets(found[..i], Blocked, clock, now)
    {
      assert found[..i + 1][..i] == found[..i];
      if InWindow(found[i].stamp, clock, now) {
        match ClassOf(found[i].status)
        case Shipped => shipped := shipped + [found[i].ticket];
        case Blocked => blocked := blocked + [found[i].ticket];
        case InProgress => inProgress := inProgress + [found[i].ticket];
      }
    }
    assert found[..|found|] == found;
    shipped := RemoveDuplicates(shipped);
    inProgress := RemoveDuplicates(inProgress);
    blocked := RemoveDuplicates(blocked);
  }

  // ---- each ticket once, in order of first appearance -----------------------------------------

  /** The list names, in order, the tickets at these places of the log: each the first report
      of its ticket, and no report left out. */
  ghost predicate FirstReports(found: seq<Found>, c: Class, clock: Clock, now: int, list: seq<string>, places: seq<nat>) {
    && |places| == |list|
    && (forall k | 0 <= k < |places| ::
          && places[k] < |found| && Reports(found[places[k]], c, clock, now)
          && found[places[k]].ticket == list[k])
    && (forall k, l | 0 <= k < l < |places| :: places[k] < places[l])
    && (forall k, p | 0 <= k < |places| && 0 <= p < places[k] && Reports(found[p], c, clock, now) ::
          found[p].ticket != list[k])
    && (forall p | 0 <= p < |found| && Reports(found[p], c, clock, now) :: found[p].ticket in list)
  }

  lemma RepeatsNothing(found: seq<Found>, f: Found, c: Class, clock: Clock, now: int, list: seq<string>, places: seq<nat>)
    requires FirstReports(found, c, clock, now, list, places)
    requires Reports(f, c, clock, now) ==> f.ticket in list
    ensures FirstReports(found + [f], c, clock, now, list, places)
  {
    hide Reports;
    assert forall p | 0 <= p < |found| :: (found + [f])[p] == found[p];
  }

  lemma AddsReport(found: seq<Found>, f: Found, c: Class, clock: Clock, now: int, list: seq<string>, places: seq<nat>)
    requires FirstReports(found, c, clock, now, list, places)
    requires Reports(f, c, clock, now) && f.ticket !in list
    ensures FirstReports(found + [f], c, clock, now, list + [f.ticket], places + [|found|])
  {
    hide Reports;
    assert forall p | 0 <= p < |found| :: (found + [f])[p] == found[p];
    assert forall x :: x in list ==> x in list + [f.ticket];
    assert (list + [f.ticket])[|list|] == f.ticket;
  }

  lemma TicketsOneMore(found: seq<Found>, f: Found, c: Class, clock: Clock, now: int)
    ensures Tickets(found + [f], c, clock, now)
         == Tickets(found, c, clock, now) + if Reports(f, c, clock, now) then [f.ticket] else []
  {
    assert (found + [f])[..|found|] == found;
  }

  lemma DistinctOneMore(list: seq<string>, x: string)
    ensures Distinct(list + [x]) == if x in Distinct(list) then Distinct(list) else Distinct(list) + [x]
  {
    assert (list + [x])[..|list|] == list;
  }

  lemma {:induction false} ListsFirstReports(found: seq<Found>, c: Class, clock: Clock, now: int)
    returns (places: seq<nat>)
    ensures FirstReports(found, c, clock, now, Distinct(Tickets(found, c, clock, now)), places)
  {
    if found == [] {
      places := [];
    } else {
      hide *;
      var n := |found| - 1;
      var f, earlier := found[n], found[..n];
      var before := Tickets(earlier, c, clock, now);
      places := ListsFirstReports(earlier, c, clock, now);
      TicketsOneMore(earlier, f, c, clock, now);
      assert found == earlier + [f];
      if !Reports(f, c, clock, now) {
        assert before + [] == before;
        RepeatsNothing(earlier, f, c, clock, now, Distinct(before), places);
      } else {
        DistinctOneMore(before, f.ticket);
        if f.ticket in Distinct(before) {
          RepeatsNothing(earlier, f, c, clock, now, Distinct(before), places);
        } else {
          AddsReport(earlier, f, c, clock, now, Distinct(before), places);
          places := places + [n];
        }
      }
    }
  }

  /** For a log the planner printed, each heading lists the tickets its entries in the window
      report, once each, in the order of their first such entry. */
  lemma StoryOfPrintedLog(entries: seq<Entry>, c: Class, clock: Clock, now: int) returns (places: seq<nat>)
    requires forall e | e in entries :: Printable(e)
    ensures FirstReports(Seen(entries), c, clock, now, StoryList(FileOf(entries), c, clock, now), places)
  {
    hide FindAll, Printable, Tickets, Distinct;
    if entries == [] {
      places := [];
      assert Seen(entries) == [];
    } else {
      ShipLogRoundTrip(entries);
      places := ListsFirstReports(Seen(entries), c, clock, now);
    }
  }

  /** The status is this word, in any letter case. */
  ghost predicate Spells(status: string, word: string) {
    && |status| == |word|
    && forall i | 0 <= i < |word| :: status[i] == word[i] || (status[i] as int == word[i] as int + 32)
  }

  lemma UpperSpells(status: string, word: string)
    requires forall i | 0 <= i < |word| :: 'A' <= word[i] <= 'Z'
    ensures Upper(status) == word <==> Spells(status, word)
  {
    if Spells(status, word) {
      assert forall i | 0 <= i < |word| :: Upper(status)[i] == word[i];
    }
  }

  /** The heading a status comes under. */
  ghost predicate Under(status: string, c: Class) {
    match c
    case Shipped => Spells(status, "SHIPPED")
    case Blocked => Spells(status, "BLOCKED")
    case InProgress => !Spells(status, "SHIPPED") && !Spells(status, "BLOCKED")
  }

  lemma ClassMeans(status: string, c: Class)
    ensures ClassOf(status) == c <==> Under(status, c)
  {
    UpperSpells(status, "SHIPPED");
    UpperSpells(status, "BLOCKED");
    assert "SHIPPED"[0] != "BLOCKED"[0];
  }

  /** Entry i reports this ticket under this heading, within 24 hours before now. */
  ghost predicate ReportsToday(entries: seq<Entry>, i: nat, ticket: string, c: Class, clock: Clock, now: int) {
    && i < |entries| && entries[i].ticket == ticket && Under(entries[i].status, c)
    && clock(entries[i].stamp).Some? && 0 <= now - clock(entries[i].stamp).value <= 24 * 60 * 60
  }

  lemma ReportsMeans(entries: seq<Entry>, i: nat, c: Class, clock: Clock, now: int)
    requires i < |entries|
    ensures Reports(Seen(entries)[i], c, clock, now) <==> ReportsToday(entries, i, entries[i].ticket, c, clock, now)
  {
    ClassMeans(entries[i].status, c);
  }

  /** From a log the planner printed, a ticket is listed under a heading exactly when an entry of
      the last 24 hours reports it so; and no list names a ticket twice. */
  lemma StoryIsLastDay(entries: seq<Entry>, ticket: string, c: Class, clock: Clock, now: int)
    requires forall e | e in entries :: Printable(e)
    ensures var list := StoryList(FileOf(entries), c, clock, now);
            && (ticket in list <==> exists i: nat :: ReportsToday(entries, i, ticket, c, clock, now))
            && forall k, l | 0 <= k < l < |list| :: list[k] != list[l]
  {
    hide StoryList, Printable, Reports, Under;
    var list := StoryList(FileOf(entries), c, clock, now);
    var seen := Seen(entries);
    var places := StoryOfPrintedLog(entries, c, clock, now);
    if ticket in list {
      var k :| 0 <= k < |list| && list[k] == ticket;
      ReportsMeans(entries, places[k], c, clock, now);
    }
    if i: nat :| ReportsToday(entries, i, ticket, c, clock, now) {
      ReportsMeans(entries, i, c, clock, now);
      assert seen[i].ticket in list;
    }
    forall k, l | 0 <= k < l < |list| ensures list[k] != list[l] {
      assert places[k] < places[l] && Reports(seen[places[k]], c, clock, now);
      assert seen[places[k]].ticket == list[k];
    }
  }

  // ---- what a line break in a title does --------------------------------------------------------

  /** The title that carries, behind e's own text, a whole entry f up to its detail. */
  function ForgingTitle(e: Entry, f: Entry): (r: string) {
    e.title + DetailPart(e.detail) + "\n" + LineHead(f) + " " + f.title
  }

  /** One append prints exactly what two would: the reader cannot tell the forged entry from a
      real one, whatever the details are. */
  lemma TitleForgesEntry(e: Entry, f: Entry)
    ensures FileOf([e.(title := ForgingTitle(e, f), detail := f.detail)]) == FileOf([e, f])
  {
    var forged := e.(title := ForgingTitle(e, f), detail := f.detail);
    assert [e, f][1..] == [f] && [f][1..] == [] && [forged][1..] == [];
    LineParts(e);
    LineParts(f);
    LineParts(forged);
    assert LineHead(forged) == LineHead(e);
    assert Lines([]) == "";
    assert Lines([f]) == Line(f) + "";
    assert Lines([forged]) == Line(forged) + "";
    ForgedLine(LineHead(e), e.title, DetailPart(e.detail), LineHead(f), f.title, DetailPart(f.detail));
  }

  lemma LineParts(e: Entry)
    ensures Line(e) == LineHead(e) + (" " + e.title + DetailPart(e.detail)) + "\n"
  {
  }

  lemma ForgedLine(head: string, title: string, detail: string, nextHead: string, nextTitle: string, nextDetail: string)
    ensures head + (" " + (title + detail + "\n" + nextHead + " " + nextTitle) + nextDetail) + "\n" + ""
         == head + (" " + title + detail) + "\n" + (nextHead + (" " + nextTitle + nextDetail) + "\n" + "")
  {
  }
}
