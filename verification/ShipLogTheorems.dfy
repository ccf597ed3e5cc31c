/** What the storyteller recovers from a printed ship log, line breaks in titles included. */
module ShipLogTheorems {
  import opened Text
  import opened ShipLog

  // ---- no match crosses into the next printed line ---------------------------------------------

  /** What can follow a printed line: nothing, or the next line. */
  predicate NextLine(rest: string) {
    rest == "" || (|rest| > 1 && rest[0] == '-' && rest[1] == ' ')
  }

  predicate AllSpace(y: string) {
    forall i | 0 <= i < |y| :: Space(y[i])
  }

  /** A run of spaces ends inside the text, or right behind its line break. */
  lemma {:induction false} SpacesEnd(y: string, rest: string)
    requires NextLine(rest)
    ensures SpaceRun(y + "\n" + rest) == if AllSpace(y) then |y| + 1 else SpaceRun(y)
    ensures SpaceRun(y) == |y| <==> AllSpace(y)
  {
    var s := y + "\n" + rest;
    if y == "" {
      assert s[1..] == rest;
      assert SpaceRun(rest) == 0;
    } else {
      SpacesEnd(y[1..], rest);
      assert s[1..] == y[1..] + "\n" + rest;
      assert AllSpace(y) <==> Space(y[0]) && AllSpace(y[1..]) by {
        if Space(y[0]) && AllSpace(y[1..]) {
          forall i | 0 <= i < |y| ensures Space(y[i]) { if i > 0 { assert y[i] == y[1..][i - 1]; } }
        }
      }
    }
  }

  lemma DropInside(y: string, rest: string, n: nat)
    requires n <= |y|
    ensures (y + "\n" + rest)[n..] == y[n..] + "\n" + rest
  {
  }

  /** What is left after the spaces: the end of the text with what follows, or the next line. */
  lemma AfterSpaces(y: string, rest: string)
    requires NextLine(rest)
    ensures var s := y + "\n" + rest;
            s[SpaceRun(s)..] == if AllSpace(y) then rest else y[SpaceRun(y)..] + "\n" + rest
    ensures AllSpace(y) ==> y[SpaceRun(y)..] == ""
  {
    SpacesEnd(y, rest);
    if !AllSpace(y) { DropInside(y, rest, SpaceRun(y)); }
  }

  lemma ShapeEnds(y: string, rest: string, pattern: string)
    requires '\n' !in pattern
    ensures Shaped(y + "\n" + rest, pattern) <==> Shaped(y, pattern)
    ensures Shaped(y, pattern) ==> |pattern| <= |y|
  {
    var s := y + "\n" + rest;
    assert forall i | 0 <= i < |y| :: s[i] == y[i];
    assert s[|y|] == '\n' && forall i | 0 <= i < |pattern| :: pattern[i] in pattern;
  }

  lemma NoShapeAhead(rest: string, pattern: string)
    requires NextLine(rest) && pattern != "" && pattern[0] != '-'
    ensures !Shaped(rest, pattern)
  {
  }

  lemma {:induction false} WordEnds(y: string, rest: string)
    ensures WordRun(y + "\n" + rest) == WordRun(y)
  {
    var s := y + "\n" + rest;
    if y != "" {
      WordEnds(y[1..], rest);
      assert s[1..] == y[1..] + "\n" + rest;
    }
  }

  lemma {:induction false} DigitsEnd(y: string, rest: string, i: nat)
    requires i <= |y|
    ensures DigitRun(y + "\n" + rest, i) == DigitRun(y, i)
    decreases |y| - i
  {
    if i < |y| { DigitsEnd(y, rest, i + 1); }
  }

  /** The match found in a text, with its line break and more behind what follows. */
  function Extend<T>(m: Option<(T, string)>, rest: string): (r: Option<(T, string)>) {
    match m
    case None => None
    case Some((found, after)) => Some((found, after + "\n" + rest))
  }

  lemma NoWordAhead(rest: string)
    requires NextLine(rest)
    ensures LastColon(rest[..WordRun(rest)]) == 0
  {
    if rest != "" {
      assert rest[1..][0] == ' ' && WordRun(rest[1..]) == 0;
    }
  }

  lemma StatusStays(y: string, rest: string)
    requires NextLine(rest)
    ensures MatchStatus(y + "\n" + rest) == Extend(MatchStatus(y), rest)
  {
    hide SpaceRun, WordRun, LastColon;
    SpacesEnd(y, rest);
    AfterSpaces(y, rest);
    NoWordAhead(rest);
    NoWordAhead("");
    if !AllSpace(y) {
      var z := y[SpaceRun(y)..];
      WordEnds(z, rest);
      var word := z[..WordRun(z)];
      assert (z + "\n" + rest)[..WordRun(z)] == word;
      var n := LastColon(word);
      if n > 0 { DropInside(z, rest, n + 1); }
    }
  }

  lemma TicketEnds(y: string, rest: string)
    ensures TicketLength(y + "\n" + rest) == TicketLength(y)
  {
    ShapeEnds(y, rest, "**AB-");
    if Shaped(y, "**AB-") {
      DigitsEnd(y, rest, 5);
      var d := DigitRun(y, 5);
      DropInside(y, rest, 5 + d);
      ShapeEnds(y[5 + d..], rest, "**");
    }
  }

  lemma NothingAhead(rest: string)
    requires NextLine(rest)
    ensures TicketLength(rest) == 0 && BracketLength(rest) == 0
  {
    NoShapeAhead(rest, "**AB-");
  }

  /** The same with ticket and status in front. */
  function ExtendTicket(m: Option<(string, string, string)>, rest: string): (r: Option<(string, string, string)>) {
    match m
    case None => None
    case Some((ticket, status, after)) => Some((ticket, status, after + "\n" + rest))
  }

  lemma TicketStays(y: string, rest: string)
    requires NextLine(rest)
    ensures MatchTicket(y + "\n" + rest) == ExtendTicket(MatchTicket(y), rest)
  {
    hide SpaceRun, TicketLength, MatchStatus;
    SpacesEnd(y, rest);
    AfterSpaces(y, rest);
    NothingAhead(rest);
    NothingAhead("");
    if !AllSpace(y) {
      var z := y[SpaceRun(y)..];
      TicketEnds(z, rest);
      var n := TicketLength(z);
      assert z == y <==> SpaceRun(y) == 0;
      assert z + "\n" + rest == y + "\n" + rest <==> SpaceRun(y) == 0;
      if n > 0 {
        StatusStays(z[n + 4..], rest);
        DropInside(z, rest, n + 4);
        assert (z + "\n" + rest)[2..n + 2] == z[2..n + 2];
      }
    }
  }

  lemma StampEnds(y: string, rest: string)
    requires NextLine(rest)
    ensures StampLength(y + "\n" + rest) == StampLength(y)
  {
    hide Shaped, SpaceRun;
    ShapeEnds(y, rest, "dddd-dd-dd");
    if Shaped(y, "dddd-dd-dd") {
      var z := y[10..];
      DropInside(y, rest, 10);
      SpacesEnd(z, rest);
      AfterSpaces(z, rest);
      NoShapeAhead(rest, "dd:dd:dd");
      NoShapeAhead("", "dd:dd:dd");
      if AllSpace(z) {
        assert (y + "\n" + rest)[10 + |z| + 1..] == rest && y[10 + |z|..] == "";
      } else {
        ClockEnds(y, rest, SpaceRun(z));
      }
    }
  }

  /** The clock part, when the spaces before it end inside the text. */
  lemma ClockEnds(y: string, rest: string, a: nat)
    requires NextLine(rest) && |y| >= 10 && a < |y| - 10
    requires Shaped(y + "\n" + rest, "dddd-dd-dd") && Shaped(y, "dddd-dd-dd")
    requires SpaceRun((y + "\n" + rest)[10..]) == a && SpaceRun(y[10..]) == a
    ensures StampLength(y + "\n" + rest) == StampLength(y)
  {
    hide Shaped, SpaceRun;
    DropInside(y, rest, 10 + a);
    ShapeEnds(y[10 + a..], rest, "dd:dd:dd");
    if a > 0 && Shaped(y[10 + a..], "dd:dd:dd") {
      var w := y[18 + a..];
      DropInside(y, rest, 18 + a);
      SpacesEnd(w, rest);
      NoShapeAhead(rest, "UTC");
      NoShapeAhead("", "UTC");
      if AllSpace(w) {
        assert (y + "\n" + rest)[18 + a + |w| + 1..] == rest && y[18 + a + |w|..] == "";
      } else {
        var b := SpaceRun(w);
        DropInside(y, rest, 18 + a + b);
        ShapeEnds(y[18 + a + b..], rest, "UTC");
      }
    }
  }

  lemma BracketEnds(y: string, rest: string)
    requires NextLine(rest)
    ensures BracketLength(y + "\n" + rest) == BracketLength(y)
  {
    hide StampLength;
    if y != "" && y[0] == '[' {
      DropInside(y, rest, 1);
      StampEnds(y[1..], rest);
      var n := StampLength(y[1..]);
      assert n + 1 < |y| ==> (y + "\n" + rest)[n + 1] == y[n + 1];
      assert n + 1 == |y| ==> (y + "\n" + rest)[n + 1] == '\n';
    }
  }

  /** The whole pattern, on a text that the next line follows: it matches as on the text alone,
      and never reaches into that line. */
  lemma EntryStays(y: string, rest: string)
    requires NextLine(rest)
    ensures MatchEntry(y + "\n" + rest) == Extend(MatchEntry(y), rest)
  {
    hide BracketLength, MatchTicket, SpaceRun;
    if y != "" && y[0] == '-' {
      var z := y[1..];
      DropInside(y, rest, 1);
      AfterSpaces(z, rest);
      NothingAhead(rest);
      NothingAhead("");
      if !AllSpace(z) {
        var b := z[SpaceRun(z)..];
        BracketEnds(b, rest);
        var n := BracketLength(b);
        if n > 0 {
          DropInside(b, rest, n + 2);
          TicketStays(b[n + 2..], rest);
          assert (b + "\n" + rest)[1..n + 1] == b[1..n + 1];
        }
      }
    }
  }

  /** So the reader recovers a text and the next lines one after the other. */
  lemma {:induction false} FoundLineByLine(y: string, rest: string, lineStart: bool)
    requires NextLine(rest)
    ensures FindAll(y + "\n" + rest, lineStart) == FindAll(y, lineStart) + FindAll(rest, true)
    decreases |y|
  {
    hide MatchEntry;
    var s := y + "\n" + rest;
    EntryStays(y, rest);
    if y == "" {
      NoDashNoMatch(s);
      assert s[1..] == rest;
    } else if lineStart && MatchEntry(y).Some? {
      FoundLineByLine(MatchEntry(y).value.1, rest, false);
    } else {
      FoundLineByLine(y[1..], rest, y[0] == '\n');
      assert s[1..] == y[1..] + "\n" + rest;
    }
  }

  // ---- what a log gives back ----------------------------------------------------------------------

  /** What the reader finds in the free text of a line. */
  function Forged(e: Entry): (r: seq<Found>) {
    FindAll(AfterStatus(e), false)
  }

  /** What the reader recovers: of each entry its parts, then what its free text forges. */
  function Recovered(entries: seq<Entry>): (r: seq<Found>) {
    if entries == [] then []
    else
      var e := entries[0];
      [Found(e.stamp, e.ticket, e.status)] + Forged(e) + Recovered(entries[1..])
  }

  lemma LineRecovered(e: Entry, rest: string)
    requires WellHeaded(e) && NextLine(rest)
    ensures FindAll(Line(e) + rest, true)
         == [Found(e.stamp, e.ticket, e.status)] + Forged(e) + FindAll(rest, true)
  {
    hide LineHead, MatchEntry, WellHeaded;
    var x := AfterStatus(e);
    var s := Line(e) + rest;
    assert s == LineHead(e) + (x + "\n" + rest);
    assert x[0] == ' ';
    HeadRead(e, x + "\n" + rest);
    FoundLineByLine(x, rest, false);
  }

  lemma LinesFollow(entries: seq<Entry>)
    ensures NextLine(Lines(entries))
  {
    if entries != [] {
      var head := LineHead(entries[0]);
      assert head[0] == '-' && head[1] == ' ';
    }
  }

  lemma {:induction false} LinesRecovered(entries: seq<Entry>)
    requires forall e | e in entries :: WellHeaded(e)
    ensures FindAll(Lines(entries), true) == Recovered(entries)
  {
    hide WellHeaded, FindAll, Line, Forged;
    if entries == [] {
      NothingInNothing(true);
    } else {
      LinesFollow(entries[1..]);
      LineRecovered(entries[0], Lines(entries[1..]));
      LinesRecovered(entries[1..]);
    }
  }

  /** Whatever titles and details contain, the reader recovers each entry and, behind it, what
      its free text forges. */
  lemma LogRecovered(entries: seq<Entry>)
    requires entries != [] && forall e | e in entries :: WellHeaded(e)
    ensures FileOf(entries).Some? && FindAll(FileOf(entries).value, true) == Recovered(entries)
  {
    hide FindAll, WellHeaded;
    HeaderSkipped(Lines(entries));
    LinesRecovered(entries);
  }

  // ---- the round trip -------------------------------------------------------------------------------

  /** No line of the free text after its first matches the line pattern. */
  predicate NoLaterLineMatches(text: string) {
    forall i | 0 <= i < |text| && text[i] == '\n' :: MatchEntry(text[i + 1..]).None?
  }

  lemma {:induction false} FindsNothingExactly(text: string, lineStart: bool)
    ensures FindAll(text, lineStart) == []
       <==> (lineStart ==> MatchEntry(text).None?) && NoLaterLineMatches(text)
    decreases |text|
  {
    hide MatchEntry;
    if text == "" {
      NoDashNoMatch("");
    } else if !(lineStart && MatchEntry(text).Some?) {
      FindsNothingExactly(text[1..], text[0] == '\n');
      var tail := text[1..];
      assert forall i | 0 <= i < |tail| :: tail[i] == text[i + 1] && tail[i + 1..] == text[i + 2..];
      if NoLaterLineMatches(text) {
        forall i | 0 <= i < |tail| && tail[i] == '\n' ensures MatchEntry(tail[i + 1..]).None? {
          assert text[i + 1] == '\n' && text[i + 1 + 1..] == tail[i + 1..];
        }
        assert text[0] == '\n' ==> MatchEntry(text[0 + 1..]).None?;
      }
      if NoLaterLineMatches(tail) && (text[0] == '\n' ==> MatchEntry(tail).None?) {
        forall i | 0 <= i < |text| && text[i] == '\n' ensures MatchEntry(text[i + 1..]).None? {
          if i > 0 { assert tail[i - 1] == '\n' && tail[i - 1 + 1..] == text[i + 1..]; }
        }
      }
    }
  }

  predicate NothingForged(entries: seq<Entry>) {
    forall i | 0 <= i < |entries| :: Forged(entries[i]) == []
  }

  lemma ForgedInRest(entries: seq<Entry>)
    requires entries != []
    ensures NothingForged(entries) <==> Forged(entries[0]) == [] && NothingForged(entries[1..])
  {
    hide Forged;
    var rest := entries[1..];
    if Forged(entries[0]) == [] && NothingForged(rest) {
      forall i | 0 <= i < |entries| ensures Forged(entries[i]) == [] { if i > 0 { assert entries[i] == rest[i - 1]; } }
    }
  }

  lemma {:induction false} RecoveredExactly(entries: seq<Entry>)
    ensures |Recovered(entries)| >= |entries|
    ensures |Recovered(entries)| == |entries| <==> NothingForged(entries)
  {
    hide Forged, NothingForged;
    if entries == [] {
      assert NothingForged([]) by { NothingToForge(); }
    } else {
      ForgedInRest(entries);
      RecoveredExactly(entries[1..]);
    }
  }

  lemma NothingToForge()
    ensures NothingForged([])
  {
  }

  lemma {:induction false} RecoveredIsSeen(entries: seq<Entry>)
    requires NothingForged(entries)
    ensures Recovered(entries) == Seen(entries)
  {
    hide Forged, NothingForged;
    if entries != [] {
      var e := entries[0];
      ForgedInRest(entries);
      RecoveredIsSeen(entries[1..]);
      var first, rest := [Found(e.stamp, e.ticket, e.status)], Recovered(entries[1..]);
      assert first + [] + rest == first + rest;
      assert Seen(entries) == first + Seen(entries[1..]);
    }
  }

  /** The round trip, exactly: the reader recovers the appended sequence of stamps, tickets and
      statuses iff no later line of any entry's free text matches the line pattern. */
  lemma RoundTripExactly(entries: seq<Entry>)
    requires entries != [] && forall e | e in entries :: WellHeaded(e)
    ensures FileOf(entries).Some?
    ensures FindAll(FileOf(entries).value, true) == Seen(entries)
       <==> forall e | e in entries :: NoLaterLineMatches(AfterStatus(e))
  {
    hide FindAll, WellHeaded, NoLaterLineMatches, FileOf;
    LogRecovered(entries);
    RecoveredExactly(entries);
    if NothingForged(entries) { RecoveredIsSeen(entries); }
    forall e | e in entries ensures Forged(e) == [] <==> NoLaterLineMatches(AfterStatus(e)) {
      FindsNothingExactly(AfterStatus(e), false);
    }
    assert forall i | 0 <= i < |entries| :: entries[i] in entries;
  }

  lemma OneLineHasNoLater(text: string)
    requires '\n' !in text
    ensures NoLaterLineMatches(text)
  {
  }

  /** So one-line titles and details always come back right. */
  lemma ShipLogRoundTrip(entries: seq<Entry>)
    requires entries != [] && forall e | e in entries :: Printable(e)
    ensures FileOf(entries).Some? && FindAll(FileOf(entries).value, true) == Seen(entries)
  {
    hide WellHeaded, FindAll, NoLaterLineMatches, FileOf;
    RoundTripExactly(entries);
    forall e | e in entries ensures NoLaterLineMatches(AfterStatus(e)) {
      OneLineHasNoLater(AfterStatus(e));
    }
  }

  // ---- nothing printed is lost ------------------------------------------------------------------------

  /** The mark between title and detail does not begin inside the title. */
  ghost predicate Unmarked(title: string) {
    !Contains(title + " --", " -- ")
  }

  lemma MarkInside(title: string, i: nat)
    requires i + 4 <= |title| + 3 && (title + " --")[i..i + 4] == " -- "
    ensures !Unmarked(title)
  {
    assert OccursAt(title + " --", " -- ", i);
  }

  lemma TitleNotLonger(t1: string, d1: string, t2: string, d2: string)
    requires Unmarked(t2) && t1 + DetailPart(d1) == t2 + DetailPart(d2)
    ensures |t1| >= |t2|
  {
    if |t1| < |t2| {
      assert d1 != "";
      var i := |t1|;
      var whole := t1 + DetailPart(d1);
      assert whole[i..i + 4] == " -- ";
      assert whole == t2 + DetailPart(d2);
      if d2 != "" {
        assert whole[..|t2| + 3] == t2 + " --";
        assert (t2 + " --")[i..i + 4] == whole[i..i + 4];
      } else {
        assert whole == t2;
        assert (t2 + " --")[i..i + 4] == whole[i..i + 4];
      }
      MarkInside(t2, i);
    }
  }

  lemma FreeTextSplits(t1: string, d1: string, t2: string, d2: string)
    requires Unmarked(t1) && Unmarked(t2) && |d1| <= 200 && |d2| <= 200
    requires t1 + DetailPart(d1) == t2 + DetailPart(d2)
    ensures t1 == t2 && d1 == d2
  {
    hide Unmarked;
    TitleNotLonger(t1, d1, t2, d2);
    TitleNotLonger(t2, d2, t1, d1);
    assert (t1 + DetailPart(d1))[..|t1|] == t1 && (t2 + DetailPart(d2))[..|t2|] == t2;
    assert (t1 + DetailPart(d1))[|t1|..] == DetailPart(d1) && (t2 + DetailPart(d2))[|t2|..] == DetailPart(d2);
    DetailShown(d1);
    DetailShown(d2);
  }

  lemma DetailShown(d: string)
    requires |d| <= 200
    ensures DetailPart(d) == "" <==> d == ""
    ensures d != "" ==> |DetailPart(d)| > 4 && DetailPart(d)[4..] == d
  {
  }

  /** Of well-formed entries whose title does not carry the mark, with details of at most 200
      characters, no two print the same line: a line tells the whole entry. */
  lemma LineTellsEntry(a: Entry, b: Entry)
    requires WellHeaded(a) && WellHeaded(b) && Unmarked(a.title) && Unmarked(b.title)
    requires |a.detail| <= 200 && |b.detail| <= 200 && Line(a) == Line(b)
    ensures a == b
  {
    hide *;
    LineRead(a);
    LineRead(b);
    FreeTextSplits(a.title, a.detail, b.title, b.detail);
  }

  /** The matcher splits a printed line into the three groups and the free text. */
  lemma LineRead(e: Entry)
    requires WellHeaded(e)
    ensures MatchEntry(Line(e)).Some? && MatchEntry(Line(e)).value.0 == Found(e.stamp, e.ticket, e.status)
    ensures var rest := MatchEntry(Line(e)).value.1; |rest| >= 2 && rest[1..|rest| - 1] == e.title + DetailPart(e.detail)
  {
    hide WellHeaded, MatchEntry, LineHead, DetailPart;
    var rest := AfterStatus(e) + "\n";
    HeadRead(e, rest);
    LineSplits(LineHead(e), AfterStatus(e));
    InnerText(e.title, DetailPart(e.detail));
  }

  lemma LineSplits(head: string, free: string)
    ensures head + free + "\n" == head + (free + "\n")
  {
  }

  lemma InnerText(title: string, detail: string)
    ensures var rest := " " + title + detail + "\n"; rest[1..|rest| - 1] == title + detail
  {
  }
}
