/** The ship log as text: the planner's printer and the storyteller's reader. */
module ShipLog {
  import opened Text

  datatype Entry = Entry(stamp: string, ticket: string, title: string, status: string, detail: string)

  /** The three groups of the reader's line pattern. */
  datatype Found = Found(stamp: string, ticket: string, status: string)

  const TITLE_LINE := "# AgentNet Ship Log"
  const NOTE_LINE := "Auto-appended by " + "hermes_planner_v4" + " + qaagent_v6."
  const HEADER := TITLE_LINE + "\n\n" + NOTE_LINE + "\n\n"

  // ---- printing ---------------------------------------------------------------------------

  function DetailPart(detail: string): (r: string) {
    if detail == "" then "" else " -- " + Take(detail, 200)
  }

  /** The free text of a line. */
  function AfterStatus(e: Entry): (r: string) {
    " " + e.title + DetailPart(e.detail)
  }

  /** The part of a line that the reader's pattern covers. */
  function LineHead(e: Entry): (r: string) {
    "- [" + e.stamp + "] " + ("**" + e.ticket + "** " + e.status + ":")
  }

  function Line(e: Entry): (r: string) {
    LineHead(e) + AfterStatus(e) + "\n"
  }

  function Lines(entries: seq<Entry>): (r: string) {
    if entries == [] then "" else Line(entries[0]) + Lines(entries[1..])
  }

  /** The file after these appends; it does not exist before the first. */
  function FileOf(entries: seq<Entry>): (r: Option<string>) {
    if entries == [] then None else Some(HEADER + Lines(entries))
  }

  lemma {:induction false} LinesOneMore(entries: seq<Entry>, e: Entry)
    ensures Lines(entries + [e]) == Lines(entries) + Line(e)
  {
    hide Line;
    if entries == [] {
      assert entries + [e] == [e] && [e][1..] == [];
    } else {
      LinesOneMore(entries[1..], e);
      assert (entries + [e])[1..] == entries[1..] + [e];
    }
  }

  lemma FileOneMore(before: seq<Entry>, e: Entry)
    ensures FileOf(before + [e])
         == Some((if before == [] then HEADER else FileOf(before).value) + Line(e))
  {
    hide Line, HEADER;
    LinesOneMore(before, e);
    if before == [] {
      assert Lines(before) == "" && "" + Line(e) == Line(e);
    }
    assert HEADER + Lines(before) + Line(e) == HEADER + (Lines(before) + Line(e));
  }

  class ShipLogText {
    var text: Option<string>

    constructor ()
      ensures text == FileOf([])
    {
      text := None;
    }

    method Append(ghost before: seq<Entry>, e: Entry)
      requires text == FileOf(before)
      modifies this
      ensures text == FileOf(before + [e])
    {
      if text.None? { text := Some(HEADER); }
      text := Some(text.value + Line(e));
      FileOneMore(before, e);
    }
  }

  // ---- the line pattern ---------------------------------------------------------------------

  /** The regex class `\s`, on ASCII. */
  predicate Space(c: char) {
    c == ' ' || '\t' <= c <= '\r' || '\U{001C}' <= c <= '\U{001F}'
  }

  function SpaceRun(s: string): (n: nat)
    ensures n <= |s|
  {
    if s != "" && Space(s[0]) then 1 + SpaceRun(s[1..]) else 0
  }

  function WordRun(s: string): (n: nat)
    ensures n <= |s|
  {
    if s != "" && !Space(s[0]) then 1 + WordRun(s[1..]) else 0
  }

  /** `s` starts with the pattern, where `d` stands for a digit. */
  predicate Shaped(s: string, pattern: string) {
    |pattern| <= |s| && forall i | 0 <= i < |pattern| :: if pattern[i] == 'd' then Digit(s[i]) else s[i] == pattern[i]
  }

  /** Length of the match of `\d{4}-\d{2}-\d{2}\s+\d{2}:\d{2}:\d{2}\s+UTC` at the start, or 0. */
  function StampLength(s: string): (n: nat)
    ensures n <= |s|
  {
    if !Shaped(s, "dddd-dd-dd") then 0
    else
      var a := SpaceRun(s[10..]);
      if a == 0 || !Shaped(s[10 + a..], "dd:dd:dd") then 0
      else
        var b := SpaceRun(s[18 + a..]);
        if b == 0 || !Shaped(s[18 + a + b..], "UTC") then 0 else 21 + a + b
  }

  /** The last colon of the word that has a character before it: where the greedy `(\S+):` ends. */
  function LastColon(word: string): (n: nat)
    ensures n < |word| || n == 0
    ensures n > 0 ==> word[n] == ':'
  {
    if |word| <= 1 then 0
    else if word[|word| - 1] == ':' then |word| - 1
    else LastColon(word[..|word| - 1])
  }

  /** `\s+(\S+):` at the start: the status and what follows the match. */
  function MatchStatus(s: string): (r: Option<(string, string)>)
    ensures r.Some? ==> |r.value.1| < |s|
  {
    var a := SpaceRun(s);
    var word := s[a..][..WordRun(s[a..])];
    var n := LastColon(word);
    if a == 0 || n == 0 then None else Some((word[..n], s[a..][n + 1..]))
  }

  /** `\*\*(AB-\d+)\*\*` at the start: length of the ticket, or 0. */
  function TicketLength(s: string): (n: nat)
    ensures n > 0 ==> 4 + n <= |s|
  {
    if !Shaped(s, "**AB-") then 0
    else
      var d := DigitRun(s, 5);
      if d == 0 || !Shaped(s[5 + d..], "**") then 0 else 3 + d
  }

  /** `\[(stamp)\]` at the start: length of the stamp, or 0. */
  function BracketLength(s: string): (n: nat)
    ensures n > 0 ==> 2 + n <= |s|
  {
    if s == "" || s[0] != '[' then 0
    else
      var n := StampLength(s[1..]);
      if 1 + n < |s| && s[1 + n] == ']' then n else 0
  }

  /** `\s+\*\*(AB-\d+)\*\*\s+(\S+):` at the start: ticket, status and what follows. */
  function MatchTicket(s: string): (r: Option<(string, string, string)>)
    ensures r.Some? ==> |r.value.2| < |s|
  {
    var bold := s[SpaceRun(s)..];
    var n := TicketLength(bold);
    if bold == s || n == 0 then None
    else
      match MatchStatus(bold[n + 4..])
      case None => None
      case Some((status, rest)) => Some((bold[2..n + 2], status, rest))
  }

  /** The whole pattern at the start of a line, and what follows. Only the last word leaves a
      choice, and `LastColon` makes it. */
  function MatchEntry(s: string): (r: Option<(Found, string)>)
    ensures r.Some? ==> |r.value.1| < |s|
  {
    if s == "" || s[0] != '-' then None
    else
      var bracket := s[1..][SpaceRun(s[1..])..];
      var n := BracketLength(bracket);
      if n == 0 then None
      else
        match MatchTicket(bracket[n + 2..])
        case None => None
        case Some((ticket, status, rest)) => Some((Found(bracket[1..n + 1], ticket, status), rest))
  }

  /** `re.finditer` with MULTILINE over the rest of a text: matches in order, each search
      starting where the last match ended. A match ends in a colon, never at a line start. */
  function FindAll(s: string, lineStart: bool): (r: seq<Found>)
    decreases |s|
  {
    if s == "" then []
    else
      var m := MatchEntry(s);
      if lineStart && m.Some? then [m.value.0] + FindAll(m.value.1, false)
      else FindAll(s[1..], s[0] == '\n')
  }

  // ---- the round trip -------------------------------------------------------------------------

  const STAMP_SHAPE := "dddd-dd-dd dd:dd:dd UTC"

  predicate IsStamp(s: string) {
    |s| == |STAMP_SHAPE| && Shaped(s, STAMP_SHAPE)
  }

  predicate IsTicket(s: string) {
    |s| > 3 && s[..3] == "AB-" && forall i | 3 <= i < |s| :: Digit(s[i])
  }

  predicate OneWord(s: string) {
    s != "" && forall c | c in s :: !Space(c)
  }

  predicate OneLine(s: string) {
    '\n' !in s && '\r' !in s
  }

  /** What the line pattern asks of the parts it reads. */
  predicate WellHeaded(e: Entry) {
    IsStamp(e.stamp) && IsTicket(e.ticket) && OneWord(e.status)
  }

  predicate Printable(e: Entry) {
    WellHeaded(e) && OneLine(e.title) && OneLine(e.detail)
  }

  function Seen(entries: seq<Entry>): (r: seq<Found>)
    ensures |r| == |entries|
    ensures forall i | 0 <= i < |r| :: r[i] == Found(entries[i].stamp, entries[i].ticket, entries[i].status)
  {
    seq(|entries|, i requires 0 <= i < |entries| => Found(entries[i].stamp, entries[i].ticket, entries[i].status))
  }

  lemma OneSpace(rest: string)
    requires rest != "" && !Space(rest[0])
    ensures SpaceRun(" " + rest) == 1
  {
    assert (" " + rest)[1..] == rest;
    assert SpaceRun(rest) == 0;
  }

  lemma {:induction false} WordRunIs(word: string, rest: string)
    requires (forall c | c in word :: !Space(c)) && rest != "" && Space(rest[0])
    ensures WordRun(word + rest) == |word|
  {
    if word == "" {
      assert word + rest == rest;
    } else {
      assert word[0] in word && forall c | c in word[1..] :: c in word;
      WordRunIs(word[1..], rest);
      assert (word + rest)[1..] == word[1..] + rest;
    }
  }

  lemma StampRead(stamp: string, rest: string)
    requires IsStamp(stamp)
    ensures |stamp| == 23 && StampLength(stamp + rest) == 23
  {
    var s := stamp + rest;
    assert forall i | 0 <= i < 23 :: s[i] == stamp[i];
    assert Shaped(s, "dddd-dd-dd") by {
      forall i | 0 <= i < 10 ensures "dddd-dd-dd"[i] == STAMP_SHAPE[i] {}
    }
    assert s[10..] == " " + s[11..] && Digit(s[11]);
    OneSpace(s[11..]);
    assert Shaped(s[11..], "dd:dd:dd") by {
      forall i | 0 <= i < 8 ensures "dd:dd:dd"[i] == STAMP_SHAPE[11 + i] && s[11..][i] == stamp[11 + i] {}
    }
    assert s[19..] == " " + s[20..] && s[20] == 'U';
    OneSpace(s[20..]);
    assert Shaped(s[20..], "UTC") by {
      forall i | 0 <= i < 3 ensures "UTC"[i] == STAMP_SHAPE[20 + i] && s[20..][i] == stamp[20 + i] {}
    }
  }

  lemma BracketRead(stamp: string, rest: string)
    requires IsStamp(stamp)
    ensures |stamp| == 23 && BracketLength("[" + stamp + "]" + rest) == 23
  {
    hide StampLength, IsStamp;
    var s := "[" + stamp + "]" + rest;
    StampRead(stamp, "]" + rest);
    assert s[1..] == stamp + ("]" + rest);
    assert s[24] == ']';
  }

  lemma TicketRead(ticket: string, rest: string)
    requires IsTicket(ticket)
    ensures TicketLength("**" + ticket + "**" + rest) == |ticket|
  {
    var s := "**" + ticket + "**" + rest;
    var d := |ticket| - 3;
    assert ticket[..3][0] == ticket[0] && ticket[..3][1] == ticket[1] && ticket[..3][2] == ticket[2];
    assert s[0] == '*' && s[1] == '*' && s[2] == ticket[0] && s[3] == ticket[1] && s[4] == ticket[2];
    forall j | 5 <= j < 5 + d ensures Digit(s[j]) { assert s[j] == ticket[j - 2]; }
    assert s[5 + d] == '*' && s[6 + d] == '*';
    DigitRunIs(s, 5, d);
    assert Shaped(s[5 + d..], "**");
  }

  lemma StatusRead(status: string, rest: string)
    requires OneWord(status) && rest != "" && Space(rest[0])
    ensures MatchStatus(" " + status + ":" + rest) == Some((status, rest))
  {
    var s := " " + status + ":" + rest;
    var word := status + ":";
    assert s == " " + (word + rest) && s[1..] == word + rest;
    assert status[0] in status;
    OneSpace(word + rest);
    WordRunIs(word, rest);
    assert (word + rest)[..|word|] == word;
    assert LastColon(word) == |status|;
    assert word[..|status|] == status && (word + rest)[|word|..] == rest;
  }

  lemma Enclosed(open: string, text: string, close: string, rest: string)
    ensures (open + text + close + rest)[|open + text + close|..] == rest
    ensures (open + text + close + rest)[|open|..|open| + |text|] == text
  {
  }

  lemma TicketAndStatusRead(ticket: string, status: string, rest: string)
    requires IsTicket(ticket) && OneWord(status) && rest != "" && Space(rest[0])
    ensures MatchTicket(" " + ("**" + ticket + "**" + (" " + status + ":" + rest))) == Some((ticket, status, rest))
  {
    assert |ticket| > 3;
    var last := " " + status + ":" + rest;
    var bold := "**" + ticket + "**" + last;
    TicketRead(ticket, last);
    StatusRead(status, rest);
    OneSpace(bold);
    Enclosed("**", ticket, "**", last);
    hide *;
    assert (" " + bold)[1..] == bold;
    MatchTicketBy(" " + bold, |ticket|, bold);
  }

  lemma MatchTicketBy(s: string, n: nat, bold: string)
    requires SpaceRun(s) == 1 && |s| > 1 && bold == s[1..] && TicketLength(bold) == n > 0
    ensures MatchTicket(s) == match MatchStatus(bold[n + 4..])
                              case None => None
                              case Some((status, rest)) => Some((bold[2..n + 2], status, rest))
  {
    hide TicketLength, MatchStatus, SpaceRun;
  }

  /** The pattern reads back exactly what the head of a line was printed from. */
  lemma HeadRead(e: Entry, rest: string)
    requires WellHeaded(e) && rest != "" && Space(rest[0])
    ensures MatchEntry(LineHead(e) + rest) == Some((Found(e.stamp, e.ticket, e.status), rest))
  {
    hide BracketLength, MatchTicket, IsStamp, IsTicket, OneWord;
    var tail := " " + ("**" + e.ticket + "**" + (" " + e.status + ":" + rest));
    var bracket := "[" + e.stamp + "]" + tail;
    var s := LineHead(e) + rest;
    BracketRead(e.stamp, tail);
    TicketAndStatusRead(e.ticket, e.status, rest);
    OneSpace(bracket);
    assert |s| == |"-" + (" " + bracket)|;
    assert forall i | 0 <= i < |s| :: s[i] == ("-" + (" " + bracket))[i];
    assert s == "-" + (" " + bracket);
    assert s[1..] == " " + bracket && s[1..][1..] == bracket;
    assert bracket[25..] == tail && bracket[1..24] == e.stamp;
  }

  lemma NoDashNoMatch(s: string)
    requires s != "" ==> s[0] != '-'
    ensures MatchEntry(s) == None
  {
  }

  lemma NothingInNothing(lineStart: bool)
    ensures FindAll("", lineStart) == []
  {
  }

  /** Up to its end, the rest of a line that is not at a line start holds no match. */
  lemma {:induction false} RestOfLine(x: string, rest: string)
    requires '\n' !in x
    ensures FindAll(x + "\n" + rest, false) == FindAll(rest, true)
  {
    var s := x + "\n" + rest;
    if x == "" {
      assert s[1..] == rest;
    } else {
      assert x[0] in x && forall c | c in x[1..] :: c in x;
      RestOfLine(x[1..], rest);
      assert s[1..] == x[1..] + "\n" + rest;
    }
  }

  lemma OtherLine(x: string, rest: string)
    requires '\n' !in x && (x == "" || x[0] != '-')
    ensures FindAll(x + "\n" + rest, true) == FindAll(rest, true)
  {
    hide MatchEntry;
    var s := x + "\n" + rest;
    NoDashNoMatch(s);
    if x == "" {
      assert s[1..] == rest;
    } else {
      assert forall c | c in x[1..] :: c in x;
      assert x[0] in x;
      RestOfLine(x[1..], rest);
      assert s[1..] == x[1..] + "\n" + rest;
    }
  }

  lemma HeaderSkipped(rest: string)
    ensures FindAll(HEADER + rest, true) == FindAll(rest, true)
  {
    hide FindAll;
    var fourth := "" + "\n" + rest;
    var third := NOTE_LINE + "\n" + fourth;
    var second := "" + "\n" + third;
    assert forall i | 0 <= i < |TITLE_LINE| :: TITLE_LINE[i] != '\n' && TITLE_LINE[i] != '-';
    assert forall i | 0 <= i < |NOTE_LINE| :: NOTE_LINE[i] != '\n';
    assert NOTE_LINE[0] != '-';
    OtherLine(TITLE_LINE, second);
    OtherLine("", third);
    OtherLine(NOTE_LINE, fourth);
    OtherLine("", rest);
    hide TITLE_LINE, NOTE_LINE;
    assert HEADER + rest == TITLE_LINE + "\n" + second;
  }
}
