/** The storyteller's line pattern, read declaratively: the parts a match is made of. The matcher
    finds a match exactly where there are such parts, and takes the longest status. */
module ShipLogPattern {
  import opened Text
  import opened ShipLog

  /** `-\s*\[(\d{4}-\d{2}-\d{2}\s+\d{2}:\d{2}:\d{2}\s+UTC)\]\s+\*\*(AB-\d+)\*\*\s+(\S+):`,
      piece by piece. */
  datatype Parts = Parts(gap0: string, date: string, gap1: string, time: string, gap2: string,
                         gap3: string, number: string, gap4: string, status: string)

  ghost predicate Blank(s: string) {
    forall i | 0 <= i < |s| :: Space(s[i])
  }

  ghost predicate Gap(s: string) { s != "" && Blank(s) }

  ghost predicate Number(s: string) {
    s != "" && forall i | 0 <= i < |s| :: Digit(s[i])
  }

  ghost predicate Word(s: string) {
    s != "" && forall i | 0 <= i < |s| :: !Space(s[i])
  }

  ghost predicate Formed(p: Parts) {
    && Blank(p.gap0) && Gap(p.gap1) && Gap(p.gap2) && Gap(p.gap3) && Gap(p.gap4)
    && |p.date| == 10 && Shaped(p.date, "dddd-dd-dd") && |p.time| == 8 && Shaped(p.time, "dd:dd:dd")
    && Number(p.number) && Word(p.status)
  }

  ghost function StampText(p: Parts): (r: string) {
    p.date + p.gap1 + p.time + p.gap2 + "UTC"
  }

  ghost function TicketText(p: Parts): (r: string) { "AB-" + p.number }

  ghost function StatusTail(p: Parts, rest: string): (r: string) {
    p.gap4 + (p.status + ":" + rest)
  }

  ghost function TicketTail(p: Parts, rest: string): (r: string) {
    p.gap3 + ("**" + TicketText(p) + "**" + StatusTail(p, rest))
  }

  ghost function EntryText(p: Parts, rest: string): (r: string) {
    "-" + (p.gap0 + ("[" + StampText(p) + "]" + TicketTail(p, rest)))
  }

  ghost function FoundIn(p: Parts): (r: Found) {
    Found(StampText(p), TicketText(p), p.status)
  }

  // ---- runs ---------------------------------------------------------------------------------

  lemma {:induction false} SpaceRunIs(gap: string, rest: string)
    requires Blank(gap) && (rest == "" || !Space(rest[0]))
    ensures SpaceRun(gap + rest) == |gap|
  {
    if gap == "" {
      assert gap + rest == rest;
    } else {
      SpaceRunIs(gap[1..], rest);
      assert (gap + rest)[1..] == gap[1..] + rest;
    }
  }

  lemma {:induction false} SpaceRunMeans(s: string)
    ensures Blank(s[..SpaceRun(s)]) && (SpaceRun(s) < |s| ==> !Space(s[SpaceRun(s)]))
  {
    if s != "" && Space(s[0]) {
      SpaceRunMeans(s[1..]);
      var n := SpaceRun(s[1..]);
      assert s[..1 + n] == [s[0]] + s[1..][..n];
    }
  }

  lemma {:induction false} WordRunMeans(s: string)
    ensures forall i | 0 <= i < WordRun(s) :: !Space(s[i])
    ensures WordRun(s) < |s| ==> Space(s[WordRun(s)])
  {
    if s != "" && !Space(s[0]) {
      WordRunMeans(s[1..]);
      assert forall i | 1 <= i < WordRun(s) :: s[i] == s[1..][i - 1];
    }
  }

  lemma {:induction false} WordRunReaches(s: string, n: nat)
    requires n <= |s| && forall i | 0 <= i < n :: !Space(s[i])
    ensures WordRun(s) >= n
  {
    if n > 0 {
      assert forall i | 0 <= i < n - 1 :: s[1..][i] == s[i + 1];
      WordRunReaches(s[1..], n - 1);
    }
  }

  lemma {:induction false} LastColonReaches(word: string, n: nat)
    requires 0 < n < |word| && word[n] == ':'
    ensures LastColon(word) >= n
  {
    if n < |word| - 1 {
      assert word[..|word| - 1][n] == word[n];
      LastColonReaches(word[..|word| - 1], n);
    }
  }

  // ---- where there are parts, there is a match --------------------------------------------------

  lemma StatusMatched(p: Parts, rest: string)
    requires Formed(p)
    ensures MatchStatus(StatusTail(p, rest)).Some? && |MatchStatus(StatusTail(p, rest)).value.1| <= |rest|
  {
    hide SpaceRun, WordRun, LastColon;
    var s, tail := StatusTail(p, rest), p.status + ":" + rest;
    SpaceRunIs(p.gap4, tail);
    assert s[|p.gap4|..] == tail;
    var n := |p.status|;
    WordRunReaches(tail, n + 1);
    assert tail[..WordRun(tail)][n] == ':';
    LastColonReaches(tail[..WordRun(tail)], n);
  }

  lemma ShapedPart(s: string, part: string, pattern: string)
    requires |part| == |pattern| && Shaped(part, pattern) && part <= s
    ensures Shaped(s, pattern)
  {
    forall i | 0 <= i < |pattern| ensures s[i] == part[i] {
      assert s[..|part|] == part;
    }
  }

  lemma StampMatched(p: Parts, more: string)
    requires Formed(p)
    ensures StampLength(StampText(p) + more) == |StampText(p)|
  {
    hide SpaceRun, Shaped, StampLength, StampText;
    var s := StampText(p) + more;
    var a, b := |p.gap1|, |p.gap2|;
    var third := "UTC" + more;
    var second := p.time + (p.gap2 + third);
    StampPieces(p, more);
    ShapedPart(s, p.date, "dddd-dd-dd");
    DigitFirst(p.time, second);
    SpaceRunIs(p.gap1, second);
    ShapedPart(second, p.time, "dd:dd:dd");
    assert third[0] == 'U';
    SpaceRunIs(p.gap2, third);
    StartsShaped(more);
    StampLengthBy(s, a, b);
  }

  lemma Regrouped(a: string, b: string, c: string, d: string, e: string, f: string)
    ensures a + b + c + d + e + f == a + (b + (c + (d + (e + f))))
  {
    assert a + b + c + d + e + f == a + b + c + d + (e + f);
    assert a + b + c + d + (e + f) == a + b + c + (d + (e + f));
    assert a + b + c + (d + (e + f)) == a + b + (c + (d + (e + f)));
  }

  lemma Dropped(part: string, rest: string, s: string, i: nat)
    requires i <= |s| && s[i..] == part + rest
    ensures part <= s[i..] && i + |part| <= |s| && s[i + |part|..] == rest
  {
    assert s[i..][|part|..] == s[i + |part|..];
  }

  /** The stamp with what follows it, from each of its parts on. */
  lemma StampPieces(p: Parts, more: string)
    requires |p.date| == 10 && |p.time| == 8
    ensures var s := StampText(p) + more;
            var third := "UTC" + more;
            var second := p.time + (p.gap2 + third);
            && |s| == 21 + |p.gap1| + |p.gap2| + |more| && p.date <= s && p.time <= second
            && s[10..] == p.gap1 + second && s[10 + |p.gap1|..] == second
            && s[18 + |p.gap1|..] == p.gap2 + third && s[18 + |p.gap1| + |p.gap2|..] == third
  {
    var third := "UTC" + more;
    var fourth := p.gap2 + third;
    var second := p.time + fourth;
    var first := p.gap1 + second;
    var s := p.date + first;
    Regrouped(p.date, p.gap1, p.time, p.gap2, "UTC", more);
    assert s[0..] == s;
    Dropped(p.date, first, s, 0);
    Dropped(p.gap1, second, s, 10);
    Dropped(p.time, fourth, s, 10 + |p.gap1|);
    Dropped(p.gap2, third, s, 18 + |p.gap1|);
  }

  lemma StampLengthBy(s: string, a: nat, b: nat)
    requires 18 + a + b <= |s| && a > 0 && b > 0
    requires Shaped(s, "dddd-dd-dd") && SpaceRun(s[10..]) == a && Shaped(s[10 + a..], "dd:dd:dd")
    requires SpaceRun(s[18 + a..]) == b && Shaped(s[18 + a + b..], "UTC")
    ensures StampLength(s) == 21 + a + b
  {
    hide SpaceRun;
  }

  lemma DigitFirst(time: string, s: string)
    requires |time| == 8 && Shaped(time, "dd:dd:dd") && time <= s
    ensures s != "" && !Space(s[0])
  {
    assert "dd:dd:dd"[0] == 'd' && s[..8] == time && s[0] == time[0];
  }

  lemma StartsShaped(more: string)
    ensures Shaped("UTC" + more, "UTC")
  {
  }

  lemma BracketMatched(p: Parts, more: string)
    requires Formed(p)
    ensures BracketLength("[" + StampText(p) + "]" + more) == |StampText(p)| > 0
  {
    hide StampLength;
    var s := "[" + StampText(p) + "]" + more;
    StampMatched(p, "]" + more);
    assert s[1..] == StampText(p) + ("]" + more);
    assert s[1 + |StampText(p)|] == ']';
  }

  lemma NumberedTicket(p: Parts)
    requires Formed(p)
    ensures IsTicket(TicketText(p))
  {
    assert TicketText(p)[..3] == "AB-";
  }

  lemma TicketMatched(p: Parts, rest: string)
    requires Formed(p)
    ensures MatchTicket(TicketTail(p, rest)).Some?
    ensures |MatchTicket(TicketTail(p, rest)).value.2| <= |rest|
  {
    hide SpaceRun, TicketLength, MatchStatus, IsTicket;
    var bold := "**" + TicketText(p) + "**" + StatusTail(p, rest);
    SpaceRunIs(p.gap3, bold);
    assert TicketTail(p, rest)[|p.gap3|..] == bold;
    NumberedTicket(p);
    TicketRead(TicketText(p), StatusTail(p, rest));
    assert bold[|TicketText(p)| + 4..] == StatusTail(p, rest);
    StatusMatched(p, rest);
  }

  /** Where the pattern's parts stand, the matcher finds a match, one that leaves no more behind. */
  lemma PartsAreMatched(p: Parts, rest: string)
    requires Formed(p)
    ensures MatchEntry(EntryText(p, rest)).Some? && |MatchEntry(EntryText(p, rest)).value.1| <= |rest|
  {
    hide SpaceRun, BracketLength, MatchTicket, StampText, TicketTail;
    var s := EntryText(p, rest);
    var bracket := "[" + StampText(p) + "]" + TicketTail(p, rest);
    SpaceRunIs(p.gap0, bracket);
    assert s[1..] == p.gap0 + bracket;
    assert s[1..][|p.gap0|..] == bracket;
    BracketMatched(p, TicketTail(p, rest));
    assert bracket[|StampText(p)| + 2..] == TicketTail(p, rest);
    TicketMatched(p, rest);
  }

  // ---- and where there is a match, there are its parts --------------------------------------------

  lemma StatusParts(s: string) returns (gap: string, status: string, rest: string)
    requires MatchStatus(s).Some?
    ensures Gap(gap) && Word(status) && s == gap + (status + ":" + rest) && MatchStatus(s) == Some((status, rest))
  {
    hide SpaceRun, WordRun, LastColon;
    var a := SpaceRun(s);
    var tail := s[a..];
    var word := tail[..WordRun(tail)];
    var n := LastColon(word);
    SpaceRunMeans(s);
    WordRunMeans(tail);
    gap, status, rest := s[..a], word[..n], tail[n + 1..];
    assert tail == word[..n] + [word[n]] + tail[n + 1..];
    assert s == s[..a] + tail;
  }

  lemma ShapedPrefix(s: string, pattern: string)
    requires Shaped(s, pattern)
    ensures Shaped(s[..|pattern|], pattern)
  {
  }

  lemma StampParts(s: string) returns (date: string, gap1: string, time: string, gap2: string)
    requires StampLength(s) > 0
    ensures |date| == 10 && Shaped(date, "dddd-dd-dd") && Gap(gap1) && |time| == 8 && Shaped(time, "dd:dd:dd") && Gap(gap2)
    ensures s[..StampLength(s)] == date + gap1 + time + gap2 + "UTC"
  {
    hide SpaceRun, Shaped;
    var a := SpaceRun(s[10..]);
    var b := SpaceRun(s[18 + a..]);
    SpaceRunMeans(s[10..]);
    SpaceRunMeans(s[18 + a..]);
    ShapedPrefix(s, "dddd-dd-dd");
    ShapedPrefix(s[10 + a..], "dd:dd:dd");
    ShapedPrefix(s[18 + a + b..], "UTC");
    date, gap1, time, gap2 := s[..10], s[10..][..a], s[10 + a..][..8], s[18 + a..][..b];
    IsLiteral(s[18 + a + b..][..3]);
    assert s[..21 + a + b] == date + gap1 + time + gap2 + s[18 + a + b..][..3];
  }

  lemma IsLiteral(s: string)
    requires |s| == 3 && Shaped(s, "UTC")
    ensures s == "UTC"
  {
  }

  lemma TicketParts(s: string) returns (number: string)
    requires TicketLength(s) > 0
    ensures Number(number) && TicketLength(s) == 3 + |number|
    ensures s == "**" + ("AB-" + number) + "**" + s[7 + |number|..]
    ensures s[2..2 + TicketLength(s)] == "AB-" + number
  {
    hide DigitRun, Shaped;
    var d := DigitRun(s, 5);
    DigitRunMeans(s, 5);
    number := s[5..5 + d];
    OpeningIs(s);
    StarsAre(s[5 + d..]);
    assert s[5 + d..][..2] == s[5 + d..7 + d];
    assert s == s[..5] + number + s[5 + d..7 + d] + s[7 + d..];
    assert s[..5] + number == "**" + ("AB-" + number);
  }

  lemma OpeningIs(s: string)
    requires Shaped(s, "**AB-")
    ensures s[..5] == "**AB-"
  {
  }

  lemma StarsAre(s: string)
    requires Shaped(s, "**")
    ensures s[..2] == "**"
  {
  }

  lemma {:induction false} DigitRunMeans(s: string, i: nat)
    requires i <= |s|
    ensures i + DigitRun(s, i) <= |s| && forall j | i <= j < i + DigitRun(s, i) :: Digit(s[j])
    decreases |s| - i
  {
    if i < |s| && Digit(s[i]) { DigitRunMeans(s, i + 1); }
  }

  lemma TicketAndStatusParts(s: string) returns (gap3: string, number: string, gap4: string, status: string, rest: string)
    requires MatchTicket(s).Some?
    ensures Gap(gap3) && Number(number) && Gap(gap4) && Word(status)
    ensures s == gap3 + ("**" + ("AB-" + number) + "**" + (gap4 + (status + ":" + rest)))
    ensures MatchTicket(s) == Some(("AB-" + number, status, rest))
  {
    hide SpaceRun, TicketLength, MatchStatus;
    var bold := s[SpaceRun(s)..];
    var n := TicketLength(bold);
    SpaceRunMeans(s);
    gap3 := s[..SpaceRun(s)];
    number := TicketParts(bold);
    gap4, status, rest := StatusParts(bold[n + 4..]);
    assert s == gap3 + bold;
  }

  lemma BracketParts(s: string)
    requires BracketLength(s) > 0
    ensures var n := BracketLength(s);
            StampLength(s[1..]) == n && s == "[" + s[1..][..n] + "]" + s[n + 2..] && s[1..n + 1] == s[1..][..n]
  {
    hide StampLength;
  }

  /** What the matcher finds is made of the pattern's parts. */
  lemma MatchHasParts(s: string) returns (p: Parts)
    requires MatchEntry(s).Some?
    ensures Formed(p) && s == EntryText(p, MatchEntry(s).value.1) && MatchEntry(s).value.0 == FoundIn(p)
  {
    hide SpaceRun, BracketLength, MatchTicket, StampLength, Shaped, Gap, Number, Word, Blank, MatchEntry, EntryText;
    EntryStarts(s);
    var after := s[1..];
    var bracket := after[SpaceRun(after)..];
    var n := BracketLength(bracket);
    SpaceRunMeans(after);
    BracketParts(bracket);
    var date, gap1, time, gap2 := StampParts(bracket[1..]);
    var gap3, number, gap4, status, rest := TicketAndStatusParts(bracket[n + 2..]);
    p := Parts(after[..SpaceRun(after)], date, gap1, time, gap2, gap3, number, gap4, status);
    PartsTogether(s, p, rest, after, bracket, n);
  }

  lemma EntryStarts(s: string)
    requires MatchEntry(s).Some?
    ensures s != "" && s[0] == '-'
    ensures var bracket := s[1..][SpaceRun(s[1..])..];
            var n := BracketLength(bracket);
            && n > 0 && n + 2 <= |bracket| && MatchTicket(bracket[n + 2..]).Some?
            && var (ticket, status, rest) := MatchTicket(bracket[n + 2..]).value;
               MatchEntry(s) == Some((Found(bracket[1..n + 1], ticket, status), rest))
  {
    hide SpaceRun, BracketLength, MatchTicket;
  }

  lemma PartsTogether(s: string, p: Parts, rest: string, after: string, bracket: string, n: nat)
    requires s != "" && s[0] == '-' && after == s[1..] && p.gap0 <= after && bracket == after[|p.gap0|..]
    requires n + 2 <= |bracket| && bracket[1..n + 1] == StampText(p)
    requires bracket == "[" + bracket[1..n + 1] + "]" + bracket[n + 2..] && bracket[n + 2..] == TicketTail(p, rest)
    ensures s == EntryText(p, rest)
  {
    hide StampText, TicketTail;
    assert after == p.gap0 + bracket;
    assert s == "-" + after;
  }

  /** The pattern in one statement: there is a match exactly where its parts stand at the start of
      the text, and of all ways to read the text so the match leaves the least behind. */
  lemma PatternExactly(s: string)
    ensures MatchEntry(s).Some? <==> exists p, rest :: Formed(p) && s == EntryText(p, rest)
    ensures forall p, rest :: Formed(p) && s == EntryText(p, rest) ==>
              MatchEntry(s).Some? && |MatchEntry(s).value.1| <= |rest|
  {
    hide MatchEntry, Formed, EntryText;
    if MatchEntry(s).Some? {
      var p := MatchHasParts(s);
      assert Formed(p) && s == EntryText(p, MatchEntry(s).value.1);
    }
    forall p, rest | Formed(p) && s == EntryText(p, rest)
      ensures MatchEntry(s).Some? && |MatchEntry(s).value.1| <= |rest|
    {
      PartsAreMatched(p, rest);
    }
  }

  // ---- all matches of a text ------------------------------------------------------------------------

  ghost predicate LineStart(t: string, i: nat)
    requires i <= |t|
  {
    i == 0 || t[i - 1] == '\n'
  }

  ghost predicate MatchesAt(t: string, i: nat) {
    i < |t| && LineStart(t, i) && MatchEntry(t[i..]).Some?
  }

  /** Where the match at i ends. */
  ghost function EndOf(t: string, i: nat): (e: nat)
    ensures i <= e && (MatchesAt(t, i) ==> i < e <= |t|)
  {
    if MatchesAt(t, i) then |t| - |MatchEntry(t[i..]).value.1| else i
  }

  ghost predicate Covers(t: string, i: nat, q: nat) {
    MatchesAt(t, i) && i <= q < EndOf(t, i)
  }

  ghost predicate Covered(t: string, q: nat, places: seq<nat>) {
    exists k | 0 <= k < |places| :: Covers(t, places[k], q)
  }

  /** These are the matches of t from place i on, as a search without overlaps finds them: at line
      starts, one after the other, and every line start with a match is covered by one of them. */
  ghost predicate Search(t: string, i: nat, places: seq<nat>) {
    && (forall k | 0 <= k < |places| :: i <= places[k] && MatchesAt(t, places[k]))
    && (forall k, l | 0 <= k < l < |places| :: EndOf(t, places[k]) <= places[l])
    && (forall q | i <= q && MatchesAt(t, q) :: Covered(t, q, places))
  }

  /** The k-th found entry is what the match at the k-th place holds. */
  ghost predicate ReadAt(t: string, places: seq<nat>, found: seq<Found>) {
    |found| == |places| && forall k | 0 <= k < |places| :: HoldsAt(t, places[k], found[k])
  }

  ghost predicate HoldsAt(t: string, i: nat, f: Found) {
    MatchesAt(t, i) && MatchEntry(t[i..]).value.0 == f
  }

  lemma EndsInColon(t: string, i: nat)
    requires MatchesAt(t, i)
    ensures var e := EndOf(t, i); t[e..] == MatchEntry(t[i..]).value.1 && !LineStart(t, e)
  {
    hide MatchEntry;
    var s := t[i..];
    var rest := MatchEntry(s).value.1;
    var p := MatchHasParts(s);
    var before := "-" + (p.gap0 + ("[" + StampText(p) + "]" + (p.gap3 + ("**" + TicketText(p) + "**" + (p.gap4 + p.status)))));
    ColonBefore(p, rest, before);
    assert t == t[..i] + before + ":" + rest;
    assert t[EndOf(t, i) - 1] == ':';
  }

  lemma ColonBefore(p: Parts, rest: string, before: string)
    requires before == "-" + (p.gap0 + ("[" + StampText(p) + "]"
                              + (p.gap3 + ("**" + TicketText(p) + "**" + (p.gap4 + p.status)))))
    ensures EntryText(p, rest) == before + ":" + rest
  {
    hide StampText, TicketText;
    var tail := ":" + rest;
    assert StatusTail(p, rest) == p.gap4 + p.status + tail;
    assert TicketTail(p, rest) == p.gap3 + ("**" + TicketText(p) + "**" + (p.gap4 + p.status)) + tail;
    assert before + ":" + rest == before + tail;
  }

  lemma SearchOn(t: string, i: nat, places: seq<nat>)
    requires i < |t| && !MatchesAt(t, i) && Search(t, i + 1, places)
    ensures Search(t, i, places)
  {
    hide MatchesAt;
  }

  lemma SearchFound(t: string, i: nat, places: seq<nat>)
    requires MatchesAt(t, i) && Search(t, EndOf(t, i), places)
    ensures Search(t, i, [i] + places)
  {
    hide MatchesAt, EndOf, Covered;
    var all := [i] + places;
    assert forall k | 1 <= k < |all| :: all[k] == places[k - 1];
    forall q | i <= q && MatchesAt(t, q) ensures Covered(t, q, all) {
      CoveredMore(t, q, i, places);
    }
  }

  lemma CoveredMore(t: string, q: nat, i: nat, places: seq<nat>)
    requires MatchesAt(t, i) && i <= q && (EndOf(t, i) <= q ==> Covered(t, q, places))
    ensures Covered(t, q, [i] + places)
  {
    hide MatchesAt, EndOf;
    var all := [i] + places;
    if q < EndOf(t, i) {
      assert Covers(t, all[0], q);
    } else {
      var k :| 0 <= k < |places| && Covers(t, places[k], q);
      assert Covers(t, all[k + 1], q);
    }
  }

  lemma ReadMore(t: string, i: nat, places: seq<nat>, f: Found, found: seq<Found>)
    requires HoldsAt(t, i, f) && ReadAt(t, places, found)
    ensures ReadAt(t, [i] + places, [f] + found)
  {
    hide HoldsAt;
    assert forall k | 1 <= k < |[i] + places| :: ([i] + places)[k] == places[k - 1] && ([f] + found)[k] == found[k - 1];
  }

  lemma FindAllStep(t: string, i: nat)
    requires i < |t|
    ensures FindAll(t[i..], LineStart(t, i))
         == if MatchesAt(t, i) then [MatchEntry(t[i..]).value.0] + FindAll(t[EndOf(t, i)..], LineStart(t, EndOf(t, i)))
            else FindAll(t[i + 1..], LineStart(t, i + 1))
  {
    hide MatchEntry;
    if MatchesAt(t, i) { EndsInColon(t, i); }
    assert t[i..][1..] == t[i + 1..] && t[i..][0] == t[i];
  }

  /** The reader finds exactly the matches of the search, in order. */
  lemma {:induction false} FindsEveryMatch(t: string, i: nat) returns (places: seq<nat>)
    requires i <= |t|
    ensures Search(t, i, places) && ReadAt(t, places, FindAll(t[i..], LineStart(t, i)))
    decreases |t| - i
  {
    if i == |t| {
      places := [];
    } else {
      hide FindAll, LineStart, MatchEntry, Search, ReadAt, MatchesAt;
      FindAllStep(t, i);
      if MatchesAt(t, i) {
        var e := EndOf(t, i);
        var later := FindsEveryMatch(t, e);
        SearchFound(t, i, later);
        ReadMore(t, i, later, MatchEntry(t[i..]).value.0, FindAll(t[e..], LineStart(t, e)));
        places := [i] + later;
      } else {
        places := FindsEveryMatch(t, i + 1);
        SearchOn(t, i, places);
      }
    }
  }
}
