/** Substring search and the planner's item-id pattern, on plain strings. */
module Text {
  datatype Option<+T> = None | Some(value: T)

  predicate OccursAt(text: string, sub: string, i: nat) {
    i + |sub| <= |text| && text[i..i + |sub|] == sub
  }

  /** Python's `sub in text`. */
  predicate Contains(text: string, sub: string) {
    exists i | 0 <= i <= |text| :: OccursAt(text, sub, i)
  }

  predicate Digit(c: char) {
    '0' <= c <= '9'
  }

  /** The regex class `\w`, on ASCII. */
  predicate WordChar(c: char) {
    Digit(c) || 'a' <= c <= 'z' || 'A' <= c <= 'Z' || c == '_'
  }

  function Take(text: string, n: nat): (r: string) {
    if |text| <= n then text else text[..n]
  }

  function Decimal(n: nat): (r: string)
    ensures r != "" && forall i | 0 <= i < |r| :: Digit(r[i])
  {
    if n < 10 then ['0' + n as char] else Decimal(n / 10) + ['0' + (n % 10) as char]
  }

  /** Length of the run of digits that starts at position i. */
  function DigitRun(text: string, i: nat): (n: nat)
    requires i <= |text|
    ensures i + n <= |text|
    ensures forall j | i <= j < i + n :: Digit(text[j])
    ensures i + n < |text| ==> !Digit(text[i + n])
    decreases |text| - i
  {
    if i < |text| && Digit(text[i]) then 1 + DigitRun(text, i + 1) else 0
  }

  /** Length of the match of `\b(AB-\d{3,})\b` at position i, or 0. A shorter run of
      digits never helps: the character after it would be a digit, so no `\b`. */
  function IdMatchLength(text: string, i: nat): (n: nat)
    ensures i + n <= |text| || n == 0
  {
    if i + 3 <= |text| && text[i] == 'A' && text[i + 1] == 'B' && text[i + 2] == '-'
       && (i == 0 || !WordChar(text[i - 1])) then
      var d := DigitRun(text, i + 3);
      if d >= 3 && (i + 3 + d == |text| || !WordChar(text[i + 3 + d])) then 3 + d else 0
    else 0
  }

  /** `re.search(r"\b(AB-\d{3,})\b", text)` from position i on: the leftmost match. */
  function SearchId(text: string, i: nat): (r: Option<string>)
    decreases |text| - i
  {
    if i >= |text| then None
    else
      var n := IdMatchLength(text, i);
      if n > 0 then Some(text[i..i + n]) else SearchId(text, i + 1)
  }

  function ExtractBacklogId(text: string): (r: Option<string>) {
    SearchId(text, 0)
  }

  /** `AB-\d{3,}` as a whole string. */
  predicate IsBacklogId(id: string) {
    && |id| >= 6 && id[0] == 'A' && id[1] == 'B' && id[2] == '-'
    && forall i | 3 <= i < |id| :: Digit(id[i])
  }

  lemma {:induction false} DigitRunIs(text: string, i: nat, n: nat)
    requires i + n <= |text|
    requires forall j | i <= j < i + n :: Digit(text[j])
    requires i + n == |text| || !Digit(text[i + n])
    ensures DigitRun(text, i) == n
    decreases n
  {
    if n > 0 {
      DigitRunIs(text, i + 1, n - 1);
    }
  }

  lemma {:induction false} SearchSkips(text: string, i: nat, k: nat)
    requires i <= k <= |text|
    requires forall j | i <= j < k :: IdMatchLength(text, j) == 0
    ensures SearchId(text, i) == SearchId(text, k)
    decreases k - i
  {
    if i < k {
      SearchSkips(text, i + 1, k);
    }
  }

  /** An id that follows a prefix without "AB" and a space is the one the search finds,
      whatever text comes after it. */
  lemma ExtractAfterPrefix(prefix: string, id: string, rest: string)
    requires IsBacklogId(id)
    requires prefix != "" && prefix[|prefix| - 1] == ' '
    requires forall j | 0 <= j < |prefix| - 1 :: !(prefix[j] == 'A' && prefix[j + 1] == 'B')
    requires rest != "" && rest[0] == ' '
    ensures ExtractBacklogId(prefix + id + rest) == Some(id)
  {
    hide DigitRun;
    var text := prefix + id + rest;
    var p := |prefix|;
    forall j | 0 <= j < p ensures IdMatchLength(text, j) == 0 {
      if j < p - 1 {
        assert text[j] == prefix[j] && text[j + 1] == prefix[j + 1];
      } else {
        assert text[j] == ' ';
      }
    }
    SearchSkips(text, 0, p);
    assert text[p..p + |id|] == id;
    IdMatched(text, p, id);
  }

  /** An id between word boundaries is a match of its whole length. */
  lemma IdMatched(text: string, p: nat, id: string)
    requires IsBacklogId(id) && 0 < p && p + |id| < |text| && text[p..p + |id|] == id
    requires text[p - 1] == ' ' && text[p + |id|] == ' '
    ensures IdMatchLength(text, p) == |id|
  {
    hide DigitRun;
    forall j | 0 <= j < |id| ensures text[p + j] == id[j] {
      assert text[p..p + |id|][j] == text[p + j];
    }
    forall j | p + 3 <= j < p + |id| ensures Digit(text[j]) {
      assert text[p + (j - p)] == id[j - p];
    }
    assert text[p + 0] == id[0] && text[p + 1] == id[1] && text[p + 2] == id[2];
    DigitRunIs(text, p + 3, |id| - 3);
  }

  lemma OccursMeans(text: string, sub: string, i: nat, k: nat)
    requires OccursAt(text, sub, i) && k < |sub|
    ensures text[i + k] == sub[k] && sub[k] in text
  {
    assert text[i..i + |sub|][k] == text[i + k];
  }

  /** A character of `sub` that `text` lacks rules the substring out. */
  lemma LacksChar(text: string, sub: string, k: nat)
    requires k < |sub|
    requires sub[k] !in text
    ensures !Contains(text, sub)
  {
    if Contains(text, sub) {
      var i :| 0 <= i <= |text| && OccursAt(text, sub, i);
      OccursMeans(text, sub, i, k);
    }
  }

  lemma ContainsPart(before: string, text: string, after: string, sub: string)
    requires Contains(text, sub)
    ensures Contains(before + text + after, sub)
  {
    var i :| 0 <= i <= |text| && OccursAt(text, sub, i);
    var whole := before + text + after;
    assert whole[|before| + i..|before| + i + |sub|] == text[i..i + |sub|];
    assert OccursAt(whole, sub, |before| + i);
  }

  /** At place i of the prefix some character already differs from `sub`. */
  predicate Clashes(prefix: string, sub: string, i: nat) {
    exists k | 0 <= k < |sub| :: i + k < |prefix| && prefix[i + k] != sub[k]
  }

  lemma ContainsAfterGuard(prefix: string, text: string, sub: string)
    requires forall i: nat | i < |prefix| :: Clashes(prefix, sub, i)
    ensures Contains(prefix + text, sub) <==> Contains(text, sub)
  {
    var whole := prefix + text;
    if Contains(whole, sub) {
      var i :| 0 <= i <= |whole| && OccursAt(whole, sub, i);
      forall k: nat | k < |sub| ensures whole[i + k] == sub[k] {
        OccursMeans(whole, sub, i, k);
      }
      assert i < |prefix| ==> !Clashes(prefix, sub, i);
      var j := i - |prefix|;
      assert whole[i..i + |sub|] == text[j..j + |sub|];
      assert OccursAt(text, sub, j);
    }
    if Contains(text, sub) {
      ContainsPart(prefix, text, "", sub);
      assert prefix + text + "" == whole;
    }
  }

  function Join(lines: seq<string>): (r: string) {
    if lines == [] then "" else if |lines| == 1 then lines[0] else lines[0] + "\n" + Join(lines[1..])
  }

  /** An occurrence lies on one side of a character it lacks. */
  lemma OccursBeside(text: string, sub: string, i: nat, k: nat)
    requires OccursAt(text, sub, i) && k < |text| && text[k] !in sub
    ensures i + |sub| <= k || k < i
  {
    hide OccursAt;
    if i <= k < i + |sub| { OccursMeans(text, sub, i, k - i); }
  }

  /** A pattern without a newline cannot cross a line break. */
  lemma ContainsAcrossBreak(a: string, b: string, sub: string)
    requires sub != "" && '\n' !in sub
    ensures Contains(a + "\n" + b, sub) <==> Contains(a, sub) || Contains(b, sub)
  {
    var whole := a + "\n" + b;
    if Contains(whole, sub) {
      var i :| 0 <= i <= |whole| && OccursAt(whole, sub, i);
      assert whole[|a|] == '\n';
      OccursBeside(whole, sub, i, |a|);
      if i + |sub| <= |a| {
        assert whole[i..i + |sub|] == a[i..i + |sub|];
        assert OccursAt(a, sub, i);
      } else {
        var j := i - |a| - 1;
        assert whole[i..i + |sub|] == b[j..j + |sub|];
        assert OccursAt(b, sub, j);
      }
    }
    if Contains(a, sub) {
      ContainsPart("", a, "\n" + b, sub);
      assert "" + a + ("\n" + b) == whole;
    }
    if Contains(b, sub) {
      ContainsPart(a + "\n", b, "", sub);
      assert a + "\n" + b + "" == whole;
    }
  }

  lemma {:induction false} JoinContains(lines: seq<string>, sub: string)
    requires sub != "" && '\n' !in sub
    ensures Contains(Join(lines), sub) <==> exists l | l in lines :: Contains(l, sub)
  {
    if lines == [] {
      LacksChar("", sub, 0);
    } else if |lines| == 1 {
      assert lines[0] in lines;
    } else {
      ContainsAcrossBreak(lines[0], Join(lines[1..]), sub);
      JoinContains(lines[1..], sub);
      assert lines == [lines[0]] + lines[1..];
      assert forall l :: l in lines <==> l == lines[0] || l in lines[1..];
    }
  }

  /** Upper case, for ASCII letters. */
  function Upper(s: string): (r: string)
    ensures |r| == |s|
  {
    seq(|s|, i requires 0 <= i < |s| => if 'a' <= s[i] <= 'z' then (s[i] as int - 32) as char else s[i])
  }
}
