/** The string operations the server relies on, over ASCII text. */
module Text {
  import opened Outcomes

  predicate OccursAt(s: string, part: string, i: int) {
    0 <= i <= |s| - |part| && s[i..i + |part|] == part
  }

  predicate Contains(s: string, part: string) {
    exists i :: 0 <= i <= |s| - |part| && OccursAt(s, part, i)
  }

  function Lower(c: char): char {
    if 'A' <= c <= 'Z' then (c as int - 'A' as int + 'a' as int) as char else c
  }

  function ToLower(s: string): (r: string)
    ensures |r| == |s| && forall i :: 0 <= i < |s| ==> r[i] == Lower(s[i])
  {
    seq(|s|, i requires 0 <= i < |s| => Lower(s[i]))
  }

  predicate IsSpace(c: char) {
    c == ' ' || ('\t' <= c <= '\r')
  }

  function TrimLeft(s: string): string {
    if s != "" && IsSpace(s[0]) then TrimLeft(s[1..]) else s
  }

  function TrimRight(s: string): string {
    if s != "" && IsSpace(s[|s| - 1]) then TrimRight(s[..|s| - 1]) else s
  }

  function Trim(s: string): string {
    TrimRight(TrimLeft(s))
  }

  /** The text before and after the first `sep`, if there is one. */
  function Cut(s: string, sep: char): (r: Option<(string, string)>)
    ensures r.None? <==> sep !in s
    ensures r.Some? ==> s == r.value.0 + [sep] + r.value.1 && sep !in r.value.0
  {
    if s == "" then None
    else if s[0] == sep then Some(("", s[1..]))
    else match Cut(s[1..], sep)
      case None => None
      case Some((before, after)) => Some(([s[0]] + before, after))
  }

  lemma {:induction false} CutAt(before: string, sep: char, after: string)
    requires sep !in before
    ensures Cut(before + [sep] + after, sep) == Some((before, after))
  {
    var s := before + [sep] + after;
    if before != "" {
      assert s[1..] == before[1..] + [sep] + after;
      CutAt(before[1..], sep, after);
      assert [before[0]] + before[1..] == before;
    } else {
      assert s[1..] == after;
    }
  }

  /** The text before and after the last `sep`, if there is one. */
  function CutLast(s: string, sep: char): (r: Option<(string, string)>)
    ensures r.None? <==> sep !in s
    ensures r.Some? ==> s == r.value.0 + [sep] + r.value.1 && sep !in r.value.1
  {
    if s == "" then None
    else
      var init, last := s[..|s| - 1], s[|s| - 1];
      if last == sep then Some((init, ""))
      else match CutLast(init, sep)
        case None => None
        case Some((before, after)) => Some((before, after + [last]))
  }

  lemma {:induction false} CutLastAt(before: string, sep: char, after: string)
    requires sep !in after
    ensures CutLast(before + [sep] + after, sep) == Some((before, after))
  {
    var s := before + [sep] + after;
    var init := s[..|s| - 1];
    if after == "" {
      assert init == before;
    } else {
      var last := after[|after| - 1];
      assert after == after[..|after| - 1] + [last];
      assert init == before + [sep] + after[..|after| - 1];
      CutLastAt(before, sep, after[..|after| - 1]);
    }
  }

  /** Text without a separator: what is joined by separators from such parts can be split. */
  predicate Plain(s: string) {
    '/' !in s
  }

  lemma JoinInjective(a: string, b: string, c: string, d: string)
    requires Plain(a) && Plain(c) && a + "/" + b == c + "/" + d
    ensures a == c && b == d
  {
    CutAt(a, '/', b);
    CutAt(c, '/', d);
    assert a + ['/'] + b == a + "/" + b && c + ['/'] + d == c + "/" + d;
  }

  function Before(s: string, sep: char): string {
    if Cut(s, sep).Some? then Cut(s, sep).value.0 else s
  }

  function After(s: string, sep: char): Option<string> {
    if Cut(s, sep).Some? then Some(Cut(s, sep).value.1) else None
  }

  function BeforeLast(s: string, sep: char): Option<string> {
    if CutLast(s, sep).Some? then Some(CutLast(s, sep).value.0) else None
  }

  function AfterLast(s: string, sep: char): string {
    if CutLast(s, sep).Some? then CutLast(s, sep).value.1 else s
  }

  function Suffix(sep: char, after: Option<string>): string {
    if after.Some? then [sep] + after.value else ""
  }

  function Prefix(before: Option<string>, sep: char): string {
    if before.Some? then before.value + [sep] else ""
  }

  lemma BeforeSuffix(before: string, sep: char, after: Option<string>)
    requires sep !in before
    ensures Before(before + Suffix(sep, after), sep) == before
  {
    if after.Some? {
      CutAt(before, sep, after.value);
      assert before + ([sep] + after.value) == before + [sep] + after.value;
    } else {
      assert before + "" == before;
    }
  }

  lemma AfterPrefix(before: Option<string>, sep: char, after: string)
    requires sep !in after
    ensures AfterLast(Prefix(before, sep) + after, sep) == after
  {
    if before.Some? {
      CutLastAt(before.value, sep, after);
    } else {
      assert "" + after == after;
    }
  }

  lemma CutJoins(s: string, sep: char)
    ensures Before(s, sep) + Suffix(sep, After(s, sep)) == s && sep !in Before(s, sep)
    ensures forall c :: c in Before(s, sep) ==> c in s
    ensures After(s, sep).Some? ==> forall c :: c in After(s, sep).value ==> c in s
  {
  }

  lemma CutLastJoins(s: string, sep: char)
    ensures Prefix(BeforeLast(s, sep), sep) + AfterLast(s, sep) == s && sep !in AfterLast(s, sep)
    ensures forall c :: c in AfterLast(s, sep) ==> c in s
    ensures BeforeLast(s, sep).Some? ==> forall c :: c in BeforeLast(s, sep).value ==> c in s
  {
  }

  /** Trimming takes whitespace off both ends, all of it and nothing else. */
  lemma TrimIs(s: string) returns (left: string, right: string)
    ensures s == left + Trim(s) + right
    ensures forall c :: c in left + right ==> IsSpace(c)
    ensures Trim(s) != "" ==> !IsSpace(Trim(s)[0]) && !IsSpace(Trim(s)[|Trim(s)| - 1])
  {
    left := TrimLeftIs(s);
    right := TrimRightIs(TrimLeft(s));
    assert left + (Trim(s) + right) == left + Trim(s) + right;
  }

  lemma SpaceIs(c: char)
    ensures IsSpace(c) <==> c in {' ', '\t', '\n', '\U{0B}', '\U{0C}', '\r'}
  {
  }

  lemma {:induction false} TrimLeftIs(s: string) returns (left: string)
    ensures s == left + TrimLeft(s)
    ensures forall c :: c in left ==> IsSpace(c)
    ensures TrimLeft(s) != "" ==> !IsSpace(TrimLeft(s)[0])
  {
    left := "";
    if s != "" && IsSpace(s[0]) {
      left := TrimLeftIs(s[1..]);
      left := [s[0]] + left;
    }
  }

  lemma {:induction false} TrimRightIs(s: string) returns (right: string)
    ensures s == TrimRight(s) + right
    ensures forall c :: c in right ==> IsSpace(c)
    ensures TrimRight(s) != "" ==> TrimRight(s)[0] == s[0] && !IsSpace(TrimRight(s)[|TrimRight(s)| - 1])
  {
    right := "";
    if s != "" && IsSpace(s[|s| - 1]) {
      right := TrimRightIs(s[..|s| - 1]);
      right := right + [s[|s| - 1]];
    }
  }

  /** Replaces the first occurrence of `from`, if any. */
  function ReplaceFirst(s: string, from: string, to: string): string
    decreases |s|
  {
    if |s| < |from| then s
    else if s[..|from|] == from then to + s[|from|..]
    else if s == "" then s
    else [s[0]] + ReplaceFirst(s[1..], from, to)
  }

  lemma OccursInTail(s: string, part: string, i: nat)
    requires s != ""
    ensures OccursAt(s[1..], part, i) <==> OccursAt(s, part, i + 1)
  {
    if i <= |s| - 1 - |part| {
      assert s[1..][i..i + |part|] == s[i + 1..i + 1 + |part|];
    }
  }

  /** Without an occurrence the text stays. */
  lemma {:induction false} ReplaceNothing(s: string, from: string, to: string)
    requires !Contains(s, from)
    ensures ReplaceFirst(s, from, to) == s
    decreases |s|
  {
    if |s| >= |from| && s != "" {
      assert !OccursAt(s, from, 0);
      forall i | 0 <= i <= |s| - 1 - |from| ensures !OccursAt(s[1..], from, i) {
        OccursInTail(s, from, i);
      }
      ReplaceNothing(s[1..], from, to);
    } else if |s| >= |from| {
      assert OccursAt(s, from, 0);
      assert false;
    }
  }

  lemma Regrouped(a: string, b: string, c: string, d: string)
    ensures a + (b + c + d) == a + b + c + d
  {
  }

  /** The first occurrence is replaced, and the text around it stays. */
  lemma {:induction false} ReplaceFirstIs(s: string, from: string, to: string, i: nat)
    requires OccursAt(s, from, i) && forall j :: 0 <= j < i ==> !OccursAt(s, from, j)
    ensures ReplaceFirst(s, from, to) == s[..i] + to + s[i + |from|..]
    decreases |s|
  {
    if i == 0 {
      assert s[..0] + to + s[|from|..] == to + s[|from|..];
    } else {
      assert !OccursAt(s, from, 0);
      OccursInTail(s, from, i - 1);
      forall j | 0 <= j < i - 1 ensures !OccursAt(s[1..], from, j) {
        OccursInTail(s, from, j);
      }
      ReplaceFirstIs(s[1..], from, to, i - 1);
      assert [s[0]] + s[1..][..i - 1] == s[..i] && s[1..][i - 1 + |from|..] == s[i + |from|..];
      Regrouped([s[0]], s[1..][..i - 1], to, s[i + |from|..]);
    }
  }

  // ---- contains ----

  lemma ContainsConcat(a: string, b: string, part: string)
    requires Contains(a, part)
    ensures Contains(a + b, part) && Contains(b + a, part)
  {
    var i :| 0 <= i <= |a| - |part| && OccursAt(a, part, i);
    assert (a + b)[i..i + |part|] == part;
    assert OccursAt(a + b, part, i);
    assert (b + a)[|b| + i..|b| + i + |part|] == part;
    assert OccursAt(b + a, part, |b| + i);
  }

  lemma OccurrenceHasChar(s: string, part: string, at: int, i: nat)
    requires OccursAt(s, part, at) && i < |part|
    ensures s[at + i] == part[i] && part[i] in s
  {
    assert s[at..at + |part|][i] == s[at + i];
  }

  lemma LacksChar(s: string, part: string, i: nat)
    requires i < |part| && part[i] !in s
    ensures !Contains(s, part)
  {
    if Contains(s, part) {
      var at :| 0 <= at <= |s| - |part| && OccursAt(s, part, at);
      OccurrenceHasChar(s, part, at, i);
    }
  }

  lemma LacksCharAt(s: string, part: string, i: nat)
    requires i < |part| && forall p :: i <= p <= |s| - |part| + i ==> s[p] != part[i]
    ensures !Contains(s, part)
  {
    if Contains(s, part) {
      var at :| 0 <= at <= |s| - |part| && OccursAt(s, part, at);
      OccurrenceHasChar(s, part, at, i);
    }
  }

  lemma ContainsItself(s: string)
    ensures Contains(s, s)
  {
    assert OccursAt(s, s, 0);
  }

  lemma TrimKeepsEnds(s: string)
    requires s != "" && !IsSpace(s[0]) && !IsSpace(s[|s| - 1])
    ensures Trim(s) == s
  {
  }

  lemma {:induction false} ReplaceAt(before: string, from: string, after: string, to: string)
    requires from != "" && from[0] !in before
    ensures ReplaceFirst(before + from + after, from, to) == before + to + after
    decreases |before|
  {
    var s := before + from + after;
    assert |s| >= |from|;
    if before == "" {
      assert s == from + after && before + to + after == to + after;
    } else {
      assert s[..|from|][0] == before[0] != from[0];
      assert s[1..] == before[1..] + from + after;
      ReplaceAt(before[1..], from, after, to);
      assert [before[0]] + (before[1..] + to + after) == before + to + after;
    }
  }
}
