/** What the fixed point asks of the URL library, from two facts about how it prints and
    parses the user part of a URL. */
module RedactionUrls {
  import opened Outcomes
  import opened Text
  import opened JsonTree
  import opened Redaction
  import opened RedactionFixpoint

  predicate Letter(c: char) {
    'a' <= c <= 'z' || 'A' <= c <= 'Z'
  }

  /** No scheme, or a letter followed by letters, digits, `+`, `-` and `.`. */
  predicate SchemeText(scheme: string) {
    scheme == "" ||
    (Letter(scheme[0]) && forall c :: c in scheme ==> Letter(c) || '0' <= c <= '9' || c in "+-.")
  }

  function SchemePrefix(scheme: string): string {
    if scheme == "" then "//" else scheme + "://"
  }

  /** Text that stays inside the user part: no character that ends it. */
  predicate InfoText(info: string) {
    forall c :: c in info ==> c !in "/?#@"
  }

  /** The printer writes scheme, user, escaped password, `@` and the rest. */
  ghost predicate PrintsUserinfo(lib: UrlLib) {
    forall s :: lib.parse(s).Some? && lib.parse(s).value.user.Some? && lib.parse(s).value.user.value.password.Some? ==>
      PrintsMarker(lib, lib.parse(s).value)
  }

  ghost predicate PrintsMarker(lib: UrlLib, u: Url)
    requires u.user.Some?
  {
    SchemeText(u.scheme) &&
    exists info, tail :: InfoText(info) &&
      lib.format(u.(user := Some(User(u.user.value.name, Some(MARKER))))) ==
      UrlText(u.scheme, info + ESCAPED_MARKER, tail)
  }

  function UrlText(scheme: string, info: string, tail: string): string {
    SchemePrefix(scheme) + info + "@" + tail
  }

  /** The parser refuses a bracket in the user part. */
  ghost predicate RejectsBracket(lib: UrlLib) {
    forall scheme, info, tail :: SchemeText(scheme) && InfoText(info) && '[' in info ==>
      lib.parse(UrlText(scheme, info, tail)) == None
  }

  ghost predicate LocalFacts(lib: UrlLib) {
    PrintsUserinfo(lib) && RejectsBracket(lib)
  }

  // ---- replacing the first occurrence ----

  lemma {:induction false} ReplaceSkips(pre: string, s: string, from: string, to: string)
    requires from != "" && from[0] !in pre
    ensures ReplaceFirst(pre + s, from, to) == pre + ReplaceFirst(s, from, to)
  {
    if pre == "" {
      assert pre + s == s;
    } else {
      var t := pre + s;
      assert t[1..] == pre[1..] + s && t[0] == pre[0];
      ReplaceSkips(pre[1..], s, from, to);
      if |t| >= |from| {
        assert t[..|from|][0] == pre[0] != from[0];
      } else {
        assert ReplaceFirst(s, from, to) == s;
      }
      assert [pre[0]] + (pre[1..] + ReplaceFirst(s, from, to)) == pre + ReplaceFirst(s, from, to);
    }
  }

  lemma ContainsTail(s: string, part: string)
    requires Contains(s, part) && s[..|part|] != part
    ensures s != "" && Contains(s[1..], part)
  {
    var i :| 0 <= i <= |s| - |part| && OccursAt(s, part, i);
    assert i != 0;
    assert s[1..][i - 1..i - 1 + |part|] == s[i..i + |part|];
    assert OccursAt(s[1..], part, i - 1);
  }

  lemma {:induction false} ReplaceStops(s: string, post: string, from: string, to: string)
    requires Contains(s, from)
    ensures ReplaceFirst(s + post, from, to) == ReplaceFirst(s, from, to) + post
    decreases |s|
  {
    var t := s + post;
    assert |from| <= |s| && t[..|from|] == s[..|from|];
    if s[..|from|] == from {
      assert t[|from|..] == s[|from|..] + post;
    } else {
      ContainsTail(s, from);
      assert t[1..] == s[1..] + post;
      ReplaceStops(s[1..], post, from, to);
    }
  }

  lemma {:induction false} ReplacedChars(s: string, from: string, to: string)
    ensures forall c :: c in ReplaceFirst(s, from, to) ==> c in s || c in to
    ensures Contains(s, from) ==> forall c :: c in to ==> c in ReplaceFirst(s, from, to)
    decreases |s|
  {
    if |s| >= |from| && s[..|from|] != from && s != "" {
      ReplacedChars(s[1..], from, to);
      assert s == [s[0]] + s[1..];
      if Contains(s, from) {
        ContainsTail(s, from);
      }
    }
  }

  // ---- trimming ----

  lemma {:induction false} TrimRightKeeps(a: string, c: char, tail: string)
    requires !IsSpace(c)
    ensures TrimRight(a + [c] + tail) == a + [c] + TrimRight(tail)
  {
    var s := a + [c] + tail;
    if tail == "" {
      assert s[|s| - 1] == c;
    } else if IsSpace(tail[|tail| - 1]) {
      assert s[..|s| - 1] == a + [c] + tail[..|tail| - 1];
      TrimRightKeeps(a, c, tail[..|tail| - 1]);
    }
  }

  lemma UrlTextTrims(scheme: string, info: string, tail: string)
    requires SchemeText(scheme)
    ensures Trim(UrlText(scheme, info, tail)) == UrlText(scheme, info, TrimRight(tail))
    ensures RedactFlag(UrlText(scheme, info, tail)) == None
  {
    var s := UrlText(scheme, info, tail);
    assert s[0] == SchemePrefix(scheme)[0] && !IsSpace(s[0]) && s[0] != '-';
    TrimRightKeeps(SchemePrefix(scheme) + info, '@', tail);
  }

  // ---- the rewritten URL ----

  lemma MarkerText(info: string)
    requires InfoText(info)
    ensures var marked := ReplaceFirst(info + ESCAPED_MARKER, ESCAPED_MARKER, MARKER); InfoText(marked) && '[' in marked
  {
    var escaped := info + ESCAPED_MARKER;
    EscapedIsThere(info);
    ReplacedChars(escaped, ESCAPED_MARKER, MARKER);
    assert MARKER[0] == '[';
    MarkersAreInfo();
  }

  lemma MarkersAreInfo()
    ensures InfoText(MARKER) && InfoText(ESCAPED_MARKER)
  {
  }

  lemma EscapedIsThere(info: string)
    ensures Contains(info + ESCAPED_MARKER, ESCAPED_MARKER)
  {
    ContainsItself(ESCAPED_MARKER);
    ContainsConcat(ESCAPED_MARKER, info, ESCAPED_MARKER);
  }

  lemma PrefixHasNoEscape(scheme: string)
    requires SchemeText(scheme)
    ensures ESCAPED_MARKER != "" && ESCAPED_MARKER[0] !in SchemePrefix(scheme)
  {
    assert ESCAPED_MARKER[0] == '%';
  }

  lemma UrlTextParts(scheme: string, info: string, tail: string)
    ensures UrlText(scheme, info, tail) == SchemePrefix(scheme) + (info + ("@" + tail))
  {
  }

  /** Putting the marker back touches the user part only. */
  lemma MarkerLandsInUserinfo(scheme: string, escaped: string, tail: string)
    requires SchemeText(scheme) && Contains(escaped, ESCAPED_MARKER)
    ensures ReplaceFirst(UrlText(scheme, escaped, tail), ESCAPED_MARKER, MARKER)
            == UrlText(scheme, ReplaceFirst(escaped, ESCAPED_MARKER, MARKER), tail)
  {
    UrlTextParts(scheme, escaped, tail);
    PrefixHasNoEscape(scheme);
    ReplaceSkips(SchemePrefix(scheme), escaped + ("@" + tail), ESCAPED_MARKER, MARKER);
    ReplaceStops(escaped, "@" + tail, ESCAPED_MARKER, MARKER);
    UrlTextParts(scheme, ReplaceFirst(escaped, ESCAPED_MARKER, MARKER), tail);
  }

  lemma RewrittenUrl(lib: UrlLib, s: string) returns (scheme: string, info: string, tail: string)
    requires PrintsUserinfo(lib) && RedactUrl(lib, s).Some?
    ensures SchemeText(scheme) && InfoText(info) && '[' in info &&
            RedactUrl(lib, s).value == UrlText(scheme, info, tail)
  {
    var u := lib.parse(Trim(s)).value;
    assert PrintsMarker(lib, u);
    scheme := u.scheme;
    info, tail :| InfoText(info) &&
      lib.format(u.(user := Some(User(u.user.value.name, Some(MARKER))))) ==
      UrlText(scheme, info + ESCAPED_MARKER, tail);
    MarkerText(info);
    EscapedIsThere(info);
    MarkerLandsInUserinfo(scheme, info + ESCAPED_MARKER, tail);
    info := ReplaceFirst(info + ESCAPED_MARKER, ESCAPED_MARKER, MARKER);
  }

  /** A library that prints and parses the user part so rewrites every URL once and for all. */
  lemma LocalFactsSettle(lib: UrlLib)
    requires LocalFacts(lib)
    ensures UrlsSettle(lib)
  {
    forall s | RedactUrl(lib, s).Some?
      ensures RedactFlag(RedactUrl(lib, s).value) == None && RedactUrl(lib, RedactUrl(lib, s).value) == None
    {
      var scheme, info, tail := RewrittenUrl(lib, s);
      UrlTextTrims(scheme, info, tail);
      assert lib.parse(UrlText(scheme, info, TrimRight(tail))) == None;
    }
  }

  /** So for such a library redaction is a fixed point exactly when no name flips. */
  lemma LocalFixpointExactly(lib: UrlLib, j: Json)
    requires LocalFacts(lib)
    ensures Redact(lib, Redact(lib, j)) == Redact(lib, j) <==> NoNameFlips(lib, j)
  {
    LocalFactsSettle(lib);
    FixpointExactly(lib, j);
  }

  // ---- the counterexample happens ----

  function SampleUrl(): string {
    "a://" + "beare:" + "x" + "@h"
  }

  /** A library that knows one URL. */
  function SampleLib(): UrlLib {
    UrlLib(s => if s == SampleUrl() then Some(Url("a", Some(User("beare", Some("x"))), "h")) else None,
           (u: Url) => UrlText(u.scheme, "beare:" + ESCAPED_MARKER, u.rest))
  }

  lemma SampleFacts()
    ensures LocalFacts(SampleLib())
  {
    var lib := SampleLib();
    forall s | lib.parse(s).Some? ensures PrintsMarker(lib, lib.parse(s).value) {
      assert InfoText("beare:") && SchemeText("a");
      assert lib.format(Url("a", Some(User("beare", Some(MARKER))), "h")) ==
             UrlText("a", "beare:" + ESCAPED_MARKER, "h");
    }
    forall scheme, info, tail | SchemeText(scheme) && InfoText(info) && '[' in info
      ensures lib.parse(UrlText(scheme, info, tail)) == None
    {
      assert '[' in UrlText(scheme, info, tail);
      assert '[' !in SampleUrl();
    }
  }

  lemma SampleReadsPassword()
    ensures ReadsPassword(SampleLib(), "a://" + "beare:", "x", "@h")
  {
    var lib, s := SampleLib(), SampleUrl();
    ContainsItself("://");
    ContainsConcat("://", "a", "://");
    assert "a" + "://" == "a://";
    ContainsConcat("a://", "beare:" + "x" + "@h", "://");
    assert s == "a://" + ("beare:" + "x" + "@h");
    ContainsItself("@");
    ContainsConcat("@", "h", "@");
    assert "@" + "h" == "@h";
    ContainsConcat("@h", "a://" + "beare:" + "x", "@");
    assert s[0] == 'a' && s[|s| - 1] == 'h';
    assert lib.format(Url("a", Some(User("beare", Some(MARKER))), "h")) == "a://" + "beare:" + ESCAPED_MARKER + "@h";
  }

  /** There is such a library, and an object one pass does not settle. */
  lemma UrlCounterexampleHappens()
    ensures LocalFacts(SampleLib())
    ensures var j := Named(SampleUrl()); Redact(SampleLib(), Redact(SampleLib(), j)) != Redact(SampleLib(), j)
  {
    SampleFacts();
    SampleReadsPassword();
    LocalFactsSettle(SampleLib());
    UrlCounterexample(SampleLib());
  }
}
