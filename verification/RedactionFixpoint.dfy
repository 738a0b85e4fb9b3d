/** When redacting twice is the same as redacting once. */
module RedactionFixpoint {
  import opened Outcomes
  import opened Text
  import opened JsonTree
  import opened Redaction
  import opened RedactionLaws

  // ---- flags ----

  /** A redacted flag is redacted to itself. */
  lemma FlagSettles(s: string)
    requires RedactFlag(s).Some?
    ensures RedactFlag(RedactFlag(s).value) == RedactFlag(s)
  {
    var t := Trim(s);
    var (name, value) := Cut(t, '=').value;
    var out := name + "=" + MARKER;
    assert name != "" && name[0] == '-' by {
      assert t[0] == '-';
    }
    assert out[|out| - 1] == ']' && out[0] == '-';
    TrimKeepsEnds(out);
    CutAt(name, '=', MARKER);
    assert out == name + ['='] + MARKER;
  }

  lemma {:induction false} NormalizeTrimLeft(s: string)
    ensures Normalize(TrimLeft(s)) == Normalize(s)
  {
    if s != "" && IsSpace(s[0]) {
      NormalizeTrimLeft(s[1..]);
    }
  }

  lemma {:induction false} NormalizeTrimRight(s: string)
    ensures Normalize(TrimRight(s)) == Normalize(s)
  {
    if s != "" && IsSpace(s[|s| - 1]) {
      var init, last := s[..|s| - 1], s[|s| - 1..];
      NormalizeTrimRight(init);
      NormalizeConcat(init, last);
      assert s == init + last;
      assert Normalize(last) == "";
    }
  }

  lemma NotReference(n: string)
    requires n != "" && n[|n| - 1] in "dh"
    ensures n !in REFERENCE_KEYS
  {
  }

  lemma PartStays(n: string, rest: string)
    requires HasSensitivePart(n)
    ensures HasSensitivePart(n + rest)
  {
    var i :| 0 <= i < |SENSITIVE_PARTS| && Contains(n, SENSITIVE_PARTS[i]);
    ContainsConcat(n, rest, SENSITIVE_PARTS[i]);
  }

  lemma NormalizeFlag(name: string, value: string)
    ensures Normalize(name + "=" + value) == Normalize(name) + Normalize(value)
  {
    NormalizeConcat(name + "=", value);
    NormalizeConcat(name, "=");
    EqualsIsDropped();
  }

  lemma EqualsIsDropped()
    ensures Normalize("=") == ""
  {
  }

  lemma NormalizeTrim(s: string)
    ensures Normalize(Trim(s)) == Normalize(s)
  {
    NormalizeTrimLeft(s);
    NormalizeTrimRight(TrimLeft(s));
  }

  lemma MarkerNormalized()
    ensures Normalize(MARKER) == "redacted"
  {
    MarkerHead();
    MarkerTail();
    NormalizeConcat("[reda", "cted]");
    assert MARKER == "[reda" + "cted]";
  }

  lemma MarkerHead()
    ensures Normalize("[reda") == "reda"
  {
  }

  lemma MarkerTail()
    ensures Normalize("cted]") == "cted"
  {
  }

  lemma MarkedFlagIsSensitive(name: string)
    requires Sensitive(name)
    ensures Sensitive(name + "=" + MARKER)
  {
    NormalizeFlag(name, MARKER);
    MarkerNormalized();
    PartStays(Normalize(name), "redacted");
    NotReference(Normalize(name) + "redacted");
  }

  lemma FlagTextIsSensitive(name: string, value: string)
    requires Sensitive(name)
    ensures HasSensitivePart(Normalize(name + "=" + value))
  {
    NormalizeFlag(name, value);
    PartStays(Normalize(name), Normalize(value));
  }

  /** A flag that is redacted names a credential before and after, except that its full text
      may happen to spell a reference key before. */
  lemma FlagSensitivity(s: string)
    requires RedactFlag(s).Some?
    ensures Sensitive(RedactFlag(s).value)
    ensures Sensitive(s) <==> Normalize(s) !in REFERENCE_KEYS
  {
    var (name, value) := Cut(Trim(s), '=').value;
    NormalizeTrim(s);
    assert Trim(s) == name + "=" + value;
    MarkedFlagIsSensitive(name);
    FlagTextIsSensitive(name, value);
  }

  // ---- strings ----

  /** What is asked of the URL library: a rewritten URL is not a flag, and its marker is
      rejected by the parser (a bracket is not valid in userinfo). */
  ghost predicate UrlsSettle(lib: UrlLib) {
    forall s :: RedactUrl(lib, s).Some? ==>
      RedactFlag(RedactUrl(lib, s).value) == None && RedactUrl(lib, RedactUrl(lib, s).value) == None
  }

  function Rewritten(lib: UrlLib, s: string): string {
    var r := RedactString(lib, s);
    if r.Some? then r.value else s
  }

  lemma StringSettles(lib: UrlLib, s: string)
    requires UrlsSettle(lib)
    ensures Rewritten(lib, Rewritten(lib, s)) == Rewritten(lib, s)
  {
    if RedactFlag(s).Some? {
      FlagSettles(s);
    }
  }

  // ---- trees ----

  /** The object's name becomes credential-like only by being rewritten, and its value is
      then still unredacted. */
  predicate NameFlips(lib: UrlLib, m: map<string, Json>) {
    && "name" in m && m["name"].Str? && !Sensitive(m["name"].s) && Sensitive(Rewritten(lib, m["name"].s))
    && "value" in m && m["value"].Str? && Rewritten(lib, m["value"].s) != MARKER
  }

  ghost predicate NoNameFlips(lib: UrlLib, j: Json) {
    match j
    case Obj(m) => !NameFlips(lib, m) && forall k :: k in m ==> NoNameFlips(lib, m[k])
    case Arr(items) => forall i :: 0 <= i < |items| ==> NoNameFlips(lib, items[i])
    case _ => true
  }

  /** Redacting the redacted form of a scalar under its key changes nothing. */
  lemma EntrySettles(lib: UrlLib, k: string, v: Json)
    requires UrlsSettle(lib) && v.Scalar()
    ensures RedactEntry(lib, k, RedactEntry(lib, k, v)) == RedactEntry(lib, k, v)
  {
    ScalarEntry(lib, k, v);
    var w := RedactEntry(lib, k, v);
    ScalarEntry(lib, k, w);
    if v.Str? && !Sensitive(k) {
      StringSettles(lib, v.s);
    }
  }

  /** Which fields the sibling rules write in the second pass. */
  lemma PresetAgain(lib: UrlLib, j: Json, k: string)
    requires j.Obj? && k in j.fields && j.fields[k].Scalar() && k in Redact(lib, j).fields
    ensures var m := j.fields;
            Preset(Redact(lib, j).fields, k) <==>
              || (k == "value" && m[k].Str? && "name" in m && m["name"].Str? && Sensitive(Rewritten(lib, m["name"].s)))
              || (k == "key" && m[k].Str? && m[k].s != "" && "termination" in m)
  {
    PlainNames();
    FieldOf(lib, j, k);
    ScalarEntry(lib, k, j.fields[k]);
    if "name" in j.fields {
      ScalarName(lib, j);
    }
    if k == "key" && j.fields[k] == Str("") {
      EmptyIsPlain(lib);
    }
  }

  lemma EmptyIsPlain(lib: UrlLib)
    ensures RedactString(lib, "") == None
  {
  }

  lemma SecondPass(lib: UrlLib, j: Json, k: string)
    requires j.Obj? && k in j.fields && k in Redact(lib, j).fields
    requires Redact(lib, j).fields[k] == RedactField(lib, j, k)
    ensures RedactField(lib, Redact(lib, j), k) ==
            if Preset(Redact(lib, j).fields, k) then Str(MARKER) else RedactEntry(lib, k, RedactField(lib, j, k))
  {
  }

  /** The second pass leaves a scalar field alone, except the value of an object whose name
      flipped. */
  lemma ScalarFieldSettles(lib: UrlLib, j: Json, k: string)
    requires UrlsSettle(lib) && j.Obj? && k in j.fields && j.fields[k].Scalar()
    ensures k in Redact(lib, j).fields
    ensures RedactField(lib, Redact(lib, j), k) == RedactField(lib, j, k) <==>
            !(k == "value" && NameFlips(lib, j.fields))
  {
    var m := j.fields;
    FieldOf(lib, j, k);
    PresetAgain(lib, j, k);
    SecondPass(lib, j, k);
    PlainNames();
    if Preset(m, k) {
      MarkerIsPlain(lib);
      ScalarEntry(lib, k, Str(MARKER));
    } else {
      EntrySettles(lib, k, m[k]);
      ScalarEntry(lib, k, m[k]);
    }
  }

  lemma ScalarName(lib: UrlLib, j: Json)
    requires j.Obj? && "name" in j.fields
    ensures "name" in Redact(lib, j).fields
    ensures Redact(lib, j).fields["name"].Str? <==> j.fields["name"].Str?
    ensures j.fields["name"].Str? ==> Redact(lib, j).fields["name"].s == Rewritten(lib, j.fields["name"].s)
  {
    PlainNames();
    FieldOf(lib, j, "name");
    if j.fields["name"].Scalar() {
      ScalarEntry(lib, "name", j.fields["name"]);
    }
  }

  /** Redaction is a fixed point exactly when no name flips: redacting twice gives what
      redacting once gave if and only if no object anywhere in the tree has a name that
      becomes credential-like by being rewritten, beside an unredacted value. */
  lemma {:induction false} FixpointExactly(lib: UrlLib, j: Json)
    requires UrlsSettle(lib)
    ensures Redact(lib, Redact(lib, j)) == Redact(lib, j) <==> NoNameFlips(lib, j)
    decreases j
  {
    var j' := Redact(lib, j);
    match j
    case Obj(m) =>
      forall k | k in m
        ensures RedactField(lib, j', k) == j'.fields[k] <==>
                NoNameFlips(lib, m[k]) && !(k == "value" && NameFlips(lib, m))
      {
        FieldOf(lib, j, k);
        FieldOf(lib, j', k);
        if m[k].Scalar() {
          ScalarFieldSettles(lib, j, k);
        } else {
          FixpointExactly(lib, m[k]);
        }
      }
      SameFields(lib, j');
    case Arr(items) =>
      forall i | 0 <= i < |items|
        ensures Redact(lib, j'.items[i]) == j'.items[i] <==> NoNameFlips(lib, items[i])
      {
        FixpointExactly(lib, items[i]);
      }
      SameItems(lib, j');
    case Str(s) => StringSettles(lib, s);
    case _ =>
  }

  lemma SameFields(lib: UrlLib, j: Json)
    requires j.Obj?
    ensures Redact(lib, j) == j <==> forall k :: k in j.fields ==> RedactField(lib, j, k) == j.fields[k]
  {
    if forall k :: k in j.fields ==> RedactField(lib, j, k) == j.fields[k] {
      assert Redact(lib, j).fields == j.fields;
    } else {
      var k :| k in j.fields && RedactField(lib, j, k) != j.fields[k];
      FieldOf(lib, j, k);
    }
  }

  lemma SameItems(lib: UrlLib, j: Json)
    requires j.Arr?
    ensures Redact(lib, j) == j <==> forall i :: 0 <= i < |j.items| ==> Redact(lib, j.items[i]) == j.items[i]
  {
    if forall i :: 0 <= i < |j.items| ==> Redact(lib, j.items[i]) == j.items[i] {
      assert Redact(lib, j).items == j.items;
    } else {
      var i :| 0 <= i < |j.items| && Redact(lib, j.items[i]) != j.items[i];
      assert Redact(lib, j).items[i] == Redact(lib, j.items[i]);
    }
  }

  // ---- the two ways a name flips ----

  /** A flag-shaped name flips exactly when its text spells a reference key. */
  lemma FlagNameFlips(lib: UrlLib, m: map<string, Json>)
    requires "name" in m && m["name"].Str? && RedactFlag(m["name"].s).Some?
    requires "value" in m && m["value"].Str? && Rewritten(lib, m["value"].s) != MARKER
    ensures NameFlips(lib, m) <==> Normalize(m["name"].s) in REFERENCE_KEYS
  {
    FlagSensitivity(m["name"].s);
  }

  function Named(name: string): Json {
    Obj(map["name" := Str(name), "value" := Str("")])
  }

  lemma FlipBreaks(lib: UrlLib, name: string)
    requires UrlsSettle(lib) && !Sensitive(name) && Sensitive(Rewritten(lib, name))
    ensures Redact(lib, Redact(lib, Named(name))) != Redact(lib, Named(name))
  {
    EmptyIsPlain(lib);
    FixpointExactly(lib, Named(name));
  }

  lemma TokenIsSensitive()
    ensures Normalize("-token") == "token" && Sensitive("-token")
  {
    ContainsItself("token");
    assert SENSITIVE_PARTS[4] == "token";
  }

  lemma SecretNormalized()
    ensures Normalize("Secret") == "secret"
  {
  }

  lemma FlagParts(name: string, value: string)
    requires Sensitive(name) && name != "" && name[0] == '-' && '=' !in name
    requires value != "" && !IsSpace(value[|value| - 1])
    ensures RedactFlag(name + "=" + value) == Some(name + "=" + MARKER)
  {
    var s := name + "=" + value;
    assert s[0] == '-' && s[|s| - 1] == value[|value| - 1];
    TrimKeepsEnds(s);
    assert s == name + ['='] + value;
    CutAt(name, '=', value);
  }

  /** Redacting twice is not always redacting once: `-token=Secret` spells the reference key
      `tokensecret`, and its redacted form no longer does. */
  lemma FlagCounterexample(lib: UrlLib)
    requires UrlsSettle(lib)
    ensures var j := Named("-token" + "=" + "Secret"); Redact(lib, Redact(lib, j)) != Redact(lib, j)
  {
    TokenIsSensitive();
    SecretNormalized();
    FlagParts("-token", "Secret");
    NormalizeFlag("-token", "Secret");
    assert "token" + "secret" == "tokensecret";
    FlagSensitivity("-token" + "=" + "Secret");
    FlipBreaks(lib, "-token" + "=" + "Secret");
  }

  /** A URL that the library reads as `before`, password, `after` and prints back the same
      way, escaping the marker. */
  ghost predicate ReadsPassword(lib: UrlLib, before: string, password: string, after: string) {
    var s := before + password + after;
    && s != "" && !IsSpace(s[0]) && !IsSpace(s[|s| - 1]) && s[0] != '-' && '%' !in before
    && Contains(s, "://") && Contains(s, "@")
    && exists scheme, user, rest ::
         lib.parse(s) == Some(Url(scheme, Some(User(user, Some(password))), rest))
         && lib.format(Url(scheme, Some(User(user, Some(MARKER))), rest)) == before + ESCAPED_MARKER + after
  }

  lemma PasswordIsReplaced(lib: UrlLib, before: string, password: string, after: string)
    requires ReadsPassword(lib, before, password, after)
    ensures Rewritten(lib, before + password + after) == before + MARKER + after
  {
    var s := before + password + after;
    TrimKeepsEnds(s);
    ReplaceAt(before, ESCAPED_MARKER, after, MARKER);
  }

  lemma NormalizeThree(a: string, b: string, c: string)
    ensures Normalize(a + b + c) == Normalize(a) + Normalize(b) + Normalize(c)
  {
    NormalizeConcat(a + b, c);
    NormalizeConcat(a, b);
  }

  lemma NoBearer()
    ensures !HasSensitivePart("abearexh")
  {
    LacksCharAt("abearexh", "bearer", 5);
    LacksTellingChars("abearexh");
  }

  lemma BearerIsSensitive()
    ensures HasSensitivePart("a" + "beare" + "redacted" + "h")
  {
    var n := "a" + "bearer" + "edactedh";
    assert "a" + "beare" + "redacted" + "h" == n;
    assert SENSITIVE_PARTS[12] == "bearer";
    ContainsItself("bearer");
    ContainsConcat("bearer", "a", "bearer");
    ContainsConcat("a" + "bearer", "edactedh", "bearer");
  }

  lemma SchemeNormalized()
    ensures Normalize("a://") == "a"
  {
  }

  lemma UserNormalized()
    ensures Normalize("beare:") == "beare"
  {
  }

  lemma RestNormalized()
    ensures Normalize("x") == "x" && Normalize("@h") == "h"
  {
  }

  lemma UrlName(password: string)
    ensures Normalize("a://" + "beare:" + password + "@h") == "a" + "beare" + Normalize(password) + "h"
  {
    NormalizeThree("a://" + "beare:", password, "@h");
    NormalizeConcat("a://", "beare:");
    SchemeNormalized();
    UserNormalized();
    RestNormalized();
  }

  lemma UrlNameBefore()
    ensures !Sensitive("a://" + "beare:" + "x" + "@h")
  {
    UrlName("x");
    RestNormalized();
    assert "a" + "beare" + "x" + "h" == "abearexh";
    NoBearer();
  }

  lemma UrlNameAfter()
    ensures Sensitive("a://" + "beare:" + MARKER + "@h")
  {
    UrlName(MARKER);
    MarkerNormalized();
    BearerIsSensitive();
    NotReference("a" + "beare" + "redacted" + "h");
  }

  /** The same happens to a name that is a URL with a password: hiding it joins the user
      name to the marker, and `beare` with `[redacted]` spells "bearer". */
  lemma UrlCounterexample(lib: UrlLib)
    requires UrlsSettle(lib) && ReadsPassword(lib, "a://" + "beare:", "x", "@h")
    ensures var j := Named("a://" + "beare:" + "x" + "@h"); Redact(lib, Redact(lib, j)) != Redact(lib, j)
  {
    PasswordIsReplaced(lib, "a://" + "beare:", "x", "@h");
    UrlNameBefore();
    UrlNameAfter();
    FlipBreaks(lib, "a://" + "beare:" + "x" + "@h");
  }
}
