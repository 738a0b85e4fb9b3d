/** What redaction means: one pure function on JSON trees, and the set of leaves it hides. */
module Redaction {
  import opened Outcomes
  import opened Text
  import opened JsonTree

  const MARKER := "[redacted]"
  const ESCAPED_MARKER := "%5Bredacted%5D"

  const SENSITIVE_PARTS: seq<string> := [
    "password", "passwd", "passphrase",
    "secret", "token", "credential",
    "apikey", "accesskey", "privatekey", "signingkey", "encryptionkey",
    "clientsecret", "bearer", "sasl", "authorization"]

  const REFERENCE_KEYS: set<string> := {
    "secretname", "secretnamespace", "secretref", "secretkeyref", "secretkeyselector",
    "existingsecret", "configsecret", "tokensecret", "passwordsecret", "credentialssecret",
    "secretgeneratorref", "imagepullsecrets", "secrets"}

  predicate Kept(c: char) {
    'a' <= c <= 'z' || '0' <= c <= '9'
  }

  /** Lower case, separators dropped. */
  function Normalize(k: string): string {
    if k == "" then ""
    else KeptIn(k[0]) + Normalize(k[1..])
  }

  predicate HasSensitivePart(n: string) {
    exists i :: 0 <= i < |SENSITIVE_PARTS| && Contains(n, SENSITIVE_PARTS[i])
  }

  predicate Sensitive(key: string) {
    var n := Normalize(key);
    n !in REFERENCE_KEYS && HasSensitivePart(n)
  }

  function KeptIn(c: char): string {
    if Kept(Lower(c)) then [Lower(c)] else ""
  }

  lemma Regroup(a: string, b: string, c: string)
    ensures a + (b + c) == a + b + c
  {
  }

  lemma {:induction false} NormalizeConcat(a: string, b: string)
    ensures Normalize(a + b) == Normalize(a) + Normalize(b)
  {
    if a == "" {
      assert a + b == b;
    } else {
      NormalizeConcat(a[1..], b);
      assert (a + b)[1..] == a[1..] + b && (a + b)[0] == a[0];
      Regroup(KeptIn(a[0]), Normalize(a[1..]), Normalize(b));
    }
  }

  method NormalizeKey(k: string) returns (b: string)
    ensures b == Normalize(k)
  {
    b := "";
    for i := 0 to |k|
      invariant b == Normalize(k[..i])
    {
      NormalizeConcat(k[..i], [k[i]]);
      assert k[..i + 1] == k[..i] + [k[i]];
      var r := Lower(k[i]);
      if Kept(r) {
        b := b + [r];
      }
    }
    assert k[..|k|] == k;
  }

  /** What normalisation makes of each character; of a text, by `NormalizeConcat`, it makes
      what it makes of its characters one after the other. */
  lemma NormalizeOne(c: char)
    ensures Normalize("") == ""
    ensures 'a' <= c <= 'z' || '0' <= c <= '9' ==> Normalize([c]) == [c]
    ensures 'A' <= c <= 'Z' ==> |Normalize([c])| == 1 && Normalize([c])[0] - 'a' == c - 'A' && Normalize([c])[0] >= 'a'
    ensures !('a' <= c <= 'z' || '0' <= c <= '9' || 'A' <= c <= 'Z') ==> Normalize([c]) == ""
  {
    assert [c][1..] == "";
  }

  /** Sensitive is a key that, normalised, names no reference and contains one of the parts. */
  method SensitiveKey(key: string) returns (yes: bool)
    ensures yes == Sensitive(key)
    ensures var n := Normalize(key);
            yes <==>
            && n !in {"secretname", "secretnamespace", "secretref", "secretkeyref", "secretkeyselector",
                      "existingsecret", "configsecret", "tokensecret", "passwordsecret", "credentialssecret",
                      "secretgeneratorref", "imagepullsecrets", "secrets"}
            && exists part :: Contains(n, part) &&
                 part in ["password", "passwd", "passphrase", "secret", "token", "credential",
                          "apikey", "accesskey", "privatekey", "signingkey", "encryptionkey",
                          "clientsecret", "bearer", "sasl", "authorization"]
  {
    var k := NormalizeKey(key);
    if k in REFERENCE_KEYS {
      return false;
    }
    for i := 0 to |SENSITIVE_PARTS|
      invariant forall j :: 0 <= j < i ==> !Contains(k, SENSITIVE_PARTS[j])
    {
      if Contains(k, SENSITIVE_PARTS[i]) {
        return true;
      }
    }
    return false;
  }

  // ---- strings ----

  datatype User = User(name: string, password: Option<string>)

  datatype Url = Url(scheme: string, user: Option<User>, rest: string)

  /** The URL library: any parser and printer. */
  datatype UrlLib = UrlLib(parse: string -> Option<Url>, format: Url -> string)

  /** None: the string is left alone. */
  function RedactUrl(lib: UrlLib, s: string): Option<string> {
    if !Contains(s, "://") || !Contains(s, "@") then None
    else
      match lib.parse(Trim(s))
      case Some(Url(scheme, Some(User(name, Some(_))), rest)) =>
        Some(ReplaceFirst(lib.format(Url(scheme, Some(User(name, Some(MARKER))), rest)), ESCAPED_MARKER, MARKER))
      case _ => None
  }

  function RedactFlag(s: string): Option<string> {
    var t := Trim(s);
    if t == "" || t[0] != '-' then None
    else match Cut(t, '=')
      case None => None
      case Some((name, value)) =>
        if value != "" && Sensitive(name) then Some(name + "=" + MARKER) else None
  }

  function RedactString(lib: UrlLib, s: string): Option<string> {
    match RedactFlag(s)
    case Some(out) => Some(out)
    case None => RedactUrl(lib, s)
  }

  // ---- trees ----

  predicate SensitiveName(m: map<string, Json>) {
    "name" in m && m["name"].Str? && Sensitive(m["name"].s)
  }

  /** The two shapes whose secret is recognised by a sibling field. */
  predicate Preset(m: map<string, Json>, k: string)
    requires k in m
  {
    || (k == "value" && m[k].Str? && SensitiveName(m))
    || (k == "key" && m[k].Str? && m[k].s != "" && "termination" in m)
  }

  function Redact(lib: UrlLib, j: Json): Json
    decreases j, 1
  {
    match j
    case Obj(m) => Obj(map k | k in m :: RedactField(lib, j, k))
    case Arr(items) => Arr(seq(|items|, i requires 0 <= i < |items| => Redact(lib, items[i])))
    case Str(s) => (match RedactString(lib, s) case Some(out) => Str(out) case None => j)
    case _ => j
  }

  function RedactField(lib: UrlLib, j: Json, k: string): Json
    requires j.Obj? && k in j.fields
    decreases j, 0
  {
    if Preset(j.fields, k) then Str(MARKER) else RedactEntry(lib, k, j.fields[k])
  }

  function RedactEntry(lib: UrlLib, k: string, v: Json): Json
    decreases v, 2
  {
    match v
    case Str(s) => if Sensitive(k) then (if s == "" then v else Str(MARKER)) else Redact(lib, v)
    case Bool(_) => if Sensitive(k) then Str(MARKER) else v
    case Num(_) => if Sensitive(k) then Str(MARKER) else v
    case _ => Redact(lib, v)
  }

  /** The leaves redaction selects, as paths. */
  ghost function Sites(lib: UrlLib, j: Json): set<Path>
    decreases j, 2
  {
    match j
    case Obj(m) => SitesOf(lib, j, m.Keys)
    case Arr(items) => SitesBelow(lib, j, |items|)
    case Str(s) => if RedactString(lib, s).Some? then {[]} else {}
    case _ => {}
  }

  /** The sites under some of an object's fields. */
  ghost function SitesOf(lib: UrlLib, j: Json, ks: set<string>): set<Path>
    requires j.Obj? && ks <= j.fields.Keys
    decreases j, 1
  {
    set k, p | k in ks && p in FieldSites(lib, j, k) :: [Key(k)] + p
  }

  /** The sites under the first `n` elements of a list. */
  ghost function SitesBelow(lib: UrlLib, j: Json, n: nat): set<Path>
    requires j.Arr? && n <= |j.items|
    decreases j, 1
  {
    set i: nat, p | i < n && p in Sites(lib, j.items[i]) :: [Index(i)] + p
  }

  ghost function FieldSites(lib: UrlLib, j: Json, k: string): set<Path>
    requires j.Obj? && k in j.fields
    decreases j, 0
  {
    if Preset(j.fields, k) then {[]} else EntrySites(lib, k, j.fields[k])
  }

  ghost function EntrySites(lib: UrlLib, k: string, v: Json): set<Path>
    decreases v, 3
  {
    match v
    case Str(s) => if Sensitive(k) then (if s == "" then {} else {[]}) else Sites(lib, v)
    case Bool(_) => if Sensitive(k) then {[]} else {}
    case Num(_) => if Sensitive(k) then {[]} else {}
    case _ => Sites(lib, v)
  }

  ghost function Under(step: Step, paths: set<Path>): set<Path> {
    set p | p in paths :: [step] + p
  }

  lemma {:induction false} UnderSize(step: Step, paths: set<Path>)
    ensures |Under(step, paths)| == |paths|
  {
    if paths != {} {
      var p :| p in paths;
      var rest := paths - {p};
      UnderSize(step, rest);
      assert [step] + p !in Under(step, rest) by {
        forall q | q in rest ensures [step] + q != [step] + p {
          assert ([step] + q)[1..] == q && ([step] + p)[1..] == p;
        }
      }
      assert Under(step, paths) == Under(step, rest) + {[step] + p};
    }
  }

  /** One more field adds exactly its own sites: no site is counted under two fields. */
  lemma SitesOfOneMore(lib: UrlLib, j: Json, ks: set<string>, k: string)
    requires j.Obj? && ks <= j.fields.Keys && k in j.fields && k !in ks
    ensures |SitesOf(lib, j, ks + {k})| == |SitesOf(lib, j, ks)| + |FieldSites(lib, j, k)|
  {
    var here := Under(Key(k), FieldSites(lib, j, k));
    UnderSize(Key(k), FieldSites(lib, j, k));
    assert SitesOf(lib, j, ks + {k}) == SitesOf(lib, j, ks) + here;
    assert SitesOf(lib, j, ks) !! here by {
      forall p | p in SitesOf(lib, j, ks) ensures p !in here {
        assert p[0] != Key(k);
      }
    }
  }

  lemma SitesBelowOneMore(lib: UrlLib, j: Json, n: nat)
    requires j.Arr? && n < |j.items|
    ensures |SitesBelow(lib, j, n + 1)| == |SitesBelow(lib, j, n)| + |Sites(lib, j.items[n])|
  {
    var here := Under(Index(n), Sites(lib, j.items[n]));
    UnderSize(Index(n), Sites(lib, j.items[n]));
    assert SitesBelow(lib, j, n + 1) == SitesBelow(lib, j, n) + here;
    assert SitesBelow(lib, j, n) !! here by {
      forall p | p in SitesBelow(lib, j, n) ensures p !in here {
        assert p[0] != Index(n);
      }
    }
  }

  // ---- the marker and the field names the two sibling rules write to ----

  lemma MarkerIsPlain(lib: UrlLib)
    ensures RedactString(lib, MARKER) == None
  {
    assert MARKER[0] == '[' && MARKER[|MARKER| - 1] == ']';
    assert Trim(MARKER) == MARKER;
    LacksChar(MARKER, "://", 0);
  }

  /** Every sensitive part but "bearer" has one of four letters. */
  lemma PartsHaveTellingChar(i: nat) returns (j: nat)
    requires i < |SENSITIVE_PARTS| && i != 12
    ensures j < |SENSITIVE_PARTS[i]| && SENSITIVE_PARTS[i][j] in "pstc"
  {
    j := if i == 14 || i == 10 then 2 else if i == 6 || i == 7 then 1 else 0;
  }

  lemma LacksTellingChars(n: string)
    requires !Contains(n, "bearer") && forall i :: 0 <= i < |n| ==> n[i] !in "pstc"
    ensures !HasSensitivePart(n)
  {
    forall i: nat | i < |SENSITIVE_PARTS| ensures !Contains(n, SENSITIVE_PARTS[i]) {
      if i != 12 {
        var j := PartsHaveTellingChar(i);
        LacksChar(n, SENSITIVE_PARTS[i], j);
      }
    }
  }

  lemma PlainName(name: string)
    requires name == "value" || name == "key" || name == "name"
    ensures !Sensitive(name)
  {
    ValueNormalized();
    KeyNormalized();
    NameNormalized();
    LacksTellingChars(name);
  }

  lemma ValueNormalized()
    ensures Normalize("value") == "value"
  {
  }

  lemma KeyNormalized()
    ensures Normalize("key") == "key"
  {
  }

  lemma NameNormalized()
    ensures Normalize("name") == "name"
  {
  }

  lemma PlainNames()
    ensures !Sensitive("value") && !Sensitive("key") && !Sensitive("name")
  {
    PlainName("value");
    PlainName("key");
    PlainName("name");
  }

  function One(b: bool): nat {
    if b then 1 else 0
  }

  ghost function SelfIf(b: bool): (paths: set<Path>)
    ensures |paths| == One(b)
  {
    if b then {[]} else {}
  }

  /** How a scalar is treated under a key, spelled out. */
  lemma ScalarEntry(lib: UrlLib, k: string, v: Json)
    requires v.Scalar()
    ensures v.Str? && Sensitive(k) ==>
              RedactEntry(lib, k, v) == (if v.s == "" then v else Str(MARKER)) &&
              EntrySites(lib, k, v) == SelfIf(v.s != "")
    ensures v.Str? && !Sensitive(k) ==>
              var r := RedactString(lib, v.s);
              RedactEntry(lib, k, v) == (if r.Some? then Str(r.value) else v) &&
              EntrySites(lib, k, v) == SelfIf(r.Some?)
    ensures !v.Str? ==>
              RedactEntry(lib, k, v) == (if Sensitive(k) && v != Null then Str(MARKER) else v)
              && EntrySites(lib, k, v) == SelfIf(Sensitive(k) && v != Null)
  {
  }
}
