/** Secrets inside strings, in flags and URLs: whether the redacted object shows which they
    were. */
module RedactionSecrets {
  import opened Outcomes
  import opened Text
  import opened JsonTree
  import opened Redaction
  import opened RedactionLaws
  import opened RedactionFixpoint

  /** Two flags of one sensitive name. */
  predicate SameFlag(s: string, t: string) {
    var a, b := Cut(Trim(s), '='), Cut(Trim(t), '=');
    && a.Some? && b.Some? && a.value.0 == b.value.0
    && a.value.0 != "" && a.value.0[0] == '-' && Sensitive(a.value.0) && a.value.1 != "" && b.value.1 != ""
  }

  predicate LooksLikeUrl(s: string) {
    RedactFlag(s) == None && Contains(s, "://") && Contains(s, "@")
  }

  /** Two URLs that differ in the password only. */
  predicate SameUrl(lib: UrlLib, s: string, t: string) {
    && LooksLikeUrl(s) && LooksLikeUrl(t)
    && match (lib.parse(Trim(s)), lib.parse(Trim(t)))
       case (Some(Url(scheme, Some(User(name, Some(_))), rest)),
             Some(Url(scheme', Some(User(name', Some(_))), rest'))) =>
         scheme == scheme' && name == name' && rest == rest'
       case _ => false
  }

  predicate SameButSecret(lib: UrlLib, s: string, t: string) {
    SameFlag(s, t) || SameUrl(lib, s, t)
  }

  lemma FlagIsRedacted(s: string)
    requires SameFlag(s, s)
    ensures RedactFlag(s) == Some(Cut(Trim(s), '=').value.0 + "=" + MARKER) && s != ""
  {
    var a := Cut(Trim(s), '=').value;
    assert Trim(s)[0] == a.0[0];
  }

  /** The redacted string is the same. */
  lemma SecretIsGone(lib: UrlLib, s: string, t: string)
    requires SameButSecret(lib, s, t)
    ensures RedactString(lib, s).Some? && RedactString(lib, t) == RedactString(lib, s) && s != "" && t != ""
  {
    if SameFlag(s, t) {
      FlagIsRedacted(s);
      FlagIsRedacted(t);
    }
  }

  // ---- in fields other than the name, and in lists ----

  lemma SecretField(lib: UrlLib, m: map<string, Json>, k: string, t: string)
    requires k in m && k != "name" && m[k].Str? && SameButSecret(lib, m[k].s, t)
    ensures Redact(lib, Obj(m[k := Str(t)])) == Redact(lib, Obj(m))
  {
    var m' := m[k := Str(t)];
    SecretIsGone(lib, m[k].s, t);
    ScalarEntry(lib, k, m[k]);
    ScalarEntry(lib, k, Str(t));
    assert Preset(m', k) <==> Preset(m, k);
    OneFieldChanged(lib, m, k, Str(t));
  }

  /** At every depth, in any field but a name: which password or token the string carried
      does not show. */
  lemma FieldSecretLeavesNoTrace(lib: UrlLib, j: Json, path: Path, k: string, t: string)
    requires Exists(j, path) && Get(j, path).Obj? && k in Get(j, path).fields && k != "name"
    requires Get(j, path).fields[k].Str? && SameButSecret(lib, Get(j, path).fields[k].s, t)
    ensures Redact(lib, Put(j, path, Obj(Get(j, path).fields[k := Str(t)]))) == Redact(lib, j)
  {
    SecretField(lib, Get(j, path).fields, k, t);
    RedactCongruent(lib, j, path, Obj(Get(j, path).fields[k := Str(t)]));
  }

  /** Nor in a list. */
  lemma ItemSecretLeavesNoTrace(lib: UrlLib, j: Json, path: Path, i: nat, t: string)
    requires Exists(j, path) && Get(j, path).Arr? && i < |Get(j, path).items|
    requires Get(j, path).items[i].Str? && SameButSecret(lib, Get(j, path).items[i].s, t)
    ensures Redact(lib, Put(j, path, Arr(Get(j, path).items[i := Str(t)]))) == Redact(lib, j)
  {
    var items := Get(j, path).items;
    SecretIsGone(lib, items[i].s, t);
    assert Redact(lib, Arr(items[i := Str(t)])).items == Redact(lib, Arr(items)).items;
    RedactCongruent(lib, j, path, Arr(items[i := Str(t)]));
  }

  // ---- in the name ----

  /** There is a value beside the name that only the name can hide. */
  predicate ValueAtStake(lib: UrlLib, m: map<string, Json>) {
    "value" in m && m["value"].Str? && Rewritten(lib, m["value"].s) != MARKER
  }

  lemma ValueField(lib: UrlLib, m: map<string, Json>)
    requires "value" in m && m["value"].Str?
    ensures RedactField(lib, Obj(m), "value") == Str(if SensitiveName(m) then MARKER else Rewritten(lib, m["value"].s))
  {
    PlainNames();
    ScalarEntry(lib, "value", m["value"]);
  }

  lemma NameField(lib: UrlLib, m: map<string, Json>)
    requires "name" in m && m["name"].Str?
    ensures RedactField(lib, Obj(m), "name") == Str(Rewritten(lib, m["name"].s))
  {
    PlainNames();
    ScalarEntry(lib, "name", m["name"]);
  }

  /** Only the value depends on the name. */
  lemma BesideName(lib: UrlLib, m: map<string, Json>, t: string, f: string)
    requires "name" in m && m["name"].Str? && f in m && f != "name" && (f != "value" || !m["value"].Str?)
    ensures RedactField(lib, Obj(m["name" := Str(t)]), f) == RedactField(lib, Obj(m), f)
  {
  }

  lemma NameSecretHere(lib: UrlLib, m: map<string, Json>, t: string)
    requires "name" in m && m["name"].Str? && SameButSecret(lib, m["name"].s, t)
    ensures Redact(lib, Obj(m["name" := Str(t)])) == Redact(lib, Obj(m)) <==>
            (Sensitive(t) <==> Sensitive(m["name"].s)) || !ValueAtStake(lib, m)
  {
    var m' := m["name" := Str(t)];
    SecretIsGone(lib, m["name"].s, t);
    NameField(lib, m);
    NameField(lib, m');
    forall f | f in m && f != "name" && (f != "value" || !m["value"].Str?)
      ensures RedactField(lib, Obj(m'), f) == RedactField(lib, Obj(m), f)
    {
      BesideName(lib, m, t, f);
    }
    if "value" in m && m["value"].Str? {
      ValueField(lib, m);
      ValueField(lib, m');
    }
    SameRedaction(lib, m, m');
  }

  lemma SameRedaction(lib: UrlLib, m: map<string, Json>, m': map<string, Json>)
    requires m.Keys == m'.Keys
    ensures Redact(lib, Obj(m')) == Redact(lib, Obj(m)) <==>
            forall f :: f in m ==> RedactField(lib, Obj(m'), f) == RedactField(lib, Obj(m), f)
  {
    if forall f :: f in m ==> RedactField(lib, Obj(m'), f) == RedactField(lib, Obj(m), f) {
      assert Redact(lib, Obj(m')).fields == Redact(lib, Obj(m)).fields;
    } else {
      var f :| f in m && RedactField(lib, Obj(m'), f) != RedactField(lib, Obj(m), f);
      FieldOf(lib, Obj(m), f);
      FieldOf(lib, Obj(m'), f);
    }
  }

  lemma {:induction false} PutThenGet(j: Json, path: Path, x: Json)
    requires Exists(j, path)
    ensures Exists(Put(j, path, x), path) && Get(Put(j, path, x), path) == x
    decreases |path|
  {
    if path != [] {
      match path[0]
      case Key(k) => PutThenGet(j.fields[k], path[1..], x);
      case Index(i) => PutThenGet(j.items[i], path[1..], x);
    }
  }

  /** At every depth, in a name: the secret does not show if and only if it leaves alone
      whether the name is sensitive, or no value is at stake. */
  lemma NameSecretExactly(lib: UrlLib, j: Json, path: Path, t: string)
    requires Exists(j, path) && Get(j, path).Obj? && "name" in Get(j, path).fields
    requires Get(j, path).fields["name"].Str? && SameButSecret(lib, Get(j, path).fields["name"].s, t)
    ensures var m := Get(j, path).fields;
            Redact(lib, Put(j, path, Obj(m["name" := Str(t)]))) == Redact(lib, j) <==>
            (Sensitive(t) <==> Sensitive(m["name"].s)) || !ValueAtStake(lib, m)
  {
    var m := Get(j, path).fields;
    var x := Obj(m["name" := Str(t)]);
    NameSecretHere(lib, m, t);
    PutThenGet(j, path, x);
    RedactBelow(lib, j, path);
    RedactBelow(lib, Put(j, path, x), path);
    if Redact(lib, x) == Redact(lib, Obj(m)) {
      RedactCongruent(lib, j, path, x);
    }
  }

  /** For flags that is so exactly when both or neither of the texts spell a reference key. */
  lemma FlagNameSecret(s: string, t: string)
    requires SameFlag(s, t)
    ensures (Sensitive(t) <==> Sensitive(s)) <==> (Normalize(t) in REFERENCE_KEYS <==> Normalize(s) in REFERENCE_KEYS)
  {
    FlagIsRedacted(s);
    FlagIsRedacted(t);
    FlagSensitivity(s);
    FlagSensitivity(t);
  }

  // ---- an input where the secret shows ----

  function NamedValue(name: string): map<string, Json> {
    map["name" := Str(name), "value" := Str("x")]
  }

  lemma PlainValue(lib: UrlLib)
    ensures Rewritten(lib, "x") == "x"
  {
    LacksChar("x", "://", 0);
  }

  lemma TokenFlag(value: string)
    requires value != "" && !IsSpace(value[|value| - 1])
    ensures Cut(Trim("-token" + "=" + value), '=') == Some(("-token", value))
  {
    var s := "-token" + "=" + value;
    assert s[0] == '-' && s[|s| - 1] == value[|value| - 1];
    TrimKeepsEnds(s);
    assert s == "-token" + ['='] + value;
    CutAt("-token", '=', value);
  }

  lemma TokenFlagsAlike()
    ensures SameFlag("-token" + "=" + "Secret", "-token" + "=" + "abc")
  {
    TokenIsSensitive();
    TokenFlag("Secret");
    TokenFlag("abc");
  }

  lemma AbcNormalized()
    ensures Normalize("abc") == "abc"
  {
  }

  lemma OneSpellsReference()
    ensures Normalize("-token" + "=" + "Secret") in REFERENCE_KEYS
    ensures Normalize("-token" + "=" + "abc") !in REFERENCE_KEYS
  {
    TokenIsSensitive();
    SecretNormalized();
    AbcNormalized();
    NormalizeFlag("-token", "Secret");
    NormalizeFlag("-token", "abc");
    SpellsReference("token", "secret");
    SpellsReference("token", "abc");
  }

  lemma SpellsReference(a: string, b: string)
    requires a == "token" && (b == "secret" || b == "abc")
    ensures a + b in REFERENCE_KEYS <==> b == "secret"
  {
    if b == "secret" {
      assert a + b == "tokensecret";
    } else {
      assert |a + b| == 8 && (a + b)[7] == 'c';
    }
  }

  /** Two names that differ in the flag's secret alone, and two redactions. */
  lemma NameSecretShows(lib: UrlLib)
    ensures SameFlag("-token" + "=" + "Secret", "-token" + "=" + "abc")
    ensures Redact(lib, Obj(NamedValue("-token" + "=" + "Secret"))) !=
            Redact(lib, Obj(NamedValue("-token" + "=" + "abc")))
  {
    TokenFlagsAlike();
    OneSpellsReference();
    FlagSecretShows(lib, "-token" + "=" + "Secret", "-token" + "=" + "abc");
  }

  lemma FlagSecretShows(lib: UrlLib, s: string, t: string)
    requires SameFlag(s, t) && Normalize(s) in REFERENCE_KEYS && Normalize(t) !in REFERENCE_KEYS
    ensures Redact(lib, Obj(NamedValue(s))) != Redact(lib, Obj(NamedValue(t)))
  {
    FlagNameSecret(s, t);
    PlainValue(lib);
    NameSecretHere(lib, NamedValue(s), t);
    assert NamedValue(s)["name" := Str(t)] == NamedValue(t);
  }
}
