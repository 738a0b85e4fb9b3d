/** Which leaves redaction hides, said of the leaf and its siblings rather than of the walk:
    exactly those, at every depth, and what each becomes. */
module RedactionSites {
  import opened Outcomes
  import opened Text
  import opened JsonTree
  import opened Redaction
  import opened RedactionLaws

  // ---- strings ----

  /** A flag that is set, and whose name is sensitive. */
  predicate SecretFlag(s: string, name: string, value: string) {
    && Trim(s) == name + "=" + value && '=' !in name
    && name != "" && name[0] == '-' && Sensitive(name) && value != ""
  }

  /** A URL with a password, as the library reads it. */
  predicate SecretUrl(lib: UrlLib, s: string, scheme: string, user: string, password: string, rest: string) {
    && Contains(s, "://") && Contains(s, "@")
    && lib.parse(Trim(s)) == Some(Url(scheme, Some(User(user, Some(password))), rest))
  }

  ghost predicate IsSecretFlag(s: string) {
    exists name, value :: SecretFlag(s, name, value)
  }

  ghost predicate IsSecretUrl(lib: UrlLib, s: string) {
    exists scheme, user, password, rest :: SecretUrl(lib, s, scheme, user, password, rest)
  }

  /** A flag is rewritten exactly when it is set and its name is sensitive; the name stays. */
  lemma FlagExactly(s: string)
    ensures RedactFlag(s).Some? <==> IsSecretFlag(s)
    ensures forall name, value :: SecretFlag(s, name, value) ==> RedactFlag(s) == Some(name + "=" + "[redacted]")
  {
    forall name, value | SecretFlag(s, name, value) ensures RedactFlag(s) == Some(name + "=" + "[redacted]") {
      CutAt(name, '=', value);
      assert name + ['='] + value == Trim(s);
    }
    if RedactFlag(s).Some? {
      var (name, value) := Cut(Trim(s), '=').value;
      assert Trim(s) == name + "=" + value;
      assert SecretFlag(s, name, value);
    }
  }

  /** A URL is rewritten exactly when it carries a password; everything but the password is
      printed as it was read. */
  lemma UrlExactly(lib: UrlLib, s: string)
    ensures RedactUrl(lib, s).Some? <==> IsSecretUrl(lib, s)
    ensures forall scheme, user, password, rest :: SecretUrl(lib, s, scheme, user, password, rest) ==>
              RedactUrl(lib, s) == Some(UrlWithout(lib, scheme, user, rest))
  {
    if RedactUrl(lib, s).Some? {
      var Url(scheme, Some(User(user, Some(password))), rest) := lib.parse(Trim(s)).value;
      assert SecretUrl(lib, s, scheme, user, password, rest);
    }
  }

  /** Printed with the marker for a password, and the marker read back as itself. */
  function UrlWithout(lib: UrlLib, scheme: string, user: string, rest: string): string {
    ReplaceFirst(lib.format(Url(scheme, Some(User(user, Some("[redacted]"))), rest)), "%5Bredacted%5D", "[redacted]")
  }

  ghost predicate CarriesSecret(lib: UrlLib, s: string) {
    IsSecretFlag(s) || IsSecretUrl(lib, s)
  }

  /** What a string that carries a secret becomes; a flag is not read as a URL. */
  ghost predicate Becomes(lib: UrlLib, s: string, t: string) {
    && (forall name, value :: SecretFlag(s, name, value) ==> t == name + "=" + "[redacted]")
    && (!IsSecretFlag(s) ==> forall scheme, user, password, rest ::
          SecretUrl(lib, s, scheme, user, password, rest) ==> t == UrlWithout(lib, scheme, user, rest))
  }

  lemma StringExactly(lib: UrlLib, s: string)
    ensures RedactString(lib, s).Some? <==> CarriesSecret(lib, s)
    ensures CarriesSecret(lib, s) ==> Becomes(lib, s, RedactString(lib, s).value)
  {
    FlagExactly(s);
    UrlExactly(lib, s);
  }

  // ---- leaves ----

  /** The field's value is hidden as a whole: by a sensitive name beside it, by a TLS
      termination beside it, or by its own sensitive key unless it is unset. */
  predicate FieldHidden(m: map<string, Json>, k: string)
    requires k in m
  {
    || (k == "value" && m[k].Str? && "name" in m && m["name"].Str? && Sensitive(m["name"].s))
    || (k == "key" && m[k].Str? && m[k].s != "" && "termination" in m)
    || (Sensitive(k) && (m[k].Bool? || m[k].Num? || (m[k].Str? && m[k].s != "")))
  }

  lemma FieldExactly(lib: UrlLib, j: Json, k: string)
    requires j.Obj? && k in j.fields && j.fields[k].Scalar()
    ensures var v := j.fields[k];
            var rewritten := v.Str? && !Sensitive(k) && CarriesSecret(lib, v.s);
            && FieldSites(lib, j, k) == (if FieldHidden(j.fields, k) || rewritten then {[]} else {})
            && (if FieldHidden(j.fields, k) then RedactField(lib, j, k) == Str("[redacted]")
                else if rewritten then RedactField(lib, j, k).Str? && Becomes(lib, v.s, RedactField(lib, j, k).s)
                else RedactField(lib, j, k) == v)
  {
    ScalarEntry(lib, k, j.fields[k]);
    if j.fields[k].Str? {
      StringExactly(lib, j.fields[k].s);
    }
  }

  // ---- at every depth ----

  /** The sites below a map or slice are its own. */
  lemma {:induction false} SitesUnder(lib: UrlLib, j: Json, path: Path, rest: Path)
    requires Exists(j, path) && !Get(j, path).Scalar()
    ensures path + rest in Sites(lib, j) <==> rest in Sites(lib, Get(j, path))
    decreases |path|
  {
    if path == [] {
      assert path + rest == rest;
    } else {
      var below := path[1..] + rest;
      assert path + rest == [path[0]] + below;
      match path[0]
      case Key(k) =>
        assert !j.fields[k].Scalar();
        FieldSitesBelow(lib, j, k, below);
        SitesUnder(lib, j.fields[k], path[1..], rest);
      case Index(i) =>
        assert !j.items[i].Scalar();
        ItemSitesBelow(lib, j, i, below);
        SitesUnder(lib, j.items[i], path[1..], rest);
    }
  }

  lemma OnlyLeavesAreSites(lib: UrlLib, j: Json)
    ensures [] in Sites(lib, j) ==> j.Str?
  {
    if j.Obj? {
      forall p | p in SitesOf(lib, j, j.fields.Keys) ensures |p| > 0 {
      }
    } else if j.Arr? {
      forall p | p in SitesBelow(lib, j, |j.items|) ensures |p| > 0 {
      }
    }
  }

  /** For every field at every depth: it is a site if and only if it is hidden as a whole, or
      its key is not sensitive and its string carries a secret; and so it is replaced by the
      marker, rewritten, or left as it was. */
  lemma FieldSiteExactly(lib: UrlLib, j: Json, path: Path, k: string)
    requires Exists(j, path) && Get(j, path).Obj? && k in Get(j, path).fields && Get(j, path).fields[k].Scalar()
    ensures var m := Get(j, path).fields;
            var rewritten := m[k].Str? && !Sensitive(k) && CarriesSecret(lib, m[k].s);
            && (path + [Key(k)] in Sites(lib, j) <==> FieldHidden(m, k) || rewritten)
            && Exists(Redact(lib, j), path + [Key(k)])
            && var after := Get(Redact(lib, j), path + [Key(k)]);
               if FieldHidden(m, k) then after == Str("[redacted]")
               else if rewritten then after.Str? && Becomes(lib, m[k].s, after.s)
               else after == m[k]
  {
    var o := Get(j, path);
    FieldExactly(lib, o, k);
    SitesUnder(lib, j, path, [Key(k)]);
    FieldSitesBelow(lib, o, k, []);
    assert [Key(k)] + [] == [Key(k)];
    FieldBelow(lib, j, path, k);
  }

  /** For every list item at every depth: it is a site if and only if it is a string that
      carries a secret. */
  lemma ItemSiteExactly(lib: UrlLib, j: Json, path: Path, i: nat)
    requires Exists(j, path) && Get(j, path).Arr? && i < |Get(j, path).items| && Get(j, path).items[i].Scalar()
    ensures var v := Get(j, path).items[i];
            var rewritten := v.Str? && CarriesSecret(lib, v.s);
            && (path + [Index(i)] in Sites(lib, j) <==> rewritten)
            && Exists(Redact(lib, j), path + [Index(i)])
            && var after := Get(Redact(lib, j), path + [Index(i)]);
               if rewritten then after.Str? && Becomes(lib, v.s, after.s) else after == v
  {
    var o := Get(j, path);
    var v := o.items[i];
    if v.Str? {
      StringExactly(lib, v.s);
    }
    SitesUnder(lib, j, path, [Index(i)]);
    ItemSitesBelow(lib, o, i, []);
    assert [Index(i)] + [] == [Index(i)];
    RedactBelow(lib, j, path);
    GetConcat(Redact(lib, j), path, Index(i));
    assert Exists(Redact(lib, o), [Index(i)]);
  }

  /** And there are no other sites: every site of a map or slice is a leaf in one of them. */
  lemma {:induction false} SitesAreLeaves(lib: UrlLib, j: Json, path: Path)
    requires path in Sites(lib, j)
    ensures Exists(j, path) && Get(j, path).Scalar()
    decreases |path|
  {
    if path == [] {
      OnlyLeavesAreSites(lib, j);
    } else if j.Obj? {
      var k, p :| k in j.fields && p in FieldSites(lib, j, k) && path == [Key(k)] + p;
      assert path[0] == Key(k) && path[1..] == p;
      if j.fields[k].Scalar() {
        FieldExactly(lib, j, k);
      } else {
        FieldSitesBelow(lib, j, k, p);
        SitesAreLeaves(lib, j.fields[k], p);
      }
    } else if j.Arr? {
      var i: nat, p :| i < |j.items| && p in Sites(lib, j.items[i]) && path == [Index(i)] + p;
      assert path[0] == Index(i) && path[1..] == p;
      SitesAreLeaves(lib, j.items[i], p);
    }
  }
}
