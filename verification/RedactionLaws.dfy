/** What redaction guarantees about whole trees, at every depth. */
module RedactionLaws {
  import opened Outcomes
  import opened JsonTree
  import opened Redaction

  // ---- one level ----

  lemma FieldOf(lib: UrlLib, j: Json, k: string)
    requires j.Obj? && k in j.fields
    ensures Redact(lib, j).Obj? && Redact(lib, j).fields.Keys == j.fields.Keys
    ensures Redact(lib, j).fields[k] == RedactField(lib, j, k)
    ensures !j.fields[k].Scalar() ==> RedactField(lib, j, k) == Redact(lib, j.fields[k])
    ensures j.fields[k].Scalar() ==> RedactField(lib, j, k).Scalar()
    ensures j.fields[k].Null? <==> RedactField(lib, j, k).Null?
    ensures j.fields[k].Str? ==> RedactField(lib, j, k).Str?
  {
    var v := j.fields[k];
    if !v.Scalar() {
      assert RedactEntry(lib, k, v) == Redact(lib, v);
    } else if v.Str? && !Sensitive(k) {
      assert RedactEntry(lib, k, v) == Redact(lib, v);
    }
  }

  // ---- shape ----

  /** The same kind of value; a hidden number or boolean becomes a string. */
  ghost predicate SameKind(a: Json, b: Json) {
    && (a.Obj? <==> b.Obj?) && (a.Obj? ==> a.fields.Keys == b.fields.Keys)
    && (a.Arr? <==> b.Arr?) && (a.Arr? ==> |a.items| == |b.items|)
    && (a.Null? <==> b.Null?) && (a.Str? ==> b.Str?)
  }

  ghost predicate SameShape(a: Json, b: Json, path: Path) {
    (Exists(a, path) <==> Exists(b, path)) && (Exists(a, path) ==> SameKind(Get(a, path), Get(b, path)))
  }

  /** Redaction keeps key sets, list lengths and nesting: the same paths exist before and
      after, and lead to the same kinds of value. */
  lemma {:induction false} ShapeKept(lib: UrlLib, j: Json, path: Path)
    ensures SameShape(j, Redact(lib, j), path)
    decreases |path|
  {
    if path != [] {
      match path[0]
      case Key(k) =>
        if j.Obj? && k in j.fields {
          FieldOf(lib, j, k);
          if !j.fields[k].Scalar() {
            ShapeKept(lib, j.fields[k], path[1..]);
          }
        }
      case Index(i) =>
        if j.Arr? && i < |j.items| {
          ShapeKept(lib, j.items[i], path[1..]);
        }
    }
  }

  /** A map or slice is redacted by itself, whatever it is nested in. */
  lemma {:induction false} RedactBelow(lib: UrlLib, j: Json, path: Path)
    requires Exists(j, path) && !Get(j, path).Scalar()
    ensures Exists(Redact(lib, j), path) && Get(Redact(lib, j), path) == Redact(lib, Get(j, path))
    decreases |path|
  {
    if path != [] {
      match path[0]
      case Key(k) =>
        FieldOf(lib, j, k);
        assert !j.fields[k].Scalar();
        RedactBelow(lib, j.fields[k], path[1..]);
      case Index(i) => RedactBelow(lib, j.items[i], path[1..]);
    }
  }

  // ---- completeness: nothing that must be hidden survives ----

  lemma {:induction false} GetConcat(j: Json, path: Path, step: Step)
    requires Exists(j, path)
    ensures Exists(j, path + [step]) <==> Exists(Get(j, path), [step])
    ensures Exists(j, path + [step]) ==> Get(j, path + [step]) == Get(Get(j, path), [step])
    decreases |path|
  {
    if path != [] {
      assert (path + [step])[1..] == path[1..] + [step];
      match path[0]
      case Key(k) => GetConcat(j.fields[k], path[1..], step);
      case Index(i) => GetConcat(j.items[i], path[1..], step);
    } else {
      assert path + [step] == [step];
    }
  }

  /** The redacted form of a field, wherever its object is. */
  lemma FieldBelow(lib: UrlLib, j: Json, path: Path, k: string)
    requires Exists(j, path) && Get(j, path).Obj? && k in Get(j, path).fields
    ensures Exists(Redact(lib, j), path + [Key(k)])
    ensures Get(Redact(lib, j), path + [Key(k)]) == RedactField(lib, Get(j, path), k)
  {
    RedactBelow(lib, j, path);
    var o := Get(j, path);
    FieldOf(lib, o, k);
    GetConcat(Redact(lib, j), path, Key(k));
    assert Exists(Redact(lib, o), [Key(k)]);
  }

  /** At every depth: a non-null scalar under a sensitive key ends up empty or replaced, the
      value beside a sensitive name is replaced, and so is a non-empty key beside a TLS
      termination. */
  lemma NothingSurvives(lib: UrlLib, j: Json, path: Path, k: string)
    requires Exists(j, path) && Get(j, path).Obj? && k in Get(j, path).fields
    ensures Exists(Redact(lib, j), path + [Key(k)])
    ensures var m, after := Get(j, path).fields, Get(Redact(lib, j), path + [Key(k)]);
            && (Sensitive(k) && m[k].Scalar() && !m[k].Null? ==> after == Str("") || after == Str(MARKER))
            && (k == "value" && m[k].Str? && SensitiveName(m) ==> after == Str(MARKER))
            && (k == "key" && m[k].Str? && m[k].s != "" && "termination" in m ==> after == Str(MARKER))
  {
    FieldBelow(lib, j, path, k);
  }

  // ---- precision: nothing else changes, and the count is exact ----

  lemma FieldSitesBelow(lib: UrlLib, j: Json, k: string, rest: Path)
    requires j.Obj? && k in j.fields
    ensures [Key(k)] + rest in Sites(lib, j) <==> rest in FieldSites(lib, j, k)
    ensures !j.fields[k].Scalar() ==> FieldSites(lib, j, k) == Sites(lib, j.fields[k])
  {
    var path := [Key(k)] + rest;
    if path in SitesOf(lib, j, j.fields.Keys) {
      var k', p :| k' in j.fields.Keys && p in FieldSites(lib, j, k') && path == [Key(k')] + p;
      assert path[0] == Key(k') && path[1..] == p == rest;
    }
  }

  lemma ItemSitesBelow(lib: UrlLib, j: Json, i: nat, rest: Path)
    requires j.Arr? && i < |j.items|
    ensures [Index(i)] + rest in Sites(lib, j) <==> rest in Sites(lib, j.items[i])
  {
    var path := [Index(i)] + rest;
    if path in SitesBelow(lib, j, |j.items|) {
      var i': nat, p :| i' < |j.items| && p in Sites(lib, j.items[i']) && path == [Index(i')] + p;
      assert path[0] == Index(i') && path[1..] == p == rest;
    }
  }

  /** A leaf outside the selected sites is untouched; a selected one is a scalar that was
      replaced by the marker or rewritten by the string rules. */
  lemma {:induction false} OnlySitesChange(lib: UrlLib, j: Json, path: Path)
    requires Exists(j, path) && Get(j, path).Scalar()
    ensures Exists(Redact(lib, j), path)
    ensures path !in Sites(lib, j) ==> Get(Redact(lib, j), path) == Get(j, path)
    ensures path in Sites(lib, j) ==>
              var before, after := Get(j, path), Get(Redact(lib, j), path);
              && !before.Null?
              && (after == Str(MARKER)
                  || (before.Str? && after.Str? && RedactString(lib, before.s) == Some(after.s)))
    decreases |path|
  {
    if path != [] {
      assert path == [path[0]] + path[1..];
      match path[0]
      case Key(k) =>
        FieldOf(lib, j, k);
        FieldSitesBelow(lib, j, k, path[1..]);
        if !j.fields[k].Scalar() {
          OnlySitesChange(lib, j.fields[k], path[1..]);
        } else {
          assert path[1..] == [];
          ScalarField(lib, j, k);
        }
      case Index(i) =>
        ItemSitesBelow(lib, j, i, path[1..]);
        OnlySitesChange(lib, j.items[i], path[1..]);
    }
  }

  lemma ScalarField(lib: UrlLib, j: Json, k: string)
    requires j.Obj? && k in j.fields && j.fields[k].Scalar()
    ensures var before, after := j.fields[k], RedactField(lib, j, k);
            && ([] !in FieldSites(lib, j, k) ==> after == before)
            && ([] in FieldSites(lib, j, k) ==>
                  && !before.Null?
                  && (after == Str(MARKER)
                      || (before.Str? && after.Str? && RedactString(lib, before.s) == Some(after.s))))
  {
    ScalarEntry(lib, k, j.fields[k]);
  }

  /** A reported count of zero means the object was returned exactly as it was. */
  lemma {:induction false} ZeroMeansUnchanged(lib: UrlLib, j: Json)
    requires |Sites(lib, j)| == 0
    ensures Redact(lib, j) == j
    decreases j
  {
    assert Sites(lib, j) == {};
    match j
    case Obj(m) =>
      forall k | k in m ensures RedactField(lib, j, k) == m[k] {
        FieldOf(lib, j, k);
        if m[k].Scalar() {
          FieldSitesBelow(lib, j, k, []);
          ScalarField(lib, j, k);
        } else {
          forall p ensures p !in Sites(lib, m[k]) {
            FieldSitesBelow(lib, j, k, p);
          }
          ZeroMeansUnchanged(lib, m[k]);
        }
      }
      assert Redact(lib, j).fields == m;
    case Arr(items) =>
      forall i | 0 <= i < |items| ensures Redact(lib, items[i]) == items[i] {
        forall p ensures p !in Sites(lib, items[i]) {
          ItemSitesBelow(lib, j, i, p);
        }
        ZeroMeansUnchanged(lib, items[i]);
      }
      assert Redact(lib, j).items == items;
    case _ =>
  }

  // ---- hidden values leave no trace ----

  /** The field's whole value is hidden: by a sibling rule or by its own key. */
  predicate Hidden(m: map<string, Json>, k: string)
    requires k in m
  {
    Preset(m, k) || (Sensitive(k) && m[k].Scalar() && m[k] != Null && m[k] != Str(""))
  }

  lemma HiddenIsMarked(lib: UrlLib, m: map<string, Json>, k: string)
    requires k in m && Hidden(m, k)
    ensures RedactField(lib, Obj(m), k) == Str(MARKER)
  {
    if !Preset(m, k) {
      ScalarEntry(lib, k, m[k]);
    }
  }

  /** One field does not influence another, unless it is the name. */
  lemma OtherField(lib: UrlLib, m: map<string, Json>, k: string, x: Json, f: string)
    requires k in m && f in m && f != k && (k == "name" ==> !m[k].Str? && !x.Str?)
    ensures RedactField(lib, Obj(m[k := x]), f) == RedactField(lib, Obj(m), f)
  {
  }

  lemma OneFieldChanged(lib: UrlLib, m: map<string, Json>, k: string, x: Json)
    requires k in m && (k == "name" ==> !m[k].Str? && !x.Str?)
    requires RedactField(lib, Obj(m[k := x]), k) == RedactField(lib, Obj(m), k)
    ensures Redact(lib, Obj(m[k := x])) == Redact(lib, Obj(m))
  {
    forall f | f in m && f != k ensures RedactField(lib, Obj(m[k := x]), f) == RedactField(lib, Obj(m), f) {
      OtherField(lib, m, k, x, f);
    }
    assert Redact(lib, Obj(m[k := x])).fields == Redact(lib, Obj(m)).fields;
  }

  lemma HiddenField(lib: UrlLib, m: map<string, Json>, k: string, x: Json)
    requires k in m && Hidden(m, k) && Hidden(m[k := x], k)
    ensures Redact(lib, Obj(m[k := x])) == Redact(lib, Obj(m))
  {
    PlainNames();
    HiddenIsMarked(lib, m, k);
    HiddenIsMarked(lib, m[k := x], k);
    OneFieldChanged(lib, m, k, x);
  }

  lemma {:induction false} RedactCongruent(lib: UrlLib, j: Json, path: Path, x: Json)
    requires Exists(j, path) && !Get(j, path).Scalar() && !x.Scalar()
    requires Redact(lib, x) == Redact(lib, Get(j, path))
    ensures Redact(lib, Put(j, path, x)) == Redact(lib, j)
    ensures !Put(j, path, x).Scalar() && !j.Scalar()
    decreases |path|
  {
    if path != [] {
      match path[0]
      case Key(k) =>
        var below := Put(j.fields[k], path[1..], x);
        RedactCongruent(lib, j.fields[k], path[1..], x);
        FieldOf(lib, j, k);
        FieldOf(lib, Obj(j.fields[k := below]), k);
        OneFieldChanged(lib, j.fields, k, below);
      case Index(i) =>
        RedactCongruent(lib, j.items[i], path[1..], x);
        assert Redact(lib, Put(j, path, x)).items == Redact(lib, j).items;
    }
  }

  /** Non-interference: at every depth, replacing a hidden value by any other hidden value
      does not show in the redacted tree. */
  lemma HiddenLeavesNoTrace(lib: UrlLib, j: Json, path: Path, k: string, x: Json)
    requires Exists(j, path) && Get(j, path).Obj? && k in Get(j, path).fields
    requires Hidden(Get(j, path).fields, k) && Hidden(Get(j, path).fields[k := x], k)
    ensures Redact(lib, Put(j, path, Obj(Get(j, path).fields[k := x]))) == Redact(lib, j)
  {
    HiddenField(lib, Get(j, path).fields, k, x);
    RedactCongruent(lib, j, path, Obj(Get(j, path).fields[k := x]));
  }
}
