/** What a policy report tells, said of the report objects themselves: which results are
    counted and listed, in which fields, and in which order. */
module ReportedFindings {
  import opened JsonTree
  import opened Policy
  import opened PolicyReport

  /** The text under a key; anything but text reads as empty. */
  predicate TextAt(b: Block, key: string, s: string) {
    if key in b && b[key].Str? then s == b[key].s else s == ""
  }

  /** The value under a key; a missing one reads as null. */
  predicate ValueAt(b: Block, key: string, v: Json) {
    if key in b then v == b[key] else v == Null
  }

  /** The report holds this result. */
  predicate HoldsResult(report: Block, result: Block) {
    "results" in report && report["results"].Arr? && Obj(result) in report["results"].items
  }

  /** The object a result is about: the first of its resources if that is an object, else the
      scope of its report. */
  predicate About(report: Block, result: Block, kind: string, name: string) {
    if "resources" in result && result["resources"].Arr? && result["resources"].items != []
       && result["resources"].items[0].Obj?
    then
      var o := result["resources"].items[0].fields;
      TextAt(o, "kind", kind) && TextAt(o, "name", name)
    else if "scope" in report && report["scope"].Obj? then
      TextAt(report["scope"].fields, "kind", kind) && TextAt(report["scope"].fields, "name", name)
    else kind == "" && name == ""
  }

  predicate Describes(f: Finding, report: Block, result: Block, ns: string) {
    && TextAt(result, "result", f.result)
    && ValueAt(result, "policy", f.policy) && ValueAt(result, "rule", f.rule)
    && ValueAt(result, "message", f.message) && ValueAt(result, "severity", f.severity)
    && About(report, result, f.kind, f.name) && f.ns == ns
  }

  // ---- the records are the results ----

  predicate RecordOf(r: Record, report: Block, result: Block) {
    var scope := Fields(At(report, "scope"));
    r.fields == result && TextAt(scope, "kind", r.scopeKind) && TextAt(scope, "name", r.scopeName)
  }

  lemma {:induction false} RecordsInHave(items: seq<Json>, kind: string, name: string)
    ensures forall r :: r in RecordsIn(items, kind, name) <==>
              Obj(r.fields) in items && r.scopeKind == kind && r.scopeName == name
  {
    if items != [] {
      RecordsInHave(items[..|items| - 1], kind, name);
      assert items == items[..|items| - 1] + [items[|items| - 1]];
    }
  }

  lemma RecordsOfHave(report: Block, r: Record)
    ensures r in RecordsOf(report) <==> HoldsResult(report, r.fields) && RecordOf(r, report, r.fields)
  {
    var scope := Fields(At(report, "scope"));
    RecordsInHave(Items(At(report, "results")), StringAt(scope, "kind"), StringAt(scope, "name"));
  }

  lemma {:induction false} RecordsHave(reports: seq<Block>, r: Record)
    ensures r in Records(reports) <==>
              exists report :: report in reports && HoldsResult(report, r.fields) && RecordOf(r, report, r.fields)
  {
    if reports != [] {
      var init, last := reports[..|reports| - 1], reports[|reports| - 1];
      RecordsHave(init, r);
      RecordsOfHave(last, r);
      assert reports == init + [last];
    }
  }

  // ---- what is listed ----

  lemma {:induction false} ListedHave(records: seq<Record>, ns: string)
    ensures forall f :: f in Listed(records, ns) <==> exists r :: r in records && !r.Set() && f == r.ToFinding(ns)
  {
    if records != [] {
      ListedHave(records[..|records| - 1], ns);
      assert records == records[..|records| - 1] + [records[|records| - 1]];
    }
  }

  lemma FindingDescribes(r: Record, report: Block, ns: string, f: Finding)
    requires RecordOf(r, report, r.fields)
    ensures f == r.ToFinding(ns) <==> Describes(f, report, r.fields, ns)
    ensures forall s :: TextAt(r.fields, "result", s) ==> (r.Set() <==> s == "pass" || s == "skip")
  {
  }

  /** A finding is listed if and only if some result of some report, neither passed nor
      skipped, is what it describes. */
  lemma ListedExactly(reports: seq<Block>, ns: string, f: Finding)
    ensures f in Listed(Records(reports), ns) <==>
              exists report, result :: report in reports && HoldsResult(report, result) &&
                Describes(f, report, result, ns) && f.result != "pass" && f.result != "skip"
  {
    ListedHave(Records(reports), ns);
    if f in Listed(Records(reports), ns) {
      var r :| r in Records(reports) && !r.Set() && f == r.ToFinding(ns);
      RecordsHave(reports, r);
      var report :| report in reports && HoldsResult(report, r.fields) && RecordOf(r, report, r.fields);
      FindingDescribes(r, report, ns, f);
    }
    if report, result :| report in reports && HoldsResult(report, result) &&
                         Describes(f, report, result, ns) && f.result != "pass" && f.result != "skip" {
      var scope := Fields(At(report, "scope"));
      var r := Record(result, StringAt(scope, "kind"), StringAt(scope, "name"));
      RecordsHave(reports, r);
      FindingDescribes(r, report, ns, f);
    }
  }

  // ---- what is counted ----

  lemma {:induction false} CountIsPositive(records: seq<Record>, k: string)
    ensures CountOf(records, k) > 0 <==> exists r :: r in records && r.Result() == k
  {
    if records != [] {
      CountIsPositive(records[..|records| - 1], k);
      assert records == records[..|records| - 1] + [records[|records| - 1]];
    }
  }

  /** An outcome is counted if and only if some result of some report has it. */
  lemma CountedExactly(reports: seq<Block>, k: string)
    ensures CountOf(Records(reports), k) > 0 <==>
              exists report, result :: report in reports && HoldsResult(report, result) && TextAt(result, "result", k)
  {
    CountIsPositive(Records(reports), k);
    if r :| r in Records(reports) && r.Result() == k {
      RecordsHave(reports, r);
    }
    if report, result :| report in reports && HoldsResult(report, result) && TextAt(result, "result", k) {
      var scope := Fields(At(report, "scope"));
      var r := Record(result, StringAt(scope, "kind"), StringAt(scope, "name"));
      RecordsHave(reports, r);
      assert r.Result() == k;
    }
  }

  /** Counting one list of reports after the other adds the counts, and lists the findings of
      the one behind those of the other. */
  lemma {:induction false} RecordsConcat(a: seq<Block>, b: seq<Block>)
    ensures Records(a + b) == Records(a) + Records(b)
  {
    if b == [] {
      assert a + b == a;
    } else {
      assert (a + b)[..|a + b| - 1] == a + b[..|b| - 1];
      RecordsConcat(a, b[..|b| - 1]);
    }
  }

  lemma {:induction false} FoundConcat(a: seq<Record>, b: seq<Record>, k: string, ns: string)
    ensures CountOf(a + b, k) == CountOf(a, k) + CountOf(b, k)
    ensures Listed(a + b, ns) == Listed(a, ns) + Listed(b, ns)
  {
    if b == [] {
      assert a + b == a;
    } else {
      assert (a + b)[..|a + b| - 1] == a + b[..|b| - 1];
      FoundConcat(a, b[..|b| - 1], k, ns);
    }
  }

  /** Reports are read one after the other: the findings of the later ones come behind, and
      every outcome's counts add up. */
  lemma ReportsAddUp(a: seq<Block>, b: seq<Block>, k: string, ns: string)
    ensures Listed(Records(a + b), ns) == Listed(Records(a), ns) + Listed(Records(b), ns)
    ensures CountOf(Records(a + b), k) == CountOf(Records(a), k) + CountOf(Records(b), k)
  {
    RecordsConcat(a, b);
    FoundConcat(Records(a), Records(b), k, ns);
  }
}
