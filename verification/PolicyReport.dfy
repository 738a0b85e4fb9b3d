/** The policy report of a namespace: results are counted, the passing ones set aside, and
    the rest listed worst first and cut at a maximum. */
module PolicyReport {
  import opened JsonTree
  import opened Folds
  import opened Policy

  const MAX_RESULTS: nat := 200
  const PASS := "pass"
  const SKIP := "skip"
  const ERROR := "error"
  const WARN := "warn"
  const SCOPE := "scope"
  const RESULTS := "results"
  const RESULT := "result"
  const POLICY := "policy"
  const RULE := "rule"
  const MESSAGE := "message"
  const SEVERITY := "severity"
  const KIND := "kind"
  const NAME := "name"

  /** A well-formed result, with the scope of the report it came from. */
  datatype Record = Record(fields: Block, scopeKind: string, scopeName: string) {
    function Result(): string {
      StringAt(fields, RESULT)
    }

    predicate Set() {
      Result() == PASS || Result() == SKIP
    }

    function ToFinding(ns: string): Finding {
      var resources := Items(At(fields, RESOURCES));
      var named := resources != [] && resources[0].Obj?;
      Finding(Result(), At(fields, POLICY), At(fields, RULE), At(fields, MESSAGE), At(fields, SEVERITY),
              if named then StringAt(resources[0].fields, KIND) else scopeKind,
              if named then StringAt(resources[0].fields, NAME) else scopeName, ns)
    }
  }

  datatype Finding = Finding(result: string, policy: Json, rule: Json, message: Json, severity: Json,
                             kind: string, name: string, ns: string)

  function StringAt(b: Block, key: string): string {
    if At(b, key).Str? then At(b, key).s else ""
  }

  // ---- what the reports hold ----

  function RecordsIn(items: seq<Json>, scopeKind: string, scopeName: string): seq<Record> {
    if items == [] then []
    else
      var last := items[|items| - 1];
      RecordsIn(items[..|items| - 1], scopeKind, scopeName) +
      if last.Obj? then [Record(last.fields, scopeKind, scopeName)] else []
  }

  function RecordsOf(report: Block): seq<Record> {
    var scope := Fields(At(report, SCOPE));
    RecordsIn(Items(At(report, RESULTS)), StringAt(scope, KIND), StringAt(scope, NAME))
  }

  /** Every well-formed result of every report. */
  function Records(reports: seq<Block>): seq<Record> {
    if reports == [] then [] else Records(reports[..|reports| - 1]) + RecordsOf(reports[|reports| - 1])
  }

  function CountOf(records: seq<Record>, result: string): nat {
    if records == [] then 0
    else CountOf(records[..|records| - 1], result) + if records[|records| - 1].Result() == result then 1 else 0
  }

  function Listed(records: seq<Record>, ns: string): seq<Finding> {
    if records == [] then []
    else
      var last := records[|records| - 1];
      Listed(records[..|records| - 1], ns) + if last.Set() then [] else [last.ToFinding(ns)]
  }

  ghost predicate Tallies(counts: map<string, nat>, records: seq<Record>) {
    && (forall k :: k in counts <==> CountOf(records, k) > 0)
    && (forall k :: k in counts ==> counts[k] == CountOf(records, k))
  }

  method ReadReports(reports: seq<Block>, ns: string) returns (counts: map<string, nat>, results: seq<Finding>)
    ensures Tallies(counts, Records(reports)) && results == Listed(Records(reports), ns)
  {
    counts, results := map[], [];
    for i := 0 to |reports|
      invariant Tallies(counts, Records(reports[..i])) && results == Listed(Records(reports[..i]), ns)
    {
      assert reports[..i + 1][..i] == reports[..i];
      var scope := Fields(At(reports[i], SCOPE));
      counts, results := ReadResults(Items(At(reports[i], RESULTS)), StringAt(scope, KIND), StringAt(scope, NAME), ns,
                                     Records(reports[..i]), counts, results);
    }
    assert reports[..|reports|] == reports;
  }

  method ReadResults(items: seq<Json>, scopeKind: string, scopeName: string, ns: string, ghost before: seq<Record>,
                     counts0: map<string, nat>, results0: seq<Finding>)
    returns (counts: map<string, nat>, results: seq<Finding>)
    requires Tallies(counts0, before) && results0 == Listed(before, ns)
    ensures Tallies(counts, before + RecordsIn(items, scopeKind, scopeName))
    ensures results == Listed(before + RecordsIn(items, scopeKind, scopeName), ns)
  {
    counts, results := counts0, results0;
    assert before + RecordsIn(items[..0], scopeKind, scopeName) == before;
    for i := 0 to |items|
      invariant Tallies(counts, before + RecordsIn(items[..i], scopeKind, scopeName))
      invariant results == Listed(before + RecordsIn(items[..i], scopeKind, scopeName), ns)
    {
      ghost var records := before + RecordsIn(items[..i], scopeKind, scopeName);
      OneMoreItem(before, items, i, scopeKind, scopeName);
      if !items[i].Obj? {
        continue;
      }
      var record := Record(items[i].fields, scopeKind, scopeName);
      OneMoreRecord(records, record, ns);
      TallyOneMore(counts, records, record);
      var result := record.Result();
      counts := counts[result := (if result in counts then counts[result] else 0) + 1];
      if result == PASS || result == SKIP {
        continue;
      }
      results := results + [record.ToFinding(ns)];
    }
    assert items[..|items|] == items;
  }

  lemma OneMoreItem(before: seq<Record>, items: seq<Json>, i: nat, scopeKind: string, scopeName: string)
    requires i < |items|
    ensures var records := before + RecordsIn(items[..i], scopeKind, scopeName);
            before + RecordsIn(items[..i + 1], scopeKind, scopeName) ==
            if items[i].Obj? then records + [Record(items[i].fields, scopeKind, scopeName)] else records
  {
    assert items[..i + 1][..i] == items[..i];
  }

  lemma OneMoreRecord(records: seq<Record>, record: Record, ns: string)
    ensures forall k :: CountOf(records + [record], k) == CountOf(records, k) + if record.Result() == k then 1 else 0
    ensures Listed(records + [record], ns) == Listed(records, ns) + if record.Set() then [] else [record.ToFinding(ns)]
  {
    assert (records + [record])[..|records|] == records;
  }

  lemma TallyOneMore(counts: map<string, nat>, records: seq<Record>, record: Record)
    requires Tallies(counts, records)
    ensures var result := record.Result();
            Tallies(counts[result := (if result in counts then counts[result] else 0) + 1], records + [record])
  {
    OneMoreRecord(records, record, "");
  }

  // ---- conservation ----

  function Counts(counts: map<string, nat>): string -> int {
    k => if k in counts then counts[k] else 0
  }

  ghost function Total(counts: map<string, nat>): int {
    Sum(counts.Keys, Counts(counts))
  }

  /** Removing one result's count leaves the tally of the other results. */
  lemma {:induction false} TotalsSumUp(counts: map<string, nat>, records: seq<Record>)
    requires Tallies(counts, records)
    ensures Total(counts) == |records|
  {
    if records == [] {
      assert counts.Keys == {};
    } else {
      var init, last := records[..|records| - 1], records[|records| - 1];
      assert records == init + [last];
      OneMoreRecord(init, last, "");
      var k := last.Result();
      var before := if counts[k] == 1 then counts - {k} else counts[k := counts[k] - 1];
      TotalsSumUp(before, init);
      SumTakes(counts.Keys, Counts(counts), k);
      SumCongruent(counts.Keys - {k}, Counts(counts), Counts(before));
      if counts[k] == 1 {
        assert before.Keys == counts.Keys - {k};
      } else {
        SumTakes(before.Keys, Counts(before), k);
        assert before.Keys - {k} == counts.Keys - {k};
      }
    }
  }

  /** Nothing is lost before the cut: every record is listed, or counted as pass or skip. */
  lemma {:induction false} ListedCount(records: seq<Record>, ns: string)
    ensures |Listed(records, ns)| == |records| - CountOf(records, PASS) - CountOf(records, SKIP)
    ensures forall f :: f in Listed(records, ns) ==> f.result != PASS && f.result != SKIP
  {
    if records != [] {
      ListedCount(records[..|records| - 1], ns);
      assert PASS[0] != SKIP[0];
    }
  }

  // ---- worst first ----

  /** An unknown result ranks as a failure. */
  function Rank(f: Finding): nat {
    if f.result == ERROR then 1 else if f.result == WARN then 2 else 0
  }

  function Ranked(s: seq<Finding>, rank: nat): seq<Finding> {
    if s == [] then []
    else Ranked(s[..|s| - 1], rank) + if Rank(s[|s| - 1]) == rank then [s[|s| - 1]] else []
  }

  /** What a stable sort by rank promises: ranks ascend, and equals keep their order. */
  ghost predicate StablySorted(s: seq<Finding>, t: seq<Finding>) {
    && (forall i, j :: 0 <= i < j < |t| ==> Rank(t[i]) <= Rank(t[j]))
    && forall rank :: Ranked(t, rank) == Ranked(s, rank)
  }

  function WorstFirst(s: seq<Finding>): seq<Finding> {
    Ranked(s, 0) + Ranked(s, 1) + Ranked(s, 2)
  }

  function Cut(t: seq<Finding>): seq<Finding> {
    if |t| > MAX_RESULTS then t[..MAX_RESULTS] else t
  }

  /** Errors come behind failures, warnings behind both; what is neither error nor warning
      counts as a failure. */
  ghost predicate InOrder(t: seq<Finding>) {
    forall i, j :: 0 <= i < j < |t| ==>
      && (t[i].result == "error" ==> t[j].result in {"error", "warn"})
      && (t[i].result == "warn" ==> t[j].result == "warn")
  }

  lemma StableIsInOrder(s: seq<Finding>, t: seq<Finding>)
    requires StablySorted(s, t)
    ensures InOrder(t) && InOrder(Cut(t))
  {
    assert "error" != "warn";
  }

  method PolicyReport(reports: seq<Block>, ns: string)
    returns (totals: map<string, nat>, results: seq<Finding>, truncated: bool)
    ensures Tallies(totals, Records(reports))
    ensures results == Cut(WorstFirst(Listed(Records(reports), ns)))
    ensures truncated <==> |Listed(Records(reports), ns)| > 200
    ensures |results| == (if truncated then 200 else |Listed(Records(reports), ns)|) && InOrder(results)
  {
    totals, results := ReadReports(reports, ns);
    WorstFirstIsStable(results);
    StableIsInOrder(results, WorstFirst(results));
    results := WorstFirst(results);
    truncated := false;
    if |results| > MAX_RESULTS {
      results, truncated := results[..MAX_RESULTS], true;
    }
  }

  lemma {:induction false} RankedConcat(a: seq<Finding>, b: seq<Finding>, rank: nat)
    ensures Ranked(a + b, rank) == Ranked(a, rank) + Ranked(b, rank)
  {
    if b == [] {
      assert a + b == a && Ranked(a, rank) + [] == Ranked(a, rank);
    } else {
      var init, last := b[..|b| - 1], b[|b| - 1];
      assert (a + b)[..|a + b| - 1] == a + init;
      RankedConcat(a, init, rank);
      assert Ranked(a + b, rank) == Ranked(a, rank) + Ranked(init, rank) + if Rank(last) == rank then [last] else [];
    }
  }

  lemma {:induction false} RankedAgain(s: seq<Finding>, rank: nat, other: nat)
    ensures Ranked(Ranked(s, rank), other) == if rank == other then Ranked(s, rank) else []
    ensures forall f :: f in Ranked(s, rank) ==> Rank(f) == rank
  {
    if s != [] {
      var init, last := s[..|s| - 1], s[|s| - 1];
      RankedAgain(init, rank, other);
      if Rank(last) == rank {
        RankedConcat(Ranked(init, rank), [last], other);
        assert [last][..0] == [];
      } else {
        assert Ranked(s, rank) == Ranked(init, rank);
      }
    }
  }

  lemma {:induction false} RanksPartition(s: seq<Finding>)
    ensures |s| == |Ranked(s, 0)| + |Ranked(s, 1)| + |Ranked(s, 2)|
    ensures forall rank :: rank > 2 ==> Ranked(s, rank) == []
  {
    if s != [] {
      RanksPartition(s[..|s| - 1]);
    }
  }

  /** The report's order is that of a stable sort by rank. */
  lemma WorstFirstIsStable(s: seq<Finding>)
    ensures StablySorted(s, WorstFirst(s)) && |WorstFirst(s)| == |s|
  {
    var t := WorstFirst(s);
    RanksPartition(s);
    forall rank: nat ensures Ranked(t, rank) == Ranked(s, rank) {
      WorstFirstRanked(s, rank);
    }
    WorstFirstAscends(s);
  }

  lemma WorstFirstRanked(s: seq<Finding>, rank: nat)
    ensures Ranked(WorstFirst(s), rank) == Ranked(s, rank)
  {
    RankedParts(Ranked(s, 0), Ranked(s, 1), Ranked(s, 2), rank);
    RankedAgain(s, 0, rank);
    RankedAgain(s, 1, rank);
    RankedAgain(s, 2, rank);
    RanksPartition(s);
    OnlyPart(Ranked(s, rank));
  }

  lemma RankedParts(a: seq<Finding>, b: seq<Finding>, c: seq<Finding>, rank: nat)
    ensures Ranked(a + b + c, rank) == Ranked(a, rank) + Ranked(b, rank) + Ranked(c, rank)
  {
    RankedConcat(a + b, c, rank);
    RankedConcat(a, b, rank);
  }

  lemma OnlyPart(s: seq<Finding>)
    ensures s + [] + [] == [] + s + [] == [] + [] + s == s
  {
  }

  lemma JoinAscends(a: seq<Finding>, b: seq<Finding>, c: seq<Finding>)
    requires forall i :: 0 <= i < |a| ==> Rank(a[i]) == 0
    requires forall i :: 0 <= i < |b| ==> Rank(b[i]) == 1
    requires forall i :: 0 <= i < |c| ==> Rank(c[i]) == 2
    ensures var t := a + b + c; forall i, j :: 0 <= i < j < |t| ==> Rank(t[i]) <= Rank(t[j])
  {
    var n, m, t := |a|, |a| + |b|, a + b + c;
    assert forall i :: 0 <= i < |t| ==> t[i] == if i < n then a[i] else if i < m then b[i - n] else c[i - m];
  }

  lemma AllOfRank(s: seq<Finding>, rank: nat)
    ensures forall i :: 0 <= i < |Ranked(s, rank)| ==> Rank(Ranked(s, rank)[i]) == rank
  {
    RankedAgain(s, rank, rank);
  }

  lemma WorstFirstAscends(s: seq<Finding>)
    ensures var t := WorstFirst(s); forall i, j :: 0 <= i < j < |t| ==> Rank(t[i]) <= Rank(t[j])
  {
    AllOfRank(s, 0);
    AllOfRank(s, 1);
    AllOfRank(s, 2);
    JoinAscends(Ranked(s, 0), Ranked(s, 1), Ranked(s, 2));
  }

  /** Stability leaves no choice: whichever algorithm sorts, the order is this one. */
  lemma {:induction false} StableOrderIsUnique(s: seq<Finding>, t: seq<Finding>)
    requires StablySorted(s, t)
    ensures t == WorstFirst(s)
  {
    AscendingIsWorstFirst(t);
    assert Ranked(t, 0) == Ranked(s, 0) && Ranked(t, 1) == Ranked(s, 1) && Ranked(t, 2) == Ranked(s, 2);
  }

  lemma {:induction false} AscendingIsWorstFirst(t: seq<Finding>)
    requires forall i, j :: 0 <= i < j < |t| ==> Rank(t[i]) <= Rank(t[j])
    ensures t == WorstFirst(t)
  {
    if t != [] {
      var init, last := t[..|t| - 1], t[|t| - 1];
      AscendingIsWorstFirst(init);
      NoneAbove(init, Rank(last));
      WorstFirstOneMore(init, last);
      assert t == init + [last];
    }
  }

  lemma WorstFirstOneMore(s: seq<Finding>, f: Finding)
    requires forall rank :: rank > Rank(f) ==> Ranked(s, rank) == []
    ensures WorstFirst(s + [f]) == WorstFirst(s) + [f]
  {
    assert (s + [f])[..|s|] == s;
  }

  lemma {:induction false} NoneAbove(s: seq<Finding>, bound: nat)
    requires forall i :: 0 <= i < |s| ==> Rank(s[i]) <= bound
    ensures forall rank :: rank > bound ==> Ranked(s, rank) == []
  {
    if s != [] {
      NoneAbove(s[..|s| - 1], bound);
    }
  }

  lemma AscendsAcross(kept: seq<Finding>, dropped: seq<Finding>)
    requires var t := kept + dropped; forall i, j :: 0 <= i < j < |t| ==> Rank(t[i]) <= Rank(t[j])
    ensures forall f, g :: f in kept && g in dropped ==> Rank(f) <= Rank(g)
  {
    var t := kept + dropped;
    forall f, g | f in kept && g in dropped ensures Rank(f) <= Rank(g) {
      var i :| 0 <= i < |kept| && kept[i] == f;
      var j :| 0 <= j < |dropped| && dropped[j] == g;
      assert t[i] == f && t[|kept| + j] == g;
    }
  }

  /** The cut drops the least severe: nothing dropped ranks ahead of anything kept, and of
      equal rank the earlier are kept. */
  lemma CutKeepsTheWorst(s: seq<Finding>)
    ensures var kept := Cut(WorstFirst(s));
            var dropped := WorstFirst(s)[|kept|..];
            && |kept| == (if |s| < MAX_RESULTS then |s| else MAX_RESULTS)
            && (forall f, g :: f in kept && g in dropped ==> Rank(f) <= Rank(g))
            && forall rank :: Ranked(s, rank) == Ranked(kept, rank) + Ranked(dropped, rank)
  {
    var t := WorstFirst(s);
    var kept, dropped := Cut(t), t[|Cut(t)|..];
    WorstFirstIsStable(s);
    assert t == kept + dropped && |kept| == if |s| < MAX_RESULTS then |s| else MAX_RESULTS;
    AscendsAcross(kept, dropped);
    forall rank: nat ensures Ranked(s, rank) == Ranked(kept, rank) + Ranked(dropped, rank) {
      RankedSplit(s, kept, dropped, rank);
    }
  }

  lemma RankedSplit(s: seq<Finding>, kept: seq<Finding>, dropped: seq<Finding>, rank: nat)
    requires WorstFirst(s) == kept + dropped
    ensures Ranked(s, rank) == Ranked(kept, rank) + Ranked(dropped, rank)
  {
    WorstFirstRanked(s, rank);
    RankedConcat(kept, dropped, rank);
  }
}
