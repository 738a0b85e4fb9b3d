/** The audit's owner resolution: references become workloads, duplicates are dropped in
    whatever order the set is visited, and the list is sorted by kind and name. */
module OwnerResolution {
  import opened Outcomes
  import opened Ordering
  import opened Text
  import opened PodScan
  import opened Workloads

  datatype AuditOwner = AuditOwner(kind: string, name: string, apiVersion: string, workload: Option<Workload>)

  /** The two lookup tables of the audit: ReplicaSets to Deployments, and the workloads. */
  datatype Tables = Tables(rsDeployment: map<string, string>, index: map<string, Workload>) {
    function Resolve(ref: OwnerRef): (string, string) {
      var rs := ref.ns + "/" + ref.name;
      if ref.kind == "ReplicaSet" && rs in rsDeployment then ("Deployment", rsDeployment[rs])
      else (ref.kind, ref.name)
    }

    function KeyOf(ref: OwnerRef): string {
      Resolve(ref).0 + "/" + Resolve(ref).1
    }

    function IndexKey(ref: OwnerRef): string {
      Resolve(ref).0 + "/" + ref.ns + "/" + Resolve(ref).1
    }

    function Entry(ref: OwnerRef): AuditOwner {
      var (kind, name) := Resolve(ref);
      if IndexKey(ref) in index then
        var w := index[IndexKey(ref)];
        AuditOwner(w.kind, w.name, "", Some(w))
      else AuditOwner(kind, name, ref.apiVersion, None)
    }

    /** The entries appended when the references are visited in this order. */
    function Collect(order: seq<OwnerRef>): seq<AuditOwner> {
      if order == [] then []
      else
        var before, ref := order[..|order| - 1], order[|order| - 1];
        Collect(before) + if KeyOf(ref) in Keys(before) then [] else [Entry(ref)]
    }

    function Keys(order: seq<OwnerRef>): set<string> {
      set i | 0 <= i < |order| :: KeyOf(order[i])
    }
  }

  predicate OwnerLess(a: AuditOwner, b: AuditOwner) {
    if a.kind != b.kind then Less(a.kind, b.kind) else Less(a.name, b.name)
  }

  function Insert(x: AuditOwner, s: seq<AuditOwner>): seq<AuditOwner> {
    if s == [] || OwnerLess(x, s[0]) then [x] + s else [s[0]] + Insert(x, s[1..])
  }

  function Sorted(s: seq<AuditOwner>): seq<AuditOwner> {
    if s == [] then [] else Insert(s[|s| - 1], Sorted(s[..|s| - 1]))
  }

  /** The list reported when the references are visited in this order. */
  function Reported(t: Tables, order: seq<OwnerRef>): seq<AuditOwner> {
    Sorted(t.Collect(order))
  }

  ghost predicate Enumerates(order: seq<OwnerRef>, refs: set<OwnerRef>) {
    && (forall i, j :: 0 <= i < j < |order| ==> order[i] != order[j])
    && (forall r :: r in order <==> r in refs)
  }

  // ---- what the list must tell, said of references and tables alone ----

  /** The reference is to a ReplicaSet that belongs to a Deployment. */
  predicate OfDeployment(t: Tables, r: OwnerRef) {
    r.kind == "ReplicaSet" && r.ns + "/" + r.name in t.rsDeployment
  }

  ghost predicate Lists(out: seq<AuditOwner>, kind: string, name: string) {
    exists e :: e in out && e.kind == kind && e.name == name
  }

  /** The entry is for this reference: under the Deployment's name or its own, with the
      workload if one is listed under that name, and else with the reference's version. */
  predicate StandsFor(e: AuditOwner, t: Tables, r: OwnerRef) {
    && (if OfDeployment(t, r) then e.kind == "Deployment" && e.name == t.rsDeployment[r.ns + "/" + r.name]
        else e.kind == r.kind && e.name == r.name)
    && var key := e.kind + "/" + r.ns + "/" + e.name;
       if key in t.index then e.workload == Some(t.index[key]) && e.apiVersion == ""
       else e.workload == None && e.apiVersion == r.apiVersion
  }

  /** ReplicaSets of a Deployment are told as the Deployment, everything else as itself, and
      nothing else is told; a ReplicaSet is told only if it belongs to none. */
  ghost predicate TellsOwners(out: seq<AuditOwner>, t: Tables, refs: set<OwnerRef>) {
    && (forall r :: r in refs && OfDeployment(t, r) ==> Lists(out, "Deployment", t.rsDeployment[r.ns + "/" + r.name]))
    && (forall r :: r in refs && !OfDeployment(t, r) ==> Lists(out, r.kind, r.name))
    && (forall e :: e in out ==> exists r :: r in refs && StandsFor(e, t, r))
    && (forall e :: e in out && e.kind == "ReplicaSet" ==>
          exists r :: r in refs && r.kind == "ReplicaSet" && r.name == e.name && !OfDeployment(t, r))
  }

  /** By kind, and by name within a kind. */
  ghost predicate ByKindAndName(out: seq<AuditOwner>) {
    forall i, j :: 0 <= i < j < |out| ==>
      Less(out[i].kind, out[j].kind) || (out[i].kind == out[j].kind && Less(out[i].name, out[j].name))
  }

  lemma EntryStandsFor(t: Tables, r: OwnerRef)
    requires WellIndexed(t.index) && PlainRef(r)
    ensures StandsFor(t.Entry(r), t, r)
    ensures t.Resolve(r) == if OfDeployment(t, r) then ("Deployment", t.rsDeployment[r.ns + "/" + r.name])
                            else (r.kind, r.name)
  {
    EntryNames(t, r);
  }

  lemma OwnNameIsNoReplicaSet(e: AuditOwner, t: Tables, r: OwnerRef)
    requires StandsFor(e, t, r) && e.kind == "ReplicaSet"
    ensures r.kind == "ReplicaSet" && r.name == e.name && !OfDeployment(t, r)
  {
    assert "Deployment"[0] != "ReplicaSet"[0];
  }

  lemma ReferenceIsTold(t: Tables, refs: set<OwnerRef>, order: seq<OwnerRef>, r: OwnerRef)
    requires WellIndexed(t.index) && PlainRefs(refs) && Enumerates(order, refs) && r in refs
    ensures OfDeployment(t, r) ==> Lists(Reported(t, order), "Deployment", t.rsDeployment[r.ns + "/" + r.name])
    ensures !OfDeployment(t, r) ==> Lists(Reported(t, order), r.kind, r.name)
  {
    var e := ReportedUnder(t, refs, order, r);
    EntryStandsFor(t, r);
  }

  lemma ToldIsReference(t: Tables, refs: set<OwnerRef>, order: seq<OwnerRef>, e: AuditOwner) returns (r: OwnerRef)
    requires WellIndexed(t.index) && PlainRefs(refs) && Enumerates(order, refs) && e in Reported(t, order)
    ensures r in refs && StandsFor(e, t, r)
  {
    assert Represents(e, t, refs) by {
      ReportedRepresents(t, refs, order);
    }
    r :| r in refs && e == t.Entry(r);
    EntryStandsFor(t, r);
  }

  lemma ReportedTells(t: Tables, refs: set<OwnerRef>, order: seq<OwnerRef>)
    requires WellIndexed(t.index) && PlainRefs(refs) && Enumerates(order, refs)
    ensures TellsOwners(Reported(t, order), t, refs)
  {
    forall r | r in refs
      ensures OfDeployment(t, r) ==> Lists(Reported(t, order), "Deployment", t.rsDeployment[r.ns + "/" + r.name])
      ensures !OfDeployment(t, r) ==> Lists(Reported(t, order), r.kind, r.name)
    {
      ReferenceIsTold(t, refs, order, r);
    }
    forall e | e in Reported(t, order)
      ensures exists r :: r in refs && StandsFor(e, t, r)
      ensures e.kind == "ReplicaSet" ==>
                exists r :: r in refs && r.kind == "ReplicaSet" && r.name == e.name && !OfDeployment(t, r)
    {
      var r := ToldIsReference(t, refs, order, e);
      if e.kind == "ReplicaSet" {
        OwnNameIsNoReplicaSet(e, t, r);
      }
    }
  }

  lemma ReportedInOrder(t: Tables, refs: set<OwnerRef>, order: seq<OwnerRef>)
    requires WellIndexed(t.index) && PlainRefs(refs) && Enumerates(order, refs)
    ensures ByKindAndName(Reported(t, order)) && AllRepresented(Reported(t, order), t, refs)
  {
    ReportedRepresents(t, refs, order);
  }

  /** Sorted without duplicates, of entries of the references, and none left out. */
  ghost predicate AllRepresented(out: seq<AuditOwner>, t: Tables, refs: set<OwnerRef>) {
    && StrictlySorted(out)
    && (forall e :: e in out ==> Represents(e, t, refs))
    && (forall r :: r in refs ==> exists e :: e in out && (e.kind, e.name) == t.Resolve(r))
  }

  /** The set may be visited in any order. */
  method ResolveOwners(t: Tables, refs: set<OwnerRef>) returns (out: seq<AuditOwner>)
    ensures exists order :: Enumerates(order, refs) && out == Reported(t, order)
    ensures WellIndexed(t.index) && PlainRefs(refs) ==>
              TellsOwners(out, t, refs) && ByKindAndName(out) && AllRepresented(out, t, refs)
  {
    var seen: set<string> := {};
    out := [];
    var todo := refs;
    ghost var order: seq<OwnerRef> := [];
    while todo != {}
      invariant todo <= refs && Enumerates(order, refs - todo)
      invariant seen == t.Keys(order) && out == t.Collect(order)
    {
      var ref :| ref in todo;
      todo := todo - {ref};
      var key := t.KeyOf(ref);
      assert (order + [ref])[..|order|] == order;
      KeysOneMore(t, order, ref);
      if key !in seen {
        seen := seen + {key};
        out := out + [t.Entry(ref)];
      }
      order := order + [ref];
    }
    out := Sorted(out);
    assert Enumerates(order, refs) && out == Reported(t, order);
    if WellIndexed(t.index) && PlainRefs(refs) {
      ReportedTells(t, refs, order);
      ReportedInOrder(t, refs, order);
    }
  }

  lemma KeysOneMore(t: Tables, order: seq<OwnerRef>, ref: OwnerRef)
    ensures t.Keys(order + [ref]) == t.Keys(order) + {t.KeyOf(ref)}
  {
    var more := order + [ref];
    forall i | 0 <= i < |order| ensures t.KeyOf(order[i]) in t.Keys(more) {
      assert more[i] == order[i];
    }
    assert more[|order|] == ref;
  }

  // ---- sorting ----

  ghost predicate SameId(a: AuditOwner, b: AuditOwner) {
    a.kind == b.kind && a.name == b.name
  }

  ghost predicate DistinctIds(s: seq<AuditOwner>) {
    forall i, j :: 0 <= i < j < |s| ==> !SameId(s[i], s[j])
  }

  ghost predicate StrictlySorted(s: seq<AuditOwner>) {
    forall i, j :: 0 <= i < j < |s| ==> OwnerLess(s[i], s[j])
  }

  lemma OwnerLessOrder(a: AuditOwner, b: AuditOwner, c: AuditOwner)
    ensures SameId(a, b) ==> !OwnerLess(a, b)
    ensures !SameId(a, b) ==> OwnerLess(a, b) || OwnerLess(b, a)
    ensures OwnerLess(a, b) && OwnerLess(b, c) ==> OwnerLess(a, c)
  {
    LessIrreflexive(a.kind);
    LessIrreflexive(a.name);
    LessTotal(a.kind, b.kind);
    LessTotal(a.name, b.name);
    if OwnerLess(a, b) && OwnerLess(b, c) {
      if a.kind != b.kind && b.kind != c.kind {
        LessTransitive(a.kind, b.kind, c.kind);
        if a.kind == c.kind {
          LessIrreflexive(a.kind);
        }
      } else if a.kind == b.kind == c.kind {
        LessTransitive(a.name, b.name, c.name);
      }
    }
  }

  lemma {:induction false} InsertMembers(x: AuditOwner, s: seq<AuditOwner>)
    ensures |Insert(x, s)| == |s| + 1
    ensures forall y :: y in Insert(x, s) <==> y == x || y in s
  {
    if s != [] && !OwnerLess(x, s[0]) {
      InsertMembers(x, s[1..]);
      assert s == [s[0]] + s[1..];
    }
  }

  lemma {:induction false} InsertSorted(x: AuditOwner, s: seq<AuditOwner>)
    requires StrictlySorted(s) && forall y :: y in s ==> !SameId(x, y)
    ensures StrictlySorted(Insert(x, s))
  {
    if s == [] {
    } else if OwnerLess(x, s[0]) {
      forall j | 0 <= j < |s| ensures OwnerLess(x, s[j]) {
        OwnerLessOrder(x, s[0], s[j]);
      }
    } else {
      var rest := Insert(x, s[1..]);
      InsertSorted(x, s[1..]);
      InsertMembers(x, s[1..]);
      forall j | 0 <= j < |rest| ensures OwnerLess(s[0], rest[j]) {
        OwnerLessOrder(x, s[0], x);
        assert rest[j] in rest;
      }
    }
  }

  lemma {:induction false} SortedSorts(s: seq<AuditOwner>)
    requires DistinctIds(s)
    ensures StrictlySorted(Sorted(s)) && |Sorted(s)| == |s|
    ensures forall y :: y in Sorted(s) <==> y in s
  {
    if s != [] {
      var init, x := s[..|s| - 1], s[|s| - 1];
      assert s == init + [x];
      SortedSorts(init);
      InsertMembers(x, Sorted(init));
      forall y | y in init ensures !SameId(x, y) {
        var i :| 0 <= i < |init| && init[i] == y;
        assert !SameId(s[i], s[|s| - 1]);
      }
      InsertSorted(x, Sorted(init));
    }
  }

  lemma SomeMember(s: seq<AuditOwner>)
    ensures s != [] ==> exists y :: y in s
  {
    if s != [] {
      assert s[0] in s;
    }
  }

  lemma SortedIdsDistinct(s: seq<AuditOwner>, x: AuditOwner, y: AuditOwner)
    requires StrictlySorted(s) && x in s && y in s && SameId(x, y)
    ensures x == y
  {
    var i :| 0 <= i < |s| && s[i] == x;
    var j :| 0 <= j < |s| && s[j] == y;
    OwnerLessOrder(x, y, x);
    OwnerLessOrder(y, x, y);
  }

  /** A strictly sorted list is determined by its members. */
  lemma {:induction false} SortedIsUnique(a: seq<AuditOwner>, b: seq<AuditOwner>)
    requires StrictlySorted(a) && StrictlySorted(b) && forall y :: y in a <==> y in b
    ensures a == b
  {
    if a == [] {
      SomeMember(b);
    } else {
      assert a[0] in b;
      assert b[0] in a;
      var i :| 0 <= i < |b| && b[i] == a[0];
      var j :| 0 <= j < |a| && a[j] == b[0];
      if a[0] != b[0] {
        assert i > 0 && OwnerLess(b[0], b[i]) && OwnerLess(a[0], a[j]);
        OwnerLessOrder(a[0], b[0], a[0]);
        OwnerLessOrder(a[0], a[0], a[0]);
      }
      TailMembers(a, b);
      SortedIsUnique(a[1..], b[1..]);
      assert a == [a[0]] + a[1..] && b == [b[0]] + b[1..];
    }
  }

  lemma TailMembers(a: seq<AuditOwner>, b: seq<AuditOwner>)
    requires StrictlySorted(a) && StrictlySorted(b) && forall y :: y in a <==> y in b
    requires a != [] && b != [] && a[0] == b[0]
    ensures forall y :: y in a[1..] <==> y in b[1..]
  {
    OwnerLessOrder(a[0], a[0], a[0]);
    forall y ensures y in a[1..] <==> y in b[1..] {
      assert y in a[1..] <==> y in a && y != a[0] by {
        assert a == [a[0]] + a[1..];
      }
      assert y in b[1..] <==> y in b && y != b[0] by {
        assert b == [b[0]] + b[1..];
      }
    }
  }

  // ---- keys ----

  function WorkloadKey(w: Workload): string {
    w.kind + "/" + w.ns + "/" + w.name
  }

  /** Kinds and namespaces of a cluster hold no separator. */
  predicate PlainWorkload(w: Workload) {
    Plain(w.kind) && Plain(w.ns)
  }

  ghost predicate WellIndexed(index: map<string, Workload>) {
    forall k :: k in index ==> k == WorkloadKey(index[k]) && PlainWorkload(index[k])
  }

  /** The workload index. */
  function IndexOf(workloads: seq<Workload>): map<string, Workload> {
    if workloads == [] then map[]
    else
      var last := workloads[|workloads| - 1];
      IndexOf(workloads[..|workloads| - 1])[WorkloadKey(last) := last]
  }

  method IndexWorkloads(workloads: seq<Workload>) returns (index: map<string, Workload>)
    ensures index == IndexOf(workloads)
  {
    index := map[];
    for i := 0 to |workloads|
      invariant index == IndexOf(workloads[..i])
    {
      assert workloads[..i + 1][..i] == workloads[..i];
      index := index[WorkloadKey(workloads[i]) := workloads[i]];
    }
    assert workloads[..|workloads|] == workloads;
  }

  ghost predicate LastUnder(workloads: seq<Workload>, k: string, i: int) {
    && 0 <= i < |workloads| && WorkloadKey(workloads[i]) == k
    && forall j :: i < j < |workloads| ==> WorkloadKey(workloads[j]) != k
  }

  /** Exactly the listed keys are indexed, each by the last workload listed under it. */
  lemma {:induction false} IndexHoldsLast(workloads: seq<Workload>, k: string)
    ensures k in IndexOf(workloads) <==> exists i :: LastUnder(workloads, k, i)
    ensures forall i :: LastUnder(workloads, k, i) ==> k in IndexOf(workloads) && IndexOf(workloads)[k] == workloads[i]
  {
    if workloads != [] {
      var init, n := workloads[..|workloads| - 1], |workloads| - 1;
      IndexHoldsLast(init, k);
      if WorkloadKey(workloads[n]) == k {
        assert LastUnder(workloads, k, n);
      } else {
        forall i ensures LastUnder(workloads, k, i) <==> LastUnder(init, k, i) {
        }
      }
    }
  }

  lemma {:induction false} IndexIsWell(workloads: seq<Workload>)
    requires forall w :: w in workloads ==> PlainWorkload(w)
    ensures WellIndexed(IndexOf(workloads))
  {
    if workloads != [] {
      IndexIsWell(workloads[..|workloads| - 1]);
    }
  }

  predicate PlainRef(r: OwnerRef) {
    Plain(r.kind) && Plain(r.ns)
  }

  ghost predicate PlainRefs(refs: set<OwnerRef>) {
    forall r :: r in refs ==> PlainRef(r)
  }

  /** An entry carries the resolved kind and name, whether or not the workload is known. */
  lemma EntryNames(t: Tables, r: OwnerRef)
    requires WellIndexed(t.index) && PlainRef(r)
    ensures (t.Entry(r).kind, t.Entry(r).name) == t.Resolve(r) && Plain(t.Resolve(r).0)
  {
    var (kind, name) := t.Resolve(r);
    assert Plain("Deployment");
    if t.IndexKey(r) in t.index {
      var w := t.index[t.IndexKey(r)];
      assert kind + "/" + r.ns + "/" + name == kind + "/" + (r.ns + "/" + name);
      assert WorkloadKey(w) == w.kind + "/" + (w.ns + "/" + w.name);
      JoinInjective(kind, r.ns + "/" + name, w.kind, w.ns + "/" + w.name);
      JoinInjective(r.ns, name, w.ns, w.name);
    }
  }

  lemma SameKeySameId(t: Tables, r: OwnerRef, s: OwnerRef)
    requires WellIndexed(t.index) && PlainRef(r) && PlainRef(s)
    ensures t.KeyOf(r) == t.KeyOf(s) <==> SameId(t.Entry(r), t.Entry(s))
    ensures t.KeyOf(r) == t.KeyOf(s) <==> t.Resolve(r) == t.Resolve(s)
  {
    EntryNames(t, r);
    EntryNames(t, s);
    if t.KeyOf(r) == t.KeyOf(s) {
      JoinInjective(t.Resolve(r).0, t.Resolve(r).1, t.Resolve(s).0, t.Resolve(s).1);
    }
  }

  // ---- what one visit collects ----

  ghost predicate AllPlain(order: seq<OwnerRef>) {
    forall i :: 0 <= i < |order| ==> PlainRef(order[i])
  }

  lemma {:induction false} CollectedFromVisited(t: Tables, order: seq<OwnerRef>, e: AuditOwner)
    requires e in t.Collect(order)
    ensures exists i :: 0 <= i < |order| && e == t.Entry(order[i])
  {
    var before, ref := order[..|order| - 1], order[|order| - 1];
    if e in t.Collect(before) {
      CollectedFromVisited(t, before, e);
      var i :| 0 <= i < |before| && e == t.Entry(before[i]);
      assert order[i] == before[i];
    } else {
      assert e == t.Entry(ref);
    }
  }

  lemma {:induction false} VisitedIsCollected(t: Tables, order: seq<OwnerRef>, i: nat)
    requires WellIndexed(t.index) && AllPlain(order) && i < |order|
    ensures exists e :: e in t.Collect(order) && SameId(e, t.Entry(order[i]))
    ensures i == 0 ==> t.Entry(order[0]) in t.Collect(order)
  {
    var before, ref := order[..|order| - 1], order[|order| - 1];
    if i < |before| {
      VisitedIsCollected(t, before, i);
      var e :| e in t.Collect(before) && SameId(e, t.Entry(before[i]));
      assert e in t.Collect(order);
    } else if t.KeyOf(ref) in t.Keys(before) {
      var k :| 0 <= k < |before| && t.KeyOf(before[k]) == t.KeyOf(ref);
      VisitedIsCollected(t, before, k);
      assert before[k] == order[k];
      SameKeySameId(t, order[k], ref);
      var e :| e in t.Collect(before) && SameId(e, t.Entry(before[k]));
      assert e in t.Collect(order);
    } else {
      assert t.Entry(ref) in t.Collect(order);
    }
  }

  lemma {:induction false} CollectDistinct(t: Tables, order: seq<OwnerRef>)
    requires WellIndexed(t.index) && AllPlain(order)
    ensures DistinctIds(t.Collect(order))
  {
    if order != [] {
      var before, ref := order[..|order| - 1], order[|order| - 1];
      CollectDistinct(t, before);
      if t.KeyOf(ref) !in t.Keys(before) {
        forall i | 0 <= i < |t.Collect(before)| ensures !SameId(t.Collect(before)[i], t.Entry(ref)) {
          CollectedFromVisited(t, before, t.Collect(before)[i]);
          var k :| 0 <= k < |before| && t.Collect(before)[i] == t.Entry(before[k]);
          assert order[k] == before[k];
          SameKeySameId(t, order[k], ref);
          assert t.KeyOf(before[k]) in t.Keys(before);
        }
      }
    }
  }

  // ---- the reported list ----

  ghost predicate Represents(e: AuditOwner, t: Tables, refs: set<OwnerRef>) {
    exists r :: r in refs && e == t.Entry(r)
  }

  /** In every visiting order: strictly sorted, so free of duplicates, every entry stands
      for a reference, and every reference is represented under its resolved kind and name. */
  lemma ReportedRepresents(t: Tables, refs: set<OwnerRef>, order: seq<OwnerRef>)
    requires WellIndexed(t.index) && PlainRefs(refs) && Enumerates(order, refs)
    ensures StrictlySorted(Reported(t, order))
    ensures forall e :: e in Reported(t, order) ==> Represents(e, t, refs)
    ensures forall r :: r in refs ==> exists e :: e in Reported(t, order) && (e.kind, e.name) == t.Resolve(r)
    ensures order != [] ==> t.Entry(order[0]) in Reported(t, order)
  {
    var all := t.Collect(order);
    forall i | 0 <= i < |order| ensures PlainRef(order[i]) {
      assert order[i] in order;
    }
    CollectDistinct(t, order);
    SortedSorts(all);
    forall e | e in Reported(t, order) ensures Represents(e, t, refs) {
      CollectedFromVisited(t, order, e);
      var i :| 0 <= i < |order| && e == t.Entry(order[i]);
      assert order[i] in order;
    }
    forall r | r in refs ensures exists e :: e in Reported(t, order) && (e.kind, e.name) == t.Resolve(r) {
      assert r in order;
      var i :| 0 <= i < |order| && order[i] == r;
      VisitedIsCollected(t, order, i);
      EntryNames(t, r);
      var e :| e in all && SameId(e, t.Entry(r));
      assert e in Reported(t, order);
    }
    if order != [] {
      VisitedIsCollected(t, order, 0);
    }
  }

  /** References to one workload that the index does not know agree on its API version. */
  ghost predicate VersionsAgree(t: Tables, refs: set<OwnerRef>) {
    forall r, s :: r in refs && s in refs && t.Resolve(r) == t.Resolve(s) && t.IndexKey(r) !in t.index ==>
      r.apiVersion == s.apiVersion
  }

  /** The references of one budget are all in its namespace. */
  lemma OwnersShareNamespace(pods: seq<Pod>, p: Pdb)
    ensures forall r :: r in OwnersAmong(pods, p) ==> r.ns == p.ns
  {
  }

  lemma OnlyOneEntry(t: Tables, refs: set<OwnerRef>, ns: string, e: AuditOwner, r: OwnerRef)
    requires WellIndexed(t.index) && PlainRefs(refs) && VersionsAgree(t, refs)
    requires forall s :: s in refs ==> s.ns == ns
    requires r in refs && Represents(e, t, refs) && (e.kind, e.name) == t.Resolve(r)
    ensures e == t.Entry(r)
  {
    var s :| s in refs && e == t.Entry(s);
    EntryNames(t, r);
    EntryNames(t, s);
  }

  lemma ReportedUnder(t: Tables, refs: set<OwnerRef>, order: seq<OwnerRef>, r: OwnerRef) returns (e: AuditOwner)
    requires WellIndexed(t.index) && PlainRefs(refs) && Enumerates(order, refs) && r in refs
    ensures e in Reported(t, order) && (e.kind, e.name) == t.Resolve(r) && Represents(e, t, refs)
  {
    ReportedRepresents(t, refs, order);
    e :| e in Reported(t, order) && (e.kind, e.name) == t.Resolve(r);
  }

  lemma EntryReported(t: Tables, refs: set<OwnerRef>, ns: string, order: seq<OwnerRef>, r: OwnerRef)
    requires WellIndexed(t.index) && PlainRefs(refs) && Enumerates(order, refs)
    requires (forall s :: s in refs ==> s.ns == ns) && VersionsAgree(t, refs) && r in refs
    ensures t.Entry(r) in Reported(t, order)
  {
    var e := ReportedUnder(t, refs, order, r);
    OnlyOneEntry(t, refs, ns, e, r);
  }

  /** When versions agree, the list holds exactly the entries of the references. */
  lemma ReportedExactly(t: Tables, refs: set<OwnerRef>, ns: string, order: seq<OwnerRef>)
    requires WellIndexed(t.index) && PlainRefs(refs) && Enumerates(order, refs)
    requires (forall r :: r in refs ==> r.ns == ns) && VersionsAgree(t, refs)
    ensures forall e :: e in Reported(t, order) <==> Represents(e, t, refs)
  {
    assert forall e :: e in Reported(t, order) ==> Represents(e, t, refs) by {
      ReportedRepresents(t, refs, order);
    }
    forall e | Represents(e, t, refs) ensures e in Reported(t, order) {
      var r :| r in refs && e == t.Entry(r);
      EntryReported(t, refs, ns, order, r);
    }
  }

  lemma {:induction false} EnumerationExists(refs: set<OwnerRef>) returns (order: seq<OwnerRef>)
    ensures Enumerates(order, refs)
  {
    order := [];
    if refs != {} {
      var r :| r in refs;
      var rest := EnumerationExists(refs - {r});
      order := [r] + rest;
    }
  }

  lemma EnumerationFrom(refs: set<OwnerRef>, r: OwnerRef) returns (order: seq<OwnerRef>)
    requires r in refs
    ensures Enumerates(order, refs) && order != [] && order[0] == r
  {
    var rest := EnumerationExists(refs - {r});
    order := [r] + rest;
  }

  ghost predicate OrderIndependent(t: Tables, refs: set<OwnerRef>) {
    forall a, b :: Enumerates(a, refs) && Enumerates(b, refs) ==> Reported(t, a) == Reported(t, b)
  }

  lemma AgreedIsOrderIndependent(t: Tables, refs: set<OwnerRef>, ns: string, a: seq<OwnerRef>, b: seq<OwnerRef>)
    requires WellIndexed(t.index) && PlainRefs(refs) && Enumerates(a, refs) && Enumerates(b, refs)
    requires (forall r :: r in refs ==> r.ns == ns) && VersionsAgree(t, refs)
    ensures Reported(t, a) == Reported(t, b)
  {
    var x, y := Reported(t, a), Reported(t, b);
    assert StrictlySorted(x) && forall e :: e in x <==> Represents(e, t, refs) by {
      ReportedExactly(t, refs, ns, a);
      ReportedRepresents(t, refs, a);
    }
    assert StrictlySorted(y) && forall e :: e in y <==> Represents(e, t, refs) by {
      ReportedExactly(t, refs, ns, b);
      ReportedRepresents(t, refs, b);
    }
    SortedIsUnique(x, y);
  }

  /** The report is the same for every visiting order exactly when versions agree. */
  lemma OrderIndependentExactly(t: Tables, refs: set<OwnerRef>, ns: string)
    requires WellIndexed(t.index) && PlainRefs(refs)
    requires forall r :: r in refs ==> r.ns == ns
    ensures OrderIndependent(t, refs) <==> VersionsAgree(t, refs)
  {
    if VersionsAgree(t, refs) {
      forall a, b | Enumerates(a, refs) && Enumerates(b, refs) ensures Reported(t, a) == Reported(t, b) {
        AgreedIsOrderIndependent(t, refs, ns, a, b);
      }
    }
    if OrderIndependent(t, refs) {
      forall r, s | r in refs && s in refs && t.Resolve(r) == t.Resolve(s) && t.IndexKey(r) !in t.index
        ensures r.apiVersion == s.apiVersion
      {
        FirstVisitedDecides(t, refs, r, s);
      }
    }
  }

  lemma FirstVisitedDecides(t: Tables, refs: set<OwnerRef>, r: OwnerRef, s: OwnerRef)
    requires WellIndexed(t.index) && PlainRefs(refs) && OrderIndependent(t, refs)
    requires r in refs && s in refs && t.Resolve(r) == t.Resolve(s)
    ensures t.Entry(r) == t.Entry(s)
  {
    var a := EnumerationFrom(refs, r);
    var b := EnumerationFrom(refs, s);
    ReportedRepresents(t, refs, a);
    ReportedRepresents(t, refs, b);
    SameKeySameId(t, r, s);
    SortedIdsDistinct(Reported(t, a), t.Entry(r), t.Entry(s));
  }

  /** Two controllers of one kind and name but different API groups: what is reported
      depends on which of them the set yields first. */
  lemma VersionDependsOnOrder(kind: string, name: string, ns: string, v: string, w: string)
    requires v != w && kind != "ReplicaSet" && Plain(kind) && Plain(ns)
    ensures !OrderIndependent(Tables(map[], map[]), {OwnerRef(ns, kind, name, v), OwnerRef(ns, kind, name, w)})
  {
    var refs := {OwnerRef(ns, kind, name, v), OwnerRef(ns, kind, name, w)};
    var t := Tables(map[], map[]);
    var r, s := OwnerRef(ns, kind, name, v), OwnerRef(ns, kind, name, w);
    assert t.Resolve(r) == t.Resolve(s) && t.IndexKey(r) !in t.index && r.apiVersion != s.apiVersion;
    assert !VersionsAgree(t, refs);
    OrderIndependentExactly(t, refs, ns);
  }
}
