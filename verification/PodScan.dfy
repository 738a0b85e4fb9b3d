/** The disruption audit's scan over all pods: each disruption budget collects the owners
    of its pods and the other budgets that select the same running pods. */
module PodScan {
  import opened Outcomes
  import opened Listing

  datatype PodPhase = Pending | Running | Succeeded | PodFailed | Unknown

  type Labels = map<string, string>

  datatype Controller = Controller(kind: string, name: string, apiVersion: string)

  datatype Pod = Pod(ns: string, name: string, labels: Labels, phase: PodPhase, deleting: bool,
                     controller: Option<Controller>)
  {
    predicate Finished() {
      phase.Succeeded? || phase.PodFailed?
    }

    /** Eviction consults budgets only for such pods. */
    predicate Evictable() {
      !Finished() && !phase.Pending? && !deleting
    }

    function Owner(): OwnerRef {
      match controller
      case None => OwnerRef(ns, "Pod", name, "")
      case Some(c) => OwnerRef(ns, c.kind, c.name, c.apiVersion)
    }
  }

  datatype OwnerRef = OwnerRef(ns: string, kind: string, name: string, apiVersion: string)

  /** A disruption budget; its selector is any predicate on pod labels. */
  class Pdb {
    const ns: string
    const name: string
    const selects: Labels -> bool
    var owners: set<OwnerRef>
    var overlaps: set<string>

    constructor (ns: string, name: string, selects: Labels -> bool)
      ensures this.ns == ns && this.name == name && this.selects == selects && owners == {} && overlaps == {}
    {
      this.ns, this.name, this.selects := ns, name, selects;
      owners, overlaps := {}, {};
    }

    /** The pod is unfinished, in this budget's namespace, and selected by it. */
    predicate Covers(pod: Pod) {
      pod.ns == ns && !pod.Finished() && selects(pod.labels)
    }
  }

  // ---- what the scan must find ----

  function OwnersAmong(pods: seq<Pod>, p: Pdb): set<OwnerRef> {
    set i | 0 <= i < |pods| && p.Covers(pods[i]) :: pods[i].Owner()
  }

  predicate Overlap(pods: seq<Pod>, p: Pdb, q: Pdb) {
    p != q && exists i :: 0 <= i < |pods| && pods[i].Evictable() && p.Covers(pods[i]) && q.Covers(pods[i])
  }

  function OverlapsAmong(pods: seq<Pod>, p: Pdb, all: seq<Pdb>): set<string> {
    set j | 0 <= j < |all| && Overlap(pods, p, all[j]) :: all[j].name
  }

  lemma OwnersConcat(a: seq<Pod>, b: seq<Pod>, p: Pdb)
    ensures OwnersAmong(a + b, p) == OwnersAmong(a, p) + OwnersAmong(b, p)
  {
    forall i | 0 <= i < |a| && p.Covers(a[i]) ensures a[i].Owner() in OwnersAmong(a + b, p) {
      assert (a + b)[i] == a[i];
    }
    forall i | 0 <= i < |b| && p.Covers(b[i]) ensures b[i].Owner() in OwnersAmong(a + b, p) {
      assert (a + b)[|a| + i] == b[i];
    }
  }

  lemma OverlapConcat(a: seq<Pod>, b: seq<Pod>, p: Pdb, q: Pdb)
    ensures Overlap(a + b, p, q) <==> Overlap(a, p, q) || Overlap(b, p, q)
  {
    if Overlap(a, p, q) {
      var i :| 0 <= i < |a| && a[i].Evictable() && p.Covers(a[i]) && q.Covers(a[i]);
      assert (a + b)[i] == a[i];
    }
    if Overlap(b, p, q) {
      var i :| 0 <= i < |b| && b[i].Evictable() && p.Covers(b[i]) && q.Covers(b[i]);
      assert (a + b)[|a| + i] == b[i];
    }
  }

  lemma OverlapsConcat(a: seq<Pod>, b: seq<Pod>, p: Pdb, all: seq<Pdb>)
    ensures OverlapsAmong(a + b, p, all) == OverlapsAmong(a, p, all) + OverlapsAmong(b, p, all)
  {
    forall j | 0 <= j < |all|
      ensures Overlap(a + b, p, all[j]) <==> Overlap(a, p, all[j]) || Overlap(b, p, all[j])
    {
      OverlapConcat(a, b, p, all[j]);
    }
  }

  // ---- the scan ----

  type ByNamespace = map<string, seq<Pdb>>

  ghost function Budgets(byNS: ByNamespace): set<Pdb> {
    set ns, p | ns in byNS && p in byNS[ns] :: p
  }

  ghost predicate Grouped(byNS: ByNamespace) {
    forall ns :: ns in byNS ==> forall p :: p in byNS[ns] ==> p.ns == ns
  }

  function InNamespace(pdbs: seq<Pdb>, ns: string): seq<Pdb> {
    if pdbs == [] then []
    else
      var last := pdbs[|pdbs| - 1];
      InNamespace(pdbs[..|pdbs| - 1], ns) + if last.ns == ns then [last] else []
  }

  lemma {:induction false} InNamespaceHas(pdbs: seq<Pdb>, ns: string)
    ensures forall p :: p in InNamespace(pdbs, ns) <==> p in pdbs && p.ns == ns
  {
    if pdbs != [] {
      InNamespaceHas(pdbs[..|pdbs| - 1], ns);
      assert pdbs == pdbs[..|pdbs| - 1] + [pdbs[|pdbs| - 1]];
    }
  }

  function Under(byNS: ByNamespace, ns: string): seq<Pdb> {
    if ns in byNS then byNS[ns] else []
  }

  method GroupByNamespace(pdbs: seq<Pdb>) returns (byNS: ByNamespace)
    ensures forall ns :: Under(byNS, ns) == InNamespace(pdbs, ns)
  {
    byNS := map[];
    for i := 0 to |pdbs|
      invariant forall ns :: Under(byNS, ns) == InNamespace(pdbs[..i], ns)
    {
      var p := pdbs[i];
      assert pdbs[..i + 1][..i] == pdbs[..i];
      assert forall ns :: InNamespace(pdbs[..i + 1], ns) == InNamespace(pdbs[..i], ns) + if p.ns == ns then [p] else [];
      byNS := byNS[p.ns := Under(byNS, p.ns) + [p]];
    }
    assert pdbs[..|pdbs|] == pdbs;
  }

  method Matching(nsPdbs: seq<Pdb>, labels: Labels) returns (matched: seq<Pdb>)
    ensures forall p :: p in matched <==> p in nsPdbs && p.selects(labels)
  {
    matched := [];
    for i := 0 to |nsPdbs|
      invariant forall p :: p in matched <==> p in nsPdbs[..i] && p.selects(labels)
    {
      if nsPdbs[i].selects(labels) {
        matched := matched + [nsPdbs[i]];
      }
    }
  }

  method AddOwner(matched: seq<Pdb>, ref: OwnerRef)
    modifies (set p | p in matched)`owners
    ensures forall p :: p in matched ==> p.owners == old(p.owners) + {ref}
  {
    for i := 0 to |matched|
      invariant forall p :: p in matched ==> p.owners == old(p.owners) + if p in matched[..i] then {ref} else {}
    {
      matched[i].owners := matched[i].owners + {ref};
    }
  }

  function Others(matched: seq<Pdb>, p: Pdb): set<string> {
    set k | 0 <= k < |matched| && matched[k] != p :: matched[k].name
  }

  lemma OthersOneMore(matched: seq<Pdb>, k: nat, p: Pdb)
    requires k < |matched|
    ensures Others(matched[..k + 1], p) == Others(matched[..k], p) + if matched[k] != p then {matched[k].name} else {}
  {
    var less, more := matched[..k], matched[..k + 1];
    forall n | n in Others(less, p) ensures n in Others(more, p) {
      var i :| 0 <= i < |less| && less[i] != p && less[i].name == n;
      assert more[i] == less[i];
    }
    if matched[k] != p {
      assert more[k] == matched[k];
    }
  }

  method AddOverlaps(matched: seq<Pdb>)
    modifies (set p | p in matched)`overlaps
    ensures forall p :: p in matched ==> p.overlaps == old(p.overlaps) + Others(matched, p)
  {
    for i := 0 to |matched|
      invariant forall p :: p in matched ==>
                  p.overlaps == old(p.overlaps) + if p in matched[..i] then Others(matched, p) else {}
    {
      AddOthers(matched[i], matched);
    }
  }

  method AddOthers(p: Pdb, matched: seq<Pdb>)
    modifies p`overlaps
    ensures p.overlaps == old(p.overlaps) + Others(matched, p)
  {
    for k := 0 to |matched|
      invariant p.overlaps == old(p.overlaps) + Others(matched[..k], p)
    {
      OthersOneMore(matched, k, p);
      if p != matched[k] {
        p.overlaps := p.overlaps + {matched[k].name};
      }
    }
    assert matched[..|matched|] == matched;
  }

  lemma OnePod(pod: Pod, p: Pdb, nsPdbs: seq<Pdb>, matched: seq<Pdb>)
    requires forall q :: q in nsPdbs ==> q.ns == pod.ns
    requires forall q :: q in matched <==> q in nsPdbs && q.selects(pod.labels)
    requires p in nsPdbs && !pod.Finished()
    ensures OwnersAmong([pod], p) == if p in matched then {pod.Owner()} else {}
    ensures OverlapsAmong([pod], p, nsPdbs) ==
            if p in matched && |matched| > 1 && pod.Evictable() then Others(matched, p) else {}
  {
    assert [pod][0] == pod;
    forall n | n in OverlapsAmong([pod], p, nsPdbs) ensures |matched| > 1 && n in Others(matched, p) {
      var j :| 0 <= j < |nsPdbs| && Overlap([pod], p, nsPdbs[j]) && nsPdbs[j].name == n;
      var k :| 0 <= k < |matched| && matched[k] == nsPdbs[j];
      assert p in matched && matched[k] != p;
    }
    if p in matched && pod.Evictable() {
      forall n | n in Others(matched, p) ensures n in OverlapsAmong([pod], p, nsPdbs) {
        var k :| 0 <= k < |matched| && matched[k] != p && matched[k].name == n;
        assert matched[k] in nsPdbs;
        var j :| 0 <= j < |nsPdbs| && nsPdbs[j] == matched[k];
        assert Overlap([pod], p, nsPdbs[j]);
      }
    }
  }

  lemma PodElsewhere(pod: Pod, p: Pdb, nsPdbs: seq<Pdb>)
    requires p.ns != pod.ns || pod.Finished()
    ensures OwnersAmong([pod], p) == {} && OverlapsAmong([pod], p, nsPdbs) == {}
  {
  }

  method RecordPod(pod: Pod, byNS: ByNamespace)
    requires Grouped(byNS)
    modifies Budgets(byNS)`owners, Budgets(byNS)`overlaps
    ensures forall p :: p in Budgets(byNS) ==> p.owners == old(p.owners) + OwnersAmong([pod], p)
    ensures forall p :: p in Budgets(byNS) ==> p.overlaps == old(p.overlaps) + OverlapsAmong([pod], p, byNS[p.ns])
  {
    forall p | p in Budgets(byNS) && (p.ns != pod.ns || pod.Finished())
      ensures OwnersAmong([pod], p) == {} && OverlapsAmong([pod], p, byNS[p.ns]) == {}
    {
      PodElsewhere(pod, p, byNS[p.ns]);
    }
    var nsPdbs := Under(byNS, pod.ns);
    if nsPdbs == [] || pod.Finished() {
      return;
    }
    var matched := Matching(nsPdbs, pod.labels);
    forall p | p in nsPdbs
      ensures OwnersAmong([pod], p) == if p in matched then {pod.Owner()} else {}
      ensures OverlapsAmong([pod], p, nsPdbs) ==
              if p in matched && |matched| > 1 && pod.Evictable() then Others(matched, p) else {}
    {
      OnePod(pod, p, nsPdbs, matched);
    }
    if matched == [] {
      return;
    }
    AddOwner(matched, pod.Owner());
    if |matched| > 1 && !pod.phase.Pending? && !pod.deleting {
      AddOverlaps(matched);
    }
  }

  lemma FoundAfter(owners: set<OwnerRef>, overlaps: set<string>, a: seq<Pod>, b: seq<Pod>, p: Pdb, all: seq<Pdb>)
    ensures owners + OwnersAmong(a, p) + OwnersAmong(b, p) == owners + OwnersAmong(a + b, p)
    ensures overlaps + OverlapsAmong(a, p, all) + OverlapsAmong(b, p, all) == overlaps + OverlapsAmong(a + b, p, all)
  {
    OwnersConcat(a, b, p);
    OverlapsConcat(a, b, p, all);
  }

  method RecordPods(pods: seq<Pod>, byNS: ByNamespace)
    requires Grouped(byNS)
    modifies Budgets(byNS)`owners, Budgets(byNS)`overlaps
    ensures forall p :: p in Budgets(byNS) ==> p.owners == old(p.owners) + OwnersAmong(pods, p)
    ensures forall p :: p in Budgets(byNS) ==> p.overlaps == old(p.overlaps) + OverlapsAmong(pods, p, byNS[p.ns])
  {
    for i := 0 to |pods|
      invariant forall p :: p in Budgets(byNS) ==> p.owners == old(p.owners) + OwnersAmong(pods[..i], p)
      invariant forall p :: p in Budgets(byNS) ==>
                  p.overlaps == old(p.overlaps) + OverlapsAmong(pods[..i], p, byNS[p.ns])
    {
      RecordPod(pods[i], byNS);
      assert pods[..i + 1] == pods[..i] + [pods[i]];
      forall p | p in Budgets(byNS)
        ensures p.owners == old(p.owners) + OwnersAmong(pods[..i + 1], p)
        ensures p.overlaps == old(p.overlaps) + OverlapsAmong(pods[..i + 1], p, byNS[p.ns])
      {
        FoundAfter(old(p.owners), old(p.overlaps), pods[..i], [pods[i]], p, byNS[p.ns]);
      }
    }
    assert pods[..|pods|] == pods;
  }

  /** What the scan does with one answer of the server. */
  method ScanPage(response: Response<Pod>, byNS: ByNamespace) returns (next: string, err: Option<Error>)
    requires Grouped(byNS)
    modifies Budgets(byNS)`owners, Budgets(byNS)`overlaps
    ensures response.Failed? ==> err == Some(response.error)
    ensures response.Page? ==> err == None && next == response.next
    ensures forall p :: p in Budgets(byNS) ==> p.owners == old(p.owners) + OwnersAmong(PageItems(response), p)
    ensures forall p :: p in Budgets(byNS) ==>
              p.overlaps == old(p.overlaps) + OverlapsAmong(PageItems(response), p, byNS[p.ns])
  {
    if response.Failed? {
      return "", Some(response.error);
    }
    RecordPods(response.items, byNS);
    return response.next, None;
  }

  /** The scan: pages are processed as they arrive, so a failure leaves what the pages
      before it contributed. */
  method ScanPods(server: Server<Pod>, byNS: ByNamespace, ghost pages: seq<Response<Pod>>) returns (err: Option<Error>)
    requires Grouped(byNS) && Chain(server, "", pages)
    modifies Budgets(byNS)`owners, Budgets(byNS)`overlaps
    ensures err == Ending(pages)
    ensures forall p :: p in Budgets(byNS) ==> p.owners == old(p.owners) + OwnersAmong(Delivered(pages), p)
    ensures forall p :: p in Budgets(byNS) ==>
              p.overlaps == old(p.overlaps) + OverlapsAmong(Delivered(pages), p, byNS[p.ns])
  {
    var opts := Request(PAGE_SIZE, "");
    ghost var fed: seq<Pod>, left := [], pages;
    while true
      invariant opts.limit == PAGE_SIZE && Chain(server, opts.token, left)
      invariant fed + Delivered(left) == Delivered(pages) && Ending(left) == Ending(pages)
      invariant forall p :: p in Budgets(byNS) ==> p.owners == old(p.owners) + OwnersAmong(fed, p)
      invariant forall p :: p in Budgets(byNS) ==> p.overlaps == old(p.overlaps) + OverlapsAmong(fed, p, byNS[p.ns])
      decreases |left|
    {
      ChainStep(server, opts.token, left, fed);
      var response := server(opts);
      var next;
      next, err := ScanPage(response, byNS);
      ghost var more := fed + PageItems(response);
      forall p | p in Budgets(byNS)
        ensures p.owners == old(p.owners) + OwnersAmong(more, p)
        ensures p.overlaps == old(p.overlaps) + OverlapsAmong(more, p, byNS[p.ns])
      {
        FoundAfter(old(p.owners), old(p.overlaps), fed, PageItems(response), p, byNS[p.ns]);
      }
      fed, left := more, Rest(left);
      if err.Some? {
        assert fed == Delivered(pages);
        return err;
      }
      if next == "" {
        assert fed == Delivered(pages);
        return None;
      }
      opts := opts.(token := next);
    }
  }

  // ---- what the audit reports ----

  lemma OtherNamespacesDoNotOverlap(pods: seq<Pod>, p: Pdb, pdbs: seq<Pdb>)
    ensures OverlapsAmong(pods, p, InNamespace(pdbs, p.ns)) == OverlapsAmong(pods, p, pdbs)
  {
    var here := InNamespace(pdbs, p.ns);
    InNamespaceHas(pdbs, p.ns);
    forall n | n in OverlapsAmong(pods, p, pdbs) ensures n in OverlapsAmong(pods, p, here) {
      var j :| 0 <= j < |pdbs| && Overlap(pods, p, pdbs[j]) && pdbs[j].name == n;
      assert pdbs[j] in here;
      var k :| 0 <= k < |here| && here[k] == pdbs[j];
    }
    forall n | n in OverlapsAmong(pods, p, here) ensures n in OverlapsAmong(pods, p, pdbs) {
      var j :| 0 <= j < |here| && Overlap(pods, p, here[j]) && here[j].name == n;
      assert here[j] in pdbs;
      var k :| 0 <= k < |pdbs| && pdbs[k] == here[j];
    }
  }

  /** The pod counts for the budget: same namespace, selected, and not finished. */
  predicate CountsFor(pod: Pod, p: Pdb) {
    pod.ns == p.ns && p.selects(pod.labels) && pod.phase in {Pending, Running, Unknown}
  }

  /** The owners of one budget, in the pods' own fields: a pod with a controller brings in the
      controller, a pod without brings in itself, and nothing else is there. */
  ghost predicate OwnersOf(owners: set<OwnerRef>, pods: seq<Pod>, p: Pdb) {
    && (forall pod, k :: pod in pods && CountsFor(pod, p) && pod.controller == Some(k) ==>
          OwnerRef(pod.ns, k.kind, k.name, k.apiVersion) in owners)
    && (forall pod :: pod in pods && CountsFor(pod, p) && pod.controller == None ==>
          OwnerRef(pod.ns, "Pod", pod.name, "") in owners)
    && (forall r :: r in owners ==> exists pod :: pod in pods && CountsFor(pod, p) && Brings(pod, r))
  }

  predicate Brings(pod: Pod, r: OwnerRef) {
    && r.ns == pod.ns
    && match pod.controller
       case Some(k) => r.kind == k.kind && r.name == k.name && r.apiVersion == k.apiVersion
       case None => r.kind == "Pod" && r.name == pod.name && r.apiVersion == ""
  }

  /** A pod on which eviction would ask both budgets. */
  predicate Shared(pod: Pod, p: Pdb, q: Pdb) {
    CountsFor(pod, p) && CountsFor(pod, q) && pod.phase in {Running, Unknown} && !pod.deleting
  }

  /** The overlaps of one budget: the names of the other budgets that share a pod with it. */
  ghost predicate OverlapsOf(overlaps: set<string>, pods: seq<Pod>, p: Pdb, pdbs: seq<Pdb>) {
    forall name :: name in overlaps <==>
      exists q, pod :: q in pdbs && q != p && q.name == name && pod in pods && Shared(pod, p, q)
  }

  lemma OwnersExactly(pods: seq<Pod>, p: Pdb)
    ensures OwnersOf(OwnersAmong(pods, p), pods, p)
  {
    forall pod | pod in pods ensures CountsFor(pod, p) <==> p.Covers(pod) {
    }
    forall r | r in OwnersAmong(pods, p)
      ensures exists pod :: pod in pods && CountsFor(pod, p) && Brings(pod, r)
    {
      var i :| 0 <= i < |pods| && p.Covers(pods[i]) && pods[i].Owner() == r;
      assert pods[i] in pods && Brings(pods[i], r);
    }
  }

  lemma OverlapsExactly(pods: seq<Pod>, p: Pdb, pdbs: seq<Pdb>)
    ensures OverlapsOf(OverlapsAmong(pods, p, pdbs), pods, p, pdbs)
  {
    forall name | name in OverlapsAmong(pods, p, pdbs)
      ensures exists q, pod :: q in pdbs && q != p && q.name == name && pod in pods && Shared(pod, p, q)
    {
      var j :| 0 <= j < |pdbs| && Overlap(pods, p, pdbs[j]) && pdbs[j].name == name;
      var i :| 0 <= i < |pods| && pods[i].Evictable() && p.Covers(pods[i]) && pdbs[j].Covers(pods[i]);
      assert pods[i] in pods && pdbs[j] in pdbs && Shared(pods[i], p, pdbs[j]);
    }
    forall q, pod | q in pdbs && q != p && pod in pods && Shared(pod, p, q)
      ensures q.name in OverlapsAmong(pods, p, pdbs)
    {
      var i :| 0 <= i < |pods| && pods[i] == pod;
      var j :| 0 <= j < |pdbs| && pdbs[j] == q;
      assert Overlap(pods, p, pdbs[j]);
    }
  }

  /** The whole scan: on fresh budgets, owners and overlaps are exactly those that the
      delivered pods give rise to, whatever the pages. */
  method AuditPods(server: Server<Pod>, pdbs: seq<Pdb>, ghost pages: seq<Response<Pod>>) returns (err: Option<Error>)
    requires Chain(server, "", pages)
    requires forall p :: p in pdbs ==> p.owners == {} && p.overlaps == {}
    modifies pdbs
    ensures err == Ending(pages)
    ensures forall p :: p in pdbs ==> p.owners == OwnersAmong(Delivered(pages), p)
    ensures forall p :: p in pdbs ==> p.overlaps == OverlapsAmong(Delivered(pages), p, pdbs)
    ensures forall p :: p in pdbs ==> OwnersOf(p.owners, Delivered(pages), p)
    ensures forall p :: p in pdbs ==> OverlapsOf(p.overlaps, Delivered(pages), p, pdbs)
  {
    err := GroupAndScan(server, pdbs, pages);
    forall p | p in pdbs
      ensures OwnersOf(OwnersAmong(Delivered(pages), p), Delivered(pages), p)
      ensures OverlapsOf(OverlapsAmong(Delivered(pages), p, pdbs), Delivered(pages), p, pdbs)
    {
      OwnersExactly(Delivered(pages), p);
      OverlapsExactly(Delivered(pages), p, pdbs);
    }
  }

  /** Grouping and scanning together: the joins of all pods with all budgets. */
  method GroupAndScan(server: Server<Pod>, pdbs: seq<Pdb>, ghost pages: seq<Response<Pod>>) returns (err: Option<Error>)
    requires Chain(server, "", pages)
    requires forall p :: p in pdbs ==> p.owners == {} && p.overlaps == {}
    modifies pdbs
    ensures err == Ending(pages)
    ensures forall p :: p in pdbs ==> p.owners == OwnersAmong(Delivered(pages), p)
    ensures forall p :: p in pdbs ==> p.overlaps == OverlapsAmong(Delivered(pages), p, pdbs)
  {
    var byNS := GroupByNamespace(pdbs);
    forall ns | ns in byNS
      ensures byNS[ns] == InNamespace(pdbs, ns) && forall p :: p in byNS[ns] <==> p in pdbs && p.ns == ns
    {
      InNamespaceHas(pdbs, ns);
      assert Under(byNS, ns) == byNS[ns];
    }
    forall p | p in pdbs ensures p.ns in byNS && p in byNS[p.ns] && p in Budgets(byNS) {
      InNamespaceHas(pdbs, p.ns);
      assert p in Under(byNS, p.ns);
    }
    err := ScanPods(server, byNS, pages);
    forall p | p in pdbs
      ensures OverlapsAmong(Delivered(pages), p, InNamespace(pdbs, p.ns)) == OverlapsAmong(Delivered(pages), p, pdbs)
    {
      OtherNamespacesDoNotOverlap(Delivered(pages), p, pdbs);
    }
  }

  ghost predicate UniquelyNamed(pdbs: seq<Pdb>) {
    forall p, q :: p in pdbs && q in pdbs && p.ns == q.ns && p.name == q.name ==> p == q
  }

  /** With unique names, a reported name is a report about that one budget. */
  lemma NameTellsBudget(pods: seq<Pod>, pdbs: seq<Pdb>, p: Pdb, q: Pdb)
    requires UniquelyNamed(pdbs) && p in pdbs && q in pdbs && p.ns == q.ns
    ensures q.name in OverlapsAmong(pods, p, pdbs) <==> Overlap(pods, p, q)
  {
    if Overlap(pods, p, q) {
      var j :| 0 <= j < |pdbs| && pdbs[j] == q;
    }
    if q.name in OverlapsAmong(pods, p, pdbs) {
      var j :| 0 <= j < |pdbs| && Overlap(pods, p, pdbs[j]) && pdbs[j].name == q.name;
      assert pdbs[j] in pdbs && pdbs[j].ns == p.ns;
    }
  }

  /** Reported overlap is symmetric, and no budget overlaps itself. */
  lemma OverlapSymmetricIrreflexive(pods: seq<Pod>, pdbs: seq<Pdb>, p: Pdb, q: Pdb)
    requires UniquelyNamed(pdbs) && p in pdbs && q in pdbs && p.ns == q.ns
    ensures q.name in OverlapsAmong(pods, p, pdbs) <==> p.name in OverlapsAmong(pods, q, pdbs)
    ensures p.name !in OverlapsAmong(pods, p, pdbs)
  {
    NameTellsBudget(pods, pdbs, p, q);
    NameTellsBudget(pods, pdbs, q, p);
    NameTellsBudget(pods, pdbs, p, p);
  }

  /** Neither the order of the pods nor how they are split into pages matters. */
  lemma PagingDoesNotMatter(a: seq<Response<Pod>>, b: seq<Response<Pod>>, p: Pdb, pdbs: seq<Pdb>)
    requires forall pod :: pod in Delivered(a) <==> pod in Delivered(b)
    ensures OwnersAmong(Delivered(a), p) == OwnersAmong(Delivered(b), p)
    ensures OverlapsAmong(Delivered(a), p, pdbs) == OverlapsAmong(Delivered(b), p, pdbs)
  {
    MorePodsMoreFound(Delivered(a), Delivered(b), p, pdbs);
    MorePodsMoreFound(Delivered(b), Delivered(a), p, pdbs);
  }

  lemma MorePodsMoreFound(a: seq<Pod>, b: seq<Pod>, p: Pdb, pdbs: seq<Pdb>)
    requires forall pod :: pod in a ==> pod in b
    ensures OwnersAmong(a, p) <= OwnersAmong(b, p)
    ensures OverlapsAmong(a, p, pdbs) <= OverlapsAmong(b, p, pdbs)
  {
    forall o | o in OwnersAmong(a, p) ensures o in OwnersAmong(b, p) {
      var i :| 0 <= i < |a| && p.Covers(a[i]) && a[i].Owner() == o;
      assert a[i] in b;
      var k :| 0 <= k < |b| && b[k] == a[i];
    }
    forall j | 0 <= j < |pdbs| && Overlap(a, p, pdbs[j]) ensures Overlap(b, p, pdbs[j]) {
      var i :| 0 <= i < |a| && a[i].Evictable() && p.Covers(a[i]) && pdbs[j].Covers(a[i]);
      assert a[i] in b;
      var k :| 0 <= k < |b| && b[k] == a[i];
    }
  }
}
