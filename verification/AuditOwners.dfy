/** From the listed pods and workloads to the owners reported for one disruption budget. */
module AuditOwners {
  import opened Outcomes
  import opened Text
  import opened Listing
  import opened PodScan
  import opened Workloads
  import opened OwnerResolution

  /** Namespaces and controller kinds hold no separator. */
  predicate PlainPod(pod: Pod) {
    Plain(pod.ns) && (pod.controller.Some? ==> Plain(pod.controller.value.kind))
  }

  ghost predicate PlainListing(pods: seq<Pod>, workloads: seq<Workload>) {
    && (forall pod :: pod in pods ==> PlainPod(pod))
    && (forall w :: w in workloads ==> PlainWorkload(w))
  }

  lemma ListedIsPlain(pods: seq<Pod>, workloads: seq<Workload>, p: Pdb)
    requires PlainListing(pods, workloads)
    ensures PlainRefs(OwnersAmong(pods, p)) && WellIndexed(IndexOf(workloads))
  {
    IndexIsWell(workloads);
    assert Plain("Pod");
    forall r | r in OwnersAmong(pods, p) ensures PlainRef(r) {
      var i :| 0 <= i < |pods| && p.Covers(pods[i]) && pods[i].Owner() == r;
      assert pods[i] in pods;
    }
  }

  /** The entry stands for the owner of a pod the budget covers. */
  ghost predicate OwnsCovered(e: AuditOwner, t: Tables, pods: seq<Pod>, p: Pdb) {
    exists pod :: pod in pods && p.Covers(pod) && e == t.Entry(pod.Owner())
  }

  lemma RepresentsCovered(e: AuditOwner, t: Tables, pods: seq<Pod>, p: Pdb)
    ensures Represents(e, t, OwnersAmong(pods, p)) <==> OwnsCovered(e, t, pods, p)
  {
    if Represents(e, t, OwnersAmong(pods, p)) {
      var r :| r in OwnersAmong(pods, p) && e == t.Entry(r);
      var i :| 0 <= i < |pods| && p.Covers(pods[i]) && pods[i].Owner() == r;
      assert pods[i] in pods;
    }
    if OwnsCovered(e, t, pods, p) {
      var pod :| pod in pods && p.Covers(pod) && e == t.Entry(pod.Owner());
      assert pod.Owner() in OwnersAmong(pods, p);
    }
  }

  // ---- what is told, said of pods and tables alone ----

  /** What a pod brings in: its controller, or the Deployment its ReplicaSet belongs to, or
      itself. */
  ghost predicate TellsPod(out: seq<AuditOwner>, rsDeployment: map<string, string>, pod: Pod) {
    match pod.controller
    case None => Lists(out, "Pod", pod.name)
    case Some(k) =>
      var rs := pod.ns + "/" + k.name;
      if k.kind == "ReplicaSet" && rs in rsDeployment then Lists(out, "Deployment", rsDeployment[rs])
      else Lists(out, k.kind, k.name)
  }

  /** Every pod that counts for the budget is told, and nothing else is. */
  ghost predicate TellsPods(out: seq<AuditOwner>, t: Tables, pods: seq<Pod>, p: Pdb) {
    && (forall pod :: pod in pods && CountsFor(pod, p) ==> TellsPod(out, t.rsDeployment, pod))
    && (forall e :: e in out ==> exists pod :: pod in pods && CountsFor(pod, p) && StandsForPod(e, t, pod))
  }

  ghost predicate StandsForPod(e: AuditOwner, t: Tables, pod: Pod) {
    exists r :: Brings(pod, r) && StandsFor(e, t, r)
  }

  lemma PodIsTold(out: seq<AuditOwner>, t: Tables, refs: set<OwnerRef>, pods: seq<Pod>, p: Pdb, pod: Pod)
    requires TellsOwners(out, t, refs) && OwnersOf(refs, pods, p) && pod in pods && CountsFor(pod, p)
    ensures TellsPod(out, t.rsDeployment, pod)
  {
    match pod.controller
    case None =>
      assert "Pod" != "ReplicaSet";
      assert OwnerRef(pod.ns, "Pod", pod.name, "") in refs;
    case Some(k) =>
      assert OwnerRef(pod.ns, k.kind, k.name, k.apiVersion) in refs;
  }

  lemma OwnersTellPods(out: seq<AuditOwner>, t: Tables, refs: set<OwnerRef>, pods: seq<Pod>, p: Pdb)
    requires TellsOwners(out, t, refs) && OwnersOf(refs, pods, p)
    ensures TellsPods(out, t, pods, p)
  {
    forall pod | pod in pods && CountsFor(pod, p) ensures TellsPod(out, t.rsDeployment, pod) {
      PodIsTold(out, t, refs, pods, p, pod);
    }
    forall e | e in out ensures exists pod :: pod in pods && CountsFor(pod, p) && StandsForPod(e, t, pod) {
      var r :| r in refs && StandsFor(e, t, r);
      var pod :| pod in pods && CountsFor(pod, p) && Brings(pod, r);
    }
  }

  /** Sorted, each for an owner of a covered pod, every covered pod's owner under its resolved
      kind and name; and exactly those owners when versions agree. */
  ghost predicate OwnersReported(owners: seq<AuditOwner>, t: Tables, pods: seq<Pod>, p: Pdb) {
    && StrictlySorted(owners)
    && (forall e :: e in owners ==> OwnsCovered(e, t, pods, p))
    && (forall pod :: pod in pods && p.Covers(pod) ==>
          exists e :: e in owners && (e.kind, e.name) == t.Resolve(pod.Owner()))
    && (VersionsAgree(t, OwnersAmong(pods, p)) ==> forall e :: e in owners <==> OwnsCovered(e, t, pods, p))
  }

  /** The whole audit of one budget: scan, index and resolve. */
  method ReportOwners(server: Server<Pod>, pdbs: seq<Pdb>, workloads: seq<Workload>, rsDeployment: map<string, string>,
                      p: Pdb, ghost pages: seq<Response<Pod>>)
    returns (owners: seq<AuditOwner>, err: Option<Error>)
    requires Chain(server, "", pages) && p in pdbs
    requires forall b :: b in pdbs ==> b.owners == {} && b.overlaps == {}
    modifies pdbs
    ensures err == Ending(pages)
    ensures var t, pods := Tables(rsDeployment, IndexOf(workloads)), Delivered(pages);
            err == None && PlainListing(pods, workloads) ==>
              ByKindAndName(owners) && TellsPods(owners, t, pods, p) && OwnersReported(owners, t, pods, p)
  {
    err := AuditPods(server, pdbs, pages);
    if err.Some? {
      return [], err;
    }
    var index := IndexWorkloads(workloads);
    owners := ResolveOwners(Tables(rsDeployment, index), p.owners);
    if PlainListing(Delivered(pages), workloads) {
      ReportIs(owners, Tables(rsDeployment, index), p.owners, Delivered(pages), workloads, p);
    }
  }

  lemma ReportIs(owners: seq<AuditOwner>, t: Tables, refs: set<OwnerRef>, pods: seq<Pod>, workloads: seq<Workload>,
                 p: Pdb)
    requires PlainListing(pods, workloads) && t.index == IndexOf(workloads)
    requires refs == OwnersAmong(pods, p) && OwnersOf(refs, pods, p)
    requires exists order :: Enumerates(order, refs) && owners == Reported(t, order)
    requires WellIndexed(t.index) && PlainRefs(refs) ==> TellsOwners(owners, t, refs) && ByKindAndName(owners)
    ensures ByKindAndName(owners) && TellsPods(owners, t, pods, p) && OwnersReported(owners, t, pods, p)
  {
    var order :| Enumerates(order, refs) && owners == Reported(t, order);
    ListedIsPlain(pods, workloads, p);
    OwnersTellPods(owners, t, refs, pods, p);
    ReportRepresents(t, pods, workloads, p, order);
  }

  lemma ReportRepresents(t: Tables, pods: seq<Pod>, workloads: seq<Workload>, p: Pdb, order: seq<OwnerRef>)
    requires PlainListing(pods, workloads) && t.index == IndexOf(workloads) && Enumerates(order, OwnersAmong(pods, p))
    ensures OwnersReported(Reported(t, order), t, pods, p)
  {
    OwnersCovered(t, pods, workloads, p, order);
    forall pod | pod in pods && p.Covers(pod)
      ensures exists e :: e in Reported(t, order) && (e.kind, e.name) == t.Resolve(pod.Owner())
    {
      OwnerIsThere(t, pods, workloads, p, order, pod);
    }
    forall e | VersionsAgree(t, OwnersAmong(pods, p)) && OwnsCovered(e, t, pods, p) ensures e in Reported(t, order) {
      EntryIsThere(t, pods, workloads, p, order, e);
    }
  }

  lemma EntryIsThere(t: Tables, pods: seq<Pod>, workloads: seq<Workload>, p: Pdb, order: seq<OwnerRef>, e: AuditOwner)
    requires PlainListing(pods, workloads) && t.index == IndexOf(workloads) && Enumerates(order, OwnersAmong(pods, p))
    requires VersionsAgree(t, OwnersAmong(pods, p)) && OwnsCovered(e, t, pods, p)
    ensures e in Reported(t, order)
  {
    var pod :| pod in pods && p.Covers(pod) && e == t.Entry(pod.Owner());
    OwnerIsThere(t, pods, workloads, p, order, pod);
  }

  lemma OwnerIsThere(t: Tables, pods: seq<Pod>, workloads: seq<Workload>, p: Pdb, order: seq<OwnerRef>, pod: Pod)
    requires PlainListing(pods, workloads) && t.index == IndexOf(workloads) && Enumerates(order, OwnersAmong(pods, p))
    requires pod in pods && p.Covers(pod)
    ensures exists e :: e in Reported(t, order) && (e.kind, e.name) == t.Resolve(pod.Owner())
    ensures VersionsAgree(t, OwnersAmong(pods, p)) ==> t.Entry(pod.Owner()) in Reported(t, order)
  {
    ListedIsPlain(pods, workloads, p);
    assert pod.Owner() in OwnersAmong(pods, p);
    var e := ReportedUnder(t, OwnersAmong(pods, p), order, pod.Owner());
    if VersionsAgree(t, OwnersAmong(pods, p)) {
      OwnersShareNamespace(pods, p);
      EntryReported(t, OwnersAmong(pods, p), p.ns, order, pod.Owner());
    }
  }

  lemma OwnersCovered(t: Tables, pods: seq<Pod>, workloads: seq<Workload>, p: Pdb, order: seq<OwnerRef>)
    requires PlainListing(pods, workloads) && t.index == IndexOf(workloads) && Enumerates(order, OwnersAmong(pods, p))
    ensures StrictlySorted(Reported(t, order))
    ensures forall e :: e in Reported(t, order) ==> OwnsCovered(e, t, pods, p)
  {
    ListedIsPlain(pods, workloads, p);
    ReportedRepresents(t, OwnersAmong(pods, p), order);
    forall e | e in Reported(t, order) ensures OwnsCovered(e, t, pods, p) {
      RepresentsCovered(e, t, pods, p);
    }
  }

  /** For a budget's own references, the order in which the set is visited is irrelevant
      exactly when versions agree: nothing else is asked of the listed pods and workloads. */
  lemma BudgetOrderIndependentExactly(pods: seq<Pod>, workloads: seq<Workload>, p: Pdb,
                                      rsDeployment: map<string, string>)
    requires PlainListing(pods, workloads)
    ensures var t, refs := Tables(rsDeployment, IndexOf(workloads)), OwnersAmong(pods, p);
            OrderIndependent(t, refs) <==> VersionsAgree(t, refs)
  {
    ListedIsPlain(pods, workloads, p);
    OwnersShareNamespace(pods, p);
    OrderIndependentExactly(Tables(rsDeployment, IndexOf(workloads)), OwnersAmong(pods, p), p.ns);
  }

  // ---- the order of the listings ----

  /** Each workload is listed once. */
  ghost predicate ListedOnce(workloads: seq<Workload>) {
    forall v, w :: v in workloads && w in workloads && WorkloadKey(v) == WorkloadKey(w) ==> v == w
  }

  lemma IndexHas(workloads: seq<Workload>, k: string)
    requires ListedOnce(workloads)
    ensures k in IndexOf(workloads) <==> exists w :: w in workloads && WorkloadKey(w) == k
    ensures forall w :: w in workloads && WorkloadKey(w) == k ==> k in IndexOf(workloads) && IndexOf(workloads)[k] == w
  {
    IndexHoldsLast(workloads, k);
    if i :| 0 <= i < |workloads| && WorkloadKey(workloads[i]) == k {
      var last := LastFrom(workloads, k, i);
      assert workloads[last] in workloads;
    } else {
      assert forall i :: !LastUnder(workloads, k, i);
    }
  }

  lemma {:induction false} LastFrom(workloads: seq<Workload>, k: string, i: nat) returns (last: nat)
    requires i < |workloads| && WorkloadKey(workloads[i]) == k
    ensures LastUnder(workloads, k, last)
    decreases |workloads| - i
  {
    if j :| i < j < |workloads| && WorkloadKey(workloads[j]) == k {
      last := LastFrom(workloads, k, j);
    } else {
      last := i;
    }
  }

  lemma IndexIgnoresOrder(a: seq<Workload>, b: seq<Workload>)
    requires ListedOnce(a) && forall w :: w in a <==> w in b
    ensures IndexOf(a) == IndexOf(b)
  {
    forall k ensures k in IndexOf(a) <==> k in IndexOf(b) {
      IndexHas(a, k);
      IndexHas(b, k);
    }
    forall k | k in IndexOf(a) ensures IndexOf(a)[k] == IndexOf(b)[k] {
      IndexHas(a, k);
      IndexHas(b, k);
    }
  }

  /** Pods and workloads may be listed in any order and paged in any way, and the owners
      visited in any order: when versions agree, the report is the same. */
  lemma ReportIgnoresListings(pods: seq<Pod>, pods': seq<Pod>, workloads: seq<Workload>, workloads': seq<Workload>,
                              p: Pdb, rsDeployment: map<string, string>, order: seq<OwnerRef>, order': seq<OwnerRef>)
    requires PlainListing(pods, workloads) && ListedOnce(workloads)
    requires (forall pod :: pod in pods <==> pod in pods') && forall w :: w in workloads <==> w in workloads'
    requires VersionsAgree(Tables(rsDeployment, IndexOf(workloads)), OwnersAmong(pods, p))
    requires Enumerates(order, OwnersAmong(pods, p)) && Enumerates(order', OwnersAmong(pods', p))
    ensures Reported(Tables(rsDeployment, IndexOf(workloads)), order)
            == Reported(Tables(rsDeployment, IndexOf(workloads')), order')
  {
    MorePodsMoreFound(pods, pods', p, []);
    MorePodsMoreFound(pods', pods, p, []);
    IndexIgnoresOrder(workloads, workloads');
    BudgetOrderIndependentExactly(pods, workloads, p, rsDeployment);
  }
}
