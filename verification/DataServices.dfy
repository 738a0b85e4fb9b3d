/** The audit's data services that no operator manages: workloads recognised by image, with
    the replica StatefulSet of a Bitnami release folded into its master. */
module DataServices {
  import opened Outcomes
  import opened Text
  import opened Folds
  import opened PodScan
  import opened Workloads
  import opened Engines

  const STATEFUL_SET := "StatefulSet"
  const APP_NAME := "app.kubernetes.io/name"
  const INSTANCE := "app.kubernetes.io/instance"
  const COMPONENT := "app.kubernetes.io/component"
  const MASTER := "master"
  const REPLICA := "replica"
  const CACHE_ENGINES := ["redis", "rabbitmq"]

  // ---- the fold ----

  function Label(o: WorkloadObject, key: string): string {
    if key in o.data.labels then o.data.labels[key] else ""
  }

  /** The Helm release a top-level StatefulSet belongs to, or empty. */
  function Release(o: WorkloadObject): string {
    if o.data.kind != STATEFUL_SET || o.data.controllerKind.Some? || Label(o, INSTANCE) == "" then ""
    else o.data.ns + "/" + Label(o, APP_NAME) + "/" + Label(o, INSTANCE)
  }

  predicate Plays(o: WorkloadObject, role: string, release: string) {
    release != "" && Release(o) == release && Label(o, COMPONENT) == role
  }

  /** The last workload playing a role in a release. */
  function LastIn(ws: seq<WorkloadObject>, role: string, release: string): Option<WorkloadObject> {
    if ws == [] then None
    else if Plays(ws[|ws| - 1], role, release) then Some(ws[|ws| - 1])
    else LastIn(ws[..|ws| - 1], role, release)
  }

  lemma {:induction false} LastInPlays(ws: seq<WorkloadObject>, role: string, release: string)
    ensures LastIn(ws, role, release).None? <==> forall o :: o in ws ==> !Plays(o, role, release)
    ensures LastIn(ws, role, release).Some? ==>
              LastIn(ws, role, release).value in ws && Plays(LastIn(ws, role, release).value, role, release)
  {
    if ws != [] {
      LastInPlays(ws[..|ws| - 1], role, release);
      assert ws == ws[..|ws| - 1] + [ws[|ws| - 1]];
    }
  }

  /** Each release's last master, with the release's last replica. */
  function Fold(ws: seq<WorkloadObject>): map<WorkloadObject, WorkloadObject> {
    FoldAmong(ws, ws)
  }

  /** The same, with replicas taken from `seen` only. */
  function FoldAmong(ws: seq<WorkloadObject>, seen: seq<WorkloadObject>): map<WorkloadObject, WorkloadObject> {
    if seen == [] then map[]
    else
      var before, w := FoldAmong(ws, seen[..|seen| - 1]), seen[|seen| - 1];
      var master := LastIn(ws, MASTER, Release(w));
      if Plays(w, REPLICA, Release(w)) && master.Some? then before[master.value := w] else before
  }

  method BitnamiReplicas(ws: seq<WorkloadObject>) returns (out: map<WorkloadObject, WorkloadObject>)
    ensures out == Fold(ws)
  {
    var masters := Masters(ws);
    out := map[];
    for i := 0 to |ws|
      invariant out == FoldAmong(ws, ws[..i])
    {
      assert ws[..i + 1][..i] == ws[..i];
      var k := Release(ws[i]);
      if k != "" && Label(ws[i], COMPONENT) == REPLICA && k in masters {
        out := out[masters[k] := ws[i]];
      }
    }
    assert ws[..|ws|] == ws;
  }

  method Masters(ws: seq<WorkloadObject>) returns (masters: map<string, WorkloadObject>)
    ensures forall k :: k in masters <==> LastIn(ws, MASTER, k).Some?
    ensures forall k :: k in masters ==> LastIn(ws, MASTER, k) == Some(masters[k])
  {
    masters := map[];
    for i := 0 to |ws|
      invariant forall k :: k in masters <==> LastIn(ws[..i], MASTER, k).Some?
      invariant forall k :: k in masters ==> LastIn(ws[..i], MASTER, k) == Some(masters[k])
    {
      assert ws[..i + 1][..i] == ws[..i];
      var k := Release(ws[i]);
      if k != "" && Label(ws[i], COMPONENT) == MASTER {
        masters := masters[k := ws[i]];
      }
    }
    assert ws[..|ws|] == ws;
  }

  ghost predicate IsLastMaster(ws: seq<WorkloadObject>, m: WorkloadObject) {
    LastIn(ws, MASTER, Release(m)) == Some(m)
  }

  lemma {:induction false} FoldAmongIs(ws: seq<WorkloadObject>, seen: seq<WorkloadObject>)
    ensures forall m :: m in FoldAmong(ws, seen) <==> IsLastMaster(ws, m) && LastIn(seen, REPLICA, Release(m)).Some?
    ensures forall m :: m in FoldAmong(ws, seen) ==> FoldAmong(ws, seen)[m] == LastIn(seen, REPLICA, Release(m)).value
  {
    if seen != [] {
      var w := seen[|seen| - 1];
      FoldAmongIs(ws, seen[..|seen| - 1]);
      OnlyMaster(ws, Release(w));
      var after, played := FoldAmong(ws, seen), Plays(w, REPLICA, Release(w));
      forall m | m in after ensures after[m] == LastIn(seen, REPLICA, Release(m)).value {
        assert IsLastMaster(ws, m) &&
               (played && LastIn(ws, MASTER, Release(w)) == Some(m) <==> played && Release(m) == Release(w));
      }
    }
  }

  lemma OnlyMaster(ws: seq<WorkloadObject>, release: string)
    ensures forall m :: IsLastMaster(ws, m) ==> (Release(m) == release <==> LastIn(ws, MASTER, release) == Some(m))
    ensures LastIn(ws, MASTER, release).Some? ==>
              var m := LastIn(ws, MASTER, release).value; IsLastMaster(ws, m) && Release(m) == release
  {
    LastInPlays(ws, MASTER, release);
    forall m | IsLastMaster(ws, m) ensures Release(m) == release <==> LastIn(ws, MASTER, release) == Some(m) {
      LastInPlays(ws, MASTER, Release(m));
    }
  }

  /** The fold pairs each release's last master with its last replica. */
  lemma FoldIs(ws: seq<WorkloadObject>, m: WorkloadObject)
    ensures m in Fold(ws) <==> IsLastMaster(ws, m) && LastIn(ws, REPLICA, Release(m)).Some?
    ensures m in Fold(ws) ==> m in ws && Fold(ws)[m] == LastIn(ws, REPLICA, Release(m)).value
  {
    FoldAmongIs(ws, ws);
    LastInPlays(ws, MASTER, Release(m));
  }

  // ---- the fold, said of labels alone ----

  /** A top-level StatefulSet of some release, labelled with the role. */
  predicate InRole(o: WorkloadObject, role: string) {
    var labels := o.data.labels;
    && o.data.kind == "StatefulSet" && o.data.controllerKind == None
    && "app.kubernetes.io/instance" in labels && labels["app.kubernetes.io/instance"] != ""
    && "app.kubernetes.io/component" in labels && labels["app.kubernetes.io/component"] == role
  }

  /** One namespace, one app name, which may be missing, and one instance. */
  predicate OneRelease(a: WorkloadObject, b: WorkloadObject) {
    && a.data.ns == b.data.ns
    && Label(a, "app.kubernetes.io/name") == Label(b, "app.kubernetes.io/name")
    && Label(a, "app.kubernetes.io/instance") == Label(b, "app.kubernetes.io/instance")
  }

  /** Namespaces and label values of a cluster hold no separator. */
  predicate PlainLabels(o: WorkloadObject) {
    Plain(o.data.ns) && Plain(Label(o, "app.kubernetes.io/name")) && Plain(Label(o, "app.kubernetes.io/instance"))
  }

  lemma RoleIs(o: WorkloadObject, role: string)
    requires role != ""
    ensures Plays(o, role, Release(o)) <==> InRole(o, role)
    ensures forall release :: Plays(o, role, release) ==> release == Release(o)
  {
  }

  lemma ReleaseIs(a: WorkloadObject, b: WorkloadObject, role: string, other: string)
    requires PlainLabels(a) && PlainLabels(b) && InRole(a, role) && InRole(b, other)
    ensures Release(a) == Release(b) <==> OneRelease(a, b)
  {
    var app, instance := Label(a, APP_NAME), Label(a, INSTANCE);
    var app', instance' := Label(b, APP_NAME), Label(b, INSTANCE);
    assert Release(a) == a.data.ns + "/" + (app + "/" + instance);
    assert Release(b) == b.data.ns + "/" + (app' + "/" + instance');
    if Release(a) == Release(b) {
      JoinInjective(a.data.ns, app + "/" + instance, b.data.ns, app' + "/" + instance');
      JoinInjective(app, instance, app', instance');
    }
  }

  /** The last of its release in the role, in listing order. */
  ghost predicate LastInRole(ws: seq<WorkloadObject>, o: WorkloadObject, role: string) {
    && InRole(o, role)
    && exists i :: 0 <= i < |ws| && ws[i] == o &&
         forall j :: i < j < |ws| ==> !(InRole(ws[j], role) && OneRelease(ws[j], o))
  }

  ghost predicate PlaysLast(ws: seq<WorkloadObject>, role: string, release: string, o: WorkloadObject, i: int) {
    && 0 <= i < |ws| && ws[i] == o && Plays(o, role, release)
    && forall j :: i < j < |ws| ==> !Plays(ws[j], role, release)
  }

  lemma {:induction false} LastInIs(ws: seq<WorkloadObject>, role: string, release: string, o: WorkloadObject)
    ensures LastIn(ws, role, release) == Some(o) <==> exists i :: PlaysLast(ws, role, release, o, i)
  {
    if ws != [] {
      var init, n := ws[..|ws| - 1], |ws| - 1;
      LastInIs(init, role, release, o);
      if Plays(ws[n], role, release) {
        assert PlaysLast(ws, role, release, ws[n], n);
      } else {
        assert forall i :: PlaysLast(ws, role, release, o, i) <==> PlaysLast(init, role, release, o, i);
      }
    }
  }

  lemma LastPlaysIs(ws: seq<WorkloadObject>, role: string, o: WorkloadObject)
    requires role != "" && forall w :: w in ws ==> PlainLabels(w)
    ensures Release(o) != "" && LastIn(ws, role, Release(o)) == Some(o) <==> LastInRole(ws, o, role)
  {
    LastInIs(ws, role, Release(o), o);
    RoleIs(o, role);
    if InRole(o, role) && o in ws {
      forall j | 0 <= j < |ws| ensures Plays(ws[j], role, Release(o)) <==> InRole(ws[j], role) && OneRelease(ws[j], o) {
        assert ws[j] in ws;
        RoleIs(ws[j], role);
        if InRole(ws[j], role) {
          ReleaseIs(ws[j], o, role, role);
        }
      }
    }
  }

  /** For every list and every two workloads: the one is folded into the other if and only if
      they are the last replica and the last master of one release. */
  lemma FoldExactly(ws: seq<WorkloadObject>, m: WorkloadObject, r: WorkloadObject)
    requires forall o :: o in ws ==> PlainLabels(o)
    ensures m in Fold(ws) && Fold(ws)[m] == r <==>
              LastInRole(ws, m, "master") && LastInRole(ws, r, "replica") && OneRelease(m, r)
  {
    FoldIs(ws, m);
    LastPlaysIs(ws, "master", m);
    LastPlaysIs(ws, "replica", r);
    LastInPlays(ws, REPLICA, Release(m));
    LastInPlays(ws, MASTER, Release(m));
    if InRole(m, "master") && InRole(r, "replica") && m in ws && r in ws {
      ReleaseIs(m, r, "master", "replica");
    }
    if m in Fold(ws) && Fold(ws)[m] == r {
      RoleIs(r, "replica");
      RoleIs(m, "master");
    }
  }

  /** A folded pair: a master and a replica of one release, both top-level StatefulSets. */
  lemma FoldedPair(ws: seq<WorkloadObject>, m: WorkloadObject)
    requires m in Fold(ws)
    ensures m in ws && Fold(ws)[m] in ws && Plays(m, MASTER, Release(m)) && Plays(Fold(ws)[m], REPLICA, Release(m))
    ensures InRole(m, "master") && InRole(Fold(ws)[m], "replica")
    ensures Fold(ws)[m].data.controllerKind.None? && m.data.controllerKind.None?
    ensures m !in Fold(ws).Values
  {
    FoldIs(ws, m);
    LastInPlays(ws, MASTER, Release(m));
    LastInPlays(ws, REPLICA, Release(m));
    assert |MASTER| != |REPLICA|;
    if m in Fold(ws).Values {
      var other :| other in Fold(ws) && Fold(ws)[other] == m;
      FoldIs(ws, other);
      LastInPlays(ws, REPLICA, Release(other));
    }
  }

  /** No replica is folded into two masters, and a release has at most one folded pair,
      however many masters and replicas it has. */
  lemma FoldInjective(ws: seq<WorkloadObject>, m: WorkloadObject, n: WorkloadObject)
    requires m in Fold(ws) && n in Fold(ws)
    requires Fold(ws)[m] == Fold(ws)[n] || Release(m) == Release(n)
    ensures m == n
  {
    FoldedPair(ws, m);
    FoldedPair(ws, n);
    FoldIs(ws, m);
    FoldIs(ws, n);
  }

  /** A release with a master and a replica has a folded pair. */
  lemma FoldComplete(ws: seq<WorkloadObject>, m: WorkloadObject, r: WorkloadObject, release: string)
    requires m in ws && r in ws && Plays(m, MASTER, release) && Plays(r, REPLICA, release)
    ensures exists k :: k in Fold(ws) && Release(k) == release
  {
    LastInPlays(ws, MASTER, release);
    LastInPlays(ws, REPLICA, release);
    var k := LastIn(ws, MASTER, release).value;
    FoldIs(ws, k);
  }

  // ---- the instances ----

  datatype Verdict = Verdict(engine: string, quorum: bool)

  datatype Instance = Instance(ns: string, name: string, kind: string, engine: string, quorum: bool,
                               replicas: int, readReplicas: int, replicaWorkload: string,
                               pdbs: seq<string>, images: seq<string>, ignore: string)

  /** What an audit was asked to report: quorum keywords, and the budgets by namespace. */
  datatype Audit = Audit(quorumImages: seq<string>, byNS: ByNamespace) {
    function Keywords(): seq<string> {
      CACHE_ENGINES + quorumImages
    }

    function Judge(w: Workload): Option<Verdict> {
      var engine := Engine(w.images, Keywords());
      var quorum := w.kind == STATEFUL_SET && engine in quorumImages;
      if engine == "" || (!quorum && engine !in CACHE_ENGINES) then None else Some(Verdict(engine, quorum))
    }

    /** A data service that no operator manages. */
    predicate Detected(o: WorkloadObject) {
      o.data.controllerKind.None? && Judge(o.data).Some?
    }

    function InstanceOf(o: WorkloadObject, replicaOf: map<WorkloadObject, WorkloadObject>): Instance
      requires Detected(o)
    {
      var w, v := o.data, Judge(o.data).value;
      Instance(w.ns, w.name, w.kind, v.engine, v.quorum, w.replicas,
               if o in replicaOf then replicaOf[o].data.replicas else 0,
               if o in replicaOf then replicaOf[o].data.name else "",
               Covering(Under(byNS, w.ns), w.template), w.images, w.ignore)
    }

    predicate Shown(o: WorkloadObject, replicaOf: map<WorkloadObject, WorkloadObject>) {
      Detected(o) && o !in replicaOf.Values
    }

    function Listed(ws: seq<WorkloadObject>, replicaOf: map<WorkloadObject, WorkloadObject>): seq<Instance> {
      if ws == [] then []
      else
        var init, last := ws[..|ws| - 1], ws[|ws| - 1];
        Listed(init, replicaOf) + if Shown(last, replicaOf) then [InstanceOf(last, replicaOf)] else []
    }
  }

  function Covering(pdbs: seq<Pdb>, template: Labels): seq<string> {
    if pdbs == [] then []
    else
      var last := pdbs[|pdbs| - 1];
      Covering(pdbs[..|pdbs| - 1], template) + if last.selects(template) then [last.name] else []
  }

  method CoveringPdbs(pdbs: seq<Pdb>, template: Labels) returns (out: seq<string>)
    ensures out == Covering(pdbs, template)
  {
    out := [];
    for i := 0 to |pdbs|
      invariant out == Covering(pdbs[..i], template)
    {
      assert pdbs[..i + 1][..i] == pdbs[..i];
      if pdbs[i].selects(template) {
        out := out + [pdbs[i].name];
      }
    }
    assert pdbs[..|pdbs|] == pdbs;
  }

  /** The budgets reported for a template are those that cover an unfinished pod made from
      it, as long as no budget selects by what the pod carries beyond the template. */
  lemma {:induction false} CoveringCoversPods(pdbs: seq<Pdb>, template: Labels, pod: Pod, name: string)
    requires !pod.Finished()
    requires forall p :: p in pdbs && p.ns == pod.ns ==> (p.selects(pod.labels) <==> p.selects(template))
    ensures name in Covering(InNamespace(pdbs, pod.ns), template) <==>
              exists p :: p in pdbs && p.name == name && p.Covers(pod)
  {
    if pdbs != [] {
      var init, last := pdbs[..|pdbs| - 1], pdbs[|pdbs| - 1];
      CoveringCoversPods(init, template, pod, name);
      assert pdbs == init + [last];
      var before := InNamespace(init, pod.ns);
      if last.ns == pod.ns {
        assert (before + [last])[..|before|] == before;
      } else {
        assert before + [] == before;
      }
    }
  }

  method ImageInstances(ws: seq<WorkloadObject>, audit: Audit) returns (out: seq<Instance>)
    ensures out == audit.Listed(ws, Fold(ws))
  {
    var replicaOf := BitnamiReplicas(ws);
    var folded := replicaOf.Values;
    out := [];
    for i := 0 to |ws|
      invariant out == audit.Listed(ws[..i], replicaOf)
    {
      assert ws[..i + 1][..i] == ws[..i];
      var o := ws[i];
      if o.data.controllerKind.Some? || o in folded {
        continue;
      }
      var engine := DetectEngine(o.data.images, audit.Keywords());
      if engine == "" {
        continue;
      }
      var quorum := o.data.kind == STATEFUL_SET && engine in audit.quorumImages;
      if !quorum && engine !in CACHE_ENGINES {
        continue;
      }
      var pdbs := CoveringPdbs(Under(audit.byNS, o.data.ns), o.data.template);
      var inst := Instance(o.data.ns, o.data.name, o.data.kind, engine, quorum, o.data.replicas, 0, "",
                           pdbs, o.data.images, o.data.ignore);
      if o in replicaOf {
        inst := inst.(readReplicas := replicaOf[o].data.replicas, replicaWorkload := replicaOf[o].data.name);
      }
      out := out + [inst];
    }
    assert ws[..|ws|] == ws;
  }

  /** A workload is recognised exactly when its engine is a cache, or names anything at all
      and the workload is a StatefulSet; only the latter can be a quorum system. */
  lemma JudgeIs(audit: Audit, w: Workload)
    ensures var engine := Engine(w.images, audit.Keywords());
            && (audit.Judge(w).Some? <==> engine != "" && (engine in ["redis", "rabbitmq"] || w.kind == "StatefulSet"))
            && (audit.Judge(w).Some? ==>
                  && IsEngine(w.images, ["redis", "rabbitmq"] + audit.quorumImages, audit.Judge(w).value.engine)
                  && (audit.Judge(w).value.quorum <==> w.kind == "StatefulSet" && engine in audit.quorumImages))
  {
    EngineIs(w.images, audit.Keywords());
    EngineAtLeast(w.images, audit.Keywords(), w.images, audit.Keywords());
  }

  /** The instance tells of the workload, and of the replica set folded into it. */
  ghost predicate Tells(inst: Instance, o: WorkloadObject, ws: seq<WorkloadObject>, audit: Audit) {
    && inst.ns == o.data.ns && inst.name == o.data.name && inst.kind == o.data.kind
    && inst.replicas == o.data.replicas && inst.images == o.data.images && inst.ignore == o.data.ignore
    && IsEngine(o.data.images, ["redis", "rabbitmq"] + audit.quorumImages, inst.engine) && inst.engine != ""
    && (inst.quorum <==> o.data.kind == "StatefulSet" && inst.engine in audit.quorumImages)
    && (inst.quorum || inst.engine in ["redis", "rabbitmq"])
    && (o !in Fold(ws) ==> inst.readReplicas == 0 && inst.replicaWorkload == "")
    && (o in Fold(ws) ==> inst.readReplicas == Fold(ws)[o].data.replicas
                          && inst.replicaWorkload == Fold(ws)[o].data.name)
    && inst.pdbs == Covering(Under(audit.byNS, o.data.ns), o.data.template)
  }

  lemma InstanceTells(o: WorkloadObject, ws: seq<WorkloadObject>, audit: Audit)
    requires audit.Detected(o)
    ensures Tells(audit.InstanceOf(o, Fold(ws)), o, ws, audit)
  {
    JudgeIs(audit, o.data);
  }

  /** Each instance tells of a workload that has no controller and is folded into no other. */
  lemma InstancesTell(audit: Audit, ws: seq<WorkloadObject>)
    ensures forall inst :: inst in audit.Listed(ws, Fold(ws)) ==>
              exists o :: o in ws && o.data.controllerKind == None && Tells(inst, o, ws, audit)
                          && forall m :: m in Fold(ws) ==> Fold(ws)[m] != o
  {
    InstancesAre(audit, ws, Fold(ws));
    forall inst | inst in audit.Listed(ws, Fold(ws))
      ensures exists o :: o in ws && o.data.controllerKind == None && Tells(inst, o, ws, audit)
                          && forall m :: m in Fold(ws) ==> Fold(ws)[m] != o
    {
      var o :| o in ws && audit.Shown(o, Fold(ws)) && inst == audit.InstanceOf(o, Fold(ws));
      InstanceTells(o, ws, audit);
      assert forall m :: m in Fold(ws) ==> Fold(ws)[m] in Fold(ws).Values;
    }
  }

  /** The instances are those of the shown workloads, and nothing else. */
  lemma {:induction false} InstancesAre(audit: Audit, ws: seq<WorkloadObject>,
                                        replicaOf: map<WorkloadObject, WorkloadObject>)
    ensures forall inst :: inst in audit.Listed(ws, replicaOf) <==>
              exists o :: o in ws && audit.Shown(o, replicaOf) && inst == audit.InstanceOf(o, replicaOf)
  {
    if ws != [] {
      InstancesAre(audit, ws[..|ws| - 1], replicaOf);
      assert ws == ws[..|ws| - 1] + [ws[|ws| - 1]];
    }
  }

  /** A detected master's instance carries the size and name of its release's last replica. */
  lemma MasterInstance(audit: Audit, ws: seq<WorkloadObject>, m: WorkloadObject)
    requires m in ws && audit.Detected(m) && m in Fold(ws)
    ensures audit.InstanceOf(m, Fold(ws)) in audit.Listed(ws, Fold(ws))
    ensures var r := LastIn(ws, REPLICA, Release(m));
            && r.Some? && Release(r.value) == Release(m)
            && audit.InstanceOf(m, Fold(ws)).readReplicas == r.value.data.replicas
            && audit.InstanceOf(m, Fold(ws)).replicaWorkload == r.value.data.name
  {
    FoldIs(ws, m);
    FoldedPair(ws, m);
    InstancesAre(audit, ws, Fold(ws));
  }

  // ---- nothing is lost ----

  ghost function DetectedIn(ws: seq<WorkloadObject>, audit: Audit): set<WorkloadObject> {
    set o | o in ws && audit.Detected(o)
  }

  ghost function ShownIn(ws: seq<WorkloadObject>, audit: Audit,
                         replicaOf: map<WorkloadObject, WorkloadObject>): set<WorkloadObject> {
    set o | o in ws && audit.Shown(o, replicaOf)
  }

  /** The replicas recorded on the shown masters. */
  ghost function RecordedIn(ws: seq<WorkloadObject>, audit: Audit,
                            replicaOf: map<WorkloadObject, WorkloadObject>): set<WorkloadObject> {
    set m | m in ws && audit.Shown(m, replicaOf) && m in replicaOf :: replicaOf[m]
  }

  /** The one master on whose instance `r` is recorded. */
  ghost predicate RecordedOn(ws: seq<WorkloadObject>, audit: Audit, r: WorkloadObject, m: WorkloadObject) {
    m in Fold(ws) && Fold(ws)[m] == r && audit.Shown(m, Fold(ws))
  }

  ghost predicate Accounted(ws: seq<WorkloadObject>, audit: Audit, o: WorkloadObject) {
    if audit.Shown(o, Fold(ws)) then forall m :: m in ws ==> !RecordedOn(ws, audit, o, m)
    else
      exists m :: m in ws && RecordedOn(ws, audit, o, m) &&
                  forall n :: n in ws && RecordedOn(ws, audit, o, n) ==> n == m
  }

  /** A folded replica is only dropped when its master is not a data service itself: every
      detected workload is an instance or the recorded replica of exactly one master, if and
      only if no detected replica is folded into an undetected master. */
  lemma NothingLostExactly(ws: seq<WorkloadObject>, audit: Audit)
    ensures (forall o :: o in ws && audit.Detected(o) ==> Accounted(ws, audit, o)) <==>
            (forall m :: m in Fold(ws) && audit.Detected(Fold(ws)[m]) ==> audit.Detected(m))
  {
    if forall o :: o in ws && audit.Detected(o) ==> Accounted(ws, audit, o) {
      forall m | m in Fold(ws) && audit.Detected(Fold(ws)[m]) ensures audit.Detected(m) {
        var r := Fold(ws)[m];
        FoldedPair(ws, m);
        assert r in Fold(ws).Values && Accounted(ws, audit, r);
        var n :| n in ws && RecordedOn(ws, audit, r, n);
        FoldInjective(ws, m, n);
      }
    }
    if forall m :: m in Fold(ws) && audit.Detected(Fold(ws)[m]) ==> audit.Detected(m) {
      forall o | o in ws && audit.Detected(o) ensures Accounted(ws, audit, o) {
        if o in Fold(ws).Values {
          var m :| m in Fold(ws) && Fold(ws)[m] == o;
          FoldedPair(ws, m);
          assert RecordedOn(ws, audit, o, m);
          forall n | n in ws && RecordedOn(ws, audit, o, n) ensures n == m {
            FoldInjective(ws, m, n);
          }
        }
      }
    }
  }

  // ---- a replica that disappears ----

  /** The quorum keywords of a server that is given none. */
  const DEFAULT_QUORUM_IMAGES := ["rabbitmq", "etcd", "zookeeper", "kafka", "consul", "nats", "mongo",
                                  "redis-sentinel", "elasticsearch"]

  lemma LongKeywordsNameNothing(images: seq<string>, keywords: seq<string>, n: nat)
    requires forall i :: 0 <= i < |images| ==> |ImageName(images[i])| < n
    requires forall k :: 0 <= k < |keywords| ==> n <= |keywords[k]|
    ensures Engine(images, keywords) == ""
  {
    EngineIs(images, keywords);
  }

  /** An image whose name is a keyword runs that engine, whatever the other keywords are. */
  lemma ImageIsEngine(name: string, keywords: seq<string>)
    requires name != "" && name in keywords && ImageName(name) == name && !IsExporter(name)
    ensures Engine([name], keywords) == name
  {
    EngineIs([name], keywords);
    ContainsItself(name);
    var k :| 0 <= k < |keywords| && keywords[k] == name;
    assert Names([name], keywords, 0, k);
    var e := Engine([name], keywords);
    var i, l :| Names([name], keywords, i, l) && keywords[l] == e && FirstLongest([name], keywords, i, l);
    var at :| 0 <= at <= |name| - |e| && OccursAt(name, e, at);
    assert |e| == |name| && at == 0 && name[0..|name|] == name;
  }

  function Member(component: string, image: string): Workload {
    Workload(STATEFUL_SET, "shop", component, 1, [image],
             map[APP_NAME := "redis", INSTANCE := "cart", COMPONENT := component], map[], None, "")
  }

  lemma MemberPlays(o: WorkloadObject, component: string, image: string)
    requires o.data == Member(component, image)
    ensures Plays(o, component, "shop/redis/cart")
  {
    assert |APP_NAME| == 22 && |INSTANCE| == 26 && |COMPONENT| == 27;
    assert "shop" + "/" + "redis" + "/" + "cart" == "shop/redis/cart";
  }

  lemma RedisIsEngine(keywords: seq<string>)
    requires "redis" in keywords
    ensures Engine(["redis"], keywords) == "redis"
  {
    PlainImageName("redis");
    LacksChar("redis", EXPORTER, 1);
    ImageIsEngine("redis", keywords);
  }

  lemma DbIsNoEngine(audit: Audit)
    requires audit.quorumImages == DEFAULT_QUORUM_IMAGES
    ensures Engine(["db"], audit.Keywords()) == ""
  {
    PlainImageName("db");
    LongKeywordsNameNothing(["db"], audit.Keywords(), 4);
  }

  lemma PairFolds(m: WorkloadObject, r: WorkloadObject, release: string)
    requires Plays(m, MASTER, release) && Plays(r, REPLICA, release)
    ensures m in Fold([m, r]) && Fold([m, r])[m] == r
  {
    assert |MASTER| != |REPLICA|;
    assert [m, r][..1] == [m] && [m][..0] == [];
    assert LastIn([m], MASTER, release) == Some(m);
    FoldIs([m, r], m);
  }

  /** A replica set with a known image, folded into a master whose image has another name,
      is on no instance, and the master is none itself. */
  lemma ReplicaDisappears(audit: Audit, m: WorkloadObject, r: WorkloadObject)
    requires audit.quorumImages == DEFAULT_QUORUM_IMAGES
    requires m.data == Member(MASTER, "db") && r.data == Member(REPLICA, "redis")
    ensures var ws := [m, r];
            && m in Fold(ws) && Fold(ws)[m] == r && audit.Detected(r) && !audit.Detected(m)
            && !Accounted(ws, audit, r) && audit.Listed(ws, Fold(ws)) == []
  {
    var ws := [m, r];
    MemberPlays(m, MASTER, "db");
    MemberPlays(r, REPLICA, "redis");
    PairFolds(m, r, "shop/redis/cart");
    DbIsNoEngine(audit);
    RedisIsEngine(audit.Keywords());
    assert CACHE_ENGINES[0] == "redis" && "redis" in audit.Keywords();
    assert ws[..1] == [m] && [m][..0] == [] && r in Fold(ws).Values;
    assert audit.Listed([m], Fold(ws)) == [];
  }

  // ---- conservation ----

  function Replicas(): WorkloadObject -> int {
    (o: WorkloadObject) => o.data.replicas
  }

  ghost function ReplicaSum(s: set<WorkloadObject>): int {
    Sum(s, Replicas())
  }

  function Total(instances: seq<Instance>): int {
    if instances == [] then 0
    else
      var last := instances[|instances| - 1];
      Total(instances[..|instances| - 1]) + last.replicas + last.readReplicas
  }

  ghost predicate Distinct(ws: seq<WorkloadObject>) {
    forall i, j :: 0 <= i < j < |ws| ==> ws[i] != ws[j]
  }

  ghost predicate Injective(replicaOf: map<WorkloadObject, WorkloadObject>) {
    forall m, n :: m in replicaOf && n in replicaOf && replicaOf[m] == replicaOf[n] ==> m == n
  }

  lemma {:induction false} TotalIsShownAndRecorded(ws: seq<WorkloadObject>, audit: Audit,
                                                   replicaOf: map<WorkloadObject, WorkloadObject>)
    requires Distinct(ws) && Injective(replicaOf)
    ensures Total(audit.Listed(ws, replicaOf)) ==
            ReplicaSum(ShownIn(ws, audit, replicaOf)) + ReplicaSum(RecordedIn(ws, audit, replicaOf))
  {
    if ws != [] {
      TotalIsShownAndRecorded(ws[..|ws| - 1], audit, replicaOf);
      ShownOneMore(ws, audit, replicaOf);
      RecordedOneMore(ws, audit, replicaOf);
      TotalOneMore(ws, audit, replicaOf);
    }
  }

  lemma TotalOneMore(ws: seq<WorkloadObject>, audit: Audit, replicaOf: map<WorkloadObject, WorkloadObject>)
    requires ws != []
    ensures var last := ws[|ws| - 1];
            Total(audit.Listed(ws, replicaOf)) == Total(audit.Listed(ws[..|ws| - 1], replicaOf)) +
            if audit.Shown(last, replicaOf) then
              last.data.replicas + if last in replicaOf then replicaOf[last].data.replicas else 0
            else 0
  {
    var last, list := ws[|ws| - 1], audit.Listed(ws[..|ws| - 1], replicaOf);
    if audit.Shown(last, replicaOf) {
      assert (list + [audit.InstanceOf(last, replicaOf)])[..|list|] == list;
    } else {
      assert list + [] == list;
    }
  }

  lemma ShownOneMore(ws: seq<WorkloadObject>, audit: Audit, replicaOf: map<WorkloadObject, WorkloadObject>)
    requires ws != [] && Distinct(ws)
    ensures ReplicaSum(ShownIn(ws, audit, replicaOf)) == ReplicaSum(ShownIn(ws[..|ws| - 1], audit, replicaOf)) +
            if audit.Shown(ws[|ws| - 1], replicaOf) then ws[|ws| - 1].data.replicas else 0
  {
    var init, last := ws[..|ws| - 1], ws[|ws| - 1];
    var before, after := ShownIn(init, audit, replicaOf), ShownIn(ws, audit, replicaOf);
    assert ws == init + [last];
    if audit.Shown(last, replicaOf) {
      assert after == before + {last};
      SumAdds(before, Replicas(), last);
    } else {
      assert after == before;
    }
  }

  lemma RecordedOneMore(ws: seq<WorkloadObject>, audit: Audit, replicaOf: map<WorkloadObject, WorkloadObject>)
    requires ws != [] && Distinct(ws) && Injective(replicaOf)
    ensures ReplicaSum(RecordedIn(ws, audit, replicaOf)) == ReplicaSum(RecordedIn(ws[..|ws| - 1], audit, replicaOf)) +
            var last := ws[|ws| - 1];
            if audit.Shown(last, replicaOf) && last in replicaOf then replicaOf[last].data.replicas else 0
  {
    var init, last := ws[..|ws| - 1], ws[|ws| - 1];
    var before, after := RecordedIn(init, audit, replicaOf), RecordedIn(ws, audit, replicaOf);
    assert ws == init + [last];
    if audit.Shown(last, replicaOf) && last in replicaOf {
      assert after == before + {replicaOf[last]};
      SumAdds(before, Replicas(), replicaOf[last]);
    } else {
      assert after == before;
    }
  }

  /** Detected replicas folded into a master that is not detected. */
  ghost function LostIn(ws: seq<WorkloadObject>, audit: Audit): set<WorkloadObject> {
    set m | m in Fold(ws) && audit.Detected(Fold(ws)[m]) && !audit.Detected(m) :: Fold(ws)[m]
  }

  /** Replicas that are not detected, folded into a detected master. */
  ghost function GainedIn(ws: seq<WorkloadObject>, audit: Audit): set<WorkloadObject> {
    set m | m in Fold(ws) && !audit.Detected(Fold(ws)[m]) && audit.Detected(m) :: Fold(ws)[m]
  }

  /** The exact balance between what the instances report and what was detected, however
      many masters and replicas each release has. */
  lemma ReplicasBalance(ws: seq<WorkloadObject>, audit: Audit)
    requires Distinct(ws)
    ensures Total(audit.Listed(ws, Fold(ws))) + ReplicaSum(LostIn(ws, audit)) ==
            ReplicaSum(DetectedIn(ws, audit)) + ReplicaSum(GainedIn(ws, audit))
  {
    var fold := Fold(ws);
    forall m, n | m in fold && n in fold && fold[m] == fold[n] ensures m == n {
      FoldInjective(ws, m, n);
    }
    TotalIsShownAndRecorded(ws, audit, fold);
    var shown, recorded := ShownIn(ws, audit, fold), RecordedIn(ws, audit, fold);
    var lost, gained := LostIn(ws, audit), GainedIn(ws, audit);
    var kept := recorded - gained;
    FoldParts(ws, audit);
    SumDisjoint(kept, gained, Replicas());
    assert kept + gained == recorded;
    SumDisjoint(shown, kept, Replicas());
    SumDisjoint(shown + kept, lost, Replicas());
  }

  lemma FoldParts(ws: seq<WorkloadObject>, audit: Audit)
    ensures var shown, recorded := ShownIn(ws, audit, Fold(ws)), RecordedIn(ws, audit, Fold(ws));
            var lost, gained := LostIn(ws, audit), GainedIn(ws, audit);
            && gained <= recorded && shown !! recorded && lost !! recorded && lost !! shown
            && DetectedIn(ws, audit) == shown + (recorded - gained) + lost
  {
    forall m | m in Fold(ws)
      ensures m in ws && Fold(ws)[m] in ws && m !in Fold(ws).Values
      ensures forall n :: n in Fold(ws) && Fold(ws)[n] == Fold(ws)[m] ==> n == m
    {
      FoldedPair(ws, m);
      forall n | n in Fold(ws) && Fold(ws)[n] == Fold(ws)[m] ensures n == m {
        FoldInjective(ws, m, n);
      }
    }
  }

  lemma {:induction false} SameVerdictsConserve(ws: seq<WorkloadObject>, audit: Audit)
    requires Distinct(ws)
    requires forall m :: m in Fold(ws) ==> (audit.Detected(m) <==> audit.Detected(Fold(ws)[m]))
    ensures Total(audit.Listed(ws, Fold(ws))) == ReplicaSum(DetectedIn(ws, audit))
  {
    ReplicasBalance(ws, audit);
    assert LostIn(ws, audit) == {} && GainedIn(ws, audit) == {};
  }
}
