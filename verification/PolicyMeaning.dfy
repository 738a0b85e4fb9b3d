/** What a rule's match and exclude blocks mean for one object, and how far the decision
    made for all objects of a kind at once agrees with it. */
module PolicyMeaning {
  import opened Outcomes
  import opened JsonTree
  import opened Text
  import opened Folds
  import opened Policy

  /** Everything the decision cannot see: which objects and users satisfy which conditions,
      and what the selectors it cannot read really select. */
  datatype Meaning<!O> = Meaning(condition: (Condition, O) -> bool, subjects: (Block, O) -> bool,
                                 precondition: (Json, O) -> bool, unreadable: Block -> bool)

  /** The filter lists this kind, with or without its API group. */
  ghost predicate ListsKind(f: Block, short: string) {
    '/' !in short && (Lists(f, "kinds", short) || exists group :: Lists(f, "kinds", group + "/" + short))
  }

  predicate SameLetter(a: char, b: char) {
    || a == b
    || ('a' <= a <= 'z' && a as int - b as int == 'a' as int - 'A' as int)
    || ('a' <= b <= 'z' && b as int - a as int == 'a' as int - 'A' as int)
  }

  predicate SameLetters(a: string, b: string) {
    |a| == |b| && forall i :: 0 <= i < |a| ==> SameLetter(a[i], b[i])
  }

  /** What a filter asks of the kind. */
  ghost predicate KindHolds(f: Block, q: Query) {
    || (forall kind :: !Lists(f, "kinds", kind))
    || exists short :: ListsKind(f, short) && FitsKind(short, q)
  }

  predicate FitsKind(short: string, q: Query) {
    short == "*" || SameLetters(short, q.kind) || (short == "Pod" && q.kind in q.autogen)
  }

  /** What a filter asks of the object. */
  predicate AsksFor(f: Block, cond: Condition) {
    match cond
    case NameMatches(patterns) => patterns != [] && patterns == Strings(At(f, "names"))
    case LabelsMatch(selector) => "selector" in f && f["selector"] == Obj(selector)
    case AnnotationsMatch(selector) => "annotations" in f && f["annotations"] == Obj(selector)
    case OperationIs(operations) => operations != [] && operations == Strings(At(f, "operations"))
  }

  /** A filter that asks for a user. */
  predicate NamesUsers(f: Block) {
    exists key :: key in ["subjects", "roles", "clusterRoles"] && key in f && f[key].Arr? && f[key].items != []
  }

  predicate CoversKind(f: Block, q: Query) {
    || Kinds(f) == []
    || exists short :: short in Kinds(f) &&
         (short == EVERY_KIND || EqualFold(short, q.kind) || (short == POD && q.kind in q.autogen))
  }

  /** A filter holds for an object when each of its fields does. The code's own reading of
      the fields agrees. */
  ghost predicate FilterHolds<O>(f: Block, q: Query, c: Cluster, m: Meaning<O>, o: O): (holds: bool)
    ensures holds <==>
            && CoversKind(f, q)
            && NamespaceHit(f, q, c, m.unreadable)
            && (forall cond :: cond in Conditions(f) ==> m.condition(cond, o))
            && (HasSubjects(f) ==> m.subjects(Users(f), o))
  {
    CoversKindMeans(f, q);
    NamespaceHitMeans(f, q, c, m.unreadable);
    ConditionsAre(f);
    HasSubjectsMeans(f);
    && KindHolds(f, q)
    && NamespaceHolds(f, q, c, m.unreadable)
    && (forall cond :: AsksFor(f, cond) ==> m.condition(cond, o))
    && (NamesUsers(f) ==> m.subjects(Users(f), o))
  }

  lemma SameLettersFold(a: string, b: string)
    ensures EqualFold(a, b) <==> SameLetters(a, b)
  {
    if EqualFold(a, b) {
      forall i | 0 <= i < |a| ensures SameLetter(a[i], b[i]) {
        assert ToLower(a)[i] == ToLower(b)[i];
      }
    }
    if SameLetters(a, b) {
      forall i | 0 <= i < |a| ensures ToLower(a)[i] == ToLower(b)[i] {
        assert SameLetter(a[i], b[i]);
      }
    }
  }

  lemma {:induction false} ShortsHave(kinds: seq<string>)
    ensures forall s :: s in Shorts(kinds) <==> exists k :: k in kinds && Short(k) == s
  {
    if kinds != [] {
      ShortsHave(kinds[..|kinds| - 1]);
      assert kinds == kinds[..|kinds| - 1] + [kinds[|kinds| - 1]];
    }
  }

  /** The short name of a listed kind is what follows its last slash. */
  lemma ShortIs(kind: string, short: string)
    ensures Short(kind) == short <==> '/' !in short && (kind == short || exists group :: kind == group + "/" + short)
  {
    CutLastJoins(kind, '/');
    if Short(kind) == short && kind != short {
      assert kind == BeforeLast(kind, '/').value + "/" + short;
    }
    if '/' !in short {
      AfterPrefix(None, '/', short);
      assert Prefix(None, '/') + short == short;
      forall group | kind == group + "/" + short ensures Short(kind) == short {
        CutLastAt(group, '/', short);
        assert group + ['/'] + short == kind;
      }
    }
  }

  lemma KindsAre(f: Block, short: string)
    ensures short in Kinds(f) <==> ListsKind(f, short)
    ensures Kinds(f) == [] <==> forall kind :: !Lists(f, "kinds", kind)
  {
    ListsStrings(f, "kinds");
    ShortsHave(Strings(At(f, "kinds")));
    ShortsLength(Strings(At(f, "kinds")));
    if k :| k in Strings(At(f, "kinds")) && Short(k) == short {
      ShortIs(k, short);
    }
    if ListsKind(f, short) {
      var k :| Lists(f, "kinds", k) && (k == short || exists group :: k == group + "/" + short);
      ShortIs(k, short);
    }
  }

  lemma {:induction false} ShortsLength(kinds: seq<string>)
    ensures |Shorts(kinds)| == |kinds|
  {
    if kinds != [] {
      ShortsLength(kinds[..|kinds| - 1]);
    }
  }

  lemma CoversKindMeans(f: Block, q: Query)
    ensures CoversKind(f, q) <==> KindHolds(f, q)
  {
    KindsAre(f, "");
    forall short
      ensures short in Kinds(f) <==> ListsKind(f, short)
      ensures FitsKind(short, q) <==>
                short == EVERY_KIND || EqualFold(short, q.kind) || (short == POD && q.kind in q.autogen)
    {
      KindsAre(f, short);
      SameLettersFold(short, q.kind);
    }
  }

  /** The conditions reported are those the filter asks for. */
  lemma ConditionsAre(f: Block)
    ensures forall cond :: cond in Conditions(f) <==> AsksFor(f, cond)
  {
  }

  lemma HasSubjectsMeans(f: Block)
    ensures HasSubjects(f) <==> NamesUsers(f)
  {
    if HasSubjects(f) {
      var key := if Items(At(f, "subjects")) != [] then "subjects"
                 else if Items(At(f, "roles")) != [] then "roles" else "clusterRoles";
      assert key in ["subjects", "roles", "clusterRoles"];
    }
  }

  ghost predicate BlockHolds<O>(filters: Filters, q: Query, c: Cluster, m: Meaning<O>, o: O) {
    && filters.list != []
    && if filters.all then forall f :: f in filters.list ==> FilterHolds(f, q, c, m, o)
       else exists f :: f in filters.list && FilterHolds(f, q, c, m, o)
  }

  /** The rule governs an object of kind `q.kind` in namespace `q.ns`. */
  ghost predicate RuleHolds<O>(rule: Block, q: Query, c: Cluster, m: Meaning<O>, o: O) {
    && BlockHolds(MatchOf(rule), q, c, m, o)
    && !BlockHolds(ExcludeOf(rule), q, c, m, o)
    && (IsEmpty(At(rule, PRECONDITIONS)) || m.precondition(At(rule, PRECONDITIONS), o))
  }

  predicate Readable(f: Block, c: Cluster) {
    At(f, NAMESPACE_SELECTOR).Obj? ==> c.read(At(f, NAMESPACE_SELECTOR).fields).Some?
  }

  predicate AllReadable(filters: Filters, c: Cluster) {
    forall f :: f in filters.list ==> Readable(f, c)
  }

  /** No filter asks for names, labels, annotations, operations or users. */
  predicate Unconditional(filters: Filters) {
    forall f :: f in filters.list ==> Conditions(f) == [] && !HasSubjects(f)
  }

  predicate NamesNoSubjects(filters: Filters) {
    forall f :: f in filters.list ==> !HasSubjects(f)
  }

  function Hidden(sel: Block): bool {
    false
  }

  // ---- one filter ----

  lemma SelectsMeans(filters: Filters, hit: Block -> bool)
    ensures Selects(filters, hit) <==>
            && filters.list != []
            && if filters.all then forall f :: f in filters.list ==> hit(f) else exists f :: f in filters.list && hit(f)
  {
    EveryMeans(filters.list, hit);
    AnyMeans(filters.list, hit);
  }

  lemma KindHitMeans(f: Block, q: Query)
    requires q.kind != ""
    ensures KindHit(f, q) <==> CoversKind(f, q)
  {
    AnyMeans(Kinds(f), Fitting(q));
    forall short ensures Fitting(q)(short) <==>
                         short == EVERY_KIND || EqualFold(short, q.kind) || (short == POD && q.kind in q.autogen)
    {
    }
  }

  /** What the decision asks of a match filter, in the filter's own fields. */
  ghost predicate Fits(f: Block, q: Query, c: Cluster) {
    (q.kind == "" || KindHolds(f, q)) && NamespaceHolds(f, q, c, sel => true)
  }

  /** What it asks of an exclude filter: that, and no condition on the object or the user. */
  ghost predicate FitsAll(f: Block, q: Query, c: Cluster) {
    Fits(f, q, c) && (forall cond :: !AsksFor(f, cond)) && !NamesUsers(f)
  }

  lemma HitFits(f: Block, q: Query, c: Cluster)
    ensures Hit(f, q, c, Shown) <==> Fits(f, q, c)
    ensures Blanket(f, q, c, Shown) <==> FitsAll(f, q, c)
  {
    NamespaceHitMeans(f, q, c, Shown);
    NamespaceHitMeans(f, q, c, sel => true);
    ConditionsAre(f);
    HasSubjectsMeans(f);
    if Conditions(f) != [] {
      assert Conditions(f)[0] in Conditions(f);
    }
    if q.kind == "" {
      EveryKindHits(f, q);
    } else {
      KindHitMeans(f, q);
      CoversKindMeans(f, q);
    }
  }

  lemma EveryKindHits(f: Block, q: Query)
    requires q.kind == ""
    ensures KindHit(f, q)
  {
    AnyMeans(Kinds(f), Fitting(q));
    if Kinds(f) != [] {
      assert Kinds(f)[0] in Kinds(f) && Fitting(q)(Kinds(f)[0]);
    }
  }

  /** For every rule and query: the rule is reported if and only if its match filters fit, all
      of them or some, and its exclude filters do not, without asking anything else. */
  lemma AppliesExactly(rule: Block, q: Query, c: Cluster)
    ensures var matching, excluding := MatchOf(rule), ExcludeOf(rule);
            Applies(rule, q, c) <==>
            && matching.list != []
            && (if matching.all then forall f :: f in matching.list ==> Fits(f, q, c)
                else exists f :: f in matching.list && Fits(f, q, c))
            && !(&& excluding.list != []
                 && if excluding.all then forall f :: f in excluding.list ==> FitsAll(f, q, c)
                    else exists f :: f in excluding.list && FitsAll(f, q, c))
  {
    SelectsMeans(MatchOf(rule), Hits(q, c, Shown));
    SelectsMeans(ExcludeOf(rule), Blankets(q, c, Shown));
    forall f
      ensures Hits(q, c, Shown)(f) <==> Fits(f, q, c)
      ensures Blankets(q, c, Shown)(f) <==> FitsAll(f, q, c)
    {
      HitFits(f, q, c);
    }
  }

  /** A rule is only reported in a namespace that one of its hit filters admits: under `all`
      every match filter, under `any` some match filter lists no namespace or one that fits. */
  lemma AppliesWithin(rule: Block, q: Query, c: Cluster)
    requires Applies(rule, q, c)
    ensures MatchOf(rule).all ==> forall f :: f in MatchOf(rule).list ==> Admits(f, q, c)
    ensures exists f :: f in MatchOf(rule).list && Fits(f, q, c) && Admits(f, q, c)
  {
    AppliesExactly(rule, q, c);
    var f := MatchOf(rule).list[0];
    assert f in MatchOf(rule).list;
  }

  ghost predicate Admits(f: Block, q: Query, c: Cluster) {
    (forall p :: !Lists(f, "namespaces", p)) || exists p :: Lists(f, "namespaces", p) && c.glob(p, q.ns)
  }

  /** The autogen mark: a filter for pods also reaches the controllers generated for, and
      the mark is set exactly when one does so for a kind it does not name itself. */
  lemma AutogenMeans(filters: Filters, q: Query, c: Cluster)
    requires q.kind != ""
    ensures Any(filters.list, AutogenHits(q, c)) <==>
            && q.kind in q.autogen && !SameLetters("Pod", q.kind)
            && exists f :: f in filters.list && ListsKind(f, "Pod") && NamespaceHolds(f, q, c, sel => true)
  {
    SameLettersFold(POD, q.kind);
    AnyMeans(filters.list, AutogenHits(q, c));
    assert POD != EVERY_KIND by {
      assert |POD| != |EVERY_KIND|;
    }
    forall f
      ensures AutogenHits(q, c)(f) <==>
              q.kind in q.autogen && !EqualFold(POD, q.kind) && ListsKind(f, "Pod")
              && NamespaceHolds(f, q, c, sel => true)
    {
      AutogenHitMeans(f, q, c);
      KindsAre(f, "Pod");
      NamespaceHitMeans(f, q, c, Shown);
      NamespaceHitMeans(f, q, c, sel => true);
    }
  }

  lemma AutogenHitMeans(f: Block, q: Query, c: Cluster)
    requires q.kind != "" && POD != EVERY_KIND
    ensures AutogenHits(q, c)(f) <==>
            q.kind in q.autogen && !EqualFold(POD, q.kind) && POD in Kinds(f) && NamespaceHit(f, q, c, Shown)
  {
    AnyMeans(Kinds(f), Fitting(q));
    AnyMeans(Kinds(f), ByAutogen(q));
    if POD in Kinds(f) && q.kind in q.autogen && !EqualFold(POD, q.kind) {
      assert ByAutogen(q)(POD) && Fitting(q)(POD);
    }
    if ViaAutogen(f, q) {
      var short :| short in Kinds(f) && ByAutogen(q)(short);
      assert short == POD;
    }
  }

  lemma {:induction false} KindsOfHas(list: seq<Block>, kind: string)
    ensures kind in KindsOf(list) <==> exists f :: f in list && kind in Kinds(f)
  {
    if list != [] {
      var init, last := list[..|list| - 1], list[|list| - 1];
      KindsOfHas(init, kind);
      assert list == init + [last] && KindsOf(list) == KindsOf(init) + Kinds(last);
      if kind in Kinds(last) {
        assert last in list && kind in KindsOf(list);
      } else if kind in KindsOf(list) {
        var f :| f in init && kind in Kinds(f);
        assert f in list;
      }
    }
  }

  /** The reported kinds are those the match filters name, once each. */
  lemma KindsAreNamed(list: seq<Block>, kind: string)
    ensures kind in Unique(KindsOf(list)) <==> exists f :: f in list && ListsKind(f, kind)
  {
    UniqueKeepsMembers(KindsOf(list));
    KindsOfHas(list, kind);
    forall f ensures kind in Kinds(f) <==> ListsKind(f, kind) {
      KindsAre(f, kind);
    }
  }

  /** The code's guess can only add hits, the strict one only drop them. */
  lemma GuessBounds(f: Block, q: Query, c: Cluster, guess: Block -> bool)
    ensures NamespaceHit(f, q, c, Hidden) ==> NamespaceHit(f, q, c, guess)
    ensures NamespaceHit(f, q, c, guess) ==> NamespaceHit(f, q, c, Shown)
    ensures Readable(f, c) ==> (NamespaceHit(f, q, c, Shown) <==> NamespaceHit(f, q, c, Hidden))
  {
  }

  lemma FilterBounds<O>(f: Block, q: Query, c: Cluster, m: Meaning<O>, o: O)
    requires q.kind != ""
    ensures Blanket(f, q, c, Hidden) ==> FilterHolds(f, q, c, m, o)
    ensures FilterHolds(f, q, c, m, o) ==> Hit(f, q, c, Shown)
    ensures FilterHolds(f, q, c, m, o) && Conditions(f) == [] && !HasSubjects(f) ==> Blanket(f, q, c, Shown)
    ensures Readable(f, c) ==> (Blanket(f, q, c, Shown) <==> Blanket(f, q, c, Hidden))
    ensures Readable(f, c) && Hit(f, q, c, Shown) && !HasSubjects(f) ==>
              (FilterHolds(f, q, c, m, o) <==> forall cond :: cond in Conditions(f) ==> m.condition(cond, o))
  {
    KindHitMeans(f, q);
    GuessBounds(f, q, c, m.unreadable);
  }

  lemma BlockBounds<O>(filters: Filters, q: Query, c: Cluster, m: Meaning<O>, o: O)
    requires q.kind != ""
    ensures Selects(filters, Blankets(q, c, Hidden)) ==> BlockHolds(filters, q, c, m, o)
    ensures BlockHolds(filters, q, c, m, o) ==> Selects(filters, Hits(q, c, Shown))
    ensures BlockHolds(filters, q, c, m, o) && Unconditional(filters) ==> Selects(filters, Blankets(q, c, Shown))
  {
    SelectsMeans(filters, Blankets(q, c, Hidden));
    SelectsMeans(filters, Blankets(q, c, Shown));
    SelectsMeans(filters, Hits(q, c, Shown));
    forall f | f in filters.list
      ensures Blankets(q, c, Hidden)(f) ==> FilterHolds(f, q, c, m, o)
      ensures FilterHolds(f, q, c, m, o) ==> Hits(q, c, Shown)(f)
      ensures FilterHolds(f, q, c, m, o) && Conditions(f) == [] && !HasSubjects(f) ==> Blankets(q, c, Shown)(f)
    {
      FilterBounds(f, q, c, m, o);
    }
  }

  // ---- an omitted rule ----

  /** Whatever conditions, users and unreadable selectors mean: a rule that governs an
      object is matched, and is not excluded by what can be read. */
  lemma GovernedIsMatched<O>(rule: Block, q: Query, c: Cluster, m: Meaning<O>, o: O)
    requires q.kind != "" && RuleHolds(rule, q, c, m, o)
    ensures Matched(rule, q, c) && !Excluded(rule, q, c, Hidden)
  {
    BlockBounds(MatchOf(rule), q, c, m, o);
    BlockBounds(ExcludeOf(rule), q, c, m, o);
  }

  lemma ReadableExclude(rule: Block, q: Query, c: Cluster)
    requires AllReadable(ExcludeOf(rule), c)
    ensures Excluded(rule, q, c, Shown) <==> Excluded(rule, q, c, Hidden)
  {
    var filters := ExcludeOf(rule);
    SelectsMeans(filters, Blankets(q, c, Shown));
    SelectsMeans(filters, Blankets(q, c, Hidden));
    forall f | f in filters.list ensures Blankets(q, c, Shown)(f) <==> Blankets(q, c, Hidden)(f) {
      GuessBounds(f, q, c, Shown);
    }
  }

  /** No false omission: with readable exclude selectors, a rule that is left out governs
      no object of the kind in the namespace, whoever sends it. */
  lemma NoFalseOmission<O>(rule: Block, q: Query, c: Cluster, m: Meaning<O>, o: O)
    requires q.kind != "" && AllReadable(ExcludeOf(rule), c) && !Applies(rule, q, c)
    ensures !RuleHolds(rule, q, c, m, o)
  {
    if RuleHolds(rule, q, c, m, o) {
      GovernedIsMatched(rule, q, c, m, o);
      ReadableExclude(rule, q, c);
    }
  }
}
