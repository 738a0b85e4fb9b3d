/** What is reported with a rule, against the objects the rule governs: when the reported
    conditions are enough, when they are needed, and when they are exact. */
module ReportedConditions {
  import opened JsonTree
  import opened Policy
  import opened PolicyMeaning
  import opened PolicyOmissions

  predicate ReportHolds<O>(r: Reported, m: Meaning<O>, o: O) {
    match r
    case FromFilter(conditions) => forall cond :: cond in conditions ==> m.condition(cond, o)
    case FromPreconditions(value) => m.precondition(value, o)
  }

  predicate AllReported<O>(rule: Block, q: Query, c: Cluster, m: Meaning<O>, o: O) {
    forall r :: r in OnlyIf(rule, q, c) ==> ReportHolds(r, m, o)
  }

  lemma {:induction false} ConditionsOfHas(list: seq<Block>, q: Query, c: Cluster)
    ensures forall r :: r in ConditionsOf(list, q, c) <==>
              exists f :: f in list && Hit(f, q, c, Shown) && Conditions(f) != [] && r == FromFilter(Conditions(f))
  {
    if list != [] {
      ConditionsOfHas(list[..|list| - 1], q, c);
      assert list == list[..|list| - 1] + [list[|list| - 1]];
    }
  }

  /** What is reported is the condition of every hit filter, and the preconditions. */
  lemma AllReportedMeans<O>(rule: Block, q: Query, c: Cluster, m: Meaning<O>, o: O)
    ensures AllReported(rule, q, c, m, o) <==>
            && (forall f :: f in MatchOf(rule).list && Hit(f, q, c, Shown) ==>
                  forall cond :: cond in Conditions(f) ==> m.condition(cond, o))
            && (IsEmpty(At(rule, PRECONDITIONS)) || m.precondition(At(rule, PRECONDITIONS), o))
  {
    var list, pre := MatchOf(rule).list, At(rule, PRECONDITIONS);
    var reported := ConditionsOf(list, q, c) + PreconditionsOf(rule);
    UniqueKeepsMembers(reported);
    ConditionsOfHas(list, q, c);
    if AllReported(rule, q, c, m, o) {
      forall f | f in list && Hit(f, q, c, Shown)
        ensures forall cond :: cond in Conditions(f) ==> m.condition(cond, o)
      {
        if Conditions(f) != [] {
          assert FromFilter(Conditions(f)) in reported;
          assert ReportHolds(FromFilter(Conditions(f)), m, o);
        }
      }
      if !IsEmpty(pre) {
        assert FromPreconditions(pre) in reported;
        assert ReportHolds(FromPreconditions(pre), m, o);
      }
    }
  }

  // ---- the extreme meanings ----

  /** Everything that cannot be seen is as the rule asks. */
  function Loosest<O(!new)>(): Meaning<O> {
    Meaning((cond, o) => true, (users, o) => true, (value, o) => true, Shown)
  }

  /** Conditions are met, but no user and no unreadable selector is. */
  function OnlyConditions<O(!new)>(): Meaning<O> {
    Meaning((cond, o) => true, (users, o) => false, (value, o) => true, Hidden)
  }

  /** Nothing that cannot be seen is as the rule asks. */
  function Nothing<O(!new)>(): Meaning<O> {
    Meaning((cond, o) => false, (users, o) => false, (value, o) => false, Hidden)
  }

  /** The filter hits by what can be read, and asks for no user. */
  predicate SureHit(f: Block, q: Query, c: Cluster) {
    Hit(f, q, c, Hidden) && !HasSubjects(f)
  }

  function SureHits(q: Query, c: Cluster): Block -> bool {
    f => SureHit(f, q, c)
  }

  lemma FilterAtExtremes<O(!new)>(f: Block, q: Query, c: Cluster, o: O)
    requires q.kind != ""
    ensures FilterHolds(f, q, c, Loosest<O>(), o) <==> Hit(f, q, c, Shown)
    ensures FilterHolds(f, q, c, OnlyConditions<O>(), o) <==> SureHit(f, q, c)
    ensures FilterHolds(f, q, c, Nothing<O>(), o) <==> Blanket(f, q, c, Hidden)
  {
    KindHitMeans(f, q);
    if Conditions(f) != [] {
      assert Conditions(f)[0] in Conditions(f);
    }
  }

  lemma BlockAtExtremes<O(!new)>(filters: Filters, q: Query, c: Cluster, o: O)
    requires q.kind != ""
    ensures BlockHolds(filters, q, c, Loosest<O>(), o) <==> Selects(filters, Hits(q, c, Shown))
    ensures BlockHolds(filters, q, c, OnlyConditions<O>(), o) <==> Selects(filters, SureHits(q, c))
    ensures BlockHolds(filters, q, c, Nothing<O>(), o) <==> Selects(filters, Blankets(q, c, Hidden))
  {
    SelectsMeans(filters, Hits(q, c, Shown));
    SelectsMeans(filters, SureHits(q, c));
    SelectsMeans(filters, Blankets(q, c, Hidden));
    forall f
      ensures FilterHolds(f, q, c, Loosest<O>(), o) <==> Hits(q, c, Shown)(f)
      ensures FilterHolds(f, q, c, OnlyConditions<O>(), o) <==> SureHits(q, c)(f)
      ensures FilterHolds(f, q, c, Nothing<O>(), o) <==> Blankets(q, c, Hidden)(f)
    {
      FilterAtExtremes(f, q, c, o);
    }
  }

  /** The rule is matched whoever sends the object, and whatever unreadable selectors mean. */
  predicate SurelyMatched(rule: Block, q: Query, c: Cluster) {
    Selects(MatchOf(rule), SureHits(q, c))
  }

  /** Nothing that can be read keeps the exclusion from holding for some object. */
  predicate MayBeExcluded(rule: Block, q: Query, c: Cluster) {
    Selects(ExcludeOf(rule), Hits(q, c, Shown))
  }

  lemma NeverExcluded<O>(rule: Block, q: Query, c: Cluster, m: Meaning<O>, o: O)
    requires q.kind != "" && !MayBeExcluded(rule, q, c)
    ensures !BlockHolds(ExcludeOf(rule), q, c, m, o)
  {
    BlockBounds(ExcludeOf(rule), q, c, m, o);
  }

  // ---- when the reported conditions are enough ----

  ghost predicate ReportSuffices<O(!new)>(rule: Block, q: Query, c: Cluster, o: O) {
    forall m: Meaning<O> :: AllReported(rule, q, c, m, o) ==> RuleHolds(rule, q, c, m, o)
  }

  /** A sure hit that meets its conditions holds. */
  lemma SureHitHolds<O>(f: Block, q: Query, c: Cluster, m: Meaning<O>, o: O)
    requires q.kind != "" && SureHit(f, q, c) && forall cond :: cond in Conditions(f) ==> m.condition(cond, o)
    ensures FilterHolds(f, q, c, m, o) && Hit(f, q, c, Shown)
  {
    KindHitMeans(f, q);
    GuessBounds(f, q, c, m.unreadable);
  }

  lemma SureMatchSuffices<O>(rule: Block, q: Query, c: Cluster, m: Meaning<O>, o: O)
    requires q.kind != "" && SurelyMatched(rule, q, c) && !MayBeExcluded(rule, q, c) && AllReported(rule, q, c, m, o)
    ensures RuleHolds(rule, q, c, m, o)
  {
    AllReportedMeans(rule, q, c, m, o);
    SelectsMeans(MatchOf(rule), SureHits(q, c));
    NeverExcluded(rule, q, c, m, o);
    forall f | f in MatchOf(rule).list && SureHits(q, c)(f) ensures FilterHolds(f, q, c, m, o) {
      GuessBounds(f, q, c, Shown);
      SureHitHolds(f, q, c, m, o);
    }
  }

  lemma LoosestMeetsReport<O(!new)>(rule: Block, q: Query, c: Cluster, o: O)
    ensures AllReported(rule, q, c, Loosest<O>(), o) && AllReported(rule, q, c, OnlyConditions<O>(), o)
  {
    AllReportedMeans(rule, q, c, Loosest<O>(), o);
    AllReportedMeans(rule, q, c, OnlyConditions<O>(), o);
  }

  /** For every rule: meeting the reported conditions is enough to be governed if and only if
      the match hits for sure and the exclusion cannot hold. Users and the conditions of the
      exclusion are not reported. */
  lemma ReportedConditionsSuffice<O(!new)>(rule: Block, q: Query, c: Cluster, o: O)
    requires q.kind != ""
    ensures ReportSuffices(rule, q, c, o) <==> SurelyMatched(rule, q, c) && !MayBeExcluded(rule, q, c)
  {
    if ReportSuffices(rule, q, c, o) {
      LoosestMeetsReport(rule, q, c, o);
      BlockAtExtremes(MatchOf(rule), q, c, o);
      BlockAtExtremes(ExcludeOf(rule), q, c, o);
      assert RuleHolds(rule, q, c, Loosest<O>(), o) && RuleHolds(rule, q, c, OnlyConditions<O>(), o);
    }
    if SurelyMatched(rule, q, c) && !MayBeExcluded(rule, q, c) {
      forall m: Meaning<O> | AllReported(rule, q, c, m, o) ensures RuleHolds(rule, q, c, m, o) {
        SureMatchSuffices(rule, q, c, m, o);
      }
    }
  }

  /** For every rule reported without a condition: it governs every object, by any user, if
      and only if the match hits for sure and the exclusion cannot hold. */
  lemma UnconditionalAnswerIsExact<O(!new)>(rule: Block, q: Query, c: Cluster, o: O)
    requires q.kind != "" && OnlyIf(rule, q, c) == []
    ensures (forall m: Meaning<O> :: RuleHolds(rule, q, c, m, o)) <==>
            SurelyMatched(rule, q, c) && !MayBeExcluded(rule, q, c)
  {
    ReportedConditionsSuffice(rule, q, c, o);
    assert forall m: Meaning<O> :: AllReported(rule, q, c, m, o);
  }

  // ---- when they are needed ----

  ghost predicate ReportIsNeeded<O(!new)>(rule: Block, q: Query, c: Cluster, o: O) {
    forall m: Meaning<O> :: RuleHolds(rule, q, c, m, o) ==> AllReported(rule, q, c, m, o)
  }

  predicate AsksNoMore(f: Block, g: Block) {
    forall cond :: cond in Conditions(f) ==> cond in Conditions(g)
  }

  /** Every filter by which alone the rule can govern asks for all that is reported. */
  predicate ChoicesAskAll(rule: Block, q: Query, c: Cluster) {
    forall f :: f in MatchOf(rule).list && Leaves(rule, [f], q, c) ==> AsksForHits(rule, q, c, f)
  }

  predicate AsksForHits(rule: Block, q: Query, c: Cluster, f: Block) {
    forall g :: g in MatchOf(rule).list && Hit(g, q, c, Shown) ==> AsksNoMore(g, f)
  }

  lemma GovernedByAll<O>(rule: Block, q: Query, c: Cluster, m: Meaning<O>, o: O)
    requires RuleHolds(rule, q, c, m, o) && MatchOf(rule).all
    ensures AllReported(rule, q, c, m, o)
  {
    AllReportedMeans(rule, q, c, m, o);
  }

  lemma GovernedByOne<O>(rule: Block, q: Query, c: Cluster, m: Meaning<O>, o: O, f: Block)
    requires RuleHolds(rule, q, c, m, o) && FilterHolds(f, q, c, m, o) && AsksForHits(rule, q, c, f)
    ensures AllReported(rule, q, c, m, o)
  {
    AllReportedMeans(rule, q, c, m, o);
    forall g | g in MatchOf(rule).list && Hit(g, q, c, Shown)
      ensures forall cond :: cond in Conditions(g) ==> m.condition(cond, o)
    {
      assert AsksNoMore(g, f);
    }
  }

  lemma GovernedMeetsReport<O(!new)>(rule: Block, q: Query, c: Cluster, m: Meaning<O>, o: O)
    requires RuleHolds(rule, q, c, m, o) && (MatchOf(rule).all || ChoicesAskAll(rule, q, c))
    ensures AllReported(rule, q, c, m, o)
  {
    if MatchOf(rule).all {
      GovernedByAll(rule, q, c, m, o);
    } else {
      var f :| f in MatchOf(rule).list && FilterHolds(f, q, c, m, o);
      HoldingLeaves(rule, [f], q, c, m, o);
      GovernedByOne(rule, q, c, m, o, f);
    }
  }

  lemma TightGoverns<O(!new)>(rule: Block, q: Query, c: Cluster, f: Block, o: O)
    requires !MatchOf(rule).all && f in MatchOf(rule).list && Leaves(rule, [f], q, c)
    ensures RuleHolds(rule, q, c, Tight<O>([f]), o)
  {
    TightHolds([f], q, c, o);
    assert f in [f] && Follows(f, [f], q, c);
  }

  lemma OneAsksCondition(f: Block, cond: Condition)
    ensures AsksCondition([f], cond) <==> cond in Conditions(f)
  {
    assert f in [f];
  }

  lemma TightReport<O(!new)>(rule: Block, q: Query, c: Cluster, f: Block, o: O)
    requires AllReported(rule, q, c, Tight<O>([f]), o)
    ensures AsksForHits(rule, q, c, f)
  {
    AllReportedMeans(rule, q, c, Tight<O>([f]), o);
    forall g | g in MatchOf(rule).list && Hit(g, q, c, Shown) ensures AsksNoMore(g, f) {
      forall cond | cond in Conditions(g) ensures cond in Conditions(f) {
        assert Tight<O>([f]).condition(cond, o);
        OneAsksCondition(f, cond);
      }
    }
  }

  /** For every rule: to be governed takes all reported conditions if and only if all match
      filters must hold, or every filter by which the rule can govern asks for them all. */
  lemma ReportedConditionsAreNeeded<O(!new)>(rule: Block, q: Query, c: Cluster, o: O)
    ensures ReportIsNeeded(rule, q, c, o) <==> MatchOf(rule).all || ChoicesAskAll(rule, q, c)
  {
    if MatchOf(rule).all || ChoicesAskAll(rule, q, c) {
      forall m: Meaning<O> | RuleHolds(rule, q, c, m, o) ensures AllReported(rule, q, c, m, o) {
        GovernedMeetsReport(rule, q, c, m, o);
      }
    } else {
      var f :| f in MatchOf(rule).list && Leaves(rule, [f], q, c) && !AsksForHits(rule, q, c, f);
      TightGoverns(rule, q, c, f, o);
      if AllReported(rule, q, c, Tight<O>([f]), o) {
        TightReport(rule, q, c, f, o);
      }
    }
  }

  // ---- when they are exact ----

  /** The reported conditions, taken together, describe the governed objects. */
  ghost predicate ReportIsExact<O(!new)>(rule: Block, q: Query, c: Cluster, o: O) {
    forall m: Meaning<O> :: RuleHolds(rule, q, c, m, o) <==> AllReported(rule, q, c, m, o)
  }

  predicate HitsAskAlike(rule: Block, q: Query, c: Cluster) {
    forall f :: f in MatchOf(rule).list && Hit(f, q, c, Shown) ==> AsksForHits(rule, q, c, f)
  }

  /** When the exclusion cannot hold, every hit filter is a way to be governed. */
  lemma HitsAreChoices(rule: Block, q: Query, c: Cluster)
    requires q.kind != "" && !MayBeExcluded(rule, q, c)
    ensures ChoicesAskAll(rule, q, c) <==> HitsAskAlike(rule, q, c)
  {
    forall f | f in MatchOf(rule).list ensures Leaves(rule, [f], q, c) <==> Hit(f, q, c, Shown) {
      KindHitMeans(f, q);
      NeverFollows(rule, [f], q, c);
      assert f in [f];
    }
  }

  lemma NeverFollows(rule: Block, fs: seq<Block>, q: Query, c: Cluster)
    requires q.kind != "" && !MayBeExcluded(rule, q, c)
    ensures !BlockFollows(ExcludeOf(rule), fs, q, c)
  {
    SelectsMeans(ExcludeOf(rule), Hits(q, c, Shown));
    forall g | Follows(g, fs, q, c) ensures Hits(q, c, Shown)(g) {
      KindHitMeans(g, q);
      GuessBounds(g, q, c, Asked(fs));
    }
  }

  /** For every rule: the reported conditions describe exactly the governed objects if and
      only if the match hits for sure, the exclusion cannot hold, and, under `any`, the hit
      filters ask for the same: the report conjoins the conditions of them all. */
  lemma ReportedConditionsAreExact<O(!new)>(rule: Block, q: Query, c: Cluster, o: O)
    requires q.kind != ""
    ensures ReportIsExact(rule, q, c, o) <==>
            && SurelyMatched(rule, q, c) && !MayBeExcluded(rule, q, c)
            && (MatchOf(rule).all || HitsAskAlike(rule, q, c))
  {
    ReportedConditionsSuffice(rule, q, c, o);
    ReportedConditionsAreNeeded(rule, q, c, o);
    assert ReportIsExact(rule, q, c, o) <==> ReportSuffices(rule, q, c, o) && ReportIsNeeded(rule, q, c, o);
    if !MayBeExcluded(rule, q, c) {
      HitsAreChoices(rule, q, c);
    }
  }

  // ---- rules that name no user and exclude without a condition ----

  predicate PlainRule(rule: Block, c: Cluster) {
    AllReadable(MatchOf(rule), c) && NamesNoSubjects(MatchOf(rule)) && Unconditional(ExcludeOf(rule))
  }

  lemma PlainIsSure(rule: Block, q: Query, c: Cluster)
    requires q.kind != "" && Applies(rule, q, c) && PlainRule(rule, c)
    ensures SurelyMatched(rule, q, c) && !MayBeExcluded(rule, q, c)
  {
    SelectsMeans(MatchOf(rule), Hits(q, c, Shown));
    SelectsMeans(MatchOf(rule), SureHits(q, c));
    forall f | f in MatchOf(rule).list ensures Hits(q, c, Shown)(f) <==> SureHits(q, c)(f) {
      GuessBounds(f, q, c, Shown);
    }
    SelectsMeans(ExcludeOf(rule), Hits(q, c, Shown));
    SelectsMeans(ExcludeOf(rule), Blankets(q, c, Shown));
  }

  /** For them a reported rule governs just the objects that meet what its match asks, the
      conditions of every hit filter under `all` and of some hit filter under `any`, and its
      preconditions. */
  lemma PlainRuleMeans<O>(rule: Block, q: Query, c: Cluster, m: Meaning<O>, o: O)
    requires q.kind != "" && Applies(rule, q, c) && PlainRule(rule, c)
    ensures RuleHolds(rule, q, c, m, o) <==>
            && MatchAsks(rule, q, c, m, o)
            && (IsEmpty(At(rule, PRECONDITIONS)) || m.precondition(At(rule, PRECONDITIONS), o))
  {
    var filters := MatchOf(rule);
    PlainIsSure(rule, q, c);
    NeverExcluded(rule, q, c, m, o);
    SelectsMeans(filters, Hits(q, c, Shown));
    forall f | f in filters.list ensures FilterHolds(f, q, c, m, o) <==> Hits(q, c, Shown)(f) && AllTrue(f, m, o) {
      FilterBounds(f, q, c, m, o);
    }
  }

  predicate MatchAsks<O>(rule: Block, q: Query, c: Cluster, m: Meaning<O>, o: O) {
    if MatchOf(rule).all then forall f :: f in MatchOf(rule).list && Hit(f, q, c, Shown) ==> AllTrue(f, m, o)
    else exists f :: f in MatchOf(rule).list && Hit(f, q, c, Shown) && AllTrue(f, m, o)
  }

  predicate AllTrue<O>(f: Block, m: Meaning<O>, o: O) {
    forall cond :: cond in Conditions(f) ==> m.condition(cond, o)
  }

  /** For them the report is always enough, and exact if and only if all match filters must
      hold or the hit ones ask for the same. */
  lemma PlainReportIsExact<O(!new)>(rule: Block, q: Query, c: Cluster, o: O)
    requires q.kind != "" && Applies(rule, q, c) && PlainRule(rule, c)
    ensures ReportSuffices(rule, q, c, o)
    ensures ReportIsExact(rule, q, c, o) <==> MatchOf(rule).all || HitsAskAlike(rule, q, c)
  {
    PlainIsSure(rule, q, c);
    ReportedConditionsSuffice(rule, q, c, o);
    ReportedConditionsAreExact(rule, q, c, o);
  }

  // ---- when the answer is the meaning ----

  /** Whatever cannot be seen means, the rule governs if and only if the answer is yes. */
  ghost predicate AnswerDecides<O(!new)>(rule: Block, q: Query, c: Cluster, o: O) {
    forall m: Meaning<O> :: Applies(rule, q, c) <==> RuleHolds(rule, q, c, m, o)
  }

  predicate NothingLeftOpen(rule: Block, q: Query, c: Cluster) {
    && Selects(MatchOf(rule), Blankets(q, c, Hidden))
    && !MayBeExcluded(rule, q, c)
    && IsEmpty(At(rule, PRECONDITIONS))
  }

  lemma AlwaysGovernsExactly<O(!new)>(rule: Block, q: Query, c: Cluster, o: O)
    requires q.kind != ""
    ensures (forall m: Meaning<O> :: RuleHolds(rule, q, c, m, o)) <==> NothingLeftOpen(rule, q, c)
  {
    if forall m: Meaning<O> :: RuleHolds(rule, q, c, m, o) {
      assert RuleHolds(rule, q, c, Loosest<O>(), o) && RuleHolds(rule, q, c, Nothing<O>(), o);
      BlockAtExtremes(MatchOf(rule), q, c, o);
      BlockAtExtremes(ExcludeOf(rule), q, c, o);
    }
    if NothingLeftOpen(rule, q, c) {
      forall m: Meaning<O> ensures RuleHolds(rule, q, c, m, o) {
        BlockBounds(MatchOf(rule), q, c, m, o);
        NeverExcluded(rule, q, c, m, o);
      }
    }
  }

  /** For every rule: the answer is the meaning, for every object alike, if and only if a yes
      leaves nothing open and a no leaves no way to govern. */
  lemma DecidesExactly<O(!new)>(rule: Block, q: Query, c: Cluster, o: O)
    requires q.kind != ""
    ensures AnswerDecides(rule, q, c, o) <==>
            if Applies(rule, q, c) then NothingLeftOpen(rule, q, c) else !Survives(rule, q, c)
  {
    AlwaysGovernsExactly(rule, q, c, o);
    GovernableExactly(rule, q, c, o);
  }

  /** So it is for rules that read nothing from the object. */
  lemma DecidesTheRule<O>(rule: Block, q: Query, c: Cluster, m: Meaning<O>, o: O)
    requires q.kind != "" && IsEmpty(At(rule, PRECONDITIONS))
    requires AllReadable(MatchOf(rule), c) && AllReadable(ExcludeOf(rule), c)
    requires Unconditional(MatchOf(rule)) && Unconditional(ExcludeOf(rule))
    ensures Applies(rule, q, c) <==> RuleHolds(rule, q, c, m, o)
  {
    if Applies(rule, q, c) {
      PlainIsSure(rule, q, c);
      AllReportedMeans(rule, q, c, m, o);
      SureMatchSuffices(rule, q, c, m, o);
    } else {
      NoFalseOmission(rule, q, c, m, o);
    }
  }

  // ---- an input where the report asks for too much ----

  function Named(name: string): Block {
    map[NAMES := Arr([Str(name)])]
  }

  function AnyNamed(a: string, b: string): Block {
    map[MATCH := Obj(map[ANY := Arr([Wrapped(NAMES, Arr([Str(a)])), Wrapped(NAMES, Arr([Str(b)]))])])]
  }

  lemma NamedAsks(name: string)
    ensures Kinds(Named(name)) == [] && Conditions(Named(name)) == [NameMatches([name])] && !HasSubjects(Named(name))
    ensures Strings(At(Named(name), NAMESPACES)) == [] && At(Named(name), NAMESPACE_SELECTOR) == Null
  {
    var items := [Str(name)];
    FieldNamesDiffer();
    assert items[..|items| - 1] == [] && StringsIn(items) == [name];
  }

  lemma AnyNamedFilters(a: string, b: string)
    ensures MatchOf(AnyNamed(a, b)) == Filters([Named(a), Named(b)], false)
    ensures ExcludeOf(AnyNamed(a, b)) == Filters([], false) && At(AnyNamed(a, b), PRECONDITIONS) == Null
  {
    FieldNamesDiffer();
    WrappedFlattens(NAMES, Arr([Str(a)]));
    WrappedFlattens(NAMES, Arr([Str(b)]));
    var first, second := Wrapped(NAMES, Arr([Str(a)])), Wrapped(NAMES, Arr([Str(b)]));
    assert NAMES in Named(a) && NAMES in Named(b);
    assert [first][..0] == [] && [first, second][..1] == [first];
    assert Collected([first]) == [Named(a)] && Collected([first, second]) == [Named(a), Named(b)];
  }

  lemma NamedHits(name: string, q: Query, c: Cluster)
    ensures Hit(Named(name), q, c, Shown) && Readable(Named(name), c) && !HasSubjects(Named(name))
  {
    NamedAsks(name);
  }

  lemma NamedAskOtherwise(a: string, b: string)
    requires a != b
    ensures !AsksNoMore(Named(a), Named(b))
  {
    NamedAsks(a);
    NamedAsks(b);
    assert NameMatches([a]) in Conditions(Named(a));
    assert [a][0] != [b][0];
  }

  lemma AnyNamedApplies(a: string, b: string, q: Query, c: Cluster)
    ensures Applies(AnyNamed(a, b), q, c)
  {
    AnyNamedFilters(a, b);
    NamedHits(a, q, c);
    SelectsMeans(MatchOf(AnyNamed(a, b)), Hits(q, c, Shown));
    assert Named(a) in [Named(a), Named(b)];
  }

  /** A rule that matches any object named `a` and any named `b` is reported to need both. */
  lemma AnyIsReportedAsAll<O(!new)>(a: string, b: string, q: Query, c: Cluster, o: O)
    requires q.kind != "" && a != b
    ensures Applies(AnyNamed(a, b), q, c) && !ReportIsExact(AnyNamed(a, b), q, c, o)
  {
    var rule := AnyNamed(a, b);
    AnyNamedFilters(a, b);
    AnyNamedApplies(a, b, q, c);
    NamedHits(a, q, c);
    NamedHits(b, q, c);
    NamedAskOtherwise(a, b);
    assert Named(a) in [Named(a), Named(b)] && Named(b) in [Named(a), Named(b)];
    ReportedConditionsAreExact(rule, q, c, o);
  }

  // ---- inputs where the report asks for too little ----

  /** A rule for one user. */
  function ForUser(user: Json): Block {
    map[MATCH := Obj(map[ALL := Arr([Obj(map[SUBJECTS := Arr([user])])])])]
  }

  function OfUser(user: Json): Block {
    map[SUBJECTS := Arr([user])]
  }

  lemma OfUserAsks(user: Json)
    ensures Kinds(OfUser(user)) == [] && Conditions(OfUser(user)) == [] && HasSubjects(OfUser(user))
    ensures Strings(At(OfUser(user), NAMESPACES)) == [] && At(OfUser(user), NAMESPACE_SELECTOR) == Null
  {
    FieldNamesDiffer();
    assert SUBJECTS[1] == 'u' && SELECTOR[1] == 'e';
  }

  lemma ForUserFilters(user: Json)
    ensures MatchOf(ForUser(user)) == Filters([OfUser(user)], true)
    ensures ExcludeOf(ForUser(user)) == Filters([], false) && At(ForUser(user), PRECONDITIONS) == Null
  {
    FieldNamesDiffer();
    var item := Obj(map[SUBJECTS := Arr([user])]);
    assert Picked(item.fields, USER_FIELDS) == OfUser(user);
    assert Flatten(item.fields) == OfUser(user) && SUBJECTS in OfUser(user);
    assert [item][..0] == [] && Collected([item]) == [OfUser(user)];
  }

  lemma {:induction false} NoConditions(list: seq<Block>, q: Query, c: Cluster)
    requires forall f :: f in list ==> Conditions(f) == []
    ensures ConditionsOf(list, q, c) == []
  {
    if list != [] {
      assert list[|list| - 1] in list;
      NoConditions(list[..|list| - 1], q, c);
    }
  }

  lemma OneHitsOnce(filters: Filters, f: Block, hit: Block -> bool)
    requires filters == Filters([f], true)
    ensures Selects(filters, hit) <==> hit(f)
  {
    SelectsMeans(filters, hit);
    assert f in [f];
  }

  lemma SilentRule<O(!new)>(rule: Block, f: Block, q: Query, c: Cluster, o: O)
    requires q.kind != "" && MatchOf(rule) == Filters([f], true) && Conditions(f) == []
    requires IsEmpty(At(rule, PRECONDITIONS)) && (HasSubjects(f) || MayBeExcluded(rule, q, c))
    ensures OnlyIf(rule, q, c) == [] && !ReportSuffices(rule, q, c, o)
  {
    NoConditions([f], q, c);
    OneHitsOnce(MatchOf(rule), f, SureHits(q, c));
    ReportedConditionsSuffice(rule, q, c, o);
  }

  lemma ForUserApplies(user: Json, q: Query, c: Cluster)
    ensures Applies(ForUser(user), q, c)
  {
    ForUserFilters(user);
    OfUserAsks(user);
    OneHitsOnce(MatchOf(ForUser(user)), OfUser(user), Hits(q, c, Shown));
  }

  /** A rule for one user is reported, without a condition, as if it were for all. */
  lemma UsersAreNotReported<O(!new)>(user: Json, q: Query, c: Cluster, o: O)
    requires q.kind != ""
    ensures var rule := ForUser(user);
            Applies(rule, q, c) && OnlyIf(rule, q, c) == [] && !ReportSuffices(rule, q, c, o)
  {
    ForUserApplies(user, q, c);
    ForUserFilters(user);
    OfUserAsks(user);
    SilentRule(ForUser(user), OfUser(user), q, c, o);
  }

  /** A rule for one kind that excludes objects of one name. */
  function ButNotNamed(kind: string, name: string): Block {
    RuleOf(KINDS, Arr([Str(kind)]), NAMES, Arr([Str(name)]))
  }

  lemma ButNotNamedFilters(kind: string, name: string)
    ensures MatchOf(ButNotNamed(kind, name)) == Filters([OneKind(kind)], true)
    ensures ExcludeOf(ButNotNamed(kind, name)) == Filters([Named(name)], true)
    ensures At(ButNotNamed(kind, name), PRECONDITIONS) == Null
  {
    RuleOfFilters(KINDS, Arr([Str(kind)]), NAMES, Arr([Str(name)]));
    FieldNamesDiffer();
  }

  lemma ButNotNamedApplies(name: string, q: Query, c: Cluster)
    requires q.kind != "" && '/' !in q.kind
    ensures Applies(ButNotNamed(q.kind, name), q, c) && MayBeExcluded(ButNotNamed(q.kind, name), q, c)
  {
    var rule := ButNotNamed(q.kind, name);
    ButNotNamedFilters(q.kind, name);
    OneKindHit(q.kind, q, c, Shown);
    NamedAsks(name);
    NamedHits(name, q, c);
    OneHitsOnce(MatchOf(rule), OneKind(q.kind), Hits(q, c, Shown));
    OneHitsOnce(ExcludeOf(rule), Named(name), Hits(q, c, Shown));
    OneHitsOnce(ExcludeOf(rule), Named(name), Blankets(q, c, Shown));
  }

  /** It is reported, without a condition, as if it excluded nothing. */
  lemma ExcludedNamesAreNotReported<O(!new)>(name: string, q: Query, c: Cluster, o: O)
    requires q.kind != "" && '/' !in q.kind
    ensures var rule := ButNotNamed(q.kind, name);
            Applies(rule, q, c) && OnlyIf(rule, q, c) == [] && !ReportSuffices(rule, q, c, o)
  {
    ButNotNamedFilters(q.kind, name);
    OneKindFilter(q.kind);
    ButNotNamedApplies(name, q, c);
    SilentRule(ButNotNamed(q.kind, name), OneKind(q.kind), q, c, o);
  }
}
