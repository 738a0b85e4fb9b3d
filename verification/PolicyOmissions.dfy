/** When a rule that could govern an object is left out: asked about one kind, and asked
    about every kind at once. */
module PolicyOmissions {
  import opened Outcomes
  import opened Text
  import opened JsonTree
  import opened Folds
  import opened Policy
  import opened PolicyMeaning

  /** Under some meaning of what the decision cannot see, the rule governs the object. */
  ghost predicate Governable<O(!new)>(rule: Block, q: Query, c: Cluster, o: O) {
    exists m: Meaning<O> :: RuleHolds(rule, q, c, m, o)
  }

  // ---- what can be decided before the call ----

  /** The ways to be matched: by all filters together, or by any one of them. */
  function Choices(filters: Filters): seq<seq<Block>> {
    if filters.list == [] then []
    else if filters.all then [filters.list]
    else seq(|filters.list|, i requires 0 <= i < |filters.list| => [filters.list[i]])
  }

  predicate AsksCondition(fs: seq<Block>, cond: Condition) {
    exists f :: f in fs && cond in Conditions(f)
  }

  predicate AsksUsers(fs: seq<Block>, users: Block) {
    exists f :: f in fs && HasSubjects(f) && Users(f) == users
  }

  predicate AsksSelector(fs: seq<Block>, sel: Block) {
    exists f :: f in fs && At(f, NAMESPACE_SELECTOR) == Obj(sel)
  }

  function Asked(fs: seq<Block>): Block -> bool {
    sel => AsksSelector(fs, sel)
  }

  /** Nothing that can be read keeps the filter from holding. */
  predicate Possible(f: Block, q: Query, c: Cluster) {
    CoversKind(f, q) && NamespaceHit(f, q, c, Shown)
  }

  /** The filter asks for nothing but what can be read and what the filters `fs` ask for. */
  predicate Follows(g: Block, fs: seq<Block>, q: Query, c: Cluster) {
    && CoversKind(g, q)
    && NamespaceHit(g, q, c, Asked(fs))
    && (forall cond :: cond in Conditions(g) ==> AsksCondition(fs, cond))
    && (HasSubjects(g) ==> AsksUsers(fs, Users(g)))
  }

  predicate BlockFollows(filters: Filters, fs: seq<Block>, q: Query, c: Cluster) {
    && filters.list != []
    && if filters.all then forall g :: g in filters.list ==> Follows(g, fs, q, c)
       else exists g :: g in filters.list && Follows(g, fs, q, c)
  }

  /** Some way to be matched is possible and does not bring the exclusion with it. */
  predicate Survives(rule: Block, q: Query, c: Cluster) {
    exists fs :: fs in Choices(MatchOf(rule)) && Leaves(rule, fs, q, c)
  }

  predicate Leaves(rule: Block, fs: seq<Block>, q: Query, c: Cluster) {
    (forall f :: f in fs ==> Possible(f, q, c)) && !BlockFollows(ExcludeOf(rule), fs, q, c)
  }

  /** True are just the conditions, users and unreadable selectors that `fs` ask for. */
  function Tight<O(!new)>(fs: seq<Block>): Meaning<O> {
    Meaning((cond, o) => AsksCondition(fs, cond), (users, o) => AsksUsers(fs, users), (value, o) => true, Asked(fs))
  }

  lemma TightHolds<O(!new)>(fs: seq<Block>, q: Query, c: Cluster, o: O)
    ensures forall g :: FilterHolds(g, q, c, Tight<O>(fs), o) <==> Follows(g, fs, q, c)
    ensures forall f :: f in fs && Possible(f, q, c) ==> Follows(f, fs, q, c)
  {
  }

  /** What the filters ask for is true wherever they hold, so what follows from them holds. */
  lemma FollowsHolds<O>(g: Block, fs: seq<Block>, q: Query, c: Cluster, m: Meaning<O>, o: O)
    requires forall f :: f in fs ==> FilterHolds(f, q, c, m, o)
    requires Follows(g, fs, q, c)
    ensures FilterHolds(g, q, c, m, o)
  {
    var sel := At(g, NAMESPACE_SELECTOR);
    if sel.Obj? && c.read(sel.fields).None? {
      var f :| f in fs && At(f, NAMESPACE_SELECTOR) == sel;
      assert NamespaceHit(f, q, c, m.unreadable);
    }
  }

  lemma ChoiceHolds<O>(filters: Filters, q: Query, c: Cluster, m: Meaning<O>, o: O) returns (fs: seq<Block>)
    requires BlockHolds(filters, q, c, m, o)
    ensures fs in Choices(filters) && forall f :: f in fs ==> FilterHolds(f, q, c, m, o)
  {
    if filters.all {
      fs := filters.list;
    } else {
      var i :| 0 <= i < |filters.list| && FilterHolds(filters.list[i], q, c, m, o);
      fs := [filters.list[i]];
      assert Choices(filters)[i] == fs;
    }
  }

  lemma ChoiceSuffices<O>(filters: Filters, fs: seq<Block>, q: Query, c: Cluster, m: Meaning<O>, o: O)
    requires fs in Choices(filters) && forall f :: f in fs ==> FilterHolds(f, q, c, m, o)
    ensures BlockHolds(filters, q, c, m, o)
  {
    if !filters.all {
      var i :| 0 <= i < |filters.list| && fs == [filters.list[i]];
      assert filters.list[i] in fs;
    }
  }

  lemma HoldingLeaves<O(!new)>(rule: Block, fs: seq<Block>, q: Query, c: Cluster, m: Meaning<O>, o: O)
    requires RuleHolds(rule, q, c, m, o) && forall f :: f in fs ==> FilterHolds(f, q, c, m, o)
    ensures Leaves(rule, fs, q, c)
  {
    forall f | f in fs ensures Possible(f, q, c) {
      GuessBounds(f, q, c, m.unreadable);
    }
    forall g | Follows(g, fs, q, c) ensures FilterHolds(g, q, c, m, o) {
      FollowsHolds(g, fs, q, c, m, o);
    }
  }

  lemma GovernableSurvives<O(!new)>(rule: Block, q: Query, c: Cluster, m: Meaning<O>, o: O)
    requires RuleHolds(rule, q, c, m, o)
    ensures Survives(rule, q, c)
  {
    var fs := ChoiceHolds(MatchOf(rule), q, c, m, o);
    HoldingLeaves(rule, fs, q, c, m, o);
  }

  /** For every rule, kind and namespace: whether conditions, users and unreadable selectors
      can be such that the rule governs an object is decided by what can be read. */
  lemma GovernableExactly<O(!new)>(rule: Block, q: Query, c: Cluster, o: O)
    ensures Governable(rule, q, c, o) <==> Survives(rule, q, c)
  {
    if Governable(rule, q, c, o) {
      var m: Meaning<O> :| RuleHolds(rule, q, c, m, o);
      GovernableSurvives(rule, q, c, m, o);
    }
    if Survives(rule, q, c) {
      var fs :| fs in Choices(MatchOf(rule)) && Leaves(rule, fs, q, c);
      TightHolds(fs, q, c, o);
      ChoiceSuffices(MatchOf(rule), fs, q, c, Tight<O>(fs), o);
      assert RuleHolds(rule, q, c, Tight<O>(fs), o);
    }
  }

  lemma GovernableIsMatched<O(!new)>(rule: Block, q: Query, c: Cluster, o: O)
    requires Governable(rule, q, c, o)
    ensures Matched(rule, q, c)
  {
    var m: Meaning<O> :| RuleHolds(rule, q, c, m, o);
    SelectsMeans(MatchOf(rule), Hits(q, c, Shown));
    forall f | f in MatchOf(rule).list && FilterHolds(f, q, c, m, o) ensures Hits(q, c, Shown)(f) {
      GuessBounds(f, q, c, m.unreadable);
      CoveredIsHit(f, q);
    }
  }

  lemma CoveredIsHit(f: Block, q: Query)
    requires CoversKind(f, q)
    ensures KindHit(f, q)
  {
    if Kinds(f) != [] {
      AnyMeans(Kinds(f), Fitting(q));
      var short :| short in Kinds(f) &&
               (short == EVERY_KIND || EqualFold(short, q.kind) || (short == POD && q.kind in q.autogen));
      assert Fitting(q)(short);
    }
  }

  // ---- asked about one kind ----

  /** When a rule is left out though it could govern an object: exactly when it is excluded
      and yet survives. With a kind, this takes an exclusion that rests on a selector that
      cannot be read. */
  lemma FalseOmissionExactly<O(!new)>(rule: Block, q: Query, c: Cluster, o: O)
    ensures !Applies(rule, q, c) && Governable(rule, q, c, o) <==> Excluded(rule, q, c, Shown) && Survives(rule, q, c)
    ensures q.kind != "" && !Applies(rule, q, c) && Governable(rule, q, c, o) ==>
              Matched(rule, q, c) && Excluded(rule, q, c, Shown) && !Excluded(rule, q, c, Hidden)
    ensures q.kind != "" && AllReadable(ExcludeOf(rule), c) && Governable(rule, q, c, o) ==> Applies(rule, q, c)
  {
    GovernableExactly(rule, q, c, o);
    if Governable(rule, q, c, o) {
      GovernableIsMatched(rule, q, c, o);
      if q.kind != "" {
        GovernableOnlyWhen(rule, q, c, o);
      }
    }
    if AllReadable(ExcludeOf(rule), c) {
      ReadableExclude(rule, q, c);
    }
  }

  /** Every condition fails, every precondition holds, and nothing unreadable selects. */
  function Strictest<O(!new)>(): Meaning<O> {
    Meaning((cond, o) => false, (users, o) => false, (value, o) => true, Hidden)
  }

  lemma GovernedWhenStrictest<O(!new)>(rule: Block, q: Query, c: Cluster, o: O)
    requires q.kind != "" && AllReadable(MatchOf(rule), c) && Unconditional(MatchOf(rule))
    requires Matched(rule, q, c) && !Excluded(rule, q, c, Hidden)
    ensures RuleHolds(rule, q, c, Strictest<O>(), o)
  {
    MatchedHolds(rule, q, c, Strictest<O>(), o);
    NothingExtraExcluded(rule, q, c, Strictest<O>(), o);
  }

  lemma GovernableWhen<O(!new)>(rule: Block, q: Query, c: Cluster, o: O)
    requires q.kind != "" && AllReadable(MatchOf(rule), c) && Unconditional(MatchOf(rule))
    requires Matched(rule, q, c) && !Excluded(rule, q, c, Hidden)
    ensures Governable(rule, q, c, o)
  {
    GovernedWhenStrictest(rule, q, c, o);
  }

  lemma GovernableOnlyWhen<O(!new)>(rule: Block, q: Query, c: Cluster, o: O)
    requires q.kind != "" && Governable(rule, q, c, o)
    ensures Matched(rule, q, c) && !Excluded(rule, q, c, Hidden)
  {
    var m: Meaning<O> :| RuleHolds(rule, q, c, m, o);
    GovernedIsMatched(rule, q, c, m, o);
  }

  lemma MatchedHolds<O>(rule: Block, q: Query, c: Cluster, m: Meaning<O>, o: O)
    requires q.kind != "" && AllReadable(MatchOf(rule), c) && Unconditional(MatchOf(rule)) && Matched(rule, q, c)
    ensures BlockHolds(MatchOf(rule), q, c, m, o)
  {
    var filters := MatchOf(rule);
    SelectsMeans(filters, Hits(q, c, Shown));
    forall f | f in filters.list && Hits(q, c, Shown)(f) ensures FilterHolds(f, q, c, m, o) {
      FilterBounds(f, q, c, m, o);
    }
  }

  /** When every condition fails and unreadable selectors select nothing, the blanket
      filters are the only ones that exclude. */
  lemma NothingExtraExcluded<O>(rule: Block, q: Query, c: Cluster, m: Meaning<O>, o: O)
    requires q.kind != "" && m.unreadable == Hidden
    requires forall cond :: !m.condition(cond, o)
    requires forall users :: !m.subjects(users, o)
    ensures BlockHolds(ExcludeOf(rule), q, c, m, o) <==> Excluded(rule, q, c, Hidden)
  {
    var filters := ExcludeOf(rule);
    SelectsMeans(filters, Blankets(q, c, Hidden));
    forall f | f in filters.list ensures FilterHolds(f, q, c, m, o) <==> Blankets(q, c, Hidden)(f) {
      FilterBounds(f, q, c, m, o);
      KindHitMeans(f, q);
      if Conditions(f) != [] {
        assert Conditions(f)[0] in Conditions(f);
      }
    }
  }

  /** For a rule whose match asks nothing of the object, the one case is plain: it is matched,
      and its exclusion rests on a selector that cannot be read. */
  lemma UnconditionalOmissionExactly<O(!new)>(rule: Block, q: Query, c: Cluster, o: O)
    requires q.kind != "" && AllReadable(MatchOf(rule), c) && Unconditional(MatchOf(rule))
    ensures !Applies(rule, q, c) && Governable(rule, q, c, o) <==>
            Matched(rule, q, c) && Excluded(rule, q, c, Shown) && !Excluded(rule, q, c, Hidden)
    ensures AllReadable(ExcludeOf(rule), c) ==> (Applies(rule, q, c) <==> Governable(rule, q, c, o))
  {
    if Governable(rule, q, c, o) {
      GovernableOnlyWhen(rule, q, c, o);
    }
    if Matched(rule, q, c) && !Excluded(rule, q, c, Hidden) {
      GovernableWhen(rule, q, c, o);
    }
    if AllReadable(ExcludeOf(rule), c) {
      ReadableExclude(rule, q, c);
    }
  }

  // ---- asking about every kind at once ----

  /** A filter that selects objects of every kind. */
  predicate CatchAll(f: Block) {
    Kinds(f) == [] || EVERY_KIND in Kinds(f)
  }

  /** Excluded by the filters that select every kind. */
  predicate ExcludedForAllKinds(rule: Block, q: Query, c: Cluster, guess: Block -> bool) {
    Selects(ExcludeOf(rule), BlanketsForAllKinds(q, c, guess))
  }

  function BlanketsForAllKinds(q: Query, c: Cluster, guess: Block -> bool): Block -> bool {
    f => CatchAll(f) && Blanket(f, q, c, guess)
  }

  lemma SelectsMonotone(filters: Filters, hit: Block -> bool, hit': Block -> bool)
    requires Selects(filters, hit) && forall f :: f in filters.list && hit(f) ==> hit'(f)
    ensures Selects(filters, hit')
  {
    SelectsMeans(filters, hit);
    SelectsMeans(filters, hit');
  }

  ghost predicate GovernsSomeKind<O(!new)>(rule: Block, q: Query, c: Cluster, o: O) {
    exists kind :: kind != "" && Governable(rule, q.(kind := kind), c, o)
  }

  lemma EmptyKindHits(f: Block, q: Query)
    requires q.kind == ""
    ensures KindHit(f, q)
  {
    if Kinds(f) != [] {
      AnyMeans(Kinds(f), Fitting(q));
      assert Kinds(f)[0] in Kinds(f) && Fitting(q)(Kinds(f)[0]);
    }
  }

  lemma CatchAllHits(f: Block, q: Query)
    requires CatchAll(f)
    ensures KindHit(f, q)
  {
    if Kinds(f) != [] {
      AnyMeans(Kinds(f), Fitting(q));
      assert Fitting(q)(EVERY_KIND);
    }
  }

  /** Apart from the kind, a filter hits for one kind as for another. */
  lemma HitForOtherKind(f: Block, q: Query, p: Query, c: Cluster, guess: Block -> bool)
    requires p == q.(kind := p.kind) && KindHit(f, p)
    ensures Hit(f, q, c, guess) ==> Hit(f, p, c, guess)
    ensures Blanket(f, q, c, guess) ==> Blanket(f, p, c, guess)
  {
  }

  /** A rule left out for every kind governs nothing if no match filter hits, or the
      exclusion holds by filters that select every kind. */
  lemma EmptyKindSoundWhen<O(!new)>(rule: Block, q: Query, c: Cluster, o: O)
    requires q.kind == ""
    requires !Matched(rule, q, c) || ExcludedForAllKinds(rule, q, c, Hidden)
    ensures !GovernsSomeKind(rule, q, c, o)
  {
    if GovernsSomeKind(rule, q, c, o) {
      var kind :| kind != "" && Governable(rule, q.(kind := kind), c, o);
      var p := q.(kind := kind);
      GovernableOnlyWhen(rule, p, c, o);
      MatchedForEveryKind(rule, q, p, c);
      ExcludedForEveryKind(rule, q, p, c);
    }
  }

  lemma MatchedForEveryKind(rule: Block, q: Query, p: Query, c: Cluster)
    requires q.kind == "" && p == q.(kind := p.kind) && Matched(rule, p, c)
    ensures Matched(rule, q, c)
  {
    forall f | f in MatchOf(rule).list && Hits(p, c, Shown)(f) ensures Hits(q, c, Shown)(f) {
      EmptyKindHits(f, q);
      HitForOtherKind(f, p, q, c, Shown);
    }
    SelectsMonotone(MatchOf(rule), Hits(p, c, Shown), Hits(q, c, Shown));
  }

  lemma ExcludedForEveryKind(rule: Block, q: Query, p: Query, c: Cluster)
    requires p == q.(kind := p.kind) && ExcludedForAllKinds(rule, q, c, Hidden)
    ensures Excluded(rule, p, c, Hidden)
  {
    forall f | f in ExcludeOf(rule).list && BlanketsForAllKinds(q, c, Hidden)(f) ensures Blankets(p, c, Hidden)(f) {
      CatchAllHits(f, p);
      HitForOtherKind(f, q, p, c, Hidden);
    }
    SelectsMonotone(ExcludeOf(rule), BlanketsForAllKinds(q, c, Hidden), Blankets(p, c, Hidden));
  }

  /** A kind that only filters for every kind select. */
  lemma FreshKind(list: seq<Block>, q: Query) returns (kind: string)
    ensures kind != ""
    ensures forall f :: f in list && KindHit(f, q.(kind := kind)) ==> CatchAll(f)
  {
    var lengths := (set f, short | f in list && short in Kinds(f) :: |short|) + (set a | a in q.autogen :: |a|);
    var n := Above(lengths);
    kind := seq(n + 1, _ => 'x');
    var p := q.(kind := kind);
    assert forall a :: a in q.autogen ==> |a| in lengths;
    forall f | f in list && KindHit(f, p) ensures CatchAll(f) {
      AnyMeans(Kinds(f), Fitting(p));
      if Kinds(f) != [] {
        var short :| short in Kinds(f) && Fitting(p)(short);
        assert |short| in lengths;
        LongKindUnfit(short, p);
      }
    }
  }

  lemma LongKindUnfit(short: string, q: Query)
    requires |short| < |q.kind| && q.kind !in q.autogen
    ensures !FitOf(short, q).Unfit? ==> short == EVERY_KIND
  {
  }

  lemma {:induction false} Above(s: set<nat>) returns (n: nat)
    ensures forall x :: x in s ==> x <= n
  {
    n := 0;
    if s != {} {
      var x :| x in s;
      n := Above(s - {x});
      assert forall y :: y in s ==> y == x || y in s - {x};
      n := if x > n then x else n;
    }
  }

  /** For a rule that matches every kind, that condition is exact: an omission for the
      empty kind is right if and only if filters for every kind exclude it. */
  lemma CatchAllSoundExactly<O(!new)>(rule: Block, q: Query, c: Cluster, o: O)
    requires q.kind == ""
    requires AllReadable(MatchOf(rule), c) && Unconditional(MatchOf(rule))
    requires forall f :: f in MatchOf(rule).list ==> CatchAll(f)
    ensures !GovernsSomeKind(rule, q, c, o) <==> !Matched(rule, q, c) || ExcludedForAllKinds(rule, q, c, Hidden)
    ensures !Applies(rule, q, c) && GovernsSomeKind(rule, q, c, o) <==>
            Matched(rule, q, c) && Excluded(rule, q, c, Shown) && !ExcludedForAllKinds(rule, q, c, Hidden)
  {
    if !Matched(rule, q, c) || ExcludedForAllKinds(rule, q, c, Hidden) {
      EmptyKindSoundWhen(rule, q, c, o);
    } else {
      var kind := FreshKind(ExcludeOf(rule).list, q);
      var p := q.(kind := kind);
      CatchAllMatched(rule, q, p, c);
      FreshNotExcluded(rule, q, p, c);
      GovernableWhen(rule, p, c, o);
    }
  }

  lemma CatchAllMatched(rule: Block, q: Query, p: Query, c: Cluster)
    requires p == q.(kind := p.kind) && Matched(rule, q, c)
    requires forall f :: f in MatchOf(rule).list ==> CatchAll(f)
    ensures Matched(rule, p, c)
  {
    forall f | f in MatchOf(rule).list && Hits(q, c, Shown)(f) ensures Hits(p, c, Shown)(f) {
      CatchAllHits(f, p);
      HitForOtherKind(f, q, p, c, Shown);
    }
    SelectsMonotone(MatchOf(rule), Hits(q, c, Shown), Hits(p, c, Shown));
  }

  lemma FreshNotExcluded(rule: Block, q: Query, p: Query, c: Cluster)
    requires q.kind == "" && p == q.(kind := p.kind) && !ExcludedForAllKinds(rule, q, c, Hidden)
    requires forall f :: f in ExcludeOf(rule).list && KindHit(f, p) ==> CatchAll(f)
    ensures !Excluded(rule, p, c, Hidden)
  {
    if Excluded(rule, p, c, Hidden) {
      forall f | f in ExcludeOf(rule).list && Blankets(p, c, Hidden)(f) ensures BlanketsForAllKinds(q, c, Hidden)(f) {
        EmptyKindHits(f, q);
        HitForOtherKind(f, p, q, c, Hidden);
      }
      SelectsMonotone(ExcludeOf(rule), Blankets(p, c, Hidden), BlanketsForAllKinds(q, c, Hidden));
    }
  }

  // ---- every kind at once, for any rule ----

  function CharVariants(ch: char): set<char> {
    if 'a' <= Lower(ch) <= 'z' then {Lower(ch), (Lower(ch) as int - 'a' as int + 'A' as int) as char} else {ch}
  }

  /** The spellings of a kind that differ in case only. */
  function Variants(s: string): set<string> {
    if s == "" then {""} else set ch, t | ch in CharVariants(s[0]) && t in Variants(s[1..]) :: [ch] + t
  }

  lemma {:induction false} VariantsAre(s: string, t: string)
    ensures t in Variants(s) <==> EqualFold(s, t)
  {
    if s != "" && t != "" {
      VariantsAre(s[1..], t[1..]);
      assert t == [t[0]] + t[1..];
      assert t[0] in CharVariants(s[0]) <==> Lower(t[0]) == Lower(s[0]);
      EqualFoldTail(s, t);
      if t in Variants(s) {
        var ch, u :| ch in CharVariants(s[0]) && u in Variants(s[1..]) && t == [ch] + u;
        assert t[0] == ch && t[1..] == u;
      }
    } else if t in Variants(s) {
      assert s == t;
    } else {
      assert EqualFold(s, t) ==> |ToLower(s)| == |ToLower(t)|;
    }
  }

  lemma EqualFoldTail(s: string, t: string)
    requires s != "" && t != ""
    ensures EqualFold(s, t) <==> Lower(s[0]) == Lower(t[0]) && EqualFold(s[1..], t[1..])
  {
    assert ToLower(s) == [Lower(s[0])] + ToLower(s[1..]);
    assert ToLower(t) == [Lower(t[0])] + ToLower(t[1..]);
    assert ToLower(s)[1..] == ToLower(s[1..]) && ToLower(t)[1..] == ToLower(t[1..]);
  }

  /** The kinds a rule's filters name. */
  function NamedKinds(rule: Block): set<string> {
    var list := MatchOf(rule).list + ExcludeOf(rule).list;
    set f, short | f in list && short in Kinds(f) :: short
  }

  ghost function Longest(kinds: set<string>): (n: nat)
    ensures forall k :: k in kinds ==> |k| <= n
  {
    if kinds == {} then 0
    else
      var k :| k in kinds;
      var n := Longest(kinds - {k});
      assert forall other :: other in kinds ==> other == k || other in kinds - {k};
      if |k| > n then |k| else n
  }

  /** A kind that no filter names and nothing is generated for. */
  ghost function UnnamedKind(rule: Block, q: Query): string {
    seq(Longest(NamedKinds(rule) + q.autogen) + 1, _ => 'x')
  }

  /** Finitely many kinds stand for all: the generated ones, every spelling of the named
      ones, and one that is neither. */
  ghost function KindsToTry(rule: Block, q: Query): set<string> {
    (q.autogen + (set s, t | s in NamedKinds(rule) && t in Variants(s) :: t) + {UnnamedKind(rule, q)}) - {""}
  }

  /** The filters of the rule cannot tell the two kinds apart. */
  ghost predicate Alike(rule: Block, q: Query, a: string, b: string) {
    forall f :: f in MatchOf(rule).list + ExcludeOf(rule).list ==>
      (CoversKind(f, q.(kind := a)) <==> CoversKind(f, q.(kind := b)))
  }

  lemma UnnamedIsLonger(rule: Block, q: Query, s: string)
    requires s in NamedKinds(rule) || s in q.autogen
    ensures |s| < |UnnamedKind(rule, q)| && s != UnnamedKind(rule, q)
  {
    assert s in NamedKinds(rule) + q.autogen;
  }

  lemma LongerIsOther(s: string, t: string)
    requires |s| < |t|
    ensures !EqualFold(s, t)
  {
    assert |ToLower(s)| < |ToLower(t)|;
  }

  /** Kinds that are neither generated nor named are covered by the same filters. */
  lemma UnnamedAlike(f: Block, q: Query, a: string, b: string)
    requires a !in q.autogen && b !in q.autogen
    requires forall s :: s in Kinds(f) ==> !EqualFold(s, a) && !EqualFold(s, b)
    ensures CoversKind(f, q.(kind := a)) <==> CoversKind(f, q.(kind := b))
  {
  }

  lemma FilterAlike(rule: Block, q: Query, f: Block, kind: string)
    requires f in MatchOf(rule).list + ExcludeOf(rule).list && kind != "" && kind !in KindsToTry(rule, q)
    ensures CoversKind(f, q.(kind := kind)) <==> CoversKind(f, q.(kind := UnnamedKind(rule, q)))
  {
    var k := UnnamedKind(rule, q);
    forall s | s in Kinds(f) ensures !EqualFold(s, kind) && !EqualFold(s, k) {
      assert s in NamedKinds(rule);
      VariantsAre(s, kind);
      UnnamedIsLonger(rule, q, s);
      LongerIsOther(s, k);
    }
    assert k !in q.autogen by {
      if k in q.autogen {
        UnnamedIsLonger(rule, q, k);
      }
    }
    UnnamedAlike(f, q, kind, k);
  }

  lemma UnnamedIsTried(rule: Block, q: Query)
    ensures UnnamedKind(rule, q) in KindsToTry(rule, q)
  {
    assert |UnnamedKind(rule, q)| > 0;
  }

  lemma UntriedAlike(rule: Block, q: Query, kind: string)
    requires kind != "" && kind !in KindsToTry(rule, q)
    ensures Alike(rule, q, kind, UnnamedKind(rule, q))
  {
    forall f | f in MatchOf(rule).list + ExcludeOf(rule).list
      ensures CoversKind(f, q.(kind := kind)) <==> CoversKind(f, q.(kind := UnnamedKind(rule, q)))
    {
      FilterAlike(rule, q, f, kind);
    }
  }

  lemma KindStandsFor(rule: Block, q: Query, kind: string) returns (k: string)
    requires kind != ""
    ensures k in KindsToTry(rule, q) && Alike(rule, q, kind, k)
  {
    if kind in KindsToTry(rule, q) {
      k := kind;
    } else {
      UnnamedIsTried(rule, q);
      UntriedAlike(rule, q, kind);
      k := UnnamedKind(rule, q);
    }
  }

  /** A filter reads the kind only through `CoversKind`. */
  lemma OnlyKindDiffers(f: Block, fs: seq<Block>, q: Query, c: Cluster, a: string, b: string)
    requires CoversKind(f, q.(kind := a)) <==> CoversKind(f, q.(kind := b))
    ensures Possible(f, q.(kind := a), c) <==> Possible(f, q.(kind := b), c)
    ensures Follows(f, fs, q.(kind := a), c) <==> Follows(f, fs, q.(kind := b), c)
  {
  }

  lemma AlikeLeaves(rule: Block, fs: seq<Block>, q: Query, c: Cluster, a: string, b: string)
    requires Alike(rule, q, a, b) && fs in Choices(MatchOf(rule)) && Leaves(rule, fs, q.(kind := a), c)
    ensures Leaves(rule, fs, q.(kind := b), c)
  {
    var all := MatchOf(rule).list + ExcludeOf(rule).list;
    forall f | f in fs ensures Possible(f, q.(kind := b), c) {
      ChoiceMembers(MatchOf(rule), fs, f);
      assert f in all;
      OnlyKindDiffers(f, fs, q, c, a, b);
    }
    forall g | g in ExcludeOf(rule).list
      ensures Follows(g, fs, q.(kind := a), c) <==> Follows(g, fs, q.(kind := b), c)
    {
      assert g in all;
      OnlyKindDiffers(g, fs, q, c, a, b);
    }
  }

  lemma AlikeSurvives(rule: Block, q: Query, c: Cluster, a: string, b: string)
    requires Alike(rule, q, a, b) && Survives(rule, q.(kind := a), c)
    ensures Survives(rule, q.(kind := b), c)
  {
    var fs :| fs in Choices(MatchOf(rule)) && Leaves(rule, fs, q.(kind := a), c);
    AlikeLeaves(rule, fs, q, c, a, b);
  }

  lemma ChoiceMembers(filters: Filters, fs: seq<Block>, f: Block)
    requires fs in Choices(filters) && f in fs
    ensures f in filters.list
  {
  }

  /** Some kind that a rule could govern, if any, is found among finitely many. */
  ghost predicate SurvivesSomeKind(rule: Block, q: Query, c: Cluster) {
    exists k :: k in KindsToTry(rule, q) && Survives(rule, q.(kind := k), c)
  }

  lemma GovernsSomeKindExactly<O(!new)>(rule: Block, q: Query, c: Cluster, o: O)
    ensures GovernsSomeKind(rule, q, c, o) <==> SurvivesSomeKind(rule, q, c)
  {
    if GovernsSomeKind(rule, q, c, o) {
      var kind :| kind != "" && Governable(rule, q.(kind := kind), c, o);
      GovernableExactly(rule, q.(kind := kind), c, o);
      var k := KindStandsFor(rule, q, kind);
      AlikeSurvives(rule, q, c, kind, k);
    }
    if SurvivesSomeKind(rule, q, c) {
      var k :| k in KindsToTry(rule, q) && Survives(rule, q.(kind := k), c);
      GovernableExactly(rule, q.(kind := k), c, o);
    }
  }

  /** Asked about every kind, the omission of a rule is wrong in exactly one case: it is
      excluded, and yet survives for one of finitely many kinds. */
  lemma EmptyKindSoundExactly<O(!new)>(rule: Block, q: Query, c: Cluster, o: O)
    requires q.kind == ""
    ensures GovernsSomeKind(rule, q, c, o) <==> SurvivesSomeKind(rule, q, c)
    ensures !Applies(rule, q, c) && GovernsSomeKind(rule, q, c, o) <==>
            Excluded(rule, q, c, Shown) && SurvivesSomeKind(rule, q, c)
  {
    GovernsSomeKindExactly(rule, q, c, o);
    if GovernsSomeKind(rule, q, c, o) {
      var kind :| kind != "" && Governable(rule, q.(kind := kind), c, o);
      GovernableIsMatched(rule, q.(kind := kind), c, o);
      MatchedForEveryKind(rule, q, q.(kind := kind), c);
    }
  }

  // ---- the two ways a governing rule is hidden ----

  /** A rule with one match filter, one exclude filter and no preconditions. */
  predicate OneFilterEach(rule: Block, matched: Block, excluded: Block) {
    && MatchOf(rule) == Filters([matched], true)
    && ExcludeOf(rule) == Filters([excluded], true)
    && IsEmpty(At(rule, PRECONDITIONS))
  }

  lemma OneFilterDecides(rule: Block, matched: Block, excluded: Block, q: Query, c: Cluster)
    requires OneFilterEach(rule, matched, excluded)
    ensures Applies(rule, q, c) <==> Hit(matched, q, c, Shown) && !Blanket(excluded, q, c, Shown)
  {
    SelectsMeans(MatchOf(rule), Hits(q, c, Shown));
    SelectsMeans(ExcludeOf(rule), Blankets(q, c, Shown));
    assert matched in [matched] && excluded in [excluded];
  }

  lemma OneFilterGoverns<O>(rule: Block, matched: Block, excluded: Block, q: Query, c: Cluster, m: Meaning<O>, o: O)
    requires OneFilterEach(rule, matched, excluded)
    ensures RuleHolds(rule, q, c, m, o) <==> FilterHolds(matched, q, c, m, o) && !FilterHolds(excluded, q, c, m, o)
  {
    assert matched in [matched] && excluded in [excluded];
  }

  function OneKind(kind: string): Block {
    map[KINDS := Arr([Str(kind)])]
  }

  lemma OneKindFilter(kind: string)
    requires '/' !in kind
    ensures var f := OneKind(kind);
            && Kinds(f) == [kind] && Conditions(f) == [] && !HasSubjects(f)
            && Strings(At(f, NAMESPACES)) == [] && At(f, NAMESPACE_SELECTOR) == Null
  {
    var f, items := OneKind(kind), [Str(kind)];
    FieldNamesDiffer();
    assert items[..|items| - 1] == [] && StringsIn(items) == [kind];
    assert Strings(At(f, KINDS)) == [kind];
    assert [kind][..|[kind]| - 1] == [] && Shorts([kind]) == [Short(kind)];
  }

  lemma OneKindHit(kind: string, q: Query, c: Cluster, guess: Block -> bool)
    requires '/' !in kind
    ensures Hit(OneKind(kind), q, c, guess) <==> !FitOf(kind, q).Unfit?
    ensures Blanket(OneKind(kind), q, c, guess) <==> !FitOf(kind, q).Unfit?
  {
    OneKindFilter(kind);
    OnlyKindMatters(OneKind(kind), kind, q, c, guess);
  }

  lemma OnlyKindMatters(f: Block, kind: string, q: Query, c: Cluster, guess: Block -> bool)
    requires Kinds(f) == [kind] && Conditions(f) == [] && !HasSubjects(f)
    requires Strings(At(f, NAMESPACES)) == [] && At(f, NAMESPACE_SELECTOR) == Null
    ensures Hit(f, q, c, guess) <==> !FitOf(kind, q).Unfit?
    ensures Blanket(f, q, c, guess) <==> !FitOf(kind, q).Unfit?
  {
    AnyMeans([kind], Fitting(q));
    assert kind in [kind];
  }

  lemma OneKindHolds<O>(kind: string, q: Query, c: Cluster, m: Meaning<O>, o: O)
    requires '/' !in kind && q.kind != ""
    ensures FilterHolds(OneKind(kind), q, c, m, o) <==> !FitOf(kind, q).Unfit?
  {
    OneKindFilter(kind);
    OneKindHit(kind, q, c, Shown);
    FilterBounds(OneKind(kind), q, c, m, o);
  }

  function BySelector(sel: Block): Block {
    map[NAMESPACE_SELECTOR := Obj(sel)]
  }

  lemma BySelectorFilter(sel: Block)
    ensures var f := BySelector(sel);
            && Kinds(f) == [] && Conditions(f) == [] && !HasSubjects(f) && Strings(At(f, NAMESPACES)) == []
            && At(f, NAMESPACE_SELECTOR) == Obj(sel)
  {
    FieldNamesDiffer();
  }

  /** An exclude selector that cannot be read, and in truth selects nothing here, hides a
      rule that governs every object of the kind. */
  lemma UnreadableExcludeHides<O>(rule: Block, sel: Block, q: Query, c: Cluster, m: Meaning<O>, o: O)
    requires q.kind != "" && '/' !in q.kind && OneFilterEach(rule, OneKind(q.kind), BySelector(sel))
    requires c.read(sel) == None && !m.unreadable(sel)
    ensures !Applies(rule, q, c) && RuleHolds(rule, q, c, m, o)
  {
    UnreadableIsExcluded(rule, OneKind(q.kind), sel, q, c);
    UnreadableDoesNotHold(sel, q, c, m, o);
    OneKindHolds(q.kind, q, c, m, o);
    OneFilterGoverns(rule, OneKind(q.kind), BySelector(sel), q, c, m, o);
  }

  lemma UnreadableIsExcluded(rule: Block, matched: Block, sel: Block, q: Query, c: Cluster)
    requires OneFilterEach(rule, matched, BySelector(sel)) && c.read(sel) == None
    ensures !Applies(rule, q, c)
  {
    BySelectorFilter(sel);
    OneFilterDecides(rule, matched, BySelector(sel), q, c);
  }

  lemma UnreadableDoesNotHold<O>(sel: Block, q: Query, c: Cluster, m: Meaning<O>, o: O)
    requires c.read(sel) == None && !m.unreadable(sel)
    ensures !FilterHolds(BySelector(sel), q, c, m, o)
  {
    BySelectorFilter(sel);
  }

  /** Asked about every kind, an exclude filter for kind `b` hides a rule that governs
      every object of kind `a`. */
  lemma EmptyKindHides<O>(rule: Block, a: string, b: string, q: Query, c: Cluster, m: Meaning<O>, o: O)
    requires q.kind == "" && a != "" && '/' !in a && '/' !in b
    requires b != EVERY_KIND && b != POD && !EqualFold(b, a)
    requires OneFilterEach(rule, OneKind(a), OneKind(b))
    ensures !Applies(rule, q, c) && RuleHolds(rule, q.(kind := a), c, m, o)
  {
    OneFilterDecides(rule, OneKind(a), OneKind(b), q, c);
    OneKindHit(b, q, c, Shown);
    OneFilterGoverns(rule, OneKind(a), OneKind(b), q.(kind := a), c, m, o);
    OneKindHolds(a, q.(kind := a), c, m, o);
    OneKindHolds(b, q.(kind := a), c, m, o);
  }

  // ---- such rules exist ----

  lemma LegacyFilters(key: string, value: Json)
    requires !IsEmpty(value)
    ensures FiltersOf(Fields(Wrapped(key, value))) == Filters([map[key := value]], true)
  {
    FieldNamesDiffer();
    WrappedFlattens(key, value);
    assert key in map[key := value];
  }

  /** A rule with one resource field to match and one to exclude, in the legacy form. */
  function RuleOf(k: string, v: Json, k': string, v': Json): Block {
    map[MATCH := Wrapped(k, v), EXCLUDE := Wrapped(k', v')]
  }

  lemma RuleOfFilters(k: string, v: Json, k': string, v': Json)
    requires !IsEmpty(v) && !IsEmpty(v')
    ensures MatchOf(RuleOf(k, v, k', v')) == Filters([map[k := v]], true)
    ensures ExcludeOf(RuleOf(k, v, k', v')) == Filters([map[k' := v']], true)
  {
    LegacyFilters(k, v);
    LegacyFilters(k', v');
    FieldNamesDiffer();
  }

  lemma SuchRulesExist(a: string, b: string, sel: Block)
    requires sel != map[]
    ensures OneFilterEach(RuleOf(KINDS, Arr([Str(a)]), NAMESPACE_SELECTOR, Obj(sel)), OneKind(a), BySelector(sel))
    ensures OneFilterEach(RuleOf(KINDS, Arr([Str(a)]), KINDS, Arr([Str(b)])), OneKind(a), OneKind(b))
  {
    RuleOfFilters(KINDS, Arr([Str(a)]), NAMESPACE_SELECTOR, Obj(sel));
    RuleOfFilters(KINDS, Arr([Str(a)]), KINDS, Arr([Str(b)]));
    FieldNamesDiffer();
  }
}
