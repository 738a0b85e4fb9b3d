/** Which policy rules apply in a namespace: the rule's match and exclude blocks, decided
    for all objects of a kind at once from the kind and the namespace alone. */
module Policy {
  import opened Outcomes
  import opened Text
  import opened JsonTree
  import opened PodScan
  import opened Folds

  type Block = map<string, Json>

  const ALL := "all"
  const ANY := "any"
  const RESOURCES := "resources"
  const SUBJECTS := "subjects"
  const ROLES := "roles"
  const CLUSTER_ROLES := "clusterRoles"
  const KINDS := "kinds"
  const NAMESPACES := "namespaces"
  const NAMESPACE_SELECTOR := "namespaceSelector"
  const NAMES := "names"
  const SELECTOR := "selector"
  const ANNOTATIONS := "annotations"
  const OPERATIONS := "operations"
  const MATCH := "match"
  const EXCLUDE := "exclude"
  const PRECONDITIONS := "preconditions"
  const EVERY_KIND := "*"
  const POD := "Pod"

  const USER_FIELDS := [SUBJECTS, ROLES, CLUSTER_ROLES]

  // ---- reading decoded JSON ----

  function At(b: Block, key: string): Json {
    if key in b then b[key] else Null
  }

  function Fields(j: Json): Block {
    if j.Obj? then j.fields else map[]
  }

  function Items(j: Json): seq<Json> {
    if j.Arr? then j.items else []
  }

  predicate IsEmpty(j: Json) {
    match j
    case Null => true
    case Obj(fields) => fields == map[]
    case Arr(items) => items == []
    case Str(s) => s == ""
    case _ => false
  }

  /** Null, an empty object, an empty list and the empty string are no value; zero and false are. */
  lemma IsEmptyMeans(j: Json)
    ensures IsEmpty(j) <==> j == Null || j == Obj(map[]) || j == Arr([]) || j == Str("")
  {
  }

  function StringsIn(items: seq<Json>): seq<string> {
    if items == [] then []
    else
      var last := items[|items| - 1];
      StringsIn(items[..|items| - 1]) + if last.Str? then [last.s] else []
  }

  function Strings(j: Json): seq<string> {
    StringsIn(Items(j))
  }

  method StrSlice(j: Json) returns (out: seq<string>)
    ensures out == Strings(j)
  {
    var items := Items(j);
    out := [];
    for i := 0 to |items|
      invariant out == StringsIn(items[..i])
    {
      assert items[..i + 1][..i] == items[..i];
      if items[i].Str? {
        out := out + [items[i].s];
      }
    }
    assert items[..|items|] == items;
  }

  lemma {:induction false} StringsHave(items: seq<Json>)
    ensures forall s :: s in StringsIn(items) <==> Str(s) in items
  {
    if items != [] {
      StringsHave(items[..|items| - 1]);
      assert items == items[..|items| - 1] + [items[|items| - 1]];
    }
  }

  /** Strings are kept one for one and in order, and nothing else is: reading lists one after
      the other is reading them joined. */
  lemma {:induction false} StringsJoin(a: seq<Json>, b: seq<Json>)
    ensures StringsIn(a + b) == StringsIn(a) + StringsIn(b)
    ensures forall s :: StringsIn([Str(s)]) == [s]
    ensures forall j: Json :: !j.Str? ==> StringsIn([j]) == []
  {
    if b == [] {
      assert a + b == a;
    } else {
      assert (a + b)[..|a + b| - 1] == a + b[..|b| - 1];
      StringsJoin(a, b[..|b| - 1]);
    }
  }

  /** The field is a list that holds the string. */
  predicate Lists(f: Block, key: string, s: string) {
    key in f && f[key].Arr? && Str(s) in f[key].items
  }

  lemma ListsStrings(f: Block, key: string)
    ensures forall s :: s in Strings(At(f, key)) <==> Lists(f, key, s)
    ensures Strings(At(f, key)) == [] <==> forall s :: !Lists(f, key, s)
  {
    StringsHave(Items(At(f, key)));
    if Strings(At(f, key)) != [] {
      assert Strings(At(f, key))[0] in Strings(At(f, key));
    }
  }

  function Unique<T(==)>(s: seq<T>): seq<T> {
    if s == [] then []
    else
      var init, last := s[..|s| - 1], s[|s| - 1];
      Unique(init) + if last in init then [] else [last]
  }

  lemma {:induction false} UniqueKeepsMembers<T>(s: seq<T>)
    ensures forall x :: x in Unique(s) <==> x in s
    ensures forall i, j :: 0 <= i < j < |Unique(s)| ==> Unique(s)[i] != Unique(s)[j]
  {
    if s != [] {
      UniqueKeepsMembers(s[..|s| - 1]);
      assert s == s[..|s| - 1] + [s[|s| - 1]];
    }
  }

  method Uniq<T(==)>(s: seq<T>) returns (out: seq<T>)
    ensures out == Unique(s)
  {
    var seen: set<T> := {};
    out := [];
    for i := 0 to |s|
      invariant out == Unique(s[..i]) && forall x :: x in seen <==> x in s[..i]
    {
      assert s[..i + 1][..i] == s[..i];
      if s[i] !in seen {
        seen := seen + {s[i]};
        out := out + [s[i]];
      }
    }
    assert s[..|s|] == s;
  }

  // ---- filters ----

  /** The filters of a match or exclude block, and whether all of them must hold. */
  datatype Filters = Filters(list: seq<Block>, all: bool)

  /** A filter's non-empty resource fields, together with its user fields. */
  function Flatten(f: Block): Block {
    var resources := Fields(At(f, RESOURCES));
    Filled(resources) +
    Picked(f, USER_FIELDS)
  }

  function Filled(b: Block): (r: Block)
    ensures forall k :: k in r <==> k in b && !IsEmpty(b[k])
    ensures forall k :: k in r ==> r[k] == b[k]
  {
    b - set k | k in b && IsEmpty(b[k])
  }

  function Picked(f: Block, keys: seq<string>): (r: Block)
    ensures forall k :: k in r <==> k in f && k in keys
    ensures forall k :: k in r ==> r[k] == f[k]
  {
    f - set k | k in f && k !in keys
  }

  method FlattenFilter(f: Block) returns (out: Block)
    ensures out == Flatten(f)
  {
    out := NonEmptyFields(Fields(At(f, RESOURCES)));
    out := PickFields(out, f, USER_FIELDS);
  }

  method NonEmptyFields(resources: Block) returns (out: Block)
    ensures out == Filled(resources)
  {
    out := map[];
    var todo := resources.Keys;
    while todo != {}
      invariant todo <= resources.Keys
      invariant forall k :: k in out <==> k in resources && k !in todo && !IsEmpty(resources[k])
      invariant forall k :: k in out ==> out[k] == resources[k]
    {
      var k :| k in todo;
      if !IsEmpty(resources[k]) {
        out := out[k := resources[k]];
      }
      todo := todo - {k};
    }
  }

  lemma PickedOneMore(f: Block, keys: seq<string>, i: nat)
    requires i < |keys|
    ensures Picked(f, keys[..i + 1]) ==
            if keys[i] in f then Picked(f, keys[..i])[keys[i] := f[keys[i]]] else Picked(f, keys[..i])
  {
  }

  method PickFields(into: Block, f: Block, keys: seq<string>) returns (out: Block)
    ensures out == into + Picked(f, keys)
  {
    out := into;
    for i := 0 to |keys|
      invariant out == into + Picked(f, keys[..i])
    {
      PickedOneMore(f, keys, i);
      if keys[i] in f {
        out := out[keys[i] := f[keys[i]]];
      }
    }
    assert keys[..|keys|] == keys;
  }

  function Collected(items: seq<Json>): seq<Block> {
    if items == [] then []
    else
      var last := items[|items| - 1];
      Collected(items[..|items| - 1]) + if last.Obj? then NonEmpty(Flatten(last.fields)) else []
  }

  function NonEmpty(f: Block): seq<Block> {
    if f == map[] then [] else [f]
  }

  method Collect(items: seq<Json>) returns (out: seq<Block>)
    ensures out == Collected(items)
  {
    out := [];
    for i := 0 to |items|
      invariant out == Collected(items[..i])
    {
      assert items[..i + 1][..i] == items[..i];
      if items[i].Obj? {
        var f := FlattenFilter(items[i].fields);
        if f != map[] {
          out := out + [f];
        }
      }
    }
    assert items[..|items|] == items;
  }

  function FiltersOf(block: Block): Filters {
    var alls, anys := Collected(Items(At(block, ALL))), Collected(Items(At(block, ANY)));
    if alls != [] then Filters(alls, true)
    else if anys != [] then Filters(anys, false)
    else if RESOURCES in block && Flatten(block) != map[] then Filters([Flatten(block)], true)
    else Filters([], false)
  }

  method ResourceFilters(block: Block) returns (filters: Filters)
    ensures filters == FiltersOf(block)
  {
    var list := Collect(Items(At(block, ALL)));
    if list != [] {
      return Filters(list, true);
    }
    list := Collect(Items(At(block, ANY)));
    if list != [] {
      return Filters(list, false);
    }
    if RESOURCES in block {
      var f := FlattenFilter(block);
      if f != map[] {
        return Filters([f], true);
      }
    }
    return Filters([], false);
  }

  /** A filter reads its user fields from the block itself and every other field from the
      resources, where an empty value is no field. */
  lemma FlattenReads(f: Block, k: string)
    ensures var resource := At(Fields(At(f, "resources")), k);
            var user := k in ["subjects", "roles", "clusterRoles"];
            var empty := resource == Null || resource == Obj(map[]) || resource == Arr([]) || resource == Str("");
            && (k in Flatten(f) <==> (user && k in f) || !empty)
            && At(Flatten(f), k) == if user && k in f then f[k] else if empty then Null else resource
  {
    IsEmptyMeans(At(Fields(At(f, "resources")), k));
  }

  /** A filter with one resource field. */
  function Wrapped(key: string, value: Json): Json {
    Obj(map[RESOURCES := Obj(map[key := value])])
  }

  /** Tells the field names apart. */
  lemma FieldNamesDiffer()
    ensures |KINDS| == 5 && |NAMESPACES| == 10 && |NAMESPACE_SELECTOR| == 17
    ensures |NAMES| == |ROLES| == 5 && NAMES[0] == 'n' && ROLES[0] == 'r' && KINDS[0] == 'k'
    ensures |SELECTOR| == 8 && |ANNOTATIONS| == 11 && |OPERATIONS| == 10 && |SUBJECTS| == 8 && |CLUSTER_ROLES| == 12
    ensures |MATCH| == 5 && |EXCLUDE| == 7 && |PRECONDITIONS| == 13
    ensures |ALL| == |ANY| == 3 && ALL[1] == 'l' && ANY[1] == 'n' && |RESOURCES| == 9
  {
  }

  lemma WrappedFlattens(key: string, value: Json)
    requires !IsEmpty(value)
    ensures Flatten(Wrapped(key, value).fields) == map[key := value]
  {
    var f := Wrapped(key, value).fields;
    FieldNamesDiffer();
    assert Picked(f, USER_FIELDS) == map[];
    assert Fields(At(f, RESOURCES)) == map[key := value];
  }

  /** The filter is a non-empty one of the block's list under the key. */
  ghost predicate Candidate(block: Block, key: string, f: Block) {
    f != map[] && exists j :: j in Items(At(block, key)) && j.Obj? && f == Flatten(j.fields)
  }

  lemma {:induction false} CollectedHas(items: seq<Json>, f: Block)
    ensures f in Collected(items) <==> f != map[] && exists j :: j in items && j.Obj? && f == Flatten(j.fields)
  {
    if items != [] {
      CollectedHas(items[..|items| - 1], f);
      assert items == items[..|items| - 1] + [items[|items| - 1]];
    }
  }

  lemma ListHas(block: Block, key: string)
    ensures var list := Collected(Items(At(block, key)));
            && (forall f :: f in list <==> Candidate(block, key, f))
            && (list == [] <==> forall f :: !Candidate(block, key, f))
  {
    var list := Collected(Items(At(block, key)));
    forall f ensures f in list <==> Candidate(block, key, f) {
      CollectedHas(Items(At(block, key)), f);
    }
    if list != [] {
      assert list[0] in list;
    }
  }

  /** Which filters decide: those under `all` if there is a non-empty one, else those under
      `any`, else the block itself when it names resources; only `any` is a choice. */
  lemma FiltersAre(block: Block)
    ensures (exists f :: Candidate(block, "all", f)) ==>
              FiltersOf(block).all && forall f :: f in FiltersOf(block).list <==> Candidate(block, "all", f)
    ensures (forall f :: !Candidate(block, "all", f)) && (exists f :: Candidate(block, "any", f)) ==>
              !FiltersOf(block).all && forall f :: f in FiltersOf(block).list <==> Candidate(block, "any", f)
    ensures (forall f :: !Candidate(block, "all", f)) && (forall f :: !Candidate(block, "any", f)) ==>
              && (FiltersOf(block).all <==> FiltersOf(block).list != [])
              && forall f :: f in FiltersOf(block).list <==> "resources" in block && f != map[] && f == Flatten(block)
  {
    ListHas(block, ALL);
    ListHas(block, ANY);
  }

  // ---- one filter ----

  /** Glob patterns and label selectors are the cluster's: any relation, any reader. A
      selector that cannot be read has no meaning of its own. */
  datatype Cluster = Cluster(glob: (string, string) -> bool, read: Block -> Option<Labels -> bool>)

  /** What the caller asks about. An empty kind asks about every kind. */
  datatype Query = Query(ns: string, nsLabels: Labels, kind: string, autogen: set<string>)

  datatype Fit = Direct | Autogen | Unfit

  predicate EqualFold(a: string, b: string) {
    ToLower(a) == ToLower(b)
  }

  function Short(kind: string): string {
    AfterLast(kind, '/')
  }

  function Shorts(kinds: seq<string>): seq<string> {
    if kinds == [] then [] else Shorts(kinds[..|kinds| - 1]) + [Short(kinds[|kinds| - 1])]
  }

  function Kinds(f: Block): seq<string> {
    Shorts(Strings(At(f, KINDS)))
  }

  function FitOf(short: string, q: Query): Fit {
    if q.kind == "" || short == EVERY_KIND || EqualFold(short, q.kind) then Direct
    else if short == POD && q.kind in q.autogen then Autogen
    else Unfit
  }

  function Fitting(q: Query): string -> bool {
    short => !FitOf(short, q).Unfit?
  }

  function ByAutogen(q: Query): string -> bool {
    short => FitOf(short, q).Autogen?
  }

  predicate KindHit(f: Block, q: Query) {
    Kinds(f) == [] || Any(Kinds(f), Fitting(q))
  }

  predicate ViaAutogen(f: Block, q: Query) {
    Any(Kinds(f), ByAutogen(q))
  }

  function AutogenNote(kind: string): string {
    "autogen: the Pod rule is applied to the " + kind + "'s pod template"
  }

  /** The note when it is due, and no text otherwise. */
  function NoteIf(due: bool, kind: string): (note: string)
    ensures note == "" <==> !due
  {
    if due then AutogenNote(kind) else ""
  }

  lemma KindOneMore(kinds: seq<string>, i: nat, q: Query)
    requires i < |kinds|
    ensures var before, after, short := Shorts(kinds[..i]), Shorts(kinds[..i + 1]), Short(kinds[i]);
            && after == before + [short]
            && (Any(after, Fitting(q)) <==> Any(before, Fitting(q)) || !FitOf(short, q).Unfit?)
            && (Any(after, ByAutogen(q)) <==> Any(before, ByAutogen(q)) || FitOf(short, q).Autogen?)
  {
    var before, short := Shorts(kinds[..i]), Short(kinds[i]);
    assert kinds[..i + 1][..i] == kinds[..i];
    assert (before + [short])[..|before|] == before;
  }

  method KindMatches(f: Block, q: Query) returns (names: seq<string>, ok: bool, via: string)
    ensures names == Kinds(f) && ok == KindHit(f, q) && via == NoteIf(ViaAutogen(f, q), q.kind)
  {
    var kinds := StrSlice(At(f, KINDS));
    names, ok, via := [], false, "";
    for i := 0 to |kinds|
      invariant names == Shorts(kinds[..i])
      invariant ok == Any(names, Fitting(q)) && via == NoteIf(Any(names, ByAutogen(q)), q.kind)
    {
      KindOneMore(kinds, i, q);
      var short := Short(kinds[i]);
      names := names + [short];
      if q.kind == "" || short == EVERY_KIND || EqualFold(short, q.kind) {
        ok := true;
      } else if short == POD && q.kind in q.autogen {
        ok, via := true, AutogenNote(q.kind);
      }
    }
    assert kinds[..|kinds|] == kinds;
    if names == [] {
      ok := true;
    }
  }

  /** A selector holds as it reads; an unreadable one holds as guessed. */
  predicate SelectorHit(sel: Block, q: Query, c: Cluster, guess: Block -> bool) {
    match c.read(sel)
    case None => guess(sel)
    case Some(selects) => selects(q.nsLabels)
  }

  predicate NamespaceHit(f: Block, q: Query, c: Cluster, guess: Block -> bool) {
    var patterns := Strings(At(f, NAMESPACES));
    && (patterns == [] || exists p :: p in patterns && c.glob(p, q.ns))
    && (At(f, NAMESPACE_SELECTOR).Obj? ==> SelectorHit(At(f, NAMESPACE_SELECTOR).fields, q, c, guess))
  }

  /** What a filter asks of the namespace: that one of the patterns it lists fits the name,
      if it lists any, and that its selector, if it has one, selects the labels. */
  ghost predicate NamespaceHolds(f: Block, q: Query, c: Cluster, unreadable: Block -> bool) {
    && ((forall p :: !Lists(f, "namespaces", p)) || exists p :: Lists(f, "namespaces", p) && c.glob(p, q.ns))
    && ("namespaceSelector" in f && f["namespaceSelector"].Obj? ==>
          var sel := f["namespaceSelector"].fields;
          if c.read(sel).Some? then c.read(sel).value(q.nsLabels) else unreadable(sel))
  }

  lemma NamespaceHitMeans(f: Block, q: Query, c: Cluster, guess: Block -> bool)
    ensures NamespaceHit(f, q, c, guess) <==> NamespaceHolds(f, q, c, guess)
  {
    ListsStrings(f, "namespaces");
  }

  /** The code's guess shows the rule. */
  function Shown(sel: Block): bool {
    true
  }

  method NsMatches(f: Block, q: Query, c: Cluster) returns (ok: bool)
    ensures ok == NamespaceHit(f, q, c, Shown)
    ensures ok <==> NamespaceHolds(f, q, c, sel => true)
  {
    NamespaceHitMeans(f, q, c, Shown);
    NamespaceHitMeans(f, q, c, sel => true);
    var patterns := StrSlice(At(f, NAMESPACES));
    if patterns != [] {
      var hit := false;
      for i := 0 to |patterns|
        invariant !hit && forall p :: p in patterns[..i] ==> !c.glob(p, q.ns)
      {
        if c.glob(patterns[i], q.ns) {
          hit := true;
          break;
        }
      }
      if !hit {
        return false;
      }
    }
    var sel := At(f, NAMESPACE_SELECTOR);
    if sel.Obj? {
      match c.read(sel.fields)
      case None => return true;
      case Some(selects) => return selects(q.nsLabels);
    }
    return true;
  }

  /** A condition that depends on the object. */
  datatype Condition =
    | NameMatches(patterns: seq<string>)
    | LabelsMatch(selector: Block)
    | AnnotationsMatch(selector: Block)
    | OperationIs(operations: seq<string>)

  function Conditions(f: Block): seq<Condition> {
    (if Strings(At(f, NAMES)) != [] then [NameMatches(Strings(At(f, NAMES)))] else []) +
    (if At(f, SELECTOR).Obj? then [LabelsMatch(At(f, SELECTOR).fields)] else []) +
    (if At(f, ANNOTATIONS).Obj? then [AnnotationsMatch(At(f, ANNOTATIONS).fields)] else []) +
    (if Strings(At(f, OPERATIONS)) != [] then [OperationIs(Strings(At(f, OPERATIONS)))] else [])
  }

  /** How selectors and preconditions are written: any text. */
  datatype Writer = Writer(selector: Block -> string, precondition: Json -> string)

  function Join(parts: seq<string>, separator: string): string {
    if parts == [] then ""
    else if |parts| == 1 then parts[0]
    else Join(parts[..|parts| - 1], separator) + separator + parts[|parts| - 1]
  }

  lemma {:induction false} JoinIsEmpty(parts: seq<string>, separator: string)
    requires forall part :: part in parts ==> part != ""
    ensures Join(parts, separator) == "" <==> parts == []
  {
    if |parts| > 0 {
      assert parts[|parts| - 1] in parts;
    }
  }

  function ConditionText(cond: Condition, w: Writer): (text: string)
    ensures text != ""
  {
    match cond
    case NameMatches(patterns) => "name matches " + Join(patterns, ", ")
    case LabelsMatch(selector) => "labels match " + w.selector(selector)
    case AnnotationsMatch(selector) => "annotations match " + w.selector(selector)
    case OperationIs(operations) => "operation is " + Join(operations, "/")
  }

  function Texts<T>(s: seq<T>, text: T -> string): seq<string> {
    if s == [] then [] else Texts(s[..|s| - 1], text) + [text(s[|s| - 1])]
  }

  lemma {:induction false} TextsHave<T>(s: seq<T>, text: T -> string)
    ensures |Texts(s, text)| == |s|
    ensures forall t :: t in Texts(s, text) <==> exists x :: x in s && t == text(x)
  {
    if s != [] {
      TextsHave(s[..|s| - 1], text);
      assert s == s[..|s| - 1] + [s[|s| - 1]];
    }
  }

  function Describes(w: Writer): Condition -> string {
    cond => ConditionText(cond, w)
  }

  function FilterText(conditions: seq<Condition>, w: Writer): string {
    Join(Texts(conditions, Describes(w)), ", ")
  }

  /** A filter is described by no text exactly when it has no condition. */
  lemma FilterTextIsEmpty(conditions: seq<Condition>, w: Writer)
    ensures FilterText(conditions, w) == "" <==> conditions == []
  {
    TextsHave(conditions, Describes(w));
    JoinIsEmpty(Texts(conditions, Describes(w)), ", ");
  }

  function TextIf(due: bool, cond: Condition, w: Writer): seq<string> {
    if due then [ConditionText(cond, w)] else []
  }

  method ObjectCondition(f: Block, w: Writer) returns (text: string)
    ensures text == FilterText(Conditions(f), w)
  {
    var names := StrSlice(At(f, NAMES));
    var operations := StrSlice(At(f, OPERATIONS));
    var parts := TextIf(names != [], NameMatches(names), w);
    parts := parts + TextIf(At(f, SELECTOR).Obj?, LabelsMatch(Fields(At(f, SELECTOR))), w);
    parts := parts + TextIf(At(f, ANNOTATIONS).Obj?, AnnotationsMatch(Fields(At(f, ANNOTATIONS))), w);
    parts := parts + TextIf(operations != [], OperationIs(operations), w);
    FilterTexts(f, w);
    text := Join(parts, ", ");
  }

  lemma FilterTexts(f: Block, w: Writer)
    ensures Texts(Conditions(f), Describes(w)) ==
            TextIf(Strings(At(f, NAMES)) != [], NameMatches(Strings(At(f, NAMES))), w) +
            TextIf(At(f, SELECTOR).Obj?, LabelsMatch(Fields(At(f, SELECTOR))), w) +
            TextIf(At(f, ANNOTATIONS).Obj?, AnnotationsMatch(Fields(At(f, ANNOTATIONS))), w) +
            TextIf(Strings(At(f, OPERATIONS)) != [], OperationIs(Strings(At(f, OPERATIONS))), w)
  {
    var names, operations := Strings(At(f, NAMES)), Strings(At(f, OPERATIONS));
    var a := OneText(names != [], NameMatches(names), w);
    var b := OneText(At(f, SELECTOR).Obj?, LabelsMatch(Fields(At(f, SELECTOR))), w);
    var d := OneText(At(f, ANNOTATIONS).Obj?, AnnotationsMatch(Fields(At(f, ANNOTATIONS))), w);
    var e := OneText(operations != [], OperationIs(operations), w);
    assert Conditions(f) == a + b + d + e;
    TextsOfFour(a, b, d, e, Describes(w));
  }

  lemma TextsOfFour<T>(a: seq<T>, b: seq<T>, c: seq<T>, d: seq<T>, text: T -> string)
    ensures Texts(a + b + c + d, text) == Texts(a, text) + Texts(b, text) + Texts(c, text) + Texts(d, text)
  {
    TextsConcat(a + b + c, d, text);
    TextsConcat(a + b, c, text);
    TextsConcat(a, b, text);
  }

  lemma OneText(due: bool, cond: Condition, w: Writer) returns (conds: seq<Condition>)
    ensures conds == if due then [cond] else []
    ensures Texts(conds, Describes(w)) == TextIf(due, cond, w)
  {
    conds := if due then [cond] else [];
    if due {
      TextsLast([], cond, Describes(w));
      assert [] + [cond] == conds;
    }
  }

  /** The text for a filter that asks for everything a filter can ask of the object. */
  lemma TextOfEverything(f: Block, w: Writer, a: string, b: string, labels: Block, annotations: Block,
                         c: string, d: string)
    requires f == map["names" := Arr([Str(a), Str(b)]), "selector" := Obj(labels), "annotations" := Obj(annotations),
                      "operations" := Arr([Str(c), Str(d)])]
    ensures FilterText(Conditions(f), w) ==
            ("name matches " + (a + ", " + b)) + ", " + ("labels match " + w.selector(labels)) + ", " +
            ("annotations match " + w.selector(annotations)) + ", " + ("operation is " + (c + "/" + d))
  {
    EverythingAsked(f, a, b, labels, annotations, c, d);
    FilterTexts(f, w);
    JoinTwo(a, b, ", ");
    JoinTwo(c, d, "/");
    JoinFour(ConditionText(NameMatches([a, b]), w), ConditionText(LabelsMatch(labels), w),
             ConditionText(AnnotationsMatch(annotations), w), ConditionText(OperationIs([c, d]), w), ", ");
    assert Texts(Conditions(f), Describes(w)) ==
           [ConditionText(NameMatches([a, b]), w), ConditionText(LabelsMatch(labels), w),
            ConditionText(AnnotationsMatch(annotations), w), ConditionText(OperationIs([c, d]), w)];
  }

  lemma JoinTwo(a: string, b: string, separator: string)
    ensures Join([a, b], separator) == a + separator + b
  {
    assert [a, b][..1] == [a];
  }

  lemma JoinFour(a: string, b: string, c: string, d: string, separator: string)
    ensures Join([a, b, c, d], separator) == a + separator + b + separator + c + separator + d
  {
    assert [a, b, c, d][..3] == [a, b, c] && [a, b, c][..2] == [a, b];
    JoinTwo(a, b, separator);
  }

  lemma EverythingAsked(f: Block, a: string, b: string, labels: Block, annotations: Block, c: string, d: string)
    requires f == map["names" := Arr([Str(a), Str(b)]), "selector" := Obj(labels), "annotations" := Obj(annotations),
                      "operations" := Arr([Str(c), Str(d)])]
    ensures Strings(At(f, NAMES)) == [a, b] && Strings(At(f, OPERATIONS)) == [c, d]
    ensures At(f, SELECTOR) == Obj(labels) && At(f, ANNOTATIONS) == Obj(annotations)
  {
    FieldNamesDiffer();
    TwoStrings(a, b);
    TwoStrings(c, d);
  }

  lemma TwoStrings(a: string, b: string)
    ensures StringsIn([Str(a), Str(b)]) == [a, b]
  {
    StringsJoin([Str(a)], [Str(b)]);
    assert [Str(a)] + [Str(b)] == [Str(a), Str(b)];
  }

  predicate HasSubjects(f: Block) {
    Items(At(f, SUBJECTS)) != [] || Items(At(f, ROLES)) != [] || Items(At(f, CLUSTER_ROLES)) != []
  }

  /** The user fields of a filter. */
  function Users(f: Block): Block {
    Picked(f, USER_FIELDS)
  }

  // ---- the decision ----

  datatype Reported = FromFilter(conditions: seq<Condition>) | FromPreconditions(value: Json)

  predicate Hit(f: Block, q: Query, c: Cluster, guess: Block -> bool) {
    KindHit(f, q) && NamespaceHit(f, q, c, guess)
  }

  /** An exclude filter that is certain for every object of the kind. */
  predicate Blanket(f: Block, q: Query, c: Cluster, guess: Block -> bool) {
    Hit(f, q, c, guess) && Conditions(f) == [] && !HasSubjects(f)
  }

  function Hits(q: Query, c: Cluster, guess: Block -> bool): Block -> bool {
    f => Hit(f, q, c, guess)
  }

  function Blankets(q: Query, c: Cluster, guess: Block -> bool): Block -> bool {
    f => Blanket(f, q, c, guess)
  }

  function AutogenHits(q: Query, c: Cluster): Block -> bool {
    f => Hit(f, q, c, Shown) && ViaAutogen(f, q)
  }

  predicate Combined(list: seq<Block>, all: bool, hit: Block -> bool) {
    if all then Every(list, hit) else Any(list, hit)
  }

  lemma CombinedOneMore(filters: Filters, i: nat, hit: Block -> bool)
    requires i < |filters.list|
    ensures var before := Combined(filters.list[..i], filters.all, hit);
            Combined(filters.list[..i + 1], filters.all, hit) ==
            if filters.all then before && hit(filters.list[i]) else before || hit(filters.list[i])
  {
    AnyOneMore(filters.list, i, hit);
    EveryOneMore(filters.list, i, hit);
  }

  /** The block selects: it has filters, and all of them hit or some filter does. */
  predicate Selects(filters: Filters, hit: Block -> bool) {
    filters.list != [] && Combined(filters.list, filters.all, hit)
  }

  function MatchOf(rule: Block): Filters {
    FiltersOf(Fields(At(rule, MATCH)))
  }

  function ExcludeOf(rule: Block): Filters {
    FiltersOf(Fields(At(rule, EXCLUDE)))
  }

  predicate Matched(rule: Block, q: Query, c: Cluster) {
    Selects(MatchOf(rule), Hits(q, c, Shown))
  }

  predicate Excluded(rule: Block, q: Query, c: Cluster, guess: Block -> bool) {
    Selects(ExcludeOf(rule), Blankets(q, c, guess))
  }

  predicate Applies(rule: Block, q: Query, c: Cluster) {
    Matched(rule, q, c) && !Excluded(rule, q, c, Shown)
  }

  function KindsOf(list: seq<Block>): seq<string> {
    if list == [] then [] else KindsOf(list[..|list| - 1]) + Kinds(list[|list| - 1])
  }

  function ConditionsOf(list: seq<Block>, q: Query, c: Cluster): seq<Reported> {
    if list == [] then []
    else
      var last := list[|list| - 1];
      ConditionsOf(list[..|list| - 1], q, c) +
      if Hit(last, q, c, Shown) && Conditions(last) != [] then [FromFilter(Conditions(last))] else []
  }

  function PreconditionsOf(rule: Block): seq<Reported> {
    if IsEmpty(At(rule, PRECONDITIONS)) then [] else [FromPreconditions(At(rule, PRECONDITIONS))]
  }

  function OnlyIf(rule: Block, q: Query, c: Cluster): seq<Reported> {
    Unique(ConditionsOf(MatchOf(rule).list, q, c) + PreconditionsOf(rule))
  }

  function ReportText(r: Reported, w: Writer): string {
    match r
    case FromFilter(conditions) => FilterText(conditions, w)
    case FromPreconditions(value) => "preconditions " + w.precondition(value)
  }

  function Reads(w: Writer): Reported -> string {
    r => ReportText(r, w)
  }

  /** What is told of the conditions: the texts of the reported ones, once each. */
  function Told(reported: seq<Reported>, w: Writer): string {
    Join(Unique(Texts(reported, Reads(w))), "; ")
  }

  method RuleApplies(rule: Block, q: Query, c: Cluster, w: Writer)
    returns (kinds: seq<string>, ok: bool, via: string, cond: string)
    ensures ok == Applies(rule, q, c)
    ensures kinds == if ok then Unique(KindsOf(MatchOf(rule).list)) else KindsOf(MatchOf(rule).list)
    ensures via == if ok && Any(MatchOf(rule).list, AutogenHits(q, c)) then
                     "autogen: the Pod rule is applied to the " + q.kind + "'s pod template" else ""
    ensures cond == if ok then Told(OnlyIf(rule, q, c), w) else ""
  {
    var filters := ResourceFilters(Fields(At(rule, MATCH)));
    var matched, conds;
    kinds, matched, via, conds := MatchFilters(filters, q, c, w);
    if !matched {
      return kinds, false, "", "";
    }
    var exFilters := ResourceFilters(Fields(At(rule, EXCLUDE)));
    var excluded := ExcludeFilters(exFilters, q, c, w);
    if excluded {
      return kinds, false, "", "";
    }
    kinds := Uniq(kinds);
    cond := Tell(rule, q, c, w, conds);
    ok := true;
  }

  /** Adds the preconditions to the conditions of the filters. */
  method Tell(rule: Block, ghost q: Query, ghost c: Cluster, w: Writer, texts: seq<string>) returns (cond: string)
    requires texts == Texts(ConditionsOf(MatchOf(rule).list, q, c), Reads(w))
    ensures cond == Told(OnlyIf(rule, q, c), w)
  {
    ToldFromAll(rule, q, c, w);
    var conds, pre := texts, At(rule, PRECONDITIONS);
    if !IsEmpty(pre) {
      conds := conds + [ReportText(FromPreconditions(pre), w)];
    }
    conds := Uniq(conds);
    cond := Join(conds, "; ");
  }

  lemma ToldFromAll(rule: Block, q: Query, c: Cluster, w: Writer)
    ensures var pre := At(rule, PRECONDITIONS);
            var texts := Texts(ConditionsOf(MatchOf(rule).list, q, c), Reads(w));
            Told(OnlyIf(rule, q, c), w) ==
            Join(Unique(if IsEmpty(pre) then texts else texts + [ReportText(FromPreconditions(pre), w)]), "; ")
  {
    var reported, pre := ConditionsOf(MatchOf(rule).list, q, c), At(rule, PRECONDITIONS);
    TellingTwice(reported + PreconditionsOf(rule), Reads(w));
    TextsConcat(reported, PreconditionsOf(rule), Reads(w));
    if IsEmpty(pre) {
      assert reported + [] == reported;
    } else {
      TextsLast([], FromPreconditions(pre), Reads(w));
    }
  }

  lemma {:induction false} TextsConcat<T>(a: seq<T>, b: seq<T>, text: T -> string)
    ensures Texts(a + b, text) == Texts(a, text) + Texts(b, text)
  {
    if b == [] {
      assert a + b == a;
    } else {
      assert (a + b)[..|a + b| - 1] == a + b[..|b| - 1];
      TextsConcat(a, b[..|b| - 1], text);
    }
  }

  /** Dropping repeated conditions first changes nothing in the texts told once each. */
  lemma {:induction false} TellingTwice<T>(s: seq<T>, text: T -> string)
    ensures Unique(Texts(Unique(s), text)) == Unique(Texts(s, text))
  {
    if s != [] {
      var init, last := s[..|s| - 1], s[|s| - 1];
      assert s == init + [last];
      TellingTwice(init, text);
      TellingOneMore(init, last, text);
    }
  }

  lemma TellingOneMore<T>(s: seq<T>, x: T, text: T -> string)
    requires Unique(Texts(Unique(s), text)) == Unique(Texts(s, text))
    ensures Unique(Texts(Unique(s + [x]), text)) == Unique(Texts(s + [x], text))
  {
    UniqueOneMore(s, x);
    TextsLast(s, x, text);
    UniqueOneMore(Texts(s, text), text(x));
    if x in s {
      TextsHave(s, text);
      assert Unique(s + [x]) == Unique(s) && text(x) in Texts(s, text);
    } else {
      TextsLast(Unique(s), x, text);
      UniqueOneMore(Texts(Unique(s), text), text(x));
      SameTexts(s, text, text(x));
    }
  }

  lemma SameTexts<T>(s: seq<T>, text: T -> string, t: string)
    ensures t in Texts(Unique(s), text) <==> t in Texts(s, text)
  {
    UniqueKeepsMembers(s);
    TextIn(s, text, t);
    TextIn(Unique(s), text, t);
    if t in Texts(Unique(s), text) {
      var x :| x in Unique(s) && t == text(x);
      assert x in s;
    }
    if t in Texts(s, text) {
      var x :| x in s && t == text(x);
      assert x in Unique(s);
    }
  }

  lemma TextIn<T>(s: seq<T>, text: T -> string, t: string)
    ensures t in Texts(s, text) <==> exists x :: x in s && t == text(x)
  {
    TextsHave(s, text);
  }

  lemma TextsLast<T>(s: seq<T>, x: T, text: T -> string)
    ensures Texts(s + [x], text) == Texts(s, text) + [text(x)]
  {
    assert (s + [x])[..|s|] == s;
  }

  lemma UniqueOneMore<T>(s: seq<T>, x: T)
    ensures Unique(s + [x]) == Unique(s) + if x in s then [] else [x]
  {
    assert (s + [x])[..|s|] == s;
  }

  /** Nothing is told exactly when nothing is reported; otherwise the joined parts are the
      texts of all that is reported. */
  lemma ToldIsComplete(rule: Block, q: Query, c: Cluster, w: Writer)
    ensures var parts := Unique(Texts(OnlyIf(rule, q, c), Reads(w)));
            && Told(OnlyIf(rule, q, c), w) == Join(parts, "; ")
            && (forall t :: t in parts <==> exists r :: r in OnlyIf(rule, q, c) && t == ReportText(r, w))
            && (Told(OnlyIf(rule, q, c), w) == "" <==> OnlyIf(rule, q, c) == [])
  {
    var reported := OnlyIf(rule, q, c);
    TextsOnce(reported, Reads(w));
    forall t | t in Unique(Texts(reported, Reads(w))) ensures t != "" {
      var r :| r in reported && t == Reads(w)(r);
      ReportedHasText(rule, q, c, w, r);
    }
    JoinIsEmpty(Unique(Texts(reported, Reads(w))), "; ");
  }

  lemma TextsOnce<T>(s: seq<T>, text: T -> string)
    ensures forall t :: t in Unique(Texts(s, text)) <==> exists x :: x in s && t == text(x)
    ensures Unique(Texts(s, text)) == [] <==> s == []
  {
    UniqueKeepsMembers(Texts(s, text));
    TextsHave(s, text);
    if s != [] {
      assert Texts(s, text)[0] in Texts(s, text);
    }
  }

  lemma TextOfPreconditions(value: Json, w: Writer)
    ensures ReportText(FromPreconditions(value), w) == "preconditions " + w.precondition(value)
  {
  }

  lemma ReportedHasText(rule: Block, q: Query, c: Cluster, w: Writer, r: Reported)
    requires r in OnlyIf(rule, q, c)
    ensures ReportText(r, w) != ""
  {
    UniqueKeepsMembers(ConditionsOf(MatchOf(rule).list, q, c) + PreconditionsOf(rule));
    ConditionsAreSome(MatchOf(rule).list, q, c);
    if r.FromFilter? {
      FilterTextIsEmpty(r.conditions, w);
    }
  }

  lemma {:induction false} ConditionsAreSome(list: seq<Block>, q: Query, c: Cluster)
    ensures forall r :: r in ConditionsOf(list, q, c) ==> r.FromFilter? && r.conditions != []
  {
    if list != [] {
      ConditionsAreSome(list[..|list| - 1], q, c);
    }
  }

  method FilterHits(f: Block, q: Query, c: Cluster) returns (names: seq<string>, hit: bool, via: string)
    ensures names == Kinds(f) && via == NoteIf(ViaAutogen(f, q), q.kind)
    ensures hit == Hit(f, q, c, Shown)
  {
    var okKind;
    names, okKind, via := KindMatches(f, q);
    if !okKind {
      return names, false, via;
    }
    hit := NsMatches(f, q, c);
  }

  method CertainHit(f: Block, q: Query, c: Cluster, w: Writer) returns (hit: bool)
    ensures hit == Blanket(f, q, c, Shown)
  {
    var _, okHit, _ := FilterHits(f, q, c);
    if !okHit {
      return false;
    }
    FilterTextIsEmpty(Conditions(f), w);
    var text := ObjectCondition(f, w);
    hit := text == "" && !HasSubjects(f);
  }

  lemma ReportedOneMore(list: seq<Block>, i: nat, q: Query, c: Cluster)
    requires i < |list|
    ensures KindsOf(list[..i + 1]) == KindsOf(list[..i]) + Kinds(list[i])
    ensures ConditionsOf(list[..i + 1], q, c) ==
            if Hit(list[i], q, c, Shown) && Conditions(list[i]) != [] then
              ConditionsOf(list[..i], q, c) + [FromFilter(Conditions(list[i]))]
            else ConditionsOf(list[..i], q, c)
  {
    assert list[..i + 1][..i] == list[..i];
  }

  lemma FilterOneMore(filters: Filters, i: nat, q: Query, c: Cluster)
    requires i < |filters.list|
    ensures var before, after, f := filters.list[..i], filters.list[..i + 1], filters.list[i];
            var hit := Hit(f, q, c, Shown);
            && KindsOf(after) == KindsOf(before) + Kinds(f)
            && ConditionsOf(after, q, c) ==
               (if hit && Conditions(f) != [] then ConditionsOf(before, q, c) + [FromFilter(Conditions(f))]
                else ConditionsOf(before, q, c))
            && Any(after, AutogenHits(q, c)) == (Any(before, AutogenHits(q, c)) || (hit && ViaAutogen(f, q)))
            && Combined(after, filters.all, Hits(q, c, Shown)) ==
               var selected := Combined(before, filters.all, Hits(q, c, Shown));
               if filters.all then selected && hit else selected || hit
  {
    ReportedOneMore(filters.list, i, q, c);
    AnyOneMore(filters.list, i, AutogenHits(q, c));
    CombinedOneMore(filters, i, Hits(q, c, Shown));
  }

  method MatchFilters(filters: Filters, q: Query, c: Cluster, w: Writer)
    returns (kinds: seq<string>, matched: bool, via: string, conds: seq<string>)
    ensures kinds == KindsOf(filters.list) && conds == Texts(ConditionsOf(filters.list, q, c), Reads(w))
    ensures matched == Selects(filters, Hits(q, c, Shown))
    ensures via == NoteIf(Any(filters.list, AutogenHits(q, c)), q.kind)
  {
    var list := filters.list;
    kinds, matched, via, conds := [], filters.all, "", [];
    if list == [] {
      return [], false, "", [];
    }
    for i := 0 to |list|
      invariant kinds == KindsOf(list[..i]) && conds == Texts(ConditionsOf(list[..i], q, c), Reads(w))
      invariant via == NoteIf(Any(list[..i], AutogenHits(q, c)), q.kind)
      invariant matched == Combined(list[..i], filters.all, Hits(q, c, Shown))
    {
      FilterOneMore(filters, i, q, c);
      var names, hit, v := FilterHits(list[i], q, c);
      kinds := kinds + names;
      if hit {
        if v != "" {
          via := v;
        }
        FilterTextIsEmpty(Conditions(list[i]), w);
        var text := ObjectCondition(list[i], w);
        TextsConcat(ConditionsOf(list[..i], q, c), [FromFilter(Conditions(list[i]))], Reads(w));
        if text != "" {
          conds := conds + [text];
        }
      }
      matched := if filters.all then matched && hit else matched || hit;
    }
    assert list[..|list|] == list;
  }

  method ExcludeFilters(filters: Filters, q: Query, c: Cluster, w: Writer) returns (excluded: bool)
    ensures excluded == Selects(filters, Blankets(q, c, Shown))
  {
    var list := filters.list;
    excluded := filters.all && list != [];
    for i := 0 to |list|
      invariant excluded == (list != [] && Combined(list[..i], filters.all, Blankets(q, c, Shown)))
    {
      CombinedOneMore(filters, i, Blankets(q, c, Shown));
      var hit := CertainHit(list[i], q, c, w);
      excluded := if filters.all then excluded && hit else excluded || hit;
    }
    assert list[..|list|] == list;
  }
}
