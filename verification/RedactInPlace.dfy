/** Redaction as the server runs it: a walk that overwrites map and slice cells in place,
    visiting the fields of each map in any order, and counts what it replaces. */
module RedactInPlace {
  import opened JsonTree
  import opened Redaction

  /** A mutable map cell. */
  class MapCell {
    var entries: map<string, Value>

    constructor (entries: map<string, Value>)
      ensures this.entries == entries
    {
      this.entries := entries;
    }
  }

  datatype Value =
    | NullV
    | BoolV(b: bool)
    | NumV(n: real)
    | StrV(s: string)
    | MapV(m: MapCell)
    | SliceV(a: array<Value>)

  /** The cells a value is built from. */
  datatype Shape =
    | Leaf
    | MapShape(cell: MapCell, kids: map<string, Shape>)
    | SliceShape(a: array<Value>, elems: seq<Shape>)

  ghost function Cells(sh: Shape): set<object>
    decreases sh, 1
  {
    match sh
    case Leaf => {}
    case MapShape(cell, _) => {cell} + KidCells(sh)
    case SliceShape(a, _) => {a} + ElemCells(sh)
  }

  ghost function KidCells(sh: Shape): (cells: set<object>)
    requires sh.MapShape?
    ensures forall k :: k in sh.kids ==> Cells(sh.kids[k]) <= cells
    decreases sh, 0
  {
    set k, o | k in sh.kids && o in Cells(sh.kids[k]) :: o
  }

  ghost function ElemCells(sh: Shape): (cells: set<object>)
    requires sh.SliceShape?
    ensures forall i :: 0 <= i < |sh.elems| ==> Cells(sh.elems[i]) <= cells
    decreases sh, 0
  {
    set i, o | 0 <= i < |sh.elems| && o in Cells(sh.elems[i]) :: o
  }

  /** No cell is reached twice. */
  ghost predicate Tree(sh: Shape) {
    match sh
    case Leaf => true
    case MapShape(cell, kids) =>
      && (forall k :: k in kids ==> Tree(kids[k]) && cell !in Cells(kids[k]))
      && (forall k, k' :: k in kids && k' in kids && k != k' ==> Cells(kids[k]) !! Cells(kids[k']))
    case SliceShape(a, elems) =>
      && (forall i :: 0 <= i < |elems| ==> Tree(elems[i]) && a !in Cells(elems[i]))
      && (forall i, i' :: 0 <= i < i' < |elems| ==> Cells(elems[i]) !! Cells(elems[i']))
  }

  /** The value held in these cells, right now, is the tree `j`. */
  ghost predicate Holds(v: Value, sh: Shape, j: Json)
    reads Cells(sh)
    decreases j, 1
  {
    match j
    case Null => sh.Leaf? && v == NullV
    case Bool(b) => sh.Leaf? && v == BoolV(b)
    case Num(n) => sh.Leaf? && v == NumV(n)
    case Str(s) => sh.Leaf? && v == StrV(s)
    case Obj(m) => sh.MapShape? && v == MapV(sh.cell) && FieldsHold(sh, m)
    case Arr(items) => sh.SliceShape? && v == SliceV(sh.a) && ElemsHold(sh, items)
  }

  ghost predicate FieldsHold(sh: Shape, m: map<string, Json>)
    requires sh.MapShape?
    reads Cells(sh)
    decreases Obj(m), 0
  {
    && sh.cell.entries.Keys == sh.kids.Keys == m.Keys
    && forall k :: k in m ==> Holds(sh.cell.entries[k], sh.kids[k], m[k])
  }

  ghost predicate ElemsHold(sh: Shape, items: seq<Json>)
    requires sh.SliceShape?
    reads Cells(sh)
    decreases Arr(items), 0
  {
    && sh.a.Length == |sh.elems| == |items|
    && forall i :: 0 <= i < |items| ==> Holds(sh.a[i], sh.elems[i], items[i])
  }

  method SetField(c: MapCell, k: string, v: Value, ghost sh: Shape, ghost m: map<string, Json>, ghost x: Json)
    requires sh.MapShape? && Tree(sh) && sh.cell == c && FieldsHold(sh, m)
    requires k in m && Holds(v, sh.kids[k], x) && x.Scalar()
    modifies c
    ensures FieldsHold(sh, m[k := x])
  {
    c.entries := c.entries[k := v];
    forall f | f in m && f != k ensures Holds(c.entries[f], sh.kids[f], m[f]) {
      assert c !in Cells(sh.kids[f]);
    }
    assert Holds(c.entries[k], sh.kids[k], x);
  }

  method SetElem(a: array<Value>, i: nat, v: Value, ghost sh: Shape, ghost items: seq<Json>, ghost x: Json)
    requires sh.SliceShape? && Tree(sh) && sh.a == a && ElemsHold(sh, items)
    requires i < |items| && Holds(v, sh.elems[i], x) && x.Scalar()
    modifies a
    ensures ElemsHold(sh, items[i := x])
  {
    a[i] := v;
    forall f | 0 <= f < |items| && f != i ensures Holds(a[f], sh.elems[f], items[f]) {
      assert a !in Cells(sh.elems[f]);
    }
  }

  // ---- the two sibling rules, before the loop ----

  ghost function Presets(m: map<string, Json>): set<string> {
    set k | k in m && Preset(m, k)
  }

  /** The fields as the loop finds them. */
  ghost function Prepared(m: map<string, Json>): map<string, Json> {
    map k | k in m :: if Preset(m, k) then Str(MARKER) else m[k]
  }

  ghost function Written(m: map<string, Json>, k: string): map<string, Json> {
    if k in m && Preset(m, k) then m[k := Str(MARKER)] else m
  }

  ghost function IfPreset(m: map<string, Json>, k: string): set<string> {
    if k in m && Preset(m, k) then {k} else {}
  }

  /** The rules write two different fields, and neither rule changes what the other sees. */
  lemma PreparedByRules(m: map<string, Json>)
    ensures Written(Written(m, "value"), "key") == Prepared(m)
    ensures IfPreset(Written(m, "value"), "key") == IfPreset(m, "key")
  {
    forall k | k in m ensures Written(Written(m, "value"), "key")[k] == Prepared(m)[k] {
    }
  }

  lemma PresetsAre(m: map<string, Json>)
    ensures Presets(m) == IfPreset(m, "value") + IfPreset(m, "key")
  {
  }

  lemma IfPresetSites(lib: UrlLib, j: Json, ks: set<string>, k: string)
    requires j.Obj? && ks <= j.fields.Keys && k !in ks
    ensures |SitesOf(lib, j, ks + IfPreset(j.fields, k))| == |SitesOf(lib, j, ks)| + |IfPreset(j.fields, k)|
  {
    if IfPreset(j.fields, k) == {} {
      assert ks + IfPreset(j.fields, k) == ks;
    } else {
      SitesOfOneMore(lib, j, ks, k);
    }
  }

  lemma PresetSites(lib: UrlLib, j: Json)
    requires j.Obj?
    ensures |SitesOf(lib, j, Presets(j.fields))| == |IfPreset(j.fields, "value")| + |IfPreset(j.fields, "key")|
  {
    var values := IfPreset(j.fields, "value");
    PresetsAre(j.fields);
    IfPresetSites(lib, j, {}, "value");
    assert {} + values == values;
    IfPresetSites(lib, j, values, "key");
  }

  /** What the loop does to a prepared field: a field a rule has written is left alone and
      not counted again, every other field is treated by its own key and value. */
  lemma VisitAfterRules(lib: UrlLib, j: Json, k: string)
    requires j.Obj? && k in j.fields
    ensures RedactEntry(lib, k, Prepared(j.fields)[k]) == RedactField(lib, j, k)
    ensures |EntrySites(lib, k, Prepared(j.fields)[k])| ==
            if Preset(j.fields, k) then 0 else |FieldSites(lib, j, k)|
  {
    if Preset(j.fields, k) {
      PlainNames();
      MarkerStays(lib, k);
    }
  }

  lemma MarkerStays(lib: UrlLib, k: string)
    requires !Sensitive(k)
    ensures RedactEntry(lib, k, Str(MARKER)) == Str(MARKER) && EntrySites(lib, k, Str(MARKER)) == {}
  {
    MarkerIsPlain(lib);
    ScalarEntry(lib, k, Str(MARKER));
  }

  /** A cell's string entries are the tree's string fields. */
  lemma SameStrings(sh: Shape, m: map<string, Json>, k: string)
    requires sh.MapShape? && FieldsHold(sh, m)
    ensures k in sh.cell.entries <==> k in m
    ensures k in m ==> (sh.cell.entries[k].StrV? <==> m[k].Str?)
    ensures k in m && m[k].Str? ==> sh.cell.entries[k].s == m[k].s
  {
    if k in m {
      assert Holds(sh.cell.entries[k], sh.kids[k], m[k]);
    }
  }

  method EnvRule(c: MapCell, n: nat, ghost sh: Shape, ghost m: map<string, Json>) returns (total: nat)
    requires sh.MapShape? && Tree(sh) && sh.cell == c && FieldsHold(sh, m)
    modifies c
    ensures FieldsHold(sh, Written(m, "value"))
    ensures total == n + |IfPreset(m, "value")|
  {
    SameStrings(sh, m, "name");
    SameStrings(sh, m, "value");
    total := n;
    if "name" in c.entries && c.entries["name"].StrV? && Sensitive(c.entries["name"].s) {
      if "value" in c.entries && c.entries["value"].StrV? {
        SetField(c, "value", StrV(MARKER), sh, m, Str(MARKER));
        total := n + 1;
      }
    }
  }

  method TlsRule(c: MapCell, n: nat, ghost sh: Shape, ghost m: map<string, Json>) returns (total: nat)
    requires sh.MapShape? && Tree(sh) && sh.cell == c && FieldsHold(sh, m)
    modifies c
    ensures FieldsHold(sh, Written(m, "key"))
    ensures total == n + |IfPreset(m, "key")|
  {
    SameStrings(sh, m, "termination");
    SameStrings(sh, m, "key");
    total := n;
    if "termination" in c.entries {
      if "key" in c.entries && c.entries["key"].StrV? && c.entries["key"].s != "" {
        SetField(c, "key", StrV(MARKER), sh, m, Str(MARKER));
        total := n + 1;
      }
    }
  }

  // ---- the walk ----

  /** The loop body for a field that holds no map or slice. */
  method VisitScalar(lib: UrlLib, c: MapCell, k: string, n: nat, ghost sh: Shape, ghost cur: map<string, Json>)
    returns (total: nat)
    requires sh.MapShape? && Tree(sh) && sh.cell == c && FieldsHold(sh, cur)
    requires k in cur && cur[k].Scalar()
    modifies c
    ensures FieldsHold(sh, cur[k := RedactEntry(lib, k, cur[k])])
    ensures total == n + |EntrySites(lib, k, cur[k])|
  {
    ScalarEntry(lib, k, cur[k]);
    ghost var x := RedactEntry(lib, k, cur[k]);
    if c.entries[k].StrV? {
      var val := c.entries[k].s;
      if Sensitive(k) {
        if val != "" {
          SetField(c, k, StrV(MARKER), sh, cur, x);
          return n + 1;
        }
      } else {
        var r := RedactString(lib, val);
        if r.Some? {
          SetField(c, k, StrV(r.value), sh, cur, x);
          return n + 1;
        }
      }
    } else if Sensitive(k) && c.entries[k] != NullV {
      SetField(c, k, StrV(MARKER), sh, cur, x);
      return n + 1;
    }
    assert cur[k := x] == cur;
    return n;
  }

  method Visit(lib: UrlLib, c: MapCell, k: string, n: nat, ghost sh: Shape, ghost cur: map<string, Json>)
    returns (total: nat)
    requires sh.MapShape? && Tree(sh) && sh.cell == c && FieldsHold(sh, cur) && k in cur
    modifies c, Cells(sh.kids[k])
    ensures FieldsHold(sh, cur[k := RedactEntry(lib, k, cur[k])])
    ensures total == n + |EntrySites(lib, k, cur[k])|
    decreases sh, 0
  {
    if c.entries[k].MapV? || c.entries[k].SliceV? {
      assert c !in Cells(sh.kids[k]);
      label before:
      total := RedactCell(lib, c.entries[k], n, sh.kids[k], cur[k]);
      forall f | f in cur && f != k ensures Holds(c.entries[f], sh.kids[f], cur[f]) {
        assert old@before(Holds(c.entries[f], sh.kids[f], cur[f]) && allocated(Cells(sh.kids[f])));
        assert Cells(sh.kids[f]) !! Cells(sh.kids[k]);
      }
    } else {
      total := VisitScalar(lib, c, k, n, sh, cur);
    }
  }

  /** A nested map or slice. */
  method RedactCell(lib: UrlLib, v: Value, n: nat, ghost sh: Shape, ghost j: Json) returns (total: nat)
    requires Tree(sh) && Holds(v, sh, j) && (v.MapV? || v.SliceV?)
    modifies Cells(sh)
    ensures Holds(v, sh, Redact(lib, j))
    ensures total == n + |Sites(lib, j)|
    decreases sh, 2
  {
    if v.MapV? {
      total := RedactMap(lib, v.m, n, sh, j.fields);
    } else {
      total := RedactSlice(lib, v.a, n, sh, j.items);
    }
  }

  /** The fields midway through the loop: those still to visit are as the rules left them. */
  ghost predicate Midway(lib: UrlLib, j: Json, todo: set<string>, cur: map<string, Json>)
    requires j.Obj?
  {
    && todo <= j.fields.Keys == cur.Keys
    && forall k :: k in j.fields ==> cur[k] == if k in todo then Prepared(j.fields)[k] else RedactField(lib, j, k)
  }

  ghost function Counted(lib: UrlLib, j: Json, todo: set<string>): nat
    requires j.Obj?
  {
    |SitesOf(lib, j, (j.fields.Keys - todo) + Presets(j.fields))|
  }

  lemma MidwayStep(lib: UrlLib, j: Json, todo: set<string>, cur: map<string, Json>, k: string)
    requires j.Obj? && Midway(lib, j, todo, cur) && k in todo
    ensures Midway(lib, j, todo - {k}, cur[k := RedactEntry(lib, k, cur[k])])
    ensures Counted(lib, j, todo - {k}) == Counted(lib, j, todo) + |EntrySites(lib, k, cur[k])|
  {
    VisitAfterRules(lib, j, k);
    var before := (j.fields.Keys - todo) + Presets(j.fields);
    var after := (j.fields.Keys - (todo - {k})) + Presets(j.fields);
    if Preset(j.fields, k) {
      assert after == before;
    } else {
      SitesOfOneMore(lib, j, before, k);
      assert after == before + {k};
    }
  }

  lemma MidwayEnds(lib: UrlLib, j: Json, cur: map<string, Json>)
    requires j.Obj?
    ensures Midway(lib, j, j.fields.Keys, Prepared(j.fields))
    ensures Counted(lib, j, j.fields.Keys) == |SitesOf(lib, j, Presets(j.fields))|
    ensures Midway(lib, j, {}, cur) ==> cur == Redact(lib, j).fields
    ensures Counted(lib, j, {}) == |Sites(lib, j)|
  {
    assert (j.fields.Keys - j.fields.Keys) + Presets(j.fields) == Presets(j.fields);
    assert (j.fields.Keys - {}) + Presets(j.fields) == j.fields.Keys;
  }

  method ApplyRules(lib: UrlLib, c: MapCell, n: nat, ghost sh: Shape, ghost m: map<string, Json>)
    returns (total: nat)
    requires sh.MapShape? && Tree(sh) && sh.cell == c && FieldsHold(sh, m)
    modifies c
    ensures FieldsHold(sh, Prepared(m))
    ensures total == n + |SitesOf(lib, Obj(m), Presets(m))|
  {
    total := EnvRule(c, n, sh, m);
    total := TlsRule(c, total, sh, Written(m, "value"));
    PreparedByRules(m);
    PresetSites(lib, Obj(m));
  }

  method RedactMap(lib: UrlLib, c: MapCell, n: nat, ghost sh: Shape, ghost m: map<string, Json>)
    returns (total: nat)
    requires sh.MapShape? && Tree(sh) && sh.cell == c && FieldsHold(sh, m)
    modifies Cells(sh)
    ensures FieldsHold(sh, Redact(lib, Obj(m)).fields)
    ensures total == n + |Sites(lib, Obj(m))|
    decreases sh, 1
  {
    ghost var j := Obj(m);
    ghost var cur := Prepared(m);
    total := ApplyRules(lib, c, n, sh, m);
    MidwayEnds(lib, j, cur);
    var todo := c.entries.Keys;
    while todo != {}
      invariant FieldsHold(sh, cur) && Midway(lib, j, todo, cur)
      invariant total == n + Counted(lib, j, todo)
    {
      var k :| k in todo;
      total := Visit(lib, c, k, total, sh, cur);
      MidwayStep(lib, j, todo, cur, k);
      cur := cur[k := RedactEntry(lib, k, cur[k])];
      todo := todo - {k};
    }
    MidwayEnds(lib, j, cur);
  }

  method VisitElem(lib: UrlLib, a: array<Value>, i: nat, n: nat, ghost sh: Shape, ghost cur: seq<Json>)
    returns (total: nat)
    requires sh.SliceShape? && Tree(sh) && sh.a == a && ElemsHold(sh, cur) && i < |cur|
    modifies a, Cells(sh.elems[i])
    ensures ElemsHold(sh, cur[i := Redact(lib, cur[i])])
    ensures total == n + |Sites(lib, cur[i])|
    decreases sh, 0
  {
    if a[i].MapV? || a[i].SliceV? {
      assert a !in Cells(sh.elems[i]);
      label before:
      total := RedactCell(lib, a[i], n, sh.elems[i], cur[i]);
      forall f | 0 <= f < |cur| && f != i ensures Holds(a[f], sh.elems[f], cur[f]) {
        assert old@before(Holds(a[f], sh.elems[f], cur[f]) && allocated(Cells(sh.elems[f])));
        assert Cells(sh.elems[f]) !! Cells(sh.elems[i]);
      }
      return;
    }
    if a[i].StrV? {
      var r := RedactString(lib, a[i].s);
      if r.Some? {
        SetElem(a, i, StrV(r.value), sh, cur, Str(r.value));
        return n + 1;
      }
    }
    assert cur[i := Redact(lib, cur[i])] == cur;
    return n;
  }

  /** The elements midway through the loop. */
  ghost function Partly(lib: UrlLib, items: seq<Json>, n: nat): seq<Json>
    requires n <= |items|
  {
    seq(|items|, x requires 0 <= x < |items| => if x < n then Redact(lib, items[x]) else items[x])
  }

  ghost function CountBelow(lib: UrlLib, items: seq<Json>, n: nat): nat
    requires n <= |items|
  {
    |SitesBelow(lib, Arr(items), n)|
  }

  lemma PartlyEnds(lib: UrlLib, items: seq<Json>)
    ensures Partly(lib, items, 0) == items
    ensures Partly(lib, items, |items|) == Redact(lib, Arr(items)).items
    ensures CountBelow(lib, items, 0) == 0
    ensures CountBelow(lib, items, |items|) == |Sites(lib, Arr(items))|
  {
    assert SitesBelow(lib, Arr(items), 0) == {};
  }

  lemma PartlyStep(lib: UrlLib, items: seq<Json>, i: nat)
    requires i < |items|
    ensures Partly(lib, items, i)[i] == items[i]
    ensures Partly(lib, items, i)[i := Redact(lib, items[i])] == Partly(lib, items, i + 1)
    ensures CountBelow(lib, items, i + 1) == CountBelow(lib, items, i) + |Sites(lib, items[i])|
  {
    SitesBelowOneMore(lib, Arr(items), i);
  }

  method RedactSlice(lib: UrlLib, a: array<Value>, n: nat, ghost sh: Shape, ghost items: seq<Json>)
    returns (total: nat)
    requires sh.SliceShape? && Tree(sh) && sh.a == a && ElemsHold(sh, items)
    modifies Cells(sh)
    ensures ElemsHold(sh, Redact(lib, Arr(items)).items)
    ensures total == n + |Sites(lib, Arr(items))|
    decreases sh, 1
  {
    total := n;
    PartlyEnds(lib, items);
    for i := 0 to a.Length
      invariant a.Length == |items| && ElemsHold(sh, Partly(lib, items, i))
      invariant total == n + CountBelow(lib, items, i)
    {
      PartlyStep(lib, items, i);
      total := VisitElem(lib, a, i, total, sh, Partly(lib, items, i));
    }
  }

  /** Rewrites the object in place and returns how many values it replaced. */
  method RedactObject(lib: UrlLib, c: MapCell, ghost sh: Shape, ghost m: map<string, Json>) returns (n: nat)
    requires Tree(sh) && Holds(MapV(c), sh, Obj(m))
    modifies Cells(sh)
    ensures Holds(MapV(c), sh, Redact(lib, Obj(m)))
    ensures n == |Sites(lib, Obj(m))|
  {
    n := RedactMap(lib, c, 0, sh, m);
  }
}
