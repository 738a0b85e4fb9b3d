/** Decoded JSON: what the dynamic client hands to the server. */
module JsonTree {
  datatype Json =
    | Null
    | Bool(b: bool)
    | Num(n: real)
    | Str(s: string)
    | Arr(items: seq<Json>)
    | Obj(fields: map<string, Json>)
  {
    predicate Scalar() {
      !Arr? && !Obj?
    }
  }

  datatype Step = Key(k: string) | Index(i: nat)

  type Path = seq<Step>

  /** The subtree a path leads to, if the path exists in the tree. */
  predicate Exists(j: Json, path: Path)
    decreases |path|
  {
    path == [] ||
    match path[0]
    case Key(k) => j.Obj? && k in j.fields && Exists(j.fields[k], path[1..])
    case Index(i) => j.Arr? && i < |j.items| && Exists(j.items[i], path[1..])
  }

  function Get(j: Json, path: Path): Json
    requires Exists(j, path)
    decreases |path|
  {
    if path == [] then j else
    match path[0]
    case Key(k) => Get(j.fields[k], path[1..])
    case Index(i) => Get(j.items[i], path[1..])
  }

  /** The tree with another subtree where the path leads. */
  function Put(j: Json, path: Path, x: Json): Json
    requires Exists(j, path)
    decreases |path|
  {
    if path == [] then x else
    match path[0]
    case Key(k) => Obj(j.fields[k := Put(j.fields[k], path[1..], x)])
    case Index(i) => Arr(j.items[i := Put(j.items[i], path[1..], x)])
  }
}
