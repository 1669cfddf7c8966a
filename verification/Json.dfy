/**
 JSON values as the configuration editor holds them, with the path access that
 a decoded JSON pointer performs.  Object members are unordered.
 */
module JsonValues {
  import opened Wrappers
  import opened JsonPointer
  import opened Decimals

  datatype Number = Integer(n: int) | Float(r: real)

  datatype Json =
    | Null
    | Bool(b: bool)
    | Num(num: Number)
    | Str(s: string)
    | Arr(elems: seq<Json>)
    | Obj(members: map<string, Json>)

  const EMPTY: Json := Obj(map[])

  predicate Scalar(v: Json) {
    v.Bool? || v.Num? || v.Str?
  }

  // ---- Reading and replacing at a path -----------------------------------

  function Child(v: Json, k: string): Option<Json> {
    match v
    case Obj(m) => Get(m, k)
    case Arr(xs) =>
      (match ParseIndex(k)
       case Some(i) => if i < |xs| then Some(xs[i]) else None
       case None => None)
    case _ => None
  }

  function SetChild(v: Json, k: string, c: Json): Json
    requires Child(v, k).Some?
  {
    match v
    case Obj(m) => Obj(m[k := c])
    case Arr(xs) => Arr(xs[ParseIndex(k).value := c])
  }

  function At(v: Json, path: Path): Option<Json>
    decreases |path|
  {
    if path == [] then Some(v)
    else match Child(v, path[0])
         case None => None
         case Some(c) => At(c, path[1..])
  }

  function Put(v: Json, path: Path, x: Json): Json
    requires At(v, path).Some?
    decreases |path|
  {
    if path == [] then x
    else SetChild(v, path[0], Put(Child(v, path[0]).value, path[1..], x))
  }

  lemma SetChildFrame(v: Json, k: string, c: Json, j: string)
    requires Child(v, k).Some?
    ensures Child(SetChild(v, k, c), j) == if j == k then Some(c) else Child(v, j)
  {
    if v.Arr? && ParseIndex(j).Some? && ParseIndex(j) == ParseIndex(k) {
      IndexTokenInjective(j, k);
    }
  }

  lemma {:induction false} AtPut(v: Json, path: Path, x: Json)
    requires At(v, path).Some?
    ensures At(Put(v, path, x), path) == Some(x)
    decreases |path|
  {
    if path != [] {
      var c := Child(v, path[0]).value;
      SetChildFrame(v, path[0], Put(c, path[1..], x), path[0]);
      AtPut(c, path[1..], x);
    }
  }

  predicate Overlap(p: Path, q: Path) {
    p <= q || q <= p
  }

  /** A replacement is invisible at every path that does not overlap its own. */
  lemma {:induction false} AtPutFrame(v: Json, path: Path, x: Json, other: Path)
    requires At(v, path).Some?
    requires !Overlap(path, other)
    ensures At(Put(v, path, x), other) == At(v, other)
    decreases |path|
  {
    var c := Child(v, path[0]).value;
    SetChildFrame(v, path[0], Put(c, path[1..], x), other[0]);
    if other[0] == path[0] {
      assert path == [path[0]] + path[1..] && other == [other[0]] + other[1..];
      AtPutFrame(c, path[1..], x, other[1..]);
    }
  }
}
