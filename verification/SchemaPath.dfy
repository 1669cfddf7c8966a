/**
 Positions inside an object entry, described by the schema and the value alone:
 which fields are declared where, what a path reaches through objects, and in
 which order positions are shown.
 */
module SchemaPaths {
  import opened Wrappers
  import opened JsonPointer
  import opened JsonValues
  import opened Schema
  import opened Ordering

  /** The fields declared for an object member. */
  function Inner(fields: seq<Param>, k: string): Option<seq<Param>> {
    match Find(fields, k)
    case Some(Nested(_, inner)) => Some(inner)
    case _ => None
  }

  /** The fields declared for the object at a path; none where no object is declared. */
  function FieldsAt(fields: seq<Param>, path: Path): Option<seq<Param>>
    decreases |path|
  {
    if path == [] then Some(fields)
    else if Inner(fields, path[0]).None? then None
    else FieldsAt(Inner(fields, path[0]).value, path[1..])
  }

  predicate AllObjects(v: Json, path: Path) {
    forall n | 0 <= n < |path| :: At(v, path[..n]).Some? && At(v, path[..n]).value.Obj?
  }

  /** What a path leads to through objects only. */
  function Reached(v: Json, path: Path): Option<Json> {
    if AllObjects(v, path) then At(v, path) else None
  }

  function Parent(path: Path): Path
    requires path != []
  {
    path[..|path| - 1]
  }

  function Last(path: Path): string
    requires path != []
  {
    path[|path| - 1]
  }

  // ---- Step by step from the front -------------------------------------------------------

  lemma PathCons(k: string, rest: Path)
    ensures ([k] + rest)[1..] == rest && ([k] + rest)[0] == k
    ensures rest != [] ==> Parent([k] + rest) == [k] + Parent(rest) && Last([k] + rest) == Last(rest)
  {
  }

  lemma FieldsCons(fields: seq<Param>, k: string, rest: Path)
    ensures FieldsAt(fields, [k] + rest) ==
            if Inner(fields, k).Some? then FieldsAt(Inner(fields, k).value, rest) else None
  {
    PathCons(k, rest);
  }

  lemma AtCons(v: Json, k: string, rest: Path)
    ensures At(v, [k] + rest) == if Child(v, k).Some? then At(Child(v, k).value, rest) else None
  {
    PathCons(k, rest);
  }

  lemma AllObjectsCons(v: Json, k: string, rest: Path)
    ensures AllObjects(v, [k] + rest) <==>
            v.Obj? && (rest == [] || (k in v.members && AllObjects(v.members[k], rest)))
  {
    var path := [k] + rest;
    assert path[..0] == [];
    forall n | 0 <= n < |rest| ensures path[..n + 1] == [k] + rest[..n] {
    }
    if AllObjects(v, path) {
      assert At(v, path[..0]).value.Obj?;
      if rest != [] {
        assert At(v, path[..1]).Some?;
        AtCons(v, k, rest[..0]);
        forall n | 0 <= n < |rest|
          ensures At(v.members[k], rest[..n]).Some? && At(v.members[k], rest[..n]).value.Obj?
        {
          AtCons(v, k, rest[..n]);
          assert path[..n + 1] == [k] + rest[..n];
        }
      }
    }
    if v.Obj? && (rest == [] || (k in v.members && AllObjects(v.members[k], rest))) {
      forall n | 0 <= n < |path| ensures At(v, path[..n]).Some? && At(v, path[..n]).value.Obj? {
        if n > 0 {
          assert path[..n] == [k] + rest[..n - 1];
          AtCons(v, k, rest[..n - 1]);
        }
      }
    }
  }

  /** One member at a time. */
  lemma ReachedCons(v: Json, k: string, rest: Path)
    ensures Reached(v, [k] + rest) == if v.Obj? && k in v.members then Reached(v.members[k], rest) else None
  {
    AllObjectsCons(v, k, rest);
    AtCons(v, k, rest);
  }

  lemma ReachedHere(v: Json)
    ensures Reached(v, []) == Some(v)
  {
  }

  // ---- Order -------------------------------------------------------------------------------

  predicate DeclaredBefore(fields: seq<Param>, a: string, b: string) {
    exists i, j :: 0 <= i < j < |fields| && fields[i].key == a && fields[j].key == b
  }

  /** Declared fields in schema order, then other keys in increasing order. */
  predicate KeyBefore(fields: seq<Param>, a: string, b: string) {
    if a in Keys(fields) then b !in Keys(fields) || DeclaredBefore(fields, a, b)
    else b !in Keys(fields) && Leq(a, b) && a != b
  }

  /** A position comes before those below it; siblings follow the order of their keys. */
  predicate PathBefore(fields: seq<Param>, p: Path, q: Path)
    decreases |p|
  {
    if q == [] then false
    else if p == [] then true
    else if p[0] != q[0] then KeyBefore(fields, p[0], q[0])
    else Inner(fields, p[0]).Some? && PathBefore(Inner(fields, p[0]).value, p[1..], q[1..])
  }
}
