/**
 The parameter schema: scalar parameters with an optional default, and nested
 objects with their own field list.
 */
module Schema {
  import opened Wrappers
  import opened JsonValues

  /**
   A parameter definition.  `default` is the parsed default text of a scalar
   parameter; `None` means that the schema offers no default.
   */
  datatype Param =
    | Leaf(key: string, default: Option<Json>)
    | Nested(key: string, fields: seq<Param>)

  predicate DistinctKeys(fields: seq<Param>) {
    forall i, j | 0 <= i < j < |fields| :: fields[i].key != fields[j].key
  }

  /** Keys are distinct at every level, and scalar defaults are scalars. */
  predicate WellFormed(fields: seq<Param>)
    decreases fields
  {
    && DistinctKeys(fields)
    && forall i | 0 <= i < |fields| :: WellFormedParam(fields[i])
  }

  predicate WellFormedParam(f: Param)
    decreases f
  {
    match f
    case Leaf(_, d) => d.Some? ==> Scalar(d.value)
    case Nested(_, inner) => WellFormed(inner)
  }

  function Find(fields: seq<Param>, k: string): (r: Option<Param>)
    ensures r.Some? ==> r.value in fields && r.value.key == k
    ensures r.Some? <==> k in Keys(fields)
  {
    if fields == [] then None
    else if fields[0].key == k then Some(fields[0])
    else Find(fields[1..], k)
  }

  lemma FindAt(fields: seq<Param>, i: nat)
    requires DistinctKeys(fields) && i < |fields|
    ensures Find(fields, fields[i].key) == Some(fields[i])
  {
  }

  /** The keys a field list declares. */
  function Keys(fields: seq<Param>): set<string> {
    set i | 0 <= i < |fields| :: fields[i].key
  }

  function DefaultAsJson(f: Param): Option<Json>
    decreases f, 1
  {
    match f
    case Leaf(_, d) => d
    case Nested(_, inner) => Some(ObjectDefault(inner))
  }

  /** The default a field list gives to key `k`. */
  function DefaultAt(fields: seq<Param>, k: string): Option<Json>
    decreases fields, 0
  {
    match Find(fields, k)
    case None => None
    case Some(f) => DefaultAsJson(f)
  }

  function ObjectDefault(fields: seq<Param>): Json
    decreases fields, 1
  {
    Obj(map k | k in Keys(fields) && DefaultAt(fields, k).Some? :: DefaultAt(fields, k).value)
  }

  lemma DefaultAnswers(fields: seq<Param>, k: string)
    ensures Get(ObjectDefault(fields).members, k) == DefaultAt(fields, k)
  {
  }

  /** The map-filling loop that computes an object's default. */
  method BuildObjectDefault(fields: seq<Param>) returns (v: Json)
    requires WellFormed(fields)
    ensures v == ObjectDefault(fields)
    decreases fields
  {
    var m: map<string, Json> := map[];
    var i := 0;
    while i < |fields|
      invariant 0 <= i <= |fields|
      invariant forall k :: Get(m, k) == if k in Keys(fields[..i]) then DefaultAt(fields, k) else None
    {
      FindAt(fields, i);
      KeysExtend(fields, i);
      var sub := fields[i];
      assert WellFormedParam(sub);
      var d := BuildDefault(sub);
      if d.Some? {
        m := m[sub.key := d.value];
      }
      i := i + 1;
    }
    assert fields[..i] == fields;
    v := Obj(m);
    forall k ensures Get(m, k) == Get(ObjectDefault(fields).members, k) {
      DefaultAnswers(fields, k);
    }
    MapsAgree(m, ObjectDefault(fields).members);
  }

  method BuildDefault(f: Param) returns (d: Option<Json>)
    requires WellFormedParam(f)
    ensures d == DefaultAsJson(f)
    decreases f
  {
    match f {
      case Leaf(_, default) => d := default;
      case Nested(_, inner) => var o := BuildObjectDefault(inner); d := Some(o);
    }
  }

  lemma KeysExtend(fields: seq<Param>, i: nat)
    requires DistinctKeys(fields) && i < |fields|
    ensures Keys(fields[..i + 1]) == Keys(fields[..i]) + {fields[i].key}
    ensures fields[i].key !in Keys(fields[..i])
  {
    assert fields[..i + 1] == fields[..i] + [fields[i]];
    assert forall j | 0 <= j < i :: fields[..i + 1][j] == fields[..i][j];
    assert fields[..i + 1][i] == fields[i];
  }
}
