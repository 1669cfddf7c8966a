/**
 Schema hydration of an object entry, the pruning that undoes it on save, and
 the laws between the two walks.
 */
module Hydration {
  import opened Wrappers
  import opened JsonPointer
  import opened JsonValues
  import opened Schema

  // ---- Hydration -----------------------------------------------------------

  /** `null` is promoted to an empty object; other non-objects are left alone. */
  function Hydrate(v: Json, fields: seq<Param>): Json
    decreases fields, 1
  {
    if v.Null? then Obj(HydrateMembers(map[], fields))
    else if v.Obj? then Obj(HydrateMembers(v.members, fields))
    else v
  }

  function HydrateMembers(m: map<string, Json>, fields: seq<Param>): map<string, Json>
    decreases fields, 0, 1
  {
    map k | k in m.Keys + Keys(fields) && HydrateSlot(m, fields, k).Some? ::
      HydrateSlot(m, fields, k).value
  }

  /** What key `k` holds afterwards: nothing the user wrote is replaced. */
  function HydrateSlot(m: map<string, Json>, fields: seq<Param>, k: string): Option<Json>
    decreases fields, 0, 0
  {
    match Find(fields, k)
    case None => Get(m, k)
    case Some(f) => HydrateField(m, f)
  }

  /** What one schema field makes of its own slot. */
  function HydrateField(m: map<string, Json>, f: Param): Option<Json>
    decreases f
  {
    match f
    case Leaf(k, d) => if k in m then Some(m[k]) else d
    case Nested(k, inner) => Some(Hydrate(if k in m then m[k] else EMPTY, inner))
  }

  /** The pointers recorded while hydrating `v`, which sits at `path`. */
  function Inserted(v: Json, fields: seq<Param>, path: Path): set<string>
    decreases fields, 1
  {
    if v.Null? then InsertedMembers(map[], fields, path)
    else if v.Obj? then InsertedMembers(v.members, fields, path)
    else {}
  }

  function InsertedMembers(m: map<string, Json>, fields: seq<Param>, path: Path): set<string>
    decreases fields, 0
  {
    set i, s | 0 <= i < |fields| && s in InsertedAt(m, fields[i], path) :: s
  }

  function InsertedAt(m: map<string, Json>, f: Param, path: Path): set<string>
    decreases f
  {
    var here := path + [f.key];
    match f
    case Leaf(k, d) => if k !in m && d.Some? then {Pointer(here)} else {}
    case Nested(k, inner) =>
      if k in m then Inserted(m[k], inner, here)
      else {Pointer(here)} + Inserted(EMPTY, inner, here)
  }

  /** The first `i` fields have been visited: `m` grew out of `m0`. */
  ghost predicate HydratedUpTo(m: map<string, Json>, m0: map<string, Json>, fields: seq<Param>, i: nat)
    requires i <= |fields|
  {
    forall k :: Get(m, k) == if k in Keys(fields[..i]) then HydrateSlot(m0, fields, k) else Get(m0, k)
  }

  lemma HydrateFieldReads(m: map<string, Json>, m0: map<string, Json>, f: Param)
    requires Get(m, f.key) == Get(m0, f.key)
    ensures HydrateField(m, f) == HydrateField(m0, f)
  {
  }

  lemma HydrateStep(
      m: map<string, Json>, m0: map<string, Json>, fields: seq<Param>, i: nat, m': map<string, Json>, path: Path)
    requires DistinctKeys(fields) && i < |fields|
    requires HydratedUpTo(m, m0, fields, i)
    requires forall k :: Get(m', k) == if k == fields[i].key then HydrateField(m, fields[i]) else Get(m, k)
    ensures HydratedUpTo(m', m0, fields, i + 1)
    ensures InsertedAt(m, fields[i], path) == InsertedAt(m0, fields[i], path)
  {
    KeysExtend(fields, i);
    FindAt(fields, i);
    assert Get(m, fields[i].key) == Get(m0, fields[i].key);
    HydrateFieldReads(m, m0, fields[i]);
  }

  lemma HydrateDone(m: map<string, Json>, m0: map<string, Json>, fields: seq<Param>)
    requires HydratedUpTo(m, m0, fields, |fields|)
    ensures m == HydrateMembers(m0, fields)
  {
    assert fields[..|fields|] == fields;
    forall k ensures Get(m, k) == Get(HydrateMembers(m0, fields), k) {
      HydrateAnswers(m0, fields, k);
    }
    MapsAgree(m, HydrateMembers(m0, fields));
  }

  /** The in-place walk of the source: map, path stack and synthetic set together. */
  method HydrateObject(value: Json, fields: seq<Param>, path: Path, synthetic: set<string>)
    returns (value': Json, synthetic': set<string>)
    requires WellFormed(fields)
    ensures value' == Hydrate(value, fields)
    ensures synthetic' == synthetic + Inserted(value, fields, path)
    decreases fields, 1
  {
    var v := if value.Null? then EMPTY else value;
    synthetic' := synthetic;
    if !v.Obj? {
      return v, synthetic';
    }
    var m, stack := v.members, path;
    var i := 0;
    while i < |fields|
      invariant 0 <= i <= |fields|
      invariant stack == path
      invariant HydratedUpTo(m, v.members, fields, i)
      invariant synthetic' == synthetic + InsertedMembers(v.members, fields[..i], path)
    {
      ghost var m', recorded := m, synthetic';
      var sub := fields[i];
      assert WellFormedParam(sub);
      stack := stack + [sub.key];
      m, synthetic' := HydrateOneField(m, sub, stack, synthetic', path);
      HydrateStep(m', v.members, fields, i, m, path);
      InsertedExtend(v.members, fields, i, path);
      stack := stack[..|stack| - 1];
      i := i + 1;
    }
    assert fields[..i] == fields;
    HydrateDone(m, v.members, fields);
    value' := Obj(m);
  }

  /** One turn of the loop; `stack` already ends in the key of the field. */
  method HydrateOneField(m: map<string, Json>, sub: Param, stack: Path, synthetic: set<string>, ghost path: Path)
    returns (m': map<string, Json>, synthetic': set<string>)
    requires WellFormedParam(sub) && stack == path + [sub.key]
    ensures forall k :: Get(m', k) == if k == sub.key then HydrateField(m, sub) else Get(m, k)
    ensures synthetic' == synthetic + InsertedAt(m, sub, path)
    decreases sub
  {
    m', synthetic' := m, synthetic;
    match sub {
      case Nested(key, inner) =>
        var inserted := key !in m;
        var entry := if inserted then EMPTY else m[key];
        if inserted {
          synthetic' := synthetic' + {Pointer(stack)};
        }
        var child;
        child, synthetic' := HydrateObject(entry, inner, stack, synthetic');
        m' := m[key := child];
      case Leaf(key, default) =>
        if key !in m && default.Some? {
          m' := m[key := default.value];
          synthetic' := synthetic' + {Pointer(stack)};
        }
    }
  }

  lemma InsertedExtend(m: map<string, Json>, fields: seq<Param>, i: nat, path: Path)
    requires i < |fields|
    ensures InsertedMembers(m, fields[..i + 1], path) ==
            InsertedMembers(m, fields[..i], path) + InsertedAt(m, fields[i], path)
  {
    var before, after := fields[..i], fields[..i + 1];
    assert after[i] == fields[i];
    assert forall j | 0 <= j < i :: after[j] == before[j];
  }

  // ---- Pruning -------------------------------------------------------------

  function Prune(v: Json, fields: seq<Param>, path: Path, synthetic: set<string>): Json
    decreases fields, 1
  {
    if v.Obj? then Obj(PruneMembers(v.members, fields, path, synthetic)) else v
  }

  function PruneMembers(m: map<string, Json>, fields: seq<Param>, path: Path, synthetic: set<string>): map<string, Json>
    decreases fields, 0, 1
  {
    map k | k in m && PruneSlot(m, fields, path, synthetic, k).Some? ::
      PruneSlot(m, fields, path, synthetic, k).value
  }

  function PruneSlot(
      m: map<string, Json>, fields: seq<Param>, path: Path, synthetic: set<string>, k: string): Option<Json>
    decreases fields, 0, 0
  {
    match Find(fields, k)
    case None => Get(m, k)
    case Some(f) => PruneField(m, f, path, synthetic)
  }

  /** A synthetic leaf still at its default goes, and so does a synthetic object left empty. */
  function PruneField(m: map<string, Json>, f: Param, path: Path, synthetic: set<string>): Option<Json>
    decreases f
  {
    if f.key !in m then None
    else
      var recorded := Pointer(path + [f.key]) in synthetic;
      match f
      case Leaf(k, d) => if recorded && d == Some(m[k]) then None else Some(m[k])
      case Nested(k, inner) =>
        var child := Prune(m[k], inner, path + [k], synthetic);
        if recorded && child == EMPTY then None else Some(child)
  }

  ghost predicate PrunedUpTo(
      m: map<string, Json>, m0: map<string, Json>, fields: seq<Param>, path: Path, synthetic: set<string>, i: nat)
    requires i <= |fields|
  {
    forall k :: Get(m, k) == if k in Keys(fields[..i]) then PruneSlot(m0, fields, path, synthetic, k) else Get(m0, k)
  }

  lemma PruneFieldReads(m: map<string, Json>, m0: map<string, Json>, f: Param, path: Path, synthetic: set<string>)
    requires Get(m, f.key) == Get(m0, f.key)
    ensures PruneField(m, f, path, synthetic) == PruneField(m0, f, path, synthetic)
  {
  }

  lemma PruneStep(
      m: map<string, Json>, m0: map<string, Json>, fields: seq<Param>, path: Path, synthetic: set<string>, i: nat,
      m': map<string, Json>)
    requires DistinctKeys(fields) && i < |fields|
    requires PrunedUpTo(m, m0, fields, path, synthetic, i)
    requires forall k ::
               Get(m', k) == if k == fields[i].key then PruneField(m, fields[i], path, synthetic) else Get(m, k)
    ensures PrunedUpTo(m', m0, fields, path, synthetic, i + 1)
  {
    KeysExtend(fields, i);
    FindAt(fields, i);
    assert Get(m, fields[i].key) == Get(m0, fields[i].key);
    PruneFieldReads(m, m0, fields[i], path, synthetic);
  }

  method PruneSyntheticDefaults(value: Json, fields: seq<Param>, path: Path, synthetic: set<string>)
    returns (value': Json)
    requires WellFormed(fields)
    ensures value' == Prune(value, fields, path, synthetic)
    decreases fields, 1
  {
    if !value.Obj? {
      return value;
    }
    var m, stack := value.members, path;
    var i := 0;
    while i < |fields|
      invariant 0 <= i <= |fields|
      invariant stack == path
      invariant PrunedUpTo(m, value.members, fields, path, synthetic, i)
    {
      ghost var m' := m;
      var sub := fields[i];
      assert WellFormedParam(sub);
      stack := stack + [sub.key];
      m := PruneOneField(m, sub, stack, synthetic, path);
      PruneStep(m', value.members, fields, path, synthetic, i, m);
      stack := stack[..|stack| - 1];
      i := i + 1;
    }
    PruneDone(m, value.members, fields, path, synthetic);
    value' := Obj(m);
  }

  lemma PruneDone(m: map<string, Json>, m0: map<string, Json>, fields: seq<Param>, path: Path, synthetic: set<string>)
    requires PrunedUpTo(m, m0, fields, path, synthetic, |fields|)
    ensures m == PruneMembers(m0, fields, path, synthetic)
  {
    assert fields[..|fields|] == fields;
    forall k ensures Get(m, k) == Get(PruneMembers(m0, fields, path, synthetic), k) {
      PruneAnswers(m0, fields, path, synthetic, k);
    }
    MapsAgree(m, PruneMembers(m0, fields, path, synthetic));
  }

  /** One turn of the loop; `stack` already ends in the key of the field. */
  method PruneOneField(m: map<string, Json>, sub: Param, stack: Path, synthetic: set<string>, ghost path: Path)
    returns (m': map<string, Json>)
    requires WellFormedParam(sub) && stack == path + [sub.key]
    ensures forall k :: Get(m', k) == if k == sub.key then PruneField(m, sub, path, synthetic) else Get(m, k)
    decreases sub
  {
    m' := m;
    var pointer := Pointer(stack);
    match sub {
      case Nested(key, inner) =>
        if key in m {
          var child := PruneSyntheticDefaults(m[key], inner, stack, synthetic);
          m' := m[key := child];
          if pointer in synthetic && child.Obj? && child.members == map[] {
            m' := m' - {key};
          }
        }
      case Leaf(key, default) =>
        if pointer in synthetic && key in m && default.Some? && m[key] == default.value {
          m' := m - {key};
        }
    }
  }

  // ---- Saving loses nothing: hydration undoes any pruning -------------------

  /** Every schema slot of `v` is already filled. */
  ghost predicate Hydrated(v: Json, fields: seq<Param>) {
    Hydrate(v, fields) == v
  }

  lemma HydrateAnswers(m: map<string, Json>, fields: seq<Param>, k: string)
    ensures Get(HydrateMembers(m, fields), k) == HydrateSlot(m, fields, k)
  {
  }

  lemma PruneAnswers(m: map<string, Json>, fields: seq<Param>, path: Path, synthetic: set<string>, k: string)
    ensures Get(PruneMembers(m, fields, path, synthetic), k) == PruneSlot(m, fields, path, synthetic, k)
  {
  }

  /** Whatever the synthetic set holds, pruning a hydrated value is undone by hydrating. */
  lemma {:induction false} HydrateUndoesPrune(v: Json, fields: seq<Param>, path: Path, synthetic: set<string>)
    requires Hydrated(v, fields)
    ensures Hydrate(Prune(v, fields, path, synthetic), fields) == v
    decreases fields
  {
    if v.Obj? {
      var m := v.members;
      var p := PruneMembers(m, fields, path, synthetic);
      forall k ensures HydrateSlot(p, fields, k) == Get(m, k) {
        HydrateAnswers(m, fields, k);
        PruneAnswers(m, fields, path, synthetic, k);
        match Find(fields, k) {
          case Some(Nested(_, inner)) =>
            HydrateUndoesPrune(m[k], inner, path + [k], synthetic);
          case _ =>
        }
      }
      forall k ensures Get(HydrateMembers(p, fields), k) == Get(m, k) {
        HydrateAnswers(p, fields, k);
      }
      MapsAgree(HydrateMembers(p, fields), m);
    }
  }

  /** Hydrating twice is hydrating once, and the second pass records nothing. */
  lemma {:induction false} HydrateIdempotent(v: Json, fields: seq<Param>, path: Path)
    requires WellFormed(fields)
    ensures Hydrated(Hydrate(v, fields), fields)
    ensures Inserted(Hydrate(v, fields), fields, path) == {}
    decreases fields
  {
    var h := Hydrate(v, fields);
    if h.Obj? {
      forall k ensures HydrateSlot(h.members, fields, k) == Get(h.members, k) {
        HydrateAnswers(if v.Null? then map[] else v.members, fields, k);
        match Find(fields, k) {
          case Some(Nested(_, inner)) =>
            assert WellFormedParam(Find(fields, k).value);
            HydrateIdempotent(if v.Obj? && k in v.members then v.members[k] else EMPTY, inner, path + [k]);
          case _ =>
        }
      }
      forall k ensures Get(HydrateMembers(h.members, fields), k) == Get(h.members, k) {
        HydrateAnswers(h.members, fields, k);
      }
      MapsAgree(HydrateMembers(h.members, fields), h.members);
      forall i | 0 <= i < |fields| ensures InsertedAt(h.members, fields[i], path) == {} {
        var f := fields[i];
        FindAt(fields, i);
        HydrateAnswers(if v.Null? then map[] else v.members, fields, f.key);
        match f {
          case Nested(k, inner) =>
            assert WellFormedParam(f);
            HydrateIdempotent(if v.Obj? && k in v.members then v.members[k] else EMPTY, inner, path + [k]);
          case Leaf(_, _) =>
        }
      }
    }
  }

  /** Hydrating nothing yields the schema's own default object. */
  lemma {:induction false} HydrateEmptyIsDefault(fields: seq<Param>)
    ensures Hydrate(EMPTY, fields) == ObjectDefault(fields)
    decreases fields
  {
    var h, d := HydrateMembers(map[], fields), ObjectDefault(fields).members;
    forall k ensures Get(h, k) == Get(d, k) {
      HydrateAnswers(map[], fields, k);
      DefaultAnswers(fields, k);
      match Find(fields, k) {
        case Some(Nested(_, inner)) => HydrateEmptyIsDefault(inner);
        case _ =>
      }
    }
    MapsAgree(h, d);
  }

  // ---- Minimal diffs: pruning removes exactly what hydration inserted --------

  /** Position `rel` below `v` was filled by hydration. */
  predicate IsInserted(v: Json, fields: seq<Param>, rel: Path)
    decreases |rel|
  {
    (v.Null? || v.Obj?) && rel != [] &&
    var m := if v.Null? then map[] else v.members;
    match Find(fields, rel[0])
    case None => false
    case Some(Leaf(k, d)) => rel == [k] && k !in m && d.Some?
    case Some(Nested(k, inner)) =>
      if k in m then IsInserted(m[k], inner, rel[1..])
      else rel == [k] || IsInserted(EMPTY, inner, rel[1..])
  }

  /** The recorded set answers exactly for the filled positions below `path`. */
  ghost predicate Records(synthetic: set<string>, v: Json, fields: seq<Param>, path: Path) {
    forall rel: Path | rel != [] :: Pointer(path + rel) in synthetic <==> IsInserted(v, fields, rel)
  }

  lemma {:induction false} InsertedIsBelow(v: Json, fields: seq<Param>, path: Path, s: string)
    requires s in Inserted(v, fields, path)
    ensures exists rel: Path :: rel != [] && s == Pointer(path + rel)
    decreases fields
  {
    var m := if v.Null? then map[] else v.members;
    var i :| 0 <= i < |fields| && s in InsertedAt(m, fields[i], path);
    var here := path + [fields[i].key];
    if s == Pointer(here) {
    } else {
      var child := if fields[i].key in m then m[fields[i].key] else EMPTY;
      InsertedIsBelow(child, fields[i].fields, here, s);
      var rel: Path :| rel != [] && s == Pointer(here + rel);
      assert here + rel == path + ([fields[i].key] + rel);
    }
  }

  lemma SameTail(path: Path, k: string, r: Path, rel: Path)
    requires path + rel == path + [k] + r
    ensures rel == [k] + r
  {
    assert (path + rel)[|path|..] == rel;
    assert path + [k] + r == path + ([k] + r);
    assert (path + ([k] + r))[|path|..] == [k] + r;
  }

  /** Pointer sets faithfully represent positions, because pointers are injective. */
  lemma {:induction false} InsertedExactly(v: Json, fields: seq<Param>, path: Path, rel: Path)
    requires WellFormed(fields)
    ensures Pointer(path + rel) in Inserted(v, fields, path) <==> IsInserted(v, fields, rel)
    decreases fields
  {
    var s := Pointer(path + rel);
    if v.Null? || v.Obj? {
      var m := if v.Null? then map[] else v.members;
      forall i | 0 <= i < |fields|
        ensures s in InsertedAt(m, fields[i], path) <==>
                rel != [] && rel[0] == fields[i].key && IsInserted(v, fields, rel)
      {
        FindAt(fields, i);
        assert WellFormedParam(fields[i]);
        InsertedAtExactly(v, m, fields, i, path, rel);
      }
      assert IsInserted(v, fields, rel) ==> Find(fields, rel[0]).Some?;
    }
  }

  lemma {:induction false} InsertedAtExactly(
      v: Json, m: map<string, Json>, fields: seq<Param>, i: nat, path: Path, rel: Path)
    requires WellFormed(fields) && i < |fields|
    requires (v.Null? && m == map[]) || (v.Obj? && m == v.members)
    ensures Pointer(path + rel) in InsertedAt(m, fields[i], path) <==>
            rel != [] && rel[0] == fields[i].key && IsInserted(v, fields, rel)
    decreases fields, 0
  {
    var f, s := fields[i], Pointer(path + rel);
    var here := path + [f.key];
    FindAt(fields, i);
    PointerInjective(path + rel, here);
    assert path + rel == here <==> rel == [f.key] by {
      assert (path + rel)[|path|..] == rel && here[|path|..] == [f.key];
    }
    if f.Nested? {
      assert WellFormedParam(f);
      var child := if f.key in m then m[f.key] else EMPTY;
      if rel != [] && rel[0] == f.key {
        assert path + rel == here + rel[1..];
        InsertedExactly(child, f.fields, here, rel[1..]);
      } else if s in Inserted(child, f.fields, here) {
        InsertedIsBelow(child, f.fields, here, s);
        var r: Path :| r != [] && s == Pointer(here + r);
        PointerInjective(path + rel, here + r);
        SameTail(path, f.key, r, rel);
        assert false;
      }
    }
  }

  /** `null` in an object slot becomes `{}` and stays; nothing else changes. */
  function Promote(v: Json, fields: seq<Param>): Json
    decreases fields, 1
  {
    if v.Null? then EMPTY
    else if v.Obj? then Obj(map k | k in v.members :: PromoteSlot(v.members, fields, k))
    else v
  }

  function PromoteSlot(m: map<string, Json>, fields: seq<Param>, k: string): Json
    requires k in m
    decreases fields, 0
  {
    match Find(fields, k)
    case Some(Nested(_, inner)) => Promote(m[k], inner)
    case _ => m[k]
  }

  lemma RecordsChild(synthetic: set<string>, v: Json, fields: seq<Param>, path: Path, k: string)
    requires WellFormed(fields)
    requires v.Null? || v.Obj?
    requires Records(synthetic, v, fields, path)
    requires Find(fields, k).Some? && Find(fields, k).value.Nested?
    ensures var m := if v.Null? then map[] else v.members;
            Records(synthetic, if k in m then m[k] else EMPTY, Find(fields, k).value.fields, path + [k])
  {
    var m := if v.Null? then map[] else v.members;
    var child := if k in m then m[k] else EMPTY;
    var inner := Find(fields, k).value.fields;
    forall rel: Path | rel != [] ensures Pointer(path + [k] + rel) in synthetic <==> IsInserted(child, inner, rel) {
      assert path + [k] + rel == path + ([k] + rel);
      assert ([k] + rel)[1..] == rel;
      assert Pointer(path + ([k] + rel)) in synthetic <==> IsInserted(v, fields, [k] + rel);
    }
  }

  /**
   Pruning with the set that hydration recorded gives back the original value,
   including every object that was created only to be emptied again.
   */
  lemma {:induction false} PruneUndoesHydrate(v: Json, fields: seq<Param>, path: Path, synthetic: set<string>)
    requires WellFormed(fields)
    requires Records(synthetic, v, fields, path)
    ensures Prune(Hydrate(v, fields), fields, path, synthetic) == Promote(v, fields)
    decreases fields, 1
  {
    if v.Null? || v.Obj? {
      var m := if v.Null? then map[] else v.members;
      var h, want := HydrateMembers(m, fields), Promote(v, fields).members;
      forall k ensures Get(PruneMembers(h, fields, path, synthetic), k) == Get(want, k) {
        PruneUndoesHydrateSlot(v, m, fields, path, synthetic, k);
        PruneAnswers(h, fields, path, synthetic, k);
      }
      MapsAgree(PruneMembers(h, fields, path, synthetic), want);
    }
  }

  lemma {:induction false} PruneUndoesHydrateSlot(
      v: Json, m: map<string, Json>, fields: seq<Param>, path: Path, synthetic: set<string>, k: string)
    requires WellFormed(fields) && (v.Null? || v.Obj?) && m == if v.Null? then map[] else v.members
    requires Records(synthetic, v, fields, path)
    ensures PruneSlot(HydrateMembers(m, fields), fields, path, synthetic, k) ==
            if k in m then Some(PromoteSlot(m, fields, k)) else None
    decreases fields, 0
  {
    HydrateAnswers(m, fields, k);
    assert [k] != [];
    assert Pointer(path + [k]) in synthetic <==> IsInserted(v, fields, [k]);
    assert [k][1..] == [];
    match Find(fields, k) {
      case Some(Nested(_, inner)) =>
        assert WellFormedParam(Find(fields, k).value);
        RecordsChild(synthetic, v, fields, path, k);
        PruneUndoesHydrate(if k in m then m[k] else EMPTY, inner, path + [k], synthetic);
      case _ =>
    }
  }

  /** A user's value comes back unchanged exactly when no object slot of it holds `null`. */
  predicate NullSlot(v: Json, fields: seq<Param>)
    decreases fields
  {
    v.Null? || (v.Obj? && exists i :: 0 <= i < |fields| && fields[i].Nested? && fields[i].key in v.members &&
                                      NullSlot(v.members[fields[i].key], fields[i].fields))
  }

  lemma {:induction false} PromoteIdentity(v: Json, fields: seq<Param>)
    requires WellFormed(fields)
    ensures Promote(v, fields) == v <==> !NullSlot(v, fields)
    decreases fields
  {
    if v.Obj? {
      var m := v.members;
      var p := Promote(v, fields).members;
      forall i | 0 <= i < |fields| && fields[i].Nested? && fields[i].key in m
        ensures p[fields[i].key] == m[fields[i].key] <==> !NullSlot(m[fields[i].key], fields[i].fields)
      {
        FindAt(fields, i);
        assert WellFormedParam(fields[i]);
        assert p[fields[i].key] == PromoteSlot(m, fields, fields[i].key);
        PromoteIdentity(m[fields[i].key], fields[i].fields);
      }
      if !NullSlot(v, fields) {
        forall k | k in m ensures p[k] == m[k] {
          assert p[k] == PromoteSlot(m, fields, k);
          if Find(fields, k).Some? {
            var i :| 0 <= i < |fields| && fields[i] == Find(fields, k).value;
          }
        }
        assert p == m;
      }
    }
  }

  /** Hydrated values hold no `null` in an object slot, and neither do their pruned forms. */
  lemma {:induction false} PrunedHasNoNullSlot(v: Json, fields: seq<Param>, path: Path, synthetic: set<string>)
    requires WellFormed(fields) && Hydrated(v, fields)
    ensures !NullSlot(Prune(v, fields, path, synthetic), fields)
    decreases fields
  {
    if v.Obj? {
      var p := Prune(v, fields, path, synthetic).members;
      forall i | 0 <= i < |fields| && fields[i].Nested? && fields[i].key in p
        ensures !NullSlot(p[fields[i].key], fields[i].fields)
      {
        var k := fields[i].key;
        FindAt(fields, i);
        assert WellFormedParam(fields[i]);
        HydrateAnswers(v.members, fields, k);
        PruneAnswers(v.members, fields, path, synthetic, k);
        PrunedHasNoNullSlot(v.members[k], fields[i].fields, path + [k], synthetic);
      }
    }
  }

  // ---- Edits between the two walks --------------------------------------------

  /** Replacing any existing position by a scalar keeps every schema slot filled. */
  lemma {:induction false} PutKeepsHydrated(v: Json, fields: seq<Param>, path: Path, x: Json)
    requires Hydrated(v, fields)
    requires At(v, path).Some? && Scalar(x)
    ensures Hydrated(Put(v, path, x), fields)
    decreases |path|
  {
    if path != [] && v.Obj? {
      var k := path[0];
      var m := v.members;
      var m' := m[k := Put(m[k], path[1..], x)];
      forall j ensures HydrateSlot(m', fields, j) == Get(m', j) {
        HydrateAnswers(m, fields, j);
        if j == k {
          match Find(fields, k) {
            case Some(Nested(_, inner)) => PutKeepsHydrated(m[k], inner, path[1..], x);
            case _ =>
          }
        }
      }
      forall j ensures Get(HydrateMembers(m', fields), j) == Get(m', j) {
        HydrateAnswers(m', fields, j);
      }
      MapsAgree(HydrateMembers(m', fields), m');
    }
  }

  /** A scalar whose pointer is not recorded survives pruning, and so do all its ancestors. */
  lemma {:induction false} PruneKeepsUnrecorded(
      v: Json, fields: seq<Param>, path: Path, synthetic: set<string>, rel: Path)
    requires WellFormed(fields)
    requires At(v, rel).Some? && Scalar(At(v, rel).value)
    requires rel != [] ==> Pointer(path + rel) !in synthetic
    ensures At(Prune(v, fields, path, synthetic), rel) == At(v, rel)
    decreases |rel|
  {
    if rel != [] && v.Obj? {
      var k := rel[0];
      var m := v.members;
      PruneAnswers(m, fields, path, synthetic, k);
      assert rel == [k] + rel[1..];
      assert path + [k] + rel[1..] == path + rel;
      match Find(fields, k) {
        case Some(Nested(_, inner)) =>
          assert WellFormedParam(Find(fields, k).value);
          PruneKeepsUnrecorded(m[k], inner, path + [k], synthetic, rel[1..]);
        case Some(Leaf(_, d)) =>
          assert WellFormedParam(Find(fields, k).value);
          assert rel[1..] != [] ==> !Scalar(m[k]);
        case None =>
      }
    }
  }
}
