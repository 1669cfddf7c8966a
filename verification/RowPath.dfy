/**
 Which positions of an object entry get a row, which of them are containers, and
 in which order the rows come, said of the schema and the value alone.
 */
module RowPaths {
  import opened Wrappers
  import opened JsonPointer
  import opened JsonValues
  import opened Schema
  import opened Ordering
  import opened SchemaPaths
  import opened RowTree

  /**
   The entry itself, and below every declared object that holds an object: each
   declared field, there or not, and each member, declared or not.
   */
  predicate HasRow(v: Json, fields: seq<Param>, path: Path) {
    path == [] || BelowObject(v, fields, Parent(path), Last(path))
  }

  predicate BelowObject(v: Json, fields: seq<Param>, parent: Path, k: string) {
    && FieldsAt(fields, parent).Some? && Reached(v, parent).Some? && Reached(v, parent).value.Obj?
    && (k in Keys(FieldsAt(fields, parent).value) || k in Reached(v, parent).value.members)
  }

  lemma HasRowOne(v: Json, fields: seq<Param>, k: string)
    ensures HasRow(v, fields, [k]) <==> v.Obj? && (k in Keys(fields) || k in v.members)
  {
    assert Parent([k]) == [] && Last([k]) == k;
    ReachedHere(v);
  }

  lemma HasRowCons(v: Json, fields: seq<Param>, k: string, rest: Path)
    requires rest != []
    ensures HasRow(v, fields, [k] + rest) <==>
            v.Obj? && Inner(fields, k).Some? && k in v.members && HasRow(v.members[k], Inner(fields, k).value, rest)
  {
    PathCons(k, rest);
    FieldsCons(fields, k, Parent(rest));
    ReachedCons(v, k, Parent(rest));
  }

  // ---- Rows and positions ---------------------------------------------------------------------

  ghost predicate Listed(rows: seq<Row>, e: nat, path: Path, container: bool) {
    Row(e, path, container) in rows
  }

  /** A row at `rel` below a value, one key at a time. */
  predicate RowBelow(v: Json, fields: seq<Param>, rel: Path, container: bool)
    requires v.Obj? && rel != []
  {
    if rel[0] !in Keys(fields) then |rel| == 1 && rel[0] in v.members && !container
    else if |rel| == 1 then container == Inner(fields, rel[0]).Some?
    else && Inner(fields, rel[0]).Some? && rel[0] in v.members
         && HasRow(v.members[rel[0]], Inner(fields, rel[0]).value, rel[1..])
         && container == FieldsAt(Inner(fields, rel[0]).value, rel[1..]).Some?
  }

  lemma RowBelowIs(v: Json, fields: seq<Param>, rel: Path, container: bool)
    requires v.Obj? && rel != []
    ensures RowBelow(v, fields, rel, container) <==>
            HasRow(v, fields, rel) && container == FieldsAt(fields, rel).Some?
  {
    var k, rest := rel[0], rel[1..];
    assert rel == [k] + rest;
    FieldsCons(fields, k, rest);
    if rest == [] {
      HasRowOne(v, fields, k);
    } else {
      HasRowCons(v, fields, k, rest);
    }
  }

  /** The rows below `path` are exactly those of the value there. */
  lemma {:induction false} ObjectRowIff(e: nat, v: Json, fields: seq<Param>, path: Path, rel: Path, container: bool)
    requires WellFormed(fields) && rel != []
    ensures Listed(ObjectRows(e, v, fields, path), e, path + rel, container) <==>
            HasRow(v, fields, rel) && container == FieldsAt(fields, rel).Some?
    decreases fields, 1
  {
    if v.Obj? {
      RowBelowIs(v, fields, rel, container);
      UnknownRowIff(e, v, fields, path, rel, container);
      if rel[0] in Keys(fields) {
        var i :| 0 <= i < |fields| && fields[i].key == rel[0];
        FieldRowIff(e, v, fields, i, path, rel, container);
        DeclaredRowIff(e, v, fields, i, path, rel, container);
      } else {
        KnownRowIff(e, v, fields, path, rel, container, |fields|);
      }
    } else {
      NoObjectNoRow(v, fields, rel);
    }
  }

  lemma NoObjectNoRow(v: Json, fields: seq<Param>, rel: Path)
    requires !v.Obj? && rel != []
    ensures !HasRow(v, fields, rel)
  {
    var k, rest := rel[0], rel[1..];
    assert rel == [k] + rest;
    if rest == [] {
      HasRowOne(v, fields, k);
    } else {
      HasRowCons(v, fields, k, rest);
    }
  }

  lemma DeclaredRowIff(e: nat, v: Json, fields: seq<Param>, i: nat, path: Path, rel: Path, container: bool)
    requires DistinctKeys(fields) && v.Obj? && i < |fields| && rel != [] && fields[i].key == rel[0]
    ensures Listed(KnownRows(e, v, fields, path, |fields|), e, path + rel, container) <==>
            Listed(FieldRows(e, v, fields[i], path), e, path + rel, container)
  {
    KnownRowIff(e, v, fields, path, rel, container, |fields|);
    if Listed(FieldRows(e, v, fields[i], path), e, path + rel, container) {
      assert ListedBelow(e, v, fields, path, rel, container, i);
    }
  }

  ghost predicate ListedBelow(e: nat, v: Json, fields: seq<Param>, path: Path, rel: Path, container: bool, i: nat)
    requires v.Obj? && i < |fields| && rel != []
  {
    fields[i].key == rel[0] && Listed(FieldRows(e, v, fields[i], path), e, path + rel, container)
  }

  lemma {:induction false} KnownRowIff(
      e: nat, v: Json, fields: seq<Param>, path: Path, rel: Path, container: bool, n: nat)
    requires v.Obj? && rel != [] && n <= |fields|
    ensures Listed(KnownRows(e, v, fields, path, n), e, path + rel, container) <==>
            exists i :: 0 <= i < n && ListedBelow(e, v, fields, path, rel, container, i)
    decreases n
  {
    if n > 0 {
      KnownRowIff(e, v, fields, path, rel, container, n - 1);
      FieldRowsUnder(e, v, fields[n - 1], path);
      var last := FieldRows(e, v, fields[n - 1], path);
      if Listed(last, e, path + rel, container) {
        var j :| 0 <= j < |last| && last[j] == Row(e, path + rel, container);
        assert last[j].path[|path|] == rel[0];
        assert ListedBelow(e, v, fields, path, rel, container, n - 1);
      }
    }
  }

  /** All rows of a field start with its key. */
  lemma FieldRowsUnder(e: nat, v: Json, f: Param, path: Path)
    requires v.Obj?
    ensures Under(FieldRows(e, v, f, path), path, {f.key})
  {
    var here := path + [f.key];
    var rows := FieldRows(e, v, f, path);
    if f.Nested? && f.key in v.members {
      ObjectRowsBelow(e, v.members[f.key], f.fields, here);
    }
    forall j | 0 <= j < |rows| ensures path < rows[j].path && rows[j].path[|path|] in {f.key} {
      assert here <= rows[j].path;
      assert rows[j].path[|path|] == here[|path|];
    }
  }

  lemma UnknownRowIff(e: nat, v: Json, fields: seq<Param>, path: Path, rel: Path, container: bool)
    requires v.Obj? && rel != []
    ensures Listed(UnknownRows(e, UnknownKeys(v, fields), path), e, path + rel, container) <==>
            |rel| == 1 && rel[0] in v.members && rel[0] !in Keys(fields) && !container
  {
    var ks := UnknownKeys(v, fields);
    var rows := UnknownRows(e, ks, path);
    if Listed(rows, e, path + rel, container) {
      var i :| 0 <= i < |ks| && rows[i] == Row(e, path + rel, container);
      assert path + rel == path + [ks[i]];
      assert rel == (path + rel)[|path|..] == [ks[i]];
    }
    if |rel| == 1 && rel[0] in v.members && rel[0] !in Keys(fields) && !container {
      assert rel[0] in ks;
      var i :| 0 <= i < |ks| && ks[i] == rel[0];
      assert rel == [ks[i]];
      assert rows[i] == Row(e, path + rel, container);
    }
  }

  lemma {:induction false} FieldRowIff(
      e: nat, v: Json, fields: seq<Param>, i: nat, path: Path, rel: Path, container: bool)
    requires WellFormed(fields) && v.Obj? && i < |fields| && rel != [] && fields[i].key == rel[0]
    ensures Listed(FieldRows(e, v, fields[i], path), e, path + rel, container) <==>
            if |rel| == 1 then container == Inner(fields, rel[0]).Some?
            else && Inner(fields, rel[0]).Some? && rel[0] in v.members
                 && HasRow(v.members[rel[0]], Inner(fields, rel[0]).value, rel[1..])
                 && container == FieldsAt(Inner(fields, rel[0]).value, rel[1..]).Some?
    decreases fields, 0
  {
    var f := fields[i];
    assert WellFormedParam(f);
    FindAt(fields, i);
    var here, rest := path + [f.key], rel[1..];
    assert rel == [f.key] + rest;
    Appended(path, [f.key], rest);
    var first := Row(e, here, f.Nested?);
    assert rest != [] ==> path + rel != here by { assert |path + rel| == |here| + |rest|; }
    assert rest == [] ==> path + rel == here;
    if f.Nested? && f.key in v.members {
      var below := ObjectRows(e, v.members[f.key], f.fields, here);
      assert FieldRows(e, v, f, path) == [first] + below;
      ObjectRowsBelow(e, v.members[f.key], f.fields, here);
      if rest == [] {
        assert !Listed(below, e, here, container);
      } else {
        ObjectRowIff(e, v.members[f.key], f.fields, here, rest, container);
      }
    } else {
      assert FieldRows(e, v, f, path) == [first];
    }
  }

  /**
   A position of an object entry has a row exactly when the schema and the value
   say so, and the row is a container exactly where the schema declares an object.
   */
  lemma EntryRowIff(e: nat, v: Json, def: Param, path: Path, container: bool)
    requires WellFormedParam(def) && def.Nested?
    ensures Row(e, path, container) in EntryRows(e, v, Some(def)) <==>
            HasRow(v, def.fields, path) && container == FieldsAt(def.fields, path).Some?
  {
    var below := ObjectRows(e, v, def.fields, []);
    assert EntryRows(e, v, Some(def)) == [Row(e, [], true)] + below;
    if path == [] {
      ObjectRowsBelow(e, v, def.fields, []);
    } else {
      ObjectRowIff(e, v, def.fields, [], path, container);
      assert [] + path == path;
    }
  }

  /** Entries without an object schema have the one row. */
  lemma PlainEntryRow(e: nat, v: Json, def: Option<Param>)
    requires def.None? || def.value.Leaf?
    ensures EntryRows(e, v, def) == [Row(e, [], false)]
  {
  }

  // ---- Order --------------------------------------------------------------------------------------

  function Rel(r: Row, path: Path): Path
    requires path <= r.path
  {
    r.path[|path|..]
  }

  ghost predicate InOrder(rows: seq<Row>, path: Path, fields: seq<Param>) {
    && (forall i | 0 <= i < |rows| :: path <= rows[i].path)
    && forall i, j | 0 <= i < j < |rows| :: PathBefore(fields, Rel(rows[i], path), Rel(rows[j], path))
  }

  ghost predicate AllBefore(fields: seq<Param>, ks: set<string>, js: set<string>) {
    forall k, j | k in ks && j in js :: k != j && KeyBefore(fields, k, j)
  }

  lemma OrderConcat(a: seq<Row>, b: seq<Row>, path: Path, fields: seq<Param>, ks: set<string>, js: set<string>)
    requires InOrder(a, path, fields) && InOrder(b, path, fields)
    requires Under(a, path, ks) && Under(b, path, js) && AllBefore(fields, ks, js)
    ensures InOrder(a + b, path, fields)
  {
    var rows := a + b;
    forall i, j | 0 <= i < j < |rows| ensures PathBefore(fields, Rel(rows[i], path), Rel(rows[j], path)) {
      if j < |a| {
        assert rows[i] == a[i] && rows[j] == a[j];
      } else if i < |a| {
        assert rows[i] == a[i] && rows[j] == b[j - |a|];
        assert a[i].path[|path|] in ks && b[j - |a|].path[|path|] in js;
      } else {
        assert rows[i] == b[i - |a|] && rows[j] == b[j - |a|];
      }
    }
  }

  lemma UnknownInOrder(e: nat, v: Json, fields: seq<Param>, path: Path)
    requires v.Obj?
    ensures InOrder(UnknownRows(e, UnknownKeys(v, fields), path), path, fields)
  {
    var ks := UnknownKeys(v, fields);
    var rows := UnknownRows(e, ks, path);
    forall i, j | 0 <= i < j < |rows| ensures PathBefore(fields, Rel(rows[i], path), Rel(rows[j], path)) {
      assert Rel(rows[i], path) == [ks[i]] && Rel(rows[j], path) == [ks[j]];
      assert ks[i] in v.members.Keys - Keys(fields) && ks[j] in v.members.Keys - Keys(fields);
    }
  }

  lemma {:induction false} ObjectInOrder(e: nat, v: Json, fields: seq<Param>, path: Path)
    requires WellFormed(fields)
    ensures InOrder(ObjectRows(e, v, fields, path), path, fields)
    decreases fields, 1
  {
    if v.Obj? {
      var known, unknown := KnownRows(e, v, fields, path, |fields|), UnknownRows(e, UnknownKeys(v, fields), path);
      KnownInOrder(e, v, fields, path, |fields|);
      UnknownInOrder(e, v, fields, path);
      KnownDistinct(e, v, fields, path, |fields|);
      UnknownDistinct(e, v, fields, path);
      assert fields[..|fields|] == fields;
      OrderConcat(known, unknown, path, fields, Keys(fields), v.members.Keys - Keys(fields));
    }
  }

  lemma {:induction false} KnownInOrder(e: nat, v: Json, fields: seq<Param>, path: Path, n: nat)
    requires WellFormed(fields) && v.Obj? && n <= |fields|
    ensures InOrder(KnownRows(e, v, fields, path, n), path, fields)
    decreases fields, 0, n
  {
    if n == 0 {
      assert KnownRows(e, v, fields, path, 0) == [];
    } else {
      var f := fields[n - 1];
      assert WellFormedParam(f);
      KnownInOrder(e, v, fields, path, n - 1);
      FieldInOrder(e, v, fields, n - 1, path);
      KnownDistinct(e, v, fields, path, n - 1);
      FieldRowsUnder(e, v, f, path);
      EarlierKeys(fields, n - 1);
      OrderConcat(KnownRows(e, v, fields, path, n - 1), FieldRows(e, v, f, path), path, fields,
                  Keys(fields[..n - 1]), {f.key});
    }
  }

  lemma EarlierKeys(fields: seq<Param>, n: nat)
    requires DistinctKeys(fields) && n < |fields|
    ensures AllBefore(fields, Keys(fields[..n]), {fields[n].key})
  {
    forall k | k in Keys(fields[..n]) ensures k != fields[n].key && KeyBefore(fields, k, fields[n].key) {
      var i :| 0 <= i < n && fields[..n][i].key == k;
      assert fields[i].key == k;
      assert k in Keys(fields) && DeclaredBefore(fields, k, fields[n].key);
    }
  }

  lemma {:induction false} FieldInOrder(e: nat, v: Json, fields: seq<Param>, i: nat, path: Path)
    requires WellFormed(fields) && v.Obj? && i < |fields|
    ensures InOrder(FieldRows(e, v, fields[i], path), path, fields)
    decreases fields, 0, 0
  {
    var f := fields[i];
    assert WellFormedParam(f);
    FindAt(fields, i);
    var here := path + [f.key];
    if f.Nested? && f.key in v.members {
      var below := ObjectRows(e, v.members[f.key], f.fields, here);
      ObjectInOrder(e, v.members[f.key], f.fields, here);
      ObjectRowsBelow(e, v.members[f.key], f.fields, here);
      HeadInOrder(Row(e, here, true), below, path, f.key, fields);
    }
  }

  lemma HeadInOrder(first: Row, below: seq<Row>, path: Path, k: string, fields: seq<Param>)
    requires first.path == path + [k] && AllBelow(below, first.path)
    requires Inner(fields, k).Some? && InOrder(below, first.path, Inner(fields, k).value)
    ensures InOrder([first] + below, path, fields)
  {
    var rows := [first] + below;
    forall i | 0 <= i < |rows| ensures path <= rows[i].path && Rel(rows[i], path) == [k] + rows[i].path[|path| + 1..] {
      assert first.path <= rows[i].path;
      assert rows[i].path[|path|] == first.path[|path|];
    }
    forall i, j | 0 <= i < j < |rows| ensures PathBefore(fields, Rel(rows[i], path), Rel(rows[j], path)) {
      assert rows[j] == below[j - 1] && first.path < rows[j].path;
      if i == 0 {
        assert Rel(rows[0], path) == [k];
      } else {
        assert rows[i] == below[i - 1];
        assert Rel(rows[i], path)[1..] == Rel(rows[i], first.path);
      }
      assert Rel(rows[j], path)[1..] == Rel(rows[j], first.path);
    }
  }

  /** Rows come parent first, declared fields in schema order, then other keys in increasing order. */
  lemma EntryInOrder(e: nat, v: Json, def: Param, i: nat, j: nat)
    requires WellFormedParam(def) && def.Nested? && i < j < |EntryRows(e, v, Some(def))|
    ensures PathBefore(def.fields, EntryRows(e, v, Some(def))[i].path, EntryRows(e, v, Some(def))[j].path)
  {
    ObjectInOrder(e, v, def.fields, []);
    ObjectRowsBelow(e, v, def.fields, []);
    TopInOrder(Row(e, [], true), ObjectRows(e, v, def.fields, []), def.fields, i, j);
  }

  lemma TopInOrder(top: Row, below: seq<Row>, fields: seq<Param>, i: nat, j: nat)
    requires top.path == [] && InOrder(below, [], fields) && AllBelow(below, []) && i < j < 1 + |below|
    ensures PathBefore(fields, ([top] + below)[i].path, ([top] + below)[j].path)
  {
    var q := below[j - 1];
    assert Rel(q, []) == q.path;
    if i > 0 {
      var p := below[i - 1];
      assert Rel(p, []) == p.path;
      assert PathBefore(fields, Rel(p, []), Rel(q, []));
    }
  }
}
