/** The rows of the editor's left panel, as built from an entry's value and schema. */
module RowTree {
  import opened Wrappers
  import opened JsonPointer
  import opened JsonValues
  import opened Schema
  import opened Ordering

  /** A row addresses an entry, or a position inside an object entry. */
  datatype Row = Row(entry: nat, path: Path, container: bool)

  // ---- All rows ------------------------------------------------------------------

  function UnknownRows(e: nat, ks: seq<string>, path: Path): (r: seq<Row>)
    ensures |r| == |ks| && forall i | 0 <= i < |ks| :: r[i] == Row(e, path + [ks[i]], false)
  {
    if ks == [] then [] else UnknownRows(e, ks[..|ks| - 1], path) + [Row(e, path + [ks[|ks| - 1]], false)]
  }

  function UnknownKeys(v: Json, fields: seq<Param>): seq<string>
    requires v.Obj?
  {
    Sorted(v.members.Keys - Keys(fields))
  }

  /** Schema fields in declared order, then unknown keys in sorted order. */
  function ObjectRows(e: nat, v: Json, fields: seq<Param>, path: Path): seq<Row>
    decreases fields, 1
  {
    if !v.Obj? then []
    else KnownRows(e, v, fields, path, |fields|) + UnknownRows(e, UnknownKeys(v, fields), path)
  }

  function KnownRows(e: nat, v: Json, fields: seq<Param>, path: Path, n: nat): seq<Row>
    requires v.Obj? && n <= |fields|
    decreases fields, 0, n
  {
    if n == 0 then [] else KnownRows(e, v, fields, path, n - 1) + FieldRows(e, v, fields[n - 1], path)
  }

  function FieldRows(e: nat, v: Json, f: Param, path: Path): seq<Row>
    requires v.Obj?
    decreases f
  {
    var here := path + [f.key];
    match f
    case Leaf(_, _) => [Row(e, here, false)]
    case Nested(k, inner) =>
      [Row(e, here, true)] + if k in v.members then ObjectRows(e, v.members[k], inner, here) else []
  }

  /** The rows of one top-level entry. */
  function EntryRows(e: nat, v: Json, def: Option<Param>): seq<Row> {
    if def.Some? && def.value.Nested? then [Row(e, [], true)] + ObjectRows(e, v, def.value.fields, [])
    else [Row(e, [], false)]
  }

  // ---- The walk that opens only expanded containers ---------------------------------

  function OpenObjectRows(e: nat, v: Json, fields: seq<Param>, path: Path, open: set<Path>): seq<Row>
    decreases fields, 1
  {
    if !v.Obj? then []
    else OpenKnownRows(e, v, fields, path, open, |fields|) + UnknownRows(e, UnknownKeys(v, fields), path)
  }

  function OpenKnownRows(e: nat, v: Json, fields: seq<Param>, path: Path, open: set<Path>, n: nat): seq<Row>
    requires v.Obj? && n <= |fields|
    decreases fields, 0, n
  {
    if n == 0 then []
    else OpenKnownRows(e, v, fields, path, open, n - 1) + OpenFieldRows(e, v, fields[n - 1], path, open)
  }

  function OpenFieldRows(e: nat, v: Json, f: Param, path: Path, open: set<Path>): seq<Row>
    requires v.Obj?
    decreases f
  {
    var here := path + [f.key];
    match f
    case Leaf(_, _) => [Row(e, here, false)]
    case Nested(k, inner) =>
      [Row(e, here, true)] +
      if here in open && k in v.members then OpenObjectRows(e, v.members[k], inner, here, open) else []
  }

  function OpenEntryRows(e: nat, v: Json, def: Option<Param>, open: set<Path>): seq<Row> {
    if def.Some? && def.value.Nested? then
      [Row(e, [], true)] + if [] in open then OpenObjectRows(e, v, def.value.fields, [], open) else []
    else [Row(e, [], false)]
  }

  // ---- Rows whose ancestors are all expanded -------------------------------------------

  predicate AllOpen(path: Path, open: set<Path>) {
    forall n | 0 <= n < |path| :: path[..n] in open
  }

  function Shown(rows: seq<Row>, open: set<Path>): seq<Row> {
    if rows == [] then []
    else
      var n := |rows| - 1;
      Shown(rows[..n], open) + if AllOpen(rows[n].path, open) then [rows[n]] else []
  }

  lemma {:induction false} ShownConcat(a: seq<Row>, b: seq<Row>, open: set<Path>)
    ensures Shown(a + b, open) == Shown(a, open) + Shown(b, open)
    decreases |b|
  {
    if b == [] {
      assert a + b == a;
    } else {
      assert (a + b)[..|a + b| - 1] == a + b[..|b| - 1];
      ShownConcat(a, b[..|b| - 1], open);
    }
  }

  ghost predicate AllShown(rows: seq<Row>, open: set<Path>) {
    forall i | 0 <= i < |rows| :: AllOpen(rows[i].path, open)
  }

  ghost predicate NoneShown(rows: seq<Row>, open: set<Path>) {
    forall i | 0 <= i < |rows| :: !AllOpen(rows[i].path, open)
  }

  lemma {:induction false} ShownAll(rows: seq<Row>, open: set<Path>)
    ensures AllShown(rows, open) ==> Shown(rows, open) == rows
    ensures NoneShown(rows, open) ==> Shown(rows, open) == []
    decreases |rows|
  {
    if rows != [] {
      var n := |rows| - 1;
      ShownAll(rows[..n], open);
      assert rows == rows[..n] + [rows[n]];
      assert AllShown(rows, open) ==> AllShown(rows[..n], open);
      assert NoneShown(rows, open) ==> NoneShown(rows[..n], open);
    }
  }

  lemma ChildOpen(path: Path, k: string, open: set<Path>)
    ensures AllOpen(path + [k], open) <==> AllOpen(path, open) && path in open
  {
    var p := path + [k];
    assert p[..|path|] == path;
    if AllOpen(p, open) {
      forall n | 0 <= n < |path| ensures path[..n] in open { assert p[..n] == path[..n]; }
    }
    if AllOpen(path, open) && path in open {
      forall n | 0 <= n < |p| ensures p[..n] in open { if n < |path| { assert p[..n] == path[..n]; } }
    }
  }

  /** Every row of an object lies strictly below the object. */
  ghost predicate AllBelow(rows: seq<Row>, path: Path) {
    forall i | 0 <= i < |rows| :: path < rows[i].path
  }

  lemma AllBelowConcat(a: seq<Row>, b: seq<Row>, path: Path)
    requires AllBelow(a, path) && AllBelow(b, path)
    ensures AllBelow(a + b, path)
  {
  }

  lemma {:induction false} ObjectRowsBelow(e: nat, v: Json, fields: seq<Param>, path: Path)
    ensures AllBelow(ObjectRows(e, v, fields, path), path)
    decreases fields, 1
  {
    if v.Obj? {
      KnownRowsBelow(e, v, fields, path, |fields|);
      AllBelowConcat(KnownRows(e, v, fields, path, |fields|), UnknownRows(e, UnknownKeys(v, fields), path), path);
    }
  }

  lemma {:induction false} KnownRowsBelow(e: nat, v: Json, fields: seq<Param>, path: Path, n: nat)
    requires v.Obj? && n <= |fields|
    ensures AllBelow(KnownRows(e, v, fields, path, n), path)
    decreases fields, 0, n
  {
    if n > 0 {
      KnownRowsBelow(e, v, fields, path, n - 1);
      FieldRowsBelow(e, v, fields[n - 1], path);
      AllBelowConcat(KnownRows(e, v, fields, path, n - 1), FieldRows(e, v, fields[n - 1], path), path);
    }
  }

  lemma {:induction false} FieldRowsBelow(e: nat, v: Json, f: Param, path: Path)
    requires v.Obj?
    ensures AllBelow(FieldRows(e, v, f, path), path)
    decreases f
  {
    var here := path + [f.key];
    if f.Nested? && f.key in v.members {
      ObjectRowsBelow(e, v.members[f.key], f.fields, here);
      BelowIsBelow(ObjectRows(e, v.members[f.key], f.fields, here), path, f.key);
    }
  }

  lemma BelowIsBelow(rows: seq<Row>, path: Path, k: string)
    requires AllBelow(rows, path + [k])
    ensures AllBelow(rows, path)
  {
  }

  /** Nothing below a closed container is shown. */
  lemma ClosedHides(rows: seq<Row>, path: Path, open: set<Path>)
    requires AllBelow(rows, path) && path !in open
    ensures Shown(rows, open) == []
  {
    forall i | 0 <= i < |rows| ensures !AllOpen(rows[i].path, open) {
      assert rows[i].path[..|path|] == path;
    }
    ShownAll(rows, open);
  }

  lemma UnknownShown(e: nat, ks: seq<string>, path: Path, open: set<Path>)
    requires AllOpen(path, open) && path in open
    ensures Shown(UnknownRows(e, ks, path), open) == UnknownRows(e, ks, path)
  {
    forall i | 0 <= i < |ks| ensures AllOpen(UnknownRows(e, ks, path)[i].path, open) {
      ChildOpen(path, ks[i], open);
    }
    ShownAll(UnknownRows(e, ks, path), open);
  }

  // ---- Filtering all rows is the open walk -------------------------------------------------

  lemma {:induction false} ShownObject(e: nat, v: Json, fields: seq<Param>, path: Path, open: set<Path>)
    requires AllOpen(path, open) && path in open
    ensures Shown(ObjectRows(e, v, fields, path), open) == OpenObjectRows(e, v, fields, path, open)
    decreases fields, 1
  {
    if v.Obj? {
      var ks := UnknownKeys(v, fields);
      ShownKnown(e, v, fields, path, open, |fields|);
      UnknownShown(e, ks, path, open);
      ShownConcat(KnownRows(e, v, fields, path, |fields|), UnknownRows(e, ks, path), open);
    }
  }

  lemma {:induction false} ShownKnown(e: nat, v: Json, fields: seq<Param>, path: Path, open: set<Path>, n: nat)
    requires AllOpen(path, open) && path in open && v.Obj? && n <= |fields|
    ensures Shown(KnownRows(e, v, fields, path, n), open) == OpenKnownRows(e, v, fields, path, open, n)
    decreases fields, 0, n
  {
    if n > 0 {
      ShownKnown(e, v, fields, path, open, n - 1);
      ShownField(e, v, fields[n - 1], path, open);
      ShownConcat(KnownRows(e, v, fields, path, n - 1), FieldRows(e, v, fields[n - 1], path), open);
    }
  }

  lemma {:induction false} ShownField(e: nat, v: Json, f: Param, path: Path, open: set<Path>)
    requires AllOpen(path, open) && path in open && v.Obj?
    ensures Shown(FieldRows(e, v, f, path), open) == OpenFieldRows(e, v, f, path, open)
    decreases f
  {
    var here := path + [f.key];
    var first := Row(e, here, f.Nested?);
    ChildOpen(path, f.key, open);
    ShownAll([first], open);
    if f.Nested? && f.key in v.members {
      var below := ObjectRows(e, v.members[f.key], f.fields, here);
      ShownConcat([first], below, open);
      if here in open {
        ShownObject(e, v.members[f.key], f.fields, here, open);
      } else {
        ObjectRowsBelow(e, v.members[f.key], f.fields, here);
        ClosedHides(below, here, open);
      }
    } else {
      assert FieldRows(e, v, f, path) == [first];
    }
  }

  /** The rows whose ancestors are all expanded are the rows of the walk that opens only those. */
  lemma ShownIsOpenWalk(e: nat, v: Json, def: Option<Param>, open: set<Path>)
    ensures Shown(EntryRows(e, v, def), open) == OpenEntryRows(e, v, def, open)
  {
    var nested := def.Some? && def.value.Nested?;
    var first := Row(e, [], nested);
    ShownAll([first], open);
    assert AllShown([first], open);
    if nested {
      ShownNested(e, v, def.value.fields, open);
    } else {
      assert EntryRows(e, v, def) == [first];
    }
  }

  lemma ShownNested(e: nat, v: Json, fields: seq<Param>, open: set<Path>)
    requires Shown([Row(e, [], true)], open) == [Row(e, [], true)]
    ensures Shown([Row(e, [], true)] + ObjectRows(e, v, fields, []), open) ==
            [Row(e, [], true)] + if [] in open then OpenObjectRows(e, v, fields, [], open) else []
  {
    var below := ObjectRows(e, v, fields, []);
    ShownConcat([Row(e, [], true)], below, open);
    if [] in open {
      ShownObject(e, v, fields, [], open);
    } else {
      ObjectRowsBelow(e, v, fields, []);
      ClosedHides(below, [], open);
    }
  }

  // ---- Ancestors are listed -----------------------------------------------------------------

  /** Every ancestor of a row, down from `base`, is itself listed as a container. */
  ghost predicate AncestorsListed(rows: seq<Row>, all: seq<Row>, base: nat) {
    forall i, n | 0 <= i < |rows| && base < n < |rows[i].path| :: ContainerAt(all, rows[i].path[..n])
  }

  ghost predicate ContainerAt(all: seq<Row>, path: Path) {
    exists j :: 0 <= j < |all| && all[j].container && all[j].path == path
  }

  ghost predicate Within(rows: seq<Row>, all: seq<Row>) {
    forall i | 0 <= i < |rows| :: rows[i] in all
  }

  lemma WithinConcat(a: seq<Row>, b: seq<Row>, all: seq<Row>)
    requires Within(a + b, all)
    ensures Within(a, all) && Within(b, all)
  {
    forall i | 0 <= i < |a| ensures a[i] in all { assert (a + b)[i] == a[i]; }
    forall i | 0 <= i < |b| ensures b[i] in all { assert (a + b)[|a| + i] == b[i]; }
  }

  lemma ListedConcat(a: seq<Row>, b: seq<Row>, all: seq<Row>, base: nat)
    requires AncestorsListed(a, all, base) && AncestorsListed(b, all, base)
    ensures AncestorsListed(a + b, all, base)
  {
    forall i, n | 0 <= i < |a + b| && base < n < |(a + b)[i].path| ensures ContainerAt(all, (a + b)[i].path[..n]) {
      if i < |a| { assert (a + b)[i] == a[i]; } else { assert (a + b)[i] == b[i - |a|]; }
    }
  }

  lemma {:induction false} ObjectAncestors(e: nat, v: Json, fields: seq<Param>, path: Path, all: seq<Row>)
    requires Within(ObjectRows(e, v, fields, path), all)
    ensures AncestorsListed(ObjectRows(e, v, fields, path), all, |path|)
    decreases fields, 1
  {
    if v.Obj? {
      var known, unknown := KnownRows(e, v, fields, path, |fields|), UnknownRows(e, UnknownKeys(v, fields), path);
      WithinConcat(known, unknown, all);
      KnownAncestors(e, v, fields, path, |fields|, all);
      ListedConcat(known, unknown, all, |path|);
    }
  }

  lemma {:induction false} KnownAncestors(e: nat, v: Json, fields: seq<Param>, path: Path, n: nat, all: seq<Row>)
    requires v.Obj? && n <= |fields| && Within(KnownRows(e, v, fields, path, n), all)
    ensures AncestorsListed(KnownRows(e, v, fields, path, n), all, |path|)
    decreases fields, 0, n
  {
    if n > 0 {
      var head, last := KnownRows(e, v, fields, path, n - 1), FieldRows(e, v, fields[n - 1], path);
      WithinConcat(head, last, all);
      KnownAncestors(e, v, fields, path, n - 1, all);
      FieldAncestors(e, v, fields[n - 1], path, all);
      ListedConcat(head, last, all, |path|);
    }
  }

  lemma {:induction false} FieldAncestors(e: nat, v: Json, f: Param, path: Path, all: seq<Row>)
    requires v.Obj? && Within(FieldRows(e, v, f, path), all)
    ensures AncestorsListed(FieldRows(e, v, f, path), all, |path|)
    decreases f
  {
    var here := path + [f.key];
    if f.Nested? && f.key in v.members {
      var first, below := Row(e, here, true), ObjectRows(e, v.members[f.key], f.fields, here);
      WithinConcat([first], below, all);
      ObjectAncestors(e, v.members[f.key], f.fields, here, all);
      ObjectRowsBelow(e, v.members[f.key], f.fields, here);
      assert [first][0] in all;
      ParentListed(first, below, all);
      ListedConcat([first], below, all, |path|);
    }
  }

  lemma ParentListed(first: Row, below: seq<Row>, all: seq<Row>)
    requires first in all && first.container && first.path != []
    requires AllBelow(below, first.path) && AncestorsListed(below, all, |first.path|)
    ensures AncestorsListed(below, all, |first.path| - 1)
  {
    forall i, n | 0 <= i < |below| && |first.path| - 1 < n < |below[i].path|
      ensures ContainerAt(all, below[i].path[..n])
    {
      if n == |first.path| {
        assert below[i].path[..n] == first.path;
        var j :| 0 <= j < |all| && all[j] == first;
      }
    }
  }

  /** In the rows of an entry, every proper prefix of a row's path is a listed container. */
  lemma EntryAncestors(e: nat, v: Json, def: Option<Param>)
    ensures var rows := EntryRows(e, v, def);
            forall i, n | 0 <= i < |rows| && 0 <= n < |rows[i].path| :: ContainerAt(rows, rows[i].path[..n])
  {
    var rows := EntryRows(e, v, def);
    if def.Some? && def.value.Nested? {
      var below := ObjectRows(e, v, def.value.fields, []);
      assert Within(rows, rows);
      WithinConcat([Row(e, [], true)], below, rows);
      ObjectAncestors(e, v, def.value.fields, [], rows);
      forall i, n | 0 <= i < |rows| && 0 <= n < |rows[i].path| ensures ContainerAt(rows, rows[i].path[..n]) {
        assert i > 0 && rows[i] == below[i - 1];
        if n == 0 {
          assert rows[0].path == rows[i].path[..0];
        }
      }
    }
  }

  // ---- Rows are distinct ----------------------------------------------------------------------

  /** No position is listed twice. */
  ghost predicate Distinct(rows: seq<Row>) {
    forall i, j | 0 <= i < j < |rows| :: !SamePlace(rows[i], rows[j])
  }

  predicate SamePlace(a: Row, b: Row) {
    a.entry == b.entry && a.path == b.path
  }

  /** Every row lies below one of the given members of the object at `path`. */
  ghost predicate Under(rows: seq<Row>, path: Path, ks: set<string>) {
    forall i | 0 <= i < |rows| :: path < rows[i].path && rows[i].path[|path|] in ks
  }

  lemma UnderConcat(a: seq<Row>, b: seq<Row>, path: Path, ks: set<string>, js: set<string>)
    requires Under(a, path, ks) && Under(b, path, js)
    ensures Under(a + b, path, ks + js)
  {
  }

  lemma DistinctConcat(a: seq<Row>, b: seq<Row>, path: Path, ks: set<string>, js: set<string>)
    requires Distinct(a) && Distinct(b) && Under(a, path, ks) && Under(b, path, js) && ks !! js
    ensures Distinct(a + b)
  {
    forall i, j | 0 <= i < j < |a + b| ensures !SamePlace((a + b)[i], (a + b)[j]) {
      if i < |a| <= j {
        assert (a + b)[i] == a[i] && (a + b)[j] == b[j - |a|];
        assert a[i].path[|path|] in ks && b[j - |a|].path[|path|] in js;
      }
    }
  }

  lemma UnknownDistinct(e: nat, v: Json, fields: seq<Param>, path: Path)
    requires v.Obj?
    ensures var rows := UnknownRows(e, UnknownKeys(v, fields), path);
            Distinct(rows) && Under(rows, path, v.members.Keys - Keys(fields))
  {
    var ks := UnknownKeys(v, fields);
    var rows := UnknownRows(e, ks, path);
    forall i, j | 0 <= i < j < |rows| ensures !SamePlace(rows[i], rows[j]) {
      assert rows[i].path[|path|] == ks[i] && rows[j].path[|path|] == ks[j];
    }
  }

  /** A row and the rows below it. */
  lemma HeadDistinct(first: Row, below: seq<Row>, path: Path, k: string)
    requires first.path == path + [k] && Distinct(below) && AllBelow(below, first.path)
    ensures Distinct([first] + below) && Under([first] + below, path, {k})
  {
    var rows := [first] + below;
    forall i | 0 <= i < |rows| ensures path < rows[i].path && rows[i].path[|path|] in {k} {
      assert first.path <= rows[i].path;
      assert rows[i].path[|path|] == first.path[|path|];
    }
  }

  lemma {:induction false} ObjectDistinct(e: nat, v: Json, fields: seq<Param>, path: Path)
    requires WellFormed(fields)
    ensures Distinct(ObjectRows(e, v, fields, path))
    decreases fields, 1
  {
    if v.Obj? {
      var known, unknown := KnownRows(e, v, fields, path, |fields|), UnknownRows(e, UnknownKeys(v, fields), path);
      KnownDistinct(e, v, fields, path, |fields|);
      UnknownDistinct(e, v, fields, path);
      assert fields[..|fields|] == fields;
      DistinctConcat(known, unknown, path, Keys(fields), v.members.Keys - Keys(fields));
    }
  }

  lemma {:induction false} KnownDistinct(e: nat, v: Json, fields: seq<Param>, path: Path, n: nat)
    requires WellFormed(fields) && v.Obj? && n <= |fields|
    ensures Distinct(KnownRows(e, v, fields, path, n))
    ensures Under(KnownRows(e, v, fields, path, n), path, Keys(fields[..n]))
    decreases fields, 0, n
  {
    if n > 0 {
      var f := fields[n - 1];
      assert WellFormedParam(f);
      KnownDistinct(e, v, fields, path, n - 1);
      FieldDistinct(e, v, f, path);
      KeysExtend(fields, n - 1);
      var head, last := KnownRows(e, v, fields, path, n - 1), FieldRows(e, v, f, path);
      DistinctConcat(head, last, path, Keys(fields[..n - 1]), {f.key});
      UnderConcat(head, last, path, Keys(fields[..n - 1]), {f.key});
    }
  }

  lemma {:induction false} FieldDistinct(e: nat, v: Json, f: Param, path: Path)
    requires WellFormedParam(f) && v.Obj?
    ensures Distinct(FieldRows(e, v, f, path)) && Under(FieldRows(e, v, f, path), path, {f.key})
    decreases f
  {
    var here := path + [f.key];
    if f.Nested? && f.key in v.members {
      ObjectDistinct(e, v.members[f.key], f.fields, here);
      ObjectRowsBelow(e, v.members[f.key], f.fields, here);
      HeadDistinct(Row(e, here, true), ObjectRows(e, v.members[f.key], f.fields, here), path, f.key);
    } else {
      HeadDistinct(Row(e, here, f.Nested?), [], path, f.key);
      assert FieldRows(e, v, f, path) == [Row(e, here, f.Nested?)] + [];
    }
  }

  /** No two rows of an entry address the same position. */
  lemma EntryDistinct(e: nat, v: Json, def: Option<Param>)
    requires def.Some? ==> WellFormedParam(def.value)
    ensures Distinct(EntryRows(e, v, def))
  {
    if def.Some? && def.value.Nested? {
      var below := ObjectRows(e, v, def.value.fields, []);
      ObjectDistinct(e, v, def.value.fields, []);
      ObjectRowsBelow(e, v, def.value.fields, []);
      var rows := EntryRows(e, v, def);
      forall i, j | 0 <= i < j < |rows| ensures !SamePlace(rows[i], rows[j]) {
        assert rows[j] == below[j - 1];
        if i > 0 { assert rows[i] == below[i - 1]; }
      }
    }
  }

  // ---- The row-building walk of the source ----------------------------------------------------

  method WalkObjectRows(e: nat, v: Json, fields: seq<Param>, path: Path, out: seq<Row>) returns (out': seq<Row>)
    ensures out' == out + ObjectRows(e, v, fields, path)
    decreases fields, 1
  {
    out' := out;
    if !v.Obj? {
      return;
    }
    var i := 0;
    while i < |fields|
      invariant 0 <= i <= |fields|
      invariant out' == out + KnownRows(e, v, fields, path, i)
    {
      out' := WalkFieldRows(e, v, fields[i], path, out');
      Appended(out, KnownRows(e, v, fields, path, i), FieldRows(e, v, fields[i], path));
      i := i + 1;
    }
    out' := WalkUnknownRows(e, UnknownKeys(v, fields), path, out');
    Appended(out, KnownRows(e, v, fields, path, |fields|), UnknownRows(e, UnknownKeys(v, fields), path));
  }

  method WalkUnknownRows(e: nat, unknown: seq<string>, path: Path, out: seq<Row>) returns (out': seq<Row>)
    ensures out' == out + UnknownRows(e, unknown, path)
  {
    out' := out;
    ghost var all := UnknownRows(e, unknown, path);
    var i := 0;
    while i < |unknown|
      invariant 0 <= i <= |unknown|
      invariant out' == out + all[..i]
    {
      SplitHere(all, i);
      Appended(out, all[..i], [all[i]]);
      out' := out' + [Row(e, path + [unknown[i]], false)];
      i := i + 1;
    }
    assert all[..i] == all;
  }

  method WalkFieldRows(e: nat, v: Json, f: Param, path: Path, out: seq<Row>) returns (out': seq<Row>)
    requires v.Obj?
    ensures out' == out + FieldRows(e, v, f, path)
    decreases f
  {
    var stack := path + [f.key];
    out' := out + [Row(e, stack, f.Nested?)];
    if f.Nested? && f.key in v.members {
      out' := WalkObjectRows(e, v.members[f.key], f.fields, stack, out');
    }
  }

  /** The rows of a top-level entry, appended to the rows of its section. */
  method WalkEntryRows(e: nat, v: Json, def: Option<Param>, out: seq<Row>) returns (out': seq<Row>)
    ensures out' == out + EntryRows(e, v, def)
  {
    var nested := def.Some? && def.value.Nested?;
    out' := out + [Row(e, [], nested)];
    if nested {
      out' := WalkObjectRows(e, v, def.value.fields, [], out');
      Appended(out, [Row(e, [], true)], ObjectRows(e, v, def.value.fields, []));
    }
  }
}
