/**
 What the lines of the diff overlay say, in terms of the two JSON values: which
 positions get a line, under which key, and what each column shows.
 */
module DiffLines {
  import opened Wrappers
  import opened JsonPointer
  import opened JsonValues
  import opened Schema
  import opened Ordering
  import opened SchemaPaths
  import opened ConfigSession
  import opened ObjectDiff

  // ---- Positions --------------------------------------------------------------------------------

  /** A declared scalar field below declared objects, whether the values hold it or not. */
  ghost predicate LeafAt(fields: seq<Param>, path: Path) {
    path != [] && FieldsAt(fields, Parent(path)).Some? &&
    exists f :: f in FieldsAt(fields, Parent(path)).value && f.Leaf? && f.key == Last(path)
  }

  /** A member of one of the values that its declared object does not declare. */
  ghost predicate UnknownAt(orig: Json, curr: Json, fields: seq<Param>, path: Path) {
    && path != [] && FieldsAt(fields, Parent(path)).Some? && Last(path) !in Keys(FieldsAt(fields, Parent(path)).value)
    && (Reached(orig, path).Some? || Reached(curr, path).Some?)
  }

  ghost predicate Reportable(orig: Json, curr: Json, fields: seq<Param>, path: Path, unknown: bool) {
    if unknown then UnknownAt(orig, curr, fields, path) else LeafAt(fields, path)
  }

  function PathOf(p: Position): Path {
    [p.head] + p.tail
  }

  /** The value at a position is what its path reaches through objects. */
  lemma {:induction false} ValueReached(v: Json, head: string, tail: Path)
    ensures ValueAt(v, head, tail) == Reached(v, [head] + tail)
    decreases |tail|
  {
    ReachedCons(v, head, tail);
    if tail == [] {
      if v.Obj? && head in v.members { ReachedHere(v.members[head]); }
    } else {
      assert tail == [tail[0]] + tail[1..];
      ValueReached(MemberOrNull(v, head), tail[0], tail[1..]);
      if !(v.Obj? && head in v.members) {
        ReachedCons(Null, tail[0], tail[1..]);
      }
    }
  }

  // ---- One key at a time ---------------------------------------------------------------------------

  lemma LeafOne(fields: seq<Param>, k: string)
    ensures LeafAt(fields, [k]) <==> exists f :: f in fields && f.Leaf? && f.key == k
  {
    assert Parent([k]) == [] && Last([k]) == k;
  }

  lemma LeafCons(fields: seq<Param>, k: string, rest: Path)
    requires rest != []
    ensures LeafAt(fields, [k] + rest) <==> Inner(fields, k).Some? && LeafAt(Inner(fields, k).value, rest)
  {
    PathCons(k, rest);
    FieldsCons(fields, k, Parent(rest));
  }

  lemma UnknownOne(orig: Json, curr: Json, fields: seq<Param>, k: string)
    ensures UnknownAt(orig, curr, fields, [k]) <==> k in UnknownKeys(orig, curr, fields)
  {
    assert Parent([k]) == [] && Last([k]) == k;
    ValueReached(orig, k, []);
    ValueReached(curr, k, []);
    assert [k] + [] == [k];
  }

  lemma UnknownCons(orig: Json, curr: Json, fields: seq<Param>, k: string, rest: Path)
    requires rest != []
    ensures UnknownAt(orig, curr, fields, [k] + rest) <==>
            Inner(fields, k).Some? &&
            UnknownAt(MemberOrNull(orig, k), MemberOrNull(curr, k), Inner(fields, k).value, rest)
  {
    PathCons(k, rest);
    FieldsCons(fields, k, Parent(rest));
    MemberReached(orig, k, rest);
    MemberReached(curr, k, rest);
  }

  lemma MemberReached(v: Json, k: string, rest: Path)
    requires rest != []
    ensures Reached(v, [k] + rest) == Reached(MemberOrNull(v, k), rest)
  {
    ReachedCons(v, k, rest);
    assert rest == [rest[0]] + rest[1..];
    ReachedCons(Null, rest[0], rest[1..]);
  }

  lemma ReportableCons(orig: Json, curr: Json, fields: seq<Param>, k: string, rest: Path, unknown: bool)
    requires rest != []
    ensures Reportable(orig, curr, fields, [k] + rest, unknown) <==>
            Inner(fields, k).Some? &&
            Reportable(MemberOrNull(orig, k), MemberOrNull(curr, k), Inner(fields, k).value, rest, unknown)
  {
    LeafCons(fields, k, rest);
    UnknownCons(orig, curr, fields, k, rest);
  }

  // ---- The listed positions are the reportable ones ------------------------------------------------

  ghost predicate ListedIn(orig: Json, curr: Json, f: Param, p: Position) {
    p in FieldPositions(orig, curr, f)
  }

  lemma {:induction false} KnownListed(orig: Json, curr: Json, fields: seq<Param>, n: nat, p: Position)
    requires n <= |fields|
    ensures p in KnownPositions(orig, curr, fields, n) <==>
            exists i :: 0 <= i < n && ListedIn(orig, curr, fields[i], p)
    decreases n
  {
    if n > 0 {
      KnownListed(orig, curr, fields, n - 1, p);
    }
  }

  lemma UnknownListed(orig: Json, curr: Json, fields: seq<Param>, p: Position)
    ensures p in UnknownPositions(Sorted(UnknownKeys(orig, curr, fields))) <==>
            p.unknown && p.tail == [] && p.head in UnknownKeys(orig, curr, fields)
  {
    var ks := Sorted(UnknownKeys(orig, curr, fields));
    if p in UnknownPositions(ks) {
      var i :| 0 <= i < |ks| && UnknownPositions(ks)[i] == p;
      assert ks[i] in UnknownKeys(orig, curr, fields);
    }
    if p.unknown && p.tail == [] && p.head in UnknownKeys(orig, curr, fields) {
      assert p.head in ks;
      var i :| 0 <= i < |ks| && ks[i] == p.head;
      assert UnknownPositions(ks)[i] == p;
    }
  }

  function Inside(p: Position): Position
    requires p.tail != []
  {
    Position(p.tail[0], p.tail[1..], p.unknown)
  }

  lemma UnderListed(k: string, ps: seq<Position>, p: Position)
    ensures p in Under(k, ps) <==> p.head == k && p.tail != [] && Inside(p) in ps
  {
    if p in Under(k, ps) {
      var i :| 0 <= i < |ps| && Under(k, ps)[i] == p;
      assert p == Below(k, ps[i]);
      assert Inside(p) == ps[i];
    }
    if p.head == k && p.tail != [] && Inside(p) in ps {
      var i :| 0 <= i < |ps| && ps[i] == Inside(p);
      assert [p.tail[0]] + p.tail[1..] == p.tail;
      assert Under(k, ps)[i] == Below(k, Inside(p)) == p;
    }
  }

  /** What one declared field contributes. */
  ghost predicate FieldSays(orig: Json, curr: Json, f: Param, p: Position) {
    p.head == f.key &&
    if f.Leaf? then p.tail == [] && !p.unknown
    else p.tail != [] && Reportable(MemberOrNull(orig, f.key), MemberOrNull(curr, f.key), f.fields, p.tail, p.unknown)
  }

  lemma {:induction false} FieldListed(orig: Json, curr: Json, f: Param, p: Position)
    requires WellFormedParam(f)
    ensures ListedIn(orig, curr, f, p) <==> FieldSays(orig, curr, f, p)
    decreases f
  {
    match f {
      case Leaf(k, _) => assert FieldPositions(orig, curr, f) == [Position(k, [], false)];
      case Nested(k, inner) => NestedListed(MemberOrNull(orig, k), MemberOrNull(curr, k), k, inner, p);
    }
  }

  lemma {:induction false} NestedListed(orig: Json, curr: Json, k: string, inner: seq<Param>, p: Position)
    requires WellFormed(inner)
    ensures p in Under(k, Positions(orig, curr, inner)) <==>
            p.head == k && p.tail != [] && Reportable(orig, curr, inner, p.tail, p.unknown)
    decreases inner, 1
  {
    UnderListed(k, Positions(orig, curr, inner), p);
    if p.tail != [] {
      InsidePath(p);
      PositionListed(orig, curr, inner, Inside(p));
    }
  }

  lemma InsidePath(p: Position)
    requires p.tail != []
    ensures PathOf(Inside(p)) == p.tail
  {
  }

  ghost predicate SomeFieldSays(orig: Json, curr: Json, fields: seq<Param>, p: Position) {
    exists i :: 0 <= i < |fields| && FieldSays(orig, curr, fields[i], p)
  }

  lemma ReportableStep(orig: Json, curr: Json, fields: seq<Param>, p: Position)
    requires WellFormed(fields)
    ensures Reportable(orig, curr, fields, PathOf(p), p.unknown) <==>
            || SomeFieldSays(orig, curr, fields, p)
            || (p.unknown && p.tail == [] && p.head in UnknownKeys(orig, curr, fields))
  {
    if p.tail == [] {
      assert PathOf(p) == [p.head];
      ReportableOne(orig, curr, fields, p);
    } else {
      ReportableCons(orig, curr, fields, p.head, p.tail, p.unknown);
      ReportableBelow(orig, curr, fields, p);
    }
  }

  lemma ReportableOne(orig: Json, curr: Json, fields: seq<Param>, p: Position)
    requires p.tail == []
    ensures Reportable(orig, curr, fields, [p.head], p.unknown) <==>
            || SomeFieldSays(orig, curr, fields, p)
            || (p.unknown && p.head in UnknownKeys(orig, curr, fields))
  {
    LeafOne(fields, p.head);
    UnknownOne(orig, curr, fields, p.head);
    if f :| f in fields && f.Leaf? && f.key == p.head && !p.unknown {
      var i :| 0 <= i < |fields| && fields[i] == f;
      assert FieldSays(orig, curr, fields[i], p);
    }
  }

  ghost predicate ReportableUnder(orig: Json, curr: Json, fields: seq<Param>, k: string, rest: Path, unknown: bool) {
    && Inner(fields, k).Some?
    && Reportable(MemberOrNull(orig, k), MemberOrNull(curr, k), Inner(fields, k).value, rest, unknown)
  }

  lemma ReportableBelow(orig: Json, curr: Json, fields: seq<Param>, p: Position)
    requires WellFormed(fields) && p.tail != []
    ensures SomeFieldSays(orig, curr, fields, p) <==> ReportableUnder(orig, curr, fields, p.head, p.tail, p.unknown)
  {
    if i: nat :| i < |fields| && FieldSays(orig, curr, fields[i], p) {
      InnerOf(fields, i);
    }
    if ReportableUnder(orig, curr, fields, p.head, p.tail, p.unknown) {
      var i := InnerAt(fields, p.head);
      assert FieldSays(orig, curr, fields[i], p);
    }
  }

  lemma InnerOf(fields: seq<Param>, i: nat)
    requires WellFormed(fields) && i < |fields| && fields[i].Nested?
    ensures Inner(fields, fields[i].key) == Some(fields[i].fields)
  {
    FindAt(fields, i);
  }

  lemma InnerAt(fields: seq<Param>, k: string) returns (i: nat)
    requires Inner(fields, k).Some?
    ensures i < |fields| && fields[i].Nested? && fields[i].key == k && fields[i].fields == Inner(fields, k).value
  {
    i :| 0 <= i < |fields| && fields[i] == Find(fields, k).value;
  }

  /** A position is listed exactly when it is a declared leaf, or an undeclared member of one of the values. */
  lemma {:induction false} PositionListed(orig: Json, curr: Json, fields: seq<Param>, p: Position)
    requires WellFormed(fields)
    ensures p in Positions(orig, curr, fields) <==> Reportable(orig, curr, fields, PathOf(p), p.unknown)
    decreases fields, 0
  {
    KnownListed(orig, curr, fields, |fields|, p);
    UnknownListed(orig, curr, fields, p);
    ReportableStep(orig, curr, fields, p);
    forall i | 0 <= i < |fields| ensures ListedIn(orig, curr, fields[i], p) <==> FieldSays(orig, curr, fields[i], p) {
      assert WellFormedParam(fields[i]);
      FieldListed(orig, curr, fields[i], p);
    }
  }

  // ---- Lines ------------------------------------------------------------------------------------------

  /** Names joined by dots, in order. */
  function Joined(names: seq<string>): string {
    if names == [] then ""
    else if |names| == 1 then names[0]
    else names[0] + "." + Joined(names[1..])
  }

  lemma {:induction false} JoinedSnoc(names: seq<string>, x: string)
    requires names != []
    ensures Joined(names + [x]) == Joined(names) + "." + x
  {
    assert (names + [x])[1..] == names[1..] + [x];
    if |names| > 1 {
      JoinedSnoc(names[1..], x);
      Appended(names[0] + ".", Joined(names[1..]), "." + x);
      Appended(Joined(names[1..]), ".", x);
      Appended(names[0] + "." + Joined(names[1..]), ".", x);
    } else {
      assert Joined([x]) == x;
    }
  }

  lemma {:induction false} DottedIsJoined(top: string, path: Path)
    ensures Dotted(top, path) == Joined([top] + path)
    decreases |path|
  {
    if path != [] {
      DottedIsJoined(top, Parent(path));
      JoinedSnoc([top] + Parent(path), Last(path));
      assert [top] + Parent(path) + [Last(path)] == [top] + path;
    } else {
      assert [top] + path == [top];
    }
  }

  /** A column: missing and `null` values are unset, text is shown as it is, the rest as printed JSON. */
  ghost predicate Column(text: string, v: Option<Json>, t: Text) {
    && (v.None? || v.value.Null? ==> text == "(unset)")
    && (v.Some? && v.value.Str? ==> text == v.value.s)
    && (v.Some? && !v.value.Null? && !v.value.Str? ==> text == t.render(v.value))
  }

  function KeyText(top: string, path: Path, unknown: bool): string {
    Joined([top] + path) + if unknown then " [unknown]" else ""
  }

  /** The line names the position and shows the loaded value first and the present one second. */
  ghost predicate Tells(line: DiffEntry, top: string, path: Path, unknown: bool, orig: Json, curr: Json, t: Text) {
    && line.key == KeyText(top, path, unknown)
    && Column(line.original, Reached(orig, path), t) && Column(line.current, Reached(curr, path), t)
  }

  function Changed(orig: Json, curr: Json, ps: seq<Position>): seq<Position> {
    if ps == [] then []
    else
      var n := |ps| - 1;
      Changed(orig, curr, ps[..n]) + if Agrees(orig, curr, ps[n]) then [] else [ps[n]]
  }

  lemma {:induction false} ChangedIs(orig: Json, curr: Json, ps: seq<Position>, p: Position)
    ensures p in Changed(orig, curr, ps) <==> p in ps && !Agrees(orig, curr, p)
    decreases |ps|
  {
    if ps != [] {
      var n := |ps| - 1;
      ChangedIs(orig, curr, ps[..n], p);
      assert p in ps <==> p in ps[..n] || p == ps[n] by { assert ps == ps[..n] + [ps[n]]; }
    }
  }

  lemma {:induction false} ChangedDistinct(orig: Json, curr: Json, ps: seq<Position>)
    requires Distinct(ps)
    ensures Distinct(Changed(orig, curr, ps))
    decreases |ps|
  {
    if ps != [] {
      var n := |ps| - 1;
      var rest := Changed(orig, curr, ps[..n]);
      ChangedDistinct(orig, curr, ps[..n]);
      forall i | 0 <= i < |rest| ensures !SamePlace(rest[i], ps[n]) {
        ChangedIs(orig, curr, ps[..n], rest[i]);
        var j :| 0 <= j < n && ps[..n][j] == rest[i];
        assert ps[j] == rest[i];
      }
      DistinctSnoc(rest, ps[n]);
    }
  }

  lemma DistinctSnoc(ps: seq<Position>, p: Position)
    requires Distinct(ps) && forall i | 0 <= i < |ps| :: !SamePlace(ps[i], p)
    ensures Distinct(ps + [p])
  {
  }

  ghost predicate LinesTell(
      lines: seq<DiffEntry>, top: string, ps: seq<Position>, orig: Json, curr: Json, t: Text)
  {
    |lines| == |ps| &&
    forall i | 0 <= i < |ps| :: Tells(lines[i], top, PathOf(ps[i]), ps[i].unknown, orig, curr, t)
  }

  lemma LineTells(top: string, orig: Json, curr: Json, p: Position, t: Text)
    ensures LinesTell(PositionLine(top, [], orig, curr, p, t), top,
                      if Agrees(orig, curr, p) then [] else [p], orig, curr, t)
  {
    if !Agrees(orig, curr, p) {
      assert [] + [p.head] + p.tail == PathOf(p);
      var o, c := ValueAt(orig, p.head, p.tail), ValueAt(curr, p.head, p.tail);
      var line := Line(top, PathOf(p), p.unknown, o, c, t);
      DottedIsJoined(top, PathOf(p));
      ValueReached(orig, p.head, p.tail);
      ValueReached(curr, p.head, p.tail);
      FormatIsColumn(o, t);
      FormatIsColumn(c, t);
      assert Tells(line, top, PathOf(p), p.unknown, orig, curr, t);
    }
  }

  lemma FormatIsColumn(v: Option<Json>, t: Text)
    ensures Column(FormatLeaf(v, t), v, t)
  {
  }

  lemma {:induction false} ReportTells(top: string, orig: Json, curr: Json, ps: seq<Position>, t: Text)
    ensures LinesTell(Report(top, [], orig, curr, ps, t), top, Changed(orig, curr, ps), orig, curr, t)
    decreases |ps|
  {
    if ps != [] {
      ReportTells(top, orig, curr, ps[..|ps| - 1], t);
      LineTells(top, orig, curr, ps[|ps| - 1], t);
    }
  }

  // ---- The overlay ----------------------------------------------------------------------------------------

  function Overlay(top: string, orig: Json, curr: Json, fields: seq<Param>, t: Text): seq<DiffEntry> {
    Report(top, [], orig, curr, Positions(orig, curr, fields), t)
  }

  function ChangedPositions(orig: Json, curr: Json, fields: seq<Param>): seq<Position> {
    Changed(orig, curr, Positions(orig, curr, fields))
  }

  lemma ChangedPosition(orig: Json, curr: Json, fields: seq<Param>, p: Position)
    requires WellFormed(fields)
    ensures p in ChangedPositions(orig, curr, fields) <==>
            && Reportable(orig, curr, fields, PathOf(p), p.unknown)
            && Reached(orig, PathOf(p)) != Reached(curr, PathOf(p))
  {
    ChangedIs(orig, curr, Positions(orig, curr, fields), p);
    PositionListed(orig, curr, fields, p);
    ValueReached(orig, p.head, p.tail);
    ValueReached(curr, p.head, p.tail);
  }

  /** Every line is about a leaf or an unknown key whose two values differ, and shows those values. */
  lemma EveryLineTells(top: string, orig: Json, curr: Json, fields: seq<Param>, t: Text, i: nat)
    requires WellFormed(fields) && i < |Overlay(top, orig, curr, fields, t)|
    ensures exists path, unknown ::
              && Reportable(orig, curr, fields, path, unknown) && Reached(orig, path) != Reached(curr, path)
              && Tells(Overlay(top, orig, curr, fields, t)[i], top, path, unknown, orig, curr, t)
  {
    ReportTells(top, orig, curr, Positions(orig, curr, fields), t);
    var p := ChangedPositions(orig, curr, fields)[i];
    assert p in ChangedPositions(orig, curr, fields);
    ChangedPosition(orig, curr, fields, p);
    assert Tells(Overlay(top, orig, curr, fields, t)[i], top, PathOf(p), p.unknown, orig, curr, t);
  }

  /** Every leaf or unknown key whose two values differ has a line that shows them. */
  lemma EveryChangeHasLine(
      top: string, orig: Json, curr: Json, fields: seq<Param>, t: Text, path: Path, unknown: bool) returns (i: nat)
    requires WellFormed(fields) && Reportable(orig, curr, fields, path, unknown)
    requires Reached(orig, path) != Reached(curr, path)
    ensures i < |Overlay(top, orig, curr, fields, t)|
    ensures Tells(Overlay(top, orig, curr, fields, t)[i], top, path, unknown, orig, curr, t)
    ensures i < |ChangedPositions(orig, curr, fields)|
    ensures ChangedPositions(orig, curr, fields)[i] == Position(path[0], path[1..], unknown)
  {
    var p := Position(path[0], path[1..], unknown);
    assert PathOf(p) == path;
    ChangedPosition(orig, curr, fields, p);
    ReportTells(top, orig, curr, Positions(orig, curr, fields), t);
    i :| 0 <= i < |ChangedPositions(orig, curr, fields)| && ChangedPositions(orig, curr, fields)[i] == p;
  }

  // ---- One line each -----------------------------------------------------------------------------------------

  predicate NoDot(path: Path) {
    forall i | 0 <= i < |path| :: '.' !in path[i]
  }

  predicate EndsUnknown(name: string) {
    |name| >= |" [unknown]"| && name[|name| - |" [unknown]"|..] == " [unknown]"
  }

  /** Names that cannot be confused in a dotted key. */
  ghost predicate PlainNames(orig: Json, curr: Json, fields: seq<Param>) {
    forall path, unknown | Reportable(orig, curr, fields, path, unknown) ::
      NoDot(path) && (!unknown ==> !EndsUnknown(Last(path)))
  }

  /** Each name after a dot. */
  function AfterDots(path: Path): string {
    if path == [] then "" else "." + path[0] + AfterDots(path[1..])
  }

  lemma {:induction false} JoinedAfter(top: string, path: Path)
    ensures Joined([top] + path) == top + AfterDots(path)
    decreases |path|
  {
    if path == [] {
      assert [top] + path == [top];
    } else {
      assert ([top] + path)[1..] == [path[0]] + path[1..] == path;
      JoinedAfter(path[0], path[1..]);
      Appended(".", path[0], AfterDots(path[1..]));
      Appended(top, ".", path[0] + AfterDots(path[1..]));
    }
  }

  lemma {:induction false} AfterDotsInjective(p: Path, q: Path)
    requires NoDot(p) && NoDot(q) && AfterDots(p) == AfterDots(q)
    ensures p == q
    decreases |p|
  {
    if p != [] && q != [] {
      FirstName(p[0], AfterDots(p[1..]), q[0], AfterDots(q[1..]));
      AfterDotsInjective(p[1..], q[1..]);
      assert p == [p[0]] + p[1..] && q == [q[0]] + q[1..];
    }
  }

  /** A name ends at the next dot or at the end. */
  lemma {:induction false} FirstName(a: string, x: string, b: string, y: string)
    requires '.' !in a && '.' !in b && "." + a + x == "." + b + y
    requires (x == "" || x[0] == '.') && (y == "" || y[0] == '.')
    ensures a == b && x == y
  {
    var l, r := a + x, b + y;
    assert l == ("." + a + x)[1..] && r == ("." + b + y)[1..];
    assert (forall i | 0 <= i < |a| :: l[i] == a[i]) && (x != "" ==> l[|a|] == '.');
    assert (forall i | 0 <= i < |b| :: r[i] == b[i]) && (y != "" ==> r[|b|] == '.');
    assert |a| == |b|;
    assert a == l[..|a|] && b == r[..|b|] && x == l[|a|..] && y == r[|b|..];
  }

  /** The path with the mark put on its last name. */
  function Marked(path: Path, unknown: bool): Path
    requires path != []
  {
    if unknown then Parent(path) + [Last(path) + " [unknown]"] else path
  }

  lemma {:induction false} AfterDotsSnoc(path: Path, x: string)
    ensures AfterDots(path + [x]) == AfterDots(path) + "." + x
  {
    if path == [] {
      assert path + [x] == [x];
      assert AfterDots([x][1..]) == "";
    } else {
      assert (path + [x])[1..] == path[1..] + [x];
      AfterDotsSnoc(path[1..], x);
      Appended("." + path[0], AfterDots(path[1..]), "." + x);
      Appended(AfterDots(path[1..]), ".", x);
      Appended("." + path[0] + AfterDots(path[1..]), ".", x);
    }
  }

  lemma KeyTextIs(top: string, path: Path, unknown: bool)
    requires path != []
    ensures KeyText(top, path, unknown) == top + AfterDots(Marked(path, unknown))
  {
    JoinedAfter(top, path);
    if unknown {
      var p, x, mark := Parent(path), Last(path), " [unknown]";
      assert path == p + [x];
      AfterDotsSnoc(p, x);
      AfterDotsSnoc(p, x + mark);
      Appended(AfterDots(p) + ".", x, mark);
      Appended(top, AfterDots(path), mark);
    } else {
      assert top + AfterDots(path) + "" == top + AfterDots(path);
    }
  }

  lemma MarkedNoDot(path: Path, unknown: bool)
    requires path != [] && NoDot(path)
    ensures NoDot(Marked(path, unknown))
  {
    var m := Marked(path, unknown);
    assert '.' !in " [unknown]";
    forall i | 0 <= i < |m| ensures '.' !in m[i] {
      if i < |path| - 1 { assert m[i] == path[i]; }
    }
  }

  /** Plain names make the key of a line tell its position. */
  lemma KeyTextInjective(top: string, p: Path, u: bool, q: Path, w: bool)
    requires p != [] && q != [] && NoDot(p) && NoDot(q)
    requires (!u ==> !EndsUnknown(Last(p))) && (!w ==> !EndsUnknown(Last(q)))
    requires KeyText(top, p, u) == KeyText(top, q, w)
    ensures p == q && u == w
  {
    KeyTextIs(top, p, u);
    KeyTextIs(top, q, w);
    var a, b := Marked(p, u), Marked(q, w);
    assert AfterDots(a) == (top + AfterDots(a))[|top|..] && AfterDots(b) == (top + AfterDots(b))[|top|..];
    MarkedNoDot(p, u);
    MarkedNoDot(q, w);
    AfterDotsInjective(a, b);
    MarkedTells(p, u, q, w);
  }

  lemma MarkedTells(p: Path, u: bool, q: Path, w: bool)
    requires p != [] && q != [] && Marked(p, u) == Marked(q, w)
    requires (!u ==> !EndsUnknown(Last(p))) && (!w ==> !EndsUnknown(Last(q)))
    ensures p == q && u == w
  {
    var a, mark := Marked(p, u), " [unknown]";
    assert Parent(p) == Parent(a) && Parent(q) == Parent(a);
    assert u ==> Last(a) == Last(p) + mark && EndsUnknown(Last(a));
    assert w ==> Last(a) == Last(q) + mark && EndsUnknown(Last(a));
    assert u && w ==> Last(p) == Last(a)[..|Last(a)| - |mark|] == Last(q);
    assert p == Parent(p) + [Last(p)] && q == Parent(q) + [Last(q)];
  }

  /**
   With plain names, a leaf or unknown key whose two values differ has exactly
   one line, which shows the loaded value and the present one.
   */
  lemma ChangeHasOneLine(
      top: string, orig: Json, curr: Json, fields: seq<Param>, t: Text, path: Path, unknown: bool)
    requires WellFormed(fields) && PlainNames(orig, curr, fields) && Reportable(orig, curr, fields, path, unknown)
    requires Reached(orig, path) != Reached(curr, path)
    ensures var lines := Overlay(top, orig, curr, fields, t);
            exists i :: && 0 <= i < |lines| && Tells(lines[i], top, path, unknown, orig, curr, t)
                        && forall j | 0 <= j < |lines| && j != i :: lines[j].key != KeyText(top, path, unknown)
  {
    var lines := Overlay(top, orig, curr, fields, t);
    var i := EveryChangeHasLine(top, orig, curr, fields, t, path, unknown);
    forall j | 0 <= j < |lines| && j != i ensures lines[j].key != KeyText(top, path, unknown) {
      OtherLine(top, orig, curr, fields, t, path, unknown, i, j);
    }
  }

  lemma OtherLine(top: string, orig: Json, curr: Json, fields: seq<Param>, t: Text, path: Path, unknown: bool,
                  i: nat, j: nat)
    requires WellFormed(fields) && PlainNames(orig, curr, fields) && Reportable(orig, curr, fields, path, unknown)
    requires i < |ChangedPositions(orig, curr, fields)| && j < |Overlay(top, orig, curr, fields, t)| && i != j
    requires ChangedPositions(orig, curr, fields)[i] == Position(path[0], path[1..], unknown)
    ensures Overlay(top, orig, curr, fields, t)[j].key != KeyText(top, path, unknown)
  {
    ReportTells(top, orig, curr, Positions(orig, curr, fields), t);
    var q := ChangedPositions(orig, curr, fields)[j];
    assert q in ChangedPositions(orig, curr, fields);
    ChangedPosition(orig, curr, fields, q);
    OtherPath(orig, curr, fields, path, unknown, i, j);
    if KeyText(top, PathOf(q), q.unknown) == KeyText(top, path, unknown) {
      KeyTextInjective(top, PathOf(q), q.unknown, path, unknown);
    }
  }

  lemma OtherPath(orig: Json, curr: Json, fields: seq<Param>, path: Path, unknown: bool, i: nat, j: nat)
    requires WellFormed(fields) && path != []
    requires i < |ChangedPositions(orig, curr, fields)| && j < |ChangedPositions(orig, curr, fields)| && i != j
    requires ChangedPositions(orig, curr, fields)[i] == Position(path[0], path[1..], unknown)
    ensures PathOf(ChangedPositions(orig, curr, fields)[j]) != path
  {
    var q := ChangedPositions(orig, curr, fields)[j];
    PositionsDistinct(orig, curr, fields);
    ChangedDistinct(orig, curr, Positions(orig, curr, fields));
    assert PathOf(q)[1..] == q.tail && PathOf(q)[0] == q.head;
  }

  /** A changed text: the loaded one on the left, the present one on the right, in one line. */
  lemma ChangedText(top: string, orig: Json, curr: Json, fields: seq<Param>, t: Text, path: Path, unknown: bool,
                    x: string, y: string)
    requires WellFormed(fields) && PlainNames(orig, curr, fields) && Reportable(orig, curr, fields, path, unknown)
    requires Reached(orig, path) == Some(Str(x)) && Reached(curr, path) == Some(Str(y)) && x != y
    ensures var lines := Overlay(top, orig, curr, fields, t);
            exists i :: && 0 <= i < |lines| && lines[i] == DiffEntry(KeyText(top, path, unknown), x, y)
                        && forall j | 0 <= j < |lines| && j != i :: lines[j].key != KeyText(top, path, unknown)
  {
    var lines := Overlay(top, orig, curr, fields, t);
    ChangeHasOneLine(top, orig, curr, fields, t, path, unknown);
    var i :| && 0 <= i < |lines| && Tells(lines[i], top, path, unknown, orig, curr, t)
             && forall j | 0 <= j < |lines| && j != i :: lines[j].key != KeyText(top, path, unknown);
    assert lines[i] == DiffEntry(KeyText(top, path, unknown), x, y);
  }

  /** With dots in the names two positions can share one key, and so can a leaf that ends in the mark. */
  lemma SharedKeys(top: string, a: string, b: string)
    ensures KeyText(top, [a, b], false) == KeyText(top, [a + "." + b], false)
    ensures KeyText(top, [a], true) == KeyText(top, [a + " [unknown]"], false)
  {
    JoinedSnoc([top, a], b);
    JoinedSnoc([top], a);
    JoinedSnoc([top], a + "." + b);
    JoinedSnoc([top], a + " [unknown]");
    assert [top] + [a, b] == [top, a] + [b] && [top, a] == [top] + [a];
    assert Joined([top]) == top;
    assert top + "." + a + "." + b == top + "." + (a + "." + b);
    assert top + "." + a + " [unknown]" == top + "." + (a + " [unknown]");
  }
}
