/** The per-leaf diff of one object entry against its loaded value. */
module ObjectDiff {
  import opened Wrappers
  import opened JsonPointer
  import opened JsonValues
  import opened Schema
  import opened Hydration
  import opened Ordering
  import opened ConfigSession

  datatype DiffEntry = DiffEntry(key: string, original: string, current: string)

  function FormatLeaf(v: Option<Json>, t: Text): string {
    match v
    case None => "(unset)"
    case Some(Null) => "(unset)"
    case Some(x) => DisplayText(x, t)
  }

  function Dotted(top: string, path: Path): string {
    if path == [] then top else Dotted(top, path[..|path| - 1]) + "." + path[|path| - 1]
  }

  function Line(top: string, path: Path, unknown: bool, o: Option<Json>, c: Option<Json>, t: Text): DiffEntry {
    DiffEntry(Dotted(top, path) + (if unknown then " [unknown]" else ""), FormatLeaf(o, t), FormatLeaf(c, t))
  }

  /** A member of an object; a value that is not an object has none. */
  function Member(v: Json, k: string): Option<Json> {
    if v.Obj? then Get(v.members, k) else None
  }

  function MemberOrNull(v: Json, k: string): Json {
    match Member(v, k) case None => Null case Some(x) => x
  }

  function MemberKeys(v: Json): set<string> {
    if v.Obj? then v.members.Keys else {}
  }

  function UnknownKeys(orig: Json, curr: Json, fields: seq<Param>): set<string> {
    MemberKeys(orig) + MemberKeys(curr) - Keys(fields)
  }

  // ---- Specification: positions, then the values found there ------------------

  /** A reportable position `[head] + tail`: a schema leaf, or a key the schema does not know. */
  datatype Position = Position(head: string, tail: Path, unknown: bool)

  function Below(k: string, p: Position): Position {
    Position(k, [p.head] + p.tail, p.unknown)
  }

  function Under(k: string, ps: seq<Position>): (r: seq<Position>)
    ensures |r| == |ps| && forall i | 0 <= i < |ps| :: r[i] == Below(k, ps[i])
  {
    if ps == [] then [] else Under(k, ps[..|ps| - 1]) + [Below(k, ps[|ps| - 1])]
  }

  function UnknownPositions(ks: seq<string>): (r: seq<Position>)
    ensures |r| == |ks| && forall i | 0 <= i < |ks| :: r[i] == Position(ks[i], [], true)
  {
    if ks == [] then [] else UnknownPositions(ks[..|ks| - 1]) + [Position(ks[|ks| - 1], [], true)]
  }

  /** All reportable positions: schema order first, then unknown keys in sorted order. */
  function Positions(orig: Json, curr: Json, fields: seq<Param>): seq<Position>
    decreases fields, 1
  {
    KnownPositions(orig, curr, fields, |fields|) + UnknownPositions(Sorted(UnknownKeys(orig, curr, fields)))
  }

  function KnownPositions(orig: Json, curr: Json, fields: seq<Param>, n: nat): seq<Position>
    requires n <= |fields|
    decreases fields, 0, n
  {
    if n == 0 then [] else KnownPositions(orig, curr, fields, n - 1) + FieldPositions(orig, curr, fields[n - 1])
  }

  function FieldPositions(orig: Json, curr: Json, f: Param): seq<Position>
    decreases f
  {
    match f
    case Leaf(k, _) => [Position(k, [], false)]
    case Nested(k, inner) => Under(k, Positions(MemberOrNull(orig, k), MemberOrNull(curr, k), inner))
  }

  /** The value at a position, reached through objects only. */
  function ValueAt(v: Json, head: string, tail: Path): Option<Json>
    decreases |tail|
  {
    if tail == [] then Member(v, head) else ValueAt(MemberOrNull(v, head), tail[0], tail[1..])
  }

  predicate Agrees(orig: Json, curr: Json, p: Position) {
    ValueAt(orig, p.head, p.tail) == ValueAt(curr, p.head, p.tail)
  }

  function PositionLine(top: string, path: Path, orig: Json, curr: Json, p: Position, t: Text): seq<DiffEntry> {
    if Agrees(orig, curr, p) then []
    else
      var o, c := ValueAt(orig, p.head, p.tail), ValueAt(curr, p.head, p.tail);
      [Line(top, path + [p.head] + p.tail, p.unknown, o, c, t)]
  }

  /** One line per position whose two values differ, in order. */
  function Report(top: string, path: Path, orig: Json, curr: Json, ps: seq<Position>, t: Text): seq<DiffEntry> {
    if ps == [] then []
    else Report(top, path, orig, curr, ps[..|ps| - 1], t) + PositionLine(top, path, orig, curr, ps[|ps| - 1], t)
  }

  lemma ReportSnoc(top: string, path: Path, orig: Json, curr: Json, ps: seq<Position>, p: Position, t: Text)
    ensures Report(top, path, orig, curr, ps + [p], t) ==
            Report(top, path, orig, curr, ps, t) + PositionLine(top, path, orig, curr, p, t)
  {
    assert (ps + [p])[..|ps + [p]| - 1] == ps;
  }

  lemma {:induction false} ReportConcat(
      top: string, path: Path, orig: Json, curr: Json, a: seq<Position>, b: seq<Position>, t: Text)
    ensures Report(top, path, orig, curr, a + b, t) ==
            Report(top, path, orig, curr, a, t) + Report(top, path, orig, curr, b, t)
    decreases |b|
  {
    if b == [] {
      assert a + b == a;
    } else {
      var b', p := b[..|b| - 1], b[|b| - 1];
      assert b == b' + [p];
      Appended(a, b', [p]);
      ReportConcat(top, path, orig, curr, a, b', t);
      ReportSnoc(top, path, orig, curr, a + b', p, t);
      ReportSnoc(top, path, orig, curr, b', p, t);
      Appended(Report(top, path, orig, curr, a, t), Report(top, path, orig, curr, b', t),
               PositionLine(top, path, orig, curr, p, t));
    }
  }

  lemma BelowValue(v: Json, k: string, p: Position)
    ensures ValueAt(v, k, [p.head] + p.tail) == ValueAt(MemberOrNull(v, k), p.head, p.tail)
  {
    assert ([p.head] + p.tail)[1..] == p.tail;
  }

  lemma {:induction false} ReportUnder(
      top: string, path: Path, orig: Json, curr: Json, k: string, ps: seq<Position>, t: Text)
    ensures Report(top, path, orig, curr, Under(k, ps), t) ==
            Report(top, path + [k], MemberOrNull(orig, k), MemberOrNull(curr, k), ps, t)
    decreases |ps|
  {
    if ps != [] {
      var n := |ps| - 1;
      ReportUnder(top, path, orig, curr, k, ps[..n], t);
      assert Under(k, ps)[..n] == Under(k, ps[..n]);
      BelowValue(orig, k, ps[n]);
      BelowValue(curr, k, ps[n]);
      assert path + [k] + ([ps[n].head] + ps[n].tail) == path + [k] + [ps[n].head] + ps[n].tail;
    }
  }

  // ---- The walk of the source ---------------------------------------------------

  method WalkObjectDiff(
      top: string, orig: Json, curr: Json, fields: seq<Param>, path: Path, out: seq<DiffEntry>, t: Text)
    returns (out': seq<DiffEntry>)
    requires WellFormed(fields)
    ensures out' == out + Report(top, path, orig, curr, Positions(orig, curr, fields), t)
    decreases fields, 2
  {
    out' := WalkKnown(top, orig, curr, fields, path, out, t);
    var unknowns := Sorted(UnknownKeys(orig, curr, fields));
    out' := WalkUnknown(top, orig, curr, unknowns, path, out', t);
    Appended(out, Report(top, path, orig, curr, KnownPositions(orig, curr, fields, |fields|), t),
             Report(top, path, orig, curr, UnknownPositions(unknowns), t));
    ReportAllFields(top, path, orig, curr, fields, t);
  }

  function KnownReport(
      top: string, path: Path, orig: Json, curr: Json, fields: seq<Param>, n: nat, t: Text): seq<DiffEntry>
    requires n <= |fields|
  {
    Report(top, path, orig, curr, KnownPositions(orig, curr, fields, n), t)
  }

  /** The loop over the schema fields. */
  method WalkKnown(top: string, orig: Json, curr: Json, fields: seq<Param>, path: Path, out: seq<DiffEntry>, t: Text)
    returns (out': seq<DiffEntry>)
    requires WellFormed(fields)
    ensures out' == out + KnownReport(top, path, orig, curr, fields, |fields|, t)
    decreases fields, 1
  {
    out' := out;
    StartReport(top, path, orig, curr, fields, out, t);
    var i := 0;
    while i < |fields|
      invariant 0 <= i <= |fields|
      invariant out' == out + KnownReport(top, path, orig, curr, fields, i, t)
    {
      out' := WalkNext(top, orig, curr, fields, i, path, out', out, t);
      i := i + 1;
    }
  }

  method WalkNext(top: string, orig: Json, curr: Json, fields: seq<Param>, i: nat, path: Path, out: seq<DiffEntry>,
                  ghost start: seq<DiffEntry>, t: Text)
    returns (out': seq<DiffEntry>)
    requires WellFormed(fields) && i < |fields|
    requires out == start + KnownReport(top, path, orig, curr, fields, i, t)
    ensures out' == start + KnownReport(top, path, orig, curr, fields, i + 1, t)
    decreases fields, 0
  {
    assert WellFormedParam(fields[i]);
    out' := WalkField(top, orig, curr, fields[i], path, out, t);
    AppendField(top, path, orig, curr, fields, i, start, t);
  }

  lemma StartReport(top: string, path: Path, orig: Json, curr: Json, fields: seq<Param>, out: seq<DiffEntry>, t: Text)
    ensures out + KnownReport(top, path, orig, curr, fields, 0, t) == out
  {
  }

  lemma AppendField(
      top: string, path: Path, orig: Json, curr: Json, fields: seq<Param>, i: nat, out: seq<DiffEntry>, t: Text)
    requires i < |fields|
    ensures out + KnownReport(top, path, orig, curr, fields, i, t) +
            Report(top, path, orig, curr, FieldPositions(orig, curr, fields[i]), t) ==
            out + KnownReport(top, path, orig, curr, fields, i + 1, t)
  {
    Appended(out, KnownReport(top, path, orig, curr, fields, i, t),
             Report(top, path, orig, curr, FieldPositions(orig, curr, fields[i]), t));
    ReportNextField(top, path, orig, curr, fields, i, t);
  }

  lemma ReportNextField(top: string, path: Path, orig: Json, curr: Json, fields: seq<Param>, i: nat, t: Text)
    requires i < |fields|
    ensures Report(top, path, orig, curr, KnownPositions(orig, curr, fields, i), t) +
            Report(top, path, orig, curr, FieldPositions(orig, curr, fields[i]), t) ==
            Report(top, path, orig, curr, KnownPositions(orig, curr, fields, i + 1), t)
  {
    ReportConcat(top, path, orig, curr, KnownPositions(orig, curr, fields, i),
                 FieldPositions(orig, curr, fields[i]), t);
  }

  lemma ReportAllFields(top: string, path: Path, orig: Json, curr: Json, fields: seq<Param>, t: Text)
    ensures Report(top, path, orig, curr, KnownPositions(orig, curr, fields, |fields|), t) +
            Report(top, path, orig, curr, UnknownPositions(Sorted(UnknownKeys(orig, curr, fields))), t) ==
            Report(top, path, orig, curr, Positions(orig, curr, fields), t)
  {
    ReportConcat(top, path, orig, curr, KnownPositions(orig, curr, fields, |fields|),
                 UnknownPositions(Sorted(UnknownKeys(orig, curr, fields))), t);
  }

  /** The visit of one schema field, with the path stack extended by its key. */
  method WalkField(top: string, orig: Json, curr: Json, sub: Param, path: Path, out: seq<DiffEntry>, t: Text)
    returns (out': seq<DiffEntry>)
    requires WellFormedParam(sub)
    ensures out' == out + Report(top, path, orig, curr, FieldPositions(orig, curr, sub), t)
    decreases sub
  {
    var stack := path + [sub.key];
    match sub {
      case Nested(k, inner) =>
        out' := WalkObjectDiff(top, MemberOrNull(orig, k), MemberOrNull(curr, k), inner, stack, out, t);
        ReportUnder(top, path, orig, curr, k, Positions(MemberOrNull(orig, k), MemberOrNull(curr, k), inner), t);
      case Leaf(k, _) =>
        var o, c := Member(orig, k), Member(curr, k);
        out' := if o != c then out + [Line(top, stack, false, o, c, t)] else out;
        ReportOne(top, path, orig, curr, Position(k, [], false), t);
    }
  }

  lemma ReportOne(top: string, path: Path, orig: Json, curr: Json, p: Position, t: Text)
    ensures Report(top, path, orig, curr, [p], t) == PositionLine(top, path, orig, curr, p, t)
    ensures p.tail == [] ==> path + [p.head] + p.tail == path + [p.head]
  {
    assert [p][..0] == [];
  }

  method WalkUnknown(
      top: string, orig: Json, curr: Json, unknowns: seq<string>, path: Path, out: seq<DiffEntry>, t: Text)
    returns (out': seq<DiffEntry>)
    ensures out' == out + Report(top, path, orig, curr, UnknownPositions(unknowns), t)
  {
    out' := out;
    ghost var lines: seq<DiffEntry> := [];
    var i := 0;
    while i < |unknowns|
      invariant 0 <= i <= |unknowns|
      invariant out' == out + lines && lines == Report(top, path, orig, curr, UnknownPositions(unknowns)[..i], t)
    {
      var k := unknowns[i];
      var o, c := Member(orig, k), Member(curr, k);
      ghost var more := PositionLine(top, path, orig, curr, Position(k, [], true), t);
      UnknownLine(top, path, orig, curr, k, t);
      if o != c {
        out' := out' + [Line(top, path + [k], true, o, c, t)];
      }
      Appended(out, lines, more);
      ReportNextUnknown(top, path, orig, curr, unknowns, i, t);
      lines := lines + more;
      i := i + 1;
    }
    assert UnknownPositions(unknowns)[..i] == UnknownPositions(unknowns);
  }

  lemma UnknownLine(top: string, path: Path, orig: Json, curr: Json, k: string, t: Text)
    ensures PositionLine(top, path, orig, curr, Position(k, [], true), t) ==
            if Member(orig, k) == Member(curr, k) then []
            else [Line(top, path + [k], true, Member(orig, k), Member(curr, k), t)]
  {
    assert path + [k] + [] == path + [k];
  }

  lemma ReportNextUnknown(top: string, path: Path, orig: Json, curr: Json, unknowns: seq<string>, i: nat, t: Text)
    requires i < |unknowns|
    ensures Report(top, path, orig, curr, UnknownPositions(unknowns)[..i], t) +
            PositionLine(top, path, orig, curr, Position(unknowns[i], [], true), t) ==
            Report(top, path, orig, curr, UnknownPositions(unknowns)[..i + 1], t)
  {
    var all := UnknownPositions(unknowns);
    assert all[..i + 1] == all[..i] + [Position(unknowns[i], [], true)];
    ReportSnoc(top, path, orig, curr, all[..i], Position(unknowns[i], [], true), t);
  }

  // ---- Each position once -----------------------------------------------------------

  predicate SamePlace(p: Position, q: Position) {
    p.head == q.head && p.tail == q.tail
  }

  ghost predicate Distinct(ps: seq<Position>) {
    forall i, j | 0 <= i < j < |ps| :: !SamePlace(ps[i], ps[j])
  }

  ghost predicate HeadsIn(ps: seq<Position>, ks: set<string>) {
    forall i | 0 <= i < |ps| :: ps[i].head in ks
  }

  lemma DistinctConcat(a: seq<Position>, b: seq<Position>, ka: set<string>, kb: set<string>)
    requires Distinct(a) && Distinct(b)
    requires HeadsIn(a, ka) && HeadsIn(b, kb) && ka !! kb
    ensures Distinct(a + b) && HeadsIn(a + b, ka + kb)
  {
    forall i, j | 0 <= i < j < |a + b| ensures !SamePlace((a + b)[i], (a + b)[j]) {
      if i < |a| <= j { assert (a + b)[i].head in ka && (a + b)[j].head in kb; }
    }
  }

  lemma UnderDistinct(k: string, ps: seq<Position>)
    requires Distinct(ps)
    ensures Distinct(Under(k, ps)) && HeadsIn(Under(k, ps), {k})
  {
    var u := Under(k, ps);
    forall i, j | 0 <= i < j < |ps| ensures !SamePlace(u[i], u[j]) {
      assert !SamePlace(ps[i], ps[j]);
      assert u[i].tail[0] == ps[i].head && u[i].tail[1..] == ps[i].tail;
      assert u[j].tail[0] == ps[j].head && u[j].tail[1..] == ps[j].tail;
    }
  }

  lemma {:induction false} KnownDistinct(orig: Json, curr: Json, fields: seq<Param>, n: nat)
    requires WellFormed(fields) && n <= |fields|
    ensures Distinct(KnownPositions(orig, curr, fields, n))
    ensures HeadsIn(KnownPositions(orig, curr, fields, n), Keys(fields[..n]))
    decreases fields, 0, n
  {
    if n > 0 {
      var f := fields[n - 1];
      assert WellFormedParam(f);
      KnownDistinct(orig, curr, fields, n - 1);
      KeysExtend(fields, n - 1);
      match f {
        case Leaf(k, _) =>
        case Nested(k, inner) =>
          var o, c := MemberOrNull(orig, k), MemberOrNull(curr, k);
          PositionsDistinct(o, c, inner);
          UnderDistinct(k, Positions(o, c, inner));
      }
      DistinctConcat(KnownPositions(orig, curr, fields, n - 1), FieldPositions(orig, curr, f),
                     Keys(fields[..n - 1]), {f.key});
    }
  }

  /** No position is listed twice. */
  lemma {:induction false} PositionsDistinct(orig: Json, curr: Json, fields: seq<Param>)
    requires WellFormed(fields)
    ensures Distinct(Positions(orig, curr, fields))
    decreases fields, 1
  {
    var unknown := UnknownKeys(orig, curr, fields);
    var ps := UnknownPositions(Sorted(unknown));
    KnownDistinct(orig, curr, fields, |fields|);
    assert fields[..|fields|] == fields;
    forall i | 0 <= i < |ps| ensures ps[i].head in unknown { assert Sorted(unknown)[i] in unknown; }
    DistinctConcat(KnownPositions(orig, curr, fields, |fields|), ps, Keys(fields), unknown);
  }

  // ---- Nothing is reported exactly when nothing visible changed -------------------------

  /**
   What the diff can see of a value: members of an object slot that is missing,
   `null` or not an object count as absent.
   */
  function Visible(v: Json, fields: seq<Param>): map<string, Json>
    decreases fields, 1
  {
    map k | k in MemberKeys(v) + Keys(fields) && VisibleSlot(v, fields, k).Some? :: VisibleSlot(v, fields, k).value
  }

  function VisibleSlot(v: Json, fields: seq<Param>, k: string): Option<Json>
    decreases fields, 0
  {
    match Find(fields, k)
    case Some(Nested(_, inner)) => Some(Obj(Visible(MemberOrNull(v, k), inner)))
    case _ => Member(v, k)
  }

  lemma VisibleAnswers(v: Json, fields: seq<Param>, k: string)
    ensures Get(Visible(v, fields), k) == VisibleSlot(v, fields, k)
  {
  }

  ghost predicate AgreeOn(orig: Json, curr: Json, ps: seq<Position>) {
    forall i | 0 <= i < |ps| :: Agrees(orig, curr, ps[i])
  }

  lemma {:induction false} ReportEmpty(top: string, path: Path, orig: Json, curr: Json, ps: seq<Position>, t: Text)
    ensures Report(top, path, orig, curr, ps, t) == [] <==> AgreeOn(orig, curr, ps)
    decreases |ps|
  {
    if ps != [] {
      var n := |ps| - 1;
      ReportEmpty(top, path, orig, curr, ps[..n], t);
      AgreeSnoc(orig, curr, ps);
    }
  }

  lemma AgreeSnoc(orig: Json, curr: Json, ps: seq<Position>)
    requires ps != []
    ensures AgreeOn(orig, curr, ps) <==> AgreeOn(orig, curr, ps[..|ps| - 1]) && Agrees(orig, curr, ps[|ps| - 1])
  {
    assert forall i | 0 <= i < |ps| - 1 :: ps[..|ps| - 1][i] == ps[i];
  }

  lemma AgreeConcat(orig: Json, curr: Json, a: seq<Position>, b: seq<Position>)
    ensures AgreeOn(orig, curr, a + b) <==> AgreeOn(orig, curr, a) && AgreeOn(orig, curr, b)
  {
    assert forall i | 0 <= i < |a| :: (a + b)[i] == a[i];
    assert forall i | 0 <= i < |b| :: (a + b)[|a| + i] == b[i];
  }

  lemma AgreeUnder(orig: Json, curr: Json, k: string, ps: seq<Position>)
    ensures AgreeOn(orig, curr, Under(k, ps)) <==> AgreeOn(MemberOrNull(orig, k), MemberOrNull(curr, k), ps)
  {
    forall i | 0 <= i < |ps|
      ensures Agrees(orig, curr, Under(k, ps)[i]) <==> Agrees(MemberOrNull(orig, k), MemberOrNull(curr, k), ps[i])
    {
      BelowValue(orig, k, ps[i]);
      BelowValue(curr, k, ps[i]);
    }
  }

  ghost predicate SlotAgrees(orig: Json, curr: Json, fields: seq<Param>, k: string) {
    VisibleSlot(orig, fields, k) == VisibleSlot(curr, fields, k)
  }

  ghost predicate SlotsAgree(orig: Json, curr: Json, fields: seq<Param>, n: nat)
    requires n <= |fields|
  {
    forall i | 0 <= i < n :: SlotAgrees(orig, curr, fields, fields[i].key)
  }

  lemma {:induction false} FieldAgrees(orig: Json, curr: Json, fields: seq<Param>, i: nat)
    requires WellFormed(fields) && i < |fields|
    ensures AgreeOn(orig, curr, FieldPositions(orig, curr, fields[i])) <==>
            SlotAgrees(orig, curr, fields, fields[i].key)
    decreases fields, 0
  {
    var f := fields[i];
    VisibleField(orig, curr, fields, i);
    if f.Nested? {
      assert WellFormedParam(f);
      AgreeIffVisible(MemberOrNull(orig, f.key), MemberOrNull(curr, f.key), f.fields);
      AgreeNested(orig, curr, f);
    } else {
      AgreeLeaf(orig, curr, f);
    }
  }

  lemma VisibleField(orig: Json, curr: Json, fields: seq<Param>, i: nat)
    requires DistinctKeys(fields) && i < |fields|
    ensures var f := fields[i];
            VisibleSlot(orig, fields, f.key) == VisibleSlot(curr, fields, f.key) <==>
            if f.Leaf? then Member(orig, f.key) == Member(curr, f.key)
            else Visible(MemberOrNull(orig, f.key), f.fields) == Visible(MemberOrNull(curr, f.key), f.fields)
  {
    FindAt(fields, i);
  }

  lemma AgreeNested(orig: Json, curr: Json, f: Param)
    requires f.Nested?
    ensures var o, c := MemberOrNull(orig, f.key), MemberOrNull(curr, f.key);
            AgreeOn(orig, curr, FieldPositions(orig, curr, f)) <==> AgreeOn(o, c, Positions(o, c, f.fields))
  {
    AgreeUnder(orig, curr, f.key, Positions(MemberOrNull(orig, f.key), MemberOrNull(curr, f.key), f.fields));
  }

  lemma AgreeLeaf(orig: Json, curr: Json, f: Param)
    requires f.Leaf?
    ensures AgreeOn(orig, curr, FieldPositions(orig, curr, f)) <==> Member(orig, f.key) == Member(curr, f.key)
  {
    assert FieldPositions(orig, curr, f)[0] == Position(f.key, [], false);
  }

  lemma {:induction false} KnownAgree(orig: Json, curr: Json, fields: seq<Param>, n: nat)
    requires WellFormed(fields) && n <= |fields|
    ensures AgreeOn(orig, curr, KnownPositions(orig, curr, fields, n)) <==> SlotsAgree(orig, curr, fields, n)
    decreases fields, 1, n
  {
    if n > 0 {
      KnownAgree(orig, curr, fields, n - 1);
      FieldAgrees(orig, curr, fields, n - 1);
      KnownAgreeNext(orig, curr, fields, n - 1);
      SlotsAgreeNext(orig, curr, fields, n - 1);
    }
  }

  lemma SlotsAgreeNext(orig: Json, curr: Json, fields: seq<Param>, n: nat)
    requires n < |fields|
    ensures SlotsAgree(orig, curr, fields, n + 1) <==>
            SlotsAgree(orig, curr, fields, n) && SlotAgrees(orig, curr, fields, fields[n].key)
  {
  }

  lemma KnownAgreeNext(orig: Json, curr: Json, fields: seq<Param>, n: nat)
    requires n < |fields|
    ensures AgreeOn(orig, curr, KnownPositions(orig, curr, fields, n + 1)) <==>
            AgreeOn(orig, curr, KnownPositions(orig, curr, fields, n)) &&
            AgreeOn(orig, curr, FieldPositions(orig, curr, fields[n]))
  {
    AgreeConcat(orig, curr, KnownPositions(orig, curr, fields, n), FieldPositions(orig, curr, fields[n]));
  }

  lemma UnknownAgree(orig: Json, curr: Json, ks: seq<string>)
    ensures AgreeOn(orig, curr, UnknownPositions(ks)) <==>
            forall i | 0 <= i < |ks| :: Member(orig, ks[i]) == Member(curr, ks[i])
  {
    var ps := UnknownPositions(ks);
    if AgreeOn(orig, curr, ps) {
      forall i | 0 <= i < |ks| ensures Member(orig, ks[i]) == Member(curr, ks[i]) {
        assert Agrees(orig, curr, ps[i]);
      }
    }
  }

  lemma {:induction false} AgreeIffVisible(orig: Json, curr: Json, fields: seq<Param>)
    requires WellFormed(fields)
    ensures AgreeOn(orig, curr, Positions(orig, curr, fields)) <==> Visible(orig, fields) == Visible(curr, fields)
    decreases fields, 2
  {
    var ks := Sorted(UnknownKeys(orig, curr, fields));
    KnownAgree(orig, curr, fields, |fields|);
    UnknownAgree(orig, curr, ks);
    AgreeConcat(orig, curr, KnownPositions(orig, curr, fields, |fields|), UnknownPositions(ks));
    VisibleIffSlots(orig, curr, fields, ks);
  }

  lemma UnknownSlot(v: Json, fields: seq<Param>, k: string)
    requires k !in Keys(fields)
    ensures VisibleSlot(v, fields, k) == Member(v, k)
  {
  }

  lemma SlotsCover(orig: Json, curr: Json, fields: seq<Param>, ks: seq<string>, k: string)
    requires ks == Sorted(UnknownKeys(orig, curr, fields))
    requires SlotsAgree(orig, curr, fields, |fields|)
    requires forall i | 0 <= i < |ks| :: Member(orig, ks[i]) == Member(curr, ks[i])
    ensures SlotAgrees(orig, curr, fields, k)
  {
    if k in Keys(fields) {
      var i :| 0 <= i < |fields| && fields[i].key == k;
      assert SlotAgrees(orig, curr, fields, fields[i].key);
    } else {
      UnknownSlot(orig, fields, k);
      UnknownSlot(curr, fields, k);
      if k in UnknownKeys(orig, curr, fields) {
        var i :| 0 <= i < |ks| && ks[i] == k;
      }
    }
  }

  lemma VisibleIffSlots(orig: Json, curr: Json, fields: seq<Param>, ks: seq<string>)
    requires ks == Sorted(UnknownKeys(orig, curr, fields))
    ensures Visible(orig, fields) == Visible(curr, fields) <==>
            && SlotsAgree(orig, curr, fields, |fields|)
            && (forall i | 0 <= i < |ks| :: Member(orig, ks[i]) == Member(curr, ks[i]))
  {
    if Visible(orig, fields) == Visible(curr, fields) {
      SameViewSameSlots(orig, curr, fields, ks);
    } else if && SlotsAgree(orig, curr, fields, |fields|)
              && (forall i | 0 <= i < |ks| :: Member(orig, ks[i]) == Member(curr, ks[i])) {
      SameSlotsSameView(orig, curr, fields, ks);
      assert false;
    }
  }

  lemma SameViewSameSlot(orig: Json, curr: Json, fields: seq<Param>, k: string)
    requires Visible(orig, fields) == Visible(curr, fields)
    ensures VisibleSlot(orig, fields, k) == VisibleSlot(curr, fields, k)
    ensures k !in Keys(fields) ==> Member(orig, k) == Member(curr, k)
  {
    VisibleAnswers(orig, fields, k);
    VisibleAnswers(curr, fields, k);
  }

  lemma SameViewSameSlots(orig: Json, curr: Json, fields: seq<Param>, ks: seq<string>)
    requires ks == Sorted(UnknownKeys(orig, curr, fields))
    requires Visible(orig, fields) == Visible(curr, fields)
    ensures forall k :: VisibleSlot(orig, fields, k) == VisibleSlot(curr, fields, k)
    ensures forall i | 0 <= i < |ks| :: Member(orig, ks[i]) == Member(curr, ks[i])
  {
    forall k ensures VisibleSlot(orig, fields, k) == VisibleSlot(curr, fields, k) {
      SameViewSameSlot(orig, curr, fields, k);
    }
    forall i | 0 <= i < |ks| ensures Member(orig, ks[i]) == Member(curr, ks[i]) {
      assert ks[i] in UnknownKeys(orig, curr, fields);
      SameViewSameSlot(orig, curr, fields, ks[i]);
    }
  }

  lemma SameSlotsSameView(orig: Json, curr: Json, fields: seq<Param>, ks: seq<string>)
    requires ks == Sorted(UnknownKeys(orig, curr, fields))
    requires SlotsAgree(orig, curr, fields, |fields|)
    requires forall i | 0 <= i < |ks| :: Member(orig, ks[i]) == Member(curr, ks[i])
    ensures Visible(orig, fields) == Visible(curr, fields)
  {
    forall k ensures Get(Visible(orig, fields), k) == Get(Visible(curr, fields), k) {
      SlotsCover(orig, curr, fields, ks, k);
      VisibleAnswers(orig, fields, k);
      VisibleAnswers(curr, fields, k);
    }
    MapsAgree(Visible(orig, fields), Visible(curr, fields));
  }

  /** The diff is empty exactly when the two values look the same through the schema. */
  lemma DiffEmptyIffSameView(top: string, orig: Json, curr: Json, fields: seq<Param>, t: Text)
    requires WellFormed(fields)
    ensures Report(top, [], orig, curr, Positions(orig, curr, fields), t) == [] <==>
            Visible(orig, fields) == Visible(curr, fields)
  {
    ReportEmpty(top, [], orig, curr, Positions(orig, curr, fields), t);
    AgreeIffVisible(orig, curr, fields);
  }

  /** Every object-typed slot holds an object, `null` or nothing. */
  predicate ObjectSlots(v: Json, fields: seq<Param>)
    decreases fields
  {
    (v.Obj? || v.Null?) &&
    forall i | 0 <= i < |fields| && fields[i].Nested? :: ObjectSlots(MemberOrNull(v, fields[i].key), fields[i].fields)
  }

  /** On a hydrated value whose object slots hold objects, the diff sees everything. */
  lemma {:induction false} VisibleIsEverything(v: Json, fields: seq<Param>)
    requires WellFormed(fields) && Hydrated(v, fields) && ObjectSlots(v, fields)
    ensures v.Obj? && Visible(v, fields) == v.members
    decreases fields
  {
    forall k ensures Get(Visible(v, fields), k) == Get(v.members, k) {
      VisibleAnswers(v, fields, k);
      HydrateAnswers(v.members, fields, k);
      if Find(fields, k).Some? && Find(fields, k).value.Nested? {
        var i :| 0 <= i < |fields| && fields[i] == Find(fields, k).value;
        assert WellFormedParam(fields[i]);
        assert ObjectSlots(MemberOrNull(v, k), fields[i].fields);
        VisibleIsEverything(v.members[k], fields[i].fields);
      }
    }
    MapsAgree(Visible(v, fields), v.members);
  }

  /** So between such values the diff is empty exactly when nothing changed at all. */
  lemma DiffEmptyIffEqual(top: string, orig: Json, curr: Json, fields: seq<Param>, t: Text)
    requires WellFormed(fields)
    requires Hydrated(orig, fields) && ObjectSlots(orig, fields)
    requires Hydrated(curr, fields) && ObjectSlots(curr, fields)
    ensures Report(top, [], orig, curr, Positions(orig, curr, fields), t) == [] <==> orig == curr
  {
    DiffEmptyIffSameView(top, orig, curr, fields, t);
    VisibleIsEverything(orig, fields);
    VisibleIsEverything(curr, fields);
  }

  // ---- Replacing an object by something else ------------------------------------------------------

  /** No leaf and no unknown key is there, at any depth the schema reaches. */
  predicate ShowsNothing(v: Json, fields: seq<Param>)
    decreases fields
  {
    && (forall k | k in MemberKeys(v) :: Find(fields, k).Some? && Find(fields, k).value.Nested?)
    && forall i | 0 <= i < |fields| && fields[i].Nested? ::
         ShowsNothing(MemberOrNull(v, fields[i].key), fields[i].fields)
  }

  /** Whatever is not an object shows nothing. */
  lemma NoObjectNoView(x: Json, fields: seq<Param>)
    requires !x.Obj?
    ensures Visible(x, fields) == Visible(Null, fields)
  {
    forall k ensures Get(Visible(x, fields), k) == Get(Visible(Null, fields), k) {
      VisibleAnswers(x, fields, k);
      VisibleAnswers(Null, fields, k);
    }
    MapsAgree(Visible(x, fields), Visible(Null, fields));
  }

  lemma {:induction false} ShowsNothingIff(v: Json, fields: seq<Param>)
    requires WellFormed(fields)
    ensures Visible(v, fields) == Visible(Null, fields) <==> ShowsNothing(v, fields)
    decreases fields
  {
    forall i | 0 <= i < |fields| && fields[i].Nested?
      ensures var o := MemberOrNull(v, fields[i].key);
              Visible(o, fields[i].fields) == Visible(Null, fields[i].fields) <==> ShowsNothing(o, fields[i].fields)
    {
      assert WellFormedParam(fields[i]);
      ShowsNothingIff(MemberOrNull(v, fields[i].key), fields[i].fields);
    }
    if Visible(v, fields) == Visible(Null, fields) {
      ViewIsNothing(v, fields);
    }
    if ShowsNothing(v, fields) {
      NothingIsViewed(v, fields);
    }
  }

  lemma ViewIsNothing(v: Json, fields: seq<Param>)
    requires WellFormed(fields) && Visible(v, fields) == Visible(Null, fields)
    ensures forall k | k in MemberKeys(v) :: Find(fields, k).Some? && Find(fields, k).value.Nested?
    ensures forall i | 0 <= i < |fields| && fields[i].Nested? ::
              Visible(MemberOrNull(v, fields[i].key), fields[i].fields) == Visible(Null, fields[i].fields)
  {
    forall k | k in MemberKeys(v) ensures Find(fields, k).Some? && Find(fields, k).value.Nested? {
      SameViewSameSlot(v, Null, fields, k);
    }
    forall i | 0 <= i < |fields| && fields[i].Nested?
      ensures Visible(MemberOrNull(v, fields[i].key), fields[i].fields) == Visible(Null, fields[i].fields)
    {
      SameViewSameSlot(v, Null, fields, fields[i].key);
      VisibleField(v, Null, fields, i);
    }
  }

  lemma NothingIsViewed(v: Json, fields: seq<Param>)
    requires WellFormed(fields)
    requires forall k | k in MemberKeys(v) :: Find(fields, k).Some? && Find(fields, k).value.Nested?
    requires forall i | 0 <= i < |fields| && fields[i].Nested? ::
               Visible(MemberOrNull(v, fields[i].key), fields[i].fields) == Visible(Null, fields[i].fields)
    ensures Visible(v, fields) == Visible(Null, fields)
  {
    forall k ensures Get(Visible(v, fields), k) == Get(Visible(Null, fields), k) {
      VisibleAnswers(v, fields, k);
      VisibleAnswers(Null, fields, k);
      if Find(fields, k).Some? && Find(fields, k).value.Nested? {
        var i :| 0 <= i < |fields| && fields[i] == Find(fields, k).value;
        assert fields[i].Nested?;
      }
    }
    MapsAgree(Visible(v, fields), Visible(Null, fields));
  }

  /** Only the replaced slot can look different. */
  lemma ReplacedSlot(v: Json, fields: seq<Param>, i: nat, x: Json)
    requires DistinctKeys(fields) && v.Obj? && i < |fields| && fields[i].Nested? && fields[i].key in v.members
    ensures var k := fields[i].key;
            Visible(v, fields) == Visible(Obj(v.members[k := x]), fields) <==>
            Visible(v.members[k], fields[i].fields) == Visible(x, fields[i].fields)
  {
    var k := fields[i].key;
    var after := Obj(v.members[k := x]);
    VisibleField(v, after, fields, i);
    if Visible(v, fields) == Visible(after, fields) {
      SameViewSameSlot(v, after, fields, k);
    }
    if VisibleSlot(v, fields, k) == VisibleSlot(after, fields, k) {
      forall j ensures Get(Visible(v, fields), j) == Get(Visible(after, fields), j) {
        VisibleAnswers(v, fields, j);
        VisibleAnswers(after, fields, j);
        if j != k { assert Member(v, j) == Member(after, j); }
      }
      MapsAgree(Visible(v, fields), Visible(after, fields));
    }
  }

  /**
   Replacing an object by a scalar, an array or `null` goes unreported exactly
   when the object held no leaf and no unknown key at any depth of the schema.
   */
  lemma ReplacedObjectIsSilent(top: string, v: Json, fields: seq<Param>, i: nat, x: Json, t: Text)
    requires WellFormed(fields) && v.Obj? && i < |fields| && fields[i].Nested? && fields[i].key in v.members && !x.Obj?
    ensures var after := Obj(v.members[fields[i].key := x]);
            Report(top, [], v, after, Positions(v, after, fields), t) == [] <==>
            ShowsNothing(v.members[fields[i].key], fields[i].fields)
  {
    var k := fields[i].key;
    assert WellFormedParam(fields[i]);
    DiffEmptyIffSameView(top, v, Obj(v.members[k := x]), fields, t);
    ReplacedSlot(v, fields, i, x);
    NoObjectNoView(x, fields[i].fields);
    ShowsNothingIff(v.members[k], fields[i].fields);
  }

  /** With any field list: an empty object may silently become text, one that holds a schema leaf may not. */
  lemma LostLeafIsReported(inner: seq<Param>, leaf: nat, value: Json)
    requires DistinctKeys(inner) && leaf < |inner| && inner[leaf].Leaf?
    ensures ShowsNothing(EMPTY, inner) && !ShowsNothing(Obj(map[inner[leaf].key := value]), inner)
  {
    NullShowsNothing(EMPTY, inner);
    FindAt(inner, leaf);
    assert inner[leaf].key in MemberKeys(Obj(map[inner[leaf].key := value]));
  }

  lemma {:induction false} NullShowsNothing(v: Json, fields: seq<Param>)
    requires MemberKeys(v) == {}
    ensures ShowsNothing(v, fields)
    decreases fields
  {
    forall i | 0 <= i < |fields| && fields[i].Nested?
      ensures ShowsNothing(MemberOrNull(v, fields[i].key), fields[i].fields)
    {
      NullShowsNothing(Null, fields[i].fields);
    }
  }
}
