/**
 The diff overlay compares with the file as it was loaded, before schema
 defaults were filled in.  What that adds to the user's own edits.
 */
module DiffBaseline {
  import opened Wrappers
  import opened JsonPointer
  import opened JsonValues
  import opened Schema
  import opened Hydration
  import opened Ordering
  import opened ConfigSession
  import opened ObjectDiff

  // ---- Hydration keeps every value it finds ---------------------------------------------------------

  function ValueOf(v: Json, p: Position): Option<Json> {
    ValueAt(v, p.head, p.tail)
  }

  ghost predicate KeepsAt(v: Json, h: Json, p: Position) {
    ValueOf(v, p).Some? ==> ValueOf(h, p) == ValueOf(v, p)
  }

  ghost predicate KeepsOn(v: Json, h: Json, ps: seq<Position>) {
    forall i | 0 <= i < |ps| :: KeepsAt(v, h, ps[i])
  }

  lemma KeepsConcat(v: Json, h: Json, a: seq<Position>, b: seq<Position>)
    requires KeepsOn(v, h, a) && KeepsOn(v, h, b)
    ensures KeepsOn(v, h, a + b)
  {
  }

  lemma KeepsUnder(v: Json, h: Json, k: string, ps: seq<Position>)
    requires KeepsOn(MemberOrNull(v, k), MemberOrNull(h, k), ps)
    ensures KeepsOn(v, h, Under(k, ps))
  {
    forall i | 0 <= i < |ps| ensures KeepsAt(v, h, Under(k, ps)[i]) {
      assert KeepsAt(MemberOrNull(v, k), MemberOrNull(h, k), ps[i]);
      BelowValue(v, k, ps[i]);
      BelowValue(h, k, ps[i]);
    }
  }

  predicate Container(v: Json) {
    v.Obj? || v.Null?
  }

  function MembersOf(v: Json): map<string, Json> {
    if v.Obj? then v.members else map[]
  }

  lemma HydrateContainer(v: Json, fields: seq<Param>, k: string)
    requires Container(v)
    ensures Hydrate(v, fields).Obj?
    ensures Member(Hydrate(v, fields), k) == HydrateSlot(MembersOf(v), fields, k)
    ensures Member(v, k) == Get(MembersOf(v), k)
  {
    HydrateAnswers(MembersOf(v), fields, k);
  }

  /** Hydration goes down into object slots, whether they are there or not. */
  lemma HydrateNested(v: Json, fields: seq<Param>, i: nat)
    requires DistinctKeys(fields) && i < |fields| && fields[i].Nested? && Container(v)
    ensures var k := fields[i].key;
            MemberOrNull(Hydrate(v, fields), k) == Hydrate(MemberOrNull(v, k), fields[i].fields)
  {
    FindAt(fields, i);
    HydrateContainer(v, fields, fields[i].key);
    assert HydrateSlot(MembersOf(v), fields, fields[i].key) == HydrateField(MembersOf(v), fields[i]);
  }

  lemma {:induction false} HydrateKeeps(v: Json, c: Json, fields: seq<Param>)
    requires WellFormed(fields)
    ensures KeepsOn(v, Hydrate(v, fields), Positions(v, c, fields))
    decreases fields, 2
  {
    if Container(v) {
      var ks := Sorted(UnknownKeys(v, c, fields));
      HydrateKeepsKnown(v, c, fields, |fields|);
      HydrateKeepsUnknown(v, fields, ks);
      KeepsConcat(v, Hydrate(v, fields), KnownPositions(v, c, fields, |fields|), UnknownPositions(ks));
    }
  }

  lemma HydrateKeepsUnknown(v: Json, fields: seq<Param>, ks: seq<string>)
    requires Container(v) && forall i | 0 <= i < |ks| :: ks[i] !in Keys(fields)
    ensures KeepsOn(v, Hydrate(v, fields), UnknownPositions(ks))
  {
    forall i | 0 <= i < |ks| ensures KeepsAt(v, Hydrate(v, fields), UnknownPositions(ks)[i]) {
      HydrateContainer(v, fields, ks[i]);
    }
  }

  lemma {:induction false} HydrateKeepsKnown(v: Json, c: Json, fields: seq<Param>, n: nat)
    requires WellFormed(fields) && Container(v) && n <= |fields|
    ensures KeepsOn(v, Hydrate(v, fields), KnownPositions(v, c, fields, n))
    decreases fields, 1, n
  {
    if n > 0 {
      HydrateKeepsKnown(v, c, fields, n - 1);
      HydrateKeepsField(v, c, fields, n - 1);
      KeepsConcat(v, Hydrate(v, fields), KnownPositions(v, c, fields, n - 1), FieldPositions(v, c, fields[n - 1]));
    }
  }

  lemma {:induction false} HydrateKeepsField(v: Json, c: Json, fields: seq<Param>, i: nat)
    requires WellFormed(fields) && Container(v) && i < |fields|
    ensures KeepsOn(v, Hydrate(v, fields), FieldPositions(v, c, fields[i]))
    decreases fields, 0
  {
    var f := fields[i];
    assert WellFormedParam(f);
    FindAt(fields, i);
    if f.Nested? {
      var o, d := MemberOrNull(v, f.key), MemberOrNull(c, f.key);
      HydrateKeeps(o, d, f.fields);
      HydrateNested(v, fields, i);
      KeepsUnder(v, Hydrate(v, fields), f.key, Positions(o, d, f.fields));
    } else {
      HydrateContainer(v, fields, f.key);
    }
  }

  // ---- What is reported beside the edits ------------------------------------------------------------

  /** Hydration put a value where the file had none. */
  predicate Filled(file: Json, fields: seq<Param>, p: Position) {
    ValueOf(file, p).None? && ValueOf(Hydrate(file, fields), p).Some?
  }

  predicate Edited(file: Json, curr: Json, fields: seq<Param>, p: Position) {
    ValueOf(curr, p) != ValueOf(Hydrate(file, fields), p)
  }

  /**
   The overlay reports a position that hydration filled as long as it holds a
   value, edited or not, and every other position exactly when it was edited.
   */
  lemma ReportedIff(file: Json, curr: Json, fields: seq<Param>, i: nat)
    requires WellFormed(fields) && i < |Positions(file, curr, fields)|
    ensures var p := Positions(file, curr, fields)[i];
            !Agrees(file, curr, p) <==>
            if Filled(file, fields, p) then ValueOf(curr, p).Some? else Edited(file, curr, fields, p)
  {
    HydrateKeeps(file, curr, fields);
    assert KeepsAt(file, Hydrate(file, fields), Positions(file, curr, fields)[i]);
  }

  /** Every leaf with a default, in every object slot that is not occupied by a scalar, is there already. */
  predicate NothingToFill(v: Json, fields: seq<Param>)
    decreases fields
  {
    Container(v) ==>
      forall i | 0 <= i < |fields| ::
        match fields[i]
        case Leaf(k, d) => d.Some? ==> k in MembersOf(v)
        case Nested(k, inner) => NothingToFill(MemberOrNull(v, k), inner)
  }

  ghost predicate FieldFilled(v: Json, f: Param) {
    match f
    case Leaf(k, d) => d.Some? ==> k in MembersOf(v)
    case Nested(k, inner) => NothingToFill(MemberOrNull(v, k), inner)
  }

  lemma {:induction false} SameViewIffNothingToFill(v: Json, fields: seq<Param>)
    requires WellFormed(fields)
    ensures Visible(v, fields) == Visible(Hydrate(v, fields), fields) <==> NothingToFill(v, fields)
    decreases fields, 1
  {
    if Container(v) {
      forall i | 0 <= i < |fields|
        ensures SlotAgrees(v, Hydrate(v, fields), fields, fields[i].key) <==> FieldFilled(v, fields[i])
      {
        SlotFilledIff(v, fields, i);
      }
      if Visible(v, fields) == Visible(Hydrate(v, fields), fields) {
        forall i | 0 <= i < |fields| ensures FieldFilled(v, fields[i]) {
          SameViewSameSlot(v, Hydrate(v, fields), fields, fields[i].key);
        }
      }
      if NothingToFill(v, fields) {
        FilledSameView(v, fields);
      }
    }
  }

  lemma {:induction false} SlotFilledIff(v: Json, fields: seq<Param>, i: nat)
    requires WellFormed(fields) && Container(v) && i < |fields|
    ensures SlotAgrees(v, Hydrate(v, fields), fields, fields[i].key) <==> FieldFilled(v, fields[i])
    decreases fields, 0
  {
    var f := fields[i];
    assert WellFormedParam(f);
    FindAt(fields, i);
    HydrateContainer(v, fields, f.key);
    if f.Nested? {
      HydrateNested(v, fields, i);
      SameViewIffNothingToFill(MemberOrNull(v, f.key), f.fields);
    }
  }

  lemma FilledSameView(v: Json, fields: seq<Param>)
    requires Container(v)
    requires forall i | 0 <= i < |fields| :: SlotAgrees(v, Hydrate(v, fields), fields, fields[i].key)
    ensures Visible(v, fields) == Visible(Hydrate(v, fields), fields)
  {
    var h := Hydrate(v, fields);
    forall k ensures Get(Visible(v, fields), k) == Get(Visible(h, fields), k) {
      VisibleAnswers(v, fields, k);
      VisibleAnswers(h, fields, k);
      if k in Keys(fields) {
        var i :| 0 <= i < |fields| && fields[i].key == k;
        assert SlotAgrees(v, h, fields, fields[i].key);
      } else {
        UnknownSlot(v, fields, k);
        UnknownSlot(h, fields, k);
        HydrateContainer(v, fields, k);
      }
    }
    MapsAgree(Visible(v, fields), Visible(h, fields));
  }

  /** An entry that was loaded and not edited is reported as changed exactly when hydration filled a leaf of it. */
  lemma UneditedIsSilentIff(top: string, file: Json, fields: seq<Param>, t: Text)
    requires WellFormed(fields)
    ensures var h := Hydrate(file, fields);
            Report(top, [], file, h, Positions(file, h, fields), t) == [] <==> NothingToFill(file, fields)
  {
    DiffEmptyIffSameView(top, file, Hydrate(file, fields), fields, t);
    SameViewIffNothingToFill(file, fields);
  }

  /** Where nothing is left to fill, the overlay reports the edits and nothing else. */
  lemma OnlyEditsShow(file: Json, curr: Json, fields: seq<Param>, i: nat)
    requires WellFormed(fields) && NothingToFill(file, fields) && i < |Positions(file, curr, fields)|
    ensures var p := Positions(file, curr, fields)[i];
            !Agrees(file, curr, p) <==> Edited(file, curr, fields, p)
  {
    ReportedIff(file, curr, fields, i);
    NothingFilled(file, curr, fields);
    assert Agrees(file, Hydrate(file, fields), Positions(file, curr, fields)[i]);
  }

  /** Values that look the same agree at every position, whoever lists it. */
  lemma {:induction false} SameViewAgrees(a: Json, b: Json, v: Json, c: Json, fields: seq<Param>)
    requires WellFormed(fields) && Visible(a, fields) == Visible(b, fields)
    ensures AgreeOn(a, b, Positions(v, c, fields))
    decreases fields, 2
  {
    var ks := Sorted(UnknownKeys(v, c, fields));
    SameViewKnown(a, b, v, c, fields, |fields|);
    UnknownAgree(a, b, ks);
    forall i | 0 <= i < |ks| ensures Member(a, ks[i]) == Member(b, ks[i]) {
      assert ks[i] in UnknownKeys(v, c, fields);
      SameViewSameSlot(a, b, fields, ks[i]);
    }
    AgreeConcat(a, b, KnownPositions(v, c, fields, |fields|), UnknownPositions(ks));
  }

  lemma {:induction false} SameViewKnown(a: Json, b: Json, v: Json, c: Json, fields: seq<Param>, n: nat)
    requires WellFormed(fields) && Visible(a, fields) == Visible(b, fields) && n <= |fields|
    ensures AgreeOn(a, b, KnownPositions(v, c, fields, n))
    decreases fields, 1, n
  {
    if n > 0 {
      SameViewKnown(a, b, v, c, fields, n - 1);
      SameViewField(a, b, v, c, fields, n - 1);
      AgreeConcat(a, b, KnownPositions(v, c, fields, n - 1), FieldPositions(v, c, fields[n - 1]));
    }
  }

  lemma {:induction false} SameViewField(a: Json, b: Json, v: Json, c: Json, fields: seq<Param>, i: nat)
    requires WellFormed(fields) && Visible(a, fields) == Visible(b, fields) && i < |fields|
    ensures AgreeOn(a, b, FieldPositions(v, c, fields[i]))
    decreases fields, 0
  {
    var f := fields[i];
    assert WellFormedParam(f);
    SameViewSameSlot(a, b, fields, f.key);
    VisibleField(a, b, fields, i);
    if f.Nested? {
      var o, d := MemberOrNull(v, f.key), MemberOrNull(c, f.key);
      SameViewAgrees(MemberOrNull(a, f.key), MemberOrNull(b, f.key), o, d, f.fields);
      AgreeUnder(a, b, f.key, Positions(o, d, f.fields));
    }
  }

  lemma NothingFilled(file: Json, curr: Json, fields: seq<Param>)
    requires WellFormed(fields) && NothingToFill(file, fields)
    ensures AgreeOn(file, Hydrate(file, fields), Positions(file, curr, fields))
  {
    SameViewIffNothingToFill(file, fields);
    SameViewAgrees(file, Hydrate(file, fields), file, curr, fields);
  }

  // ---- An empty overlay --------------------------------------------------------------------------------

  lemma {:induction false} HydrateKeepsObjectSlots(v: Json, fields: seq<Param>)
    requires WellFormed(fields) && ObjectSlots(v, fields)
    ensures ObjectSlots(Hydrate(v, fields), fields)
    decreases fields
  {
    var h := Hydrate(v, fields);
    HydrateContainer(v, fields, "");
    forall i | 0 <= i < |fields| && fields[i].Nested?
      ensures ObjectSlots(MemberOrNull(h, fields[i].key), fields[i].fields)
    {
      assert WellFormedParam(fields[i]);
      HydrateNested(v, fields, i);
      HydrateKeepsObjectSlots(MemberOrNull(v, fields[i].key), fields[i].fields);
    }
  }

  /** A file that looks like a hydrated value had nothing to fill. */
  lemma {:induction false} LooksFilled(file: Json, curr: Json, fields: seq<Param>)
    requires WellFormed(fields) && Hydrated(curr, fields) && ObjectSlots(curr, fields)
    requires Visible(file, fields) == Visible(curr, fields)
    ensures NothingToFill(file, fields)
    decreases fields
  {
    HydrateContainer(curr, fields, "");
    forall i | 0 <= i < |fields| ensures FieldFilled(file, fields[i]) {
      var f := fields[i];
      assert WellFormedParam(f);
      FindAt(fields, i);
      SameViewSameSlot(file, curr, fields, f.key);
      HydrateContainer(curr, fields, f.key);
      if f.Nested? {
        HydrateNested(curr, fields, i);
        LooksFilled(MemberOrNull(file, f.key), MemberOrNull(curr, f.key), f.fields);
      }
    }
  }

  /**
   Against the file as loaded, the overlay is empty exactly when the file left
   nothing to fill and the entry is what hydration made of it.
   */
  lemma DiffEmptyIffUntouched(top: string, file: Json, curr: Json, fields: seq<Param>, t: Text)
    requires WellFormed(fields) && ObjectSlots(file, fields)
    requires Hydrated(curr, fields) && ObjectSlots(curr, fields)
    ensures Report(top, [], file, curr, Positions(file, curr, fields), t) == [] <==>
            NothingToFill(file, fields) && curr == Hydrate(file, fields)
  {
    var h := Hydrate(file, fields);
    DiffEmptyIffSameView(top, file, curr, fields, t);
    SameViewIffNothingToFill(file, fields);
    HydrateIdempotent(file, fields, []);
    HydrateKeepsObjectSlots(file, fields);
    VisibleIsEverything(h, fields);
    VisibleIsEverything(curr, fields);
    if Visible(file, fields) == Visible(curr, fields) {
      LooksFilled(file, curr, fields);
    }
  }
}
