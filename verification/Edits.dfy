/**
 What an edit leaves at the edited position: typed text, toggles and cycling
 through choices, and that every other position keeps its value.
 */
module Edits {
  import opened Wrappers
  import opened JsonPointer
  import opened JsonValues
  import opened ConfigSession

  // ---- Replacing a value twice ------------------------------------------------------------

  lemma {:induction false} PutTwice(v: Json, path: Path, x: Json, y: Json)
    requires At(v, path).Some?
    ensures At(Put(v, path, x), path).Some? && Put(Put(v, path, x), path, y) == Put(v, path, y)
    decreases |path|
  {
    AtPut(v, path, x);
    if path != [] {
      var c := Child(v, path[0]).value;
      SetChildFrame(v, path[0], Put(c, path[1..], x), path[0]);
      PutTwice(c, path[1..], x, y);
    }
  }

  lemma {:induction false} PutBack(v: Json, path: Path)
    requires At(v, path).Some?
    ensures Put(v, path, At(v, path).value) == v
    decreases |path|
  {
    if path != [] {
      PutBack(Child(v, path[0]).value, path[1..]);
    }
  }

  // ---- Typed text ----------------------------------------------------------------------------

  /** Nothing but the edited position and what overlaps it changes. */
  lemma EditFrame(e: Entry, path: Path, a: Action, t: Text, other: Path)
    requires EditAt(e, path, a, t).Some? && !Overlap(path, other)
    ensures At(EditAt(e, path, a, t).value.value, other) == At(e.value, other)
  {
    AtPutFrame(e.value, path, NewValue(At(e.value, path).value, a, t).value, other);
  }

  lemma EditKeepsOthers(e: Entry, path: Path, a: Action, t: Text)
    requires EditAt(e, path, a, t).Some?
    ensures forall other | !Overlap(path, other) :: At(EditAt(e, path, a, t).value.value, other) == At(e.value, other)
  {
    forall other | !Overlap(path, other)
      ensures At(EditAt(e, path, a, t).value.value, other) == At(e.value, other)
    {
      EditFrame(e, path, a, t, other);
    }
  }

  /** An accepted edit is stored and marked, and its position no longer counts as filled in. */
  lemma EditStores(e: Entry, path: Path, a: Action, t: Text)
    requires At(e.value, path).Some?
    ensures var x := NewValue(At(e.value, path).value, a, t);
            var r := EditAt(e, path, a, t);
            && r.Some? == x.Some?
            && (r.Some? ==> r.value.modified && At(r.value.value, path) == x)
            && (r.Some? && path != [] ==> Pointer(path) !in r.value.synthetic)
  {
    var x := NewValue(At(e.value, path).value, a, t);
    if x.Some? {
      AtPut(e.value, path, x.value);
    }
  }

  /** Over a boolean, `true` and `false` are stored and any other text is refused. */
  lemma TypedOverBool(e: Entry, path: Path, was: bool, raw: string, t: Text)
    requires At(e.value, path) == Some(Bool(was))
    ensures var r := EditAt(e, path, Type(raw), t);
            && (raw == "true" ==> r.Some? && At(r.value.value, path) == Some(Bool(true)))
            && (raw == "false" ==> r.Some? && At(r.value.value, path) == Some(Bool(false)))
            && (raw != "true" && raw != "false" ==> r.None?)
  {
    EditStores(e, path, Type(raw), t);
    assert "true"[0] != "false"[0];
  }

  /** Over a number, the integer the text spells, or else its finite float; anything else is refused. */
  lemma TypedOverNumber(e: Entry, path: Path, was: Number, raw: string, t: Text)
    requires At(e.value, path) == Some(Num(was))
    ensures var r := EditAt(e, path, Type(raw), t);
            && (forall i :: t.parseI64(raw) == Some(i) ==> r.Some? && At(r.value.value, path) == Some(Num(Integer(i))))
            && (forall f :: t.parseI64(raw) == None && t.parseF64(raw) == Some(Finite(f)) ==>
                  r.Some? && At(r.value.value, path) == Some(Num(Float(f))))
            && (r.Some? ==> t.parseI64(raw).Some? || exists f :: t.parseF64(raw) == Some(Finite(f)))
  {
    EditStores(e, path, Type(raw), t);
  }

  /** Over text, arrays, objects and `null`, the text itself. */
  lemma TypedOverOther(e: Entry, path: Path, raw: string, t: Text)
    requires At(e.value, path).Some? && !At(e.value, path).value.Bool? && !At(e.value, path).value.Num?
    ensures var r := EditAt(e, path, Type(raw), t);
            r.Some? && At(r.value.value, path) == Some(Str(raw))
  {
    EditStores(e, path, Type(raw), t);
  }

  // ---- Toggling --------------------------------------------------------------------------------

  /** A toggle stores the other boolean, and a second one restores the whole value. */
  lemma ToggleTwice(e: Entry, path: Path, was: bool, t: Text)
    requires At(e.value, path) == Some(Bool(was))
    ensures var once := EditAt(e, path, Toggle, t);
            && once.Some? && At(once.value.value, path) == Some(Bool(!was))
            && var twice := EditAt(once.value, path, Toggle, t);
               twice.Some? && twice.value.value == e.value
  {
    EditStores(e, path, Toggle, t);
    PutTwice(e.value, path, Bool(!was), Bool(was));
    PutBack(e.value, path);
  }

  /** Anything but a boolean refuses the toggle. */
  lemma ToggleRefused(e: Entry, path: Path, t: Text)
    requires At(e.value, path).Some? ==> !At(e.value, path).value.Bool?
    ensures EditAt(e, path, Toggle, t).None?
  {
  }

  // ---- Cycling -----------------------------------------------------------------------------------

  predicate Distinct(choices: seq<string>) {
    forall i, j | 0 <= i < j < |choices| :: choices[i] != choices[j]
  }

  lemma {:induction false} IndexFound(choices: seq<string>, i: nat)
    requires Distinct(choices) && i < |choices|
    ensures IndexOf(choices, choices[i]) == Some(i)
  {
    if i > 0 {
      IndexFound(choices[1..], i - 1);
    }
  }

  lemma {:induction false} IndexMissing(choices: seq<string>, c: string)
    requires c !in choices
    ensures IndexOf(choices, c) == None
  {
    if choices != [] {
      IndexMissing(choices[1..], c);
    }
  }

  /** The entry after cycling `k` times. */
  function Cycled(e: Entry, path: Path, choices: seq<string>, k: nat, t: Text): Entry {
    if k == 0 then e
    else
      var last := Cycled(e, path, choices, k - 1, t);
      match EditAt(last, path, Cycle(choices), t)
      case Some(next) => next
      case None => last
  }

  predicate Showing(e: Entry, path: Path, c: string, t: Text) {
    At(e.value, path).Some? && DisplayText(At(e.value, path).value, t) == c
  }

  lemma RoundTheCircle(i: nat, n: nat)
    requires i < n
    ensures (i + 1) % n == if i + 1 < n then i + 1 else 0
  {
  }

  lemma NextInTurn(choices: seq<string>, i: nat)
    requires Distinct(choices) && i < |choices|
    ensures NextChoice(choices, choices[i]) == choices[if i + 1 < |choices| then i + 1 else 0]
  {
    IndexFound(choices, i);
    RoundTheCircle(i, |choices|);
  }

  lemma CycleStep(e: Entry, path: Path, choices: seq<string>, i: nat, t: Text)
    requires Distinct(choices) && i < |choices| && Showing(e, path, choices[i], t)
    ensures var r := EditAt(e, path, Cycle(choices), t);
            r.Some? && At(r.value.value, path) == Some(Str(choices[if i + 1 < |choices| then i + 1 else 0]))
  {
    NextInTurn(choices, i);
    EditStores(e, path, Cycle(choices), t);
  }

  /** A value that is none of the choices becomes the first one. */
  lemma CycleEnters(e: Entry, path: Path, choices: seq<string>, c: string, t: Text)
    requires choices != [] && c !in choices && Showing(e, path, c, t)
    ensures var r := EditAt(e, path, Cycle(choices), t);
            r.Some? && At(r.value.value, path) == Some(Str(choices[0]))
  {
    IndexMissing(choices, c);
    EditStores(e, path, Cycle(choices), t);
  }

  /** Without choices nothing is changed. */
  lemma CycleNothing(e: Entry, path: Path, t: Text)
    ensures EditAt(e, path, Cycle([]), t).None?
  {
  }

  /** The place `k` steps after `i` on a circle of `n` places. */
  function After(i: nat, k: nat, n: nat): (j: nat)
    requires i < n && k <= n
    ensures j < n
  {
    if i + k < n then i + k else i + k - n
  }

  /** Starting from one of the choices, `k` steps lead `k` places further round. */
  lemma {:induction false} CycleReaches(e: Entry, path: Path, choices: seq<string>, i: nat, k: nat, t: Text)
    requires Distinct(choices) && i < |choices| && Showing(e, path, choices[i], t) && 0 < k <= |choices|
    ensures At(Cycled(e, path, choices, k, t).value, path) == Some(Str(choices[After(i, k, |choices|)]))
    decreases k
  {
    var last := Cycled(e, path, choices, k - 1, t);
    var j := After(i, k - 1, |choices|);
    if k > 1 {
      CycleReaches(e, path, choices, i, k - 1, t);
    }
    CycleStep(last, path, choices, j, t);
  }

  predicate Holds(e: Entry, path: Path, choices: seq<string>, k: nat, c: nat, t: Text)
    requires c < |choices|
  {
    At(Cycled(e, path, choices, k, t).value, path) == Some(Str(choices[c]))
  }

  lemma CycleHolds(e: Entry, path: Path, choices: seq<string>, i: nat, k: nat, c: nat, t: Text)
    requires Distinct(choices) && i < |choices| && Showing(e, path, choices[i], t)
    requires 0 < k <= |choices| && c < |choices|
    ensures Holds(e, path, choices, k, c, t) <==> c == After(i, k, |choices|)
  {
    CycleReaches(e, path, choices, i, k, t);
  }

  /** Cycling through all the choices visits each of them exactly once and returns. */
  lemma CycleVisitsEachOnce(e: Entry, path: Path, choices: seq<string>, i: nat, c: nat, t: Text)
    requires Distinct(choices) && i < |choices| && c < |choices| && Showing(e, path, choices[i], t)
    ensures Holds(e, path, choices, |choices|, i, t)
    ensures exists k :: && 0 < k <= |choices| && Holds(e, path, choices, k, c, t)
                        && forall l | 0 < l <= |choices| && l != k :: !Holds(e, path, choices, l, c, t)
  {
    var n := |choices|;
    CycleHolds(e, path, choices, i, n, i, t);
    var k := if c > i then c - i else n - i + c;
    CycleHolds(e, path, choices, i, k, c, t);
    forall l | 0 < l <= n && l != k ensures !Holds(e, path, choices, l, c, t) {
      CycleHolds(e, path, choices, i, l, c, t);
    }
  }
}
