/**
 What a comparison records, position by position: which places of the two trees
 it visits, under which path, and what it says of the two values found there.
 */
module Observations {
  import opened Wrappers
  import opened Ordering
  import opened Decimals
  import opened Digests
  import opened PathShapes
  import opened Comparisons

  datatype Step = Field(name: string) | Pool(id: string) | Place(index: nat)

  function Label(path: string, s: Step): string {
    match s
    case Field(k) => path + "." + k
    case Pool(id) => path + "[" + id + "]"
    case Place(i) => path + "[" + NatText(i) + "]"
  }

  function PathText(path: string, steps: seq<Step>): string
    decreases |steps|
  {
    if steps == [] then path else PathText(Label(path, steps[0]), steps[1..])
  }

  /** The child of one value; of several pools with one id the last. */
  function Child(v: Value, s: Step): Option<Value> {
    match s
    case Field(k) => if v.Dict? && k in v.entries then Some(v.entries[k]) else None
    case Pool(id) =>
      if v.List? && PoolList(v.elems) && id in Ids(v.elems) then Some(LastWithId(v.elems, id)) else None
    case Place(i) => if v.List? && i < |v.elems| then Some(v.elems[i]) else None
  }

  function Follow(v: Value, steps: seq<Step>): Option<Value>
    decreases |steps|
  {
    if steps == [] then Some(v)
    else if Child(v, steps[0]).Some? then Follow(Child(v, steps[0]).value, steps[1..])
    else None
  }

  /** How two containers are taken apart: maps by key, pool lists by id, other lists by place. */
  predicate Paired(a: Value, b: Value, s: Step) {
    match s
    case Field(_) => BothNodes(a, b)
    case Pool(_) => SameLength(a, b) && PoolMode(a.elems) && PoolList(a.elems) && PoolList(b.elems)
    case Place(_) => SameLength(a, b) && !PoolMode(a.elems)
  }

  predicate SameLength(a: Value, b: Value) {
    a.List? && b.List? && |a.elems| == |b.elems|
  }

  predicate SomeChild(a: Value, b: Value, s: Step) {
    Child(a, s).Some? || Child(b, s).Some?
  }

  predicate BothChildren(a: Value, b: Value, s: Step) {
    Child(a, s).Some? && Child(b, s).Some?
  }

  /** The walk gets to these steps: both sides hold everything above the last one. */
  predicate Walked(path: string, a: Value, b: Value, steps: seq<Step>)
    decreases |steps|
  {
    steps == [] ||
    (&& Paired(a, b, steps[0]) && !Excluded(path) && SomeChild(a, b, steps[0])
     && (steps[1..] == [] ||
         (&& BothChildren(a, b, steps[0])
          && Walked(Label(path, steps[0]), Child(a, steps[0]).value, Child(b, steps[0]).value, steps[1..]))))
  }

  predicate LeafPair(x: Value, y: Value) {
    !(x.Null? && y.Null?) && !BothNodes(x, y) && !(x.List? && y.List?)
  }

  /** What is said of two values that are compared and not taken apart. */
  predicate SaidOfBoth(c: Context, p: string, x: Value, y: Value, e: Event) {
    || (x == Null && y == Null && Expected(c) && e == Vacuous(p))
    || (LeafPair(x, y) && (Expected(c) || !IsEmpty(x) || !IsEmpty(y)) &&
        if LeafForm(x) == LeafForm(y) then e == Match(p) else e == Diff(p, x, y))
    || (x.List? && y.List? && |x.elems| != |y.elems| &&
        e == Diff(p + ".<length>", Int(|x.elems|), Int(|y.elems|)))
    || (SameLength(x, y) && PoolMode(x.elems) && !(PoolList(x.elems) && PoolList(y.elems)) && e == Crash(p))
  }

  predicate Said(c: Context, p: string, x: Option<Value>, y: Option<Value>, e: Event) {
    !Excluded(p) &&
    if x.Some? && y.Some? then SaidOfBoth(c, p, x.value, y.value, e)
    else (x.Some? || y.Some?) && Expected(c) && e == Absent(p, x.None?)
  }

  predicate SaidAt(c: Context, path: string, a: Value, b: Value, steps: seq<Step>, e: Event) {
    Said(c, PathText(path, steps), Follow(a, steps), Follow(b, steps), e)
  }

  predicate Observed(c: Context, path: string, a: Value, b: Value, steps: seq<Step>, e: Event) {
    Walked(path, a, b, steps) && SaidAt(c, path, a, b, steps, e)
  }

  // ---- One step --------------------------------------------------------------------------------------

  /** What is observed from one step on. */
  predicate ObservedFrom(c: Context, path: string, a: Value, b: Value, s: Step, rest: seq<Step>, e: Event) {
    && Paired(a, b, s) && !Excluded(path)
    && if BothChildren(a, b, s) then Observed(c, Label(path, s), Child(a, s).value, Child(b, s).value, rest, e)
       else rest == [] && Said(c, Label(path, s), Child(a, s), Child(b, s), e)
  }

  lemma ObservedCons(c: Context, path: string, a: Value, b: Value, s: Step, rest: seq<Step>, e: Event)
    ensures Observed(c, path, a, b, [s] + rest, e) <==> ObservedFrom(c, path, a, b, s, rest, e)
  {
    if BothChildren(a, b, s) {
      ConsBoth(c, path, a, b, s, rest, e);
    } else {
      ConsOne(c, path, a, b, s, rest, e);
    }
  }

  lemma ConsBoth(c: Context, path: string, a: Value, b: Value, s: Step, rest: seq<Step>, e: Event)
    requires BothChildren(a, b, s)
    ensures Observed(c, path, a, b, [s] + rest, e) <==>
            && Paired(a, b, s) && !Excluded(path)
            && Observed(c, Label(path, s), Child(a, s).value, Child(b, s).value, rest, e)
  {
    WalkedBoth(path, a, b, s, rest);
    SaidBelow(c, path, a, b, s, rest, e);
  }

  lemma WalkedBoth(path: string, a: Value, b: Value, s: Step, rest: seq<Step>)
    requires BothChildren(a, b, s)
    ensures Walked(path, a, b, [s] + rest) <==>
            && Paired(a, b, s) && !Excluded(path)
            && Walked(Label(path, s), Child(a, s).value, Child(b, s).value, rest)
  {
    assert ([s] + rest)[1..] == rest;
  }

  lemma ConsOne(c: Context, path: string, a: Value, b: Value, s: Step, rest: seq<Step>, e: Event)
    requires !BothChildren(a, b, s)
    ensures Observed(c, path, a, b, [s] + rest, e) <==>
            && Paired(a, b, s) && !Excluded(path)
            && rest == [] && Said(c, Label(path, s), Child(a, s), Child(b, s), e)
  {
    WalkedCons(path, a, b, s, rest);
    if rest == [] {
      SaidHere(c, path, a, b, s, e);
    }
  }

  lemma SaidBelow(c: Context, path: string, a: Value, b: Value, s: Step, rest: seq<Step>, e: Event)
    requires BothChildren(a, b, s)
    ensures SaidAt(c, path, a, b, [s] + rest, e) <==>
            SaidAt(c, Label(path, s), Child(a, s).value, Child(b, s).value, rest, e)
  {
    TextCons(path, s, rest);
    FollowCons(a, s, rest);
    FollowCons(b, s, rest);
  }

  lemma SaidHere(c: Context, path: string, a: Value, b: Value, s: Step, e: Event)
    ensures SaidAt(c, path, a, b, [s] + [], e) <==> Said(c, Label(path, s), Child(a, s), Child(b, s), e)
    ensures !SomeChild(a, b, s) ==> !Said(c, Label(path, s), Child(a, s), Child(b, s), e)
  {
    TextCons(path, s, []);
    TextCons(Label(path, s), s, []);
    FollowCons(a, s, []);
    FollowCons(b, s, []);
  }

  lemma TextCons(path: string, s: Step, rest: seq<Step>)
    ensures PathText(path, [s] + rest) == PathText(Label(path, s), rest)
    ensures PathText(path, []) == path
  {
    assert ([s] + rest)[1..] == rest;
  }

  lemma FollowCons(v: Value, s: Step, rest: seq<Step>)
    ensures Child(v, s).Some? ==> Follow(v, [s] + rest) == Follow(Child(v, s).value, rest)
    ensures Child(v, s).None? ==> Follow(v, [s] + rest) == None
    ensures rest == [] ==> Follow(v, [s] + rest) == Child(v, s)
  {
    assert ([s] + rest)[1..] == rest;
  }

  lemma WalkedCons(path: string, a: Value, b: Value, s: Step, rest: seq<Step>)
    ensures Walked(path, a, b, [s] + rest) <==>
            && Paired(a, b, s) && !Excluded(path) && SomeChild(a, b, s)
            && (rest == [] ||
                (BothChildren(a, b, s) && Walked(Label(path, s), Child(a, s).value, Child(b, s).value, rest)))
  {
    assert ([s] + rest)[1..] == rest;
  }

  function WalkStep(c: Context, path: string, a: Value, b: Value, s: Step): seq<Event>
    requires Paired(a, b, s)
  {
    match s
    case Field(k) => WalkKey(c, path, a, b, k)
    case Pool(id) => WalkPool(c, path, a, b, id)
    case Place(i) => if i < |a.elems| then WalkElem(c, path, a, b, i) else []
  }

  ghost predicate ObservedBelow(c: Context, path: string, a: Value, b: Value, s: Step, e: Event) {
    exists rest :: ObservedFrom(c, path, a, b, s, rest, e)
  }

  ghost predicate ObservedSomewhere(c: Context, path: string, a: Value, b: Value, e: Event) {
    exists steps :: Observed(c, path, a, b, steps, e)
  }

  lemma StepWalks(c: Context, path: string, a: Value, b: Value, s: Step)
    requires Paired(a, b, s)
    ensures BothChildren(a, b, s) ==>
              WalkStep(c, path, a, b, s) == Walk(c, Label(path, s), Child(a, s).value, Child(b, s).value)
    ensures !BothChildren(a, b, s) ==>
              WalkStep(c, path, a, b, s) ==
              if SomeChild(a, b, s) then Missing(c, Label(path, s), Child(a, s).None?) else []
  {
  }

  lemma {:induction false} StepObserved(c: Context, path: string, a: Value, b: Value, s: Step, e: Event)
    requires Paired(a, b, s) && !Excluded(path)
    ensures e in WalkStep(c, path, a, b, s) <==> ObservedBelow(c, path, a, b, s, e)
    decreases a, 0
  {
    StepWalks(c, path, a, b, s);
    if BothChildren(a, b, s) {
      var x, y := Child(a, s).value, Child(b, s).value;
      ChildSmaller(a, s);
      WalkObserved(c, Label(path, s), x, y, e);
      if rest :| Observed(c, Label(path, s), x, y, rest, e) {
        assert ObservedFrom(c, path, a, b, s, rest, e);
      }
    } else {
      assert e in WalkStep(c, path, a, b, s) <==> Said(c, Label(path, s), Child(a, s), Child(b, s), e);
      assert ObservedFrom(c, path, a, b, s, [], e) <==> Said(c, Label(path, s), Child(a, s), Child(b, s), e);
    }
  }

  lemma ChildSmaller(v: Value, s: Step)
    requires Child(v, s).Some?
    ensures Child(v, s).value < v
  {
  }

  // ---- Containers ------------------------------------------------------------------------------------

  ghost predicate StepHas(c: Context, path: string, a: Value, b: Value, s: Step, e: Event) {
    Paired(a, b, s) && e in WalkStep(c, path, a, b, s)
  }

  ghost predicate SomeStepHas(c: Context, path: string, a: Value, b: Value, e: Event) {
    exists s :: StepHas(c, path, a, b, s, e)
  }

  ghost predicate SomeOf(c: Context, path: string, a: Value, b: Value, steps: seq<Step>, n: nat, e: Event)
    requires n <= |steps|
  {
    exists i :: 0 <= i < n && StepHas(c, path, a, b, steps[i], e)
  }

  lemma SomeOfNext(c: Context, path: string, a: Value, b: Value, steps: seq<Step>, n: nat, e: Event)
    requires 0 < n <= |steps|
    ensures SomeOf(c, path, a, b, steps, n, e) <==>
            SomeOf(c, path, a, b, steps, n - 1, e) || StepHas(c, path, a, b, steps[n - 1], e)
  {
  }

  /** Events collected step by step hold what some step holds. */
  lemma Collected(
      c: Context, path: string, a: Value, b: Value, steps: seq<Step>, n: nat, before: seq<Event>, e: Event)
    requires 0 < n <= |steps| && Paired(a, b, steps[n - 1])
    requires e in before <==> SomeOf(c, path, a, b, steps, n - 1, e)
    ensures e in before + WalkStep(c, path, a, b, steps[n - 1]) <==> SomeOf(c, path, a, b, steps, n, e)
  {
    SomeOfNext(c, path, a, b, steps, n, e);
  }

  function Fields(ks: seq<string>): (r: seq<Step>)
    ensures |r| == |ks| && forall i | 0 <= i < |ks| :: r[i] == Field(ks[i])
  {
    seq(|ks|, i requires 0 <= i < |ks| => Field(ks[i]))
  }

  function PoolsOf(ids: seq<string>): (r: seq<Step>)
    ensures |r| == |ids| && forall i | 0 <= i < |ids| :: r[i] == Pool(ids[i])
  {
    seq(|ids|, i requires 0 <= i < |ids| => Pool(ids[i]))
  }

  function Places(n: nat): (r: seq<Step>)
    ensures |r| == n && forall i | 0 <= i < n :: r[i] == Place(i)
  {
    seq(n, i requires 0 <= i < n => Place(i))
  }

  lemma {:induction false} KeysHave(
      c: Context, path: string, a: Value, b: Value, ks: seq<string>, n: nat, e: Event)
    requires BothNodes(a, b) && n <= |ks|
    ensures e in WalkKeys(c, path, a, b, ks, n) <==> SomeOf(c, path, a, b, Fields(ks), n, e)
    decreases n
  {
    if n > 0 {
      KeysHave(c, path, a, b, ks, n - 1, e);
      Collected(c, path, a, b, Fields(ks), n, WalkKeys(c, path, a, b, ks, n - 1), e);
    }
  }

  lemma NodesHave(c: Context, path: string, a: Value, b: Value, e: Event)
    requires BothNodes(a, b)
    ensures var ks := Sorted(a.entries.Keys + b.entries.Keys);
            e in WalkKeys(c, path, a, b, ks, |ks|) <==> SomeStepHas(c, path, a, b, e)
  {
    var ks := Sorted(a.entries.Keys + b.entries.Keys);
    KeysHave(c, path, a, b, ks, |ks|, e);
    if s :| StepHas(c, path, a, b, s, e) {
      assert s.name in a.entries.Keys + b.entries.Keys;
      var i :| 0 <= i < |ks| && ks[i] == s.name;
      assert Fields(ks)[i] == s;
    }
  }

  lemma {:induction false} PoolsHave(
      c: Context, path: string, a: Value, b: Value, ids: seq<string>, n: nat, e: Event)
    requires Paired(a, b, Pool("")) && n <= |ids|
    ensures e in WalkPools(c, path, a, b, ids, n) <==> SomeOf(c, path, a, b, PoolsOf(ids), n, e)
    decreases n
  {
    if n > 0 {
      PoolsHave(c, path, a, b, ids, n - 1, e);
      Collected(c, path, a, b, PoolsOf(ids), n, WalkPools(c, path, a, b, ids, n - 1), e);
    }
  }

  lemma PoolListsHave(c: Context, path: string, a: Value, b: Value, e: Event)
    requires Paired(a, b, Pool(""))
    ensures var ids := Sorted(Ids(a.elems) + Ids(b.elems));
            e in WalkPools(c, path, a, b, ids, |ids|) <==> SomeStepHas(c, path, a, b, e)
  {
    var ids := Sorted(Ids(a.elems) + Ids(b.elems));
    PoolsHave(c, path, a, b, ids, |ids|, e);
    if s :| StepHas(c, path, a, b, s, e) {
      assert s.id in Ids(a.elems) + Ids(b.elems);
      var i :| 0 <= i < |ids| && ids[i] == s.id;
      assert PoolsOf(ids)[i] == s;
    }
  }

  lemma {:induction false} ElemsHave(c: Context, path: string, a: Value, b: Value, n: nat, e: Event)
    requires Paired(a, b, Place(0)) && n <= |a.elems|
    ensures e in WalkElems(c, path, a, b, n) <==> SomeOf(c, path, a, b, Places(|a.elems|), n, e)
    decreases n
  {
    if n > 0 {
      ElemsHave(c, path, a, b, n - 1, e);
      Collected(c, path, a, b, Places(|a.elems|), n, WalkElems(c, path, a, b, n - 1), e);
    }
  }

  lemma SequencesHave(c: Context, path: string, a: Value, b: Value, e: Event)
    requires Paired(a, b, Place(0))
    ensures e in WalkElems(c, path, a, b, |a.elems|) <==> SomeStepHas(c, path, a, b, e)
  {
    ElemsHave(c, path, a, b, |a.elems|, e);
    if s :| StepHas(c, path, a, b, s, e) {
      assert Places(|a.elems|)[s.index] == s;
    }
  }

  predicate Container(a: Value, b: Value) {
    Paired(a, b, Field("")) || Paired(a, b, Pool("")) || Paired(a, b, Place(0))
  }

  lemma ContainerHas(c: Context, path: string, a: Value, b: Value, e: Event)
    requires Container(a, b) && !Excluded(path)
    ensures e in Walk(c, path, a, b) <==> SomeStepHas(c, path, a, b, e)
  {
    if BothNodes(a, b) {
      WalksKeys(c, path, a, b);
      NodesHave(c, path, a, b, e);
    } else if PoolMode(a.elems) {
      WalksPools(c, path, a, b);
      PoolListsHave(c, path, a, b, e);
    } else {
      WalksElems(c, path, a, b);
      SequencesHave(c, path, a, b, e);
    }
  }

  lemma WalksKeys(c: Context, path: string, a: Value, b: Value)
    requires BothNodes(a, b) && !Excluded(path)
    ensures var ks := Sorted(a.entries.Keys + b.entries.Keys);
            Walk(c, path, a, b) == WalkKeys(c, path, a, b, ks, |ks|)
  {
    if IsEmpty(a) && IsEmpty(b) {
      assert a.entries.Keys + b.entries.Keys == {};
    }
  }

  lemma WalksPools(c: Context, path: string, a: Value, b: Value)
    requires Paired(a, b, Pool("")) && !Excluded(path)
    ensures var ids := Sorted(Ids(a.elems) + Ids(b.elems));
            Walk(c, path, a, b) == WalkPools(c, path, a, b, ids, |ids|)
  {
  }

  lemma WalksElems(c: Context, path: string, a: Value, b: Value)
    requires Paired(a, b, Place(0)) && !Excluded(path)
    ensures Walk(c, path, a, b) == WalkElems(c, path, a, b, |a.elems|)
  {
  }

  lemma LeafHas(c: Context, path: string, a: Value, b: Value, e: Event)
    requires !Container(a, b) && !Excluded(path)
    ensures e in Walk(c, path, a, b) <==> SaidOfBoth(c, path, a, b, e)
  {
  }

  // ---- Every observation -----------------------------------------------------------------------------

  ghost predicate BelowSomeStep(c: Context, path: string, a: Value, b: Value, e: Event) {
    exists s :: ObservedBelow(c, path, a, b, s, e)
  }

  lemma ObservedHere(c: Context, path: string, a: Value, b: Value, e: Event)
    requires !Excluded(path)
    ensures Observed(c, path, a, b, [], e) <==> SaidOfBoth(c, path, a, b, e)
  {
    assert PathText(path, []) == path && Follow(a, []) == Some(a) && Follow(b, []) == Some(b);
  }

  lemma ObservedSplits(c: Context, path: string, a: Value, b: Value, steps: seq<Step>, e: Event)
    requires Observed(c, path, a, b, steps, e) && !Excluded(path)
    ensures SaidOfBoth(c, path, a, b, e) || BelowSomeStep(c, path, a, b, e)
  {
    if steps == [] {
      ObservedHere(c, path, a, b, e);
    } else {
      assert steps == [steps[0]] + steps[1..];
      ObservedCons(c, path, a, b, steps[0], steps[1..], e);
      assert ObservedBelow(c, path, a, b, steps[0], e);
    }
  }

  lemma BelowIsSomewhere(c: Context, path: string, a: Value, b: Value, e: Event)
    requires BelowSomeStep(c, path, a, b, e)
    ensures ObservedSomewhere(c, path, a, b, e)
  {
    var s :| ObservedBelow(c, path, a, b, s, e);
    var rest :| ObservedFrom(c, path, a, b, s, rest, e);
    ObservedCons(c, path, a, b, s, rest, e);
  }

  lemma SomewhereIff(c: Context, path: string, a: Value, b: Value, e: Event)
    requires !Excluded(path)
    ensures ObservedSomewhere(c, path, a, b, e) <==> SaidOfBoth(c, path, a, b, e) || BelowSomeStep(c, path, a, b, e)
  {
    if steps :| Observed(c, path, a, b, steps, e) {
      ObservedSplits(c, path, a, b, steps, e);
    }
    ObservedHere(c, path, a, b, e);
    if BelowSomeStep(c, path, a, b, e) {
      BelowIsSomewhere(c, path, a, b, e);
    }
  }

  lemma {:induction false} StepsObserved(c: Context, path: string, a: Value, b: Value, e: Event)
    requires !Excluded(path)
    ensures SomeStepHas(c, path, a, b, e) <==> BelowSomeStep(c, path, a, b, e)
    decreases a, 1
  {
    forall s | Paired(a, b, s)
      ensures StepHas(c, path, a, b, s, e) <==> ObservedBelow(c, path, a, b, s, e)
    {
      StepObserved(c, path, a, b, s, e);
    }
  }

  /**
   The walk records exactly what holds at the positions it gets to: a match or
   the two values in order, an absence with the side that lacks the position.
   */
  lemma {:induction false} WalkObserved(c: Context, path: string, a: Value, b: Value, e: Event)
    ensures e in Walk(c, path, a, b) <==> ObservedSomewhere(c, path, a, b, e)
    decreases a, 2
  {
    if Excluded(path) {
      NothingObserved(c, path, a, b, e);
    } else {
      SomewhereIff(c, path, a, b, e);
      StepsObserved(c, path, a, b, e);
      HereOrBelow(c, path, a, b, e);
    }
  }

  lemma HereOrBelow(c: Context, path: string, a: Value, b: Value, e: Event)
    requires !Excluded(path)
    ensures e in Walk(c, path, a, b) <==> SaidOfBoth(c, path, a, b, e) || SomeStepHas(c, path, a, b, e)
  {
    if Container(a, b) {
      ContainerHas(c, path, a, b, e);
      SaidOfLeaves(c, path, a, b, e);
    } else {
      LeafHas(c, path, a, b, e);
      NoSteps(a, b);
    }
  }

  lemma SaidOfLeaves(c: Context, path: string, a: Value, b: Value, e: Event)
    requires Container(a, b)
    ensures !SaidOfBoth(c, path, a, b, e)
  {
  }

  lemma NothingObserved(c: Context, path: string, a: Value, b: Value, e: Event)
    requires Excluded(path)
    ensures !ObservedSomewhere(c, path, a, b, e)
  {
  }

  lemma NoSteps(a: Value, b: Value)
    requires !Container(a, b)
    ensures forall s :: !Paired(a, b, s)
  {
  }

  // ---- Whole epochs ----------------------------------------------------------------------------------

  function Top(v: Value, k: string): Option<Value> {
    Child(v, Field(k))
  }

  /** A position of two dumps: a top-level key, then steps below it when both hold the key. */
  predicate EpochObserved(era: string, a: Value, b: Value, k: string, steps: seq<Step>, e: Event) {
    if Top(a, k).Some? && Top(b, k).Some? then Observed(Context(k, era), k, Top(a, k).value, Top(b, k).value, steps, e)
    else steps == [] && Said(Context(k, era), k, Top(a, k), Top(b, k), e)
  }

  ghost predicate EpochObserves(era: string, a: Value, b: Value, e: Event) {
    exists k, steps :: EpochObserved(era, a, b, k, steps, e)
  }

  lemma KeyObserved(era: string, a: Value, b: Value, k: string, e: Event)
    requires a.Dict? && b.Dict?
    ensures e in EpochKey(era, a, b, k) <==> exists steps :: EpochObserved(era, a, b, k, steps, e)
  {
    var c := Context(k, era);
    if k in a.entries && k in b.entries {
      WalkObserved(c, k, a.entries[k], b.entries[k], e);
      if steps :| Observed(c, k, a.entries[k], b.entries[k], steps, e) {
        assert EpochObserved(era, a, b, k, steps, e);
      }
    } else {
      assert e in EpochKey(era, a, b, k) <==> EpochObserved(era, a, b, k, [], e);
    }
  }

  lemma {:induction false} EpochKeysHave(era: string, a: Value, b: Value, ks: seq<string>, n: nat, e: Event)
    requires a.Dict? && b.Dict? && n <= |ks| && e in EpochKeys(era, a, b, ks, n)
    ensures exists k :: KeyHas(era, a, b, k, e)
    decreases n
  {
    if n > 0 {
      KeysHaveNext(era, a, b, ks, n, e);
      if !KeyHas(era, a, b, ks[n - 1], e) {
        EpochKeysHave(era, a, b, ks, n - 1, e);
      }
    }
  }

  /** A comparison of two dumps records exactly what holds at the positions it gets to. */
  lemma ComparisonObserved(era: string, a: Value, b: Value, e: Event)
    requires a.Dict? && b.Dict?
    ensures e in CompareEpoch(era, a, b) <==> EpochObserves(era, a, b, e)
  {
    var ks := Sorted(a.entries.Keys + b.entries.Keys);
    if e in CompareEpoch(era, a, b) {
      EpochKeysHave(era, a, b, ks, |ks|, e);
      var k :| KeyHas(era, a, b, k, e);
      KeyObserved(era, a, b, k, e);
    }
    if k, steps :| EpochObserved(era, a, b, k, steps, e) {
      KeyObserved(era, a, b, k, e);
      KeyIsObserved(era, a, b, k, e);
    }
  }

  // ---- The counters ----------------------------------------------------------------------------------

  lemma {:induction false} ListedDiffs(es: seq<Event>, key: string, x: Value, y: Value)
    ensures (x, y) in DiffsAt(es, key) <==> exists p :: Collapse(p) == key && Diff(p, x, y) in es
    decreases |es|
  {
    if es != [] {
      var n := |es| - 1;
      ListedDiffs(es[..n], key, x, y);
      assert es == es[..n] + [es[n]];
    }
  }

  lemma {:induction false} ListedAbsences(es: seq<Event>, key: string, first: bool)
    ensures first in AbsencesAt(es, key) <==> exists p :: Collapse(p) == key && Absent(p, first) in es
    decreases |es|
  {
    if es != [] {
      var n := |es| - 1;
      ListedAbsences(es[..n], key, first);
      assert es == es[..n] + [es[n]];
    }
  }

  predicate NoCrash(es: seq<Event>) {
    forall i | 0 <= i < |es| :: !es[i].Crash?
  }

  /** From empty counters, a pair is kept under a shape exactly when some position of that shape holds it. */
  lemma DiffsRecorded(era: string, a: Value, b: Value, key: string, x: Value, y: Value)
    requires a.Dict? && b.Dict? && NoCrash(CompareEpoch(era, a, b))
    ensures (x, y) in Kept(CountAll(NOTHING_COUNTED, CompareEpoch(era, a, b)).diffs, key) <==>
            exists p :: Collapse(p) == key && EpochObserves(era, a, b, Diff(p, x, y))
  {
    CountersAre(CompareEpoch(era, a, b), key);
    ListedDiffs(CompareEpoch(era, a, b), key, x, y);
    forall p ensures Diff(p, x, y) in CompareEpoch(era, a, b) <==> EpochObserves(era, a, b, Diff(p, x, y)) {
      ComparisonObserved(era, a, b, Diff(p, x, y));
    }
  }

  /** An absence is kept exactly when one side, the one named, lacks a position of the era. */
  lemma AbsencesRecorded(era: string, a: Value, b: Value, key: string, first: bool)
    requires a.Dict? && b.Dict? && NoCrash(CompareEpoch(era, a, b))
    ensures first in Kept(CountAll(NOTHING_COUNTED, CompareEpoch(era, a, b)).absent, key) <==>
            exists p :: Collapse(p) == key && EpochObserves(era, a, b, Absent(p, first))
  {
    CountersAre(CompareEpoch(era, a, b), key);
    ListedAbsences(CompareEpoch(era, a, b), key, first);
    forall p ensures Absent(p, first) in CompareEpoch(era, a, b) <==> EpochObserves(era, a, b, Absent(p, first)) {
      ComparisonObserved(era, a, b, Absent(p, first));
    }
  }

  // ---- Shapes ----------------------------------------------------------------------------------------

  /** A path with indices and ids left out. */
  function ShapeText(path: string, steps: seq<Step>): string
    decreases |steps|
  {
    if steps == [] then path
    else ShapeText(path + if steps[0].Field? then "." + steps[0].name else "[]", steps[1..])
  }

  predicate Tidy(s: Step) {
    (s.Field? ==> NoBracket(s.name)) && (s.Pool? ==> ']' !in s.id)
  }

  lemma LabelShape(path: string, s: Step)
    requires Closed(path) && Tidy(s)
    ensures Closed(Label(path, s))
    ensures Collapse(Label(path, s)) == Collapse(path) + if s.Field? then "." + s.name else "[]"
  {
    match s {
      case Field(k) =>
        CollapseSuffix(path, "." + k);
        ClosedConcat(path, "." + k);
        assert path + "." + k == path + ("." + k);
      case Pool(id) => ItemShape(path, id);
      case Place(i) => ItemShape(path, NatText(i));
    }
  }

  lemma ItemShape(path: string, id: string)
    requires Closed(path) && ']' !in id
    ensures Closed(path + "[" + id + "]") && Collapse(path + "[" + id + "]") == Collapse(path) + "[]"
  {
    Bracketed(path, id);
    ItemAppended(path, "[" + id + "]", id);
  }

  lemma Bracketed(path: string, id: string)
    ensures path + "[" + id + "]" == path + ("[" + id + "]")
  {
  }

  lemma ItemAppended(path: string, item: string, id: string)
    requires Closed(path) && ']' !in id && item == "[" + id + "]"
    ensures Closed(path + item) && Collapse(path + item) == Collapse(path) + "[]"
  {
    CollapseItem(id);
    ClosedConcat(path, item);
    CollapseConcat(path, item);
  }

  /** The key of a position under the counters is its path with indices and ids left out. */
  lemma {:induction false} KeyIsShape(path: string, steps: seq<Step>)
    requires Closed(path) && forall i | 0 <= i < |steps| :: Tidy(steps[i])
    ensures Collapse(PathText(path, steps)) == ShapeText(Collapse(path), steps)
    decreases |steps|
  {
    if steps != [] {
      LabelShape(path, steps[0]);
      KeyIsShape(Label(path, steps[0]), steps[1..]);
    }
  }
}
