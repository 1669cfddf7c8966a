/**
 The summary of one epoch dump, and the reduction of a dump file in place.
 Reduction must be invisible to the comparison, which only sees summaries.
 */
module Summaries {
  import opened Wrappers
  import opened Ordering
  import opened Digests
  import opened CanonTexts

  const LARGE_MAP_THRESHOLD := 500

  const DIGEST := "__digest__"
  const RELAY := "__relay__"

  predicate Digestable(key: Option<string>) {
    key == Some("stake") || key == Some("delegations")
  }

  /** Integers and strings; booleans are excluded. */
  predicate DigestScalar(v: Value) {
    v.Int? || v.Str? || v.Sha?
  }

  predicate Flat(m: map<string, Value>) {
    forall k | k in m :: DigestScalar(m[k])
  }

  predicate Number(v: Value) {
    v.Int? || v.Float?
  }

  // ---- Relays ---------------------------------------------------------------------

  function Lower(s: string): (r: string)
    ensures |r| == |s|
  {
    if s == "" then ""
    else
      var c := s[0];
      [if 'A' <= c <= 'Z' then (c as int + 32) as char else c] + Lower(s[1..])
  }

  /** White space, of which names are stripped. */
  predicate Blank(c: char) {
    c == ' ' || '\t' <= c <= '\r' || '\U{001C}' <= c <= '\U{001F}'
  }

  function StripLeft(s: string): (r: string)
    ensures |r| <= |s|
  {
    if s != "" && Blank(s[0]) then StripLeft(s[1..]) else s
  }

  function StripRight(s: string): (r: string)
    ensures |r| <= |s|
  {
    if s != "" && Blank(s[|s| - 1]) then StripRight(s[..|s| - 1]) else s
  }

  /** The relay variant a spelling names. */
  function RelayTag(spelling: string): (r: Option<string>)
    ensures r.Some? ==> |spelling| >= 13
  {
    var s := Lower(StripRight(StripLeft(spelling)));
    if s == "single host address" || s == "singlehostaddr" || s == "singlehostaddress" then Some("singlehostaddr")
    else if s == "single host name" || s == "singlehostname" then Some("singlehostname")
    else if s == "multi host name" || s == "multihostname" then Some("multihostname")
    else None
  }

  /** Field names folded to lower case, over a sorted key list. */
  function FoldKeys(ks: seq<string>, d: map<string, Value>): map<string, Value>
    requires Covers(d, ks)
  {
    if ks == [] then map[] else FoldKeys(ks[..|ks| - 1], d)[Lower(ks[|ks| - 1]) := d[ks[|ks| - 1]]]
  }

  function RelayFields(d: map<string, Value>, skip: set<string>): map<string, Value> {
    FoldKeys(Sorted(d.Keys - skip), d)
  }

  /** Two field names differ only in case: the tool raises an error. */
  predicate CaseCollision(d: map<string, Value>, skip: set<string>) {
    exists j, k | j in d.Keys - skip && k in d.Keys - skip :: j != k && Lower(j) == Lower(k)
  }

  datatype RelayShape =
    | NoRelay
    | Wrapped(key: string, tag: string)
    | Tagged(tag: string)

  /** A one-key wrapper naming the variant, or a flat map with a `type`. */
  function ShapeOf(m: map<string, Value>): RelayShape {
    if |m| == 1 then
      var k := Sorted(m.Keys)[0];
      (match RelayTag(k)
       case Some(tag) => if m[k].Dict? then Wrapped(k, tag) else NoRelay
       case None => NoRelay)
    else if "type" in m && m["type"].Str? then
      (match RelayTag(m["type"].s)
       case Some(tag) => Tagged(tag)
       case None => NoRelay)
    else NoRelay
  }

  lemma WrappedKey(m: map<string, Value>)
    requires ShapeOf(m).Wrapped?
    ensures ShapeOf(m).key in m && m[ShapeOf(m).key].Dict? && m.Keys == {ShapeOf(m).key}
    ensures !Digestable(Some(ShapeOf(m).key))
  {
    var k := Sorted(m.Keys)[0];
    assert |m.Keys| == 1;
    assert |m.Keys - {k}| == 0;
  }

  function CanonRelay(m: map<string, Value>): map<string, Value>
    requires !ShapeOf(m).NoRelay?
  {
    match ShapeOf(m)
    case Wrapped(k, tag) =>
      WrappedKey(m);
      map[RELAY := Str(tag)] + RelayFields(m[k].entries, {})
    case Tagged(tag) => map[RELAY := Str(tag)] + RelayFields(m, {"type"})
  }

  // ---- Summaries -------------------------------------------------------------------

  /** An integral float is rendered as an integer, at any depth. */
  function Fold(v: Value): Value {
    match v
    case Float(r) => if r == r.Floor as real then Int(r.Floor) else v
    case List(xs) => List(FoldEach(xs))
    case Dict(m) => Dict(map k | k in m :: Fold(m[k]))
    case _ => v
  }

  function FoldEach(xs: seq<Value>): (r: seq<Value>)
    ensures |r| == |xs| && forall i | 0 <= i < |xs| :: r[i] == Fold(xs[i])
  {
    if xs == [] then [] else FoldEach(xs[..|xs| - 1]) + [Fold(xs[|xs| - 1])]
  }

  function Amount(v: Value): Double {
    if v.Int? then IntAsReal(v.n) else if v.Float? then v.r else IntAsReal(0)
  }

  function RealSum(ks: seq<string>, m: map<string, Value>): Double
    requires Covers(m, ks)
  {
    if ks == [] then IntAsReal(0)
    else
      var x, rest := Amount(m[ks[0]]), RealSum(ks[1..], m);
      FractionSum(x, rest);
      x + rest
  }

  /** The total of a large map of numbers, if it is one. */
  function Total(m: map<string, Value>): Option<Value> {
    if AllInts(m) then Some(Int(Sum(m)))
    else if forall k | k in m :: Number(m[k]) then Some(Float(RealSum(Sorted(m.Keys), m)))
    else None
  }

  function LargeRecord(count: nat, input: HashInput, total: Option<Value>): map<string, Value> {
    var rec := map["__count__" := Int(count), DIGEST := Sha(input)];
    if total.Some? then rec["__sum__" := total.value] else rec
  }

  function FoldEntries(m: map<string, Value>): map<string, Value> {
    map k | k in m :: Fold(m[k])
  }

  /** Large maps become a record of their summarised entries; small ones lose the excluded key. */
  function Assemble(total: Option<Value>, slots: map<string, Value>, json: Renderer): map<string, Value> {
    if |slots| > LARGE_MAP_THRESHOLD then LargeRecord(|slots|, MapText(MapLines(FoldEntries(slots), json)), total)
    else slots - {"stakePercent"}
  }

  function Summarise(v: Value, key: Option<string>, json: Renderer): Value
    decreases v, 1
  {
    match v
    case Dict(m) =>
      if !ShapeOf(m).NoRelay? then Dict(CanonRelay(m))
      else if DIGEST in m then v
      else if Digestable(key) && Flat(m) then Dict(DigestRecord(m, json))
      else Dict(Assemble(Total(m), Slots(v, json), json))
    case List(xs) =>
      var each := SummariseEach(xs, json);
      if |xs| > LARGE_MAP_THRESHOLD then Dict(LargeRecord(|xs|, BagText(BagLines(FoldEach(each), json)), None))
      else List(each)
    case _ => v
  }

  /** The summaries of a dictionary's entries, each under its own key. */
  function Slots(v: Value, json: Renderer): (r: map<string, Value>)
    requires v.Dict?
    ensures r.Keys == v.entries.Keys
    decreases v, 0
  {
    map k | k in v.entries :: Summarise(v.entries[k], Some(k), json)
  }

  function SummariseEach(xs: seq<Value>, json: Renderer): (r: seq<Value>)
    ensures |r| == |xs| && forall i | 0 <= i < |xs| :: r[i] == Summarise(xs[i], None, json)
    decreases xs, 0
  {
    if xs == [] then [] else SummariseEach(xs[..|xs| - 1], json) + [Summarise(xs[|xs| - 1], None, json)]
  }

  // ---- Reduction --------------------------------------------------------------------

  /** The entry `k: v` of a dump is a raw digestable map. */
  predicate Target(k: string, v: Value) {
    Digestable(Some(k)) && v.Dict? && DIGEST !in v.entries && v.entries != map[] && Flat(v.entries)
  }

  function Reduce(v: Value, json: Renderer): Value
    decreases v, 1
  {
    match v
    case Dict(_) => Dict(ReduceEntries(v, json))
    case List(xs) => List(ReduceEach(xs, json))
    case _ => v
  }

  function ReduceEntries(v: Value, json: Renderer): (r: map<string, Value>)
    requires v.Dict?
    ensures r.Keys == v.entries.Keys
    decreases v, 0
  {
    map k | k in v.entries :: ReduceSlot(k, v.entries[k], json)
  }

  function ReduceSlot(k: string, v: Value, json: Renderer): Value
    decreases v, 2
  {
    if Target(k, v) then Dict(DigestRecord(v.entries, json)) else Reduce(v, json)
  }

  function ReduceEach(xs: seq<Value>, json: Renderer): (r: seq<Value>)
    ensures |r| == |xs| && forall i | 0 <= i < |xs| :: r[i] == Reduce(xs[i], json)
    decreases xs, 0
  {
    if xs == [] then [] else ReduceEach(xs[..|xs| - 1], json) + [Reduce(xs[|xs| - 1], json)]
  }

  /** Reduction of a value that sits under a key, or under none. */
  function ReduceAt(key: Option<string>, v: Value, json: Renderer): Value {
    match key
    case Some(k) => ReduceSlot(k, v, json)
    case None => Reduce(v, json)
  }

  // ---- What reduction leaves alone ------------------------------------------------

  lemma ReduceSlotKind(k: string, v: Value, json: Renderer)
    ensures v.Dict? <==> ReduceSlot(k, v, json).Dict?
    ensures !v.Dict? && !v.List? ==> ReduceSlot(k, v, json) == v
    ensures DigestScalar(v) <==> DigestScalar(ReduceSlot(k, v, json))
    ensures Number(v) <==> Number(ReduceSlot(k, v, json))
    ensures v.Str? <==> ReduceSlot(k, v, json).Str?
  {
  }

  lemma ReducedShape(m: map<string, Value>, json: Renderer)
    ensures var m' := ReduceEntries(Dict(m), json);
            m'.Keys == m.Keys && |m'| == |m| && ShapeOf(m') == ShapeOf(m)
  {
    var m' := ReduceEntries(Dict(m), json);
    assert m'.Keys == m.Keys;
    assert |m'| == |m'.Keys| && |m| == |m.Keys|;
    forall k | k in m
      ensures (m[k].Dict? <==> m'[k].Dict?) && (m[k].Str? <==> m'[k].Str?) && (m[k].Str? ==> m'[k] == m[k])
    {
      assert m'[k] == ReduceSlot(k, m[k], json);
      ReduceSlotKind(k, m[k], json);
    }
  }

  lemma ReducedFlat(m: map<string, Value>, json: Renderer)
    ensures Flat(ReduceEntries(Dict(m), json)) <==> Flat(m)
  {
    var m' := ReduceEntries(Dict(m), json);
    forall k | k in m ensures k in m' && (DigestScalar(m[k]) <==> DigestScalar(m'[k])) {
      assert m'[k] == ReduceSlot(k, m[k], json);
      ReduceSlotKind(k, m[k], json);
    }
  }

  lemma ReducedTotal(m: map<string, Value>, json: Renderer)
    ensures Total(ReduceEntries(Dict(m), json)) == Total(m)
  {
    var m' := ReduceEntries(Dict(m), json);
    forall k | k in m ensures k in m' && (Number(m[k]) <==> Number(m'[k])) && (Number(m[k]) ==> m'[k] == m[k]) {
      assert m'[k] == ReduceSlot(k, m[k], json);
      ReduceSlotKind(k, m[k], json);
    }
    if forall k | k in m :: Number(m[k]) {
      assert m' == m;
    }
  }

  lemma RecordSummary(m: map<string, Value>, key: Option<string>, json: Renderer)
    ensures Summarise(Dict(DigestRecord(m, json)), key, json) == Dict(DigestRecord(m, json))
  {
    var rec := DigestRecord(m, json);
    assert "type" !in rec by { assert "type"[0] != "__count__"[0]; }
    assert |"__count__"| != |DIGEST|;
    assert |rec| >= 2 && DIGEST in rec;
  }

  // ---- When reduction is invisible ---------------------------------------------------

  /**
   No relay and no ready-made digest record that the summary passes on unread
   holds a raw digestable map, and no digestable map looks like a relay.
   */
  ghost predicate Safe(v: Value, key: Option<string>)
    decreases v, 1
  {
    match v
    case Dict(m) =>
      if key.Some? && Target(key.value, v) then ShapeOf(m).NoRelay?
      else if !ShapeOf(m).NoRelay? || DIGEST in m then Untouched(v)
      else if |m| > LARGE_MAP_THRESHOLD then forall k | k in m :: Safe(m[k], Some(k))
      else forall k | k in m && k != "stakePercent" :: Safe(m[k], Some(k))
    case List(xs) => forall i | 0 <= i < |xs| :: Safe(xs[i], None)
    case _ => true
  }

  /** There is no raw digestable map anywhere inside. */
  predicate Untouched(v: Value)
    decreases v
  {
    match v
    case Dict(m) => forall k | k in m :: !Target(k, m[k]) && Untouched(m[k])
    case List(xs) => forall i | 0 <= i < |xs| :: Untouched(xs[i])
    case _ => true
  }

  lemma {:induction false} UntouchedIffFixed(v: Value, json: Renderer)
    ensures Untouched(v) <==> Reduce(v, json) == v
    decreases v
  {
    match v {
      case Dict(m) =>
        var m' := ReduceEntries(v, json);
        forall k | k in m ensures m'[k] == m[k] <==> !Target(k, m[k]) && Untouched(m[k]) {
          assert m'[k] == ReduceSlot(k, m[k], json);
          UntouchedIffFixed(m[k], json);
        }
        if Untouched(v) { assert m' == m; }
      case List(xs) =>
        forall i | 0 <= i < |xs| ensures Reduce(xs[i], json) == xs[i] <==> Untouched(xs[i]) {
          UntouchedIffFixed(xs[i], json);
        }
        if Untouched(v) { assert ReduceEach(xs, json) == xs; }
      case _ =>
    }
  }

  lemma SummariseOrdinary(m: map<string, Value>, key: Option<string>, json: Renderer)
    requires ShapeOf(m).NoRelay? && DIGEST !in m && !(Digestable(key) && Flat(m))
    ensures Summarise(Dict(m), key, json) == Dict(Assemble(Total(m), Slots(Dict(m), json), json))
  {
  }

  lemma SummariseLong(xs: seq<Value>, key: Option<string>, json: Renderer)
    requires |xs| > LARGE_MAP_THRESHOLD
    ensures Summarise(List(xs), key, json) ==
            Dict(LargeRecord(|xs|, BagText(BagLines(FoldEach(SummariseEach(xs, json)), json)), None))
  {
  }

  lemma SummariseShort(xs: seq<Value>, key: Option<string>, json: Renderer)
    requires |xs| <= LARGE_MAP_THRESHOLD
    ensures Summarise(List(xs), key, json) == List(SummariseEach(xs, json))
  {
  }

  lemma SummariseDigestable(m: map<string, Value>, key: Option<string>, json: Renderer)
    requires ShapeOf(m).NoRelay? && DIGEST !in m && Digestable(key) && Flat(m)
    ensures Summarise(Dict(m), key, json) == Dict(DigestRecord(m, json))
  {
  }

  lemma SummariseList(xs: seq<Value>, xs': seq<Value>, key: Option<string>, json: Renderer)
    requires |xs| == |xs'| && forall i | 0 <= i < |xs| :: Summarise(xs'[i], None, json) == Summarise(xs[i], None, json)
    ensures Summarise(List(xs'), key, json) == Summarise(List(xs), key, json)
  {
    assert SummariseEach(xs', json) == SummariseEach(xs, json);
  }

  lemma ReduceAtIs(key: Option<string>, v: Value, json: Renderer)
    ensures ReduceAt(key, v, json) ==
            if key.Some? && Target(key.value, v) then Dict(DigestRecord(v.entries, json)) else Reduce(v, json)
    ensures !v.Dict? && !v.List? ==> ReduceAt(key, v, json) == v
  {
  }

  /** Reducing a safe dump does not change its summary. */
  lemma {:induction false} ReduceInvisible(v: Value, key: Option<string>, json: Renderer)
    requires Safe(v, key)
    ensures Summarise(ReduceAt(key, v, json), key, json) == Summarise(v, key, json)
    decreases v
  {
    ReduceAtIs(key, v, json);
    match v {
      case Dict(m) =>
        if key.Some? && Target(key.value, v) {
          SummariseDigestable(m, key, json);
          RecordSummary(m, key, json);
        } else if !ShapeOf(m).NoRelay? || DIGEST in m {
          UntouchedIffFixed(v, json);
        } else {
          ReduceInvisibleDict(m, key, json);
        }
      case List(xs) =>
        var xs' := ReduceEach(xs, json);
        forall i | 0 <= i < |xs| ensures Summarise(xs'[i], None, json) == Summarise(xs[i], None, json) {
          ReduceInvisible(xs[i], None, json);
        }
        SummariseList(xs, xs', key, json);
      case _ =>
    }
  }

  lemma {:induction false} ReduceInvisibleDict(m: map<string, Value>, key: Option<string>, json: Renderer)
    requires Safe(Dict(m), key)
    requires ShapeOf(m).NoRelay? && DIGEST !in m && !(key.Some? && Target(key.value, Dict(m)))
    ensures Summarise(Reduce(Dict(m), json), key, json) == Summarise(Dict(m), key, json)
    decreases Dict(m), 0
  {
    var m' := ReduceEntries(Dict(m), json);
    if Digestable(key) && Flat(m) {
      assert m == map[] && m' == m;
    } else {
      var slots, slots' := Slots(Dict(m), json), Slots(Dict(m'), json);
      forall k | k in slots && (|slots.Keys| > LARGE_MAP_THRESHOLD || k != "stakePercent")
        ensures slots'[k] == slots[k]
      {
        assert m'[k] == ReduceSlot(k, m[k], json);
        ReduceInvisible(m[k], Some(k), json);
      }
      ReducedAssembles(m, key, json);
    }
  }

  lemma ReducedAssembles(m: map<string, Value>, key: Option<string>, json: Renderer)
    requires ShapeOf(m).NoRelay? && DIGEST !in m && !(Digestable(key) && Flat(m))
    requires var slots, slots' := Slots(Dict(m), json), Slots(Dict(ReduceEntries(Dict(m), json)), json);
             forall k | k in slots && (|slots.Keys| > LARGE_MAP_THRESHOLD || k != "stakePercent") ::
               slots'[k] == slots[k]
    ensures Summarise(Reduce(Dict(m), json), key, json) == Summarise(Dict(m), key, json)
  {
    var m' := ReduceEntries(Dict(m), json);
    ReducedShape(m, json);
    ReducedFlat(m, json);
    ReducedTotal(m, json);
    SummariseOrdinary(m, key, json);
    SummariseOrdinary(m', key, json);
    SameSlotsSameSummary(Total(m), Slots(Dict(m), json), Slots(Dict(m'), json), json);
  }

  lemma SameSlotsSameSummary(
      total: Option<Value>, slots: map<string, Value>, slots': map<string, Value>, json: Renderer)
    requires slots'.Keys == slots.Keys
    requires forall k | k in slots && (|slots.Keys| > LARGE_MAP_THRESHOLD || k != "stakePercent") ::
               slots'[k] == slots[k]
    ensures Assemble(total, slots', json) == Assemble(total, slots, json)
  {
    assert |slots| == |slots.Keys| && |slots'| == |slots'.Keys|;
    if |slots| > LARGE_MAP_THRESHOLD {
      assert slots' == slots;
    } else {
      assert slots' - {"stakePercent"} == slots - {"stakePercent"};
    }
  }

  // ---- Relays and records -----------------------------------------------------------------

  /** The summary raises an error: some relay it reaches has names differing only in case. */
  ghost predicate Raises(v: Value, key: Option<string>)
    decreases v
  {
    match v
    case Dict(m) =>
      if ShapeOf(m).Wrapped? then m[ShapeOf(m).key].Dict? && CaseCollision(m[ShapeOf(m).key].entries, {})
      else if ShapeOf(m).Tagged? then CaseCollision(m, {"type"})
      else if DIGEST in m || (Digestable(key) && Flat(m)) then false
      else exists k | k in m && (|m| > LARGE_MAP_THRESHOLD || k != "stakePercent") :: Raises(m[k], Some(k))
    case List(xs) => exists i | 0 <= i < |xs| :: Raises(xs[i], None)
    case _ => false
  }

  lemma CanonWrapped(m: map<string, Value>, k: string, tag: string)
    requires ShapeOf(m) == Wrapped(k, tag) && k in m && m[k].Dict?
    ensures CanonRelay(m) == map[RELAY := Str(tag)] + RelayFields(m[k].entries, {})
  {
  }

  lemma WrappedReduced(m: map<string, Value>, k: string, json: Renderer)
    requires k in m && m[k].Dict? && !Digestable(Some(k))
    ensures k in ReduceEntries(Dict(m), json) && ReduceEntries(Dict(m), json)[k] == Dict(ReduceEntries(m[k], json))
  {
    assert ReduceEntries(Dict(m), json)[k] == ReduceSlot(k, m[k], json);
    assert ReduceSlot(k, m[k], json) == Reduce(m[k], json) == Dict(ReduceEntries(m[k], json));
  }

  lemma RecordKeys()
    ensures RELAY !in {"__count__", "__digest__", "__sum__"}
    ensures DIGEST != "__count__" && DIGEST != "__sum__" && "__count__" != "__sum__"
    ensures "stakePercent" != RELAY && "stakePercent" != DIGEST
  {
    assert RELAY[2] != "__count__"[2] && RELAY[2] != "__digest__"[2] && RELAY[2] != "__sum__"[2];
    assert |DIGEST| != |"__count__"| && |DIGEST| != |"__sum__"| && |"__count__"| != |"__sum__"|;
    assert "stakePercent"[0] != RELAY[0] && "stakePercent"[0] != DIGEST[0];
  }

  lemma RelayKeyIsNew(m: map<string, Value>, d: map<string, Value>, json: Renderer)
    requires !ShapeOf(m).NoRelay?
    ensures RELAY in CanonRelay(m) && RELAY !in DigestRecord(d, json)
  {
    RecordKeys();
  }

  lemma SummariseRelay(m: map<string, Value>, key: Option<string>, json: Renderer)
    requires !ShapeOf(m).NoRelay?
    ensures Summarise(Dict(m), key, json) == Dict(CanonRelay(m))
  {
  }

  lemma SummariseReady(m: map<string, Value>, key: Option<string>, json: Renderer)
    requires ShapeOf(m).NoRelay? && DIGEST in m
    ensures Summarise(Dict(m), key, json) == Dict(m)
  {
  }

  lemma LargeRecordDigest(count: nat, input: HashInput, total: Option<Value>)
    ensures DIGEST in LargeRecord(count, input, total) && LargeRecord(count, input, total)[DIGEST] == Sha(input)
  {
    RecordKeys();
  }

  // ---- The in-place walk of the source --------------------------------------------------

  /** Visits every entry, replacing raw digestable maps, and reports whether it changed anything. */
  method ReduceObj(obj: Value, json: Renderer) returns (obj': Value, changed: bool)
    ensures obj' == Reduce(obj, json)
    ensures changed <==> !Untouched(obj)
    decreases obj, 1
  {
    match obj {
      case Dict(_) => obj', changed := ReduceDict(obj, json);
      case List(_) => obj', changed := ReduceList(obj, json);
      case _ => obj', changed := obj, false;
    }
  }

  predicate Kept(k: string, v: Value) {
    !Target(k, v) && Untouched(v)
  }

  ghost predicate AllKept(m: map<string, Value>, ks: seq<string>, n: nat)
    requires n <= |ks| && Covers(m, ks)
  {
    forall j | 0 <= j < n :: Kept(ks[j], m[ks[j]])
  }

  /** The first `n` listed keys have been reduced. */
  ghost predicate ReducedUpTo(m: map<string, Value>, m': map<string, Value>, ks: seq<string>, n: nat, json: Renderer)
    requires Covers(m, ks)
  {
    m'.Keys == m.Keys &&
    forall j | 0 <= j < |ks| ::
      ks[j] in m' && m'[ks[j]] == if j < n then ReduceSlot(ks[j], m[ks[j]], json) else m[ks[j]]
  }

  lemma ReducedNext(m: map<string, Value>, m': map<string, Value>, ks: seq<string>, i: nat, json: Renderer)
    requires i < |ks| && StrictlySorted(ks) && Covers(m, ks) && ReducedUpTo(m, m', ks, i, json)
    ensures ReducedUpTo(m, m'[ks[i] := ReduceSlot(ks[i], m[ks[i]], json)], ks, i + 1, json)
  {
  }

  lemma AllKeptNext(m: map<string, Value>, ks: seq<string>, i: nat)
    requires i < |ks| && Covers(m, ks)
    ensures AllKept(m, ks, i + 1) <==> AllKept(m, ks, i) && Kept(ks[i], m[ks[i]])
  {
  }

  method ReduceDict(obj: Value, json: Renderer) returns (obj': Value, changed: bool)
    requires obj.Dict?
    ensures obj' == Reduce(obj, json)
    ensures changed <==> !Untouched(obj)
    decreases obj, 0
  {
    var m := obj.entries;
    var ks := Sorted(m.Keys);
    var m' := m;
    changed := false;
    var i := 0;
    while i < |ks|
      invariant 0 <= i <= |ks|
      invariant ReducedUpTo(m, m', ks, i, json)
      invariant changed <==> !AllKept(m, ks, i)
    {
      var v', c := ReduceEntry(ks[i], m[ks[i]], json);
      ReducedNext(m, m', ks, i, json);
      AllKeptNext(m, ks, i);
      m' := m'[ks[i] := v'];
      changed := changed || c;
      i := i + 1;
    }
    DictReduced(m, m', ks, json);
    DictKept(m, ks);
    obj' := Dict(m');
  }

  method ReduceEntry(k: string, v: Value, json: Renderer) returns (v': Value, changed: bool)
    ensures v' == ReduceSlot(k, v, json)
    ensures changed <==> !Kept(k, v)
    decreases v, 2
  {
    if Target(k, v) {
      var rec := DigestOfMap(v.entries, json);
      return Dict(rec), true;
    }
    v', changed := ReduceObj(v, json);
  }

  method ReduceList(obj: Value, json: Renderer) returns (obj': Value, changed: bool)
    requires obj.List?
    ensures obj' == Reduce(obj, json)
    ensures changed <==> !Untouched(obj)
    decreases obj, 0
  {
    var xs := obj.elems;
    var xs' := xs;
    changed := false;
    var i := 0;
    while i < |xs|
      invariant 0 <= i <= |xs| && |xs'| == |xs|
      invariant forall j | 0 <= j < |xs| :: xs'[j] == if j < i then Reduce(xs[j], json) else xs[j]
      invariant !changed <==> forall j | 0 <= j < i :: Untouched(xs[j])
    {
      var v', c := ReduceObj(xs[i], json);
      xs' := xs'[i := v'];
      changed := changed || c;
      i := i + 1;
    }
    assert xs' == ReduceEach(xs, json);
    obj' := List(xs');
  }

  lemma DictReduced(m: map<string, Value>, m': map<string, Value>, ks: seq<string>, json: Renderer)
    requires Lists(ks, m.Keys) && ReducedUpTo(m, m', ks, |ks|, json)
    ensures Dict(m') == Reduce(Dict(m), json)
  {
    var r := ReduceEntries(Dict(m), json);
    forall k | k in m ensures m'[k] == r[k] {
      var j :| 0 <= j < |ks| && ks[j] == k;
      assert r[k] == ReduceSlot(k, m[k], json);
    }
    assert m' == r;
  }

  lemma DictKept(m: map<string, Value>, ks: seq<string>)
    requires Lists(ks, m.Keys)
    ensures Untouched(Dict(m)) <==> AllKept(m, ks, |ks|)
  {
    if AllKept(m, ks, |ks|) {
      forall k | k in m ensures !Target(k, m[k]) && Untouched(m[k]) {
        var j :| 0 <= j < |ks| && ks[j] == k;
        assert Kept(ks[j], m[ks[j]]);
      }
    }
  }
}
