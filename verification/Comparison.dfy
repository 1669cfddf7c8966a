/**
 The leaf-by-leaf comparison of two epoch dumps, and what a clean comparison
 proves about them.
 */
module Comparisons {
  import opened Wrappers
  import opened Ordering
  import opened Decimals
  import opened Rationals
  import opened Digests
  import opened PathShapes

  // ---- Eras --------------------------------------------------------------------

  function EraIndex(name: string): int {
    if name == "Byron" then 0
    else if name == "Shelley" then 1
    else if name == "Allegra" then 2
    else if name == "Mary" then 3
    else if name == "Alonzo" then 4
    else if name == "Babbage" then 5
    else if name == "Conway" then 6
    else if name == "Dijkstra" then 7
    else -1
  }

  const BYRON_ONLY_KEYS := {"utxo", "byronDelegation", "byronProtocolParams", "byronUpdateEpoch", "lastSlot"}

  const SHELLEY_ONWARD_KEYS := {
    "activeStake", "commonProtocolParams", "deposits", "epochFees", "eta", "expectedBlocks", "poolDistribution",
    "protocolParams", "reserves", "rupdApplied", "rupdNext", "snapshots", "totalPools", "totalStake", "treasury"}

  /** Is a top-level key expected to carry a value in this era? */
  predicate Applicable(top: string, era: string) {
    var i := EraIndex(era);
    if top == "conwayGov" then i >= 6
    else if top == "instantaneousRewards" then 1 <= i <= 5
    else if top == "epochNonce" then i >= 1
    else if top in BYRON_ONLY_KEYS then i == 0
    else if top in SHELLEY_ONWARD_KEYS then i >= 1
    else if top == "eraProtocolParams" then i >= 4
    else true
  }

  // ---- Paths -------------------------------------------------------------------

  /** The text after the last dot. */
  function LastSegment(path: string): string {
    if path == "" || path[|path| - 1] == '.' then ""
    else LastSegment(path[..|path| - 1]) + [path[|path| - 1]]
  }

  predicate Excluded(path: string) {
    LastSegment(path) == "stakePercent"
  }

  function KeyPath(path: string, k: string): string {
    path + "." + k
  }

  function ItemPath(path: string, item: string): string {
    path + "[" + item + "]"
  }

  lemma {:induction false} KeyPathSegment(path: string, k: string)
    ensures LastSegment(KeyPath(path, k)) == LastSegment(k)
  {
    var full := KeyPath(path, k);
    if k != "" {
      assert full[|full| - 1] == k[|k| - 1];
      assert full[..|full| - 1] == KeyPath(path, k[..|k| - 1]);
      KeyPathSegment(path, k[..|k| - 1]);
    } else {
      assert full[|full| - 1] == '.';
    }
  }

  lemma ItemPathNotExcluded(path: string, item: string)
    ensures !Excluded(ItemPath(path, item))
  {
    var full := ItemPath(path, item);
    assert full[|full| - 1] == ']';
    var seg := LastSegment(full);
    assert seg[|seg| - 1] == ']';
    assert "stakePercent"[11] == 't' && |"stakePercent"| == 12;
  }

  // ---- Leaves -------------------------------------------------------------------

  predicate RationalShape(m: map<string, Value>) {
    m.Keys == {"numerator", "denominator"}
  }

  function AsInt(v: Value): Option<int> {
    match v
    case Int(n) => Some(n)
    case Bool(b) => Some(if b then 1 else 0)
    case _ => None
  }

  /** Equality of host values: numbers compare by value across their types. */
  function Plain(v: Value): Value {
    match v
    case Bool(b) => Float(IntAsReal(if b then 1 else 0))
    case Int(n) => Float(IntAsReal(n))
    case List(xs) => List(PlainEach(xs))
    case Dict(m) => Dict(map k | k in m :: Plain(m[k]))
    case _ => v
  }

  function PlainEach(xs: seq<Value>): (r: seq<Value>)
    ensures |r| == |xs| && forall i | 0 <= i < |xs| :: r[i] == Plain(xs[i])
  {
    if xs == [] then [] else PlainEach(xs[..|xs| - 1]) + [Plain(xs[|xs| - 1])]
  }

  /** The canonical form of a tree: what the comparison cares about. */
  datatype Form =
    | Leaf(value: Value)
    | Rational(n: int, d: int)
    | Node(fields: map<string, Form>)
    | Sequence(elems: seq<Form>)
    | Pools(count: nat, byId: map<string, Form>)

  /** A leaf after normalisation: rationals in lowest terms, other values up to number type. */
  function LeafForm(v: Value): Form {
    if v.Dict? && RationalShape(v.entries) then
      var n, d := AsInt(v.entries["numerator"]), AsInt(v.entries["denominator"]);
      if n.Some? && d.Some? && d.value != 0 then
        var (p, q) := Lowest(n.value, d.value);
        Rational(p, q)
      else Leaf(Plain(v))
    else Leaf(Plain(v))
  }

  // ---- Pool lists -----------------------------------------------------------------

  predicate IsPool(v: Value) {
    v.Dict? && "poolId" in v.entries && v.entries["poolId"].Str?
  }

  /** The first element decides whether elements are matched by pool id. */
  predicate PoolMode(xs: seq<Value>) {
    xs != [] && xs[0].Dict? && "poolId" in xs[0].entries
  }

  predicate PoolList(xs: seq<Value>) {
    xs != [] && forall i | 0 <= i < |xs| :: IsPool(xs[i])
  }

  function PoolId(v: Value): string
    requires IsPool(v)
  {
    v.entries["poolId"].s
  }

  function Ids(xs: seq<Value>): set<string>
    requires forall i | 0 <= i < |xs| :: IsPool(xs[i])
  {
    set i | 0 <= i < |xs| :: PoolId(xs[i])
  }

  /** Later elements with the same id overwrite earlier ones. */
  function LastWithId(xs: seq<Value>, id: string): (v: Value)
    requires forall i | 0 <= i < |xs| :: IsPool(xs[i])
    requires id in Ids(xs)
    ensures v in xs && IsPool(v) && PoolId(v) == id
  {
    var n := |xs| - 1;
    if PoolId(xs[n]) == id then xs[n]
    else
      assert id in Ids(xs[..n]) by {
        var i :| 0 <= i < |xs| && PoolId(xs[i]) == id;
        assert xs[..n][i] == xs[i];
      }
      LastWithId(xs[..n], id)
  }

  /** Every list led by a pool consists of pools with textual ids. */
  predicate WellPooled(v: Value)
    decreases v
  {
    match v
    case Dict(m) => forall k | k in m :: WellPooled(m[k])
    case List(xs) => (PoolMode(xs) ==> PoolList(xs)) && forall i | 0 <= i < |xs| :: WellPooled(xs[i])
    case _ => true
  }

  // ---- Canonical forms -----------------------------------------------------------------

  function FormOf(v: Value): Form
    decreases v, 1
  {
    match v
    case Dict(m) => if RationalShape(m) then LeafForm(v) else Node(FieldForms(v))
    case List(xs) => if PoolList(xs) then Pools(|xs|, PoolForms(v)) else Sequence(ElemForms(xs))
    case _ => LeafForm(v)
  }

  function FieldForms(v: Value): (r: map<string, Form>)
    requires v.Dict?
    decreases v, 0
  {
    map k | k in v.entries && !Excluded(k) :: FormOf(v.entries[k])
  }

  function PoolForms(v: Value): (r: map<string, Form>)
    requires v.List? && PoolList(v.elems)
    ensures r.Keys == Ids(v.elems)
    decreases v, 0
  {
    map id | id in Ids(v.elems) :: FormOf(LastWithId(v.elems, id))
  }

  function ElemForms(xs: seq<Value>): (r: seq<Form>)
    ensures |r| == |xs| && forall i | 0 <= i < |xs| :: r[i] == FormOf(xs[i])
    decreases xs, 0
  {
    if xs == [] then [] else ElemForms(xs[..|xs| - 1]) + [FormOf(xs[|xs| - 1])]
  }

  // ---- The walk ---------------------------------------------------------------------------

  datatype Event =
    | Match(path: string)
    | Diff(path: string, a: Value, b: Value)
    | Absent(path: string, fromDugite: bool)
    | Vacuous(path: string)
    | Crash(path: string)

  predicate IsEmpty(v: Value) {
    v.Null? || v == Dict(map[]) || v == List([])
  }

  predicate BothNodes(a: Value, b: Value) {
    a.Dict? && b.Dict? && !RationalShape(a.entries) && !RationalShape(b.entries)
  }

  function LeafEvent(path: string, a: Value, b: Value): Event {
    if LeafForm(a) == LeafForm(b) then Match(path) else Diff(path, a, b)
  }

  datatype Context = Context(top: string, era: string)

  predicate Expected(c: Context) {
    Applicable(c.top, c.era)
  }

  /** The observations of comparing two present subtrees. */
  function Walk(c: Context, path: string, a: Value, b: Value): seq<Event>
    decreases a, 1
  {
    if Excluded(path) then []
    else if !Expected(c) && IsEmpty(a) && IsEmpty(b) then []
    else if a.Null? && b.Null? then [Vacuous(path)]
    else if BothNodes(a, b) then
      var ks := Sorted(a.entries.Keys + b.entries.Keys);
      WalkKeys(c, path, a, b, ks, |ks|)
    else if a.List? && b.List? then
      if |a.elems| != |b.elems| then [Diff(path + ".<length>", Int(|a.elems|), Int(|b.elems|))]
      else if !PoolMode(a.elems) then WalkElems(c, path, a, b, |a.elems|)
      else if PoolList(a.elems) && PoolList(b.elems) then
        var ids := Sorted(Ids(a.elems) + Ids(b.elems));
        WalkPools(c, path, a, b, ids, |ids|)
      else [Crash(path)]
    else [LeafEvent(path, a, b)]
  }

  /** One side has the key and the other does not. */
  function Missing(c: Context, path: string, fromDugite: bool): seq<Event> {
    if Excluded(path) || !Expected(c) then [] else [Absent(path, fromDugite)]
  }

  function WalkKey(c: Context, path: string, a: Value, b: Value, k: string): seq<Event>
    requires a.Dict? && b.Dict?
    decreases a, 0, 0
  {
    var p := KeyPath(path, k);
    if k in a.entries && k in b.entries then Walk(c, p, a.entries[k], b.entries[k])
    else if k in a.entries || k in b.entries then Missing(c, p, k !in a.entries)
    else []
  }

  function WalkKeys(c: Context, path: string, a: Value, b: Value, ks: seq<string>, n: nat): seq<Event>
    requires a.Dict? && b.Dict? && n <= |ks|
    decreases a, 0, n
  {
    if n == 0 then [] else WalkKeys(c, path, a, b, ks, n - 1) + WalkKey(c, path, a, b, ks[n - 1])
  }

  function WalkPool(c: Context, path: string, a: Value, b: Value, id: string): seq<Event>
    requires a.List? && b.List? && PoolList(a.elems) && PoolList(b.elems)
    decreases a, 0, 0
  {
    var p := ItemPath(path, id);
    if id in Ids(a.elems) && id in Ids(b.elems) then Walk(c, p, LastWithId(a.elems, id), LastWithId(b.elems, id))
    else if id in Ids(a.elems) || id in Ids(b.elems) then Missing(c, p, id !in Ids(a.elems))
    else []
  }

  function WalkPools(c: Context, path: string, a: Value, b: Value, ids: seq<string>, n: nat): seq<Event>
    requires a.List? && b.List? && PoolList(a.elems) && PoolList(b.elems) && n <= |ids|
    decreases a, 0, n
  {
    if n == 0 then [] else WalkPools(c, path, a, b, ids, n - 1) + WalkPool(c, path, a, b, ids[n - 1])
  }

  function WalkElems(c: Context, path: string, a: Value, b: Value, n: nat): seq<Event>
    requires a.List? && b.List? && n <= |a.elems| && n <= |b.elems|
    decreases a, 0, n
  {
    if n == 0 then []
    else WalkElems(c, path, a, b, n - 1) + WalkElem(c, path, a, b, n - 1)
  }

  function WalkElem(c: Context, path: string, a: Value, b: Value, i: nat): seq<Event>
    requires a.List? && b.List? && i < |a.elems| && i < |b.elems|
    decreases a, 0, 0
  {
    Walk(c, ItemPath(path, NatText(i)), a.elems[i], b.elems[i])
  }

  // ---- Clean comparisons ----------------------------------------------------------------

  predicate Good(e: Event) {
    e.Match? || e.Vacuous?
  }

  /** No difference, no one-sided absence, no crash. */
  ghost predicate Clean(es: seq<Event>) {
    forall i | 0 <= i < |es| :: Good(es[i])
  }

  lemma CleanConcat(a: seq<Event>, b: seq<Event>)
    ensures Clean(a + b) <==> Clean(a) && Clean(b)
  {
    if Clean(a + b) {
      forall i | 0 <= i < |a| ensures Good(a[i]) { assert Good((a + b)[i]); }
      forall i | 0 <= i < |b| ensures Good(b[i]) { assert Good((a + b)[|a| + i]); }
    }
  }

  lemma CleanOne(e: Event)
    ensures Clean([e]) <==> Good(e)
  {
    assert [e][0] == e;
  }

  // ---- Agreement ---------------------------------------------------------------------------

  /**
   What a walk without findings says of two trees.  Where the key belongs to the
   era (`strict`) nothing may be missing on one side; elsewhere a missing part is
   excused, and so are two parts that both say nothing.
   */
  ghost predicate Alike(strict: bool, a: Value, b: Value)
    decreases a, 2
  {
    if !strict && IsEmpty(a) && IsEmpty(b) then true
    else if BothNodes(a, b) then AlikeNodes(strict, a, b)
    else if a.List? && b.List? then AlikeLists(strict, a, b)
    else LeafForm(a) == LeafForm(b)
  }

  ghost predicate AlikeNodes(strict: bool, a: Value, b: Value)
    requires a.Dict? && b.Dict?
    decreases a, 1
  {
    forall k | k in a.entries.Keys + b.entries.Keys :: AlikeKey(strict, a, b, k)
  }

  ghost predicate AlikeKey(strict: bool, a: Value, b: Value, k: string)
    requires a.Dict? && b.Dict?
    decreases a, 0
  {
    || Excluded(k)
    || if k in a.entries && k in b.entries then Alike(strict, a.entries[k], b.entries[k])
       else !strict || (k !in a.entries && k !in b.entries)
  }

  /** Pool lists are matched by id, other lists by position. */
  ghost predicate AlikeLists(strict: bool, a: Value, b: Value)
    requires a.List? && b.List?
    decreases a, 1
  {
    |a.elems| == |b.elems| &&
    if !PoolMode(a.elems) then forall i | 0 <= i < |a.elems| :: AlikeElem(strict, a, b, i)
    else
      && PoolList(a.elems) && PoolList(b.elems)
      && forall id | id in Ids(a.elems) + Ids(b.elems) :: AlikePool(strict, a, b, id)
  }

  ghost predicate AlikeElem(strict: bool, a: Value, b: Value, i: nat)
    requires a.List? && b.List? && i < |a.elems| && i < |b.elems|
    decreases a, 0
  {
    Alike(strict, a.elems[i], b.elems[i])
  }

  ghost predicate AlikePool(strict: bool, a: Value, b: Value, id: string)
    requires a.List? && b.List? && PoolList(a.elems) && PoolList(b.elems)
    decreases a, 0
  {
    if id in Ids(a.elems) && id in Ids(b.elems) then
      Alike(strict, LastWithId(a.elems, id), LastWithId(b.elems, id))
    else !strict || (id !in Ids(a.elems) && id !in Ids(b.elems))
  }

  /** The walk, with its paths, orders and observations, is clean exactly when the trees agree. */
  lemma {:induction false} WalkCleanIffAlike(c: Context, path: string, a: Value, b: Value)
    requires !Excluded(path)
    ensures Clean(Walk(c, path, a, b)) <==> Alike(Expected(c), a, b)
    decreases a, 3
  {
    if !Expected(c) && IsEmpty(a) && IsEmpty(b) {
    } else if a.Null? && b.Null? {
      CleanOne(Vacuous(path));
    } else if BothNodes(a, b) {
      NodesClean(c, path, a, b);
    } else if a.List? && b.List? {
      ListsClean(c, path, a, b);
    } else {
      CleanOne(LeafEvent(path, a, b));
    }
  }

  lemma MissingClean(c: Context, path: string, fromDugite: bool)
    requires !Excluded(path)
    ensures Clean(Missing(c, path, fromDugite)) <==> !Expected(c)
  {
    CleanOne(Absent(path, fromDugite));
  }

  lemma {:induction false} NodesClean(c: Context, path: string, a: Value, b: Value)
    requires a.Dict? && b.Dict?
    ensures var ks := Sorted(a.entries.Keys + b.entries.Keys);
            Clean(WalkKeys(c, path, a, b, ks, |ks|)) <==> AlikeNodes(Expected(c), a, b)
    decreases a, 2
  {
    var ks := Sorted(a.entries.Keys + b.entries.Keys);
    KeysClean(c, path, a, b, ks, |ks|);
    if AlikeKeys(Expected(c), a, b, ks, |ks|) {
      forall k | k in a.entries.Keys + b.entries.Keys ensures AlikeKey(Expected(c), a, b, k) {
        var i :| 0 <= i < |ks| && ks[i] == k;
        assert AlikeKey(Expected(c), a, b, ks[i]);
      }
    }
  }

  ghost predicate AlikeKeys(strict: bool, a: Value, b: Value, ks: seq<string>, n: nat)
    requires a.Dict? && b.Dict? && n <= |ks|
  {
    forall i | 0 <= i < n :: AlikeKey(strict, a, b, ks[i])
  }

  lemma {:induction false} KeyClean(c: Context, path: string, a: Value, b: Value, k: string)
    requires a.Dict? && b.Dict?
    ensures Clean(WalkKey(c, path, a, b, k)) <==> AlikeKey(Expected(c), a, b, k)
    decreases a, 0
  {
    var p := KeyPath(path, k);
    KeyPathSegment(path, k);
    if k in a.entries && k in b.entries {
      if !Excluded(k) {
        WalkCleanIffAlike(c, p, a.entries[k], b.entries[k]);
      }
    } else if !Excluded(k) {
      MissingClean(c, p, k !in a.entries);
    }
  }

  lemma {:induction false} KeysClean(c: Context, path: string, a: Value, b: Value, ks: seq<string>, n: nat)
    requires a.Dict? && b.Dict? && n <= |ks|
    ensures Clean(WalkKeys(c, path, a, b, ks, n)) <==> AlikeKeys(Expected(c), a, b, ks, n)
    decreases a, 1, n
  {
    if n > 0 {
      KeysClean(c, path, a, b, ks, n - 1);
      KeyClean(c, path, a, b, ks[n - 1]);
      CleanConcat(WalkKeys(c, path, a, b, ks, n - 1), WalkKey(c, path, a, b, ks[n - 1]));
      AlikeKeysSnoc(Expected(c), a, b, ks, n);
    }
  }

  lemma AlikeKeysSnoc(strict: bool, a: Value, b: Value, ks: seq<string>, n: nat)
    requires a.Dict? && b.Dict? && 0 < n <= |ks|
    ensures AlikeKeys(strict, a, b, ks, n) <==> AlikeKeys(strict, a, b, ks, n - 1) && AlikeKey(strict, a, b, ks[n - 1])
  {
  }

  lemma {:induction false} ListsClean(c: Context, path: string, a: Value, b: Value)
    requires !Excluded(path) && a.List? && b.List? && !(!Expected(c) && IsEmpty(a) && IsEmpty(b))
    ensures Clean(Walk(c, path, a, b)) <==> AlikeLists(Expected(c), a, b)
    decreases a, 2
  {
    if |a.elems| != |b.elems| {
      CleanOne(Diff(path + ".<length>", Int(|a.elems|), Int(|b.elems|)));
    } else if !PoolMode(a.elems) {
      ElemsClean(c, path, a, b, |a.elems|);
    } else if PoolList(a.elems) && PoolList(b.elems) {
      PoolsClean(c, path, a, b);
    } else {
      CleanOne(Crash(path));
    }
  }

  ghost predicate AlikeElems(strict: bool, a: Value, b: Value, n: nat)
    requires a.List? && b.List? && n <= |a.elems| && n <= |b.elems|
  {
    forall i | 0 <= i < n :: AlikeElem(strict, a, b, i)
  }

  lemma AlikeElemsSnoc(strict: bool, a: Value, b: Value, n: nat)
    requires a.List? && b.List? && 0 < n <= |a.elems| && n <= |b.elems|
    ensures AlikeElems(strict, a, b, n) <==> AlikeElems(strict, a, b, n - 1) && AlikeElem(strict, a, b, n - 1)
  {
  }

  lemma {:induction false} ElemsClean(c: Context, path: string, a: Value, b: Value, n: nat)
    requires a.List? && b.List? && n <= |a.elems| && n <= |b.elems|
    ensures Clean(WalkElems(c, path, a, b, n)) <==> AlikeElems(Expected(c), a, b, n)
    decreases a, 1, n
  {
    if n > 0 {
      ElemsClean(c, path, a, b, n - 1);
      ElemClean(c, path, a, b, n - 1);
      CleanConcat(WalkElems(c, path, a, b, n - 1), WalkElem(c, path, a, b, n - 1));
      AlikeElemsSnoc(Expected(c), a, b, n);
    }
  }

  lemma {:induction false} ElemClean(c: Context, path: string, a: Value, b: Value, i: nat)
    requires a.List? && b.List? && i < |a.elems| && i < |b.elems|
    ensures Clean(WalkElem(c, path, a, b, i)) <==> AlikeElem(Expected(c), a, b, i)
    decreases a, 0
  {
    ItemPathNotExcluded(path, NatText(i));
    WalkCleanIffAlike(c, ItemPath(path, NatText(i)), a.elems[i], b.elems[i]);
  }

  ghost predicate AlikePools(strict: bool, a: Value, b: Value, ids: seq<string>, n: nat)
    requires a.List? && b.List? && PoolList(a.elems) && PoolList(b.elems) && n <= |ids|
  {
    forall i | 0 <= i < n :: AlikePool(strict, a, b, ids[i])
  }

  lemma AlikePoolsSnoc(strict: bool, a: Value, b: Value, ids: seq<string>, n: nat)
    requires a.List? && b.List? && PoolList(a.elems) && PoolList(b.elems) && 0 < n <= |ids|
    ensures AlikePools(strict, a, b, ids, n) <==>
            AlikePools(strict, a, b, ids, n - 1) && AlikePool(strict, a, b, ids[n - 1])
  {
  }

  lemma {:induction false} PoolClean(c: Context, path: string, a: Value, b: Value, id: string)
    requires a.List? && b.List? && PoolList(a.elems) && PoolList(b.elems)
    ensures Clean(WalkPool(c, path, a, b, id)) <==> AlikePool(Expected(c), a, b, id)
    decreases a, 0, 0
  {
    var p := ItemPath(path, id);
    ItemPathNotExcluded(path, id);
    if id in Ids(a.elems) && id in Ids(b.elems) {
      WalkCleanIffAlike(c, p, LastWithId(a.elems, id), LastWithId(b.elems, id));
    } else {
      MissingClean(c, p, id !in Ids(a.elems));
    }
  }

  lemma {:induction false} PoolsUpTo(c: Context, path: string, a: Value, b: Value, ids: seq<string>, n: nat)
    requires a.List? && b.List? && PoolList(a.elems) && PoolList(b.elems) && n <= |ids|
    ensures Clean(WalkPools(c, path, a, b, ids, n)) <==> AlikePools(Expected(c), a, b, ids, n)
    decreases a, 0, n
  {
    if n > 0 {
      PoolsUpTo(c, path, a, b, ids, n - 1);
      PoolClean(c, path, a, b, ids[n - 1]);
      CleanConcat(WalkPools(c, path, a, b, ids, n - 1), WalkPool(c, path, a, b, ids[n - 1]));
      AlikePoolsSnoc(Expected(c), a, b, ids, n);
    }
  }

  lemma {:induction false} PoolsClean(c: Context, path: string, a: Value, b: Value)
    requires a.List? && b.List? && PoolList(a.elems) && PoolList(b.elems)
    ensures var ids := Sorted(Ids(a.elems) + Ids(b.elems));
            Clean(WalkPools(c, path, a, b, ids, |ids|)) <==>
            forall id | id in Ids(a.elems) + Ids(b.elems) :: AlikePool(Expected(c), a, b, id)
    decreases a, 1
  {
    var ids := Sorted(Ids(a.elems) + Ids(b.elems));
    PoolsUpTo(c, path, a, b, ids, |ids|);
    if AlikePools(Expected(c), a, b, ids, |ids|) {
      forall id | id in Ids(a.elems) + Ids(b.elems) ensures AlikePool(Expected(c), a, b, id) {
        var i :| 0 <= i < |ids| && ids[i] == id;
        assert AlikePool(Expected(c), a, b, ids[i]);
      }
    }
  }

  /** Agreement under an expected key is agreement anywhere. */
  lemma {:induction false} AlikeRelaxes(a: Value, b: Value)
    requires Alike(true, a, b)
    ensures Alike(false, a, b)
    decreases a, 1
  {
    if IsEmpty(a) && IsEmpty(b) {
    } else if BothNodes(a, b) {
      forall k | k in a.entries.Keys + b.entries.Keys ensures AlikeKey(false, a, b, k) {
        assert AlikeKey(true, a, b, k);
        if k in a.entries && k in b.entries && !Excluded(k) {
          AlikeRelaxes(a.entries[k], b.entries[k]);
        }
      }
    } else if a.List? && b.List? {
      ListsRelax(a, b);
    }
  }

  lemma {:induction false} ListsRelax(a: Value, b: Value)
    requires a.List? && b.List? && AlikeLists(true, a, b)
    ensures AlikeLists(false, a, b)
    decreases a, 0
  {
    if !PoolMode(a.elems) {
      forall i | 0 <= i < |a.elems| ensures AlikeElem(false, a, b, i) {
        assert AlikeElem(true, a, b, i);
        AlikeRelaxes(a.elems[i], b.elems[i]);
      }
    } else {
      forall id | id in Ids(a.elems) + Ids(b.elems) ensures AlikePool(false, a, b, id) {
        assert AlikePool(true, a, b, id);
        AlikeRelaxes(LastWithId(a.elems, id), LastWithId(b.elems, id));
      }
    }
  }

  // ---- Agreement and canonical forms --------------------------------------------------------

  lemma FieldFormAt(v: Value, k: string)
    requires v.Dict?
    ensures Get(FieldForms(v), k) == if k in v.entries && !Excluded(k) then Some(FormOf(v.entries[k])) else None
  {
  }

  lemma KeepsKind(v: Value)
    ensures v.Dict? <==> Plain(v).Dict?
    ensures v.List? <==> Plain(v).List?
    ensures v.Dict? ==> Plain(v).entries.Keys == v.entries.Keys
  {
  }

  /** Where the walk compares leaves, equal leaves are equal forms. */
  lemma LeafIffForm(a: Value, b: Value)
    requires !BothNodes(a, b) && !(a.List? && b.List?)
    ensures LeafForm(a) == LeafForm(b) <==> FormOf(a) == FormOf(b)
  {
    KeepsKind(a);
    KeepsKind(b);
  }

  /** An element that is no pool never looks like one. */
  lemma PoolIsSeen(a: Value, b: Value)
    requires IsPool(b) && !(a.Dict? && "poolId" in a.entries)
    ensures FormOf(a) != FormOf(b)
  {
    assert "poolId" !in {"numerator", "denominator"} by { assert |"poolId"| == 6; }
    assert !Excluded("poolId") by { PoolIdSegment(); }
    assert FormOf(b).Node?;
    FieldFormAt(b, "poolId");
    if a.Dict? {
      FieldFormAt(a, "poolId");
    }
  }

  lemma PoolIdSegment()
    ensures !Excluded("poolId")
  {
    SegmentLength("poolId");
    assert |"stakePercent"| == 12;
  }

  lemma {:induction false} SegmentLength(path: string)
    ensures |LastSegment(path)| <= |path|
  {
    if path != "" && path[|path| - 1] != '.' {
      SegmentLength(path[..|path| - 1]);
    }
  }

  /**
   Under an expected key, two trees agree exactly when they have the same
   canonical form: at every leaf up to normalisation, excluded keys and the
   order of pool lists.
   */
  lemma {:induction false} AlikeIffSameForm(a: Value, b: Value)
    requires WellPooled(a)
    ensures Alike(true, a, b) <==> FormOf(a) == FormOf(b)
    decreases a, 2
  {
    if BothNodes(a, b) {
      NodesIffForms(a, b);
    } else if a.List? && b.List? {
      ListsIffForms(a, b);
    } else {
      LeafIffForm(a, b);
    }
  }

  lemma {:induction false} KeyIffForms(a: Value, b: Value, k: string)
    requires a.Dict? && b.Dict? && WellPooled(a)
    ensures AlikeKey(true, a, b, k) <==> Get(FieldForms(a), k) == Get(FieldForms(b), k)
    decreases a, 0
  {
    FieldFormAt(a, k);
    FieldFormAt(b, k);
    if k in a.entries && k in b.entries {
      AlikeIffSameForm(a.entries[k], b.entries[k]);
    }
  }

  lemma {:induction false} NodesIffForms(a: Value, b: Value)
    requires a.Dict? && b.Dict? && WellPooled(a)
    ensures AlikeNodes(true, a, b) <==> FieldForms(a) == FieldForms(b)
    decreases a, 1
  {
    forall k ensures AlikeKey(true, a, b, k) <==> Get(FieldForms(a), k) == Get(FieldForms(b), k) {
      KeyIffForms(a, b, k);
    }
    if AlikeNodes(true, a, b) {
      forall k ensures Get(FieldForms(a), k) == Get(FieldForms(b), k) {
        assert k in a.entries.Keys + b.entries.Keys ==> AlikeKey(true, a, b, k);
        FieldFormAt(a, k);
        FieldFormAt(b, k);
      }
      MapsAgree(FieldForms(a), FieldForms(b));
    }
  }

  lemma {:induction false} ListsIffForms(a: Value, b: Value)
    requires a.List? && b.List? && WellPooled(a)
    ensures AlikeLists(true, a, b) <==> FormOf(a) == FormOf(b)
    decreases a, 1
  {
    if |a.elems| == |b.elems| {
      if !PoolMode(a.elems) {
        ElemsIffForms(a, b);
        SequencesDiffer(a, b);
      } else if PoolList(b.elems) {
        PoolsIffForms(a, b);
      }
    }
  }

  lemma {:induction false} ElemsIffForms(a: Value, b: Value)
    requires a.List? && b.List? && WellPooled(a) && |a.elems| == |b.elems|
    ensures AlikeElems(true, a, b, |a.elems|) <==> ElemForms(a.elems) == ElemForms(b.elems)
    decreases a, 0
  {
    SeqsEqualIff(ElemForms(a.elems), ElemForms(b.elems));
    forall i | 0 <= i < |a.elems|
      ensures ElemForms(a.elems)[i] == ElemForms(b.elems)[i] <==> AlikeElem(true, a, b, i)
    {
      AlikeIffSameForm(a.elems[i], b.elems[i]);
    }
  }

  /** A list that does not start with a pool never has the form of a pool list. */
  lemma SequencesDiffer(a: Value, b: Value)
    requires a.List? && b.List? && |a.elems| == |b.elems| && !PoolMode(a.elems)
    ensures ElemForms(a.elems) == ElemForms(b.elems) <==> FormOf(a) == FormOf(b)
  {
    if PoolList(b.elems) {
      PoolIsSeen(a.elems[0], b.elems[0]);
      assert ElemForms(a.elems)[0] != ElemForms(b.elems)[0];
    }
  }

  lemma {:induction false} PoolIffForms(a: Value, b: Value, id: string)
    requires a.List? && b.List? && WellPooled(a) && PoolList(a.elems) && PoolList(b.elems)
    ensures AlikePool(true, a, b, id) <==> Get(PoolForms(a), id) == Get(PoolForms(b), id)
    decreases a, 0, 0
  {
    if id in Ids(a.elems) && id in Ids(b.elems) {
      var x := LastWithId(a.elems, id);
      assert WellPooled(x) by { var i :| 0 <= i < |a.elems| && a.elems[i] == x; }
      AlikeIffSameForm(x, LastWithId(b.elems, id));
    }
  }

  lemma {:induction false} PoolsIffForms(a: Value, b: Value)
    requires a.List? && b.List? && WellPooled(a) && PoolList(a.elems) && PoolList(b.elems)
    ensures PoolForms(a) == PoolForms(b) <==>
            forall id | id in Ids(a.elems) + Ids(b.elems) :: AlikePool(true, a, b, id)
    decreases a, 0, 1
  {
    forall id ensures AlikePool(true, a, b, id) <==> Get(PoolForms(a), id) == Get(PoolForms(b), id) {
      PoolIffForms(a, b, id);
    }
    if forall id | id in Ids(a.elems) + Ids(b.elems) :: AlikePool(true, a, b, id) {
      forall id ensures Get(PoolForms(a), id) == Get(PoolForms(b), id) {
        assert id in Ids(a.elems) + Ids(b.elems) ==> AlikePool(true, a, b, id);
      }
      MapsAgree(PoolForms(a), PoolForms(b));
    }
  }

  /** Under an expected key the walk is clean exactly when both trees have the same form. */
  lemma WalkCleanIffSameForm(c: Context, path: string, a: Value, b: Value)
    requires Expected(c) && !Excluded(path) && WellPooled(a)
    ensures Clean(Walk(c, path, a, b)) <==> FormOf(a) == FormOf(b)
  {
    WalkCleanIffAlike(c, path, a, b);
    AlikeIffSameForm(a, b);
  }

  // ---- Comparing a dump with itself --------------------------------------------------------

  /** The number of leaves the comparison can see. */
  function Leaves(v: Value): nat
    decreases v, 1
  {
    match v
    case Dict(m) => if RationalShape(m) then 1 else KeyLeaves(v, Sorted(m.Keys), |m.Keys|)
    case List(xs) =>
      if PoolList(xs) then PoolLeaves(v, Sorted(Ids(xs)), |Ids(xs)|) else ElemLeaves(v, |xs|)
    case _ => 1
  }

  function KeyLeaves(v: Value, ks: seq<string>, n: nat): nat
    requires v.Dict? && n <= |ks|
    decreases v, 0, n
  {
    if n == 0 then 0
    else
      var k := ks[n - 1];
      KeyLeaves(v, ks, n - 1) + if k in v.entries && !Excluded(k) then Leaves(v.entries[k]) else 0
  }

  function PoolLeaves(v: Value, ids: seq<string>, n: nat): nat
    requires v.List? && PoolList(v.elems) && n <= |ids|
    decreases v, 0, n
  {
    if n == 0 then 0
    else PoolLeaves(v, ids, n - 1) + if ids[n - 1] in Ids(v.elems) then Leaves(LastWithId(v.elems, ids[n - 1])) else 0
  }

  function ElemLeaves(v: Value, n: nat): nat
    requires v.List? && n <= |v.elems|
    decreases v, 0, n
  {
    if n == 0 then 0 else ElemLeaves(v, n - 1) + Leaves(v.elems[n - 1])
  }

  /** A dump compared with itself is clean, and under an expected key every leaf is counted exactly once. */
  lemma SelfComparison(c: Context, path: string, v: Value)
    requires !Excluded(path) && WellPooled(v)
    ensures Clean(Walk(c, path, v, v))
    ensures Expected(c) ==> |Walk(c, path, v, v)| == Leaves(v)
  {
    WalkCleanIffAlike(c, path, v, v);
    AlikeIffSameForm(v, v);
    AlikeRelaxes(v, v);
    if Expected(c) {
      SelfCount(c, path, v);
    }
  }

  lemma {:induction false} SelfCount(c: Context, path: string, v: Value)
    requires Expected(c) && !Excluded(path) && WellPooled(v)
    ensures |Walk(c, path, v, v)| == Leaves(v)
    decreases v, 2
  {
    match v {
      case Dict(m) =>
        if !RationalShape(m) {
          assert m.Keys + m.Keys == m.Keys;
          SelfCountKeys(c, path, v, Sorted(m.Keys), |m.Keys|);
        }
      case List(xs) =>
        if PoolMode(xs) {
          assert Ids(xs) + Ids(xs) == Ids(xs);
          SelfCountPools(c, path, v, Sorted(Ids(xs)), |Ids(xs)|);
        } else {
          SelfCountElems(c, path, v, |xs|);
        }
      case _ =>
    }
  }

  lemma {:induction false} SelfCountKeys(c: Context, path: string, v: Value, ks: seq<string>, n: nat)
    requires Expected(c) && v.Dict? && WellPooled(v) && n <= |ks|
    ensures |WalkKeys(c, path, v, v, ks, n)| == KeyLeaves(v, ks, n)
    decreases v, 1, n
  {
    if n > 0 {
      var k := ks[n - 1];
      SelfCountKeys(c, path, v, ks, n - 1);
      SelfCountKey(c, path, v, k);
    }
  }

  lemma {:induction false} SelfCountKey(c: Context, path: string, v: Value, k: string)
    requires Expected(c) && v.Dict? && WellPooled(v)
    ensures |WalkKey(c, path, v, v, k)| == if k in v.entries && !Excluded(k) then Leaves(v.entries[k]) else 0
    decreases v, 0
  {
    KeyPathSegment(path, k);
    if k in v.entries && !Excluded(k) {
      SelfCount(c, KeyPath(path, k), v.entries[k]);
    }
  }

  lemma {:induction false} SelfCountPools(c: Context, path: string, v: Value, ids: seq<string>, n: nat)
    requires Expected(c) && v.List? && WellPooled(v) && PoolList(v.elems) && n <= |ids|
    ensures |WalkPools(c, path, v, v, ids, n)| == PoolLeaves(v, ids, n)
    decreases v, 1, n
  {
    if n > 0 {
      SelfCountPools(c, path, v, ids, n - 1);
      SelfCountPool(c, path, v, ids[n - 1]);
    }
  }

  lemma {:induction false} SelfCountPool(c: Context, path: string, v: Value, id: string)
    requires Expected(c) && v.List? && WellPooled(v) && PoolList(v.elems)
    ensures |WalkPool(c, path, v, v, id)| == if id in Ids(v.elems) then Leaves(LastWithId(v.elems, id)) else 0
    decreases v, 0
  {
    ItemPathNotExcluded(path, id);
    if id in Ids(v.elems) {
      var x := LastWithId(v.elems, id);
      assert WellPooled(x) by { var i :| 0 <= i < |v.elems| && v.elems[i] == x; }
      SelfCount(c, ItemPath(path, id), x);
    }
  }

  lemma {:induction false} SelfCountElems(c: Context, path: string, v: Value, n: nat)
    requires Expected(c) && v.List? && WellPooled(v) && n <= |v.elems|
    ensures |WalkElems(c, path, v, v, n)| == ElemLeaves(v, n)
    decreases v, 1, n
  {
    if n > 0 {
      SelfCountElems(c, path, v, n - 1);
      ItemPathNotExcluded(path, NatText(n - 1));
      SelfCount(c, ItemPath(path, NatText(n - 1)), v.elems[n - 1]);
    }
  }

  // ---- What equal forms mean -----------------------------------------------------------------

  predicate UniqueIds(xs: seq<Value>)
    requires PoolList(xs)
  {
    forall i, j | 0 <= i < j < |xs| :: PoolId(xs[i]) != PoolId(xs[j])
  }

  lemma {:induction false} LastIsOnly(xs: seq<Value>, i: nat)
    requires PoolList(xs) && UniqueIds(xs) && i < |xs|
    ensures PoolId(xs[i]) in Ids(xs) && LastWithId(xs, PoolId(xs[i])) == xs[i]
  {
    var id := PoolId(xs[i]);
    assert id in Ids(xs);
    var v := LastWithId(xs, id);
    var j :| 0 <= j < |xs| && xs[j] == v;
  }

  /** Pool `i` of one list has a partner with the same id and form in the other. */
  ghost predicate Partnered(xs: seq<Value>, ys: seq<Value>, i: nat)
    requires PoolList(xs) && PoolList(ys) && i < |xs|
  {
    exists j :: 0 <= j < |ys| && PoolId(ys[j]) == PoolId(xs[i]) && FormOf(ys[j]) == FormOf(xs[i])
  }

  lemma {:induction false} IdsCount(xs: seq<Value>)
    requires forall i | 0 <= i < |xs| :: IsPool(xs[i])
    requires forall i, j | 0 <= i < j < |xs| :: PoolId(xs[i]) != PoolId(xs[j])
    ensures |Ids(xs)| == |xs|
    decreases |xs|
  {
    if xs != [] {
      var n := |xs| - 1;
      IdsCount(xs[..n]);
      assert PoolId(xs[n]) !in Ids(xs[..n]);
      assert Ids(xs) == Ids(xs[..n]) + {PoolId(xs[n])} by {
        assert forall i | 0 <= i < n :: xs[..n][i] == xs[i];
      }
    }
  }

  lemma {:induction false} SubsetOfSameSize(a: set<string>, b: set<string>)
    requires a <= b && |a| == |b|
    ensures a == b
  {
    assert |b - a| == |b| - |a|;
  }

  lemma PartnerForm(a: Value, b: Value, i: nat)
    requires a.List? && b.List? && PoolList(a.elems) && PoolList(b.elems)
    requires UniqueIds(a.elems) && UniqueIds(b.elems) && i < |a.elems|
    ensures var id := PoolId(a.elems[i]);
            id in PoolForms(a) &&
            (Partnered(a.elems, b.elems, i) <==> id in PoolForms(b) && PoolForms(a)[id] == PoolForms(b)[id])
  {
    var id := PoolId(a.elems[i]);
    LastIsOnly(a.elems, i);
    assert PoolForms(a)[id] == FormOf(a.elems[i]);
    if Partnered(a.elems, b.elems, i) {
      var j :| 0 <= j < |b.elems| && PoolId(b.elems[j]) == id && FormOf(b.elems[j]) == FormOf(a.elems[i]);
      LastIsOnly(b.elems, j);
      assert PoolForms(b)[id] == FormOf(b.elems[j]);
    }
    if id in PoolForms(b) {
      var j :| 0 <= j < |b.elems| && b.elems[j] == LastWithId(b.elems, id);
      assert PoolForms(b)[id] == FormOf(b.elems[j]);
    }
  }

  lemma PartnerAt(a: Value, b: Value, id: string)
    requires a.List? && b.List? && PoolList(a.elems) && PoolList(b.elems)
    requires UniqueIds(a.elems) && UniqueIds(b.elems)
    requires forall i | 0 <= i < |a.elems| :: Partnered(a.elems, b.elems, i)
    requires id in PoolForms(a)
    ensures id in PoolForms(b) && PoolForms(a)[id] == PoolForms(b)[id]
  {
    var i :| 0 <= i < |a.elems| && PoolId(a.elems[i]) == id;
    PartnerForm(a, b, i);
  }

  lemma SameIds(xs: seq<Value>, ys: seq<Value>)
    requires PoolList(xs) && PoolList(ys) && UniqueIds(xs) && UniqueIds(ys) && |xs| == |ys|
    requires Ids(xs) <= Ids(ys)
    ensures Ids(xs) == Ids(ys)
  {
    IdsCount(xs);
    IdsCount(ys);
    SubsetOfSameSize(Ids(xs), Ids(ys));
  }

  lemma PartnersMakeForms(a: Value, b: Value)
    requires a.List? && b.List? && PoolList(a.elems) && PoolList(b.elems)
    requires UniqueIds(a.elems) && UniqueIds(b.elems) && |a.elems| == |b.elems|
    requires forall i | 0 <= i < |a.elems| :: Partnered(a.elems, b.elems, i)
    ensures PoolForms(a) == PoolForms(b)
  {
    forall id | id in Ids(a.elems) ensures id in Ids(b.elems) && PoolForms(a)[id] == PoolForms(b)[id] {
      PartnerAt(a, b, id);
    }
    SameIds(a.elems, b.elems);
  }

  lemma FormsMakePartners(a: Value, b: Value)
    requires a.List? && b.List? && PoolList(a.elems) && PoolList(b.elems)
    requires UniqueIds(a.elems) && UniqueIds(b.elems) && PoolForms(a) == PoolForms(b)
    ensures forall i | 0 <= i < |a.elems| :: Partnered(a.elems, b.elems, i)
  {
    forall i | 0 <= i < |a.elems| ensures Partnered(a.elems, b.elems, i) {
      PartnerForm(a, b, i);
    }
  }

  /** With unique ids, two pool lists have equal forms exactly when one is the other reordered. */
  lemma PoolListsUpToOrder(a: Value, b: Value)
    requires a.List? && b.List? && PoolList(a.elems) && PoolList(b.elems)
    requires UniqueIds(a.elems) && UniqueIds(b.elems)
    ensures FormOf(a) == FormOf(b) <==>
            |a.elems| == |b.elems| && forall i | 0 <= i < |a.elems| :: Partnered(a.elems, b.elems, i)
  {
    assert FormOf(a) == FormOf(b) <==> |a.elems| == |b.elems| && PoolForms(a) == PoolForms(b);
    if PoolForms(a) == PoolForms(b) {
      FormsMakePartners(a, b);
    } else if |a.elems| == |b.elems| && forall i | 0 <= i < |a.elems| :: Partnered(a.elems, b.elems, i) {
      PartnersMakeForms(a, b);
    }
  }

  /** A whole number, or a boolean taken as one. */
  predicate Counts(v: Value, n: int) {
    v == Int(n) || (v == Bool(true) && n == 1) || (v == Bool(false) && n == 0)
  }

  predicate IsRational(v: Value, n: int, d: int) {
    && v.Dict? && v.entries.Keys == {"numerator", "denominator"}
    && Counts(v.entries["numerator"], n) && Counts(v.entries["denominator"], d)
  }

  /** Rationals with positive denominators match exactly when they are the same number. */
  lemma RationalsCompareByValue(a: Value, b: Value, n: int, d: int, n': int, d': int)
    requires IsRational(a, n, d) && IsRational(b, n', d') && d > 0 && d' > 0
    ensures FormOf(a) == FormOf(b) <==> n * d' == n' * d
  {
    RationalForm(a, n, d);
    RationalForm(b, n', d');
    LowestIffCrossEqual(n, d, n', d');
  }

  lemma RationalForm(v: Value, n: int, d: int)
    requires IsRational(v, n, d) && d != 0
    ensures FormOf(v) == Rational(Lowest(n, d).0, Lowest(n, d).1)
  {
  }

  // ---- One epoch -------------------------------------------------------------------------------

  predicate Truthy(v: Value) {
    match v
    case Null => false
    case Bool(b) => b
    case Int(n) => n != 0
    case Float(r) => r != 0.0
    case Str(s) => s != ""
    case Sha(_) => true
    case List(xs) => xs != []
    case Dict(m) => m != map[]
  }

  /** The era comes from the second dump where it names one; text that names no era has no index. */
  function EraOf(a: Value, b: Value): string
    requires a.Dict? && b.Dict?
  {
    var name := "snapshotEraName";
    var v := if name in b.entries && Truthy(b.entries[name]) then b.entries[name]
             else if name in a.entries && Truthy(a.entries[name]) then a.entries[name]
             else Str("Shelley");
    if v.Str? then v.s else ""
  }

  /** The observation at one top-level key, which decides its own applicability. */
  function EpochKey(era: string, a: Value, b: Value, k: string): seq<Event>
    requires a.Dict? && b.Dict?
  {
    var c := Context(k, era);
    if k in a.entries && k in b.entries then Walk(c, k, a.entries[k], b.entries[k])
    else if k in a.entries || k in b.entries then Missing(c, k, k !in a.entries)
    else []
  }

  function EpochKeys(era: string, a: Value, b: Value, ks: seq<string>, n: nat): seq<Event>
    requires a.Dict? && b.Dict? && n <= |ks|
  {
    if n == 0 then [] else EpochKeys(era, a, b, ks, n - 1) + EpochKey(era, a, b, ks[n - 1])
  }

  function CompareEpoch(era: string, a: Value, b: Value): seq<Event>
    requires a.Dict? && b.Dict?
  {
    var ks := Sorted(a.entries.Keys + b.entries.Keys);
    EpochKeys(era, a, b, ks, |ks|)
  }

  /** Agreement at one key, under its own applicability. */
  ghost predicate EpochAlikeAt(era: string, a: Value, b: Value, k: string)
    requires a.Dict? && b.Dict?
  {
    AlikeKey(Applicable(k, era), a, b, k)
  }

  ghost predicate EpochAlike(era: string, a: Value, b: Value)
    requires a.Dict? && b.Dict?
  {
    forall k | k in a.entries.Keys + b.entries.Keys :: EpochAlikeAt(era, a, b, k)
  }

  ghost predicate EpochAlikeUpTo(era: string, a: Value, b: Value, ks: seq<string>, n: nat)
    requires a.Dict? && b.Dict? && n <= |ks|
  {
    forall i | 0 <= i < n :: EpochAlikeAt(era, a, b, ks[i])
  }

  lemma EpochAlikeSnoc(era: string, a: Value, b: Value, ks: seq<string>, n: nat)
    requires a.Dict? && b.Dict? && 0 < n <= |ks|
    ensures EpochAlikeUpTo(era, a, b, ks, n) <==>
            EpochAlikeUpTo(era, a, b, ks, n - 1) && EpochAlikeAt(era, a, b, ks[n - 1])
  {
  }

  lemma KeyCleanUnder(c: Context, a: Value, b: Value, k: string)
    requires a.Dict? && b.Dict? && c.top == k
    ensures Clean(EpochKey(c.era, a, b, k)) <==> AlikeKey(Expected(c), a, b, k)
  {
    if k in a.entries && k in b.entries {
      if !Excluded(k) { WalkCleanIffAlike(c, k, a.entries[k], b.entries[k]); }
    } else if !Excluded(k) {
      MissingClean(c, k, k !in a.entries);
    }
  }

  lemma {:induction false} EpochKeysClean(era: string, a: Value, b: Value, ks: seq<string>, n: nat)
    requires a.Dict? && b.Dict? && n <= |ks|
    ensures Clean(EpochKeys(era, a, b, ks, n)) <==> EpochAlikeUpTo(era, a, b, ks, n)
    decreases n
  {
    if n > 0 {
      EpochKeysClean(era, a, b, ks, n - 1);
      KeyCleanUnder(Context(ks[n - 1], era), a, b, ks[n - 1]);
      CleanConcat(EpochKeys(era, a, b, ks, n - 1), EpochKey(era, a, b, ks[n - 1]));
      EpochAlikeSnoc(era, a, b, ks, n);
    }
  }

  /** An epoch compares clean exactly when the dumps agree key by key, in any era. */
  lemma EpochCleanIffAgree(era: string, a: Value, b: Value)
    requires a.Dict? && b.Dict?
    ensures Clean(CompareEpoch(era, a, b)) <==> EpochAlike(era, a, b)
  {
    var ks := Sorted(a.entries.Keys + b.entries.Keys);
    EpochKeysClean(era, a, b, ks, |ks|);
    if EpochAlikeUpTo(era, a, b, ks, |ks|) {
      forall k | k in a.entries.Keys + b.entries.Keys ensures EpochAlikeAt(era, a, b, k) {
        var i :| 0 <= i < |ks| && ks[i] == k;
        assert EpochAlikeAt(era, a, b, ks[i]);
      }
    }
  }

  /** When every key belongs to the era, that is equality of the canonical forms. */
  lemma EpochCleanIffSameForms(era: string, a: Value, b: Value)
    requires a.Dict? && b.Dict? && WellPooled(a)
    requires forall k | k in a.entries.Keys + b.entries.Keys :: Applicable(k, era)
    ensures Clean(CompareEpoch(era, a, b)) <==> FieldForms(a) == FieldForms(b)
  {
    EpochCleanIffAgree(era, a, b);
    NodesIffForms(a, b);
    forall k | k in a.entries.Keys + b.entries.Keys
      ensures EpochAlikeAt(era, a, b, k) <==> AlikeKey(true, a, b, k)
    {
      assert Applicable(k, era);
    }
  }

  /** Content under a key outside its era goes unreported when the other dump lacks the key. */
  lemma SilentOutsideEra(era: string, k: string, v: Value)
    requires !Applicable(k, era)
    ensures CompareEpoch(era, Dict(map[k := v]), Dict(map[])) == []
    ensures CompareEpoch(era, Dict(map[]), Dict(map[k := v])) == []
  {
    var m: map<string, Value>, none: map<string, Value> := map[k := v], map[];
    assert m.Keys + none.Keys == {k} == none.Keys + m.Keys;
    LoneKey(era, Dict(m), Dict(none), k);
    LoneKey(era, Dict(none), Dict(m), k);
  }

  lemma LoneKey(era: string, a: Value, b: Value, k: string)
    requires a.Dict? && b.Dict? && a.entries.Keys + b.entries.Keys == {k}
    ensures CompareEpoch(era, a, b) == EpochKey(era, a, b, k)
  {
    SortedIs({k}, [k]);
    assert EpochKeys(era, a, b, [k], 0) == [];
    assert EpochKeys(era, a, b, [k], 1) == [] + EpochKey(era, a, b, k);
  }

  // ---- The counters of the source ----------------------------------------------------------------

  /** `failed` says that an error ended the run; nothing is recorded after that. */
  datatype Tally = Tally(
    matches: map<string, nat>,
    diffs: map<string, seq<(Value, Value)>>,
    absent: map<string, seq<bool>>,
    vacuous: map<string, nat>,
    failed: bool)

  function Bump(m: map<string, nat>, k: string): map<string, nat> {
    m[k := 1 + if k in m then m[k] else 0]
  }

  function Append<T>(m: map<string, seq<T>>, k: string, x: T): map<string, seq<T>> {
    m[k := (if k in m then m[k] else []) + [x]]
  }

  /** Each observation lands in exactly one counter, under the shape of its path. */
  function Count(t: Tally, e: Event): Tally {
    if t.failed then t
    else
      match e
      case Match(p) => t.(matches := Bump(t.matches, Collapse(p)))
      case Diff(p, a, b) => t.(diffs := Append(t.diffs, Collapse(p), (a, b)))
      case Absent(p, side) => t.(absent := Append(t.absent, Collapse(p), side))
      case Vacuous(p) => t.(vacuous := Bump(t.vacuous, Collapse(p)))
      case Crash(_) => t.(failed := true)
  }

  function CountAll(t: Tally, es: seq<Event>): Tally {
    if es == [] then t else Count(CountAll(t, es[..|es| - 1]), es[|es| - 1])
  }

  lemma {:induction false} CountConcat(t: Tally, a: seq<Event>, b: seq<Event>)
    ensures CountAll(t, a + b) == CountAll(CountAll(t, a), b)
  {
    if b == [] {
      assert a + b == a;
    } else {
      assert (a + b)[..|a + b| - 1] == a + b[..|b| - 1];
      CountConcat(t, a, b[..|b| - 1]);
    }
  }

  lemma CountOne(t: Tally, e: Event)
    ensures CountAll(t, [e]) == Count(t, e)
  {
    assert [e][..0] == [];
  }

  /** Entries recorded under a path, an absent path counting less than an empty one. */
  function Recorded<T>(m: map<string, seq<T>>, k: string): nat {
    if k in m then |m[k]| + 1 else 0
  }

  ghost predicate Grew<T>(m: map<string, seq<T>>, m': map<string, seq<T>>) {
    forall k :: Recorded(m, k) <= Recorded(m', k)
  }

  /** Counters only grow. */
  ghost predicate Later(t: Tally, t': Tally) {
    Grew(t.diffs, t'.diffs) && Grew(t.absent, t'.absent) && (t.failed ==> t'.failed)
  }

  /** Something was found in between. */
  ghost predicate Found(t: Tally, t': Tally) {
    || (t'.failed && !t.failed)
    || (exists k :: Recorded(t.diffs, k) < Recorded(t'.diffs, k))
    || (exists k :: Recorded(t.absent, k) < Recorded(t'.absent, k))
  }

  lemma CountGrows(t: Tally, e: Event)
    ensures Later(t, Count(t, e))
    ensures !t.failed && !Good(e) ==> Found(t, Count(t, e))
    ensures Good(e) ==> Count(t, e).diffs == t.diffs && Count(t, e).absent == t.absent && Count(t, e).failed == t.failed
  {
    if !t.failed && e.Diff? {
      assert Recorded(t.diffs, Collapse(e.path)) < Recorded(Count(t, e).diffs, Collapse(e.path));
    } else if !t.failed && e.Absent? {
      assert Recorded(t.absent, Collapse(e.path)) < Recorded(Count(t, e).absent, Collapse(e.path));
    }
  }

  lemma FoundStays(t: Tally, u: Tally, w: Tally)
    requires Later(t, u) && Later(u, w) && (Found(t, u) || Found(u, w))
    ensures Later(t, w) && Found(t, w)
  {
    if k :| Recorded(t.diffs, k) < Recorded(u.diffs, k) {
      assert Recorded(t.diffs, k) < Recorded(w.diffs, k);
    } else if k :| Recorded(u.diffs, k) < Recorded(w.diffs, k) {
      assert Recorded(t.diffs, k) < Recorded(w.diffs, k);
    } else if k :| Recorded(t.absent, k) < Recorded(u.absent, k) {
      assert Recorded(t.absent, k) < Recorded(w.absent, k);
    } else if k :| Recorded(u.absent, k) < Recorded(w.absent, k) {
      assert Recorded(t.absent, k) < Recorded(w.absent, k);
    }
  }

  lemma {:induction false} CountAllGrows(t: Tally, es: seq<Event>)
    requires !t.failed
    ensures Later(t, CountAll(t, es))
    ensures !Clean(es) ==> Found(t, CountAll(t, es))
  {
    if es != [] {
      var n := |es| - 1;
      var u := CountAll(t, es[..n]);
      CountAllGrows(t, es[..n]);
      CountGrows(u, es[n]);
      assert es == es[..n] + [es[n]];
      CleanConcat(es[..n], [es[n]]);
      CleanOne(es[n]);
      if u.failed {
        assert Found(t, u);
      }
      if !Clean(es) {
        FoundStays(t, u, CountAll(t, es));
      }
    }
  }

  lemma {:induction false} CleanLeaves(t: Tally, es: seq<Event>)
    requires Clean(es)
    ensures CountAll(t, es).diffs == t.diffs && CountAll(t, es).absent == t.absent && CountAll(t, es).failed == t.failed
  {
    if es != [] {
      CleanLeaves(t, es[..|es| - 1]);
      CountGrows(CountAll(t, es[..|es| - 1]), es[|es| - 1]);
    }
  }

  ghost predicate NoFindings(t: Tally, t': Tally) {
    !t'.failed && t'.diffs == t.diffs && t'.absent == t.absent
  }

  /** The counters show no finding exactly when the observations were clean. */
  lemma CleanIffNoFindings(t: Tally, es: seq<Event>)
    requires !t.failed
    ensures Clean(es) <==> NoFindings(t, CountAll(t, es))
  {
    if Clean(es) {
      CleanLeaves(t, es);
    } else {
      CountAllGrows(t, es);
    }
  }

  /** So what the counters of an epoch recorded decides agreement, and agreement decides it. */
  lemma NoFindingsIffAgree(t: Tally, era: string, a: Value, b: Value)
    requires !t.failed && a.Dict? && b.Dict?
    ensures NoFindings(t, CountAll(t, CompareEpoch(era, a, b))) <==> EpochAlike(era, a, b)
  {
    CleanIffNoFindings(t, CompareEpoch(era, a, b));
    EpochCleanIffAgree(era, a, b);
  }

  // ---- What the counters hold ----------------------------------------------------------------------

  const NOTHING_COUNTED := Tally(map[], map[], map[], map[], false)

  predicate Under(e: Event, key: string) {
    Collapse(e.path) == key
  }

  /** The differences seen under a shape, in order. */
  function DiffsAt(es: seq<Event>, key: string): seq<(Value, Value)> {
    if es == [] then []
    else
      var n := |es| - 1;
      DiffsAt(es[..n], key) + if es[n].Diff? && Under(es[n], key) then [(es[n].a, es[n].b)] else []
  }

  /** The sides missing under a shape, in order; true where the first dump lacks it. */
  function AbsencesAt(es: seq<Event>, key: string): seq<bool> {
    if es == [] then []
    else
      var n := |es| - 1;
      AbsencesAt(es[..n], key) + if es[n].Absent? && Under(es[n], key) then [es[n].fromDugite] else []
  }

  /** How many matches, and how many pairs of nulls, were seen under a shape. */
  function GoodAt(es: seq<Event>, vacuous: bool, key: string): nat {
    if es == [] then 0
    else
      var n := |es| - 1;
      var kind := if vacuous then es[n].Vacuous? else es[n].Match?;
      GoodAt(es[..n], vacuous, key) + if kind && Under(es[n], key) then 1 else 0
  }

  function Times(m: map<string, nat>, k: string): nat {
    if k in m then m[k] else 0
  }

  function Kept<T>(m: map<string, seq<T>>, k: string): seq<T> {
    if k in m then m[k] else []
  }

  ghost predicate Holds(t: Tally, es: seq<Event>, key: string) {
    && !t.failed
    && Times(t.matches, key) == GoodAt(es, false, key)
    && Times(t.vacuous, key) == GoodAt(es, true, key)
    && Kept(t.diffs, key) == DiffsAt(es, key)
    && Kept(t.absent, key) == AbsencesAt(es, key)
  }

  lemma HoldsNext(t: Tally, es: seq<Event>, e: Event, key: string)
    requires Holds(t, es, key) && !e.Crash?
    ensures Holds(Count(t, e), es + [e], key)
  {
    var k := Collapse(e.path);
    GoodNext(es, e, key);
    ListNext(es, e, key);
    match e {
      case Match(_) => BumpAt(t.matches, k, key);
      case Vacuous(_) => BumpAt(t.vacuous, k, key);
      case Diff(_, x, y) => AppendAt(t.diffs, k, (x, y), key);
      case Absent(_, side) => AppendAt(t.absent, k, side, key);
    }
  }

  lemma GoodNext(es: seq<Event>, e: Event, key: string)
    ensures GoodAt(es + [e], false, key) == GoodAt(es, false, key) + if e.Match? && Under(e, key) then 1 else 0
    ensures GoodAt(es + [e], true, key) == GoodAt(es, true, key) + if e.Vacuous? && Under(e, key) then 1 else 0
  {
    assert (es + [e])[..|es + [e]| - 1] == es;
  }

  lemma ListNext(es: seq<Event>, e: Event, key: string)
    ensures DiffsAt(es + [e], key) == DiffsAt(es, key) + if e.Diff? && Under(e, key) then [(e.a, e.b)] else []
    ensures AbsencesAt(es + [e], key) ==
            AbsencesAt(es, key) + if e.Absent? && Under(e, key) then [e.fromDugite] else []
  {
    assert (es + [e])[..|es + [e]| - 1] == es;
  }

  lemma BumpAt(m: map<string, nat>, k: string, key: string)
    ensures Times(Bump(m, k), key) == Times(m, key) + if k == key then 1 else 0
  {
  }

  lemma AppendAt<T>(m: map<string, seq<T>>, k: string, x: T, key: string)
    ensures Kept(Append(m, k, x), key) == Kept(m, key) + if k == key then [x] else []
  {
  }

  /** Each counter holds exactly the observations of its kind under each shape. */
  lemma {:induction false} CountersAre(es: seq<Event>, key: string)
    requires forall i | 0 <= i < |es| :: !es[i].Crash?
    ensures Holds(CountAll(NOTHING_COUNTED, es), es, key)
    decreases |es|
  {
    if es == [] {
      assert CountAll(NOTHING_COUNTED, es) == NOTHING_COUNTED;
    } else {
      var n := |es| - 1;
      CountersAre(es[..n], key);
      HoldsNext(CountAll(NOTHING_COUNTED, es[..n]), es[..n], es[n], key);
      assert es == es[..n] + [es[n]];
    }
  }

  // ---- Which dump names the era ----------------------------------------------------------------------

  /** The dump names an era by a text that is not empty. */
  predicate NamesEra(v: Value, era: string) {
    v.Dict? && "snapshotEraName" in v.entries && v.entries["snapshotEraName"] == Str(era) && era != ""
  }

  /** The era is missing, or a value that counts as nothing. */
  predicate NamesNoEra(v: Value) {
    v.Dict? && ("snapshotEraName" in v.entries ==> IsNothing(v.entries["snapshotEraName"]))
  }

  predicate IsNothing(v: Value) {
    || v == Null || v == Bool(false) || v == Int(0) || v == Float(IntAsReal(0)) || v == Str("")
    || v == List([]) || v == Dict(map[])
  }

  /** The second dump, the oracle, decides; the first one only where the oracle is silent. */
  predicate DecidedEra(a: Value, b: Value, era: string) {
    || NamesEra(b, era)
    || (NamesNoEra(b) && NamesEra(a, era))
    || (NamesNoEra(b) && NamesNoEra(a) && era == "Shelley")
  }

  lemma EraIsDecided(a: Value, b: Value, era: string)
    requires a.Dict? && b.Dict? && DecidedEra(a, b, era)
    ensures EraOf(a, b) == era
  {
    assert IntAsReal(0) == 0.0;
  }

  /** A key of the era that exactly one dump has. */
  predicate OneSided(a: Value, b: Value, era: string, k: string)
    requires a.Dict? && b.Dict?
  {
    (k in a.entries <==> k !in b.entries) && !Excluded(k) && Applicable(k, era)
  }

  ghost predicate KeyHas(era: string, a: Value, b: Value, k: string, e: Event) {
    a.Dict? && b.Dict? && e in EpochKey(era, a, b, k)
  }

  lemma KeysHaveNext(era: string, a: Value, b: Value, ks: seq<string>, n: nat, e: Event)
    requires a.Dict? && b.Dict? && 0 < n <= |ks|
    ensures e in EpochKeys(era, a, b, ks, n) <==>
            e in EpochKeys(era, a, b, ks, n - 1) || KeyHas(era, a, b, ks[n - 1], e)
  {
    var xs, ys := EpochKeys(era, a, b, ks, n - 1), EpochKey(era, a, b, ks[n - 1]);
    assert EpochKeys(era, a, b, ks, n) == xs + ys;
  }

  lemma {:induction false} KeysKeep(era: string, a: Value, b: Value, ks: seq<string>, m: nat, n: nat, e: Event)
    requires a.Dict? && b.Dict? && m <= n <= |ks| && e in EpochKeys(era, a, b, ks, m)
    ensures e in EpochKeys(era, a, b, ks, n)
    decreases n
  {
    if m < n {
      KeysKeep(era, a, b, ks, m, n - 1, e);
      KeysHaveNext(era, a, b, ks, n, e);
    }
  }

  lemma ObservedAt(era: string, a: Value, b: Value, ks: seq<string>, i: nat, e: Event)
    requires i < |ks| && KeyHas(era, a, b, ks[i], e)
    ensures e in EpochKeys(era, a, b, ks, |ks|)
  {
    KeysHaveNext(era, a, b, ks, i + 1, e);
    KeysKeep(era, a, b, ks, i + 1, |ks|, e);
  }

  /** A key of the era that only one dump has is recorded as absent from the other. */
  lemma OneSidedKeyIsFound(a: Value, b: Value, era: string, k: string)
    requires a.Dict? && b.Dict? && DecidedEra(a, b, era)
    requires OneSided(a, b, era, k)
    ensures Absent(k, k !in a.entries) in CompareEpoch(EraOf(a, b), a, b)
    ensures !Clean(CompareEpoch(EraOf(a, b), a, b))
  {
    EraIsDecided(a, b, era);
    OneSidedKey(era, a, b, k);
    KeyIsObserved(era, a, b, k, Absent(k, k !in a.entries));
    Unclean(CompareEpoch(era, a, b), Absent(k, k !in a.entries));
  }

  lemma KeyIsObserved(era: string, a: Value, b: Value, k: string, e: Event)
    requires a.Dict? && b.Dict? && k in a.entries.Keys + b.entries.Keys && e in EpochKey(era, a, b, k)
    ensures e in CompareEpoch(era, a, b)
  {
    var ks := Sorted(a.entries.Keys + b.entries.Keys);
    var i :| 0 <= i < |ks| && ks[i] == k;
    ObservedAt(era, a, b, ks, i, e);
  }

  lemma OneSidedKey(era: string, a: Value, b: Value, k: string)
    requires a.Dict? && b.Dict? && OneSided(a, b, era, k)
    ensures EpochKey(era, a, b, k) == [Absent(k, k !in a.entries)]
  {
  }

  lemma Unclean(es: seq<Event>, e: Event)
    requires e in es && !Good(e)
    ensures !Clean(es)
  {
    var j :| 0 <= j < |es| && es[j] == e;
    assert !Good(es[j]);
  }

  class Result {
    var tally: Tally

    constructor ()
      ensures tally == Tally(map[], map[], map[], map[], false)
    {
      tally := Tally(map[], map[], map[], map[], false);
    }

    /** One epoch of two dumps; without findings exactly when they agree. */
    method CompareDumps(a: Value, b: Value)
      requires a.Dict? && b.Dict?
      modifies this
      ensures tally == CountAll(old(tally), CompareEpoch(EraOf(a, b), a, b))
      ensures !old(tally).failed ==> (NoFindings(old(tally), tally) <==> EpochAlike(EraOf(a, b), a, b))
      ensures forall era | DecidedEra(a, b, era) && !old(tally).failed ::
                NoFindings(old(tally), tally) <==> EpochAlike(era, a, b)
      ensures forall era, k | DecidedEra(a, b, era) && OneSided(a, b, era, k) && !old(tally).failed ::
                !NoFindings(old(tally), tally)
    {
      var era := EraOf(a, b);
      forall s | DecidedEra(a, b, s) ensures s == era {
        EraIsDecided(a, b, s);
      }
      CompareKeys(era, a, b, Sorted(a.entries.Keys + b.entries.Keys));
      if !old(tally).failed {
        NoFindingsIffAgree(old(tally), era, a, b);
        EpochCleanIffAgree(era, a, b);
        forall s, k | DecidedEra(a, b, s) && OneSided(a, b, s, k) ensures !NoFindings(old(tally), tally) {
          OneSidedKeyIsFound(a, b, s, k);
        }
      }
    }

    method CompareKeys(era: string, a: Value, b: Value, ks: seq<string>)
      requires a.Dict? && b.Dict?
      modifies this
      ensures tally == CountAll(old(tally), EpochKeys(era, a, b, ks, |ks|))
    {
      var i := 0;
      while i < |ks|
        invariant 0 <= i <= |ks|
        invariant tally == CountAll(old(tally), EpochKeys(era, a, b, ks, i))
      {
        NextEpochKey(old(tally), era, a, b, ks, i);
        CompareKey(era, a, b, ks[i]);
        i := i + 1;
      }
    }

    method CompareKey(era: string, a: Value, b: Value, k: string)
      requires a.Dict? && b.Dict?
      modifies this
      ensures tally == CountAll(old(tally), EpochKey(era, a, b, k))
    {
      var c := Context(k, era);
      if k in a.entries && k in b.entries {
        WalkTrees(c, k, a.entries[k], b.entries[k]);
      } else if k in a.entries || k in b.entries {
        RecordAbsent(c, k, k !in a.entries);
      }
    }

    /** The recursive walk, bumping the counters as it goes. */
    method WalkTrees(c: Context, path: string, a: Value, b: Value)
      modifies this
      ensures tally == CountAll(old(tally), Walk(c, path, a, b))
      decreases a, 3
    {
      if Excluded(path) || (!Expected(c) && IsEmpty(a) && IsEmpty(b)) {
      } else if a.Null? && b.Null? {
        Record(Vacuous(path));
      } else if BothNodes(a, b) {
        WalkNodes(c, path, a, b);
      } else if a.List? && b.List? {
        WalkLists(c, path, a, b);
      } else {
        Record(LeafEvent(path, a, b));
      }
    }

    method WalkLists(c: Context, path: string, a: Value, b: Value)
      requires a.List? && b.List? && !Excluded(path) && !(!Expected(c) && IsEmpty(a) && IsEmpty(b))
      modifies this
      ensures tally == CountAll(old(tally), Walk(c, path, a, b))
      decreases a, 2
    {
      if |a.elems| != |b.elems| {
        Record(Diff(path + ".<length>", Int(|a.elems|), Int(|b.elems|)));
      } else if !PoolMode(a.elems) {
        WalkSequences(c, path, a, b);
      } else if PoolList(a.elems) && PoolList(b.elems) {
        WalkPoolLists(c, path, a, b);
      } else {
        Record(Crash(path));
      }
    }

    /** One observation, one counter; after an error none. */
    method Record(e: Event)
      modifies this
      ensures tally == CountAll(old(tally), [e])
    {
      CountOne(tally, e);
      if tally.failed {
        return;
      }
      var key := CollapsePath(e.path);
      match e {
        case Match(_) => tally := tally.(matches := Bump(tally.matches, key));
        case Diff(_, x, y) => tally := tally.(diffs := Append(tally.diffs, key, (x, y)));
        case Absent(_, side) => tally := tally.(absent := Append(tally.absent, key, side));
        case Vacuous(_) => tally := tally.(vacuous := Bump(tally.vacuous, key));
        case Crash(_) => tally := tally.(failed := true);
      }
    }

    method RecordAbsent(c: Context, path: string, fromDugite: bool)
      modifies this
      ensures tally == CountAll(old(tally), Missing(c, path, fromDugite))
    {
      if !Excluded(path) && Expected(c) {
        Record(Absent(path, fromDugite));
      }
    }

    method WalkNodes(c: Context, path: string, a: Value, b: Value)
      requires a.Dict? && b.Dict?
      modifies this
      ensures var ks := Sorted(a.entries.Keys + b.entries.Keys);
              tally == CountAll(old(tally), WalkKeys(c, path, a, b, ks, |ks|))
      decreases a, 1
    {
      var ks := Sorted(a.entries.Keys + b.entries.Keys);
      var i := 0;
      while i < |ks|
        invariant 0 <= i <= |ks|
        invariant tally == CountAll(old(tally), WalkKeys(c, path, a, b, ks, i))
      {
        NextKey(old(tally), c, path, a, b, ks, i);
        WalkOneKey(c, path, a, b, ks[i]);
        i := i + 1;
      }
    }

    method WalkOneKey(c: Context, path: string, a: Value, b: Value, k: string)
      requires a.Dict? && b.Dict?
      modifies this
      ensures tally == CountAll(old(tally), WalkKey(c, path, a, b, k))
      decreases a, 0
    {
      if k in a.entries && k in b.entries {
        WalkTrees(c, KeyPath(path, k), a.entries[k], b.entries[k]);
      } else if k in a.entries || k in b.entries {
        RecordAbsent(c, KeyPath(path, k), k !in a.entries);
      }
    }

    method WalkPoolLists(c: Context, path: string, a: Value, b: Value)
      requires a.List? && b.List? && PoolList(a.elems) && PoolList(b.elems)
      modifies this
      ensures var ids := Sorted(Ids(a.elems) + Ids(b.elems));
              tally == CountAll(old(tally), WalkPools(c, path, a, b, ids, |ids|))
      decreases a, 1
    {
      var ids := Sorted(Ids(a.elems) + Ids(b.elems));
      var i := 0;
      while i < |ids|
        invariant 0 <= i <= |ids|
        invariant tally == CountAll(old(tally), WalkPools(c, path, a, b, ids, i))
      {
        NextPool(old(tally), c, path, a, b, ids, i);
        WalkOnePool(c, path, a, b, ids[i]);
        i := i + 1;
      }
    }

    method WalkOnePool(c: Context, path: string, a: Value, b: Value, id: string)
      requires a.List? && b.List? && PoolList(a.elems) && PoolList(b.elems)
      modifies this
      ensures tally == CountAll(old(tally), WalkPool(c, path, a, b, id))
      decreases a, 0
    {
      if id in Ids(a.elems) && id in Ids(b.elems) {
        WalkTrees(c, ItemPath(path, id), LastWithId(a.elems, id), LastWithId(b.elems, id));
      } else if id in Ids(a.elems) || id in Ids(b.elems) {
        RecordAbsent(c, ItemPath(path, id), id !in Ids(a.elems));
      }
    }

    method WalkSequences(c: Context, path: string, a: Value, b: Value)
      requires a.List? && b.List? && |a.elems| == |b.elems|
      modifies this
      ensures tally == CountAll(old(tally), WalkElems(c, path, a, b, |a.elems|))
      decreases a, 1
    {
      var i := 0;
      while i < |a.elems|
        invariant 0 <= i <= |a.elems|
        invariant tally == CountAll(old(tally), WalkElems(c, path, a, b, i))
      {
        NextElem(old(tally), c, path, a, b, i);
        WalkOneElem(c, path, a, b, i);
        i := i + 1;
      }
    }

    method WalkOneElem(c: Context, path: string, a: Value, b: Value, i: nat)
      requires a.List? && b.List? && i < |a.elems| && i < |b.elems|
      modifies this
      ensures tally == CountAll(old(tally), WalkElem(c, path, a, b, i))
      decreases a, 0
    {
      WalkTrees(c, ItemPath(path, NatText(i)), a.elems[i], b.elems[i]);
    }
  }

  lemma NextEpochKey(t: Tally, era: string, a: Value, b: Value, ks: seq<string>, i: nat)
    requires a.Dict? && b.Dict? && i < |ks|
    ensures CountAll(t, EpochKeys(era, a, b, ks, i + 1)) ==
            CountAll(CountAll(t, EpochKeys(era, a, b, ks, i)), EpochKey(era, a, b, ks[i]))
  {
    CountConcat(t, EpochKeys(era, a, b, ks, i), EpochKey(era, a, b, ks[i]));
  }

  lemma NextKey(t: Tally, c: Context, path: string, a: Value, b: Value, ks: seq<string>, i: nat)
    requires a.Dict? && b.Dict? && i < |ks|
    ensures CountAll(t, WalkKeys(c, path, a, b, ks, i + 1)) ==
            CountAll(CountAll(t, WalkKeys(c, path, a, b, ks, i)), WalkKey(c, path, a, b, ks[i]))
  {
    CountConcat(t, WalkKeys(c, path, a, b, ks, i), WalkKey(c, path, a, b, ks[i]));
  }

  lemma NextPool(t: Tally, c: Context, path: string, a: Value, b: Value, ids: seq<string>, i: nat)
    requires a.List? && b.List? && PoolList(a.elems) && PoolList(b.elems) && i < |ids|
    ensures CountAll(t, WalkPools(c, path, a, b, ids, i + 1)) ==
            CountAll(CountAll(t, WalkPools(c, path, a, b, ids, i)), WalkPool(c, path, a, b, ids[i]))
  {
    CountConcat(t, WalkPools(c, path, a, b, ids, i), WalkPool(c, path, a, b, ids[i]));
  }

  lemma NextElem(t: Tally, c: Context, path: string, a: Value, b: Value, i: nat)
    requires a.List? && b.List? && i < |a.elems| && i < |b.elems|
    ensures CountAll(t, WalkElems(c, path, a, b, i + 1)) ==
            CountAll(CountAll(t, WalkElems(c, path, a, b, i)), WalkElem(c, path, a, b, i))
  {
    CountConcat(t, WalkElems(c, path, a, b, i), WalkElem(c, path, a, b, i));
  }
}
