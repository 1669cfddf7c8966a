/**
 When reducing a dump shows in its summary.  Every visible replacement of a raw
 map by a digest record lowers a weight, so an unchanged summary means that
 there was none.
 */
module Reductions {
  import opened Wrappers
  import opened Ordering
  import opened Digests
  import opened CanonTexts
  import opened Summaries

  // ---- Sums over finite maps ----------------------------------------------------------------

  ghost function MapSum<K(!new)>(m: map<K, nat>): nat
    decreases |m|
  {
    if m == map[] then 0
    else
      var k :| k in m;
      m[k] + MapSum(m - {k})
  }

  lemma {:induction false} SumWithout<K(!new)>(m: map<K, nat>, k: K)
    requires k in m
    ensures MapSum(m) == m[k] + MapSum(m - {k})
    decreases |m|
  {
    var j :| j in m && MapSum(m) == m[j] + MapSum(m - {j});
    if j != k {
      SumWithout(m - {j}, k);
      SumWithout(m - {k}, j);
      assert m - {j} - {k} == m - {k} - {j};
    }
  }

  lemma PutBack<K, V>(m: map<K, V>, k: K)
    requires k in m
    ensures m == (m - {k})[k := m[k]]
  {
  }

  ghost predicate Below<K>(a: map<K, nat>, b: map<K, nat>) {
    a.Keys == b.Keys && forall k | k in a :: a[k] <= b[k]
  }

  lemma BelowWithout<K>(a: map<K, nat>, b: map<K, nat>, k: K)
    requires Below(a, b) && k in a
    ensures Below(a - {k}, b - {k})
  {
  }

  /** Pointwise smaller maps have smaller sums, and equal sums only if they are equal. */
  lemma {:induction false} SumsOrdered<K(!new)>(a: map<K, nat>, b: map<K, nat>)
    requires Below(a, b)
    ensures MapSum(a) <= MapSum(b)
    ensures MapSum(a) == MapSum(b) ==> a == b
    decreases |a|
  {
    if a.Keys == {} {
      assert a == map[] && b == map[];
    } else {
      var k :| k in a.Keys;
      BelowWithout(a, b, k);
      SumsOrdered(a - {k}, b - {k});
      SumsStep(a, b, k);
    }
  }

  lemma SumsStep<K(!new)>(a: map<K, nat>, b: map<K, nat>, k: K)
    requires k in a && k in b && a[k] <= b[k]
    requires MapSum(a - {k}) <= MapSum(b - {k})
    requires MapSum(a - {k}) == MapSum(b - {k}) ==> a - {k} == b - {k}
    ensures MapSum(a) <= MapSum(b)
    ensures MapSum(a) == MapSum(b) ==> a == b
  {
    SumWithout(a, k);
    SumWithout(b, k);
    PutBack(a, k);
    PutBack(b, k);
  }

  // ---- Reading hashed texts back ---------------------------------------------------------------

  ghost predicate IsMapText(text: string, json: Renderer) {
    exists m :: MapLines(m, json) == text
  }

  ghost function HashedMap(text: string, json: Renderer): map<string, Value>
    requires IsMapText(text, json)
  {
    var m :| MapLines(m, json) == text; m
  }

  lemma HashedMapIs(m: map<string, Value>, json: Renderer)
    requires Faithful(json)
    ensures IsMapText(MapLines(m, json), json) && HashedMap(MapLines(m, json), json) == m
  {
    MapLinesInjective(HashedMap(MapLines(m, json), json), m, json);
  }

  ghost predicate IsBagText(text: string, json: Renderer) {
    exists xs :: BagLines(xs, json) == text
  }

  ghost function HashedList(text: string, json: Renderer): seq<Value>
    requires IsBagText(text, json)
  {
    var xs :| BagLines(xs, json) == text; xs
  }

  lemma HashedListIs(xs: seq<Value>, json: Renderer)
    requires Faithful(json)
    ensures IsBagText(BagLines(xs, json), json) && multiset(HashedList(BagLines(xs, json), json)) == multiset(xs)
  {
    BagLinesIff(HashedList(BagLines(xs, json), json), xs, json);
  }

  // ---- The weight ------------------------------------------------------------------------------

  /** Looks like a digest record, and is not a relay. */
  predicate RecordLike(m: map<string, Value>) {
    DIGEST in m && RELAY !in m
  }

  /** The number of dictionaries that are not digest records, seen through `d` levels of hashes. */
  ghost function Weight(v: Value, d: nat, json: Renderer): nat
    decreases d, v, 1
  {
    match v
    case Dict(m) => (if RecordLike(m) then 0 else 1) + MapSum(EntryWeights(v, d, json))
    case List(xs) => ListWeight(xs, d, json)
    case Sha(input) => if d == 0 then 0 else InputWeight(input, d - 1, json)
    case _ => 0
  }

  ghost function EntryWeights(v: Value, d: nat, json: Renderer): (r: map<string, nat>)
    requires v.Dict?
    ensures r.Keys == v.entries.Keys
    decreases d, v, 0
  {
    map k | k in v.entries :: Weight(v.entries[k], d, json)
  }

  ghost function ListWeight(xs: seq<Value>, d: nat, json: Renderer): nat
    decreases d, xs, 0
  {
    if xs == [] then 0 else ListWeight(xs[..|xs| - 1], d, json) + Weight(xs[|xs| - 1], d, json)
  }

  /** What a hashed text stands for weighs what its entries weigh. */
  ghost function InputWeight(h: HashInput, d: nat, json: Renderer): nat
    decreases d + 1, h
  {
    match h
    case FlatText(_) => 0
    case MapText(t) =>
      if IsMapText(t, json) then MapSum(EntryWeights(Dict(HashedMap(t, json)), d, json)) else 0
    case BagText(t) => if IsBagText(t, json) then ListWeight(HashedList(t, json), d, json) else 0
  }

  lemma WeightDict(m: map<string, Value>, d: nat, json: Renderer)
    ensures Weight(Dict(m), d, json) == (if RecordLike(m) then 0 else 1) + MapSum(EntryWeights(Dict(m), d, json))
  {
  }

  lemma WeightMapText(m: map<string, Value>, d: nat, json: Renderer)
    requires Faithful(json)
    ensures InputWeight(MapText(MapLines(m, json)), d, json) == MapSum(EntryWeights(Dict(m), d, json))
  {
    HashedMapIs(m, json);
  }

  lemma WeightBagText(xs: seq<Value>, d: nat, json: Renderer)
    requires Faithful(json)
    ensures InputWeight(BagText(BagLines(xs, json)), d, json) == ListWeight(xs, d, json)
  {
    HashedListIs(xs, json);
    SameBagSameWeight(HashedList(BagLines(xs, json), json), xs, d, json);
  }

  /** The weight of a list does not depend on the order. */
  lemma {:induction false} SameBagSameWeight(xs: seq<Value>, ys: seq<Value>, d: nat, json: Renderer)
    requires multiset(xs) == multiset(ys)
    ensures ListWeight(xs, d, json) == ListWeight(ys, d, json)
    decreases |xs|
  {
    if xs == [] {
      assert |multiset(ys)| == 0;
    } else {
      var i := WithoutLast(xs, ys);
      SameBagSameWeight(xs[..|xs| - 1], ys[..i] + ys[i + 1..], d, json);
      WeightWithout(ys, i, d, json);
    }
  }

  lemma {:induction false} WeightWithout(ys: seq<Value>, i: nat, d: nat, json: Renderer)
    requires i < |ys|
    ensures ListWeight(ys, d, json) == ListWeight(ys[..i] + ys[i + 1..], d, json) + Weight(ys[i], d, json)
    decreases |ys|
  {
    var n := |ys| - 1;
    if i == n {
      assert ys[..i] + ys[i + 1..] == ys[..n];
    } else {
      var short := ys[..i] + ys[i + 1..];
      WeightWithout(ys[..n], i, d, json);
      assert short[..n - 1] == ys[..n][..i] + ys[..n][i + 1..];
      assert short[n - 1] == ys[n];
    }
  }

  lemma {:induction false} ListsOrdered(xs: seq<Value>, ys: seq<Value>, d: nat, json: Renderer)
    requires |xs| == |ys| && forall i | 0 <= i < |xs| :: Weight(xs[i], d, json) <= Weight(ys[i], d, json)
    ensures ListWeight(xs, d, json) <= ListWeight(ys, d, json)
    ensures ListWeight(xs, d, json) == ListWeight(ys, d, json) ==>
            forall i | 0 <= i < |xs| :: Weight(xs[i], d, json) == Weight(ys[i], d, json)
  {
    if xs != [] {
      var n := |xs| - 1;
      ListsOrdered(xs[..n], ys[..n], d, json);
      if ListWeight(xs, d, json) == ListWeight(ys, d, json) {
        forall i | 0 <= i < |xs| ensures Weight(xs[i], d, json) == Weight(ys[i], d, json) {
          if i < n { assert xs[..n][i] == xs[i] && ys[..n][i] == ys[i]; }
        }
      }
    }
  }

  lemma EntriesOrdered(a: map<string, Value>, b: map<string, Value>, d: nat, json: Renderer)
    requires a.Keys == b.Keys && forall k | k in a :: Weight(a[k], d, json) <= Weight(b[k], d, json)
    ensures MapSum(EntryWeights(Dict(a), d, json)) <= MapSum(EntryWeights(Dict(b), d, json))
    ensures MapSum(EntryWeights(Dict(a), d, json)) == MapSum(EntryWeights(Dict(b), d, json)) ==>
            forall k | k in a :: Weight(a[k], d, json) == Weight(b[k], d, json)
  {
    var p, q := EntryWeights(Dict(a), d, json), EntryWeights(Dict(b), d, json);
    assert forall k | k in a :: p[k] == Weight(a[k], d, json) && q[k] == Weight(b[k], d, json);
    SumsOrdered(p, q);
  }

  /** Rendering integral floats as integers does not change the weight. */
  lemma {:induction false} WeightFold(v: Value, d: nat, json: Renderer)
    ensures Weight(Fold(v), d, json) == Weight(v, d, json)
    decreases v
  {
    match v {
      case Dict(m) =>
        var f := Fold(v).entries;
        assert f.Keys == m.Keys;
        forall k | k in m ensures Weight(f[k], d, json) == Weight(m[k], d, json) {
          WeightFold(m[k], d, json);
        }
        EntriesOrdered(f, m, d, json);
        EntriesOrdered(m, f, d, json);
      case List(xs) => WeightFoldEach(xs, d, json);
      case _ =>
    }
  }

  lemma {:induction false} WeightFoldEach(xs: seq<Value>, d: nat, json: Renderer)
    ensures ListWeight(FoldEach(xs), d, json) == ListWeight(xs, d, json)
    decreases xs
  {
    if xs != [] {
      WeightFoldEach(xs[..|xs| - 1], d, json);
      WeightFold(xs[|xs| - 1], d, json);
      assert FoldEach(xs)[..|xs| - 1] == FoldEach(xs[..|xs| - 1]);
    }
  }

  lemma WeightFoldEntries(m: map<string, Value>, d: nat, json: Renderer)
    ensures MapSum(EntryWeights(Dict(FoldEntries(m)), d, json)) == MapSum(EntryWeights(Dict(m), d, json))
  {
    var f := FoldEntries(m);
    assert f.Keys == m.Keys;
    forall k | k in m ensures Weight(f[k], d, json) == Weight(m[k], d, json) {
      WeightFold(m[k], d, json);
    }
    EntriesOrdered(f, m, d, json);
    EntriesOrdered(m, f, d, json);
  }

  // ---- Records weigh nothing, raw maps something ---------------------------------------------------

  lemma {:induction false} WeightlessSum<K(!new)>(m: map<K, nat>)
    requires forall k | k in m :: m[k] == 0
    ensures MapSum(m) == 0
    decreases |m|
  {
    if k :| k in m {
      SumWithout(m, k);
      WeightlessSum(m - {k});
    } else {
      assert m == map[];
    }
  }

  lemma DigestRecordWeightless(m: map<string, Value>, d: nat, json: Renderer)
    ensures Weight(Dict(DigestRecord(m, json)), d, json) == 0
  {
    RecordKeys();
    var r := DigestRecord(m, json);
    assert RecordLike(r);
    forall k | k in r ensures EntryWeights(Dict(r), d, json)[k] == 0 {
      assert EntryWeights(Dict(r), d, json)[k] == Weight(r[k], d, json);
    }
    WeightlessSum(EntryWeights(Dict(r), d, json));
  }

  /** A large record weighs what was hashed into it. */
  lemma LargeRecordWeight(count: nat, input: HashInput, total: Option<Value>, d: nat, json: Renderer)
    requires total.Some? ==> Number(total.value)
    ensures Weight(Dict(LargeRecord(count, input, total)), d + 1, json) == InputWeight(input, d, json)
  {
    RecordKeys();
    var r := LargeRecord(count, input, total);
    var w := EntryWeights(Dict(r), d + 1, json);
    assert RecordLike(r);
    SumWithout(w, DIGEST);
    assert w[DIGEST] == Weight(r[DIGEST], d + 1, json);
    forall k | k in w - {DIGEST} ensures (w - {DIGEST})[k] == 0 {
      assert w[k] == Weight(r[k], d + 1, json);
    }
    WeightlessSum(w - {DIGEST});
  }

  // ---- Parts passed on unread ------------------------------------------------------------------------

  /** Reduction never adds weight, and keeps it only where there is nothing to replace. */
  lemma {:induction false} ReduceShrinks(v: Value, d: nat, json: Renderer)
    ensures Weight(Reduce(v, json), d, json) <= Weight(v, d, json)
    ensures Weight(Reduce(v, json), d, json) == Weight(v, d, json) ==> Untouched(v)
    decreases v, 0
  {
    match v {
      case Dict(m) =>
        var m' := ReduceEntries(v, json);
        forall k | k in m
          ensures Weight(m'[k], d, json) <= Weight(m[k], d, json)
          ensures Weight(m'[k], d, json) == Weight(m[k], d, json) ==> Kept(k, m[k])
        {
          assert m'[k] == ReduceSlot(k, m[k], json);
          SlotShrinks(k, m[k], d, json);
        }
        EntriesOrdered(m', m, d, json);
      case List(xs) =>
        var xs' := ReduceEach(xs, json);
        forall i | 0 <= i < |xs|
          ensures Weight(xs'[i], d, json) <= Weight(xs[i], d, json)
          ensures Weight(xs'[i], d, json) == Weight(xs[i], d, json) ==> Untouched(xs[i])
        {
          ReduceShrinks(xs[i], d, json);
        }
        ListsOrdered(xs', xs, d, json);
      case _ =>
    }
  }

  lemma {:induction false} SlotShrinks(k: string, v: Value, d: nat, json: Renderer)
    ensures Weight(ReduceSlot(k, v, json), d, json) <= Weight(v, d, json)
    ensures Weight(ReduceSlot(k, v, json), d, json) == Weight(v, d, json) ==> Kept(k, v)
    decreases v, 1
  {
    if Target(k, v) {
      DigestRecordWeightless(v.entries, d, json);
      WeightDict(v.entries, d, json);
    } else {
      ReduceShrinks(v, d, json);
    }
  }

  // ---- Relays ----------------------------------------------------------------------------------------

  lemma {:induction false} FoldKeysNames(ks: seq<string>, d: map<string, Value>, d': map<string, Value>)
    requires Covers(d, ks) && Covers(d', ks)
    ensures FoldKeys(ks, d).Keys == FoldKeys(ks, d').Keys
    ensures forall n | n in FoldKeys(ks, d) :: exists i :: 0 <= i < |ks| && n == Lower(ks[i])
  {
    if ks != [] {
      FoldKeysNames(ks[..|ks| - 1], d, d');
      forall n | n in FoldKeys(ks, d) ensures exists i :: 0 <= i < |ks| && n == Lower(ks[i]) {
        if n != Lower(ks[|ks| - 1]) {
          var i :| 0 <= i < |ks| - 1 && n == Lower(ks[..|ks| - 1][i]);
          assert n == Lower(ks[i]);
        }
      }
    }
  }

  lemma {:induction false} FoldKeysAt(ks: seq<string>, d: map<string, Value>, i: nat)
    requires Covers(d, ks) && i < |ks|
    requires forall a, b | 0 <= a < b < |ks| :: Lower(ks[a]) != Lower(ks[b])
    ensures Lower(ks[i]) in FoldKeys(ks, d) && FoldKeys(ks, d)[Lower(ks[i])] == d[ks[i]]
    decreases |ks|
  {
    if i < |ks| - 1 {
      FoldKeysAt(ks[..|ks| - 1], d, i);
    }
  }

  lemma RelayFieldAt(d: map<string, Value>, skip: set<string>, k: string)
    requires !CaseCollision(d, skip) && k in d.Keys - skip
    ensures Lower(k) in RelayFields(d, skip) && RelayFields(d, skip)[Lower(k)] == d[k]
  {
    var ks := Sorted(d.Keys - skip);
    var i :| 0 <= i < |ks| && ks[i] == k;
    FoldKeysAt(ks, d, i);
  }

  /** A relay summary of these fields. */
  function RelaySummary(tag: string, d: map<string, Value>, skip: set<string>): map<string, Value> {
    map[RELAY := Str(tag)] + RelayFields(d, skip)
  }

  lemma RelayFieldShrinks(d: map<string, Value>, skip: set<string>, n: string, json: Renderer) returns (k: string)
    requires !CaseCollision(d, skip) && n in RelayFields(d, skip)
    ensures k in d.Keys - skip && n == Lower(k)
    ensures var d' := ReduceEntries(Dict(d), json);
            n in RelayFields(d', skip) &&
            RelayFields(d, skip)[n] == d[k] && RelayFields(d', skip)[n] == ReduceSlot(k, d[k], json)
  {
    var d' := ReduceEntries(Dict(d), json);
    var ks := Sorted(d.Keys - skip);
    FoldKeysNames(ks, d, d');
    var i :| 0 <= i < |ks| && n == Lower(ks[i]);
    k := ks[i];
    RelayFieldAt(d, skip, k);
    RelayFieldAt(d', skip, k);
  }

  lemma RelaySummaryShrinks(tag: string, fs: map<string, Value>, skip: set<string>, d: nat, json: Renderer)
    requires !CaseCollision(fs, skip)
    requires forall k | k in fs && k in skip :: fs[k].Str?
    ensures var fs' := ReduceEntries(Dict(fs), json);
            var (s, s') := (Dict(RelaySummary(tag, fs, skip)), Dict(RelaySummary(tag, fs', skip)));
            && Weight(s', d, json) <= Weight(s, d, json)
            && (Weight(s', d, json) == Weight(s, d, json) ==> Untouched(Dict(fs)))
  {
    var fs' := ReduceEntries(Dict(fs), json);
    var a, b := RelaySummary(tag, fs', skip), RelaySummary(tag, fs, skip);
    RelayFieldsShrink(tag, fs, skip, d, json);
    EntriesOrdered(a, b, d, json);
    WeightDict(a, d, json);
    WeightDict(b, d, json);
    if Weight(Dict(a), d, json) == Weight(Dict(b), d, json) {
      RelayFieldsKept(tag, fs, skip, d, json);
    }
  }

  lemma RelayFieldsShrink(tag: string, fs: map<string, Value>, skip: set<string>, d: nat, json: Renderer)
    requires !CaseCollision(fs, skip)
    ensures var (a, b) := (RelaySummary(tag, ReduceEntries(Dict(fs), json), skip), RelaySummary(tag, fs, skip));
            a.Keys == b.Keys && forall n | n in a :: Weight(a[n], d, json) <= Weight(b[n], d, json)
  {
    var fs' := ReduceEntries(Dict(fs), json);
    var a, b := RelaySummary(tag, fs', skip), RelaySummary(tag, fs, skip);
    FoldKeysNames(Sorted(fs.Keys - skip), fs, fs');
    assert a.Keys == b.Keys;
    forall n | n in b ensures Weight(a[n], d, json) <= Weight(b[n], d, json) {
      if n in RelayFields(fs, skip) {
        var k := RelayFieldShrinks(fs, skip, n, json);
        SlotShrinks(k, fs[k], d, json);
      }
    }
  }

  lemma RelayFieldsKept(tag: string, fs: map<string, Value>, skip: set<string>, d: nat, json: Renderer)
    requires !CaseCollision(fs, skip)
    requires forall k | k in fs && k in skip :: fs[k].Str?
    requires var (a, b) := (RelaySummary(tag, ReduceEntries(Dict(fs), json), skip), RelaySummary(tag, fs, skip));
             a.Keys == b.Keys && forall n | n in a :: Weight(a[n], d, json) == Weight(b[n], d, json)
    ensures Untouched(Dict(fs))
  {
    var fs' := ReduceEntries(Dict(fs), json);
    forall k | k in fs ensures Kept(k, fs[k]) {
      if k !in skip {
        RelayFieldAt(fs, skip, k);
        RelayFieldAt(fs', skip, k);
        assert RelaySummary(tag, fs, skip)[Lower(k)] == fs[k];
        assert RelaySummary(tag, fs', skip)[Lower(k)] == ReduceSlot(k, fs[k], json);
        SlotShrinks(k, fs[k], d, json);
      }
    }
  }

  lemma RelayShrinks(m: map<string, Value>, d: nat, json: Renderer)
    requires !ShapeOf(m).NoRelay? && !Raises(Dict(m), None)
    ensures var m' := ReduceEntries(Dict(m), json);
            && ShapeOf(m') == ShapeOf(m)
            && Weight(Dict(CanonRelay(m')), d, json) <= Weight(Dict(CanonRelay(m)), d, json)
            && (Weight(Dict(CanonRelay(m')), d, json) == Weight(Dict(CanonRelay(m)), d, json) ==> Untouched(Dict(m)))
  {
    ReducedShape(m, json);
    var shape := ShapeOf(m);
    if shape.Wrapped? {
      WrappedKey(m);
      WrappedReduced(m, shape.key, json);
      CanonWrapped(m, shape.key, shape.tag);
      CanonWrapped(ReduceEntries(Dict(m), json), shape.key, shape.tag);
      RelaySummaryShrinks(shape.tag, m[shape.key].entries, {}, d, json);
    } else {
      RelaySummaryShrinks(shape.tag, m, {"type"}, d, json);
    }
  }

  // ---- The theorem -------------------------------------------------------------------------------------

  lemma PassedOnShrinks(m: map<string, Value>, key: Option<string>, d: nat, json: Renderer)
    requires !ShapeOf(m).NoRelay? || DIGEST in m
    requires !Raises(Dict(m), key)
    ensures var (s, s') := (Summarise(Dict(m), key, json), Summarise(Reduce(Dict(m), json), key, json));
            && Weight(s', d, json) <= Weight(s, d, json)
            && (Weight(s', d, json) == Weight(s, d, json) ==> Untouched(Dict(m)))
  {
    var m' := ReduceEntries(Dict(m), json);
    ReducedShape(m, json);
    if ShapeOf(m).NoRelay? {
      SummariseReady(m, key, json);
      SummariseReady(m', key, json);
      ReduceShrinks(Dict(m), d, json);
    } else {
      SummariseRelay(m, key, json);
      SummariseRelay(m', key, json);
      RelayShrinks(m, d, json);
    }
  }

  lemma RelayWeighs(m: map<string, Value>, d: nat, json: Renderer)
    requires !ShapeOf(m).NoRelay?
    ensures Weight(Dict(CanonRelay(m)), d, json) >= 1
  {
    WeightDict(CanonRelay(m), d, json);
    assert RELAY in CanonRelay(m);
  }

  lemma HashedSlotsWeight(total: Option<Value>, slots: map<string, Value>, d: nat, json: Renderer)
    requires Faithful(json) && (total.Some? ==> Number(total.value))
    ensures Weight(Dict(LargeRecord(|slots|, MapText(MapLines(FoldEntries(slots), json)), total)), d + 1, json) ==
            EntriesWeight(slots, d, json)
  {
    LargeRecordWeight(|slots|, MapText(MapLines(FoldEntries(slots), json)), total, d, json);
    FoldedTextWeight(slots, d, json);
  }

  ghost function EntriesWeight(m: map<string, Value>, d: nat, json: Renderer): nat {
    MapSum(EntryWeights(Dict(m), d, json))
  }

  lemma FoldedTextWeight(slots: map<string, Value>, d: nat, json: Renderer)
    requires Faithful(json)
    ensures InputWeight(MapText(MapLines(FoldEntries(slots), json)), d, json) == EntriesWeight(slots, d, json)
  {
    WeightMapText(FoldEntries(slots), d, json);
    WeightFoldEntries(slots, d, json);
  }

  lemma AssembledWeight(total: Option<Value>, slots: map<string, Value>, d: nat, e: nat, json: Renderer)
    requires Faithful(json) && d == e + 1 && (total.Some? ==> Number(total.value))
    ensures Weight(Dict(Assemble(total, slots, json)), d, json) == SlotsWeight(slots, d, e, json)
  {
    HashedSlotsWeight(total, slots, e, json);
  }

  lemma TotalIsNumber(m: map<string, Value>)
    ensures Total(m).Some? ==> Number(Total(m).value)
  {
  }

  /** The entries of a hashed map are seen at the lower level `e`, those of a small one at `d`. */
  function Inside(m: map<string, Value>, d: nat, e: nat): nat {
    if |m.Keys| > LARGE_MAP_THRESHOLD then e else d
  }

  predicate Read(m: map<string, Value>, k: string) {
    k in m && (|m.Keys| > LARGE_MAP_THRESHOLD || k != "stakePercent")
  }

  /** Every slot the summary reads has shrunk, or all have kept their weight. */
  ghost predicate SlotsBelow(a: map<string, Value>, a': map<string, Value>, e: nat, json: Renderer) {
    a'.Keys == a.Keys && forall k | Read(a, k) :: Weight(a'[k], e, json) <= Weight(a[k], e, json)
  }

  ghost predicate SlotsLevel(a: map<string, Value>, a': map<string, Value>, e: nat, json: Renderer) {
    a'.Keys == a.Keys && forall k | Read(a, k) :: Weight(a'[k], e, json) == Weight(a[k], e, json)
  }

  lemma SmallShrinks(a: map<string, Value>, a': map<string, Value>, d: nat, json: Renderer)
    requires SlotsBelow(a, a', d, json) && |a.Keys| <= LARGE_MAP_THRESHOLD
    ensures var (b, b') := (Dict(a - {"stakePercent"}), Dict(a' - {"stakePercent"}));
            && Weight(b', d, json) <= Weight(b, d, json)
            && (Weight(b', d, json) == Weight(b, d, json) ==> SlotsLevel(a, a', d, json))
  {
    var b, b' := a - {"stakePercent"}, a' - {"stakePercent"};
    assert b.Keys == a.Keys - {"stakePercent"} && b'.Keys == b.Keys;
    forall k | k in b ensures Weight(b'[k], d, json) <= Weight(b[k], d, json) {
      assert Read(a, k);
    }
    EntriesOrdered(b', b, d, json);
    WeightDict(b, d, json);
    WeightDict(b', d, json);
    if Weight(Dict(b'), d, json) == Weight(Dict(b), d, json) {
      forall k | Read(a, k) ensures Weight(a'[k], d, json) == Weight(a[k], d, json) {
        assert k in b && b[k] == a[k] && b'[k] == a'[k];
      }
    }
  }

  lemma LargeShrinks(a: map<string, Value>, a': map<string, Value>, e: nat, json: Renderer)
    requires SlotsBelow(a, a', e, json) && |a.Keys| > LARGE_MAP_THRESHOLD
    ensures EntriesWeight(a', e, json) <= EntriesWeight(a, e, json)
    ensures EntriesWeight(a', e, json) == EntriesWeight(a, e, json) ==> SlotsLevel(a, a', e, json)
  {
    forall k | k in a' ensures Weight(a'[k], e, json) <= Weight(a[k], e, json) {
      assert Read(a, k);
    }
    EntriesOrdered(a', a, e, json);
  }

  /** What an assembled summary weighs. */
  ghost function SlotsWeight(slots: map<string, Value>, d: nat, e: nat, json: Renderer): nat {
    if |slots| > LARGE_MAP_THRESHOLD then EntriesWeight(slots, e, json)
    else Weight(Dict(slots - {"stakePercent"}), d, json)
  }

  /** Slots that all shrink make an assembled summary shrink. */
  lemma AssembledShrinks(
      s: Value, a: map<string, Value>, s': Value, a': map<string, Value>, d: nat, e: nat, json: Renderer)
    requires SlotsBelow(a, a', Inside(a, d, e), json)
    requires Weight(s, d, json) == SlotsWeight(a, d, e, json) && Weight(s', d, json) == SlotsWeight(a', d, e, json)
    ensures Weight(s', d, json) <= Weight(s, d, json)
    ensures Weight(s', d, json) == Weight(s, d, json) ==> SlotsLevel(a, a', Inside(a, d, e), json)
  {
    assert |a| == |a.Keys| && |a'| == |a'.Keys|;
    if |a| > LARGE_MAP_THRESHOLD {
      LargeShrinks(a, a', e, json);
    } else {
      SmallShrinks(a, a', d, json);
    }
  }

  lemma {:induction false} SummaryShrinks(v: Value, key: Option<string>, d: nat, json: Renderer)
    requires Faithful(json) && !Raises(v, key) && d >= Depth(v)
    ensures var (s, s') := (Summarise(v, key, json), Summarise(ReduceAt(key, v, json), key, json));
            Weight(s', d, json) <= Weight(s, d, json) && (Weight(s', d, json) == Weight(s, d, json) ==> Safe(v, key))
    decreases v, 2
  {
    ReduceAtIs(key, v, json);
    match v {
      case Dict(m) =>
        if key.Some? && Target(key.value, v) {
          RecordSummary(m, key, json);
          DigestRecordWeightless(m, d, json);
          if !ShapeOf(m).NoRelay? {
            SummariseRelay(m, key, json);
            RelayWeighs(m, d, json);
          }
        } else if !ShapeOf(m).NoRelay? || DIGEST in m {
          PassedOnShrinks(m, key, d, json);
        } else {
          DictShrinks(m, key, d, json);
        }
      case List(xs) => ListShrinks(xs, key, d, json);
      case _ =>
    }
  }

  lemma SafeOrdinary(m: map<string, Value>, key: Option<string>)
    requires ShapeOf(m).NoRelay? && DIGEST !in m && !(key.Some? && Target(key.value, Dict(m)))
    ensures Safe(Dict(m), key) <==> forall k | Read(m, k) :: Safe(m[k], Some(k))
  {
    assert |m| == |m.Keys|;
  }

  lemma {:induction false} DictShrinks(m: map<string, Value>, key: Option<string>, d: nat, json: Renderer)
    requires Faithful(json) && !Raises(Dict(m), key) && d >= Depth(Dict(m))
    requires ShapeOf(m).NoRelay? && DIGEST !in m && !(key.Some? && Target(key.value, Dict(m)))
    ensures var (s, s') := (Summarise(Dict(m), key, json), Summarise(Reduce(Dict(m), json), key, json));
            && Weight(s', d, json) <= Weight(s, d, json)
            && (Weight(s', d, json) == Weight(s, d, json) ==> Safe(Dict(m), key))
    decreases Dict(m), 1
  {
    SafeOrdinary(m, key);
    if Digestable(key) && Flat(m) {
      assert m == map[] && ReduceEntries(Dict(m), json) == m;
    } else {
      DepthBelow(Dict(m));
      var e := d - 1;
      SlotsShrink(m, key, d, e, json);
      AssembledSlots(m, key, d, e, json);
    }
  }

  lemma AssembledSlots(m: map<string, Value>, key: Option<string>, d: nat, e: nat, json: Renderer)
    requires Faithful(json) && d == e + 1
    requires ShapeOf(m).NoRelay? && DIGEST !in m && !(Digestable(key) && Flat(m))
    requires SlotsBelow(Slots(Dict(m), json), Slots(Dict(ReduceEntries(Dict(m), json)), json), Inside(m, d, e), json)
    ensures var (s, s') := (Summarise(Dict(m), key, json), Summarise(Reduce(Dict(m), json), key, json));
            var (a, a') := (Slots(Dict(m), json), Slots(Dict(ReduceEntries(Dict(m), json)), json));
            && Weight(s', d, json) <= Weight(s, d, json)
            && (Weight(s', d, json) == Weight(s, d, json) ==> SlotsLevel(a, a', Inside(m, d, e), json))
  {
    var m' := ReduceEntries(Dict(m), json);
    DictSummaries(m, key, json);
    TotalIsNumber(m);
    TotalIsNumber(m');
    AssembledWeight(Total(m), Slots(Dict(m), json), d, e, json);
    AssembledWeight(Total(m'), Slots(Dict(m'), json), d, e, json);
    AssembledShrinks(Summarise(Dict(m), key, json), Slots(Dict(m), json),
                     Summarise(Reduce(Dict(m), json), key, json), Slots(Dict(m'), json), d, e, json);
  }

  lemma {:induction false} SlotsShrink(m: map<string, Value>, key: Option<string>, d: nat, e: nat, json: Renderer)
    requires Faithful(json) && !Raises(Dict(m), key) && d >= Depth(Dict(m)) && d == e + 1
    requires ShapeOf(m).NoRelay? && DIGEST !in m && !(Digestable(key) && Flat(m))
    ensures var (a, a') := (Slots(Dict(m), json), Slots(Dict(ReduceEntries(Dict(m), json)), json));
            && SlotsBelow(a, a', Inside(m, d, e), json)
            && (SlotsLevel(a, a', Inside(m, d, e), json) ==> forall k | Read(m, k) :: Safe(m[k], Some(k)))
    decreases Dict(m), 0
  {
    var a, a', f := Slots(Dict(m), json), Slots(Dict(ReduceEntries(Dict(m), json)), json), Inside(m, d, e);
    DepthBelow(Dict(m));
    forall k | Read(m, k) ensures SlotSafe(m, a, a', k, f, json) {
      SummarySlotShrinks(m, k, f, json);
    }
    SlotsFromEach(m, a, a', f, json);
  }

  /** The summary of one slot has shrunk, and not at all only if the slot is safe. */
  ghost predicate SlotSafe(
      m: map<string, Value>, a: map<string, Value>, a': map<string, Value>, k: string, f: nat, json: Renderer)
  {
    && k in m && k in a && k in a' && Weight(a'[k], f, json) <= Weight(a[k], f, json)
    && (Weight(a'[k], f, json) == Weight(a[k], f, json) ==> Safe(m[k], Some(k)))
  }

  lemma SlotsFromEach(m: map<string, Value>, a: map<string, Value>, a': map<string, Value>, f: nat, json: Renderer)
    requires a.Keys == m.Keys && a'.Keys == m.Keys && forall k | Read(m, k) :: SlotSafe(m, a, a', k, f, json)
    ensures SlotsBelow(a, a', f, json)
    ensures SlotsLevel(a, a', f, json) ==> forall k | Read(m, k) :: Safe(m[k], Some(k))
  {
    forall k | Read(a, k) ensures Weight(a'[k], f, json) <= Weight(a[k], f, json) {
      assert Read(m, k) && SlotSafe(m, a, a', k, f, json);
    }
    if SlotsLevel(a, a', f, json) {
      forall k | Read(m, k) ensures Safe(m[k], Some(k)) {
        assert Read(a, k) && SlotSafe(m, a, a', k, f, json);
      }
    }
  }

  lemma {:induction false} SummarySlotShrinks(m: map<string, Value>, k: string, f: nat, json: Renderer)
    requires Faithful(json) && k in m && !Raises(m[k], Some(k)) && f >= Depth(m[k])
    ensures SlotSafe(m, Slots(Dict(m), json), Slots(Dict(ReduceEntries(Dict(m), json)), json), k, f, json)
    decreases m[k], 3
  {
    SummaryShrinks(m[k], Some(k), f, json);
  }

  lemma StaysOrdinary(m: map<string, Value>, key: Option<string>, json: Renderer)
    requires ShapeOf(m).NoRelay? && DIGEST !in m && !(Digestable(key) && Flat(m))
    ensures var m' := ReduceEntries(Dict(m), json);
            ShapeOf(m').NoRelay? && DIGEST !in m' && !(Digestable(key) && Flat(m'))
  {
    ReducedShape(m, json);
    ReducedFlat(m, json);
  }

  lemma DictSummaries(m: map<string, Value>, key: Option<string>, json: Renderer)
    requires ShapeOf(m).NoRelay? && DIGEST !in m && !(Digestable(key) && Flat(m))
    ensures var m' := ReduceEntries(Dict(m), json);
            && Summarise(Dict(m), key, json) == Dict(Assemble(Total(m), Slots(Dict(m), json), json))
            && Summarise(Reduce(Dict(m), json), key, json) == Dict(Assemble(Total(m'), Slots(Dict(m'), json), json))
  {
    StaysOrdinary(m, key, json);
    SummariseOrdinary(m, key, json);
    SummariseOrdinary(ReduceEntries(Dict(m), json), key, json);
  }

  lemma HashedListWeight(each: seq<Value>, d: nat, json: Renderer)
    requires Faithful(json)
    ensures Weight(Dict(LargeRecord(|each|, BagText(BagLines(FoldEach(each), json)), None)), d + 1, json) ==
            ListWeight(each, d, json)
  {
    LargeRecordWeight(|each|, BagText(BagLines(FoldEach(each), json)), None, d, json);
    WeightBagText(FoldEach(each), d, json);
    WeightFoldEach(each, d, json);
  }

  lemma WeightList(xs: seq<Value>, d: nat, json: Renderer)
    ensures Weight(List(xs), d, json) == ListWeight(xs, d, json)
  {
  }

  lemma ListSummaryWeight(xs: seq<Value>, key: Option<string>, d: nat, e: nat, json: Renderer)
    requires Faithful(json) && if |xs| > LARGE_MAP_THRESHOLD then d == e + 1 else d == e
    ensures Weight(Summarise(List(xs), key, json), d, json) == ListWeight(SummariseEach(xs, json), e, json)
  {
    if |xs| > LARGE_MAP_THRESHOLD {
      SummariseLong(xs, key, json);
      HashedListWeight(SummariseEach(xs, json), e, json);
    } else {
      SummariseShort(xs, key, json);
      WeightList(SummariseEach(xs, json), d, json);
    }
  }

  ghost predicate ElemsSafe(xs: seq<Value>, each: seq<Value>, each': seq<Value>, e: nat, json: Renderer) {
    && |each| == |xs| && |each'| == |xs|
    && (forall i | 0 <= i < |xs| :: Weight(each'[i], e, json) <= Weight(each[i], e, json))
    && forall i | 0 <= i < |xs| :: Weight(each'[i], e, json) == Weight(each[i], e, json) ==> Safe(xs[i], None)
  }

  lemma {:induction false} ListShrinks(xs: seq<Value>, key: Option<string>, d: nat, json: Renderer)
    requires Faithful(json) && !Raises(List(xs), key) && d >= Depth(List(xs))
    ensures var (s, s') := (Summarise(List(xs), key, json), Summarise(Reduce(List(xs), json), key, json));
            && Weight(s', d, json) <= Weight(s, d, json)
            && (Weight(s', d, json) == Weight(s, d, json) ==> Safe(List(xs), key))
    decreases List(xs), 1
  {
    var e := if |xs| > LARGE_MAP_THRESHOLD then d - 1 else d;
    ElemsShrink(xs, key, d, e, json);
    ListSummaryWeight(xs, key, d, e, json);
    ListSummaryWeight(ReduceEach(xs, json), key, d, e, json);
    ListLevel(Summarise(List(xs), key, json), SummariseEach(xs, json),
              Summarise(Reduce(List(xs), json), key, json), SummariseEach(ReduceEach(xs, json), json), xs, d, e, json);
  }

  lemma ListLevel(
      s: Value, each: seq<Value>, s': Value, each': seq<Value>, xs: seq<Value>, d: nat, e: nat, json: Renderer)
    requires ElemsSafe(xs, each, each', e, json)
    requires Weight(s, d, json) == ListWeight(each, e, json) && Weight(s', d, json) == ListWeight(each', e, json)
    ensures Weight(s', d, json) <= Weight(s, d, json)
    ensures Weight(s', d, json) == Weight(s, d, json) ==> forall i | 0 <= i < |xs| :: Safe(xs[i], None)
  {
    ListsOrdered(each', each, e, json);
  }

  lemma {:induction false} ElemsShrink(xs: seq<Value>, key: Option<string>, d: nat, e: nat, json: Renderer)
    requires Faithful(json) && !Raises(List(xs), key) && d >= Depth(List(xs)) && d <= e + 1
    ensures ElemsSafe(xs, SummariseEach(xs, json), SummariseEach(ReduceEach(xs, json), json), e, json)
    decreases List(xs), 0
  {
    DepthBelow(List(xs));
    var each, each' := SummariseEach(xs, json), SummariseEach(ReduceEach(xs, json), json);
    forall i | 0 <= i < |xs|
      ensures Weight(each'[i], e, json) <= Weight(each[i], e, json)
      ensures Weight(each'[i], e, json) == Weight(each[i], e, json) ==> Safe(xs[i], None)
    {
      assert ReduceAt(None, xs[i], json) == Reduce(xs[i], json);
      SummaryShrinks(xs[i], None, e, json);
    }
  }

  /** Reducing a dump file is invisible to the comparison exactly when the dump is safe. */
  lemma ReductionInvisibleIffSafe(v: Value, json: Renderer)
    requires Faithful(json) && !Raises(v, None)
    ensures Summarise(Reduce(v, json), None, json) == Summarise(v, None, json) <==> Safe(v, None)
    ensures Fold(Summarise(Reduce(v, json), None, json)) == Fold(Summarise(v, None, json)) <==> Safe(v, None)
  {
    ReduceAtIs(None, v, json);
    if Safe(v, None) {
      ReduceInvisible(v, None, json);
    } else {
      SummaryShrinks(v, None, Depth(v), json);
      WeightFold(Summarise(Reduce(v, json), None, json), Depth(v), json);
      WeightFold(Summarise(v, None, json), Depth(v), json);
    }
  }

  /** A stake map that happens to spell a relay is summarised differently once reduced. */
  lemma RelayShapedStakeShows(m: map<string, Value>, json: Renderer)
    requires ShapeOf(m).Tagged? && Flat(m) && DIGEST !in m
    ensures var dump := Dict(map["stake" := Dict(m)]);
            Summarise(Reduce(dump, json), None, json) != Summarise(dump, None, json)
  {
    var d := map["stake" := Dict(m)];
    var d' := ReduceEntries(Dict(d), json);
    StakeDumpIsPlain(m);
    StakeSlots(m, json);
    DictSummaries(d, None, json);
    var s, s' := Slots(Dict(d), json), Slots(Dict(d'), json);
    assert |s| == |s.Keys| && |s'| == |s'.Keys|;
    assert (s - {"stakePercent"})["stake"] != (s' - {"stakePercent"})["stake"];
  }

  lemma StakeSlots(m: map<string, Value>, json: Renderer)
    requires ShapeOf(m).Tagged? && Flat(m) && DIGEST !in m
    ensures var d := Dict(map["stake" := Dict(m)]);
            Slots(d, json)["stake"] != Slots(Dict(ReduceEntries(d, json)), json)["stake"]
  {
    var d := Dict(map["stake" := Dict(m)]);
    assert Target("stake", Dict(m));
    assert ReduceEntries(d, json)["stake"] == Dict(DigestRecord(m, json));
    SummariseRelay(m, Some("stake"), json);
    RecordSummary(m, Some("stake"), json);
    RelayKeyIsNew(m, m, json);
  }

  lemma StakeDumpIsPlain(m: map<string, Value>)
    ensures var d := map["stake" := Dict(m)];
            ShapeOf(d).NoRelay? && DIGEST !in d && |d| == 1 && "stake" != "stakePercent"
  {
    var d := map["stake" := Dict(m)];
    assert d.Keys == {"stake"};
    assert ShapeOf(d).NoRelay? by { assert Sorted(d.Keys)[0] in d.Keys; assert |"stake"| < 13; }
    assert |"stake"| != |DIGEST| && |"stake"| != |"stakePercent"|;
  }
}
