/**
 The node writes digest records itself, in Rust; the comparator reduces raw maps
 in Python.  When the two records of one map are the same.
 */
module NodeDigests {
  import opened Wrappers
  import opened Ordering
  import opened Decimals
  import opened Digests
  import opened Summaries
  import opened Comparisons
  import opened SummaryVerdicts

  const U64_LIMIT := 0x1_0000_0000_0000_0000
  const U128_LIMIT := U64_LIMIT * U64_LIMIT

  /** Integers of a JSON document fit a signed or an unsigned 64-bit word. */
  predicate JsonInts(m: map<string, Value>) {
    forall k | k in m && m[k].Int? :: -0x8000_0000_0000_0000 <= m[k].n < U64_LIMIT
  }

  /** Numbers and strings bare, anything else as printed JSON. */
  function NodeRendered(v: Value, json: Renderer): string {
    match v
    case Int(n) => IntText(n)
    case Str(s) => s
    case _ => json(v)
  }

  function NodeText(ks: seq<string>, m: map<string, Value>, json: Renderer): string
    requires Covers(m, ks)
  {
    if ks == [] then ""
    else
      var n := |ks| - 1;
      NodeText(ks[..n], m, json) + ks[n] + ":" + NodeRendered(m[ks[n]], json) + ";"
  }

  /** All values are natural numbers and their total fits 64 bits. */
  predicate SmallSum(m: map<string, Value>) {
    AllInts(m) && (forall k | k in m :: m[k].n >= 0) && Sum(m) < U64_LIMIT
  }

  function NodeRecord(m: map<string, Value>, json: Renderer): map<string, Value> {
    var rec := map["__count__" := Int(|m|), "__digest__" := Sha(FlatText(NodeText(Sorted(m.Keys), m, json)))];
    if SmallSum(m) then rec["__sum__" := Int(Sum(m))] else rec
  }

  predicate Naturals(ks: seq<string>, m: map<string, Value>) {
    CoversInts(m, ks) && forall i | 0 <= i < |ks| :: m[ks[i]].n >= 0
  }

  /** What the checked 128-bit accumulator holds after some keys. */
  ghost predicate Accumulated(sum: Option<nat>, ks: seq<string>, m: map<string, Value>) {
    && (sum.Some? <==> Naturals(ks, m) && SumOver(ks, m) < U128_LIMIT)
    && (sum.Some? ==> sum.value == SumOver(ks, m))
  }

  /** One more value on the accumulator: only natural numbers count, and 128 bits are the limit. */
  function CheckedAdd(sum: Option<nat>, v: Value): Option<nat> {
    if sum.Some? && v.Int? && v.n >= 0 && sum.value + v.n < U128_LIMIT then Some(sum.value + v.n) else None
  }

  lemma AccumulateNext(sum: Option<nat>, ks: seq<string>, i: nat, m: map<string, Value>)
    requires i < |ks| && Covers(m, ks) && Accumulated(sum, ks[..i], m)
    ensures Accumulated(CheckedAdd(sum, m[ks[i]]), ks[..i + 1], m)
  {
    var v := m[ks[i]];
    SplitHere(ks, i);
    CoversSnoc(ks[..i], ks[i], m);
    if CoversInts(m, ks[..i + 1]) {
      SumSnoc(ks[..i], ks[i], m);
      NaturalsSnoc(ks[..i], ks[i], m);
    }
  }

  lemma NaturalsSnoc(ks: seq<string>, k: string, m: map<string, Value>)
    requires k in m && m[k].Int? && CoversInts(m, ks)
    ensures Naturals(ks + [k], m) <==> Naturals(ks, m) && m[k].n >= 0
    ensures Naturals(ks, m) ==> SumOver(ks, m) >= 0
  {
    if Naturals(ks + [k], m) {
      assert (ks + [k])[|ks|] == k;
      assert forall i | 0 <= i < |ks| :: (ks + [k])[i] == ks[i];
    }
    if Naturals(ks, m) { SumNatural(ks, m); }
  }

  lemma {:induction false} SumNatural(ks: seq<string>, m: map<string, Value>)
    requires Naturals(ks, m)
    ensures SumOver(ks, m) >= 0
  {
    if ks != [] {
      SumNatural(ks[1..], m);
    }
  }

  lemma NodeTextNext(ks: seq<string>, i: nat, m: map<string, Value>, json: Renderer)
    requires i < |ks| && Covers(m, ks)
    ensures NodeText(ks[..i + 1], m, json) ==
            NodeText(ks[..i], m, json) + ks[i] + ":" + NodeRendered(m[ks[i]], json) + ";"
  {
    assert ks[..i + 1][..i] == ks[..i];
  }

  /** The hashing loop of the node, with its checked sums. */
  method NodeDigestOfMap(m: map<string, Value>, json: Renderer) returns (out: map<string, Value>)
    requires JsonInts(m)
    ensures out == NodeRecord(m, json)
  {
    var keys := Sorted(m.Keys);
    var hashed, sum := HashKeys(keys, m, json);
    SumFits(sum, m);
    out := map["__count__" := Int(|m|)];
    if sum.Some? && sum.value < U64_LIMIT {
      out := out["__sum__" := Int(sum.value)];
    }
    out := out["__digest__" := Sha(FlatText(hashed))];
    RecordKeys();
  }

  method HashKeys(keys: seq<string>, m: map<string, Value>, json: Renderer)
    returns (hashed: string, sum: Option<nat>)
    requires Covers(m, keys)
    ensures hashed == NodeText(keys, m, json) && Accumulated(sum, keys, m)
  {
    hashed, sum := "", Some(0);
    var i := 0;
    while i < |keys|
      invariant 0 <= i <= |keys|
      invariant hashed == NodeText(keys[..i], m, json)
      invariant Accumulated(sum, keys[..i], m)
    {
      var v := m[keys[i]];
      AccumulateNext(sum, keys, i, m);
      NodeTextNext(keys, i, m, json);
      sum := CheckedAdd(sum, v);
      hashed := hashed + keys[i] + ":" + NodeRendered(v, json) + ";";
      i := i + 1;
    }
    assert keys[..i] == keys;
  }

  lemma SumFits(sum: Option<nat>, m: map<string, Value>)
    requires Accumulated(sum, Sorted(m.Keys), m)
    ensures sum.Some? && sum.value < U64_LIMIT <==> SmallSum(m)
    ensures SmallSum(m) ==> sum.value == Sum(m)
  {
    var ks := Sorted(m.Keys);
    IntsListed(m, ks);
    if Naturals(ks, m) {
      forall k | k in m ensures m[k].n >= 0 {
        var i :| 0 <= i < |ks| && ks[i] == k;
      }
    }
    assert U64_LIMIT < U128_LIMIT;
  }

  // ---- Against the comparator -----------------------------------------------------------------------

  predicate IntsAndTexts(m: map<string, Value>) {
    forall k | k in m :: m[k].Int? || m[k].Str?
  }

  /** Integers and strings are rendered alike by both. */
  lemma {:induction false} TextsMatch(ks: seq<string>, m: map<string, Value>, json: Renderer)
    requires Covers(m, ks) && IntsAndTexts(m)
    ensures NodeText(ks, m, json) == TextOf(ks, m, json)
    decreases |ks|
  {
    if ks == [] {
      assert NodeText(ks, m, json) == "" && TextOf(ks, m, json) == "";
    } else {
      var n := |ks| - 1;
      TextsMatch(ks[..n], m, json);
      TextLast(ks, m, json);
      EntryAppended(TextOf(ks[..n], m, json), ks[n], Rendered(m[ks[n]], json));
    }
  }

  lemma TextLast(ks: seq<string>, m: map<string, Value>, json: Renderer)
    requires Covers(m, ks) && ks != []
    ensures var n := |ks| - 1;
            TextOf(ks, m, json) == TextOf(ks[..n], m, json) + (ks[n] + ":" + Rendered(m[ks[n]], json) + ";")
  {
    var n := |ks| - 1;
    TextSnoc(ks[..n], ks[n], m, json);
    assert ks == ks[..n] + [ks[n]];
  }

  lemma EntryAppended(t: string, k: string, x: string)
    ensures t + k + ":" + x + ";" == t + (k + ":" + x + ";")
  {
  }

  /**
   Both implementations write the same record for a map of integers and strings
   exactly when it holds a string, or only natural numbers whose total fits 64 bits.
   */
  lemma RecordsMatchIff(m: map<string, Value>, json: Renderer)
    requires IntsAndTexts(m)
    ensures NodeRecord(m, json) == DigestRecord(m, json) <==> (AllInts(m) ==> SmallSum(m))
  {
    TextsMatch(Sorted(m.Keys), m, json);
    RecordFields(m, json);
    NodeFields(m, json);
  }

  lemma NodeFields(m: map<string, Value>, json: Renderer)
    ensures var r := NodeRecord(m, json);
            && "__count__" in r && r["__count__"] == Int(|m|) && ("__sum__" in r <==> SmallSum(m))
            && DIGEST in r && r[DIGEST] == Sha(FlatText(NodeText(Sorted(m.Keys), m, json)))
            && (SmallSum(m) ==> r["__sum__"] == Int(Sum(m))) && (forall k | k in r :: RecordKey(k))
  {
    RecordKeys();
  }

  /** Under a key of the era the node's record and the reduced raw map compare clean exactly then. */
  lemma NodeRecordCompares(strict: bool, m: map<string, Value>, json: Renderer)
    requires IntsAndTexts(m)
    ensures Alike(strict, Dict(NodeRecord(m, json)), Dict(DigestRecord(m, json))) <==>
            (strict && AllInts(m) ==> SmallSum(m))
  {
    BothRecords(m, json);
    NodeKeys(m, json);
    SameDigestAlike(strict, Dict(NodeRecord(m, json)), Dict(DigestRecord(m, json)));
  }

  lemma BothRecords(m: map<string, Value>, json: Renderer)
    requires IntsAndTexts(m)
    ensures var r, q := NodeRecord(m, json), DigestRecord(m, json);
            && IsRecord(Dict(r)) && IsRecord(Dict(q)) && r[DIGEST] == q[DIGEST]
            && forall k | k in r && k in q && k != DIGEST :: r[k].Int? && r[k] == q[k]
  {
    TextsMatch(Sorted(m.Keys), m, json);
    NodeFields(m, json);
    FlatIsRecord(m, json);
    FlatEntries(m, json);
    RecordFields(m, json);
  }

  lemma NodeKeys(m: map<string, Value>, json: Renderer)
    ensures NodeRecord(m, json).Keys == DigestRecord(m, json).Keys <==> (AllInts(m) ==> SmallSum(m))
  {
    RecordKeys();
    assert NodeRecord(m, json).Keys == {"__count__", DIGEST} + if SmallSum(m) then {"__sum__"} else {};
    assert DigestRecord(m, json).Keys == {"__count__", DIGEST} + if AllInts(m) then {"__sum__"} else {};
  }

  /** So is a boolean, which the one prints as JSON and the other as Python does. */
  lemma BooleanTellsApart(k: string, b: bool, json: Renderer)
    requires json(Bool(b)) == if b then "true" else "false"
    ensures NodeRecord(map[k := Bool(b)], json) != DigestRecord(map[k := Bool(b)], json)
  {
    var m: map<string, Value> := map[k := Bool(b)];
    SortedOne(k);
    assert m.Keys == {k};
    RecordFields(m, json);
    NodeFields(m, json);
    var x, y := if b then "true" else "false", if b then "True" else "False";
    OneEntry(k, m, json);
    TextAt(k, x, y);
  }

  lemma SortedOne(k: string)
    ensures Sorted({k}) == [k]
  {
    assert k in Sorted({k});
  }

  lemma OneEntry(k: string, m: map<string, Value>, json: Renderer)
    requires k in m
    ensures NodeText([k], m, json) == "" + k + ":" + NodeRendered(m[k], json) + ";"
    ensures TextOf([k], m, json) == k + ":" + Rendered(m[k], json) + ";" + ""
  {
    assert [k][..0] == [] && [k][1..] == [];
  }

  lemma TextAt(k: string, x: string, y: string)
    requires |x| > 0 && |y| > 0 && x[0] != y[0]
    ensures "" + k + ":" + x + ";" != k + ":" + y + ";" + ""
  {
    assert ("" + k + ":" + x + ";")[|k| + 1] == x[0];
    assert (k + ":" + y + ";" + "")[|k| + 1] == y[0];
  }

  /** One negative amount, or a total beyond 64 bits, is enough to tell them apart. */
  lemma NegativeTellsApart(k: string, n: int, json: Renderer)
    requires n < 0
    ensures NodeRecord(map[k := Int(n)], json) != DigestRecord(map[k := Int(n)], json)
  {
    var m: map<string, Value> := map[k := Int(n)];
    assert m[k].n < 0;
    assert AllInts(m) && !SmallSum(m);
    RecordsMatchIff(m, json);
  }
}
