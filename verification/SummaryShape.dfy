/**
 The shape of a summary, with the constants of the tool: what is digested, what
 is hashed, and what is kept entry by entry.
 */
module SummaryShapes {
  import opened Wrappers
  import opened Ordering
  import opened Digests
  import opened CanonTexts
  import opened Summaries
  import opened Relays
  import SummaryParts

  predicate Bare(v: Value) {
    v.Int? || v.Str? || v.Sha?
  }

  predicate AllBareValues(m: map<string, Value>) {
    forall k | k in m :: Bare(m[k])
  }

  predicate DigestKey(key: Option<string>) {
    key == Some("stake") || key == Some("delegations")
  }

  /** Stake and delegation maps of numbers and strings are digested, whatever their size. */
  lemma DigestedMap(m: map<string, Value>, key: Option<string>, json: Renderer)
    requires !IsRelay(m) && DIGEST !in m && DigestKey(key) && AllBareValues(m)
    ensures Summarise(Dict(m), key, json) == Dict(DigestRecord(m, json))
  {
    RelayIff(m);
    SummariseDigestable(m, key, json);
  }

  /** Other maps of at most 500 keys keep every entry, summarised, except `stakePercent`. */
  lemma KeptMap(m: map<string, Value>, key: Option<string>, json: Renderer)
    requires !IsRelay(m) && DIGEST !in m && !(DigestKey(key) && AllBareValues(m)) && |m| <= 500
    ensures var s := Summarise(Dict(m), key, json);
            && s.Dict? && s.entries.Keys == m.Keys - {"stakePercent"}
            && forall k | k in s.entries :: s.entries[k] == Summarise(m[k], Some(k), json)
  {
    RelayIff(m);
    SummariseOrdinary(m, key, json);
    SummaryParts.SlotCount(m, json);
  }

  /** Larger ones become a record of their size, their total if they hold only numbers, and a hash. */
  lemma HashedMap(m: map<string, Value>, key: Option<string>, json: Renderer)
    requires !IsRelay(m) && DIGEST !in m && !(DigestKey(key) && AllBareValues(m)) && |m| > 500
    ensures var s := Summarise(Dict(m), key, json);
            && s.Dict? && s.entries.Keys <= {"__count__", "__digest__", "__sum__"} && DIGEST in s.entries
            && "__count__" in s.entries && s.entries["__count__"] == Int(|m|)
            && ("__sum__" in s.entries <==> forall k | k in m :: m[k].Int? || m[k].Float?)
            && (AllInts(m) ==> s.entries["__sum__"] == Int(Sum(m)))
  {
    LargeSummary(m, key, json);
    LargeShape(|m|, MapText(MapLines(FoldEntries(Slots(Dict(m), json)), json)), Total(m));
    TotalIff(m);
  }

  lemma LargeSummary(m: map<string, Value>, key: Option<string>, json: Renderer)
    requires !IsRelay(m) && DIGEST !in m && !(DigestKey(key) && AllBareValues(m)) && |m| > 500
    ensures Summarise(Dict(m), key, json) ==
            Dict(LargeRecord(|m|, MapText(MapLines(FoldEntries(Slots(Dict(m), json)), json)), Total(m)))
  {
    RelayIff(m);
    SummariseOrdinary(m, key, json);
    SummaryParts.SlotCount(m, json);
  }

  lemma TotalIff(m: map<string, Value>)
    ensures Total(m).Some? <==> forall k | k in m :: m[k].Int? || m[k].Float?
    ensures AllInts(m) ==> Total(m) == Some(Int(Sum(m)))
  {
  }

  lemma LargeShape(count: nat, h: HashInput, total: Option<Value>)
    ensures var r := LargeRecord(count, h, total);
            && r.Keys <= {"__count__", "__digest__", "__sum__"} && DIGEST in r
            && "__count__" in r && r["__count__"] == Int(count)
            && ("__sum__" in r <==> total.Some?) && (total.Some? ==> r["__sum__"] == total.value)
  {
    RecordKeys();
  }

  /** Lists of at most 500 elements are kept element by element; longer ones become a record. */
  lemma ListShape(xs: seq<Value>, key: Option<string>, json: Renderer)
    ensures var s := Summarise(List(xs), key, json);
            && (|xs| <= 500 ==>
                  && s.List? && |s.elems| == |xs|
                  && forall i | 0 <= i < |xs| :: s.elems[i] == Summarise(xs[i], None, json))
            && (|xs| > 500 ==>
                  s.Dict? && s.entries.Keys == {"__count__", "__digest__"} && s.entries["__count__"] == Int(|xs|))
  {
    if |xs| > 500 {
      SummariseLong(xs, key, json);
      RecordKeys();
    } else {
      SummariseShort(xs, key, json);
    }
  }

  /** On disk a map is replaced exactly when it is a raw stake or delegation map that is not empty. */
  lemma ReducedEntry(k: string, m: map<string, Value>, json: Renderer)
    ensures ReduceSlot(k, Dict(m), json) ==
            if (k == "stake" || k == "delegations") && m != map[] && "__digest__" !in m && AllBareValues(m)
            then Dict(DigestRecord(m, json)) else Dict(ReduceEntries(Dict(m), json))
  {
  }
}
