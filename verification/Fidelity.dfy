/**
 When two summaries are equal, said of the raw dumps: hashes hide nothing but
 number types, the order of long lists and the types of digested entries.
 */
module SummaryFidelity {
  import opened Wrappers
  import opened Ordering
  import opened Decimals
  import opened Digests
  import opened CanonTexts
  import opened Summaries
  import opened Comparisons
  import opened SummaryParts

  // ---- Agreement of the raw parts ------------------------------------------------------------------

  predicate Reserved(k: string) {
    k == RELAY || k == DIGEST || k == "__count__" || k == "__sum__"
  }

  /** A dump as a node writes it: no ready-made records, and no separator inside a digested entry. */
  ghost predicate Raw(s: Side, json: Renderer)
    decreases Depth(s.v)
  {
    PartsBelow(s);
    match KindOf(s)
    case Scalar(_) => true
    case Items(xs) => forall i | 0 <= i < |xs| :: Raw(xs[i], json)
    case Fields(f) => forall k | k in f :: (Reserved(k) ==> k == RELAY && f[k].via.Tag?) && Raw(f[k], json)
    case FlatMap(m) => Separable(m, json)
    case BigMap(f) => forall k | k in f :: Raw(f[k], json)
    case BigList(xs) => forall i | 0 <= i < |xs| :: Raw(xs[i], json)
  }

  /** Inside a hash integral floats are integers; in a leaf numbers compare across all their types. */
  datatype Mode = Exact | Loose

  function View(mode: Mode, v: Value): Value {
    if mode.Exact? then Fold(v) else Plain(v)
  }

  /** Equal summaries, said of the raw parts: below a hash entry by entry, long lists up to order. */
  ghost predicate Same(mode: Mode, s: Side, t: Side, json: Renderer)
    decreases Depth(s.v), 1
  {
    PartsBelow(s);
    SameKinds(mode, Depth(s.v), KindOf(s), KindOf(t), json)
  }

  ghost predicate SameKinds(mode: Mode, d: nat, a: Kind, b: Kind, json: Renderer)
    requires KindBelow(a, d)
    decreases d, 0
  {
    match (a, b)
    case (Scalar(x), Scalar(y)) => View(mode, x) == View(mode, y)
    case (Items(xs), Items(ys)) => |xs| == |ys| && forall i | 0 <= i < |xs| :: Same(mode, xs[i], ys[i], json)
    case (Fields(f), Fields(g)) => f.Keys == g.Keys && forall k | k in f && k in g :: Same(mode, f[k], g[k], json)
    case (FlatMap(m), FlatMap(n)) => SameFlat(m, n, json)
    case (BigMap(f), BigMap(g)) => f.Keys == g.Keys && forall k | k in f && k in g :: Same(Exact, f[k], g[k], json)
    case (BigList(xs), BigList(ys)) =>
      |xs| == |ys| && forall i | 0 <= i < |xs| :: Occurrences(xs[i], xs, json) == Occurrences(xs[i], ys, json)
    case _ => false
  }

  ghost predicate SameFlat(m: map<string, Value>, n: map<string, Value>, json: Renderer) {
    SameRendering(m, n, json) && (AllInts(m) <==> AllInts(n))
  }

  ghost function Occurrences(x: Side, ys: seq<Side>, json: Renderer): nat
    decreases Depth(x.v), 2, |ys|
  {
    if ys == [] then 0
    else Occurrences(x, ys[..|ys| - 1], json) + if Same(Exact, x, ys[|ys| - 1], json) then 1 else 0
  }

  // ---- Views -------------------------------------------------------------------------------------

  lemma ViewKind(mode: Mode, v: Value)
    ensures View(mode, v).Dict? <==> v.Dict?
    ensures View(mode, v).List? <==> v.List?
    ensures View(mode, v).Sha? <==> v.Sha?
    ensures v.Sha? ==> View(mode, v) == v
    ensures v.Dict? ==> View(mode, v).entries.Keys == v.entries.Keys
  {
  }

  lemma ViewAt(mode: Mode, m: map<string, Value>, k: string)
    requires k in m
    ensures k in View(mode, Dict(m)).entries && View(mode, Dict(m)).entries[k] == View(mode, m[k])
  {
  }

  lemma ViewDict(mode: Mode, a: map<string, Value>, b: map<string, Value>)
    ensures View(mode, Dict(a)) == View(mode, Dict(b)) <==>
            a.Keys == b.Keys && forall k | k in a && k in b :: View(mode, a[k]) == View(mode, b[k])
  {
    var x, y := View(mode, Dict(a)), View(mode, Dict(b));
    ViewKind(mode, Dict(a));
    ViewKind(mode, Dict(b));
    forall k | k in a ensures x.entries[k] == View(mode, a[k]) { ViewAt(mode, a, k); }
    forall k | k in b ensures y.entries[k] == View(mode, b[k]) { ViewAt(mode, b, k); }
    if a.Keys == b.Keys && forall k | k in a && k in b :: View(mode, a[k]) == View(mode, b[k]) {
      assert x.entries == y.entries;
    }
  }

  function ViewEach(mode: Mode, xs: seq<Value>): (r: seq<Value>)
    ensures |r| == |xs| && forall i | 0 <= i < |xs| :: r[i] == View(mode, xs[i])
  {
    if mode.Exact? then FoldEach(xs) else PlainEach(xs)
  }

  lemma ViewList(mode: Mode, xs: seq<Value>, ys: seq<Value>)
    ensures View(mode, List(xs)) == View(mode, List(ys)) <==>
            |xs| == |ys| && forall i | 0 <= i < |xs| :: View(mode, xs[i]) == View(mode, ys[i])
  {
    assert View(mode, List(xs)) == List(ViewEach(mode, xs)) && View(mode, List(ys)) == List(ViewEach(mode, ys));
    SeqsEqualIff(ViewEach(mode, xs), ViewEach(mode, ys));
  }

  // ---- The kinds do not mix ----------------------------------------------------------------------

  datatype Mark = ScalarMark | ListMark | NodeMark | FlatMark | MapMark | BagMark | OddMark

  function ShaMark(v: Value): Mark {
    if !v.Sha? then OddMark
    else
      match v.input
      case FlatText(_) => FlatMark
      case MapText(_) => MapMark
      case BagText(_) => BagMark
  }

  /** What gives a summary away, whatever its contents. */
  function MarkOf(v: Value): Mark {
    match v
    case Dict(m) => if DIGEST in m then ShaMark(m[DIGEST]) else NodeMark
    case List(_) => ListMark
    case _ => ScalarMark
  }

  function KindMark(k: Kind): Mark {
    match k
    case Scalar(_) => ScalarMark
    case Items(_) => ListMark
    case Fields(_) => NodeMark
    case FlatMap(_) => FlatMark
    case BigMap(_) => MapMark
    case BigList(_) => BagMark
  }

  lemma ViewMark(mode: Mode, v: Value)
    ensures MarkOf(View(mode, v)) == MarkOf(v)
  {
    ViewKind(mode, v);
    if v.Dict? && DIGEST in v.entries {
      ViewAt(mode, v.entries, DIGEST);
      ViewKind(mode, v.entries[DIGEST]);
    }
  }

  lemma BigMapMark(f: map<string, Side>, total: Option<Value>, json: Renderer)
    ensures MarkOf(Dict(BigMapRecord(f, total, json))) == MapMark
  {
    LargeRecordDigest(|f|, BigMapInput(f, json), total);
  }

  lemma BigListMark(xs: seq<Side>, json: Renderer)
    ensures MarkOf(Dict(BigListRecord(xs, json))) == BagMark
  {
    LargeRecordDigest(|xs|, BigListInput(xs, json), None);
  }

  lemma FlatMapMark(m: map<string, Value>, json: Renderer)
    ensures MarkOf(Dict(DigestRecord(m, json))) == FlatMark
  {
    RecordKeys();
  }

  lemma ImageMark(s: Side, json: Renderer)
    requires Raw(s, json)
    ensures MarkOf(Image(s, json)) == KindMark(KindOf(s))
  {
    ImageOf(s, json);
    match KindOf(s) {
      case FlatMap(m) => FlatMapMark(m, json);
      case BigMap(f) => BigMapMark(f, Total(s.v.entries), json);
      case BigList(xs) => BigListMark(xs, json);
      case _ =>
    }
  }

  lemma MixedDiffer(mode: Mode, s: Side, t: Side, json: Renderer)
    requires Raw(s, json) && Raw(t, json) && KindMark(KindOf(s)) != KindMark(KindOf(t))
    ensures View(mode, Image(s, json)) != View(mode, Image(t, json)) && !Same(mode, s, t, json)
  {
    ImageMark(s, json);
    ImageMark(t, json);
    ViewMark(mode, Image(s, json));
    ViewMark(mode, Image(t, json));
  }

  // ---- Records -----------------------------------------------------------------------------------

  lemma FlatIff(mode: Mode, m: map<string, Value>, n: map<string, Value>, json: Renderer)
    requires Separable(m, json) && Separable(n, json)
    ensures View(mode, Dict(DigestRecord(m, json))) == View(mode, Dict(DigestRecord(n, json))) <==> SameFlat(m, n, json)
  {
    var a, b := DigestRecord(m, json), DigestRecord(n, json);
    RecordKeys();
    ViewDict(mode, a, b);
    DigestUnambiguous(m, n, json);
    ViewKind(mode, a[DIGEST]);
    ViewKind(mode, b[DIGEST]);
    assert "__sum__" in a <==> AllInts(m);
    assert "__sum__" in b <==> AllInts(n);
    if SameFlat(m, n, json) {
      assert |m| == |m.Keys| && |n| == |n.Keys|;
      if AllInts(m) { SameIntTexts(m, n, json); }
      assert a == b;
    }
  }

  lemma NumberFolds(v: Value, key: Option<string>, json: Renderer)
    ensures Number(Fold(Summarise(v, key, json))) <==> Number(v)
    ensures Number(v) ==> Summarise(v, key, json) == v
  {
  }

  lemma FoldedNumber(v: Value, w: Value)
    requires Number(v) && Number(w)
    ensures Fold(v) == Fold(w) <==> Amount(v) == Amount(w)
    ensures Plain(v) == Plain(w) <==> Amount(v) == Amount(w)
  {
    if v.Int? && w.Int? && Amount(v) == Amount(w) {
      assert Amount(v).Floor == v.n && Amount(w).Floor == w.n;
    }
  }

  lemma {:induction false} RealSumAgrees(ks: seq<string>, m: map<string, Value>, n: map<string, Value>)
    requires Covers(m, ks) && Covers(n, ks)
    requires forall i | 0 <= i < |ks| :: Amount(m[ks[i]]) == Amount(n[ks[i]])
    ensures RealSum(ks, m) == RealSum(ks, n)
  {
    if ks != [] {
      RealSumAgrees(ks[1..], m, n);
    }
  }

  lemma {:induction false} IntSumIsReal(ks: seq<string>, m: map<string, Value>)
    requires CoversInts(m, ks)
    ensures SumOver(ks, m) as real == RealSum(ks, m)
  {
    if ks != [] {
      IntSumIsReal(ks[1..], m);
    }
  }

  lemma TotalIsReal(m: map<string, Value>)
    ensures Total(m).Some? <==> forall k | k in m :: Number(m[k])
    ensures Total(m).Some? ==> Number(Total(m).value) && Amount(Total(m).value) == RealSum(Sorted(m.Keys), m)
  {
    if AllInts(m) {
      IntSumIsReal(Sorted(m.Keys), m);
    }
  }

  ghost predicate SlotsFold(m: map<string, Value>, n: map<string, Value>, json: Renderer) {
    && m.Keys == n.Keys
    && forall k | k in m && k in n :: Fold(Summarise(m[k], Some(k), json)) == Fold(Summarise(n[k], Some(k), json))
  }

  ghost predicate TotalsMatch(mode: Mode, t: Option<Value>, u: Option<Value>) {
    t.Some? == u.Some? && (t.Some? ==> View(mode, t.value) == View(mode, u.value))
  }

  /** Totals follow the entries. */
  lemma TotalsAgree(mode: Mode, m: map<string, Value>, n: map<string, Value>, json: Renderer)
    requires SlotsFold(m, n, json)
    ensures TotalsMatch(mode, Total(m), Total(n))
  {
    forall k | k in m ensures Number(m[k]) <==> Number(n[k]) {
      NumberFolds(m[k], Some(k), json);
      NumberFolds(n[k], Some(k), json);
    }
    TotalIsReal(m);
    TotalIsReal(n);
    if Total(m).Some? {
      var ks := Sorted(m.Keys);
      forall i | 0 <= i < |ks| ensures Amount(m[ks[i]]) == Amount(n[ks[i]]) {
        NumberFolds(m[ks[i]], Some(ks[i]), json);
        NumberFolds(n[ks[i]], Some(ks[i]), json);
        FoldedNumber(m[ks[i]], n[ks[i]]);
      }
      RealSumAgrees(ks, m, n);
      FoldedNumber(Total(m).value, Total(n).value);
    }
  }

  lemma RecordsIff(mode: Mode, count: nat, h: HashInput, t: Option<Value>, count': nat, h': HashInput, u: Option<Value>)
    requires h == h' ==> count == count' && TotalsMatch(mode, t, u)
    ensures View(mode, Dict(LargeRecord(count, h, t))) == View(mode, Dict(LargeRecord(count', h', u))) <==> h == h'
  {
    var a, b := LargeRecord(count, h, t), LargeRecord(count', h', u);
    LargeRecordDigest(count, h, t);
    LargeRecordDigest(count', h', u);
    ViewDict(mode, a, b);
    ViewKind(mode, a[DIGEST]);
    ViewKind(mode, b[DIGEST]);
  }

  ghost predicate ImagesMatch(mode: Mode, a: map<string, Value>, b: map<string, Value>) {
    a.Keys == b.Keys && forall k | k in a && k in b :: View(mode, a[k]) == View(mode, b[k])
  }

  lemma FoldEntriesIff(a: map<string, Value>, b: map<string, Value>, json: Renderer)
    requires Faithful(json)
    ensures MapLines(FoldEntries(a), json) == MapLines(FoldEntries(b), json) <==> ImagesMatch(Exact, a, b)
  {
    var fa, fb := FoldEntries(a), FoldEntries(b);
    assert fa.Keys == a.Keys && fb.Keys == b.Keys;
    assert forall k | k in a :: fa[k] == Fold(a[k]);
    assert forall k | k in b :: fb[k] == Fold(b[k]);
    if MapLines(fa, json) == MapLines(fb, json) {
      MapLinesInjective(fa, fb, json);
    }
    if ImagesMatch(Exact, a, b) {
      assert fa == fb;
    }
  }

  // ---- Equal summaries ---------------------------------------------------------------------------

  ghost predicate AllRaw(f: map<string, Side>, json: Renderer) {
    forall k | k in f :: Raw(f[k], json)
  }

  ghost predicate EachRaw(xs: seq<Side>, json: Renderer) {
    forall i | 0 <= i < |xs| :: Raw(xs[i], json)
  }

  ghost predicate SameFields(mode: Mode, f: map<string, Side>, g: map<string, Side>, json: Renderer) {
    f.Keys == g.Keys && forall k | k in f && k in g :: Same(mode, f[k], g[k], json)
  }

  ghost predicate SameItems(mode: Mode, xs: seq<Side>, ys: seq<Side>, json: Renderer) {
    |xs| == |ys| && forall i | 0 <= i < |xs| :: Same(mode, xs[i], ys[i], json)
  }

  ghost predicate SameBag(xs: seq<Side>, ys: seq<Side>, json: Renderer) {
    |xs| == |ys| && forall i | 0 <= i < |xs| :: Occurrences(xs[i], xs, json) == Occurrences(xs[i], ys, json)
  }

  /** Summaries are equal exactly when the raw parts are. */
  lemma {:induction false} SameIff(mode: Mode, s: Side, t: Side, json: Renderer)
    requires Faithful(json) && Raw(s, json) && Raw(t, json)
    ensures View(mode, Image(s, json)) == View(mode, Image(t, json)) <==> Same(mode, s, t, json)
    decreases Depth(s.v), 3
  {
    PartsBelow(s);
    if KindMark(KindOf(s)) != KindMark(KindOf(t)) {
      MixedDiffer(mode, s, t, json);
    } else {
      match KindOf(s) {
        case Scalar(_) => ImageOf(s, json); ImageOf(t, json);
        case Items(_) => ListsSame(mode, s, t, json);
        case Fields(_) => NodesSame(mode, s, t, json);
        case FlatMap(m) => FlatIff(mode, m, KindOf(t).m, json); ImageOf(s, json); ImageOf(t, json);
        case BigMap(_) => BigMapsIff(mode, s, t, json);
        case BigList(_) => BagsSame(mode, s, t, json);
      }
    }
  }

  lemma {:induction false} ListsSame(mode: Mode, s: Side, t: Side, json: Renderer)
    requires Faithful(json) && Raw(s, json) && Raw(t, json) && KindOf(s).Items? && KindOf(t).Items?
    ensures View(mode, Image(s, json)) == View(mode, Image(t, json)) <==>
            SameItems(mode, KindOf(s).elems, KindOf(t).elems, json)
    decreases Depth(s.v), 2
  {
    PartsBelow(s);
    ImageOf(s, json);
    ImageOf(t, json);
    ItemsIff(mode, Depth(s.v), KindOf(s).elems, KindOf(t).elems, json);
  }

  lemma {:induction false} NodesSame(mode: Mode, s: Side, t: Side, json: Renderer)
    requires Faithful(json) && Raw(s, json) && Raw(t, json) && KindOf(s).Fields? && KindOf(t).Fields?
    ensures View(mode, Image(s, json)) == View(mode, Image(t, json)) <==>
            SameFields(mode, KindOf(s).sides, KindOf(t).sides, json)
    decreases Depth(s.v), 2
  {
    PartsBelow(s);
    ImageOf(s, json);
    ImageOf(t, json);
    var f, g := KindOf(s).sides, KindOf(t).sides;
    FieldsIff(mode, Depth(s.v), f, g, json);
    ViewDict(mode, ImageMap(f, json), ImageMap(g, json));
  }

  lemma {:induction false} BagsSame(mode: Mode, s: Side, t: Side, json: Renderer)
    requires Faithful(json) && Raw(s, json) && Raw(t, json) && KindOf(s).BigList? && KindOf(t).BigList?
    ensures View(mode, Image(s, json)) == View(mode, Image(t, json)) <==>
            SameBag(KindOf(s).all, KindOf(t).all, json)
    decreases Depth(s.v), 2
  {
    PartsBelow(s);
    ImageOf(s, json);
    ImageOf(t, json);
    var xs, ys := KindOf(s).all, KindOf(t).all;
    BagTextIff(Depth(s.v), xs, ys, json);
    RecordsIff(mode, |xs|, BigListInput(xs, json), None, |ys|, BigListInput(ys, json), None);
  }

  lemma {:induction false} FieldsIff(mode: Mode, d: nat, f: map<string, Side>, g: map<string, Side>, json: Renderer)
    requires Faithful(json) && AllBelow(f, d) && AllRaw(f, json) && AllRaw(g, json)
    ensures ImagesMatch(mode, ImageMap(f, json), ImageMap(g, json)) <==> SameFields(mode, f, g, json)
    decreases d, 0
  {
    var a, b := ImageMap(f, json), ImageMap(g, json);
    forall k | k in f && k in g ensures View(mode, a[k]) == View(mode, b[k]) <==> Same(mode, f[k], g[k], json) {
      SameIff(mode, f[k], g[k], json);
    }
  }

  lemma {:induction false} ItemsIff(mode: Mode, d: nat, xs: seq<Side>, ys: seq<Side>, json: Renderer)
    requires Faithful(json) && EachBelow(xs, d) && EachRaw(xs, json) && EachRaw(ys, json)
    ensures View(mode, List(Images(xs, json))) == View(mode, List(Images(ys, json))) <==> SameItems(mode, xs, ys, json)
    decreases d, 0
  {
    var a, b := Images(xs, json), Images(ys, json);
    ViewList(mode, a, b);
    forall i | 0 <= i < |xs| && i < |ys|
      ensures View(mode, a[i]) == View(mode, b[i]) <==> Same(mode, xs[i], ys[i], json)
    {
      SameIff(mode, xs[i], ys[i], json);
    }
  }

  lemma {:induction false} BigMapsIff(mode: Mode, s: Side, t: Side, json: Renderer)
    requires Faithful(json) && Raw(s, json) && Raw(t, json) && KindOf(s).BigMap? && KindOf(t).BigMap?
    ensures View(mode, Image(s, json)) == View(mode, Image(t, json)) <==>
            SameFields(Exact, KindOf(s).slots, KindOf(t).slots, json)
    decreases Depth(s.v), 2
  {
    PartsBelow(s);
    ImageOf(s, json);
    ImageOf(t, json);
    var f, g := KindOf(s).slots, KindOf(t).slots;
    FieldsIff(Exact, Depth(s.v), f, g, json);
    BigRecordsIff(mode, s.v.entries, t.v.entries, json);
  }

  lemma BigRecordsIff(mode: Mode, m: map<string, Value>, n: map<string, Value>, json: Renderer)
    requires Faithful(json)
    ensures var f, g := ReadEntries(m), ReadEntries(n);
            View(mode, Dict(BigMapRecord(f, Total(m), json))) == View(mode, Dict(BigMapRecord(g, Total(n), json)))
            <==> ImagesMatch(Exact, ImageMap(f, json), ImageMap(g, json))
  {
    var f, g := ReadEntries(m), ReadEntries(n);
    BigTextIff(mode, m, n, json);
    RecordsIff(mode, |f|, BigMapInput(f, json), Total(m), |g|, BigMapInput(g, json), Total(n));
  }

  /** The text of a large map determines its entries, and with them its count and total. */
  lemma BigTextIff(mode: Mode, m: map<string, Value>, n: map<string, Value>, json: Renderer)
    requires Faithful(json)
    ensures var f, g := ReadEntries(m), ReadEntries(n);
            && (BigMapInput(f, json) == BigMapInput(g, json) <==>
                ImagesMatch(Exact, ImageMap(f, json), ImageMap(g, json)))
            && (BigMapInput(f, json) == BigMapInput(g, json) ==>
                |f| == |g| && TotalsMatch(mode, Total(m), Total(n)))
  {
    var f, g := ReadEntries(m), ReadEntries(n);
    var a, b := ImageMap(f, json), ImageMap(g, json);
    FoldEntriesIff(a, b, json);
    if ImagesMatch(Exact, a, b) {
      SlotsMatch(m, n, json);
      TotalsAgree(mode, m, n, json);
      assert |f| == |f.Keys| && |g| == |g.Keys|;
    }
  }

  lemma SlotsMatch(m: map<string, Value>, n: map<string, Value>, json: Renderer)
    requires ImagesMatch(Exact, ImageMap(ReadEntries(m), json), ImageMap(ReadEntries(n), json))
    ensures SlotsFold(m, n, json)
  {
    var a, b := ImageMap(ReadEntries(m), json), ImageMap(ReadEntries(n), json);
    assert a.Keys == m.Keys && b.Keys == n.Keys;
    forall k | k in m && k in n
      ensures Fold(Summarise(m[k], Some(k), json)) == Fold(Summarise(n[k], Some(k), json))
    {
      assert View(Exact, a[k]) == View(Exact, b[k]);
    }
  }

  // ---- Bags --------------------------------------------------------------------------------------

  lemma {:induction false} BagInside<T>(p: multiset<T>, q: multiset<T>)
    requires |p| == |q| && forall x | x in p :: p[x] == q[x]
    ensures p == q
    decreases |p|
  {
    if x :| x in p {
      BagInside(p[x := 0], q[x := 0]);
      assert p == p[x := 0][x := p[x]] && q == q[x := 0][x := q[x]];
    }
  }

  lemma BagsEqualIff<T>(a: seq<T>, b: seq<T>)
    ensures multiset(a) == multiset(b) <==>
            |a| == |b| && forall i | 0 <= i < |a| :: multiset(a)[a[i]] == multiset(b)[a[i]]
  {
    assert |multiset(a)| == |a| && |multiset(b)| == |b|;
    if |a| == |b| && forall i | 0 <= i < |a| :: multiset(a)[a[i]] == multiset(b)[a[i]] {
      forall x | x in multiset(a) ensures multiset(a)[x] == multiset(b)[x] {
        assert x in a;
        var i :| 0 <= i < |a| && a[i] == x;
      }
      BagInside(multiset(a), multiset(b));
    }
  }

  /** Agreement with `x` shows as equality with its image. */
  ghost predicate Tells(x: Side, fx: Value, ys: seq<Side>, fy: seq<Value>, json: Renderer) {
    |fy| == |ys| && forall j | 0 <= j < |ys| :: Same(Exact, x, ys[j], json) <==> fx == fy[j]
  }

  lemma {:induction false} OccurrencesCount(x: Side, fx: Value, ys: seq<Side>, fy: seq<Value>, json: Renderer)
    requires Tells(x, fx, ys, fy, json)
    ensures Occurrences(x, ys, json) == multiset(fy)[fx]
    decreases |ys|
  {
    if ys != [] {
      var n := |ys| - 1;
      assert Tells(x, fx, ys[..n], fy[..n], json);
      OccurrencesCount(x, fx, ys[..n], fy[..n], json);
      CountSnoc(fy, fx);
      assert Same(Exact, x, ys[n], json) <==> fx == fy[n];
    }
  }

  lemma SameBagIff(xs: seq<Side>, fx: seq<Value>, ys: seq<Side>, fy: seq<Value>, json: Renderer)
    requires |fx| == |xs| && |fy| == |ys|
    requires forall i | 0 <= i < |xs| :: Tells(xs[i], fx[i], xs, fx, json)
    requires forall i | 0 <= i < |xs| :: Tells(xs[i], fx[i], ys, fy, json)
    ensures multiset(fx) == multiset(fy) <==> SameBag(xs, ys, json)
  {
    forall i | 0 <= i < |xs|
      ensures multiset(fx)[fx[i]] == multiset(fy)[fx[i]] <==>
              Occurrences(xs[i], xs, json) == Occurrences(xs[i], ys, json)
    {
      OccurrencesCount(xs[i], fx[i], xs, fx, json);
      OccurrencesCount(xs[i], fx[i], ys, fy, json);
    }
    BagsEqualIff(fx, fy);
  }

  lemma {:induction false} TellsAll(d: nat, x: Side, ys: seq<Side>, json: Renderer)
    requires Faithful(json) && Depth(x.v) < d && Raw(x, json) && EachRaw(ys, json)
    ensures Tells(x, Fold(Image(x, json)), ys, FoldEach(Images(ys, json)), json)
    decreases d, 0
  {
    forall j | 0 <= j < |ys|
      ensures Same(Exact, x, ys[j], json) <==> Fold(Image(x, json)) == FoldEach(Images(ys, json))[j]
    {
      SameIff(Exact, x, ys[j], json);
    }
  }

  /** The text of a long list determines its elements up to order. */
  lemma {:induction false} BagTextIff(d: nat, xs: seq<Side>, ys: seq<Side>, json: Renderer)
    requires Faithful(json) && EachBelow(xs, d) && EachRaw(xs, json) && EachRaw(ys, json)
    ensures BigListInput(xs, json) == BigListInput(ys, json) <==> SameBag(xs, ys, json)
    decreases d, 1
  {
    var fx, fy := FoldEach(Images(xs, json)), FoldEach(Images(ys, json));
    forall i | 0 <= i < |xs| ensures Tells(xs[i], fx[i], xs, fx, json) && Tells(xs[i], fx[i], ys, fy, json) {
      TellsAll(d, xs[i], xs, json);
      TellsAll(d, xs[i], ys, json);
    }
    SameBagIff(xs, fx, ys, fy, json);
    BagLinesIff(fx, fy, json);
  }
}
