/**
 The verdict of comparing two summaries, as a relation between the raw dumps.
 */
module SummaryVerdicts {
  import opened Wrappers
  import opened Ordering
  import opened Decimals
  import opened Rationals
  import opened Digests
  import opened CanonTexts
  import opened Summaries
  import opened Comparisons
  import opened Relays
  import opened SummaryParts
  import opened SummaryFidelity

  // ---- Agreement of raw parts --------------------------------------------------------------------

  /** A part whose summary says nothing. */
  predicate Silent(kind: Kind) {
    match kind
    case Scalar(w) => w.Null?
    case Items(xs) => xs == []
    case Fields(f) => f == map[]
    case _ => false
  }

  predicate RatioKeys(f: map<string, Side>) {
    f.Keys == {"numerator", "denominator"}
  }

  function SideInt(s: Side): Option<int> {
    match KindOf(s)
    case Scalar(w) => AsInt(w)
    case _ => None
  }

  /** The number a pair of integers stands for, in lowest terms. */
  function RatioOf(f: map<string, Side>): Option<(int, int)> {
    if !RatioKeys(f) then None
    else
      var n, d := SideInt(f["numerator"]), SideInt(f["denominator"]);
      if n.Some? && d.Some? && d.value != 0 then Some(Lowest(n.value, d.value)) else None
  }

  /** Rationals by value; what only looks like one, part by part. */
  ghost predicate RatiosAgree(f: map<string, Side>, g: map<string, Side>, json: Renderer) {
    if RatioOf(f).Some? || RatioOf(g).Some? then RatioOf(f) == RatioOf(g) else SameFields(Loose, f, g, json)
  }

  predicate HasId(s: Side) {
    KindOf(s).Fields? && "poolId" in KindOf(s).sides
  }

  /** The textual id of a pool. */
  function SideId(s: Side): Option<string> {
    if !HasId(s) then None
    else
      match KindOf(KindOf(s).sides["poolId"])
      case Scalar(w) => if w.Str? then Some(w.s) else None
      case _ => None
  }

  function IdsOf(xs: seq<Side>): (r: seq<Option<string>>)
    ensures |r| == |xs| && forall i | 0 <= i < |xs| :: r[i] == SideId(xs[i])
  {
    seq(|xs|, i requires 0 <= i < |xs| => SideId(xs[i]))
  }

  function LastIndex(ids: seq<Option<string>>, id: string): (i: nat)
    requires Some(id) in ids
    ensures i < |ids| && ids[i] == Some(id)
  {
    var n := |ids| - 1;
    if ids[n] == Some(id) then n else LastIndex(ids[..n], id)
  }

  /**
   What a clean comparison of two summaries says of the dumps.  Unhashed parts
   agree as the walk would see them; below a hash everything must be equal, up
   to number spelling and the order of long lists; a hashed part is never
   looked into against an unhashed one.
   */
  ghost predicate Agree(strict: bool, s: Side, t: Side, json: Renderer)
    decreases Depth(s.v), 3
  {
    PartsBelow(s);
    || (!strict && Silent(KindOf(s)) && Silent(KindOf(t)))
    || AgreeKinds(strict, Depth(s.v), KindOf(s), KindOf(t), json)
  }

  ghost predicate AgreeKinds(strict: bool, d: nat, a: Kind, b: Kind, json: Renderer)
    requires KindBelow(a, d)
    decreases d, 2
  {
    match (a, b)
    case (Scalar(x), Scalar(y)) => LeafForm(x) == LeafForm(y)
    case (Fields(f), Fields(g)) =>
      if RatioKeys(f) || RatioKeys(g) then RatiosAgree(f, g, json) else AgreeFields(strict, d, f, g, json)
    case (Items(xs), Items(ys)) => |xs| == |ys| && AgreeItems(strict, d, xs, ys, json)
    case (FlatMap(m), FlatMap(n)) => SameRendering(m, n, json) && (strict ==> (AllInts(m) <==> AllInts(n)))
    case (BigMap(f), BigMap(g)) => SameFields(Exact, f, g, json)
    case (BigList(xs), BigList(ys)) => SameBag(xs, ys, json)
    case (Fields(f), _) => !strict && !RatioKeys(f) && Hashed(b)
    case (_, Fields(g)) => !strict && !RatioKeys(g) && Hashed(a)
    case _ => false
  }

  predicate Hashed(k: Kind) {
    k.FlatMap? || k.BigMap? || k.BigList?
  }

  ghost predicate AgreeFields(strict: bool, d: nat, f: map<string, Side>, g: map<string, Side>, json: Renderer)
    requires AllBelow(f, d)
    decreases d, 1
  {
    forall k | k in f.Keys + g.Keys :: AgreeAt(strict, d, f, g, k, json)
  }

  ghost predicate AgreeAt(
      strict: bool, d: nat, f: map<string, Side>, g: map<string, Side>, k: string, json: Renderer)
    requires AllBelow(f, d)
    decreases d, 0
  {
    || Excluded(k)
    || if k in f && k in g then Agree(strict, f[k], g[k], json) else !strict || (k !in f && k !in g)
  }

  ghost predicate AgreeItems(strict: bool, d: nat, xs: seq<Side>, ys: seq<Side>, json: Renderer)
    requires EachBelow(xs, d) && |xs| == |ys|
    decreases d, 1
  {
    if xs == [] || !HasId(xs[0]) then forall i | 0 <= i < |xs| :: Agree(strict, xs[i], ys[i], json)
    else
      var p, q := IdsOf(xs), IdsOf(ys);
      && None !in p && None !in q
      && forall id | Some(id) in p || Some(id) in q :: AgreePool(strict, d, xs, ys, id, json)
  }

  ghost predicate AgreePool(strict: bool, d: nat, xs: seq<Side>, ys: seq<Side>, id: string, json: Renderer)
    requires EachBelow(xs, d)
    decreases d, 0
  {
    var p, q := IdsOf(xs), IdsOf(ys);
    if Some(id) in p && Some(id) in q then Agree(strict, xs[LastIndex(p, id)], ys[LastIndex(q, id)], json)
    else !strict || (Some(id) !in p && Some(id) !in q)
  }

  // ---- Summaries that differ in kind -------------------------------------------------------------

  predicate RecordKey(k: string) {
    k == "__count__" || k == DIGEST || k == "__sum__"
  }

  /** The keys of a record, all of which the walk compares. */
  lemma RecordKeysSeen(k: string)
    requires RecordKey(k)
    ensures !Excluded(k) && k != "numerator" && k != "denominator"
  {
    SegmentLength(k);
    assert |"stakePercent"| == 12;
    assert "numerator"[0] == 'n' && "denominator"[0] == 'd' && k[0] == '_';
  }

  ghost predicate IsRecord(v: Value) {
    v.Dict? && DIGEST in v.entries && v.entries[DIGEST].Sha? && forall k | k in v.entries :: RecordKey(k)
  }

  lemma LargeIsRecord(count: nat, h: HashInput, total: Option<Value>)
    ensures IsRecord(Dict(LargeRecord(count, h, total)))
  {
    LargeRecordDigest(count, h, total);
  }

  lemma FlatIsRecord(m: map<string, Value>, json: Renderer)
    ensures IsRecord(Dict(DigestRecord(m, json)))
  {
    RecordKeys();
  }

  lemma RecordNoRatio(v: Value)
    requires IsRecord(v)
    ensures !RationalShape(v.entries) && v.entries != map[]
  {
    RecordKeysSeen(DIGEST);
  }

  lemma NodesDecide(strict: bool, a: Value, b: Value)
    requires BothNodes(a, b) && (strict || !(IsEmpty(a) && IsEmpty(b)))
    ensures Alike(strict, a, b) <==> AlikeNodes(strict, a, b)
  {
  }

  lemma OneSided(a: Value, b: Value)
    requires a.Dict? && b.Dict? && a.entries.Keys !! b.entries.Keys
    ensures AlikeNodes(false, a, b)
  {
    forall k | k in a.entries.Keys + b.entries.Keys ensures AlikeKey(false, a, b, k) {
    }
  }

  lemma UnseenBreaks(a: Value, b: Value, k: string)
    requires a.Dict? && b.Dict? && !Excluded(k) && (k in a.entries <==> k !in b.entries)
    ensures !AlikeNodes(true, a, b)
  {
    assert k in a.entries.Keys + b.entries.Keys;
    assert !AlikeKey(true, a, b, k);
  }

  /** A record never agrees with a list or a scalar. */
  lemma RecordAlone(strict: bool, r: Value, v: Value)
    requires IsRecord(r) && !v.Dict?
    ensures !Alike(strict, r, v) && !Alike(strict, v, r)
  {
    RecordNoRatio(r);
    KeepsKind(r);
    KeepsKind(v);
  }

  /** Against an ordinary node, its keys are all one-sided. */
  lemma RecordAgainstNode(strict: bool, r: Value, f: map<string, Value>)
    requires IsRecord(r) && forall k | RecordKey(k) :: k !in f
    ensures Alike(strict, r, Dict(f)) <==> !strict && !RationalShape(f)
    ensures Alike(strict, Dict(f), r) <==> !strict && !RationalShape(f)
  {
    RecordNoRatio(r);
    RecordKeysSeen(DIGEST);
    if !RationalShape(f) {
      NodesDecide(strict, r, Dict(f));
      NodesDecide(strict, Dict(f), r);
      if strict {
        UnseenBreaks(r, Dict(f), DIGEST);
        UnseenBreaks(Dict(f), r, DIGEST);
      } else {
        OneSided(r, Dict(f));
        OneSided(Dict(f), r);
      }
    } else {
      RatioIsNoRecord(r, f);
    }
  }

  lemma RatioIsNoRecord(r: Value, f: map<string, Value>)
    requires IsRecord(r) && RationalShape(f)
    ensures LeafForm(r) != LeafForm(Dict(f))
  {
    RecordNoRatio(r);
    KeepsKind(r);
    KeepsKind(Dict(f));
    RecordKeysSeen(DIGEST);
    assert DIGEST in Plain(r).entries && DIGEST !in Plain(Dict(f)).entries;
  }

  lemma DigestsDecide(strict: bool, r: Value, q: Value)
    requires IsRecord(r) && IsRecord(q) && r.entries[DIGEST] != q.entries[DIGEST]
    ensures !Alike(strict, r, q)
  {
    RecordNoRatio(r);
    RecordNoRatio(q);
    RecordKeysSeen(DIGEST);
    assert !AlikeKey(strict, r, q, DIGEST);
  }

  /** Records with the same digest agree when their other keys do. */
  lemma SameDigestAlike(strict: bool, r: Value, q: Value)
    requires IsRecord(r) && IsRecord(q) && r.entries[DIGEST] == q.entries[DIGEST]
    requires forall k | k in r.entries && k in q.entries && k != DIGEST :: Number(r.entries[k]) && Number(q.entries[k])
    requires forall k | k in r.entries && k in q.entries && k != DIGEST :: Plain(r.entries[k]) == Plain(q.entries[k])
    ensures Alike(strict, r, q) <==> (strict ==> r.entries.Keys == q.entries.Keys)
  {
    RecordNoRatio(r);
    RecordNoRatio(q);
    NodesDecide(strict, r, q);
    forall k | k in r.entries && k in q.entries ensures AlikeKey(strict, r, q, k) {
    }
    if strict && r.entries.Keys != q.entries.Keys {
      var k :| k in r.entries.Keys + q.entries.Keys && (k in r.entries <==> k !in q.entries);
      RecordKeysSeen(k);
      UnseenBreaks(r, q, k);
    } else {
      forall k | k in r.entries.Keys + q.entries.Keys ensures AlikeKey(strict, r, q, k) {
      }
    }
  }

  lemma LargeAlike(
      strict: bool, count: nat, h: HashInput, t: Option<Value>, count': nat, h': HashInput, u: Option<Value>)
    requires h == h' ==> count == count' && TotalsMatch(Loose, t, u)
    requires (t.Some? ==> Number(t.value)) && (u.Some? ==> Number(u.value))
    ensures Alike(strict, Dict(LargeRecord(count, h, t)), Dict(LargeRecord(count', h', u))) <==> h == h'
  {
    var r, q := Dict(LargeRecord(count, h, t)), Dict(LargeRecord(count', h', u));
    LargeIsRecord(count, h, t);
    LargeIsRecord(count', h', u);
    LargeRecordDigest(count, h, t);
    LargeRecordDigest(count', h', u);
    if h == h' {
      SameDigestAlike(strict, r, q);
    } else {
      DigestsDecide(strict, r, q);
    }
  }

  lemma FlatAlike(strict: bool, m: map<string, Value>, n: map<string, Value>, json: Renderer)
    requires Separable(m, json) && Separable(n, json)
    ensures Alike(strict, Dict(DigestRecord(m, json)), Dict(DigestRecord(n, json))) <==>
            SameRendering(m, n, json) && (strict ==> (AllInts(m) <==> AllInts(n)))
  {
    var r, q := Dict(DigestRecord(m, json)), Dict(DigestRecord(n, json));
    FlatIsRecord(m, json);
    FlatIsRecord(n, json);
    DigestUnambiguous(m, n, json);
    if SameRendering(m, n, json) {
      FlatOthersMatch(m, n, json);
      SameDigestAlike(strict, r, q);
    } else {
      DigestsDecide(strict, r, q);
    }
  }

  lemma FlatOthersMatch(m: map<string, Value>, n: map<string, Value>, json: Renderer)
    requires SameRendering(m, n, json)
    ensures var r, q := DigestRecord(m, json), DigestRecord(n, json);
            && (forall k | k in r && k in q && k != DIGEST ::
                  Number(r[k]) && Number(q[k]) && Plain(r[k]) == Plain(q[k]))
            && (r.Keys == q.Keys <==> (AllInts(m) <==> AllInts(n)))
  {
    FlatEntries(m, json);
    FlatEntries(n, json);
    RecordKeys();
    assert |m| == |m.Keys| && |n| == |n.Keys|;
    if AllInts(m) && AllInts(n) { SameIntTexts(m, n, json); }
  }

  lemma FlatEntries(m: map<string, Value>, json: Renderer)
    ensures var r := DigestRecord(m, json);
            && r["__count__"] == Int(|m|) && ("__sum__" in r <==> AllInts(m))
            && (AllInts(m) ==> r["__sum__"] == Int(Sum(m)))
            && r.Keys == {"__count__", DIGEST} + if AllInts(m) then {"__sum__"} else {}
  {
    RecordKeys();
  }

  // ---- Nodes and lists -----------------------------------------------------------------------------

  lemma ScalarImage(s: Side, json: Renderer)
    ensures AsInt(Image(s, json)) == SideInt(s)
    ensures Image(s, json).Str? <==> KindOf(s).Scalar? && KindOf(s).w.Str?
    ensures KindOf(s).Scalar? ==> Image(s, json) == KindOf(s).w
  {
    ImageOf(s, json);
  }

  lemma RatioImage(f: map<string, Side>, json: Renderer)
    ensures RationalShape(ImageMap(f, json)) <==> RatioKeys(f)
    ensures var form := LeafForm(Dict(ImageMap(f, json)));
            form == match RatioOf(f)
                    case Some(r) => Rational(r.0, r.1)
                    case None => Leaf(Plain(Dict(ImageMap(f, json))))
  {
    if RatioKeys(f) {
      ScalarImage(f["numerator"], json);
      ScalarImage(f["denominator"], json);
    }
  }

  lemma RatiosIff(d: nat, f: map<string, Side>, g: map<string, Side>, json: Renderer)
    requires Faithful(json) && AllBelow(f, d) && AllRaw(f, json) && AllRaw(g, json)
    ensures LeafForm(Dict(ImageMap(f, json))) == LeafForm(Dict(ImageMap(g, json))) <==> RatiosAgree(f, g, json)
  {
    RatioImage(f, json);
    RatioImage(g, json);
    FieldsIff(Loose, d, f, g, json);
    ViewDict(Loose, ImageMap(f, json), ImageMap(g, json));
  }

  lemma SilentImage(s: Side, json: Renderer)
    requires Raw(s, json)
    ensures IsEmpty(Image(s, json)) <==> Silent(KindOf(s))
  {
    ImageOf(s, json);
    ImageMark(s, json);
    match KindOf(s) {
      case Fields(f) => assert ImageMap(f, json) == map[] <==> f == map[];
      case Items(xs) => assert Images(xs, json) == [] <==> xs == [];
      case _ =>
    }
  }

  lemma PoolImage(s: Side, json: Renderer)
    requires Raw(s, json)
    ensures var v := Image(s, json);
            && (v.Dict? && "poolId" in v.entries <==> HasId(s))
            && (IsPool(v) <==> SideId(s).Some?)
            && (IsPool(v) ==> Some(PoolId(v)) == SideId(s))
  {
    ImageOf(s, json);
    match KindOf(s) {
      case Fields(f) =>
        if "poolId" in f { ScalarImage(f["poolId"], json); }
      case FlatMap(m) => FlatIsRecord(m, json); NoPoolKey();
      case BigMap(f) =>
        LargeIsRecord(|f|, BigMapInput(f, json), Total(s.v.entries));
        NoPoolKey();
      case BigList(xs) =>
        LargeIsRecord(|xs|, BigListInput(xs, json), None);
        NoPoolKey();
      case _ =>
    }
  }

  lemma NoPoolKey()
    ensures !RecordKey("poolId")
  {
    assert "poolId"[0] == 'p';
  }

  /** The last pool with an id, found by position. */
  lemma {:induction false} LastIs(vs: seq<Value>, ids: seq<Option<string>>, id: string)
    requires |vs| == |ids| && forall i | 0 <= i < |vs| :: IsPool(vs[i]) && ids[i] == Some(PoolId(vs[i]))
    ensures id in Ids(vs) <==> Some(id) in ids
    ensures Some(id) in ids ==> LastWithId(vs, id) == vs[LastIndex(ids, id)]
    decreases |vs|
  {
    if id in Ids(vs) {
      var i :| 0 <= i < |vs| && PoolId(vs[i]) == id;
      assert ids[i] == Some(id);
    }
    if Some(id) in ids {
      var i :| 0 <= i < |ids| && ids[i] == Some(id);
      assert PoolId(vs[i]) == id;
      var n := |vs| - 1;
      if PoolId(vs[n]) != id {
        LastIs(vs[..n], ids[..n], id);
      }
    }
  }

  // ---- The verdict of the walk over two summaries ---------------------------------------------------

  /** Walking two summaries finds nothing exactly when the raw parts agree. */
  lemma {:induction false} AgreeIff(strict: bool, s: Side, t: Side, json: Renderer)
    requires Faithful(json) && Raw(s, json) && Raw(t, json)
    ensures Alike(strict, Image(s, json), Image(t, json)) <==> Agree(strict, s, t, json)
    decreases Depth(s.v), 5
  {
    SilentImage(s, json);
    SilentImage(t, json);
    PartsBelow(s);
    if !(!strict && Silent(KindOf(s)) && Silent(KindOf(t))) {
      if KindMark(KindOf(s)) == KindMark(KindOf(t)) {
        SameKindIff(strict, s, t, json);
      } else {
        MixedIff(strict, s, t, json);
      }
    }
  }

  lemma {:induction false} SameKindIff(strict: bool, s: Side, t: Side, json: Renderer)
    requires Faithful(json) && Raw(s, json) && Raw(t, json) && KindBelow(KindOf(s), Depth(s.v))
    requires KindMark(KindOf(s)) == KindMark(KindOf(t)) && !(!strict && Silent(KindOf(s)) && Silent(KindOf(t)))
    ensures Alike(strict, Image(s, json), Image(t, json)) <==>
            AgreeKinds(strict, Depth(s.v), KindOf(s), KindOf(t), json)
    decreases Depth(s.v), 4
  {
    match KindOf(s) {
      case Scalar(_) => ImageOf(s, json); ImageOf(t, json);
      case Items(_) => ListsAgree(strict, s, t, json);
      case Fields(f) =>
        NodesIff(strict, Depth(s.v), f, KindOf(t).sides, json);
        ImageOf(s, json);
        ImageOf(t, json);
      case FlatMap(m) => FlatAlike(strict, m, KindOf(t).m, json); ImageOf(s, json); ImageOf(t, json);
      case BigMap(_) => BigMapsAlike(strict, s, t, json);
      case BigList(_) => BigListsAlike(strict, s, t, json);
    }
  }

  lemma {:induction false} ListsAgree(strict: bool, s: Side, t: Side, json: Renderer)
    requires Faithful(json) && Raw(s, json) && Raw(t, json) && KindBelow(KindOf(s), Depth(s.v))
    requires KindOf(s).Items? && KindOf(t).Items? && !(!strict && Silent(KindOf(s)) && Silent(KindOf(t)))
    ensures var xs, ys := KindOf(s).elems, KindOf(t).elems;
            Alike(strict, Image(s, json), Image(t, json)) <==>
            |xs| == |ys| && AgreeItems(strict, Depth(s.v), xs, ys, json)
    decreases Depth(s.v), 3
  {
    ImageOf(s, json);
    ImageOf(t, json);
    ListsIff(strict, Depth(s.v), KindOf(s).elems, KindOf(t).elems, json);
  }

  lemma {:induction false} NodesIff(
      strict: bool, d: nat, f: map<string, Side>, g: map<string, Side>, json: Renderer)
    requires Faithful(json) && AllBelow(f, d) && AllRaw(f, json) && AllRaw(g, json)
    requires !(!strict && f == map[] && g == map[])
    ensures var a, b := Dict(ImageMap(f, json)), Dict(ImageMap(g, json));
            Alike(strict, a, b) <==>
            if RatioKeys(f) || RatioKeys(g) then RatiosAgree(f, g, json) else AgreeFields(strict, d, f, g, json)
    decreases d, 1
  {
    NodesSplit(strict, f, g, json);
    if RatioKeys(f) || RatioKeys(g) {
      RatiosIff(d, f, g, json);
    } else {
      KeysIff(strict, d, f, g, json);
    }
  }

  lemma NodesSplit(strict: bool, f: map<string, Side>, g: map<string, Side>, json: Renderer)
    requires !(!strict && f == map[] && g == map[])
    ensures var a, b := Dict(ImageMap(f, json)), Dict(ImageMap(g, json));
            Alike(strict, a, b) <==>
            if RatioKeys(f) || RatioKeys(g) then LeafForm(a) == LeafForm(b) else AlikeNodes(strict, a, b)
  {
    var a, b := ImageMap(f, json), ImageMap(g, json);
    assert RationalShape(a) <==> RatioKeys(f);
    assert RationalShape(b) <==> RatioKeys(g);
    assert a == map[] <==> f == map[];
    assert b == map[] <==> g == map[];
  }

  lemma {:induction false} KeysIff(
      strict: bool, d: nat, f: map<string, Side>, g: map<string, Side>, json: Renderer)
    requires Faithful(json) && AllBelow(f, d) && AllRaw(f, json) && AllRaw(g, json)
    ensures AlikeNodes(strict, Dict(ImageMap(f, json)), Dict(ImageMap(g, json))) <==>
            AgreeFields(strict, d, f, g, json)
    decreases d, 0
  {
    var a, b := Dict(ImageMap(f, json)), Dict(ImageMap(g, json));
    forall k ensures AlikeKey(strict, a, b, k) <==> AgreeAt(strict, d, f, g, k, json) {
      if k in f && k in g {
        AgreeIff(strict, f[k], g[k], json);
      }
    }
  }

  lemma {:induction false} ListsIff(strict: bool, d: nat, xs: seq<Side>, ys: seq<Side>, json: Renderer)
    requires Faithful(json) && EachBelow(xs, d) && EachRaw(xs, json) && EachRaw(ys, json)
    ensures AlikeLists(strict, List(Images(xs, json)), List(Images(ys, json))) <==>
            |xs| == |ys| && AgreeItems(strict, d, xs, ys, json)
    decreases d, 2
  {
    var a, b := List(Images(xs, json)), List(Images(ys, json));
    if |xs| == |ys| {
      if xs != [] { PoolImage(xs[0], json); }
      if xs == [] || !HasId(xs[0]) {
        forall i | 0 <= i < |xs| ensures AlikeElem(strict, a, b, i) <==> Agree(strict, xs[i], ys[i], json) {
          AgreeIff(strict, xs[i], ys[i], json);
        }
      } else {
        PoolListsIff(strict, d, xs, ys, json);
      }
    }
  }

  ghost predicate IdsShow(xs: seq<Side>, json: Renderer) {
    forall i | 0 <= i < |xs| :: IsPool(Images(xs, json)[i]) && IdsOf(xs)[i] == Some(PoolId(Images(xs, json)[i]))
  }

  lemma PoolImages(xs: seq<Side>, json: Renderer)
    requires EachRaw(xs, json)
    ensures None !in IdsOf(xs) <==> forall i | 0 <= i < |xs| :: IsPool(Images(xs, json)[i])
    ensures None !in IdsOf(xs) ==> IdsShow(xs, json)
  {
    forall i | 0 <= i < |xs|
      ensures IsPool(Images(xs, json)[i]) <==> IdsOf(xs)[i].Some?
      ensures IsPool(Images(xs, json)[i]) ==> IdsOf(xs)[i] == Some(PoolId(Images(xs, json)[i]))
    {
      PoolImage(xs[i], json);
    }
  }

  lemma {:induction false} PoolIff(strict: bool, d: nat, xs: seq<Side>, ys: seq<Side>, id: string, json: Renderer)
    requires Faithful(json) && EachBelow(xs, d) && EachRaw(xs, json) && EachRaw(ys, json)
    requires xs != [] && ys != [] && IdsShow(xs, json) && IdsShow(ys, json)
    ensures id in Ids(Images(xs, json)) <==> Some(id) in IdsOf(xs)
    ensures id in Ids(Images(ys, json)) <==> Some(id) in IdsOf(ys)
    ensures AlikePool(strict, List(Images(xs, json)), List(Images(ys, json)), id) <==>
            AgreePool(strict, d, xs, ys, id, json)
    decreases d, 0
  {
    var p, q := IdsOf(xs), IdsOf(ys);
    LastIs(Images(xs, json), p, id);
    LastIs(Images(ys, json), q, id);
    if Some(id) in p && Some(id) in q {
      AgreeIff(strict, xs[LastIndex(p, id)], ys[LastIndex(q, id)], json);
    }
  }

  lemma {:induction false} PoolListsIff(strict: bool, d: nat, xs: seq<Side>, ys: seq<Side>, json: Renderer)
    requires Faithful(json) && EachBelow(xs, d) && EachRaw(xs, json) && EachRaw(ys, json)
    requires |xs| == |ys| && xs != [] && HasId(xs[0])
    ensures AlikeLists(strict, List(Images(xs, json)), List(Images(ys, json))) <==>
            AgreeItems(strict, d, xs, ys, json)
    decreases d, 1
  {
    PoolImage(xs[0], json);
    PoolImages(xs, json);
    PoolImages(ys, json);
    if IdsShow(xs, json) && IdsShow(ys, json) {
      forall id
        ensures id in Ids(Images(xs, json)) <==> Some(id) in IdsOf(xs)
        ensures id in Ids(Images(ys, json)) <==> Some(id) in IdsOf(ys)
        ensures AlikePool(strict, List(Images(xs, json)), List(Images(ys, json)), id) <==>
                AgreePool(strict, d, xs, ys, id, json)
      {
        PoolIff(strict, d, xs, ys, id, json);
      }
    }
  }

  lemma BigMapsAlike(strict: bool, s: Side, t: Side, json: Renderer)
    requires Faithful(json) && Raw(s, json) && Raw(t, json) && KindOf(s).BigMap? && KindOf(t).BigMap?
    ensures Alike(strict, Image(s, json), Image(t, json)) <==>
            SameFields(Exact, KindOf(s).slots, KindOf(t).slots, json)
  {
    PartsBelow(s);
    ImageOf(s, json);
    ImageOf(t, json);
    var f, g := KindOf(s).slots, KindOf(t).slots;
    FieldsIff(Exact, Depth(s.v), f, g, json);
    var m, n := s.v.entries, t.v.entries;
    BigTextIff(Loose, m, n, json);
    TotalIsReal(m);
    TotalIsReal(n);
    LargeAlike(strict, |f|, BigMapInput(f, json), Total(m), |g|, BigMapInput(g, json), Total(n));
  }

  lemma BigListsAlike(strict: bool, s: Side, t: Side, json: Renderer)
    requires Faithful(json) && Raw(s, json) && Raw(t, json) && KindOf(s).BigList? && KindOf(t).BigList?
    ensures Alike(strict, Image(s, json), Image(t, json)) <==> SameBag(KindOf(s).all, KindOf(t).all, json)
  {
    PartsBelow(s);
    ImageOf(s, json);
    ImageOf(t, json);
    var xs, ys := KindOf(s).all, KindOf(t).all;
    BagTextIff(Depth(s.v), xs, ys, json);
    LargeAlike(strict, |xs|, BigListInput(xs, json), None, |ys|, BigListInput(ys, json), None);
  }

  lemma HashedIsRecord(s: Side, json: Renderer)
    requires Raw(s, json) && Hashed(KindOf(s))
    ensures IsRecord(Image(s, json))
  {
    ImageOf(s, json);
    match KindOf(s) {
      case FlatMap(m) => FlatIsRecord(m, json);
      case BigMap(f) =>
        LargeIsRecord(|f|, BigMapInput(f, json), Total(s.v.entries));
      case BigList(xs) => LargeIsRecord(|xs|, BigListInput(xs, json), None);
    }
  }

  lemma {:induction false} MixedIff(strict: bool, s: Side, t: Side, json: Renderer)
    requires Raw(s, json) && Raw(t, json) && KindBelow(KindOf(s), Depth(s.v))
    requires KindMark(KindOf(s)) != KindMark(KindOf(t)) && !(!strict && Silent(KindOf(s)) && Silent(KindOf(t)))
    requires IsEmpty(Image(s, json)) <==> Silent(KindOf(s))
    requires IsEmpty(Image(t, json)) <==> Silent(KindOf(t))
    ensures Alike(strict, Image(s, json), Image(t, json)) <==>
            AgreeKinds(strict, Depth(s.v), KindOf(s), KindOf(t), json)
  {
    if Hashed(KindOf(s)) && Hashed(KindOf(t)) {
      HashedIsRecord(s, json);
      HashedIsRecord(t, json);
      ImageMark(s, json);
      ImageMark(t, json);
      DigestsDecide(strict, Image(s, json), Image(t, json));
    } else if Hashed(KindOf(s)) {
      HashedAgainst(strict, s, t, json);
    } else if Hashed(KindOf(t)) {
      HashedAgainst(strict, t, s, json);
    } else {
      UnhashedDiffer(strict, s, t, json);
    }
  }

  lemma HashedAgainst(strict: bool, s: Side, t: Side, json: Renderer)
    requires Raw(s, json) && Raw(t, json) && Hashed(KindOf(s)) && !Hashed(KindOf(t))
    ensures Alike(strict, Image(s, json), Image(t, json)) <==>
            KindOf(t).Fields? && !strict && !RatioKeys(KindOf(t).sides)
    ensures Alike(strict, Image(t, json), Image(s, json)) <==>
            KindOf(t).Fields? && !strict && !RatioKeys(KindOf(t).sides)
  {
    HashedIsRecord(s, json);
    ImageOf(t, json);
    if KindOf(t).Fields? {
      var f := KindOf(t).sides;
      RatioImage(f, json);
      forall k | RecordKey(k) ensures k !in ImageMap(f, json) {
        RecordKeys();
      }
      RecordAgainstNode(strict, Image(s, json), ImageMap(f, json));
    } else {
      RecordAlone(strict, Image(s, json), Image(t, json));
    }
  }

  lemma UnhashedDiffer(strict: bool, s: Side, t: Side, json: Renderer)
    requires Raw(s, json) && Raw(t, json) && !Hashed(KindOf(s)) && !Hashed(KindOf(t))
    requires KindMark(KindOf(s)) != KindMark(KindOf(t)) && !(!strict && Silent(KindOf(s)) && Silent(KindOf(t)))
    requires IsEmpty(Image(s, json)) <==> Silent(KindOf(s))
    requires IsEmpty(Image(t, json)) <==> Silent(KindOf(t))
    ensures !Alike(strict, Image(s, json), Image(t, json))
  {
    ImageOf(s, json);
    ImageOf(t, json);
    KeepsKind(Image(s, json));
    KeepsKind(Image(t, json));
  }

  // ---- One epoch ------------------------------------------------------------------------------------

  /** A whole dump is summarised under no key. */
  function Whole(v: Value): Side {
    Side(v, Under(None))
  }

  /** Each top-level key decides its own applicability; hashed whole dumps must be equal. */
  ghost predicate EpochAgree(era: string, a: Value, b: Value, json: Renderer) {
    PartsBelow(Whole(a));
    match (KindOf(Whole(a)), KindOf(Whole(b)))
    case (Fields(f), Fields(g)) =>
      forall k | k in f.Keys + g.Keys :: AgreeAt(Applicable(k, era), Depth(a), f, g, k, json)
    case (BigMap(f), BigMap(g)) => SameFields(Exact, f, g, json)
    case _ => false
  }

  function Summary(v: Value, json: Renderer): (r: Value)
    requires v.Dict?
    ensures r.Dict?
  {
    Summarise(v, None, json)
  }

  /** Comparing the summaries of two dumps finds nothing exactly when the dumps agree. */
  lemma VerdictIffAgree(era: string, a: Value, b: Value, json: Renderer)
    requires Faithful(json) && a.Dict? && b.Dict? && Raw(Whole(a), json) && Raw(Whole(b), json)
    ensures Clean(CompareEpoch(era, Summary(a, json), Summary(b, json))) <==> EpochAgree(era, a, b, json)
  {
    var s, t := Whole(a), Whole(b);
    EpochCleanIffAgree(era, Summary(a, json), Summary(b, json));
    PartsBelow(s);
    WholeKind(a);
    WholeKind(b);
    if KindOf(s).BigMap? && KindOf(t).BigMap? {
      BothHashed(era, s, t, json);
    } else if KindOf(s).BigMap? {
      HashedWhole(era, s, t, json);
    } else if KindOf(t).BigMap? {
      HashedWhole(era, t, s, json);
    } else {
      ImageOf(s, json);
      ImageOf(t, json);
      EpochKeysIff(era, Depth(a), KindOf(s).sides, KindOf(t).sides, json);
    }
  }

  lemma WholeKind(v: Value)
    requires v.Dict?
    ensures KindOf(Whole(v)).Fields? || KindOf(Whole(v)).BigMap?
  {
  }

  lemma BothHashed(era: string, s: Side, t: Side, json: Renderer)
    requires Faithful(json) && Raw(s, json) && Raw(t, json) && KindOf(s).BigMap? && KindOf(t).BigMap?
    requires Image(s, json).Dict? && Image(t, json).Dict?
    ensures EpochAlike(era, Image(s, json), Image(t, json)) <==>
            SameFields(Exact, KindOf(s).slots, KindOf(t).slots, json)
  {
    BigMapsAlike(true, s, t, json);
    HashedIsRecord(s, json);
    HashedIsRecord(t, json);
    RecordNoRatio(Image(s, json));
    RecordNoRatio(Image(t, json));
    NodesDecide(true, Image(s, json), Image(t, json));
    RecordsExpected(era, Image(s, json), Image(t, json));
  }

  lemma EpochKeysIff(era: string, d: nat, f: map<string, Side>, g: map<string, Side>, json: Renderer)
    requires Faithful(json) && AllBelow(f, d) && AllRaw(f, json) && AllRaw(g, json)
    ensures EpochAlike(era, Dict(ImageMap(f, json)), Dict(ImageMap(g, json))) <==>
            forall k | k in f.Keys + g.Keys :: AgreeAt(Applicable(k, era), d, f, g, k, json)
  {
    var a, b := Dict(ImageMap(f, json)), Dict(ImageMap(g, json));
    forall k ensures EpochAlikeAt(era, a, b, k) <==> AgreeAt(Applicable(k, era), d, f, g, k, json) {
      if k in f && k in g {
        AgreeIff(Applicable(k, era), f[k], g[k], json);
      }
    }
  }

  /** The keys of a record belong to every era. */
  lemma RecordKeyApplies(k: string, era: string)
    requires RecordKey(k)
    ensures Applicable(k, era)
  {
    assert k[0] == '_';
    assert forall x | x in BYRON_ONLY_KEYS + SHELLEY_ONWARD_KEYS :: x[0] != '_';
    assert "conwayGov"[0] != '_' && "instantaneousRewards"[0] != '_' && "epochNonce"[0] != '_';
    assert "eraProtocolParams"[0] != '_';
  }

  lemma RecordsExpected(era: string, r: Value, q: Value)
    requires IsRecord(r) && IsRecord(q)
    ensures EpochAlike(era, r, q) <==> AlikeNodes(true, r, q)
  {
    forall k | k in r.entries.Keys + q.entries.Keys
      ensures EpochAlikeAt(era, r, q, k) <==> AlikeKey(true, r, q, k)
    {
      RecordKeyApplies(k, era);
    }
  }

  lemma HashedWhole(era: string, s: Side, t: Side, json: Renderer)
    requires Raw(s, json) && Raw(t, json) && Hashed(KindOf(s)) && KindOf(t).Fields?
    requires Image(s, json).Dict? && Image(t, json).Dict?
    ensures !EpochAlike(era, Image(s, json), Image(t, json)) && !EpochAlike(era, Image(t, json), Image(s, json))
  {
    HashedIsRecord(s, json);
    ImageOf(t, json);
    RecordKeys();
    RecordKeysSeen(DIGEST);
    RecordKeyApplies(DIGEST, era);
    assert !EpochAlikeAt(era, Image(s, json), Image(t, json), DIGEST);
    assert !EpochAlikeAt(era, Image(t, json), Image(s, json), DIGEST);
  }

  /** The counters the tool reports, for the era it picks, decide agreement of the raw dumps. */
  lemma CountersDecide(t: Tally, a: Value, b: Value, json: Renderer)
    requires !t.failed && Faithful(json) && a.Dict? && b.Dict? && Raw(Whole(a), json) && Raw(Whole(b), json)
    ensures var x, y := Summary(a, json), Summary(b, json);
            NoFindings(t, CountAll(t, CompareEpoch(EraOf(x, y), x, y))) <==> EpochAgree(EraOf(x, y), a, b, json)
  {
    var x, y := Summary(a, json), Summary(b, json);
    CleanIffNoFindings(t, CompareEpoch(EraOf(x, y), x, y));
    VerdictIffAgree(EraOf(x, y), a, b, json);
  }

  /** A dump that is an ordinary map of at most 500 keys. */
  ghost predicate PlainTop(v: Value) {
    v.Dict? && !IsRelay(v.entries) && DIGEST !in v.entries && |v.entries| <= LARGE_MAP_THRESHOLD
  }

  lemma PlainSummary(v: Value, json: Renderer)
    requires PlainTop(v)
    ensures Summary(v, json) == Dict(Slots(v, json) - {"stakePercent"})
  {
    RelayIff(v.entries);
    SummariseOrdinary(v.entries, None, json);
    SlotCount(v.entries, json);
  }

  lemma EraKept(v: Value, json: Renderer)
    requires PlainTop(v)
    ensures forall era :: NamesEra(v, era) ==> NamesEra(Summary(v, json), era)
    ensures NamesNoEra(v) ==> NamesNoEra(Summary(v, json))
  {
    PlainSummary(v, json);
    var k := "snapshotEraName";
    assert k != "stakePercent" by { assert |k| == 15 && |"stakePercent"| == 12; }
    if k in v.entries {
      assert Summary(v, json).entries[k] == Summarise(v.entries[k], Some(k), json);
      if IsNothing(v.entries[k]) { NothingKept(v.entries[k], k, json); }
    }
  }

  lemma NothingKept(v: Value, k: string, json: Renderer)
    requires IsNothing(v) && k == "snapshotEraName"
    ensures IsNothing(Summarise(v, Some(k), json))
  {
    if v == Dict(map[]) {
      var none: map<string, Value> := map[];
      assert !Digestable(Some(k)) by { assert |k| == 15 && |"stake"| == 5 && |"delegations"| == 11; }
      SummariseOrdinary(none, Some(k), json);
      assert Slots(Dict(none), json) - {"stakePercent"} == map[];
    } else if v == List([]) {
      SummariseShort([], Some(k), json);
    }
  }

  /**
   The reported counters decide agreement under the era that the oracle names,
   or the other dump where the oracle names none, or Shelley where none does.
   */
  lemma OracleEraDecides(t: Tally, a: Value, b: Value, era: string, json: Renderer)
    requires !t.failed && Faithful(json) && PlainTop(a) && PlainTop(b) && Raw(Whole(a), json) && Raw(Whole(b), json)
    requires DecidedEra(a, b, era)
    ensures var x, y := Summary(a, json), Summary(b, json);
            NoFindings(t, CountAll(t, CompareEpoch(EraOf(x, y), x, y))) <==> EpochAgree(era, a, b, json)
  {
    EraKept(a, json);
    EraKept(b, json);
    EraIsDecided(Summary(a, json), Summary(b, json), era);
    CountersDecide(t, a, b, json);
  }

  /** The same verdict is reached when either dump, or both, were reduced on disk first. */
  lemma ReducedVerdict(era: string, a: Value, b: Value, a': Value, b': Value, json: Renderer)
    requires Faithful(json) && a.Dict? && b.Dict? && Raw(Whole(a), json) && Raw(Whole(b), json)
    requires a' == a || (Safe(a, None) && a' == Reduce(a, json))
    requires b' == b || (Safe(b, None) && b' == Reduce(b, json))
    ensures a'.Dict? && b'.Dict?
    ensures Clean(CompareEpoch(era, Summary(a', json), Summary(b', json))) <==> EpochAgree(era, a, b, json)
  {
    VerdictIffAgree(era, a, b, json);
    SameSummary(a, a', json);
    SameSummary(b, b', json);
  }

  lemma SameSummary(v: Value, v': Value, json: Renderer)
    requires v.Dict? && (v' == v || (Safe(v, None) && v' == Reduce(v, json)))
    ensures v'.Dict? && Summary(v', json) == Summary(v, json)
  {
    if v' != v {
      ReduceInvisible(v, None, json);
    }
  }
}
