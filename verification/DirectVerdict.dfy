/**
 When comparing summaries gives the verdict that comparing the dumps
 themselves would give, and where the two part.
 */
module DirectVerdicts {
  import opened Wrappers
  import opened Ordering
  import opened Decimals
  import opened Rationals
  import opened Digests
  import opened CanonTexts
  import opened Summaries
  import opened Comparisons
  import opened SummaryParts
  import opened SummaryFidelity
  import opened SummaryVerdicts

  // ---- Dumps the summary does not distort -------------------------------------------------------

  /** Under a key outside its era, under an expected key, or inside something that is hashed. */
  datatype Level = Excused | Walked | InHash

  predicate AllStrings(m: map<string, Value>) {
    forall k | k in m :: m[k].Str?
  }

  predicate NoExcluded(m: map<string, Value>) {
    forall k | k in m :: !Excluded(k)
  }

  /** A flat map whose text tells its values apart: stake amounts, or pool names. */
  predicate Uniform(m: map<string, Value>) {
    (AllInts(m) || AllStrings(m)) && NoExcluded(m) && !RationalShape(m)
  }

  predicate LargePool(v: Value) {
    v.Dict? && "poolId" in v.entries && |v.entries| > LARGE_MAP_THRESHOLD
  }

  predicate UniquePools(xs: seq<Value>) {
    PoolList(xs) && UniqueIds(xs)
  }

  /**
   A value whose summary loses nothing the walk would see.  It holds no relay
   and no ready-made record.  Digested maps are uniform.  Hashed parts hold no
   booleans, no rationals, no excluded keys and no short pool lists.  Long
   lists are pools with unique ids.  Nothing under a key outside its era is
   hashed.
   */
  predicate Transparent(level: Level, v: Value, key: Option<string>)
    decreases v
  {
    match v
    case Dict(m) =>
      && ShapeOf(m).NoRelay? && DIGEST !in m
      && if FlatDigest(key, m) then !level.Excused? && Uniform(m)
         else
           && !Digestable(key)
           && if |m| > LARGE_MAP_THRESHOLD then
                && !level.Excused? && NoExcluded(m)
                && forall k | k in m :: Transparent(InHash, m[k], Some(k))
              else
                && SmallPlain(level, m)
                && forall k | k in m && k != "stakePercent" :: Transparent(level, m[k], Some(k))
    case List(xs) =>
      if |xs| > LARGE_MAP_THRESHOLD then
        && !level.Excused? && UniquePools(xs)
        && forall i | 0 <= i < |xs| :: Transparent(InHash, xs[i], None)
      else
        && (level.InHash? ==> !PoolMode(xs))
        && forall i | 0 <= i < |xs| :: !LargePool(xs[i]) && Transparent(level, xs[i], None)
    case Bool(_) => !level.InHash?
    case _ => true
  }

  /** A small map that dropping `stakePercent` turns neither into a rational nor into nothing. */
  predicate SmallPlain(level: Level, m: map<string, Value>) {
    && (RationalShape(m) ==> !level.InHash? && LeafForm(Dict(m)).Rational?)
    && (level.InHash? ==> NoExcluded(m - {"stakePercent"}))
    && ("stakePercent" in m ==> m - {"stakePercent"} != map[] && !RationalShape(m - {"stakePercent"}))
  }

  /** What the comparison of summaries says at each level. */
  ghost predicate Told(level: Level, a: Value, b: Value, key: Option<string>, json: Renderer) {
    match level
    case Excused => Agree(false, At(a, key), At(b, key), json)
    case Walked => Agree(true, At(a, key), At(b, key), json)
    case InHash => Same(Exact, At(a, key), At(b, key), json)
  }

  predicate Strict(level: Level) {
    !level.Excused?
  }

  function At(v: Value, key: Option<string>): Side {
    Side(v, Under(key))
  }

  lemma ToldKinds(level: Level, a: Value, b: Value, key: Option<string>, json: Renderer)
    ensures KindBelow(KindOf(At(a, key)), Depth(a))
    ensures var x, y := KindOf(At(a, key)), KindOf(At(b, key));
            Told(level, a, b, key, json) <==>
            if level.InHash? then SameKinds(Exact, Depth(a), x, y, json)
            else (level.Excused? && Silent(x) && Silent(y)) || AgreeKinds(Strict(level), Depth(a), x, y, json)
  {
    PartsBelow(At(a, key));
  }

  // ---- Scalars -----------------------------------------------------------------------------------

  predicate IsScalar(v: Value) {
    !v.Dict? && !v.List?
  }

  lemma SortKind(v: Value, key: Option<string>)
    ensures v.List? <==> KindOf(At(v, key)).Items? || KindOf(At(v, key)).BigList?
    ensures IsScalar(v) <==> KindOf(At(v, key)).Scalar?
    ensures IsScalar(v) ==> KindOf(At(v, key)) == Scalar(v)
  {
  }

  lemma ScalarTold(level: Level, a: Value, b: Value, key: Option<string>, json: Renderer)
    requires IsScalar(a) && IsScalar(b) && Transparent(level, a, key) && Transparent(level, b, key)
    ensures Told(level, a, b, key, json) <==> Alike(Strict(level), a, b)
  {
    ToldKinds(level, a, b, key, json);
    if level.InHash? {
      ScalarFold(a, b);
    }
  }

  lemma ScalarFold(a: Value, b: Value)
    requires IsScalar(a) && IsScalar(b) && !a.Bool? && !b.Bool?
    ensures Fold(a) == Fold(b) <==> LeafForm(a) == LeafForm(b)
  {
    if Number(a) && Number(b) {
      FoldedNumber(a, b);
    }
  }

  // ---- Flat maps ------------------------------------------------------------------------------------

  lemma FlatEqual(m: map<string, Value>, n: map<string, Value>, json: Renderer)
    requires Uniform(m) && Uniform(n)
    ensures SameFlat(m, n, json) <==> m == n
  {
    if SameFlat(m, n, json) {
      if AllInts(m) {
        SameIntTexts(m, n, json);
      } else {
        forall k | k in m ensures k in n && m[k] == n[k] {
          assert Rendered(m[k], json) == Rendered(n[k], json);
        }
      }
    }
  }

  lemma FlatValue(x: Value, y: Value)
    requires (x.Int? || x.Str?) && (y.Int? || y.Str?)
    ensures Alike(true, x, y) <==> x == y
  {
    if x.Int? && y.Int? {
      assert IntAsReal(x.n).Floor == x.n && IntAsReal(y.n).Floor == y.n;
    }
  }

  predicate IntsAndStrings(m: map<string, Value>) {
    forall k | k in m :: m[k].Int? || m[k].Str?
  }

  lemma FlatAlikeEqual(m: map<string, Value>, n: map<string, Value>)
    requires IntsAndStrings(m) && NoExcluded(m) && !RationalShape(m)
    requires IntsAndStrings(n) && NoExcluded(n) && !RationalShape(n)
    ensures Alike(true, Dict(m), Dict(n)) <==> m == n
  {
    NodesDecide(true, Dict(m), Dict(n));
    if AlikeNodes(true, Dict(m), Dict(n)) {
      forall k | k in m.Keys + n.Keys ensures k in m && k in n && m[k] == n[k] {
        assert AlikeKey(true, Dict(m), Dict(n), k);
        FlatValue(m[k], n[k]);
      }
      assert m == n;
    }
    if m == n {
      forall k | k in m.Keys + n.Keys ensures AlikeKey(true, Dict(m), Dict(n), k) {
      }
    }
  }

  lemma FlatTold(level: Level, m: map<string, Value>, n: map<string, Value>, key: Option<string>, json: Renderer)
    requires Strict(level) && Transparent(level, Dict(m), key) && Transparent(level, Dict(n), key)
    requires FlatDigest(key, m) && FlatDigest(key, n)
    ensures Told(level, Dict(m), Dict(n), key, json) <==> Alike(true, Dict(m), Dict(n))
  {
    ToldKinds(level, Dict(m), Dict(n), key, json);
    FlatEqual(m, n, json);
    FlatAlikeEqual(m, n);
  }

  // ---- Maps ---------------------------------------------------------------------------------------------

  lemma {:induction false} NoDots(path: string)
    requires '.' !in path
    ensures LastSegment(path) == path
  {
    if path != "" {
      NoDots(path[..|path| - 1]);
    }
  }

  lemma StakeExcluded()
    ensures Excluded("stakePercent")
  {
    NoDots("stakePercent");
  }

  predicate Ordinary(m: map<string, Value>, key: Option<string>) {
    ShapeOf(m).NoRelay? && DIGEST !in m && !Digestable(key)
  }

  lemma OrdinaryKind(m: map<string, Value>, key: Option<string>)
    requires Ordinary(m, key)
    ensures KindOf(At(Dict(m), key)) ==
            if |m| > LARGE_MAP_THRESHOLD then BigMap(ReadEntries(m)) else Fields(ReadEntries(m) - {"stakePercent"})
  {
  }

  lemma LargeNoRatio(m: map<string, Value>)
    requires |m| > LARGE_MAP_THRESHOLD
    ensures !RationalShape(m)
  {
    assert |m| == |m.Keys|;
    assert |{"numerator", "denominator"}| <= 2;
  }

  /** At every common key both comparisons give the same verdict. */
  ghost predicate KeysTold(level: Level, m: map<string, Value>, n: map<string, Value>, json: Renderer) {
    forall k | k in m && k in n :: Told(level, m[k], n[k], Some(k), json) <==> Alike(Strict(level), m[k], n[k])
  }

  ghost predicate SlotsSame(m: map<string, Value>, n: map<string, Value>, json: Renderer) {
    m.Keys == n.Keys && forall k | k in m && k in n :: Told(InHash, m[k], n[k], Some(k), json)
  }

  /** Where no key is excluded, agreement of all entries is agreement of the nodes. */
  lemma SlotsAlike(m: map<string, Value>, n: map<string, Value>, json: Renderer)
    requires NoExcluded(m) && NoExcluded(n)
    requires KeysTold(InHash, m, n, json)
    ensures SlotsSame(m, n, json) <==> AlikeNodes(true, Dict(m), Dict(n))
  {
    if AlikeNodes(true, Dict(m), Dict(n)) {
      forall k | k in m.Keys + n.Keys
        ensures k in m && k in n && Told(InHash, m[k], n[k], Some(k), json)
      {
        assert AlikeKey(true, Dict(m), Dict(n), k);
      }
      assert m.Keys == n.Keys;
    }
    if SlotsSame(m, n, json) {
      forall k | k in m.Keys + n.Keys ensures AlikeKey(true, Dict(m), Dict(n), k) {
        assert Told(InHash, m[k], n[k], Some(k), json);
      }
    }
  }

  lemma LargeTold(level: Level, m: map<string, Value>, n: map<string, Value>, key: Option<string>, json: Renderer)
    requires Strict(level) && Ordinary(m, key) && Ordinary(n, key) && NoExcluded(m) && NoExcluded(n)
    requires |m| > LARGE_MAP_THRESHOLD && |n| > LARGE_MAP_THRESHOLD
    requires KeysTold(InHash, m, n, json)
    ensures Told(level, Dict(m), Dict(n), key, json) <==> Alike(true, Dict(m), Dict(n))
  {
    OrdinaryKind(m, key);
    OrdinaryKind(n, key);
    ToldKinds(level, Dict(m), Dict(n), key, json);
    SlotsAreSides(m, n, json);
    SlotsAlike(m, n, json);
    LargeNoRatio(m);
    LargeNoRatio(n);
    NodesDecide(true, Dict(m), Dict(n));
  }

  lemma SlotsAreSides(m: map<string, Value>, n: map<string, Value>, json: Renderer)
    ensures SameFields(Exact, ReadEntries(m), ReadEntries(n), json) <==> SlotsSame(m, n, json)
  {
    var f, g := ReadEntries(m), ReadEntries(n);
    assert f.Keys == m.Keys && g.Keys == n.Keys;
    forall k | k in m && k in n
      ensures Same(Exact, f[k], g[k], json) <==> Told(InHash, m[k], n[k], Some(k), json)
    {
      assert f[k] == At(m[k], Some(k)) && g[k] == At(n[k], Some(k));
    }
  }

  /** A large map never agrees with a small one. */
  lemma LargeAgainstSmall(m: map<string, Value>, n: map<string, Value>)
    requires NoExcluded(m) && |m| > LARGE_MAP_THRESHOLD >= |n|
    requires RationalShape(n) ==> LeafForm(Dict(n)).Rational?
    ensures !Alike(true, Dict(m), Dict(n)) && !Alike(true, Dict(n), Dict(m))
  {
    LargeNoRatio(m);
    if !RationalShape(n) {
      assert |m| == |m.Keys| && |n| == |n.Keys|;
      MoreKeys(m.Keys, n.Keys);
      var k :| k in m.Keys && k !in n.Keys;
      UnseenBreaks(Dict(m), Dict(n), k);
      UnseenBreaks(Dict(n), Dict(m), k);
      NodesDecide(true, Dict(m), Dict(n));
      NodesDecide(true, Dict(n), Dict(m));
    }
  }

  lemma {:induction false} MoreKeys(a: set<string>, b: set<string>)
    requires |a| > |b|
    ensures exists k :: k in a && k !in b
  {
    assert |b - a * b| == |b| - |a * b|;
    assert |a - b| == |a| - |a * b|;
    assert a - b != {};
  }

  // ---- Small maps -----------------------------------------------------------------------------------

  function Kept(m: map<string, Value>): map<string, Value> {
    m - {"stakePercent"}
  }

  lemma SmallSides(m: map<string, Value>)
    ensures ReadEntries(m) - {"stakePercent"} == ReadEntries(Kept(m))
  {
  }

  /** Dropping the excluded key does not change what the walk sees. */
  lemma KeptAlike(strict: bool, m: map<string, Value>, n: map<string, Value>)
    ensures AlikeNodes(strict, Dict(Kept(m)), Dict(Kept(n))) <==> AlikeNodes(strict, Dict(m), Dict(n))
  {
    StakeExcluded();
    forall k ensures AlikeKey(strict, Dict(Kept(m)), Dict(Kept(n)), k) <==> AlikeKey(strict, Dict(m), Dict(n), k) {
    }
    if AlikeNodes(strict, Dict(Kept(m)), Dict(Kept(n))) {
      forall k | k in m.Keys + n.Keys ensures AlikeKey(strict, Dict(m), Dict(n), k) {
        if k != "stakePercent" {
          assert k in Kept(m).Keys + Kept(n).Keys;
        }
      }
    }
    if AlikeNodes(strict, Dict(m), Dict(n)) {
      forall k | k in Kept(m).Keys + Kept(n).Keys ensures AlikeKey(strict, Dict(Kept(m)), Dict(Kept(n)), k) {
        assert k in m.Keys + n.Keys;
      }
    }
  }

  lemma SmallKinds(level: Level, m: map<string, Value>, n: map<string, Value>, key: Option<string>, json: Renderer)
    requires Ordinary(m, key) && Ordinary(n, key)
    requires |m| <= LARGE_MAP_THRESHOLD && |n| <= LARGE_MAP_THRESHOLD
    ensures var f, g := ReadEntries(Kept(m)), ReadEntries(Kept(n));
            && AllBelow(f, Depth(Dict(m)))
            && (Told(level, Dict(m), Dict(n), key, json) <==>
                if level.InHash? then SameFields(Exact, f, g, json)
                else
                  || (level.Excused? && f == map[] && g == map[])
                  || if RatioKeys(f) || RatioKeys(g) then RatiosAgree(f, g, json)
                     else AgreeFields(Strict(level), Depth(Dict(m)), f, g, json))
  {
    OrdinaryKind(m, key);
    OrdinaryKind(n, key);
    SmallSides(m);
    SmallSides(n);
    ToldKinds(level, Dict(m), Dict(n), key, json);
  }

  lemma SmallInHash(m: map<string, Value>, n: map<string, Value>, key: Option<string>, json: Renderer)
    requires Ordinary(m, key) && Ordinary(n, key) && SmallPlain(InHash, m) && SmallPlain(InHash, n)
    requires |m| <= LARGE_MAP_THRESHOLD && |n| <= LARGE_MAP_THRESHOLD
    requires KeysTold(InHash, Kept(m), Kept(n), json)
    ensures Told(InHash, Dict(m), Dict(n), key, json) <==> Alike(true, Dict(m), Dict(n))
  {
    SmallKinds(InHash, m, n, key, json);
    SlotsAreSides(Kept(m), Kept(n), json);
    SlotsAlike(Kept(m), Kept(n), json);
    KeptAlike(true, m, n);
    NodesDecide(true, Dict(m), Dict(n));
  }

  lemma RatioSides(m: map<string, Value>)
    requires RationalShape(m)
    ensures var form := LeafForm(Dict(m));
            form == match RatioOf(ReadEntries(m))
                    case Some(r) => Rational(r.0, r.1)
                    case None => Leaf(Plain(Dict(m)))
  {
    assert ReadEntries(m).Keys == m.Keys;
  }

  lemma KeptRatio(level: Level, m: map<string, Value>)
    requires SmallPlain(level, m)
    ensures RationalShape(m) <==> RatioKeys(ReadEntries(Kept(m)))
    ensures RationalShape(m) ==> Kept(m) == m
    ensures ReadEntries(Kept(m)) == map[] <==> m == map[]
  {
    var f := ReadEntries(Kept(m));
    assert f.Keys == Kept(m).Keys;
    if "stakePercent" !in m {
      assert Kept(m) == m;
    } else {
      assert "stakePercent" != "numerator" && "stakePercent" != "denominator" by {
        assert "stakePercent"[0] == 's';
      }
    }
    assert f == map[] <==> f.Keys == {};
    assert m == map[] <==> m.Keys == {};
    assert Kept(m) == map[] <==> Kept(m).Keys == {};
  }

  lemma SmallWalked(level: Level, m: map<string, Value>, n: map<string, Value>, key: Option<string>, json: Renderer)
    requires !level.InHash? && Ordinary(m, key) && Ordinary(n, key) && SmallPlain(level, m) && SmallPlain(level, n)
    requires |m| <= LARGE_MAP_THRESHOLD && |n| <= LARGE_MAP_THRESHOLD
    requires KeysTold(level, Kept(m), Kept(n), json)
    ensures Told(level, Dict(m), Dict(n), key, json) <==> Alike(Strict(level), Dict(m), Dict(n))
  {
    if level.Excused? && m == map[] && n == map[] {
      KeptRatio(level, m);
      KeptRatio(level, n);
      SmallKinds(level, m, n, key, json);
    } else if RationalShape(m) || RationalShape(n) {
      SmallRatios(level, m, n, key, json);
    } else {
      SmallNodes(level, m, n, key, json);
    }
  }

  lemma AlikeRatios(strict: bool, m: map<string, Value>, n: map<string, Value>)
    requires RationalShape(m) || RationalShape(n)
    ensures Alike(strict, Dict(m), Dict(n)) <==> LeafForm(Dict(m)) == LeafForm(Dict(n))
  {
  }

  lemma SmallRatios(level: Level, m: map<string, Value>, n: map<string, Value>, key: Option<string>, json: Renderer)
    requires !level.InHash? && Ordinary(m, key) && Ordinary(n, key) && SmallPlain(level, m) && SmallPlain(level, n)
    requires |m| <= LARGE_MAP_THRESHOLD && |n| <= LARGE_MAP_THRESHOLD && (RationalShape(m) || RationalShape(n))
    ensures Told(level, Dict(m), Dict(n), key, json) <==> Alike(Strict(level), Dict(m), Dict(n))
  {
    KeptRatio(level, m);
    KeptRatio(level, n);
    SmallKinds(level, m, n, key, json);
    RatiosTold(level, m, n, json);
    AlikeRatios(Strict(level), m, n);
  }

  lemma SmallNodes(level: Level, m: map<string, Value>, n: map<string, Value>, key: Option<string>, json: Renderer)
    requires !level.InHash? && Ordinary(m, key) && Ordinary(n, key) && SmallPlain(level, m) && SmallPlain(level, n)
    requires |m| <= LARGE_MAP_THRESHOLD && |n| <= LARGE_MAP_THRESHOLD && !RationalShape(m) && !RationalShape(n)
    requires !(level.Excused? && m == map[] && n == map[])
    requires KeysTold(level, Kept(m), Kept(n), json)
    ensures Told(level, Dict(m), Dict(n), key, json) <==> Alike(Strict(level), Dict(m), Dict(n))
  {
    SmallNodesTold(level, m, n, key, json);
    KeptDecides(Strict(level), m, n);
  }

  lemma KeptDecides(strict: bool, m: map<string, Value>, n: map<string, Value>)
    requires !RationalShape(m) && !RationalShape(n) && (strict || m != map[] || n != map[])
    ensures Alike(strict, Dict(m), Dict(n)) <==> AlikeNodes(strict, Dict(Kept(m)), Dict(Kept(n)))
  {
    KeptAlike(strict, m, n);
    NodesDecide(strict, Dict(m), Dict(n));
  }

  lemma SmallNodesTold(level: Level, m: map<string, Value>, n: map<string, Value>, key: Option<string>, json: Renderer)
    requires !level.InHash? && Ordinary(m, key) && Ordinary(n, key) && SmallPlain(level, m) && SmallPlain(level, n)
    requires |m| <= LARGE_MAP_THRESHOLD && |n| <= LARGE_MAP_THRESHOLD && !RationalShape(m) && !RationalShape(n)
    requires !(level.Excused? && m == map[] && n == map[])
    requires KeysTold(level, Kept(m), Kept(n), json)
    ensures Told(level, Dict(m), Dict(n), key, json) <==>
            AlikeNodes(Strict(level), Dict(Kept(m)), Dict(Kept(n)))
  {
    var d := Depth(Dict(m));
    KeptRatio(level, m);
    KeptRatio(level, n);
    SmallKinds(level, m, n, key, json);
    FieldsTold(level, d, m, n, json);
  }

  lemma RatiosTold(level: Level, m: map<string, Value>, n: map<string, Value>, json: Renderer)
    requires SmallPlain(level, m) && SmallPlain(level, n) && (RationalShape(m) || RationalShape(n))
    ensures RatiosAgree(ReadEntries(Kept(m)), ReadEntries(Kept(n)), json) <==> LeafForm(Dict(m)) == LeafForm(Dict(n))
  {
    KeptRatio(level, m);
    KeptRatio(level, n);
    if RationalShape(m) { RatioSides(m); }
    if RationalShape(n) { RatioSides(n); }
  }

  lemma FieldsTold(level: Level, d: nat, m: map<string, Value>, n: map<string, Value>, json: Renderer)
    requires !level.InHash? && AllBelow(ReadEntries(Kept(m)), d)
    requires KeysTold(level, Kept(m), Kept(n), json)
    ensures AgreeFields(Strict(level), d, ReadEntries(Kept(m)), ReadEntries(Kept(n)), json) <==>
            AlikeNodes(Strict(level), Dict(Kept(m)), Dict(Kept(n)))
  {
    var f, g := ReadEntries(Kept(m)), ReadEntries(Kept(n));
    assert f.Keys == Kept(m).Keys && g.Keys == Kept(n).Keys;
    forall k
      ensures AgreeAt(Strict(level), d, f, g, k, json) <==>
              AlikeKey(Strict(level), Dict(Kept(m)), Dict(Kept(n)), k)
    {
      if k in f && k in g {
        assert f[k] == At(m[k], Some(k)) && g[k] == At(n[k], Some(k));
        assert Told(level, m[k], n[k], Some(k), json) <==> Alike(Strict(level), m[k], n[k]);
      }
    }
  }

  // ---- Lists ------------------------------------------------------------------------------------------

  /** Any element of one list against any element of the other. */
  ghost predicate CrossTold(level: Level, xs: seq<Value>, ys: seq<Value>, json: Renderer) {
    forall i, j | 0 <= i < |xs| && 0 <= j < |ys| :: ElemTold(level, xs[i], ys[j], json)
  }

  ghost predicate ElemTold(level: Level, x: Value, y: Value, json: Renderer) {
    Told(level, x, y, None, json) <==> Alike(Strict(level), x, y)
  }

  lemma ListKind(xs: seq<Value>, key: Option<string>)
    ensures KindOf(At(List(xs), key)) ==
            if |xs| > LARGE_MAP_THRESHOLD then BigList(Each(xs, Under(None))) else Items(Each(xs, Under(None)))
  {
  }

  lemma RawPool(level: Level, x: Value)
    requires Transparent(level, x, None) && !LargePool(x)
    ensures HasId(At(x, None)) <==> x.Dict? && "poolId" in x.entries
    ensures SideId(At(x, None)) == if IsPool(x) then Some(PoolId(x)) else None
  {
    if x.Dict? {
      RawPoolNode(x.entries);
    }
  }

  lemma RawPoolNode(m: map<string, Value>)
    requires Ordinary(m, None) && !LargePool(Dict(m))
    ensures HasId(At(Dict(m), None)) <==> "poolId" in m
    ensures SideId(At(Dict(m), None)) == if "poolId" in m && m["poolId"].Str? then Some(m["poolId"].s) else None
  {
    OrdinaryKind(m, None);
    assert "poolId" != "stakePercent" by { assert "poolId"[0] == 'p' && "stakePercent"[0] == 's'; }
    if "poolId" in m {
      SortKind(m["poolId"], Some("poolId"));
    }
  }

  ghost predicate RawIds(xs: seq<Value>) {
    forall i | 0 <= i < |xs| ::
      SideId(Each(xs, Under(None))[i]) == if IsPool(xs[i]) then Some(PoolId(xs[i])) else None
  }

  lemma PositionsTold(level: Level, d: nat, xs: seq<Value>, ys: seq<Value>, json: Renderer)
    requires |xs| == |ys| && CrossTold(level, xs, ys, json) && EachBelow(Each(xs, Under(None)), d)
    requires !PoolMode(xs) && (xs == [] || !HasId(Each(xs, Under(None))[0]))
    ensures var p, q := Each(xs, Under(None)), Each(ys, Under(None));
            (if level.InHash? then SameItems(Exact, p, q, json) else AgreeItems(Strict(level), d, p, q, json)) <==>
            AlikeLists(Strict(level), List(xs), List(ys))
  {
    var p, q := Each(xs, Under(None)), Each(ys, Under(None));
    forall i | 0 <= i < |xs|
      ensures Told(level, xs[i], ys[i], None, json) <==> AlikeElem(Strict(level), List(xs), List(ys), i)
    {
      assert ElemTold(level, xs[i], ys[i], json);
    }
    assert forall i | 0 <= i < |xs| :: p[i] == At(xs[i], None) && q[i] == At(ys[i], None);
  }

  lemma PoolTold(level: Level, d: nat, xs: seq<Value>, ys: seq<Value>, id: string, json: Renderer)
    requires !level.InHash? && CrossTold(level, xs, ys, json) && EachBelow(Each(xs, Under(None)), d)
    requires PoolList(xs) && PoolList(ys) && RawIds(xs) && RawIds(ys)
    ensures var p, q := Each(xs, Under(None)), Each(ys, Under(None));
            && (id in Ids(xs) <==> Some(id) in IdsOf(p))
            && (id in Ids(ys) <==> Some(id) in IdsOf(q))
            && (AgreePool(Strict(level), d, p, q, id, json) <==> AlikePool(Strict(level), List(xs), List(ys), id))
  {
    var p, q := Each(xs, Under(None)), Each(ys, Under(None));
    LastIs(xs, IdsOf(p), id);
    LastIs(ys, IdsOf(q), id);
    if Some(id) in IdsOf(p) && Some(id) in IdsOf(q) {
      var i, j := LastIndex(IdsOf(p), id), LastIndex(IdsOf(q), id);
      assert ElemTold(level, xs[i], ys[j], json);
      assert p[i] == At(xs[i], None) && q[j] == At(ys[j], None);
    }
  }

  lemma PoolsTold(level: Level, d: nat, xs: seq<Value>, ys: seq<Value>, json: Renderer)
    requires !level.InHash? && |xs| == |ys| && CrossTold(level, xs, ys, json) && EachBelow(Each(xs, Under(None)), d)
    requires PoolMode(xs) && HasId(Each(xs, Under(None))[0]) && RawIds(xs) && RawIds(ys)
    ensures AgreeItems(Strict(level), d, Each(xs, Under(None)), Each(ys, Under(None)), json) <==>
            AlikeLists(Strict(level), List(xs), List(ys))
  {
    var p, q := Each(xs, Under(None)), Each(ys, Under(None));
    RawPools(xs);
    RawPools(ys);
    if PoolList(xs) && PoolList(ys) {
      forall id
        ensures id in Ids(xs) <==> Some(id) in IdsOf(p)
        ensures id in Ids(ys) <==> Some(id) in IdsOf(q)
        ensures AgreePool(Strict(level), d, p, q, id, json) <==> AlikePool(Strict(level), List(xs), List(ys), id)
      {
        PoolTold(level, d, xs, ys, id, json);
      }
    }
  }

  lemma RawPools(xs: seq<Value>)
    requires RawIds(xs)
    ensures None !in IdsOf(Each(xs, Under(None))) <==> forall i | 0 <= i < |xs| :: IsPool(xs[i])
  {
    var ids := IdsOf(Each(xs, Under(None)));
    forall i | 0 <= i < |xs| ensures ids[i].None? <==> !IsPool(xs[i]) {
      assert ids[i] == SideId(Each(xs, Under(None))[i]);
    }
  }

  ghost predicate ShortElems(level: Level, xs: seq<Value>) {
    && |xs| <= LARGE_MAP_THRESHOLD && (level.InHash? ==> !PoolMode(xs))
    && forall i | 0 <= i < |xs| :: !LargePool(xs[i]) && Transparent(level, xs[i], None)
  }

  lemma ShortIds(level: Level, xs: seq<Value>)
    requires ShortElems(level, xs)
    ensures RawIds(xs) && (PoolMode(xs) <==> xs != [] && HasId(Each(xs, Under(None))[0]))
  {
    forall i | 0 <= i < |xs|
      ensures SideId(Each(xs, Under(None))[i]) == if IsPool(xs[i]) then Some(PoolId(xs[i])) else None
    {
      RawPool(level, xs[i]);
    }
    if xs != [] {
      RawPool(level, xs[0]);
    }
  }

  lemma ShortTold(level: Level, xs: seq<Value>, ys: seq<Value>, key: Option<string>, json: Renderer)
    requires ShortElems(level, xs) && ShortElems(level, ys) && CrossTold(level, xs, ys, json)
    ensures Told(level, List(xs), List(ys), key, json) <==> Alike(Strict(level), List(xs), List(ys))
  {
    ListKind(xs, key);
    ListKind(ys, key);
    ShortIds(level, xs);
    ShortIds(level, ys);
    ToldKinds(level, List(xs), List(ys), key, json);
    if |xs| == |ys| {
      if PoolMode(xs) {
        PoolsTold(level, Depth(List(xs)), xs, ys, json);
      } else {
        PositionsTold(level, Depth(List(xs)), xs, ys, json);
      }
    }
  }

  // ---- Long lists ----------------------------------------------------------------------------------------

  ghost predicate Occurs(x: Side, ys: seq<Side>, json: Renderer) {
    exists j :: 0 <= j < |ys| && Same(Exact, x, ys[j], json)
  }

  lemma OccursSnoc(x: Side, ys: seq<Side>, json: Renderer)
    requires ys != []
    ensures Occurs(x, ys, json) <==> Occurs(x, ys[..|ys| - 1], json) || Same(Exact, x, ys[|ys| - 1], json)
  {
    var n := |ys| - 1;
    if j :| 0 <= j < |ys| && Same(Exact, x, ys[j], json) {
      assert j < n ==> ys[..n][j] == ys[j];
    }
    if j :| 0 <= j < n && Same(Exact, x, ys[..n][j], json) {
      assert Same(Exact, x, ys[j], json);
    }
  }

  lemma {:induction false} OccursOnce(x: Side, ys: seq<Side>, json: Renderer)
    requires forall i, j | 0 <= i < j < |ys| :: !(Same(Exact, x, ys[i], json) && Same(Exact, x, ys[j], json))
    ensures Occurrences(x, ys, json) == if Occurs(x, ys, json) then 1 else 0
    decreases |ys|
  {
    if ys != [] {
      var n := |ys| - 1;
      OccursOnce(x, ys[..n], json);
      OccursSnoc(x, ys, json);
      if j :| 0 <= j < n && Same(Exact, x, ys[..n][j], json) {
        assert ys[..n][j] == ys[j];
      }
    }
  }

  lemma FormKeepsId(x: Value, y: Value)
    requires IsPool(x) && IsPool(y) && FormOf(x) == FormOf(y)
    ensures PoolId(x) == PoolId(y)
  {
    assert "poolId" !in {"numerator", "denominator"} by { assert |"poolId"| == 6; }
    PoolIdSegment();
    FieldFormAt(x, "poolId");
    FieldFormAt(y, "poolId");
  }

  /** Inside a hash two pools are the same exactly when they have the same id and form. */
  lemma PoolSame(x: Value, y: Value, json: Renderer)
    requires IsPool(x) && IsPool(y) && WellPooled(x) && ElemTold(InHash, x, y, json)
    ensures Same(Exact, At(x, None), At(y, None), json) <==> FormOf(x) == FormOf(y)
    ensures Same(Exact, At(x, None), At(y, None), json) ==> PoolId(x) == PoolId(y)
  {
    AlikeIffSameForm(x, y);
    if FormOf(x) == FormOf(y) { FormKeepsId(x, y); }
  }

  ghost predicate Pooled(xs: seq<Value>) {
    UniquePools(xs) && forall i | 0 <= i < |xs| :: WellPooled(xs[i])
  }

  lemma PoolOccurs(xs: seq<Value>, ys: seq<Value>, i: nat, json: Renderer)
    requires Pooled(xs) && Pooled(ys) && CrossTold(InHash, xs, ys, json) && i < |xs|
    ensures Occurrences(At(xs[i], None), Each(ys, Under(None)), json) == if Partnered(xs, ys, i) then 1 else 0
  {
    var x, q := At(xs[i], None), Each(ys, Under(None));
    forall j | 0 <= j < |ys|
      ensures Same(Exact, x, q[j], json) <==> FormOf(xs[i]) == FormOf(ys[j])
      ensures Same(Exact, x, q[j], json) ==> PoolId(xs[i]) == PoolId(ys[j])
    {
      assert ElemTold(InHash, xs[i], ys[j], json);
      PoolSame(xs[i], ys[j], json);
    }
    OccursOnce(x, q, json);
    if Partnered(xs, ys, i) {
      var j :| 0 <= j < |ys| && PoolId(ys[j]) == PoolId(xs[i]) && FormOf(ys[j]) == FormOf(xs[i]);
      assert Same(Exact, x, q[j], json);
    }
    assert Partnered(xs, ys, i) <==> Occurs(x, q, json);
  }

  lemma BagOfPools(xs: seq<Value>, ys: seq<Value>, json: Renderer)
    requires Pooled(xs) && Pooled(ys) && CrossTold(InHash, xs, xs, json) && CrossTold(InHash, xs, ys, json)
    ensures SameBag(Each(xs, Under(None)), Each(ys, Under(None)), json) <==>
            |xs| == |ys| && forall i | 0 <= i < |xs| :: Partnered(xs, ys, i)
  {
    var p, q := Each(xs, Under(None)), Each(ys, Under(None));
    forall i | 0 <= i < |xs|
      ensures Occurrences(p[i], p, json) == 1
      ensures Occurrences(p[i], q, json) == if Partnered(xs, ys, i) then 1 else 0
    {
      PoolOccurs(xs, xs, i, json);
      assert Partnered(xs, xs, i);
      PoolOccurs(xs, ys, i, json);
    }
  }

  lemma LongTold(level: Level, xs: seq<Value>, ys: seq<Value>, key: Option<string>, json: Renderer)
    requires Strict(level) && |xs| > LARGE_MAP_THRESHOLD && |ys| > LARGE_MAP_THRESHOLD
    requires Pooled(xs) && Pooled(ys) && CrossTold(InHash, xs, xs, json) && CrossTold(InHash, xs, ys, json)
    ensures Told(level, List(xs), List(ys), key, json) <==> Alike(true, List(xs), List(ys))
  {
    LongKinds(level, xs, ys, key, json);
    BagOfPools(xs, ys, json);
    LongAlike(xs, ys);
  }

  lemma LongKinds(level: Level, xs: seq<Value>, ys: seq<Value>, key: Option<string>, json: Renderer)
    requires Strict(level) && |xs| > LARGE_MAP_THRESHOLD && |ys| > LARGE_MAP_THRESHOLD
    ensures Told(level, List(xs), List(ys), key, json) <==>
            SameBag(Each(xs, Under(None)), Each(ys, Under(None)), json)
  {
    ListKind(xs, key);
    ListKind(ys, key);
    ToldKinds(level, List(xs), List(ys), key, json);
  }

  lemma LongAlike(xs: seq<Value>, ys: seq<Value>)
    requires Pooled(xs) && Pooled(ys)
    ensures Alike(true, List(xs), List(ys)) <==> |xs| == |ys| && forall i | 0 <= i < |xs| :: Partnered(xs, ys, i)
  {
    PoolListsUpToOrder(List(xs), List(ys));
    AlikeIffSameForm(List(xs), List(ys));
  }

  // ---- Values of different kinds ---------------------------------------------------------------------------

  predicate SameSort(a: Value, b: Value) {
    (a.Dict? <==> b.Dict?) && (a.List? <==> b.List?)
  }

  lemma SilentRaw(v: Value, key: Option<string>)
    requires Transparent(Excused, v, key)
    ensures Silent(KindOf(At(v, key))) <==> IsEmpty(v)
    ensures !Hashed(KindOf(At(v, key)))
  {
    match v {
      case Dict(m) =>
        OrdinaryKind(m, key);
        SmallSides(m);
        KeptRatio(Excused, m);
      case List(xs) => ListKind(xs, key); assert Each(xs, Under(None)) == [] <==> xs == [];
      case _ =>
    }
  }

  lemma SortsDiffer(strict: bool, a: Value, b: Value)
    requires !SameSort(a, b)
    ensures Alike(strict, a, b) <==> !strict && IsEmpty(a) && IsEmpty(b)
  {
    KeepsKind(a);
    KeepsKind(b);
  }

  lemma MixedTold(level: Level, a: Value, b: Value, key: Option<string>, json: Renderer)
    requires !SameSort(a, b) && Transparent(level, a, key) && Transparent(level, b, key)
    ensures Told(level, a, b, key, json) <==> Alike(Strict(level), a, b)
  {
    SortsDiffer(Strict(level), a, b);
    SortKind(a, key);
    SortKind(b, key);
    ToldKinds(level, a, b, key, json);
    if level.Excused? {
      SilentRaw(a, key);
      SilentRaw(b, key);
    }
  }

  // ---- The same verdict ---------------------------------------------------------------------------------

  /** On transparent values the summary gives the verdict of the values themselves. */
  lemma {:induction false} ToldIff(level: Level, a: Value, b: Value, key: Option<string>, json: Renderer)
    requires Transparent(level, a, key) && Transparent(level, b, key) && WellPooled(a) && WellPooled(b)
    ensures Told(level, a, b, key, json) <==> Alike(Strict(level), a, b)
    decreases a, 1
  {
    if !SameSort(a, b) {
      MixedTold(level, a, b, key, json);
    } else {
      match a {
        case Dict(_) => DictsTold(level, a, b, key, json);
        case List(_) => ListsTold(level, a, b, key, json);
        case _ => ScalarTold(level, a, b, key, json);
      }
    }
  }

  lemma {:induction false} DictsTold(level: Level, a: Value, b: Value, key: Option<string>, json: Renderer)
    requires a.Dict? && b.Dict?
    requires Transparent(level, a, key) && Transparent(level, b, key) && WellPooled(a) && WellPooled(b)
    ensures Told(level, a, b, key, json) <==> Alike(Strict(level), a, b)
    decreases a, 0
  {
    var m, n := a.entries, b.entries;
    if FlatDigest(key, m) || FlatDigest(key, n) {
      FlatTold(level, m, n, key, json);
    } else if |m| > LARGE_MAP_THRESHOLD && |n| > LARGE_MAP_THRESHOLD {
      forall k | k in m && k in n ensures Told(InHash, m[k], n[k], Some(k), json) <==> Alike(true, m[k], n[k]) {
        ToldIff(InHash, m[k], n[k], Some(k), json);
      }
      LargeTold(level, m, n, key, json);
    } else if |m| > LARGE_MAP_THRESHOLD || |n| > LARGE_MAP_THRESHOLD {
      SizesTold(level, m, n, key, json);
    } else {
      forall k | k in Kept(m) && k in Kept(n)
        ensures Told(level, Kept(m)[k], Kept(n)[k], Some(k), json) <==> Alike(Strict(level), Kept(m)[k], Kept(n)[k])
      {
        ToldIff(level, m[k], n[k], Some(k), json);
      }
      if level.InHash? {
        SmallInHash(m, n, key, json);
      } else {
        SmallWalked(level, m, n, key, json);
      }
    }
  }

  lemma SizesTold(level: Level, m: map<string, Value>, n: map<string, Value>, key: Option<string>, json: Renderer)
    requires Transparent(level, Dict(m), key) && Transparent(level, Dict(n), key)
    requires !FlatDigest(key, m) && !FlatDigest(key, n)
    requires (|m| > LARGE_MAP_THRESHOLD) != (|n| > LARGE_MAP_THRESHOLD)
    ensures Told(level, Dict(m), Dict(n), key, json) <==> Alike(Strict(level), Dict(m), Dict(n))
  {
    OrdinaryKind(m, key);
    OrdinaryKind(n, key);
    ToldKinds(level, Dict(m), Dict(n), key, json);
    if |m| > LARGE_MAP_THRESHOLD {
      LargeAgainstSmall(m, n);
    } else {
      LargeAgainstSmall(n, m);
    }
  }

  lemma {:induction false} ListsTold(level: Level, a: Value, b: Value, key: Option<string>, json: Renderer)
    requires a.List? && b.List?
    requires Transparent(level, a, key) && Transparent(level, b, key) && WellPooled(a) && WellPooled(b)
    ensures Told(level, a, b, key, json) <==> Alike(Strict(level), a, b)
    decreases a, 0
  {
    var xs, ys := a.elems, b.elems;
    if |xs| > LARGE_MAP_THRESHOLD && |ys| > LARGE_MAP_THRESHOLD {
      forall i, j | 0 <= i < |xs| && 0 <= j < |ys| ensures ElemTold(InHash, xs[i], ys[j], json) {
        ToldIff(InHash, xs[i], ys[j], None, json);
      }
      forall i, j | 0 <= i < |xs| && 0 <= j < |xs| ensures ElemTold(InHash, xs[i], xs[j], json) {
        ToldIff(InHash, xs[i], xs[j], None, json);
      }
      LongTold(level, xs, ys, key, json);
    } else if |xs| > LARGE_MAP_THRESHOLD || |ys| > LARGE_MAP_THRESHOLD {
      ListKind(xs, key);
      ListKind(ys, key);
      ToldKinds(level, a, b, key, json);
    } else {
      forall i, j | 0 <= i < |xs| && 0 <= j < |ys| ensures ElemTold(level, xs[i], ys[j], json) {
        ToldIff(level, xs[i], ys[j], None, json);
      }
      ShortTold(level, xs, ys, key, json);
    }
  }

  function LevelAt(era: string, k: string): Level {
    if Applicable(k, era) then Walked else Excused
  }

  /** A dump whose every key the summary keeps transparent, in the given era. */
  predicate TransparentDump(era: string, v: Value) {
    && v.Dict? && ShapeOf(v.entries).NoRelay? && DIGEST !in v.entries && |v.entries| <= LARGE_MAP_THRESHOLD
    && forall k | k in v.entries && k != "stakePercent" :: Transparent(LevelAt(era, k), v.entries[k], Some(k))
  }

  /** On transparent dumps, comparing summaries and comparing the dumps gives the same verdict. */
  lemma SummariesDecide(era: string, a: Value, b: Value, json: Renderer)
    requires TransparentDump(era, a) && TransparentDump(era, b) && WellPooled(a) && WellPooled(b)
    requires Faithful(json) && Raw(Whole(a), json) && Raw(Whole(b), json)
    ensures Clean(CompareEpoch(era, Summary(a, json), Summary(b, json))) <==> Clean(CompareEpoch(era, a, b))
  {
    VerdictIffAgree(era, a, b, json);
    EpochCleanIffAgree(era, a, b);
    DumpsTold(era, a, b, json);
  }

  lemma DumpTold(era: string, a: Value, b: Value, k: string, json: Renderer)
    requires TransparentDump(era, a) && TransparentDump(era, b) && WellPooled(a) && WellPooled(b)
    requires AllBelow(ReadEntries(Kept(a.entries)), Depth(a))
    ensures AgreeAt(Applicable(k, era), Depth(a), ReadEntries(Kept(a.entries)), ReadEntries(Kept(b.entries)), k, json)
            <==> EpochAlikeAt(era, a, b, k)
  {
    var f, g := ReadEntries(Kept(a.entries)), ReadEntries(Kept(b.entries));
    StakeExcluded();
    if k in f && k in g {
      ToldIff(LevelAt(era, k), a.entries[k], b.entries[k], Some(k), json);
      assert f[k] == At(a.entries[k], Some(k)) && g[k] == At(b.entries[k], Some(k));
    }
  }

  lemma DumpsTold(era: string, a: Value, b: Value, json: Renderer)
    requires TransparentDump(era, a) && TransparentDump(era, b) && WellPooled(a) && WellPooled(b)
    ensures EpochAgree(era, a, b, json) <==> EpochAlike(era, a, b)
  {
    var f, g := ReadEntries(Kept(a.entries)), ReadEntries(Kept(b.entries));
    OrdinaryKind(a.entries, None);
    OrdinaryKind(b.entries, None);
    SmallSides(a.entries);
    SmallSides(b.entries);
    PartsBelow(Whole(a));
    forall k ensures AgreeAt(Applicable(k, era), Depth(a), f, g, k, json) <==> EpochAlikeAt(era, a, b, k) {
      DumpTold(era, a, b, k, json);
    }
    if EpochAgree(era, a, b, json) {
      StakeExcluded();
      forall k | k in a.entries.Keys + b.entries.Keys ensures EpochAlikeAt(era, a, b, k) {
        assert k in f.Keys + g.Keys ==> AgreeAt(Applicable(k, era), Depth(a), f, g, k, json);
      }
    }
  }

  // ---- Where the verdicts part ----------------------------------------------------------------------------

  predicate HashScalars(xs: seq<Value>) {
    forall i | 0 <= i < |xs| :: IsScalar(xs[i]) && !xs[i].Bool?
  }

  lemma ScalarsTell(x: Value, ys: seq<Value>, json: Renderer)
    requires IsScalar(x) && HashScalars(ys)
    ensures Tells(At(x, None), Fold(x), Each(ys, Under(None)), FoldEach(ys), json)
  {
    forall j | 0 <= j < |ys|
      ensures Same(Exact, At(x, None), At(ys[j], None), json) <==> Fold(x) == FoldEach(ys)[j]
    {
      ToldKinds(InHash, x, ys[j], None, json);
    }
  }

  lemma ScalarsInPlace(xs: seq<Value>, ys: seq<Value>)
    requires HashScalars(xs) && HashScalars(ys)
    ensures Alike(true, List(xs), List(ys)) <==> FoldEach(xs) == FoldEach(ys)
  {
    SeqsEqualIff(FoldEach(xs), FoldEach(ys));
    assert !PoolMode(xs);
    assert Alike(true, List(xs), List(ys)) <==> AlikeLists(true, List(xs), List(ys));
    if |xs| == |ys| {
      forall i | 0 <= i < |xs|
        ensures AlikeElem(true, List(xs), List(ys), i) <==> FoldEach(xs)[i] == FoldEach(ys)[i]
      {
        ScalarFold(xs[i], ys[i]);
      }
    }
  }

  lemma ScalarBags(xs: seq<Value>, ys: seq<Value>, json: Renderer)
    requires HashScalars(xs) && HashScalars(ys)
    ensures SameBag(Each(xs, Under(None)), Each(ys, Under(None)), json) <==>
            multiset(FoldEach(xs)) == multiset(FoldEach(ys))
  {
    var p, q := Each(xs, Under(None)), Each(ys, Under(None));
    forall i | 0 <= i < |xs|
      ensures Tells(p[i], FoldEach(xs)[i], p, FoldEach(xs), json) && Tells(p[i], FoldEach(xs)[i], q, FoldEach(ys), json)
    {
      ScalarsTell(xs[i], xs, json);
      ScalarsTell(xs[i], ys, json);
    }
    SameBagIff(p, FoldEach(xs), q, FoldEach(ys), json);
  }

  /** The order of a long list of scalars is hidden: both verdicts, exactly. */
  lemma LongListsPart(xs: seq<Value>, ys: seq<Value>, key: Option<string>, json: Renderer)
    requires HashScalars(xs) && HashScalars(ys) && |xs| > LARGE_MAP_THRESHOLD && |ys| > LARGE_MAP_THRESHOLD
    ensures Told(Walked, List(xs), List(ys), key, json) <==> multiset(FoldEach(xs)) == multiset(FoldEach(ys))
    ensures Alike(true, List(xs), List(ys)) <==> FoldEach(xs) == FoldEach(ys)
  {
    LongKinds(Walked, xs, ys, key, json);
    ScalarBags(xs, ys, json);
    ScalarsInPlace(xs, ys);
  }

  lemma FlatKind(m: map<string, Value>, key: Option<string>)
    requires FlatDigest(key, m) && ShapeOf(m).NoRelay? && DIGEST !in m
    ensures KindOf(At(Dict(m), key)) == FlatMap(m)
  {
  }

  predicate Digested(m: map<string, Value>) {
    && IntsAndStrings(m) && ShapeOf(m).NoRelay? && DIGEST !in m && NoExcluded(m) && !RationalShape(m)
  }

  /** A digested map hides the type of a value when each side holds some string: both verdicts, exactly. */
  lemma FlatMapsPart(m: map<string, Value>, n: map<string, Value>, key: Option<string>, json: Renderer)
    requires Digestable(key) && Digested(m) && Digested(n)
    ensures Told(Walked, Dict(m), Dict(n), key, json) <==> SameFlat(m, n, json)
    ensures Alike(true, Dict(m), Dict(n)) <==> m == n
  {
    FlatKind(m, key);
    FlatKind(n, key);
    ToldKinds(Walked, Dict(m), Dict(n), key, json);
    FlatAlikeEqual(m, n);
  }

  function Pair(v: Value): (m: map<string, Value>)
    ensures m.Keys == {"a", "b"} && m["a"] == v && m["b"] == Str("x")
  {
    map["a" := v, "b" := Str("x")]
  }

  lemma PairDigested(v: Value)
    requires v.Int? || v.Str?
    ensures Digested(Pair(v))
  {
    var m := Pair(v);
    assert |m| == |m.Keys| == 2;
    assert |DIGEST| != 1 && |"type"| != 1 && |"numerator"| != 1;
    SegmentLength("a");
    SegmentLength("b");
    assert |"stakePercent"| == 12;
    assert "a" in m.Keys;
  }

  /** An amount and its own spelling as text. */
  lemma FlatTypeHidden(amount: nat, json: Renderer)
    ensures var m, n := Pair(Int(amount)), Pair(Str(NatText(amount)));
            Told(Walked, Dict(m), Dict(n), Some("stake"), json) && !Alike(true, Dict(m), Dict(n))
  {
    var m, n := Pair(Int(amount)), Pair(Str(NatText(amount)));
    PairDigested(Int(amount));
    PairDigested(Str(NatText(amount)));
    FlatMapsPart(m, n, Some("stake"), json);
    PairsRender(amount, json);
  }

  lemma PairsRender(amount: nat, json: Renderer)
    ensures var m, n := Pair(Int(amount)), Pair(Str(NatText(amount)));
            SameFlat(m, n, json) && m != n
  {
    var m, n := Pair(Int(amount)), Pair(Str(NatText(amount)));
    assert m["a"] != n["a"];
    assert Rendered(m["a"], json) == Rendered(n["a"], json);
    assert "b" in m && "b" in n;
    assert !AllInts(m) && !AllInts(n);
  }

  lemma {:induction false} SameReflexive(mode: Mode, s: Side, json: Renderer)
    ensures Same(mode, s, s, json)
    decreases Depth(s.v)
  {
    PartsBelow(s);
    match KindOf(s) {
      case Items(xs) =>
        forall i | 0 <= i < |xs| ensures Same(mode, xs[i], xs[i], json) { SameReflexive(mode, xs[i], json); }
      case Fields(f) =>
        forall k | k in f ensures Same(mode, f[k], f[k], json) { SameReflexive(mode, f[k], json); }
      case BigMap(f) =>
        forall k | k in f ensures Same(Exact, f[k], f[k], json) { SameReflexive(Exact, f[k], json); }
      case _ =>
    }
  }

  lemma OneSlotSame(m: map<string, Value>, k: string, y: Value, json: Renderer)
    requires k in m
    ensures SlotsSame(m, m[k := y], json) <==> Told(InHash, m[k], y, Some(k), json)
  {
    var n := m[k := y];
    assert n.Keys == m.Keys;
    if Told(InHash, m[k], y, Some(k), json) {
      forall j | j in m && j in n ensures Told(InHash, m[j], n[j], Some(j), json) {
        if j != k { SameReflexive(Exact, At(m[j], Some(j)), json); }
      }
    }
  }

  lemma OneSlotAlike(m: map<string, Value>, k: string, y: Value)
    requires k in m && WellPooled(Dict(m)) && !RationalShape(m)
    ensures Alike(true, Dict(m), Dict(m[k := y])) <==> Excluded(k) || Alike(true, m[k], y)
  {
    var n := m[k := y];
    assert n.Keys == m.Keys;
    NodesDecide(true, Dict(m), Dict(n));
    forall j | j in m && j != k ensures AlikeKey(true, Dict(m), Dict(n), j) {
      AlikeIffSameForm(m[j], n[j]);
    }
    assert AlikeKey(true, Dict(m), Dict(n), k) <==> Excluded(k) || Alike(true, m[k], y);
  }

  /** One changed entry of a large map: both verdicts, exactly. */
  lemma LargeMapsPart(m: map<string, Value>, k: string, y: Value, key: Option<string>, json: Renderer)
    requires Ordinary(m, key) && Ordinary(m[k := y], key) && |m| > LARGE_MAP_THRESHOLD && k in m && WellPooled(Dict(m))
    ensures Told(Walked, Dict(m), Dict(m[k := y]), key, json) <==> Told(InHash, m[k], y, Some(k), json)
    ensures Alike(true, Dict(m), Dict(m[k := y])) <==> Excluded(k) || Alike(true, m[k], y)
  {
    LargeNoRatio(m);
    OneSlotAlike(m, k, y);
    OneSlotHashed(m, k, y, key, json);
  }

  lemma OneSlotHashed(m: map<string, Value>, k: string, y: Value, key: Option<string>, json: Renderer)
    requires Ordinary(m, key) && Ordinary(m[k := y], key) && |m| > LARGE_MAP_THRESHOLD && k in m
    ensures Told(Walked, Dict(m), Dict(m[k := y]), key, json) <==> Told(InHash, m[k], y, Some(k), json)
  {
    var n := m[k := y];
    assert n.Keys == m.Keys;
    assert |n| == |n.Keys| && |m| == |m.Keys|;
    OrdinaryKind(m, key);
    OrdinaryKind(n, key);
    ToldKinds(Walked, Dict(m), Dict(n), key, json);
    SlotsAreSides(m, n, json);
    OneSlotSame(m, k, y, json);
  }

  /** Inside a hash `true` and `1` are different; the walk takes them for equal. */
  lemma BooleanInHash(k: string, json: Renderer)
    ensures !Told(InHash, Bool(true), Int(1), Some(k), json) && Alike(true, Bool(true), Int(1))
  {
    ToldKinds(InHash, Bool(true), Int(1), Some(k), json);
  }

  function Ratio(n: int, d: int): map<string, Value> {
    map["numerator" := Int(n), "denominator" := Int(d)]
  }

  lemma RatioOrdinary(n: int, d: int, k: string)
    requires !Digestable(Some(k))
    ensures var r := Ratio(n, d);
            && r.Keys == {"numerator", "denominator"} && r["numerator"] == Int(n) && r["denominator"] == Int(d)
            && Ordinary(r, Some(k)) && |r| == 2 && WellPooled(Dict(r))
  {
    var r := Ratio(n, d);
    assert "numerator" != "denominator" by { assert |"numerator"| != |"denominator"|; }
    assert |r| == |r.Keys| == 2;
    assert "type" !in r by { assert |"type"| == 4; }
    assert DIGEST !in r by { assert DIGEST[0] == '_'; }
  }

  /** A difference at one key of two small maps is seen inside a hash. */
  lemma EntrySeen(x: map<string, Value>, y: map<string, Value>, k: string, key: Option<string>, json: Renderer)
    requires Ordinary(x, key) && Ordinary(y, key) && |x| <= LARGE_MAP_THRESHOLD && |y| <= LARGE_MAP_THRESHOLD
    requires k in x && k in y && k != "stakePercent" && !Told(InHash, x[k], y[k], Some(k), json)
    ensures !Told(InHash, Dict(x), Dict(y), key, json)
  {
    SmallKinds(InHash, x, y, key, json);
    SlotsAreSides(Kept(x), Kept(y), json);
    assert k in Kept(x) && k in Kept(y);
  }

  lemma RatiosAlike(n: int, d: int, c: int, k: string)
    requires d > 0 && c > 1 && !Digestable(Some(k))
    ensures Alike(true, Dict(Ratio(n, d)), Dict(Ratio(c * n, c * d)))
  {
    RatioOrdinary(n, d, k);
    RatioOrdinary(c * n, c * d, k);
    assert c * d > 0 && n * (c * d) == c * n * d;
    RationalsCompareByValue(Dict(Ratio(n, d)), Dict(Ratio(c * n, c * d)), n, d, c * n, c * d);
    AlikeIffSameForm(Dict(Ratio(n, d)), Dict(Ratio(c * n, c * d)));
  }

  /** The same number written with other terms: equal to the walk, different inside a hash. */
  lemma RationalInHash(n: int, d: int, c: int, k: string, json: Renderer)
    requires d > 0 && c > 1 && !Digestable(Some(k))
    ensures var x, y := Dict(Ratio(n, d)), Dict(Ratio(c * n, c * d));
            !Told(InHash, x, y, Some(k), json) && Alike(true, x, y)
  {
    RatiosAlike(n, d, c, k);
    assert c * d > d;
    RatiosSeen(n, d, c * n, c * d, k, json);
  }

  lemma RatiosSeen(n: int, d: int, n': int, d': int, k: string, json: Renderer)
    requires d != d' && !Digestable(Some(k))
    ensures !Told(InHash, Dict(Ratio(n, d)), Dict(Ratio(n', d')), Some(k), json)
  {
    RatioOrdinary(n, d, k);
    RatioOrdinary(n', d', k);
    assert "denominator" != "stakePercent" by { assert "denominator"[0] == 'd' && "stakePercent"[0] == 's'; }
    ToldKinds(InHash, Int(d), Int(d'), Some("denominator"), json);
    EntrySeen(Ratio(n, d), Ratio(n', d'), "denominator", Some(k), json);
  }

  lemma PoolsAlike(p: Value, q: Value)
    requires UniquePools([p, q]) && WellPooled(p) && WellPooled(q)
    ensures Alike(true, List([p, q]), List([q, p]))
  {
    var xs, ys := [p, q], [q, p];
    assert PoolId(xs[0]) != PoolId(xs[1]);
    assert PoolList(ys) && UniqueIds(ys);
    assert Partnered(xs, ys, 0) by { assert PoolId(ys[1]) == PoolId(xs[0]) && FormOf(ys[1]) == FormOf(xs[0]); }
    assert Partnered(xs, ys, 1) by { assert PoolId(ys[0]) == PoolId(xs[1]) && FormOf(ys[0]) == FormOf(xs[1]); }
    PoolListsUpToOrder(List(xs), List(ys));
    AlikeIffSameForm(List(xs), List(ys));
  }

  lemma FirstSeen(p: Value, q: Value, key: Option<string>, json: Renderer)
    requires !Told(InHash, p, q, None, json)
    ensures !Told(InHash, List([p, q]), List([q, p]), key, json)
  {
    var xs, ys := [p, q], [q, p];
    ListKind(xs, key);
    ListKind(ys, key);
    ToldKinds(InHash, List(xs), List(ys), key, json);
    assert Each(xs, Under(None))[0] == At(p, None) && Each(ys, Under(None))[0] == At(q, None);
  }

  /** Two pools in either order: matched by id in the walk, by place inside a hash. */
  lemma PoolOrderInHash(p: Value, q: Value, key: Option<string>, json: Renderer)
    requires IsPool(p) && IsPool(q) && UniquePools([p, q]) && WellPooled(p) && WellPooled(q)
    requires Ordinary(p.entries, None) && |p.entries| <= LARGE_MAP_THRESHOLD
    requires Ordinary(q.entries, None) && |q.entries| <= LARGE_MAP_THRESHOLD
    ensures !Told(InHash, List([p, q]), List([q, p]), key, json) && Alike(true, List([p, q]), List([q, p]))
  {
    PoolsAlike(p, q);
    assert PoolId([p, q][0]) != PoolId([p, q][1]);
    PoolIdsSeen(p, q, json);
    FirstSeen(p, q, key, json);
  }

  lemma PoolIdsSeen(p: Value, q: Value, json: Renderer)
    requires IsPool(p) && IsPool(q) && PoolId(p) != PoolId(q)
    requires Ordinary(p.entries, None) && |p.entries| <= LARGE_MAP_THRESHOLD
    requires Ordinary(q.entries, None) && |q.entries| <= LARGE_MAP_THRESHOLD
    ensures !Told(InHash, p, q, None, json)
  {
    assert "poolId" != "stakePercent" by { assert "poolId"[0] == 'p' && "stakePercent"[0] == 's'; }
    ToldKinds(InHash, p.entries["poolId"], q.entries["poolId"], Some("poolId"), json);
    EntrySeen(p.entries, q.entries, "poolId", None, json);
  }

  /** Outside its era a large map is never looked into against a small one; the walk would report a difference. */
  lemma HashHidesOutsideEra(
      m: map<string, Value>, n: map<string, Value>, k: string, key: Option<string>, json: Renderer)
    requires Ordinary(m, key) && Ordinary(n, key) && |m| > LARGE_MAP_THRESHOLD >= |n|
    requires SmallPlain(Excused, n) && !RationalShape(n)
    requires k in m && k in n && !Excluded(k) && !Alike(false, m[k], n[k])
    ensures Told(Excused, Dict(m), Dict(n), key, json) && !Alike(false, Dict(m), Dict(n))
  {
    OrdinaryKind(m, key);
    OrdinaryKind(n, key);
    SmallSides(n);
    KeptRatio(Excused, n);
    ToldKinds(Excused, Dict(m), Dict(n), key, json);
    LargeNoRatio(m);
    NodesDecide(false, Dict(m), Dict(n));
    assert !AlikeKey(false, Dict(m), Dict(n), k);
  }
}