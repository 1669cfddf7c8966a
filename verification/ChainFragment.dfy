/**
 The anchored fragment of the selected chain: pure operations on values, their
 laws against the full chain, and the mutable class of the source.
 */
module ChainFragments {
  import opened Wrappers

  type Hash = nat

  datatype Point = Origin | Specific(slot: nat, hash: Hash)

  datatype Header = Header(hash: Hash, prevHash: Hash, blockNo: nat, slot: nat)

  datatype Fragment = Fragment(anchor: Point, headers: seq<Header>)

  function PointOf(h: Header): Point {
    Specific(h.slot, h.hash)
  }

  // ---- Chains ----------------------------------------------------------------

  /** `h` may follow a block at point `p`; nothing is known of the parent of the first block. */
  predicate Follows(p: Point, h: Header) {
    p.Specific? ==> h.prevHash == p.hash && h.slot > p.slot
  }

  /** An unbroken chain from `base`: linked, with strictly increasing slots and block numbers. */
  ghost predicate Linked(base: Point, hs: seq<Header>) {
    && (hs != [] ==> Follows(base, hs[0]))
    && forall i | 0 <= i < |hs| - 1 :: LinkAt(hs, i)
  }

  predicate LinkAt(hs: seq<Header>, i: nat)
    requires i < |hs| - 1
  {
    Follows(PointOf(hs[i]), hs[i + 1]) && hs[i].blockNo < hs[i + 1].blockNo
  }

  /** The point reached after the first `n` blocks. */
  function PointAt(base: Point, hs: seq<Header>, n: nat): Point
    requires n <= |hs|
  {
    if n == 0 then base else PointOf(hs[n - 1])
  }

  function Tip(f: Fragment): Point {
    PointAt(f.anchor, f.headers, |f.headers|)
  }

  predicate Contains(f: Fragment, p: Point) {
    p == f.anchor || exists i :: 0 <= i < |f.headers| && PointOf(f.headers[i]) == p
  }

  lemma {:induction false} SlotsIncrease(base: Point, hs: seq<Header>, i: nat, j: nat)
    requires Linked(base, hs) && i < j < |hs|
    ensures hs[i].slot < hs[j].slot && hs[i].blockNo < hs[j].blockNo
  {
    assert LinkAt(hs, j - 1);
    if i < j - 1 {
      SlotsIncrease(base, hs, i, j - 1);
    }
  }

  lemma FirstAfterBase(base: Point, hs: seq<Header>, i: nat)
    requires Linked(base, hs) && i < |hs| && base.Specific?
    ensures base.slot < hs[i].slot
  {
    if i > 0 {
      SlotsIncrease(base, hs, 0, i);
    }
  }

  /** Positions on a chain are told apart by their points. */
  lemma PointsDistinct(base: Point, hs: seq<Header>, i: nat, j: nat)
    requires Linked(base, hs) && i <= |hs| && j <= |hs|
    ensures PointAt(base, hs, i) == PointAt(base, hs, j) <==> i == j
  {
    var a, b := if i < j then i else j, if i < j then j else i;
    if a < b {
      if a == 0 && base.Specific? {
        FirstAfterBase(base, hs, b - 1);
      } else if a > 0 {
        SlotsIncrease(base, hs, a - 1, b - 1);
      }
    }
  }

  lemma LinkedSplit(base: Point, hs: seq<Header>, n: nat)
    requires Linked(base, hs) && n <= |hs|
    ensures Linked(base, hs[..n]) && Linked(PointAt(base, hs, n), hs[n..])
  {
    forall i | 0 <= i < n - 1 ensures LinkAt(hs[..n], i) { assert LinkAt(hs, i); }
    forall i | 0 <= i < |hs| - n - 1 ensures LinkAt(hs[n..], i) { assert LinkAt(hs, n + i); }
    if 0 < n < |hs| { assert LinkAt(hs, n - 1); }
  }

  lemma LinkedPush(base: Point, hs: seq<Header>, h: Header)
    requires Linked(base, hs)
    requires Follows(PointAt(base, hs, |hs|), h)
    requires hs != [] ==> hs[|hs| - 1].blockNo < h.blockNo
    ensures Linked(base, hs + [h])
  {
    var ext := hs + [h];
    forall i | 0 <= i < |ext| - 1 ensures LinkAt(ext, i) {
      if i < |hs| - 1 { assert LinkAt(hs, i); }
    }
  }

  // ---- Operations --------------------------------------------------------------

  function Push(f: Fragment, h: Header): Fragment {
    f.(headers := f.headers + [h])
  }

  /** The last position whose header has this slot and hash. */
  function LastIndex(hs: seq<Header>, slot: nat, hash: Hash): (r: Option<nat>)
    ensures r.Some? ==> r.value < |hs| && PointOf(hs[r.value]) == Specific(slot, hash)
    ensures r.Some? ==> forall i | r.value < i < |hs| :: PointOf(hs[i]) != Specific(slot, hash)
    ensures r.None? ==> forall i | 0 <= i < |hs| :: PointOf(hs[i]) != Specific(slot, hash)
  {
    if hs == [] then None
    else
      var n := |hs| - 1;
      if hs[n].slot == slot && hs[n].hash == hash then Some(n) else LastIndex(hs[..n], slot, hash)
  }

  /** Decided by exact point; `None` when the point is unknown. */
  function Rollback(f: Fragment, p: Point): Option<Fragment> {
    if p == f.anchor then Some(f.(headers := []))
    else match p
         case Origin => None
         case Specific(slot, hash) =>
           match LastIndex(f.headers, slot, hash)
           case None => None
           case Some(i) => Some(f.(headers := f.headers[..i + 1]))
  }

  /** The number of leading headers at or before a slot. */
  function DueCount(hs: seq<Header>, slot: nat): (n: nat)
    ensures n <= |hs|
    ensures forall i | 0 <= i < n :: hs[i].slot <= slot
    ensures n < |hs| ==> hs[n].slot > slot
  {
    if hs == [] || hs[0].slot > slot then 0 else 1 + DueCount(hs[1..], slot)
  }

  /** Decided by slot alone. */
  function Advance(f: Fragment, p: Point): Fragment {
    match p
    case Origin => f.(anchor := p)
    case Specific(slot, _) => Fragment(p, f.headers[DueCount(f.headers, slot)..])
  }

  // ---- Windows on a full chain ----------------------------------------------------

  /** The fragment is the part of `chain` after its first `n` blocks. */
  ghost predicate Window(base: Point, chain: seq<Header>, n: nat, f: Fragment) {
    n <= |chain| && f.anchor == PointAt(base, chain, n) && f.headers == chain[n..]
  }

  lemma WindowPoint(base: Point, chain: seq<Header>, n: nat, f: Fragment, p: Point)
    requires Linked(base, chain) && Window(base, chain, n, f)
    ensures Contains(f, p) <==> exists m :: n <= m <= |chain| && PointAt(base, chain, m) == p
  {
    if Contains(f, p) {
      if p == f.anchor {
      } else {
        var i :| 0 <= i < |f.headers| && PointOf(f.headers[i]) == p;
        assert PointAt(base, chain, n + i + 1) == p;
      }
    }
    if exists m :: n <= m <= |chain| && PointAt(base, chain, m) == p {
      var m :| n <= m <= |chain| && PointAt(base, chain, m) == p;
      if m > n {
        assert PointOf(f.headers[m - n - 1]) == p;
      }
    }
  }

  /** Rollback by point finds the unique position, or fails when there is none in the window. */
  lemma RollbackOnChain(base: Point, chain: seq<Header>, n: nat, f: Fragment, p: Point)
    requires Linked(base, chain) && Window(base, chain, n, f)
    ensures Rollback(f, p).Some? <==> Contains(f, p)
    ensures forall m | n <= m <= |chain| && PointAt(base, chain, m) == p ::
              Rollback(f, p) == Some(Fragment(f.anchor, chain[n..m]))
  {
    WindowPoint(base, chain, n, f, p);
    forall m | n <= m <= |chain| && PointAt(base, chain, m) == p
      ensures Rollback(f, p) == Some(Fragment(f.anchor, chain[n..m]))
    {
      PointsDistinct(base, chain, n, m);
      if m > n {
        var k := LastIndex(f.headers, p.slot, p.hash);
        assert PointOf(f.headers[m - n - 1]) == p;
        assert f.headers[k.value] == chain[n + k.value];
        PointsDistinct(base, chain, m, n + k.value + 1);
        assert f.headers[..m - n] == chain[n..m];
      } else {
        assert chain[n..m] == [];
      }
    }
  }

  /** Advance by slot removes exactly the blocks up to a contained point. */
  lemma AdvanceOnChain(base: Point, chain: seq<Header>, n: nat, f: Fragment, m: nat)
    requires Linked(base, chain) && Window(base, chain, n, f)
    requires n <= m <= |chain|
    ensures Window(base, chain, m, Advance(f, PointAt(base, chain, m)))
  {
    var p := PointAt(base, chain, m);
    if p.Specific? {
      forall i | 0 <= i < m - n ensures f.headers[i].slot <= p.slot {
        if n + i < m - 1 { SlotsIncrease(base, chain, n + i, m - 1); }
      }
      if m < |chain| {
        if m == 0 { FirstAfterBase(base, chain, 0); } else { SlotsIncrease(base, chain, m - 1, m); }
      }
      DueCountIs(f.headers, p.slot, m - n);
      assert f.headers[m - n..] == chain[m..];
    }
  }

  lemma {:induction false} DueCountIs(hs: seq<Header>, slot: nat, d: nat)
    requires d <= |hs|
    requires forall i | 0 <= i < d :: hs[i].slot <= slot
    requires d < |hs| ==> hs[d].slot > slot
    ensures DueCount(hs, slot) == d
  {
    if d > 0 {
      assert hs[0].slot <= slot;
      DueCountIs(hs[1..], slot, d - 1);
    }
  }

  /** An advance keeps the fragment a window of the same chain exactly for contained points. */
  lemma AdvanceKeepsWindowIffContained(base: Point, chain: seq<Header>, n: nat, f: Fragment, p: Point)
    requires Linked(base, chain) && Window(base, chain, n, f)
    ensures (exists m :: Window(base, chain, m, Advance(f, p))) <==> Contains(f, p)
  {
    WindowPoint(base, chain, n, f, p);
    if Contains(f, p) {
      var m :| n <= m <= |chain| && PointAt(base, chain, m) == p;
      AdvanceOnChain(base, chain, n, f, m);
    }
    if exists m :: Window(base, chain, m, Advance(f, p)) {
      var m :| Window(base, chain, m, Advance(f, p));
      assert |Advance(f, p).headers| <= |f.headers|;
      assert |chain| - m <= |chain| - n;
    }
  }

  /** Advancing to Origin leaves the chain whenever the anchor is a block. */
  lemma AdvanceToOriginLeavesChain(base: Point, chain: seq<Header>, n: nat, f: Fragment)
    requires Linked(base, chain) && Window(base, chain, n, f) && f.anchor.Specific?
    ensures forall m :: !Window(base, chain, m, Advance(f, Origin))
  {
    AdvanceKeepsWindowIffContained(base, chain, n, f, Origin);
  }

  // ---- Whole runs -------------------------------------------------------------------

  /** The immutable part of the chain is what the anchor has passed. */
  datatype State = State(immutable: seq<Header>, fragment: Fragment)

  function FullChain(s: State): seq<Header> {
    s.immutable + s.fragment.headers
  }

  /** The documented invariants, with the fragment sitting on top of the immutable chain. */
  ghost predicate Valid(base: Point, s: State) {
    Linked(base, FullChain(s)) && s.fragment.anchor == PointAt(base, s.immutable, |s.immutable|)
  }

  lemma ValidIsWindow(base: Point, s: State)
    requires Valid(base, s)
    ensures Window(base, FullChain(s), |s.immutable|, s.fragment)
  {
    assert FullChain(s)[|s.immutable|..] == s.fragment.headers;
  }

  datatype Op =
    | Extend(header: Header)
    | RollTo(point: Point)
    | AnchorTo(point: Point)

  /** What callers guarantee: pushed headers extend the tip, anchors move to contained points. */
  predicate Allowed(s: State, op: Op) {
    match op
    case Extend(h) =>
      var chain := FullChain(s);
      Follows(Tip(s.fragment), h) && (chain != [] ==> chain[|chain| - 1].blockNo < h.blockNo)
    case RollTo(_) => true
    case AnchorTo(p) => Contains(s.fragment, p)
  }

  function Apply(s: State, op: Op): State {
    match op
    case Extend(h) => s.(fragment := Push(s.fragment, h))
    case RollTo(p) =>
      (match Rollback(s.fragment, p)
       case None => s
       case Some(f) => s.(fragment := f))
    case AnchorTo(p) =>
      var f := Advance(s.fragment, p);
      var dropped := if |f.headers| <= |s.fragment.headers| then |s.fragment.headers| - |f.headers| else 0;
      State(s.immutable + s.fragment.headers[..dropped], f)
  }

  lemma ApplyExtend(base: Point, s: State, h: Header)
    requires Valid(base, s) && Allowed(s, Extend(h))
    ensures Valid(base, Apply(s, Extend(h)))
    ensures FullChain(Apply(s, Extend(h))) == FullChain(s) + [h]
  {
    var chain := FullChain(s);
    assert PointAt(base, chain, |chain|) == Tip(s.fragment);
    LinkedPush(base, chain, h);
    assert FullChain(Apply(s, Extend(h))) == chain + [h];
  }

  lemma RollToHeight(base: Point, s: State, m: nat)
    requires Valid(base, s) && |s.immutable| <= m <= |FullChain(s)|
    ensures var p := PointAt(base, FullChain(s), m);
            var s' := Apply(s, RollTo(p));
            && s' == State(s.immutable, Fragment(s.fragment.anchor, FullChain(s)[|s.immutable|..m]))
            && Valid(base, s') && FullChain(s') == FullChain(s)[..m] && Tip(s'.fragment) == p
  {
    var chain, n := FullChain(s), |s.immutable|;
    ValidIsWindow(base, s);
    RollbackOnChain(base, chain, n, s.fragment, PointAt(base, chain, m));
    LinkedSplit(base, chain, m);
    assert s.immutable + chain[n..m] == chain[..m];
  }

  /** A rollback reaches the asked point or changes nothing; the immutable part is never touched. */
  lemma ApplyRollTo(base: Point, s: State, p: Point)
    requires Valid(base, s)
    ensures var s' := Apply(s, RollTo(p));
            && Valid(base, s') && s'.immutable == s.immutable
            && FullChain(s') <= FullChain(s)
            && (if Contains(s.fragment, p) then Tip(s'.fragment) == p else s' == s)
  {
    var chain, n := FullChain(s), |s.immutable|;
    ValidIsWindow(base, s);
    WindowPoint(base, chain, n, s.fragment, p);
    if Contains(s.fragment, p) {
      var m :| n <= m <= |chain| && PointAt(base, chain, m) == p;
      RollToHeight(base, s, m);
    } else {
      RollbackOnChain(base, chain, n, s.fragment, p);
    }
  }

  lemma AnchorToHeight(base: Point, s: State, m: nat)
    requires Valid(base, s) && |s.immutable| <= m <= |FullChain(s)|
    ensures var p := PointAt(base, FullChain(s), m);
            Apply(s, AnchorTo(p)) == State(FullChain(s)[..m], Fragment(p, FullChain(s)[m..]))
  {
    var chain, n := FullChain(s), |s.immutable|;
    ValidIsWindow(base, s);
    AdvanceOnChain(base, chain, n, s.fragment, m);
    assert s.immutable + s.fragment.headers[..m - n] == chain[..m];
  }

  /** Moving the anchor keeps the chain and only moves the border between its two parts. */
  lemma ApplyAnchorTo(base: Point, s: State, p: Point)
    requires Valid(base, s) && Contains(s.fragment, p)
    ensures var s' := Apply(s, AnchorTo(p));
            Valid(base, s') && FullChain(s') == FullChain(s) && s.immutable <= s'.immutable && s'.fragment.anchor == p
  {
    var chain, n := FullChain(s), |s.immutable|;
    ValidIsWindow(base, s);
    WindowPoint(base, chain, n, s.fragment, p);
    var m :| n <= m <= |chain| && PointAt(base, chain, m) == p;
    AnchorToHeight(base, s, m);
    BorderMoved(base, s, m);
  }

  lemma BorderMoved(base: Point, s: State, m: nat)
    requires Valid(base, s) && |s.immutable| <= m <= |FullChain(s)|
    ensures var (chain, p) := (FullChain(s), PointAt(base, FullChain(s), m));
            var s' := State(chain[..m], Fragment(p, chain[m..]));
            Valid(base, s') && FullChain(s') == chain && s.immutable <= s'.immutable
  {
    var chain := FullChain(s);
    assert chain[..m] + chain[m..] == chain;
    assert chain[..m][..|s.immutable|] == s.immutable;
  }

  function Run(s: State, ops: seq<Op>): State
    decreases |ops|
  {
    if ops == [] then s else Run(Apply(s, ops[0]), ops[1..])
  }

  predicate AllowedRun(s: State, ops: seq<Op>)
    decreases |ops|
  {
    ops == [] || (Allowed(s, ops[0]) && AllowedRun(Apply(s, ops[0]), ops[1..]))
  }

  lemma StepSafe(base: Point, s: State, op: Op)
    requires Valid(base, s) && Allowed(s, op)
    ensures Valid(base, Apply(s, op)) && s.immutable <= Apply(s, op).immutable
  {
    match op {
      case Extend(h) => ApplyExtend(base, s, h);
      case RollTo(p) => ApplyRollTo(base, s, p);
      case AnchorTo(p) => ApplyAnchorTo(base, s, p);
    }
  }

  /** Every run keeps the invariants, and what once became immutable stays on the chain. */
  lemma {:induction false} RunSafe(base: Point, s: State, ops: seq<Op>)
    requires Valid(base, s) && AllowedRun(s, ops)
    ensures Valid(base, Run(s, ops))
    ensures s.immutable <= Run(s, ops).immutable <= FullChain(Run(s, ops))
    decreases |ops|
  {
    if ops != [] {
      StepSafe(base, s, ops[0]);
      RunSafe(base, Apply(s, ops[0]), ops[1..]);
    }
  }

  /** No later rollback ever reaches behind a block that has become immutable. */
  lemma RollbackBehindAnchorFails(base: Point, s: State, ops: seq<Op>, m: nat)
    requires Valid(base, s) && AllowedRun(s, ops)
    requires m < |s.immutable|
    ensures var s' := Run(s, ops); Apply(s', RollTo(PointAt(base, s.immutable, m))) == s'
  {
    RunSafe(base, s, ops);
    var s' := Run(s, ops);
    var chain, p := FullChain(s'), PointAt(base, s.immutable, m);
    ValidIsWindow(base, s');
    assert PointAt(base, chain, m) == p;
    if Contains(s'.fragment, p) {
      WindowPoint(base, chain, |s'.immutable|, s'.fragment, p);
      var j :| |s'.immutable| <= j <= |chain| && PointAt(base, chain, j) == p;
      PointsDistinct(base, chain, m, j);
      assert false;
    }
    ApplyRollTo(base, s', p);
  }

  // ---- Commuting operations -----------------------------------------------------------

  /** `a` lies at or before `p` on the fragment. */
  ghost predicate NotAfter(f: Fragment, a: Point, p: Point) {
    a == f.anchor || (p.Specific? && a.Specific? && a.slot <= p.slot)
  }

  /** Both orders, when the new anchor is at height `i` and the rollback goes to height `j`. */
  lemma CommuteAtHeights(base: Point, s: State, i: nat, j: nat)
    requires Valid(base, s) && |s.immutable| <= i <= j <= |FullChain(s)|
    ensures var (chain, f) := (FullChain(s), s.fragment);
            var (a, p) := (PointAt(base, chain, i), PointAt(base, chain, j));
            && Rollback(Advance(f, a), p) == Some(Fragment(a, chain[i..j]))
            && Rollback(f, p).Some? && Advance(Rollback(f, p).value, a) == Fragment(a, chain[i..j])
  {
    var chain, n, f := FullChain(s), |s.immutable|, s.fragment;
    var a, p := PointAt(base, chain, i), PointAt(base, chain, j);
    ValidIsWindow(base, s);
    AdvanceOnChain(base, chain, n, f, i);
    RollbackOnChain(base, chain, i, Advance(f, a), p);
    RollToHeight(base, s, j);
    RollbackOnChain(base, chain, n, f, p);
    var s' := Apply(s, RollTo(p));
    AnchorToHeight(base, s', i);
    assert PointAt(base, FullChain(s'), i) == a;
    assert chain[..j][i..] == chain[i..j];
  }

  lemma RollbackFailsBehind(base: Point, s: State, i: nat, j: nat)
    requires Valid(base, s) && |s.immutable| <= j < i <= |FullChain(s)|
    ensures Rollback(Advance(s.fragment, PointAt(base, FullChain(s), i)), PointAt(base, FullChain(s), j)).None?
  {
    var chain, n, f := FullChain(s), |s.immutable|, s.fragment;
    var a, p := PointAt(base, chain, i), PointAt(base, chain, j);
    ValidIsWindow(base, s);
    AdvanceOnChain(base, chain, n, f, i);
    RollbackOnChain(base, chain, i, Advance(f, a), p);
    WindowPoint(base, chain, i, Advance(f, a), p);
    forall m | i <= m <= |chain| ensures PointAt(base, chain, m) != p {
      PointsDistinct(base, chain, m, j);
    }
  }

  /**
   For points of the fragment, anchor advance and rollback commute, the rollback
   succeeding either way, exactly when the new anchor is not after the target.
   */
  lemma AdvanceRollbackCommute(base: Point, s: State, a: Point, p: Point)
    requires Valid(base, s) && Contains(s.fragment, a) && Contains(s.fragment, p)
    ensures var f := s.fragment;
            Rollback(f, p).Some? && (
            Rollback(Advance(f, a), p) == Some(Advance(Rollback(f, p).value, a)) <==> NotAfter(f, a, p))
  {
    var chain, n, f := FullChain(s), |s.immutable|, s.fragment;
    ValidIsWindow(base, s);
    WindowPoint(base, chain, n, f, a);
    WindowPoint(base, chain, n, f, p);
    var i :| n <= i <= |chain| && PointAt(base, chain, i) == a;
    var j :| n <= j <= |chain| && PointAt(base, chain, j) == p;
    RollbackOnChain(base, chain, n, f, p);
    OrderIsPosition(base, chain, n, f, i, j);
    if i <= j {
      CommuteAtHeights(base, s, i, j);
    } else {
      RollbackFailsBehind(base, s, i, j);
    }
  }

  lemma OrderIsPosition(base: Point, chain: seq<Header>, n: nat, f: Fragment, i: nat, j: nat)
    requires Linked(base, chain) && Window(base, chain, n, f)
    requires n <= i <= |chain| && n <= j <= |chain|
    ensures NotAfter(f, PointAt(base, chain, i), PointAt(base, chain, j)) <==> i <= j
  {
    PointsDistinct(base, chain, n, i);
    if i > n {
      if j > 0 && i < j { SlotsIncrease(base, chain, i - 1, j - 1); }
      if j > 0 && j < i { SlotsIncrease(base, chain, j - 1, i - 1); }
      if j == 0 && base.Specific? { FirstAfterBase(base, chain, i - 1); }
    }
  }

  /** Taking the oldest header out and then advancing to its point is one advance. */
  lemma PopThenAdvance(base: Point, s: State)
    requires Valid(base, s) && s.fragment.headers != []
    ensures var f := s.fragment;
            var oldest := PointOf(f.headers[0]);
            && Advance(f.(headers := f.headers[1..]), oldest) == Advance(f, oldest)
            && Advance(f, oldest) == Fragment(oldest, f.headers[1..])
  {
    var f := s.fragment;
    var n, chain := |s.immutable|, FullChain(s);
    ValidIsWindow(base, s);
    AdvanceOnChain(base, chain, n, f, n + 1);
    assert chain[n + 1..] == f.headers[1..];
    if |f.headers| > 1 {
      SlotsIncrease(base, chain, n, n + 1);
      assert f.headers[1..][0] == chain[n + 1];
    }
  }

  // ---- Keeping k blocks volatile --------------------------------------------------------

  /** Copy-to-immutable: advance to the oldest header while more than `k` remain. */
  function Trim(s: State, k: nat): State
    decreases |s.fragment.headers|
  {
    if |s.fragment.headers| <= k then s
    else
      var s' := Apply(s, AnchorTo(PointOf(s.fragment.headers[0])));
      if |s'.fragment.headers| < |s.fragment.headers| then Trim(s', k) else s'
  }

  /** Trimming keeps the chain and exactly its last `k` blocks reachable. */
  lemma {:induction false} TrimKeepsLastK(base: Point, s: State, k: nat)
    requires Valid(base, s)
    ensures var s' := Trim(s, k);
            && Valid(base, s') && FullChain(s') == FullChain(s) && s.immutable <= s'.immutable
            && |s'.fragment.headers| == (if |s.fragment.headers| <= k then |s.fragment.headers| else k)
    decreases |s.fragment.headers|
  {
    if |s.fragment.headers| > k {
      var p := PointOf(s.fragment.headers[0]);
      PopThenAdvance(base, s);
      ApplyAnchorTo(base, s, p);
      TrimKeepsLastK(base, Apply(s, AnchorTo(p)), k);
    }
  }

  /** A rollback by at most `k` blocks still succeeds after trimming to `k`. */
  lemma TrimmedRollbackReaches(base: Point, s: State, k: nat, m: nat)
    requires Valid(base, s)
    requires |s.immutable| <= m <= |FullChain(s)| && |FullChain(s)| - m <= k
    ensures var p := PointAt(base, FullChain(s), m);
            Contains(Trim(s, k).fragment, p) && Tip(Apply(Trim(s, k), RollTo(p)).fragment) == p
  {
    TrimKeepsLastK(base, s, k);
    var s', p := Trim(s, k), PointAt(base, FullChain(s), m);
    ValidIsWindow(base, s');
    WindowPoint(base, FullChain(s'), |s'.immutable|, s'.fragment, p);
    ApplyRollTo(base, s', p);
  }

  /** Runs of a node that trims to `k` after every step; `peak` is the greatest height so far. */
  datatype Node = Node(state: State, peak: nat)

  function NodeStep(n: Node, op: Op, k: nat): Node {
    var s := Trim(Apply(n.state, op), k);
    Node(s, if |FullChain(s)| > n.peak then |FullChain(s)| else n.peak)
  }

  predicate NodeOp(n: Node, op: Op) {
    !op.AnchorTo? && Allowed(n.state, op)
  }

  function NodeRun(n: Node, ops: seq<Op>, k: nat): Node
    decreases |ops|
  {
    if ops == [] then n else NodeRun(NodeStep(n, ops[0], k), ops[1..], k)
  }

  predicate NodeOps(n: Node, ops: seq<Op>, k: nat)
    decreases |ops|
  {
    ops == [] || (NodeOp(n, ops[0]) && NodeOps(NodeStep(n, ops[0], k), ops[1..], k))
  }

  /** `start` immutable blocks were there at first; later ones are at least `k` below the peak. */
  ghost predicate Buried(base: Point, n: Node, start: nat, k: nat) {
    && Valid(base, n.state)
    && |FullChain(n.state)| <= n.peak
    && (|n.state.immutable| == start || |n.state.immutable| + k <= n.peak)
  }

  lemma NodeStepBuried(base: Point, n: Node, op: Op, start: nat, k: nat)
    requires Buried(base, n, start, k) && NodeOp(n, op)
    ensures Buried(base, NodeStep(n, op, k), start, k)
  {
    match op {
      case Extend(h) => ApplyExtend(base, n.state, h);
      case RollTo(p) => ApplyRollTo(base, n.state, p);
      case AnchorTo(_) =>
    }
    TrimKeepsLastK(base, Apply(n.state, op), k);
  }

  /** Over every such run, no block within `k` of the highest tip ever reached becomes immutable. */
  lemma {:induction false} NodeRunBuried(base: Point, n: Node, ops: seq<Op>, start: nat, k: nat)
    requires Buried(base, n, start, k) && NodeOps(n, ops, k)
    ensures Buried(base, NodeRun(n, ops, k), start, k)
    decreases |ops|
  {
    if ops != [] {
      NodeStepBuried(base, n, ops[0], start, k);
      NodeRunBuried(base, NodeStep(n, ops[0], k), ops[1..], start, k);
    }
  }

  // ---- The mutable class ------------------------------------------------------------------

  class ChainFragment {
    var anchor: Point
    var headers: seq<Header>

    ghost function Model(): Fragment
      reads this
    {
      Fragment(anchor, headers)
    }

    constructor (anchor: Point, headers: seq<Header>)
      ensures Model() == Fragment(anchor, headers)
    {
      this.anchor := anchor;
      this.headers := headers;
    }

    method GetTip() returns (p: Point)
      ensures p == Tip(Model())
    {
      p := if headers == [] then anchor else PointOf(headers[|headers| - 1]);
    }

    method PushHeader(h: Header)
      modifies this
      ensures Model() == Push(old(Model()), h)
    {
      headers := headers + [h];
    }

    method PopOldest() returns (h: Option<Header>)
      modifies this
      ensures anchor == old(anchor)
      ensures old(headers) == (if h.Some? then [h.value] else []) + headers
      ensures h.None? ==> old(headers) == []
    {
      if headers == [] {
        return None;
      }
      h := Some(headers[0]);
      headers := headers[1..];
    }

    /** Searches from the back, then truncates. */
    method RollbackTo(p: Point) returns (ok: bool)
      modifies this
      ensures ok <==> Rollback(old(Model()), p).Some?
      ensures Model() == if ok then Rollback(old(Model()), p).value else old(Model())
    {
      if p == anchor {
        headers := [];
        return true;
      }
      if p.Origin? {
        return false;
      }
      var i := |headers|;
      while i > 0
        invariant 0 <= i <= |headers|
        invariant unchanged(this)
        invariant LastIndex(headers[..i], p.slot, p.hash) == LastIndex(headers, p.slot, p.hash)
      {
        assert headers[..i][..i - 1] == headers[..i - 1];
        if headers[i - 1].slot == p.slot && headers[i - 1].hash == p.hash {
          headers := headers[..i];
          return true;
        }
        i := i - 1;
      }
      ok := false;
    }

    /** Pops from the front while the front is at or before the new anchor's slot. */
    method AdvanceAnchor(newAnchor: Point) returns (removed: nat)
      modifies this
      ensures Model() == Advance(old(Model()), newAnchor)
      ensures removed == |old(headers)| - |headers|
    {
      removed := 0;
      if newAnchor.Origin? {
        anchor := newAnchor;
        return;
      }
      while headers != [] && headers[0].slot <= newAnchor.slot
        invariant anchor == old(anchor)
        invariant removed <= |old(headers)| && headers == old(headers)[removed..]
        invariant removed + DueCount(headers, newAnchor.slot) == DueCount(old(headers), newAnchor.slot)
        decreases |headers|
      {
        headers := headers[1..];
        removed := removed + 1;
      }
      anchor := newAnchor;
    }

    method ContainsPoint(p: Point) returns (found: bool)
      ensures found <==> Contains(Model(), p)
    {
      if p == anchor {
        return true;
      }
      if p.Origin? {
        return false;
      }
      var i := 0;
      while i < |headers|
        invariant 0 <= i <= |headers|
        invariant forall j | 0 <= j < i :: PointOf(headers[j]) != p
      {
        if headers[i].slot == p.slot && headers[i].hash == p.hash {
          assert PointOf(headers[i]) == p;
          return true;
        }
        i := i + 1;
      }
      found := false;
    }

    /** The first of the peer's points that the fragment contains. */
    method FindIntersect(points: seq<Point>) returns (r: Option<Point>)
      ensures r.None? ==> forall i | 0 <= i < |points| :: !Contains(Model(), points[i])
      ensures r.Some? ==> exists i :: 0 <= i < |points| && points[i] == r.value && Contains(Model(), r.value) &&
                                      forall j | 0 <= j < i :: !Contains(Model(), points[j])
    {
      var i := 0;
      while i < |points|
        invariant 0 <= i <= |points|
        invariant forall j | 0 <= j < i :: !Contains(Model(), points[j])
      {
        var found := ContainsPoint(points[i]);
        if found {
          return Some(points[i]);
        }
        i := i + 1;
      }
      r := None;
    }
  }
}
