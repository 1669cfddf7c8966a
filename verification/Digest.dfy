/**
 JSON trees as the epoch-dump tools hold them, and the shared digest of a flat
 map.  A hexadecimal digest is represented by the text it was computed from, so
 that equal digests mean equal hashed texts.
 */
module Digests {
  import opened Wrappers
  import opened Ordering
  import opened Decimals

  predicate IsRatio(r: real, p: int, q: int) {
    q > 0 && r * q as real == p as real
  }

  ghost predicate IsFraction(r: real) {
    exists p, q :: IsRatio(r, p, q)
  }

  function IntAsReal(n: int): (r: real)
    ensures IsFraction(r) && r == n as real
  {
    assert IsRatio(n as real, n, 1);
    n as real
  }

  /** A finite floating-point number; every one is a fraction. */
  type Double = r: real | IsFraction(r) witness IntAsReal(0)

  lemma FractionSum(x: real, y: real)
    requires IsFraction(x) && IsFraction(y)
    ensures IsFraction(x + y)
  {
    var p, q :| IsRatio(x, p, q);
    var s, t :| IsRatio(y, s, t);
    RatioSum(x, p as real, q as real, y, s as real, t as real);
    assert IsRatio(x + y, p * t + s * q, q * t);
  }

  lemma RatioSum(x: real, p: real, q: real, y: real, s: real, t: real)
    requires x * q == p && y * t == s
    ensures (x + y) * (q * t) == p * t + s * q
  {
    assert (x + y) * (q * t) == (x * q) * t + (y * t) * q;
  }

  datatype Value =
    | Null
    | Bool(b: bool)
    | Int(n: int)
    | Float(r: Double)
    | Str(s: string)
    | Sha(input: HashInput)
    | List(elems: seq<Value>)
    | Dict(entries: map<string, Value>)

  /** What is hashed: the text of a digestable map, of a large map, or of a large list. */
  datatype HashInput =
    | FlatText(text: string)
    | MapText(text: string)
    | BagText(text: string)

  ghost function MaxOf(s: set<nat>): (n: nat)
    ensures forall x | x in s :: x <= n
    decreases |s|
  {
    if s == {} then 0
    else
      var x :| x in s;
      var n := MaxOf(s - {x});
      assert forall y | y in s :: y == x || y in s - {x};
      if x > n then x else n
  }

  /** How many containers are nested. */
  ghost function Depth(v: Value): nat
    decreases v, 1
  {
    match v
    case Dict(_) => 1 + MaxOf(EntryDepths(v))
    case List(_) => 1 + MaxOf(ElemDepths(v))
    case _ => 0
  }

  ghost function EntryDepths(v: Value): set<nat>
    requires v.Dict?
    decreases v, 0
  {
    set k | k in v.entries :: Depth(v.entries[k])
  }

  ghost function ElemDepths(v: Value): set<nat>
    requires v.List?
    decreases v, 0
  {
    set i | 0 <= i < |v.elems| :: Depth(v.elems[i])
  }

  lemma DepthBelow(v: Value)
    ensures v.Dict? ==> forall k | k in v.entries :: Depth(v.entries[k]) < Depth(v)
    ensures v.List? ==> forall i | 0 <= i < |v.elems| :: Depth(v.elems[i]) < Depth(v)
  {
    match v {
      case Dict(m) =>
        forall k | k in m ensures Depth(m[k]) < Depth(v) { assert Depth(m[k]) in EntryDepths(v); }
      case List(xs) =>
        forall i | 0 <= i < |xs| ensures Depth(xs[i]) < Depth(v) { assert Depth(xs[i]) in ElemDepths(v); }
      case _ =>
    }
  }

  type Renderer = Value -> string

  /** Values rendered bare; anything else goes through the JSON printer. */
  function Rendered(v: Value, json: Renderer): string {
    match v
    case Bool(b) => if b then "True" else "False"
    case Int(n) => IntText(n)
    case Str(s) => s
    case _ => json(v)
  }

  function EntryText(k: string, v: Value, json: Renderer): string {
    k + ":" + Rendered(v, json) + ";"
  }

  predicate Covers(m: map<string, Value>, ks: seq<string>) {
    forall i | 0 <= i < |ks| :: ks[i] in m
  }

  predicate CoversInts(m: map<string, Value>, ks: seq<string>) {
    forall i | 0 <= i < |ks| :: ks[i] in m && m[ks[i]].Int?
  }

  function TextOf(ks: seq<string>, m: map<string, Value>, json: Renderer): string
    requires Covers(m, ks)
  {
    if ks == [] then "" else EntryText(ks[0], m[ks[0]], json) + TextOf(ks[1..], m, json)
  }

  predicate AllInts(m: map<string, Value>) {
    forall k | k in m :: m[k].Int?
  }

  function SumOver(ks: seq<string>, m: map<string, Value>): int
    requires CoversInts(m, ks)
  {
    if ks == [] then 0 else m[ks[0]].n + SumOver(ks[1..], m)
  }

  function Sum(m: map<string, Value>): int
    requires AllInts(m)
  {
    SumOver(Sorted(m.Keys), m)
  }

  /** The record that stands for a flat map; no sum unless every value is an integer. */
  function DigestRecord(m: map<string, Value>, json: Renderer): (r: map<string, Value>)
    ensures "__digest__" in r && r.Keys <= {"__count__", "__digest__", "__sum__"}
  {
    var rec := map["__count__" := Int(|m|), "__digest__" := Sha(FlatText(TextOf(Sorted(m.Keys), m, json)))];
    if AllInts(m) then rec["__sum__" := Int(Sum(m))] else rec
  }

  lemma {:induction false} TextSnoc(ks: seq<string>, k: string, m: map<string, Value>, json: Renderer)
    requires k in m && Covers(m, ks)
    ensures Covers(m, ks + [k])
    ensures TextOf(ks + [k], m, json) == TextOf(ks, m, json) + EntryText(k, m[k], json)
  {
    if ks != [] {
      assert (ks + [k])[1..] == ks[1..] + [k];
      TextSnoc(ks[1..], k, m, json);
    }
  }

  lemma {:induction false} SumSnoc(ks: seq<string>, k: string, m: map<string, Value>)
    requires k in m && m[k].Int? && CoversInts(m, ks)
    ensures CoversInts(m, ks + [k])
    ensures SumOver(ks + [k], m) == SumOver(ks, m) + m[k].n
  {
    if ks != [] {
      assert (ks + [k])[1..] == ks[1..] + [k];
      SumSnoc(ks[1..], k, m);
    }
  }

  /** One more key of the sorted list. */
  lemma PrefixStep(ks: seq<string>, i: nat, m: map<string, Value>, json: Renderer)
    requires i < |ks| && Covers(m, ks)
    ensures Covers(m, ks[..i]) && Covers(m, ks[..i + 1])
    ensures TextOf(ks[..i + 1], m, json) == TextOf(ks[..i], m, json) + EntryText(ks[i], m[ks[i]], json)
    ensures CoversInts(m, ks[..i + 1]) <==> CoversInts(m, ks[..i]) && m[ks[i]].Int?
    ensures CoversInts(m, ks[..i + 1]) ==> SumOver(ks[..i + 1], m) == SumOver(ks[..i], m) + m[ks[i]].n
  {
    SplitHere(ks, i);
    TextSnoc(ks[..i], ks[i], m, json);
    CoversSnoc(ks[..i], ks[i], m);
    if CoversInts(m, ks[..i + 1]) {
      SumSnoc(ks[..i], ks[i], m);
    }
  }

  /** The hashing loop: text, running total, and the flag that withholds the total. */
  method DigestOfMap(m: map<string, Value>, json: Renderer) returns (out: map<string, Value>)
    ensures out == DigestRecord(m, json)
  {
    var ks := Sorted(m.Keys);
    var text, total, summable := "", 0, true;
    var i := 0;
    while i < |ks|
      invariant 0 <= i <= |ks| && Covers(m, ks[..i])
      invariant text == TextOf(ks[..i], m, json)
      invariant summable <==> CoversInts(m, ks[..i])
      invariant summable ==> total == SumOver(ks[..i], m)
    {
      var v := m[ks[i]];
      PrefixStep(ks, i, m, json);
      if v.Int? {
        if summable {
          total := total + v.n;
        }
      } else {
        summable := false;
      }
      text := text + EntryText(ks[i], v, json);
      i := i + 1;
    }
    assert ks[..i] == ks;
    IntsListed(m, ks);
    out := map["__count__" := Int(|m|), "__digest__" := Sha(FlatText(text))];
    if summable {
      out := out["__sum__" := Int(total)];
    }
  }

  lemma IntsListed(m: map<string, Value>, ks: seq<string>)
    requires Lists(ks, m.Keys)
    ensures CoversInts(m, ks) <==> AllInts(m)
  {
    if CoversInts(m, ks) {
      forall k | k in m ensures m[k].Int? {
        var i :| 0 <= i < |ks| && ks[i] == k;
      }
    }
  }

  lemma CoversSnoc(ks: seq<string>, k: string, m: map<string, Value>)
    requires k in m
    ensures CoversInts(m, ks + [k]) <==> CoversInts(m, ks) && m[k].Int?
  {
    if CoversInts(m, ks + [k]) {
      assert (ks + [k])[|ks|] == k;
      assert forall i | 0 <= i < |ks| :: (ks + [k])[i] == ks[i];
    }
  }

  // ---- The sum does not depend on the order -----------------------------------------

  lemma {:induction false} SumSplit(a: seq<string>, k: string, b: seq<string>, m: map<string, Value>)
    requires k in m && m[k].Int? && CoversInts(m, a) && CoversInts(m, b)
    ensures CoversInts(m, a + [k] + b) && CoversInts(m, a + b)
    ensures SumOver(a + [k] + b, m) == m[k].n + SumOver(a + b, m)
  {
    if a == [] {
      assert a + [k] + b == [k] + b && a + b == b;
    } else {
      assert (a + [k] + b)[1..] == a[1..] + [k] + b && (a + b)[1..] == a[1..] + b;
      SumSplit(a[1..], k, b, m);
    }
  }

  /** Taking any key out takes out exactly its value: the recorded sum is the sum. */
  lemma SumRemove(m: map<string, Value>, k: string)
    requires AllInts(m) && k in m
    ensures AllInts(m - {k}) && Sum(m) == m[k].n + Sum(m - {k})
  {
    var ks := Sorted(m.Keys);
    var i :| 0 <= i < |ks| && ks[i] == k;
    SortedWithout(m.Keys, ks, i);
    assert (m - {k}).Keys == m.Keys - {k};
    SumRemoveAt(m, ks, i);
    SumAgrees(ks[..i] + ks[i + 1..], m, m - {k});
  }

  lemma SumRemoveAt(m: map<string, Value>, ks: seq<string>, i: nat)
    requires i < |ks| && CoversInts(m, ks)
    ensures CoversInts(m, ks[..i] + ks[i + 1..])
    ensures SumOver(ks, m) == m[ks[i]].n + SumOver(ks[..i] + ks[i + 1..], m)
  {
    SumSplit(ks[..i], ks[i], ks[i + 1..], m);
    assert ks[..i] + [ks[i]] + ks[i + 1..] == ks;
  }

  lemma {:induction false} SumAgrees(ks: seq<string>, m: map<string, Value>, m': map<string, Value>)
    requires CoversInts(m, ks) && forall i | 0 <= i < |ks| :: ks[i] in m' && m'[ks[i]] == m[ks[i]]
    ensures CoversInts(m', ks) && SumOver(ks, m) == SumOver(ks, m')
  {
    if ks != [] {
      SumAgrees(ks[1..], m, m');
    }
  }

  // ---- The hashed text is unambiguous -------------------------------------------------

  /** Text before a separator that it does not contain is determined. */
  lemma {:induction false} SplitAtSeparator(c: char, a: string, x: string, b: string, y: string)
    requires c !in a && c !in b
    requires a + [c] + x == b + [c] + y
    ensures a == b && x == y
  {
    var l, r := a + [c] + x, b + [c] + y;
    assert l[0] == if a == "" then c else a[0];
    assert r[0] == if b == "" then c else b[0];
    if a == "" {
      assert l[1..] == x && r[1..] == y;
    } else {
      assert l[1..] == a[1..] + [c] + x && r[1..] == b[1..] + [c] + y;
      SplitAtSeparator(c, a[1..], x, b[1..], y);
      assert a == [a[0]] + a[1..] && b == [b[0]] + b[1..];
    }
  }

  /** Text after the last separator is determined too. */
  lemma {:induction false} SplitAtLast(c: char, a: string, x: string, b: string, y: string)
    requires c !in x && c !in y
    requires a + [c] + x == b + [c] + y
    ensures a == b && x == y
  {
    var l, r := a + [c] + x, b + [c] + y;
    var n := |l| - 1;
    assert l[n] == if x == "" then c else x[|x| - 1];
    assert r[n] == if y == "" then c else y[|y| - 1];
    if x == "" {
      assert l[..n] == a && r[..n] == b;
    } else {
      assert l[..n] == a + [c] + x[..|x| - 1] && r[..n] == b + [c] + y[..|y| - 1];
      SplitAtLast(c, a, x[..|x| - 1], b, y[..|y| - 1]);
      assert x == x[..|x| - 1] + [x[|x| - 1]] && y == y[..|y| - 1] + [y[|y| - 1]];
    }
  }

  /** An entry can be read back from the text: by its key, or by its value. */
  predicate Readable(byKey: bool, k: string, v: Value, json: Renderer) {
    ';' !in Rendered(v, json) && if byKey then ':' !in k else ';' !in k && ':' !in Rendered(v, json)
  }

  predicate AllReadable(byKey: bool, m: map<string, Value>, json: Renderer) {
    forall k | k in m :: Readable(byKey, k, m[k], json)
  }

  predicate Separable(m: map<string, Value>, json: Renderer) {
    AllReadable(true, m, json)
  }

  lemma EntryUnambiguous(
      byKey: bool, k: string, v: Value, t: string, k': string, v': Value, t': string, json: Renderer)
    requires Readable(byKey, k, v, json) && Readable(byKey, k', v', json)
    requires EntryText(k, v, json) + t == EntryText(k', v', json) + t'
    ensures k == k' && Rendered(v, json) == Rendered(v', json) && t == t'
  {
    var x, x' := Rendered(v, json), Rendered(v', json);
    if byKey {
      assert EntryText(k, v, json) + t == k + [':'] + (x + [';'] + t);
      assert EntryText(k', v', json) + t' == k' + [':'] + (x' + [';'] + t');
      SplitAtSeparator(':', k, x + [';'] + t, k', x' + [';'] + t');
      SplitAtSeparator(';', x, t, x', t');
    } else {
      assert EntryText(k, v, json) + t == (k + [':'] + x) + [';'] + t;
      assert EntryText(k', v', json) + t' == (k' + [':'] + x') + [';'] + t';
      SplitAtSeparator(';', k + [':'] + x, t, k' + [':'] + x', t');
      SplitAtLast(':', k, x, k', x');
    }
  }

  lemma {:induction false} TextUnambiguous(
      byKey: bool, ks: seq<string>, m: map<string, Value>, ks': seq<string>, m': map<string, Value>, json: Renderer)
    requires AllReadable(byKey, m, json) && AllReadable(byKey, m', json)
    requires Covers(m, ks) && Covers(m', ks')
    requires TextOf(ks, m, json) == TextOf(ks', m', json)
    ensures ks == ks'
    ensures forall i | 0 <= i < |ks| :: ks[i] in m' && Rendered(m[ks[i]], json) == Rendered(m'[ks[i]], json)
  {
    if ks == [] {
      if ks' != [] { TextNonEmpty(ks', m', json); }
    } else if ks' == [] {
      TextNonEmpty(ks, m, json);
    } else {
      var k, k' := ks[0], ks'[0];
      EntryUnambiguous(byKey, k, m[k], TextOf(ks[1..], m, json), k', m'[k'], TextOf(ks'[1..], m', json), json);
      TextUnambiguous(byKey, ks[1..], m, ks'[1..], m', json);
      assert ks == [k] + ks[1..] && ks' == [k'] + ks'[1..];
    }
  }

  lemma TextNonEmpty(ks: seq<string>, m: map<string, Value>, json: Renderer)
    requires Covers(m, ks) && ks != []
    ensures TextOf(ks, m, json) != ""
  {
  }

  ghost predicate SameRendering(m: map<string, Value>, m': map<string, Value>, json: Renderer) {
    m.Keys == m'.Keys && forall k | k in m && k in m' :: Rendered(m[k], json) == Rendered(m'[k], json)
  }

  function HashedText(m: map<string, Value>, json: Renderer): string {
    TextOf(Sorted(m.Keys), m, json)
  }

  lemma EqualTextsSameRendering(byKey: bool, m: map<string, Value>, m': map<string, Value>, json: Renderer)
    requires AllReadable(byKey, m, json) && AllReadable(byKey, m', json)
    requires HashedText(m, json) == HashedText(m', json)
    ensures SameRendering(m, m', json)
  {
    var ks := Sorted(m.Keys);
    TextUnambiguous(byKey, ks, m, Sorted(m'.Keys), m', json);
    SameKeySets(m.Keys, m'.Keys);
    forall k | k in m && k in m' ensures Rendered(m[k], json) == Rendered(m'[k], json) {
      var i :| 0 <= i < |ks| && ks[i] == k;
    }
  }

  lemma SameKeySets(a: set<string>, b: set<string>)
    requires Sorted(a) == Sorted(b)
    ensures a == b
  {
    forall k | k in a ensures k in b { assert k in Sorted(a); }
    forall k | k in b ensures k in a { assert k in Sorted(b); }
  }

  /** Equal digests mean equal keys and equal rendered values, entry by entry. */
  lemma DigestUnambiguous(m: map<string, Value>, m': map<string, Value>, json: Renderer)
    requires Separable(m, json) && Separable(m', json)
    ensures DigestRecord(m, json)["__digest__"] == DigestRecord(m', json)["__digest__"] <==> SameRendering(m, m', json)
  {
    if HashedText(m, json) == HashedText(m', json) {
      EqualTextsSameRendering(true, m, m', json);
    } else if SameRendering(m, m', json) {
      TextAgrees(Sorted(m.Keys), m, m', json);
    }
  }

  lemma {:induction false} TextAgrees(ks: seq<string>, m: map<string, Value>, m': map<string, Value>, json: Renderer)
    requires Covers(m, ks)
    requires forall i | 0 <= i < |ks| :: ks[i] in m' && Rendered(m[ks[i]], json) == Rendered(m'[ks[i]], json)
    ensures Covers(m', ks) && TextOf(ks, m, json) == TextOf(ks, m', json)
  {
    if ks != [] {
      TextAgrees(ks[1..], m, m', json);
    }
  }

  /** A digest record of integers pins the map down to the last unit, unless keys hold both separators. */
  lemma IntDigestDetectsEveryDifference(m: map<string, Value>, m': map<string, Value>, json: Renderer)
    requires AllInts(m) && AllInts(m')
    requires (forall k | k in m || k in m' :: ':' !in k) || (forall k | k in m || k in m' :: ';' !in k)
    ensures DigestRecord(m, json) == DigestRecord(m', json) <==> m == m'
  {
    var byKey := forall k | k in m || k in m' :: ':' !in k;
    IntsReadable(byKey, m, json);
    IntsReadable(byKey, m', json);
    if HashedText(m, json) == HashedText(m', json) {
      EqualTextsSameRendering(byKey, m, m', json);
      SameIntTexts(m, m', json);
    }
  }

  lemma IntsReadable(byKey: bool, m: map<string, Value>, json: Renderer)
    requires AllInts(m) && forall k | k in m :: if byKey then ':' !in k else ';' !in k
    ensures AllReadable(byKey, m, json)
  {
    forall k | k in m ensures Readable(byKey, k, m[k], json) {
      IntTextHasNoSeparator(m[k].n);
    }
  }

  lemma SameIntTexts(m: map<string, Value>, m': map<string, Value>, json: Renderer)
    requires AllInts(m) && AllInts(m') && SameRendering(m, m', json)
    ensures m == m'
  {
    forall k | k in m ensures m[k] == m'[k] {
      IntTextInjective(m[k].n, m'[k].n);
    }
  }

  lemma IntTextHasNoSeparator(n: int)
    ensures ';' !in IntText(n) && ':' !in IntText(n)
  {
    assert Digits(NatText(if n < 0 then -n else n));
  }

  // ---- One clean side is enough -----------------------------------------------------------------

  /** How many separators a text holds. */
  function Separators(s: string): nat {
    multiset(s)[':'] + multiset(s)[';']
  }

  lemma SeparatorsConcat(a: string, b: string)
    ensures Separators(a + b) == Separators(a) + Separators(b)
  {
  }

  predicate Bare(s: string) {
    ':' !in s && ';' !in s
  }

  predicate BareEntry(k: string, v: Value, json: Renderer) {
    Bare(k) && Bare(Rendered(v, json))
  }

  predicate AllBare(m: map<string, Value>, json: Renderer) {
    forall k | k in m :: BareEntry(k, m[k], json)
  }

  lemma EntrySeparators(k: string, v: Value, json: Renderer)
    ensures Separators(EntryText(k, v, json)) >= 2
    ensures Separators(EntryText(k, v, json)) == 2 <==> BareEntry(k, v, json)
  {
    var x := Rendered(v, json);
    SeparatorsConcat(k, ":");
    SeparatorsConcat(k + ":", x);
    SeparatorsConcat(k + ":" + x, ";");
    assert Separators(":") == 1 && Separators(";") == 1;
    assert Separators(k) == 0 <==> Bare(k);
    assert Separators(x) == 0 <==> Bare(x);
  }

  ghost predicate BareKeys(ks: seq<string>, m: map<string, Value>, json: Renderer)
    requires Covers(m, ks)
  {
    forall i | 0 <= i < |ks| :: BareEntry(ks[i], m[ks[i]], json)
  }

  /** Every entry brings two separators, and more exactly when it is not bare. */
  lemma {:induction false} TextSeparators(ks: seq<string>, m: map<string, Value>, json: Renderer)
    requires Covers(m, ks)
    ensures Separators(TextOf(ks, m, json)) >= 2 * |ks|
    ensures Separators(TextOf(ks, m, json)) == 2 * |ks| <==> BareKeys(ks, m, json)
  {
    if ks != [] {
      TextSeparators(ks[1..], m, json);
      EntrySeparators(ks[0], m[ks[0]], json);
      SeparatorsConcat(EntryText(ks[0], m[ks[0]], json), TextOf(ks[1..], m, json));
      BareKeysCons(ks, m, json);
    }
  }

  lemma BareKeysCons(ks: seq<string>, m: map<string, Value>, json: Renderer)
    requires Covers(m, ks) && ks != []
    ensures BareKeys(ks, m, json) <==> BareEntry(ks[0], m[ks[0]], json) && BareKeys(ks[1..], m, json)
  {
    if BareEntry(ks[0], m[ks[0]], json) && BareKeys(ks[1..], m, json) {
      forall i | 0 <= i < |ks| ensures BareEntry(ks[i], m[ks[i]], json) {
        if i > 0 { assert ks[1..][i - 1] == ks[i]; }
      }
    }
  }

  lemma HashedSeparators(m: map<string, Value>, json: Renderer)
    ensures Separators(HashedText(m, json)) == 2 * |m| <==> AllBare(m, json)
  {
    var ks := Sorted(m.Keys);
    TextSeparators(ks, m, json);
    assert |ks| == |m.Keys| == |m|;
    if BareKeys(ks, m, json) {
      forall k | k in m ensures BareEntry(k, m[k], json) {
        var i :| 0 <= i < |ks| && ks[i] == k;
        assert BareEntry(ks[i], m[ks[i]], json);
      }
    }
  }

  /**
   The count in the record makes one clean side enough: when no key and no
   rendered value of `m` holds a separator, its record determines its keys and
   rendered values among all maps whatsoever.
   */
  lemma BareDigestUnambiguous(m: map<string, Value>, m': map<string, Value>, json: Renderer)
    requires AllBare(m, json)
    ensures DigestRecord(m, json) == DigestRecord(m', json) <==>
            SameRendering(m, m', json) && (AllInts(m) <==> AllInts(m'))
  {
    if DigestRecord(m, json) == DigestRecord(m', json) {
      BareRecordTells(m, m', json);
    }
    if SameRendering(m, m', json) && (AllInts(m) <==> AllInts(m')) {
      RenderingDecides(m, m', json);
    }
  }

  lemma BareRecordTells(m: map<string, Value>, m': map<string, Value>, json: Renderer)
    requires AllBare(m, json) && DigestRecord(m, json) == DigestRecord(m', json)
    ensures SameRendering(m, m', json) && (AllInts(m) <==> AllInts(m'))
  {
    RecordFields(m, json);
    RecordFields(m', json);
    HashedSeparators(m, json);
    HashedSeparators(m', json);
    BareIsReadable(m, json);
    BareIsReadable(m', json);
    EqualTextsSameRendering(true, m, m', json);
  }

  lemma BareIsReadable(m: map<string, Value>, json: Renderer)
    requires AllBare(m, json)
    ensures AllReadable(true, m, json)
  {
    forall k | k in m ensures Readable(true, k, m[k], json) {
      assert BareEntry(k, m[k], json);
    }
  }

  lemma RenderingDecides(m: map<string, Value>, m': map<string, Value>, json: Renderer)
    requires SameRendering(m, m', json) && (AllInts(m) <==> AllInts(m'))
    ensures DigestRecord(m, json) == DigestRecord(m', json)
  {
    TextAgrees(Sorted(m.Keys), m, m', json);
    assert |m| == |m.Keys| && |m'| == |m'.Keys|;
    if AllInts(m) { SameIntTexts(m, m', json); }
  }

  lemma RecordFields(m: map<string, Value>, json: Renderer)
    ensures var r := DigestRecord(m, json);
            && "__count__" in r && r["__count__"] == Int(|m|)
            && r["__digest__"] == Sha(FlatText(HashedText(m, json)))
            && ("__sum__" in r <==> AllInts(m))
  {
    assert |"__count__"| != |"__digest__"| && |"__count__"| != |"__sum__"| && |"__digest__"| != |"__sum__"|;
  }

  // ---- Shared records ------------------------------------------------------------------------------

  /** A colon in a key can move into the value. */
  lemma KeyColonAmbiguous(k: string, x: string, y: string, json: Renderer)
    ensures var m, m' := map[k + ":" + x := Str(y)], map[k := Str(x + ":" + y)];
            m != m' && DigestRecord(m, json) == DigestRecord(m', json)
  {
    var long := k + ":" + x;
    var m: map<string, Value>, m': map<string, Value> := map[long := Str(y)], map[k := Str(x + ":" + y)];
    OneEntry(long, m, json);
    OneEntry(k, m', json);
    assert long + ":" + y == k + ":" + (x + ":" + y);
    assert long in m && long !in m' by { assert |long| > |k|; }
    SameRecord(m, m', json);
  }

  lemma OneEntry(k: string, m: map<string, Value>, json: Renderer)
    requires m.Keys == {k} && m[k].Str?
    ensures HashedText(m, json) == EntryText(k, m[k], json) && |m| == 1 && !AllInts(m)
  {
    SortedIs(m.Keys, [k]);
    assert [k][1..] == [];
    assert TextOf([k], m, json) == EntryText(k, m[k], json) + TextOf([], m, json);
    assert |m.Keys| == 1;
  }

  /** Both separators in a value can stand for a whole entry. */
  lemma DigestAmbiguous(a: string, b: string, c: string, x: string, y: string, z: string, json: Renderer)
    requires Leq(a, b) && Leq(a, c) && a != b && a != c && b != c
    ensures var m := map[a := Str(x + ";" + b + ":" + y), c := Str(z)];
            var m' := map[a := Str(x), b := Str(y + ";" + c + ":" + z)];
            m != m' && DigestRecord(m, json) == DigestRecord(m', json)
  {
    var m := map[a := Str(x + ";" + b + ":" + y), c := Str(z)];
    var m' := map[a := Str(x), b := Str(y + ";" + c + ":" + z)];
    TwoEntries(a, c, m, json);
    TwoEntries(a, b, m', json);
    assert HashedText(m, json) == HashedText(m', json) by {
      Regroup(a, x, b, y, json);
      Regroup(b, y, c, z, json);
      Regrouped(EntryText(a, Str(x), json), EntryText(b, Str(y), json), EntryText(c, Str(z), json));
    }
    SameRecord(m, m', json);
    assert c in m && c !in m';
  }

  lemma Regrouped(x: string, y: string, z: string)
    ensures x + y + z == x + (y + z)
  {
  }

  lemma SameRecord(m: map<string, Value>, m': map<string, Value>, json: Renderer)
    requires HashedText(m, json) == HashedText(m', json)
    requires |m| == |m'| && !AllInts(m) && !AllInts(m')
    ensures DigestRecord(m, json) == DigestRecord(m', json)
  {
  }

  lemma Regroup(a: string, x: string, b: string, y: string, json: Renderer)
    ensures EntryText(a, Str(x + ";" + b + ":" + y), json) == EntryText(a, Str(x), json) + EntryText(b, Str(y), json)
  {
    var p, q, r := a + ":", x + ";", b + ":" + y;
    Appended(q, b, ":");
    Appended(q, b + ":", y);
    Appended(p, x, ";");
    Appended(p, q, r);
    Appended(p + q, r, ";");
  }

  lemma TwoEntries(j: string, k: string, m: map<string, Value>, json: Renderer)
    requires m.Keys == {j, k} && Leq(j, k) && j != k && m[j].Str?
    ensures HashedText(m, json) == EntryText(j, m[j], json) + EntryText(k, m[k], json)
    ensures |m| == 2 && !AllInts(m)
  {
    SortedIs(m.Keys, [j, k]);
    assert [j, k][1..] == [k] && [k][1..] == [];
    assert TextOf([k], m, json) == EntryText(k, m[k], json) + TextOf([], m, json);
    assert |m.Keys| == 2;
  }
}
