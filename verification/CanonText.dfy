/**
 The texts hashed for large maps and lists: printed entries joined by
 separators.  Under a printer that is injective and self-delimiting the joined
 text determines the map, and the bag of the list.
 */
module CanonTexts {
  import opened Wrappers
  import opened Ordering
  import opened Sorting
  import opened Digests

  // ---- Printers -------------------------------------------------------------------------

  /** A printed value in front of a separator is found again. */
  predicate EndsAt(json: Renderer, v: Value, w: Value, c: char, x: string, y: string) {
    (c == ';' || c == '=') && json(v) + [c] + x == json(w) + [c] + y ==> json(v) == json(w)
  }

  /** Different values print differently. */
  predicate ToldApart(json: Renderer, v: Value, w: Value) {
    json(v) == json(w) ==> v == w
  }

  ghost predicate Injective(json: Renderer) {
    forall v, w :: ToldApart(json, v, w)
  }

  /** What compact JSON with sorted keys promises. */
  ghost predicate Faithful(json: Renderer) {
    Injective(json) && forall v, w, c, x, y :: EndsAt(json, v, w, c, x, y)
  }

  lemma SplitPrinted(json: Renderer, v: Value, w: Value, c: char, x: string, y: string)
    requires Faithful(json) && (c == ';' || c == '=') && json(v) + [c] + x == json(w) + [c] + y
    ensures v == w && x == y
  {
    assert EndsAt(json, v, w, c, x, y) && ToldApart(json, v, w);
    var l, r := json(v) + [c] + x, json(w) + [c] + y;
    assert x == l[|json(v)| + 1..] && y == r[|json(w)| + 1..];
  }

  // ---- Maps -------------------------------------------------------------------------------

  function EntryLine(k: string, v: Value, json: Renderer): string {
    json(Str(k)) + "=" + json(v) + ";"
  }

  function Lines(ks: seq<string>, m: map<string, Value>, json: Renderer): string
    requires Covers(m, ks)
  {
    if ks == [] then "" else EntryLine(ks[0], m[ks[0]], json) + Lines(ks[1..], m, json)
  }

  function MapLines(m: map<string, Value>, json: Renderer): string {
    Lines(Sorted(m.Keys), m, json)
  }

  lemma FirstLine(k: string, v: Value, t: string, k': string, v': Value, t': string, json: Renderer)
    requires Faithful(json) && EntryLine(k, v, json) + t == EntryLine(k', v', json) + t'
    ensures k == k' && v == v' && t == t'
  {
    LineSplits(k, v, t, json);
    LineSplits(k', v', t', json);
    SplitPrinted(json, Str(k), Str(k'), '=', json(v) + [';'] + t, json(v') + [';'] + t');
    SplitPrinted(json, v, v', ';', t, t');
  }

  lemma LineSplits(k: string, v: Value, t: string, json: Renderer)
    ensures EntryLine(k, v, json) + t == json(Str(k)) + ['='] + (json(v) + [';'] + t)
  {
    var p, q := json(Str(k)) + "=", json(v);
    Appended(p, q, ";");
    Appended(p, q + ";", t);
  }

  lemma {:induction false} LinesDetermine(
      ks: seq<string>, m: map<string, Value>, ks': seq<string>, m': map<string, Value>, json: Renderer)
    requires Faithful(json) && Covers(m, ks) && Covers(m', ks')
    requires Lines(ks, m, json) == Lines(ks', m', json)
    ensures ks == ks' && forall i | 0 <= i < |ks| :: m[ks[i]] == m'[ks[i]]
  {
    if ks != [] && ks' != [] {
      FirstLine(ks[0], m[ks[0]], Lines(ks[1..], m, json), ks'[0], m'[ks'[0]], Lines(ks'[1..], m', json), json);
      LinesDetermine(ks[1..], m, ks'[1..], m', json);
      assert ks == [ks[0]] + ks[1..] && ks' == [ks'[0]] + ks'[1..];
    }
  }

  /** The joined text of the sorted entries determines the map. */
  lemma MapLinesInjective(m: map<string, Value>, m': map<string, Value>, json: Renderer)
    requires Faithful(json) && MapLines(m, json) == MapLines(m', json)
    ensures m == m'
  {
    var ks := Sorted(m.Keys);
    LinesDetermine(ks, m, Sorted(m'.Keys), m', json);
    SameKeySets(m.Keys, m'.Keys);
    forall k | k in m ensures m[k] == m'[k] {
      var i :| 0 <= i < |ks| && ks[i] == k;
    }
  }

  // ---- Lists ------------------------------------------------------------------------------

  function Printed(xs: seq<Value>, json: Renderer): (r: seq<string>)
    ensures |r| == |xs| && forall i | 0 <= i < |xs| :: r[i] == json(xs[i])
  {
    if xs == [] then [] else Printed(xs[..|xs| - 1], json) + [json(xs[|xs| - 1])]
  }

  function Joined(ts: seq<string>): string {
    if ts == [] then "" else ts[0] + ";" + Joined(ts[1..])
  }

  /** Element texts in sorted order, each closed by a separator. */
  function BagLines(xs: seq<Value>, json: Renderer): string {
    Joined(SortBy(Printed(xs, json), Leq))
  }

  lemma LeqIsTotalOrder()
    ensures TotalOrder(Leq)
  {
    forall a, b ensures Leq(a, b) || Leq(b, a) { LeqTotal(a, b); }
    forall a, b, c | Leq(a, b) && Leq(b, c) ensures Leq(a, c) { LeqTransitive(a, b, c); }
    forall a, b | Leq(a, b) && Leq(b, a) ensures a == b { LeqAntisymmetric(a, b); }
  }

  ghost predicate AllPrinted(ts: seq<string>, json: Renderer) {
    forall i | 0 <= i < |ts| :: exists v :: ts[i] == json(v)
  }

  lemma {:induction false} JoinedDetermines(ts: seq<string>, us: seq<string>, json: Renderer)
    requires Faithful(json) && AllPrinted(ts, json) && AllPrinted(us, json) && Joined(ts) == Joined(us)
    ensures ts == us
  {
    if ts != [] && us != [] {
      var v :| ts[0] == json(v);
      var w :| us[0] == json(w);
      SplitPrinted(json, v, w, ';', Joined(ts[1..]), Joined(us[1..]));
      JoinedDetermines(ts[1..], us[1..], json);
      assert ts == [ts[0]] + ts[1..] && us == [us[0]] + us[1..];
    }
  }

  lemma SortedArePrinted(xs: seq<Value>, json: Renderer)
    ensures AllPrinted(SortBy(Printed(xs, json), Leq), json)
  {
    var ts, ss := Printed(xs, json), SortBy(Printed(xs, json), Leq);
    LeqIsTotalOrder();
    SortKeepsBag(ts, Leq);
    forall i | 0 <= i < |ss| ensures exists v :: ss[i] == json(v) {
      assert ss[i] in multiset(ss);
      assert ss[i] in ts;
      var j :| 0 <= j < |ts| && ts[j] == ss[i];
      assert ss[i] == json(xs[j]);
    }
  }

  lemma {:induction false} PrintedCount(xs: seq<Value>, x: Value, json: Renderer)
    requires Injective(json)
    ensures multiset(Printed(xs, json))[json(x)] == multiset(xs)[x]
  {
    if xs != [] {
      PrintedCount(xs[..|xs| - 1], x, json);
      assert ToldApart(json, xs[|xs| - 1], x);
      CountSnoc(xs, x);
      CountSnoc(Printed(xs, json), json(x));
      assert Printed(xs, json)[..|xs| - 1] == Printed(xs[..|xs| - 1], json);
    }
  }

  lemma SamePrintedBag(xs: seq<Value>, ys: seq<Value>, json: Renderer)
    requires Injective(json)
    ensures multiset(Printed(xs, json)) == multiset(Printed(ys, json)) <==> multiset(xs) == multiset(ys)
  {
    var p, q := Printed(xs, json), Printed(ys, json);
    if multiset(p) == multiset(q) {
      forall x ensures multiset(xs)[x] == multiset(ys)[x] {
        PrintedCount(xs, x, json);
        PrintedCount(ys, x, json);
      }
    }
    if multiset(xs) == multiset(ys) {
      forall t ensures multiset(p)[t] == multiset(q)[t] {
        SamePrinted(xs, ys, t, json);
      }
    }
  }

  lemma SamePrinted(xs: seq<Value>, ys: seq<Value>, t: string, json: Renderer)
    requires Injective(json) && multiset(xs) == multiset(ys)
    ensures multiset(Printed(xs, json))[t] == multiset(Printed(ys, json))[t]
  {
    var p, q := Printed(xs, json), Printed(ys, json);
    if t in p {
      var i :| 0 <= i < |p| && p[i] == t;
      PrintedCount(xs, xs[i], json);
      PrintedCount(ys, xs[i], json);
    } else if t in q {
      var i :| 0 <= i < |q| && q[i] == t;
      PrintedCount(xs, ys[i], json);
      PrintedCount(ys, ys[i], json);
    }
  }

  /** The joined text of the sorted elements determines exactly the bag. */
  lemma BagLinesIff(xs: seq<Value>, ys: seq<Value>, json: Renderer)
    requires Faithful(json)
    ensures BagLines(xs, json) == BagLines(ys, json) <==> multiset(xs) == multiset(ys)
  {
    var p, q := Printed(xs, json), Printed(ys, json);
    LeqIsTotalOrder();
    SortEqualIffSameBag(p, q, Leq);
    SamePrintedBag(xs, ys, json);
    if BagLines(xs, json) == BagLines(ys, json) {
      SortedArePrinted(xs, json);
      SortedArePrinted(ys, json);
      JoinedDetermines(SortBy(p, Leq), SortBy(q, Leq), json);
    }
  }
}
