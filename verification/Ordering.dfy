/** Lexicographic order on strings, and the sorted enumeration of a key set. */
module Ordering {
  import opened Wrappers

  predicate Leq(a: string, b: string) {
    a == "" || (b != "" && (a[0] < b[0] || (a[0] == b[0] && Leq(a[1..], b[1..]))))
  }

  /** Two strings part at `i`, where the first has the smaller character. */
  predicate PartsAt(a: string, b: string, i: nat) {
    i < |a| && i < |b| && a[..i] == b[..i] && a[i] < b[i]
  }

  ghost predicate Parts(a: string, b: string) {
    exists i: nat :: PartsAt(a, b, i)
  }

  /** The order of dictionaries: a prefix comes first, otherwise the first difference decides. */
  lemma {:induction false} LeqIff(a: string, b: string)
    ensures Leq(a, b) <==> a <= b || Parts(a, b)
  {
    if a != "" && b != "" {
      LeqIff(a[1..], b[1..]);
      PartsTail(a, b);
      assert a == [a[0]] + a[1..] && b == [b[0]] + b[1..];
    }
  }

  lemma PartsTail(a: string, b: string)
    requires a != "" && b != ""
    ensures Parts(a, b) <==> a[0] < b[0] || (a[0] == b[0] && Parts(a[1..], b[1..]))
  {
    if i: nat :| PartsAt(a, b, i) {
      if i > 0 { PartsNext(a, b, i - 1); }
    }
    assert a[0] < b[0] ==> PartsAt(a, b, 0);
    if i: nat :| PartsAt(a[1..], b[1..], i) { PartsNext(a, b, i); }
  }

  lemma PartsNext(a: string, b: string, i: nat)
    requires a != "" && b != ""
    ensures PartsAt(a, b, i + 1) <==> a[0] == b[0] && PartsAt(a[1..], b[1..], i)
  {
    if i + 1 < |a| && i + 1 < |b| {
      assert a[..i + 1] == [a[0]] + a[1..][..i] && b[..i + 1] == [b[0]] + b[1..][..i];
    }
  }

  lemma {:induction false} LeqTotal(a: string, b: string)
    ensures Leq(a, b) || Leq(b, a)
  {
    if a != "" && b != "" && a[0] == b[0] {
      LeqTotal(a[1..], b[1..]);
    }
  }

  lemma {:induction false} LeqAntisymmetric(a: string, b: string)
    requires Leq(a, b) && Leq(b, a)
    ensures a == b
  {
    if a != "" && b != "" {
      LeqAntisymmetric(a[1..], b[1..]);
      assert a == [a[0]] + a[1..] && b == [b[0]] + b[1..];
    }
  }

  lemma {:induction false} LeqTransitive(a: string, b: string, c: string)
    requires Leq(a, b) && Leq(b, c)
    ensures Leq(a, c)
  {
    if a != "" && a[0] == c[0] {
      LeqTransitive(a[1..], b[1..], c[1..]);
    }
  }

  predicate IsLeast(k: string, s: set<string>) {
    k in s && forall j | j in s :: Leq(k, j)
  }

  lemma LeastExists(s: set<string>)
    requires s != {}
    ensures exists k :: IsLeast(k, s)
  {
    var x :| x in s;
    if s == {x} {
      LeqTotal(x, x);
      assert IsLeast(x, s);
    } else {
      LeastExists(s - {x});
      var y :| IsLeast(y, s - {x});
      LeqTotal(x, y);
      LeqTotal(x, x);
      var k := if Leq(x, y) then x else y;
      forall j | j in s ensures Leq(k, j) {
        if k == x && j != x { LeqTransitive(x, y, j); }
      }
      assert IsLeast(k, s);
    }
  }

  function Least(s: set<string>): (k: string)
    requires s != {}
    ensures IsLeast(k, s)
  {
    LeastExists(s);
    assert forall a, b | IsLeast(a, s) && IsLeast(b, s) :: a == b by {
      forall a, b | IsLeast(a, s) && IsLeast(b, s) ensures a == b { LeqAntisymmetric(a, b); }
    }
    var k :| IsLeast(k, s);
    k
  }

  predicate StrictlySorted(ks: seq<string>) {
    forall i, j | 0 <= i < j < |ks| :: Leq(ks[i], ks[j]) && ks[i] != ks[j]
  }

  /** `ks` lists the elements of `s`. */
  predicate Lists(ks: seq<string>, s: set<string>) {
    (forall i | 0 <= i < |ks| :: ks[i] in s) && forall k | k in s :: k in ks
  }

  /** There is only one strictly sorted list of a set. */
  lemma {:induction false} SortedUnique(a: seq<string>, b: seq<string>, s: set<string>)
    requires StrictlySorted(a) && StrictlySorted(b)
    requires Lists(a, s) && Lists(b, s)
    ensures a == b
  {
    if a != [] { NothingListed(a, s); }
    if b != [] { NothingListed(b, s); }
    if s != {} {
      SameHead(a, b, s);
      TailLists(a, s);
      TailLists(b, s);
      SortedUnique(a[1..], b[1..], s - {a[0]});
      assert a == [a[0]] + a[1..] && b == [b[0]] + b[1..];
    }
  }

  lemma NothingListed(a: seq<string>, s: set<string>)
    requires Lists(a, s) && a != []
    ensures s != {}
  {
    assert a[0] in s;
  }

  lemma SameHead(a: seq<string>, b: seq<string>, s: set<string>)
    requires StrictlySorted(a) && StrictlySorted(b)
    requires Lists(a, s) && Lists(b, s) && s != {}
    ensures a != [] && b != [] && a[0] == b[0]
  {
    var x :| x in s;
    assert x in a && x in b;
    HeadIsLeast(a, s);
    HeadIsLeast(b, s);
    LeqAntisymmetric(a[0], b[0]);
  }

  lemma HeadIsLeast(a: seq<string>, s: set<string>)
    requires StrictlySorted(a) && Lists(a, s) && a != []
    ensures IsLeast(a[0], s)
  {
    forall k | k in s ensures Leq(a[0], k) {
      var i :| 0 <= i < |a| && a[i] == k;
      LeqTotal(a[0], a[0]);
    }
  }

  lemma TailLists(a: seq<string>, s: set<string>)
    requires StrictlySorted(a) && Lists(a, s) && a != []
    ensures StrictlySorted(a[1..]) && Lists(a[1..], s - {a[0]})
  {
    forall k | k in s - {a[0]} ensures k in a[1..] {
      var i :| 0 <= i < |a| && a[i] == k;
      assert a[1..][i - 1] == k;
    }
  }

  predicate IsSorting(ks: seq<string>, s: set<string>) {
    StrictlySorted(ks) && Lists(ks, s) && |ks| == |s|
  }

  lemma SortingExists(s: set<string>)
    ensures exists ks :: IsSorting(ks, s)
  {
    if s == {} {
      assert IsSorting([], s);
    } else {
      var k := Least(s);
      SortingExists(s - {k});
      var ks :| IsSorting(ks, s - {k});
      var all := [k] + ks;
      forall i, j | 0 <= i < j < |all| ensures Leq(all[i], all[j]) && all[i] != all[j] {
        assert all[j] == ks[j - 1];
      }
      assert IsSorting(all, s);
    }
  }

  /** The elements of a set in increasing order. */
  function Sorted(s: set<string>): (ks: seq<string>)
    ensures IsSorting(ks, s)
  {
    SortingExists(s);
    assert forall a, b | IsSorting(a, s) && IsSorting(b, s) :: a == b by {
      forall a, b | IsSorting(a, s) && IsSorting(b, s) ensures a == b { SortedUnique(a, b, s); }
    }
    var ks :| IsSorting(ks, s);
    ks
  }

  lemma SortedIs(s: set<string>, ks: seq<string>)
    requires StrictlySorted(ks) && Lists(ks, s)
    ensures Sorted(s) == ks
  {
    SortedUnique(Sorted(s), ks, s);
  }

  lemma SortedWithout(s: set<string>, ks: seq<string>, i: nat)
    requires ks == Sorted(s) && i < |ks|
    ensures Sorted(s - {ks[i]}) == ks[..i] + ks[i + 1..]
  {
    var k, rest := ks[i], ks[..i] + ks[i + 1..];
    forall j | j in s - {k} ensures j in rest {
      var n :| 0 <= n < |ks| && ks[n] == j;
      assert rest[if n < i then n else n - 1] == j;
    }
    SortedIs(s - {k}, rest);
  }
}
