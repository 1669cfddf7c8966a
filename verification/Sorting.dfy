/** Stable sorting, and exactly what a sorted list remembers of its input. */
module Sorting {
  type Order<!T> = (T, T) -> bool

  ghost predicate TotalPreorder<T(!new)>(le: Order<T>) {
    && (forall x, y :: le(x, y) || le(y, x))
    && (forall x, y, z :: le(x, y) && le(y, z) ==> le(x, z))
  }

  ghost predicate TotalOrder<T(!new)>(le: Order<T>) {
    TotalPreorder(le) && forall x, y :: le(x, y) && le(y, x) ==> x == y
  }

  predicate Tied<T>(x: T, y: T, le: Order<T>) {
    le(x, y) && le(y, x)
  }

  /** Insert after every element that is not greater. */
  function InsertLast<T>(s: seq<T>, x: T, le: Order<T>): seq<T> {
    if s == [] || le(s[|s| - 1], x) then s + [x]
    else InsertLast(s[..|s| - 1], x, le) + [s[|s| - 1]]
  }

  function SortBy<T>(s: seq<T>, le: Order<T>): seq<T> {
    if s == [] then [] else InsertLast(SortBy(s[..|s| - 1], le), s[|s| - 1], le)
  }

  predicate IsSorted<T>(s: seq<T>, le: Order<T>) {
    forall i, j | 0 <= i < j < |s| :: le(s[i], s[j])
  }

  /** The elements tied with `k`, in their order. */
  function Class<T>(s: seq<T>, k: T, le: Order<T>): seq<T> {
    if s == [] then []
    else Class(s[..|s| - 1], k, le) + if Tied(s[|s| - 1], k, le) then [s[|s| - 1]] else []
  }

  /** Each tie class is the same subsequence of both lists. */
  ghost predicate SameClasses<T(!new)>(a: seq<T>, b: seq<T>, le: Order<T>) {
    forall k :: Class(a, k, le) == Class(b, k, le)
  }

  // ---- Stability ----------------------------------------------------------------------

  lemma ClassSnoc<T>(s: seq<T>, x: T, k: T, le: Order<T>)
    ensures Class(s + [x], k, le) == Class(s, k, le) + if Tied(x, k, le) then [x] else []
  {
    assert (s + [x])[..|s + [x]| - 1] == s;
  }

  lemma {:induction false} InsertKeepsClass<T(!new)>(s: seq<T>, x: T, k: T, le: Order<T>)
    requires TotalPreorder(le)
    ensures Class(InsertLast(s, x, le), k, le) == Class(s, k, le) + if Tied(x, k, le) then [x] else []
  {
    if s == [] || le(s[|s| - 1], x) {
      ClassSnoc(s, x, k, le);
    } else {
      InsertKeepsClass(s[..|s| - 1], x, k, le);
      ClassSnoc(InsertLast(s[..|s| - 1], x, le), s[|s| - 1], k, le);
    }
  }

  /** Sorting is stable: tied elements keep their order, and nothing is lost or gained. */
  lemma {:induction false} SortKeepsClass<T(!new)>(s: seq<T>, k: T, le: Order<T>)
    requires TotalPreorder(le)
    ensures Class(SortBy(s, le), k, le) == Class(s, k, le)
  {
    if s != [] {
      SortKeepsClass(s[..|s| - 1], k, le);
      InsertKeepsClass(SortBy(s[..|s| - 1], le), s[|s| - 1], k, le);
    }
  }

  // ---- Sortedness ---------------------------------------------------------------------

  predicate AllBelow<T>(s: seq<T>, b: T, le: Order<T>) {
    forall i | 0 <= i < |s| :: le(s[i], b)
  }

  lemma {:induction false} InsertBelow<T>(s: seq<T>, x: T, b: T, le: Order<T>)
    requires AllBelow(s, b, le) && le(x, b)
    ensures AllBelow(InsertLast(s, x, le), b, le)
  {
    if s != [] && !le(s[|s| - 1], x) {
      InsertBelow(s[..|s| - 1], x, b, le);
    }
  }

  lemma SortedSnoc<T>(s: seq<T>, x: T, le: Order<T>)
    requires IsSorted(s, le) && AllBelow(s, x, le)
    ensures IsSorted(s + [x], le)
  {
  }

  lemma SortedBelow<T(!new)>(s: seq<T>, x: T, le: Order<T>)
    requires TotalPreorder(le) && IsSorted(s, le)
    requires s == [] || le(s[|s| - 1], x)
    ensures AllBelow(s, x, le)
  {
    forall i | 0 <= i < |s| ensures le(s[i], x) {
      assert i == |s| - 1 || le(s[i], s[|s| - 1]);
    }
  }

  lemma {:induction false} InsertSorted<T(!new)>(s: seq<T>, x: T, le: Order<T>)
    requires TotalPreorder(le) && IsSorted(s, le)
    ensures IsSorted(InsertLast(s, x, le), le)
  {
    if s == [] || le(s[|s| - 1], x) {
      SortedBelow(s, x, le);
      SortedSnoc(s, x, le);
    } else {
      var n := |s| - 1;
      InsertSorted(s[..n], x, le);
      InsertBelow(s[..n], x, s[n], le);
      SortedSnoc(InsertLast(s[..n], x, le), s[n], le);
    }
  }

  lemma {:induction false} SortIsSorted<T(!new)>(s: seq<T>, le: Order<T>)
    requires TotalPreorder(le)
    ensures IsSorted(SortBy(s, le), le)
  {
    if s != [] {
      SortIsSorted(s[..|s| - 1], le);
      InsertSorted(SortBy(s[..|s| - 1], le), s[|s| - 1], le);
    }
  }

  // ---- A sorted list is determined by its classes ------------------------------------------

  lemma LastOfClass<T(!new)>(s: seq<T>, le: Order<T>)
    requires TotalPreorder(le) && s != []
    ensures var c := Class(s, s[|s| - 1], le); c != [] && c[|c| - 1] == s[|s| - 1]
  {
  }

  lemma {:induction false} ClassMember<T>(s: seq<T>, k: T, le: Order<T>) returns (i: nat)
    requires Class(s, k, le) != []
    ensures i < |s| && Tied(s[i], k, le)
  {
    i := |s| - 1;
    if !Tied(s[i], k, le) {
      i := ClassMember(s[..i], k, le);
    }
  }

  lemma {:induction false} ClassOfTied<T(!new)>(s: seq<T>, x: T, y: T, le: Order<T>)
    requires TotalPreorder(le) && Tied(x, y, le)
    ensures Class(s, x, le) == Class(s, y, le)
  {
    if s != [] {
      ClassOfTied(s[..|s| - 1], x, y, le);
    }
  }

  lemma NotBelow<T(!new)>(a: seq<T>, b: seq<T>, le: Order<T>)
    requires TotalPreorder(le) && a != [] && IsSorted(b, le)
    requires Class(a, a[|a| - 1], le) == Class(b, a[|a| - 1], le)
    ensures b != [] && le(a[|a| - 1], b[|b| - 1])
  {
    LastOfClass(a, le);
    var i := ClassMember(b, a[|a| - 1], le);
    assert i == |b| - 1 || le(b[i], b[|b| - 1]);
  }

  lemma DropLast<T>(s: seq<T>, k: T, le: Order<T>)
    requires s != []
    ensures Tied(s[|s| - 1], k, le) ==> Class(s, k, le) != []
    ensures var c := Class(s, k, le);
            Class(s[..|s| - 1], k, le) == if Tied(s[|s| - 1], k, le) then c[..|c| - 1] else c
  {
  }

  lemma SameLast<T(!new)>(a: seq<T>, b: seq<T>, le: Order<T>)
    requires TotalPreorder(le) && a != [] && IsSorted(a, le) && IsSorted(b, le) && SameClasses(a, b, le)
    ensures b != [] && a[|a| - 1] == b[|b| - 1]
  {
    NotBelow(a, b, le);
    NotBelow(b, a, le);
    ClassOfTied(b, a[|a| - 1], b[|b| - 1], le);
    LastOfClass(a, le);
    LastOfClass(b, le);
    assert Class(a, a[|a| - 1], le) == Class(b, a[|a| - 1], le);
  }

  lemma {:induction false} SortedByClasses<T(!new)>(a: seq<T>, b: seq<T>, le: Order<T>)
    requires TotalPreorder(le) && IsSorted(a, le) && IsSorted(b, le) && SameClasses(a, b, le)
    ensures a == b
    decreases |a|
  {
    if a != [] {
      SameLast(a, b, le);
      var a', b' := a[..|a| - 1], b[..|b| - 1];
      forall k ensures Class(a', k, le) == Class(b', k, le) {
        assert Class(a, k, le) == Class(b, k, le);
        DropLast(a, k, le);
        DropLast(b, k, le);
      }
      SortedByClasses(a', b', le);
      assert a == a' + [a[|a| - 1]] && b == b' + [b[|b| - 1]];
    } else if b != [] {
      NotBelow(b, a, le);
    }
  }

  /** Two lists sort alike exactly when every tie class is the same subsequence of both. */
  lemma SortEqualIffClasses<T(!new)>(s: seq<T>, t: seq<T>, le: Order<T>)
    requires TotalPreorder(le)
    ensures SortBy(s, le) == SortBy(t, le) <==> SameClasses(s, t, le)
  {
    SortSameClasses(s, t, le);
    if SameClasses(s, t, le) {
      SortIsSorted(s, le);
      SortIsSorted(t, le);
      SortedByClasses(SortBy(s, le), SortBy(t, le), le);
    }
  }

  lemma SortSameClasses<T(!new)>(s: seq<T>, t: seq<T>, le: Order<T>)
    requires TotalPreorder(le)
    ensures SameClasses(SortBy(s, le), SortBy(t, le), le) <==> SameClasses(s, t, le)
    ensures SameClasses(SortBy(s, le), s, le)
  {
    forall k
      ensures Class(SortBy(s, le), k, le) == Class(s, k, le) && Class(SortBy(t, le), k, le) == Class(t, k, le)
    {
      SortKeepsClass(s, k, le);
      SortKeepsClass(t, k, le);
    }
  }

  /** Sorting a sorted list changes nothing. */
  lemma SortOfSorted<T(!new)>(s: seq<T>, le: Order<T>)
    requires TotalPreorder(le) && IsSorted(s, le)
    ensures SortBy(s, le) == s
  {
    SortSameClasses(s, s, le);
    SortIsSorted(s, le);
    SortedByClasses(SortBy(s, le), s, le);
  }

  // ---- Total orders: sorting forgets the order and nothing else -------------------------------

  lemma {:induction false} ClassIsCount<T(!new)>(s: seq<T>, x: T, le: Order<T>)
    requires TotalOrder(le)
    ensures Class(s, x, le) == seq(multiset(s)[x], _ => x)
  {
    if s != [] {
      var n := |s| - 1;
      ClassIsCount(s[..n], x, le);
      assert s == s[..n] + [s[n]];
      assert multiset(s) == multiset(s[..n]) + multiset{s[n]};
    }
  }

  lemma SortEqualIffSameBag<T(!new)>(s: seq<T>, t: seq<T>, le: Order<T>)
    requires TotalOrder(le)
    ensures SortBy(s, le) == SortBy(t, le) <==> multiset(s) == multiset(t)
  {
    SortEqualIffClasses(s, t, le);
    forall x ensures Class(s, x, le) == Class(t, x, le) <==> multiset(s)[x] == multiset(t)[x] {
      ClassIsCount(s, x, le);
      ClassIsCount(t, x, le);
      var n, m := multiset(s)[x], multiset(t)[x];
      assert |Class(s, x, le)| == n && |Class(t, x, le)| == m;
    }
    SameBag(s, t);
  }

  lemma SameBag<T(!new)>(s: seq<T>, t: seq<T>)
    ensures multiset(s) == multiset(t) <==> forall x :: multiset(s)[x] == multiset(t)[x]
  {
  }

  lemma SortKeepsBag<T(!new)>(s: seq<T>, le: Order<T>)
    requires TotalOrder(le)
    ensures multiset(SortBy(s, le)) == multiset(s)
  {
    SortIsSorted(s, le);
    SortOfSorted(SortBy(s, le), le);
    SortEqualIffSameBag(SortBy(s, le), s, le);
  }

  // ---- Removing consecutive duplicates ---------------------------------------------------

  function Dedup<T(==)>(s: seq<T>): seq<T> {
    if |s| <= 1 then s
    else if s[|s| - 1] == s[|s| - 2] then Dedup(s[..|s| - 1])
    else Dedup(s[..|s| - 1]) + [s[|s| - 1]]
  }

  /** After sorting, every element that occurs stays exactly once. */
  lemma {:induction false} DedupCounts<T(!new)>(s: seq<T>, x: T, le: Order<T>)
    requires TotalOrder(le) && IsSorted(s, le)
    ensures multiset(Dedup(s))[x] == if x in s then 1 else 0
  {
    if |s| > 1 {
      var n := |s| - 1;
      DedupCounts(s[..n], x, le);
      assert s == s[..n] + [s[n]];
      assert s[..n][n - 1] == s[n - 1];
      if s[n] != s[n - 1] {
        LastIsNew(s, le);
        assert multiset(Dedup(s)) == multiset(Dedup(s[..n])) + multiset{s[n]};
      }
    }
  }

  lemma LastIsNew<T(!new)>(s: seq<T>, le: Order<T>)
    requires TotalOrder(le) && IsSorted(s, le) && |s| > 1 && s[|s| - 1] != s[|s| - 2]
    ensures s[|s| - 1] !in s[..|s| - 1]
  {
    var n := |s| - 1;
    forall i | 0 <= i < n ensures s[..n][i] != s[n] {
      if i < n - 1 {
        assert le(s[i], s[n - 1]) && le(s[n - 1], s[n]);
      }
    }
  }

  lemma {:induction false} DedupSorted<T(!new)>(s: seq<T>, le: Order<T>)
    requires TotalOrder(le) && IsSorted(s, le)
    ensures IsSorted(Dedup(s), le)
    ensures s != [] ==> Dedup(s) != [] && Dedup(s)[|Dedup(s)| - 1] == s[|s| - 1]
  {
    if |s| > 1 {
      var n := |s| - 1;
      DedupSorted(s[..n], le);
      assert s[..n][n - 1] == s[n - 1];
      if s[n] != s[n - 1] {
        assert le(s[n - 1], s[n]);
        SortedBelow(Dedup(s[..n]), s[n], le);
        SortedSnoc(Dedup(s[..n]), s[n], le);
      }
    }
  }

  /** Sorting and then removing repeats keeps the set of elements and nothing else. */
  lemma SortDedupIffSameSet<T(!new)>(s: seq<T>, t: seq<T>, le: Order<T>)
    requires TotalOrder(le)
    ensures Dedup(SortBy(s, le)) == Dedup(SortBy(t, le)) <==> forall x :: x in s <==> x in t
  {
    SortDedupIs(s, le);
    SortDedupIs(t, le);
    var a, b := Dedup(SortBy(s, le)), Dedup(SortBy(t, le));
    SortEqualIffSameBag(a, b, le);
    SameBag(a, b);
    assert forall x :: multiset(a)[x] == multiset(b)[x] <==> (x in s <==> x in t);
  }

  lemma SortDedupIs<T(!new)>(s: seq<T>, le: Order<T>)
    requires TotalOrder(le)
    ensures forall x :: multiset(Dedup(SortBy(s, le)))[x] == if x in s then 1 else 0
    ensures SortBy(Dedup(SortBy(s, le)), le) == Dedup(SortBy(s, le))
  {
    var a := SortBy(s, le);
    SortIsSorted(s, le);
    SortKeepsBag(s, le);
    DedupSorted(a, le);
    SortOfSorted(Dedup(a), le);
    forall x ensures multiset(Dedup(a))[x] == if x in s then 1 else 0 {
      DedupCounts(a, x, le);
      assert x in a <==> x in multiset(a) <==> x in multiset(s) <==> x in s;
    }
  }
}
