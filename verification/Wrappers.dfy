/** Shared option type and extensional reasoning about finite maps. */
module Wrappers {
  datatype Option<+T> = None | Some(value: T)

  /** The value a map holds at a key, if any. */
  function Get<K, V>(m: map<K, V>, k: K): Option<V> {
    if k in m then Some(m[k]) else None
  }

  /** Maps that answer every lookup alike are the same map. */
  lemma MapsAgree<K(!new), V>(a: map<K, V>, b: map<K, V>)
    requires forall k :: Get(a, k) == Get(b, k)
    ensures a == b
  {
    forall k ensures k in a <==> k in b {
      assert Get(a, k) == Get(b, k);
    }
    forall k | k in a ensures a[k] == b[k] {
      assert Get(a, k) == Get(b, k);
    }
  }

  /** `order` lists every element of `s` exactly once. */
  ghost predicate Enumerates<T(!new)>(order: seq<T>, s: set<T>) {
    && (forall x :: x in s <==> x in order)
    && forall i, j | 0 <= i < j < |order| :: order[i] != order[j]
  }

  lemma SplitHere<T>(s: seq<T>, i: nat)
    requires i < |s|
    ensures s == s[..i] + [s[i]] + s[i + 1..]
    ensures s[..i + 1] == s[..i] + [s[i]]
  {
  }

  lemma Appended<T>(out: seq<T>, a: seq<T>, b: seq<T>)
    ensures out + a + b == out + (a + b)
  {
  }

  lemma CountSnoc<T>(s: seq<T>, x: T)
    requires s != []
    ensures multiset(s)[x] == multiset(s[..|s| - 1])[x] + if s[|s| - 1] == x then 1 else 0
  {
    assert s == s[..|s| - 1] + [s[|s| - 1]];
  }

  lemma SeqsEqualIff<T>(a: seq<T>, b: seq<T>)
    ensures a == b <==> |a| == |b| && forall i | 0 <= i < |a| :: a[i] == b[i]
  {
  }

  lemma BagWithout<T>(s: seq<T>, i: nat)
    requires i < |s|
    ensures multiset(s) == multiset(s[..i] + s[i + 1..]) + multiset{s[i]}
  {
    SplitHere(s, i);
    assert multiset(s) == multiset(s[..i]) + multiset{s[i]} + multiset(s[i + 1..]);
  }

  /** Taking one occurrence of the last element out of an equal bag. */
  lemma WithoutLast<T>(xs: seq<T>, ys: seq<T>) returns (i: nat)
    requires xs != [] && multiset(xs) == multiset(ys)
    ensures i < |ys| && ys[i] == xs[|xs| - 1]
    ensures multiset(xs[..|xs| - 1]) == multiset(ys[..i] + ys[i + 1..])
  {
    var n := |xs| - 1;
    assert xs[n] in multiset(ys);
    i :| 0 <= i < |ys| && ys[i] == xs[n];
    BagWithout(ys, i);
    BagWithout(xs, n);
    assert xs[..n] + xs[n + 1..] == xs[..n];
    CancelOne(multiset(xs[..n]), multiset(ys[..i] + ys[i + 1..]), xs[n]);
  }

  lemma CancelOne<T>(a: multiset<T>, b: multiset<T>, x: T)
    requires a + multiset{x} == b + multiset{x}
    ensures a == b
  {
    assert a == (a + multiset{x}) - multiset{x};
    assert b == (b + multiset{x}) - multiset{x};
  }
}
