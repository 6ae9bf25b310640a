/** Sorting by a total order, which stands for `Array.prototype.sort` with `localeCompare`. */
module Sorting {

  ghost predicate TotalOrder<T(!new)>(leq: (T, T) -> bool) {
    && (forall a, b :: leq(a, b) || leq(b, a))
    && (forall a, b :: leq(a, b) && leq(b, a) ==> a == b)
    && (forall a, b, c :: leq(a, b) && leq(b, c) ==> leq(a, c))
  }

  /** `s` is in order of the key of its elements. */
  ghost predicate SortedBy<T(!new), K(!new)>(key: T -> K, leq: (K, K) -> bool, s: seq<T>) {
    forall i, j :: 0 <= i < j < |s| ==> leq(key(s[i]), key(s[j]))
  }

  function Insert<T, K>(key: T -> K, leq: (K, K) -> bool, x: T, s: seq<T>): (r: seq<T>)
    ensures multiset(r) == multiset(s) + multiset{x}
  {
    if s == [] then [x]
    else if leq(key(s[|s| - 1]), key(x)) then s + [x]
    else
      assert s == s[..|s| - 1] + [s[|s| - 1]];
      Insert(key, leq, x, s[..|s| - 1]) + [s[|s| - 1]]
  }

  /** A stable sort: of two elements with the same key the earlier stays first. */
  function Sort<T, K>(key: T -> K, leq: (K, K) -> bool, s: seq<T>): (r: seq<T>)
    ensures multiset(r) == multiset(s)
  {
    if s == [] then []
    else
      assert s == s[..|s| - 1] + [s[|s| - 1]];
      Insert(key, leq, s[|s| - 1], Sort(key, leq, s[..|s| - 1]))
  }

  lemma SameMembers<T>(a: seq<T>, b: seq<T>)
    requires multiset(a) == multiset(b)
    ensures |a| == |b| && forall x :: x in a <==> x in b
  {
    assert |multiset(a)| == |multiset(b)|;
    forall x ensures x in a <==> x in b {
      assert x in a <==> x in multiset(a);
    }
  }

  lemma {:induction false} InsertKeepsOrder<T(!new), K(!new)>(key: T -> K, leq: (K, K) -> bool, x: T, s: seq<T>)
    requires TotalOrder(leq) && SortedBy(key, leq, s)
    ensures SortedBy(key, leq, Insert(key, leq, x, s))
    decreases |s|
  {
    if s != [] && !leq(key(s[|s| - 1]), key(x)) {
      var rest, last := s[..|s| - 1], s[|s| - 1];
      InsertKeepsOrder(key, leq, x, rest);
      var r := Insert(key, leq, x, rest);
      SameMembers(r, rest + [x]);
      assert leq(key(x), key(last));
      forall y <- r ensures leq(key(y), key(last)) {
        assert y in rest + [x];
      }
    } else if s != [] {
      assert forall y <- s :: leq(key(y), key(s[|s| - 1]));
    }
  }

  lemma {:induction false} SortSorts<T(!new), K(!new)>(key: T -> K, leq: (K, K) -> bool, s: seq<T>)
    requires TotalOrder(leq)
    ensures SortedBy(key, leq, Sort(key, leq, s))
    decreases |s|
  {
    if s != [] {
      SortSorts(key, leq, s[..|s| - 1]);
      InsertKeepsOrder(key, leq, s[|s| - 1], Sort(key, leq, s[..|s| - 1]));
    }
  }

  ghost predicate DistinctBy<T(!new), K(!new)>(key: T -> K, s: seq<T>) {
    forall i, j :: 0 <= i < j < |s| ==> key(s[i]) != key(s[j])
  }

  lemma EmptyTogether<T>(a: seq<T>, b: seq<T>)
    requires forall x :: x in a <==> x in b
    ensures a == [] <==> b == []
  {
    if a != [] { assert a[0] in b; }
    if b != [] { assert b[0] in a; }
  }

  /** With distinct keys the members alone decide the sorted sequence. */
  lemma {:induction false} SortedIsUnique<T(!new), K(!new)>(key: T -> K, leq: (K, K) -> bool, a: seq<T>, b: seq<T>)
    requires TotalOrder(leq)
    requires SortedBy(key, leq, a) && SortedBy(key, leq, b)
    requires DistinctBy(key, a) && DistinctBy(key, b)
    requires forall x :: x in a <==> x in b
    ensures a == b
    decreases |a|
  {
    EmptyTogether(a, b);
    if a != [] {
      var x := a[|a| - 1];
      assert x in b && b != [];
      var y := b[|b| - 1];
      assert y in a;
      assert leq(key(x), key(y)) && leq(key(y), key(x));
      var i :| 0 <= i < |b| && b[i] == x;
      assert i == |b| - 1;
      var a', b' := a[..|a| - 1], b[..|b| - 1];
      forall z ensures z in a' <==> z in b' {
        assert z in a <==> z in a' || z == x;
        assert z in b <==> z in b' || z == x;
        assert x !in a' && x !in b';
      }
      SortedIsUnique(key, leq, a', b');
    }
  }

  lemma SortKeepsDistinct<T(!new), K(!new)>(key: T -> K, leq: (K, K) -> bool, s: seq<T>)
    requires DistinctBy(key, s)
    ensures DistinctBy(key, Sort(key, leq, s))
  {
    PermutationKeepsDistinct(key, s, Sort(key, leq, s));
  }

  lemma {:induction false} PermutationKeepsDistinct<T(!new), K(!new)>(key: T -> K, s: seq<T>, r: seq<T>)
    requires multiset(s) == multiset(r) && DistinctBy(key, s)
    ensures DistinctBy(key, r)
  {
    SameMembers(s, r);
    forall i, j | 0 <= i < j < |r| ensures key(r[i]) != key(r[j]) {
      assert r[i] in s && r[j] in s;
      if r[i] == r[j] {
        TwiceInMultiset(r, i, j);
        var x := r[i];
        OnceInMultiset(key, s, x);
      }
    }
  }

  lemma TwiceInMultiset<T>(s: seq<T>, i: nat, j: nat)
    requires i < j < |s| && s[i] == s[j]
    ensures multiset(s)[s[i]] >= 2
  {
    assert s == s[..i] + [s[i]] + s[i + 1..j] + [s[j]] + s[j + 1..];
  }

  lemma {:induction false} OnceInMultiset<T(!new), K(!new)>(key: T -> K, s: seq<T>, x: T)
    requires DistinctBy(key, s)
    ensures multiset(s)[x] <= 1
    decreases |s|
  {
    if s != [] {
      var rest, last := s[..|s| - 1], s[|s| - 1];
      assert s == rest + [last];
      OnceInMultiset(key, rest, x);
      if x == last { assert x !in rest; assert x !in multiset(rest); }
    }
  }

  lemma WithoutOne<T>(s: seq<T>, i: nat)
    requires i < |s|
    ensures multiset(s) == multiset(s[..i] + s[i + 1..]) + multiset{s[i]}
  {
    assert s == s[..i] + [s[i]] + s[i + 1..];
  }

  lemma CancelOne<T>(a: multiset<T>, b: multiset<T>, x: T)
    requires a + multiset{x} == b + multiset{x}
    ensures a == b
  {
    assert a == a + multiset{x} - multiset{x};
    assert b == b + multiset{x} - multiset{x};
  }

  function Map<A, B>(f: A -> B, s: seq<A>): (r: seq<B>)
    ensures |r| == |s| && forall i :: 0 <= i < |s| ==> r[i] == f(s[i])
  {
    seq(|s|, i requires 0 <= i < |s| => f(s[i]))
  }

  lemma {:induction false} MapPermutation<A, B>(f: A -> B, a: seq<A>, b: seq<A>)
    requires multiset(a) == multiset(b)
    ensures multiset(Map(f, a)) == multiset(Map(f, b))
    decreases |a|
  {
    SameMembers(a, b);
    if a == [] {
      assert b == [];
    } else {
      var rest, last := a[..|a| - 1], a[|a| - 1];
      assert a == rest + [last] && last in b;
      var i :| 0 <= i < |b| && b[i] == last;
      var others := b[..i] + b[i + 1..];
      WithoutOne(b, i);
      CancelOne(multiset(rest), multiset(others), last);
      MapPermutation(f, rest, others);
      assert Map(f, a) == Map(f, rest) + [f(last)];
      WithoutOne(Map(f, b), i);
      assert Map(f, b)[..i] + Map(f, b)[i + 1..] == Map(f, others);
    }
  }
}
