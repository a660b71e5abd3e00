/** Stable sorting by a key, and what two stable sorts agree on. */
module Sorting {
  import opened Sequences

  ghost predicate TotalOrder<K(!new)>(leq: (K, K) -> bool) {
    && (forall a, b :: leq(a, b) || leq(b, a))
    && (forall a, b :: leq(a, b) && leq(b, a) ==> a == b)
    && (forall a, b, c :: leq(a, b) && leq(b, c) ==> leq(a, c))
  }

  /** Puts x in front of the first entry whose key is not smaller, so equal keys keep their order. */
  function Insert<T, K>(x: T, xs: seq<T>, key: T -> K, leq: (K, K) -> bool): (r: seq<T>)
    ensures multiset(r) == multiset([x] + xs)
  {
    if xs == [] || leq(key(x), key(xs[0])) then [x] + xs
    else
      assert xs == [xs[0]] + xs[1..];
      [xs[0]] + Insert(x, xs[1..], key, leq)
  }

  /** The stable sort; Python's sorted(xs, key=key) is determined by order and stability alone. */
  function SortBy<T, K>(xs: seq<T>, key: T -> K, leq: (K, K) -> bool): (r: seq<T>)
    ensures multiset(r) == multiset(xs)
  {
    if xs == [] then []
    else
      assert xs == [xs[0]] + xs[1..];
      Insert(xs[0], SortBy(xs[1..], key, leq), key, leq)
  }

  ghost predicate SortedBy<T, K>(xs: seq<T>, key: T -> K, leq: (K, K) -> bool) {
    forall i, j | 0 <= i < j < |xs| :: leq(key(xs[i]), key(xs[j]))
  }

  /** The entries with key k, in their order. */
  function WithKey<T, K(==)>(xs: seq<T>, key: T -> K, k: K): seq<T> {
    if xs == [] then []
    else (if key(xs[0]) == k then [xs[0]] else []) + WithKey(xs[1..], key, k)
  }

  /** The two lists hold, for every key, the same entries in the same order. */
  ghost predicate SameSlices<T, K(!new)>(xs: seq<T>, ys: seq<T>, key: T -> K) {
    forall k :: WithKey(xs, key, k) == WithKey(ys, key, k)
  }

  lemma Inserted<T, K>(x: T, xs: seq<T>, key: T -> K, leq: (K, K) -> bool, y: T)
    requires y in Insert(x, xs, key, leq)
    ensures y == x || y in xs
  {
    assert y in multiset(Insert(x, xs, key, leq)) && y in multiset([x] + xs);
    assert y in [x] + xs;
  }

  lemma {:induction false} InsertSorted<T, K(!new)>(x: T, xs: seq<T>, key: T -> K, leq: (K, K) -> bool)
    requires TotalOrder(leq) && SortedBy(xs, key, leq)
    ensures SortedBy(Insert(x, xs, key, leq), key, leq)
  {
    if xs != [] && !leq(key(x), key(xs[0])) {
      var rest := Insert(x, xs[1..], key, leq);
      InsertSorted(x, xs[1..], key, leq);
      forall j | 0 <= j < |rest| ensures leq(key(xs[0]), key(rest[j])) {
        Inserted(x, xs[1..], key, leq, rest[j]);
      }
    }
  }

  lemma {:induction false} SortBySorted<T, K(!new)>(xs: seq<T>, key: T -> K, leq: (K, K) -> bool)
    requires TotalOrder(leq)
    ensures SortedBy(SortBy(xs, key, leq), key, leq)
  {
    if xs != [] {
      SortBySorted(xs[1..], key, leq);
      InsertSorted(xs[0], SortBy(xs[1..], key, leq), key, leq);
    }
  }

  lemma WithKeyCons<T, K(!new)>(x: T, xs: seq<T>, key: T -> K, k: K)
    ensures WithKey([x] + xs, key, k) == (if key(x) == k then [x] else []) + WithKey(xs, key, k)
  {
    assert ([x] + xs)[1..] == xs;
  }

  lemma {:induction false} InsertStable<T, K(!new)>(x: T, xs: seq<T>, key: T -> K, leq: (K, K) -> bool, k: K)
    requires forall a :: leq(a, a)
    ensures WithKey(Insert(x, xs, key, leq), key, k) == WithKey([x] + xs, key, k)
  {
    if xs != [] && !leq(key(x), key(xs[0])) {
      var tail := xs[1..];
      assert xs == [xs[0]] + tail;
      InsertStable(x, tail, key, leq, k);
      WithKeyCons(xs[0], Insert(x, tail, key, leq), key, k);
      WithKeyCons(x, tail, key, k);
      WithKeyCons(x, xs, key, k);
      WithKeyCons(xs[0], tail, key, k);
      assert key(x) != key(xs[0]);
    }
  }

  lemma {:induction false} SortByStable<T, K(!new)>(xs: seq<T>, key: T -> K, leq: (K, K) -> bool, k: K)
    requires forall a :: leq(a, a)
    ensures WithKey(SortBy(xs, key, leq), key, k) == WithKey(xs, key, k)
  {
    if xs != [] {
      var rest := SortBy(xs[1..], key, leq);
      SortByStable(xs[1..], key, leq, k);
      InsertStable(xs[0], rest, key, leq, k);
      assert ([xs[0]] + rest)[1..] == rest;
    }
  }

  lemma {:induction false} WithKeyMember<T, K(!new)>(xs: seq<T>, key: T -> K, k: K, x: T)
    ensures x in WithKey(xs, key, k) <==> x in xs && key(x) == k
  {
    if xs != [] {
      WithKeyMember(xs[1..], key, k, x);
      assert xs == [xs[0]] + xs[1..];
    }
  }

  /** Mapping the entries maps the slices, when keys survive the mapping. */
  lemma {:induction false} WithKeyOfMapped<T, U, K(!new)>(xs: seq<T>, ys: seq<U>, f: T -> U, key: T -> K,
                                                          mapped: U -> K, k: K)
    requires |xs| == |ys| && forall i | 0 <= i < |xs| :: ys[i] == f(xs[i]) && mapped(ys[i]) == key(xs[i])
    ensures |WithKey(ys, mapped, k)| == |WithKey(xs, key, k)|
    ensures forall i | 0 <= i < |WithKey(xs, key, k)| :: WithKey(ys, mapped, k)[i] == f(WithKey(xs, key, k)[i])
  {
    if xs != [] {
      WithKeyOfMapped(xs[1..], ys[1..], f, key, mapped, k);
    }
  }

  /** A sorted list is determined by its slices of equal keys. */
  lemma {:induction false} SortedUnique<T, K(!new)>(xs: seq<T>, ys: seq<T>, key: T -> K, leq: (K, K) -> bool)
    requires TotalOrder(leq) && SortedBy(xs, key, leq) && SortedBy(ys, key, leq)
    requires SameSlices(xs, ys, key)
    ensures xs == ys
  {
    if xs == [] {
      assert forall k :: WithKey(xs, key, k) == [];
      assert ys != [] ==> WithKey(ys, key, key(ys[0])) != [];
    } else {
      assert ys != [] by {
        assert WithKey(xs, key, key(xs[0])) != [];
      }
      var x := xs[0];
      WithKeyMember(xs, key, key(x), x);
      WithKeyMember(ys, key, key(x), x);
      var y := ys[0];
      WithKeyMember(xs, key, key(y), y);
      WithKeyMember(ys, key, key(y), y);
      assert WithKey(xs, key, key(y)) == WithKey(ys, key, key(y));
      assert y in xs && x in ys;
      assert leq(key(x), key(y)) by { LeastFirst(xs, key, leq, y); }
      assert leq(key(y), key(x)) by { LeastFirst(ys, key, leq, x); }
      assert key(x) == key(y);
      assert WithKey(xs, key, key(x)) == [x] + WithKey(xs[1..], key, key(x));
      assert WithKey(ys, key, key(x)) == [y] + WithKey(ys[1..], key, key(x));
      assert WithKey(xs, key, key(x))[0] == x && WithKey(ys, key, key(x))[0] == y;
      forall k ensures WithKey(xs[1..], key, k) == WithKey(ys[1..], key, k) {
        assert WithKey(xs, key, k) == (if key(x) == k then [x] else []) + WithKey(xs[1..], key, k);
        assert WithKey(ys, key, k) == (if key(x) == k then [x] else []) + WithKey(ys[1..], key, k);
        var front := if key(x) == k then 1 else 0;
        assert WithKey(xs, key, k)[front..] == WithKey(xs[1..], key, k);
        assert WithKey(ys, key, k)[front..] == WithKey(ys[1..], key, k);
      }
      SortedUnique(xs[1..], ys[1..], key, leq);
      assert xs == [x] + xs[1..] && ys == [y] + ys[1..];
    }
  }

  lemma LeastFirst<T, K(!new)>(xs: seq<T>, key: T -> K, leq: (K, K) -> bool, x: T)
    requires TotalOrder(leq) && SortedBy(xs, key, leq) && x in xs
    ensures leq(key(xs[0]), key(x))
  {
    var i :| 0 <= i < |xs| && xs[i] == x;
    if i > 0 {
      assert leq(key(xs[0]), key(xs[i]));
    }
  }

  /** Two lists sort to the same list exactly when their slices of equal keys agree. */
  lemma SortsAgree<T, K(!new)>(xs: seq<T>, ys: seq<T>, key: T -> K, leq: (K, K) -> bool)
    requires TotalOrder(leq)
    ensures SortBy(xs, key, leq) == SortBy(ys, key, leq)
       <==> SameSlices(xs, ys, key)
  {
    StableForEveryKey(xs, key, leq);
    StableForEveryKey(ys, key, leq);
    if SameSlices(xs, ys, key) {
      SortBySorted(xs, key, leq);
      SortBySorted(ys, key, leq);
      SortedUnique(SortBy(xs, key, leq), SortBy(ys, key, leq), key, leq);
    }
  }

  lemma StableForEveryKey<T, K(!new)>(xs: seq<T>, key: T -> K, leq: (K, K) -> bool)
    requires forall a :: leq(a, a)
    ensures forall k :: WithKey(SortBy(xs, key, leq), key, k) == WithKey(xs, key, k)
  {
    forall k ensures WithKey(SortBy(xs, key, leq), key, k) == WithKey(xs, key, k) {
      SortByStable(xs, key, leq, k);
    }
  }

  lemma {:induction false} WithInjectiveKey<T, K(!new)>(xs: seq<T>, key: T -> K, x: T)
    requires forall a | a in xs && key(a) == key(x) :: a == x
    ensures |WithKey(xs, key, key(x))| == multiset(xs)[x]
    ensures forall i | 0 <= i < |WithKey(xs, key, key(x))| :: WithKey(xs, key, key(x))[i] == x
  {
    if xs != [] {
      WithInjectiveKey(xs[1..], key, x);
      assert xs == [xs[0]] + xs[1..];
    }
  }

  lemma {:induction false} NoneWithKey<T, K>(xs: seq<T>, key: T -> K, k: K)
    requires forall x | x in xs :: key(x) != k
    ensures WithKey(xs, key, k) == []
  {
    if xs != [] {
      NoneWithKey(xs[1..], key, k);
    }
  }

  /** A key that tells the entries of a list apart makes every order of the list sort alike. */
  lemma PermutedSorts<T(!new), K(!new)>(xs: seq<T>, ys: seq<T>, key: T -> K, leq: (K, K) -> bool)
    requires TotalOrder(leq) && multiset(xs) == multiset(ys)
    requires forall a, b | a in xs && b in xs && key(a) == key(b) :: a == b
    ensures SortBy(xs, key, leq) == SortBy(ys, key, leq)
  {
    forall x ensures x in xs <==> x in ys {
      assert x in multiset(xs) <==> x in multiset(ys);
    }
    forall k ensures WithKey(xs, key, k) == WithKey(ys, key, k) {
      if x :| x in xs && key(x) == k {
        WithInjectiveKey(xs, key, x);
        WithInjectiveKey(ys, key, x);
      } else {
        NoneWithKey(xs, key, k);
        NoneWithKey(ys, key, k);
      }
    }
    SortsAgree(xs, ys, key, leq);
  }

  /** With a key that tells entries apart, sorting forgets exactly the order. */
  lemma SortsAgreeOnPermutations<T(!new), K(!new)>(xs: seq<T>, ys: seq<T>, key: T -> K, leq: (K, K) -> bool)
    requires TotalOrder(leq)
    requires forall a, b :: key(a) == key(b) ==> a == b
    ensures SortBy(xs, key, leq) == SortBy(ys, key, leq) <==> multiset(xs) == multiset(ys)
  {
    if multiset(xs) == multiset(ys) {
      PermutedSorts(xs, ys, key, leq);
    }
    if SortBy(xs, key, leq) == SortBy(ys, key, leq) {
      assert multiset(SortBy(xs, key, leq)) == multiset(xs) && multiset(SortBy(ys, key, leq)) == multiset(ys);
    }
  }

  /** How often a key occurs is the length of its slice. */
  lemma {:induction false} SliceLength<T, K(!new)>(xs: seq<T>, keys: seq<K>, key: T -> K, k: K)
    requires |keys| == |xs| && forall i | 0 <= i < |xs| :: keys[i] == key(xs[i])
    ensures |WithKey(xs, key, k)| == multiset(keys)[k]
  {
    if xs != [] {
      SliceLength(xs[1..], keys[1..], key, k);
      assert keys == [keys[0]] + keys[1..];
    }
  }

  function Map<T, U>(xs: seq<T>, f: T -> U): (ys: seq<U>) {
    seq(|xs|, i requires 0 <= i < |xs| => f(xs[i]))
  }

  lemma MapAppend<T, U>(xs: seq<T>, x: T, f: T -> U)
    ensures Map(xs + [x], f) == Map(xs, f) + [f(x)]
  {
  }

  lemma MapCons<T, U>(x: T, xs: seq<T>, f: T -> U)
    ensures Map([x] + xs, f) == [f(x)] + Map(xs, f)
  {
  }

  lemma {:induction false} InsertMapped<T, U, K(!new)>(x: T, xs: seq<T>, f: T -> U, key: T -> K, mapped: U -> K,
                                                           leq: (K, K) -> bool)
    requires mapped(f(x)) == key(x) && forall y | y in xs :: mapped(f(y)) == key(y)
    ensures Map(Insert(x, xs, key, leq), f) == Insert(f(x), Map(xs, f), mapped, leq)
  {
    MapCons(x, xs, f);
    if xs != [] {
      var tail := xs[1..];
      assert xs == [xs[0]] + tail;
      MapCons(xs[0], tail, f);
      assert mapped(f(xs[0])) == key(xs[0]);
      assert Map(xs, f)[0] == f(xs[0]) && Map(xs, f)[1..] == Map(tail, f);
      if !leq(key(x), key(xs[0])) {
        InsertMapped(x, tail, f, key, mapped, leq);
        MapCons(xs[0], Insert(x, tail, key, leq), f);
      }
    }
  }

  lemma SortCons<T, K>(x: T, xs: seq<T>, key: T -> K, leq: (K, K) -> bool)
    ensures SortBy([x] + xs, key, leq) == Insert(x, SortBy(xs, key, leq), key, leq)
  {
    assert ([x] + xs)[1..] == xs;
  }

  /** Sorting by the key of the image, then mapping, is mapping, then sorting. */
  lemma {:induction false} SortMapped<T, U, K(!new)>(xs: seq<T>, f: T -> U, key: T -> K, mapped: U -> K,
                                                     leq: (K, K) -> bool)
    requires forall y | y in xs :: mapped(f(y)) == key(y)
    ensures Map(SortBy(xs, key, leq), f) == SortBy(Map(xs, f), mapped, leq)
  {
    if xs != [] {
      var x, tail := xs[0], xs[1..];
      var sorted := SortBy(tail, key, leq);
      assert xs == [x] + tail;
      MapCons(x, tail, f);
      SortCons(x, tail, key, leq);
      SortCons(f(x), Map(tail, f), mapped, leq);
      SortMapped(tail, f, key, mapped, leq);
      forall y | y in sorted ensures mapped(f(y)) == key(y) {
        assert y in multiset(sorted) && y in multiset(tail);
      }
      InsertMapped(x, sorted, f, key, mapped, leq);
    }
  }

  ghost predicate ImagesMatch<T, U>(xs: seq<T>, ys: seq<T>, f: T -> U, p: seq<nat>) {
    |xs| == |ys| && IsRearrangement(p, |xs|) && forall i | 0 <= i < |xs| :: f(xs[i]) == f(ys[p[i]])
  }

  /** Two lists have the same images up to order exactly when their entries pair off with equal images. */
  lemma ImagesPairOff<T, U>(xs: seq<T>, ys: seq<T>, f: T -> U)
    ensures multiset(Map(xs, f)) == multiset(Map(ys, f)) <==> exists p :: ImagesMatch(xs, ys, f, p)
  {
    var mx, my := Map(xs, f), Map(ys, f);
    if multiset(mx) == multiset(my) {
      var p := FindRearrangement(mx, my);
      forall i | 0 <= i < |xs| ensures f(xs[i]) == f(ys[p[i]]) {
        assert mx[i] == my[p[i]];
      }
      assert ImagesMatch(xs, ys, f, p);
    }
    if p :| ImagesMatch(xs, ys, f, p) {
      assert Rearranged(mx, my, p);
      RearrangedMultiset(mx, my, p);
    }
  }

  /** When keys differ, an entry under the key of x is the one x is paired with. */
  lemma PartnerByKey<T, K(!new)>(xs: seq<T>, ys: seq<T>, key: T -> K, p: seq<nat>, x: T, y: T)
    requires Rearranged(Map(xs, key), Map(ys, key), p) && Distinct(Map(ys, key))
    requires x in xs && y in ys && key(x) == key(y)
    ensures exists i :: 0 <= i < |xs| && xs[i] == x && ys[p[i]] == y
  {
    var i :| 0 <= i < |xs| && xs[i] == x;
    var j :| 0 <= j < |ys| && ys[j] == y;
    assert Map(xs, key)[i] == Map(ys, key)[p[i]];
    SamePlace(Map(ys, key), p[i], j);
  }
}
