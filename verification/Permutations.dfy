/** Lists of numbers that hold every number below their length once, and walks through them in order. */
module Permutations {
  import opened Sequences
  import Sorting

  /** Where a number stands in a list. */
  function Place(xs: seq<nat>, i: nat): (k: nat)
    requires i in xs
    ensures k < |xs| && xs[k] == i
  {
    if xs[0] == i then 0 else 1 + Place(xs[1..], i)
  }

  /** Every number below the length occurs, exactly once. */
  ghost predicate IsPermutation(xs: seq<nat>) {
    Distinct(xs) && (forall i: nat | i < |xs| :: i in xs) && (forall k | 0 <= k < |xs| :: xs[k] < |xs|)
  }

  // ---- Sorted indices ---------------------------------------------------------------------

  predicate IsIota(xs: seq<nat>) {
    forall i | 0 <= i < |xs| :: xs[i] == i
  }

  /** `.sort((left, right) => left - right)` */
  function Sorted(xs: seq<nat>): seq<nat> {
    Sorting.SortBy(xs, (x: nat) => x, (x: nat, y: nat) => x <= y)
  }

  function Iota(n: nat): (xs: seq<nat>)
    ensures |xs| == n && IsIota(xs)
  {
    seq(n, i requires 0 <= i < n => i)
  }

  lemma InIota(n: nat, i: nat)
    ensures multiset(Iota(n))[i] == if i < n then 1 else 0
  {
    DistinctOnce(Iota(n), i);
    if i < n {
      assert Iota(n)[i] == i;
      assert i in multiset(Iota(n));
    } else {
      assert i !in Iota(n);
    }
  }

  lemma PermutationByMembers(xs: seq<nat>, n: nat)
    requires Distinct(xs) && forall i: nat :: i in xs <==> i < n
    ensures multiset(xs) == multiset(Iota(n)) && |xs| == n && IsPermutation(xs)
  {
    forall i: nat ensures multiset(xs)[i] == multiset(Iota(n))[i] {
      DistinctOnce(xs, i);
      InIota(n, i);
      assert i in xs <==> i in multiset(xs);
    }
    assert multiset(xs) == multiset(Iota(n));
    assert |xs| == |multiset(xs)| == |multiset(Iota(n))| == n;
    assert forall k | 0 <= k < |xs| :: xs[k] in xs;
  }

  lemma PermutationMembers(xs: seq<nat>, i: nat)
    requires IsPermutation(xs)
    ensures i in xs <==> i < |xs|
  {
  }

  lemma Occurrences(xs: seq<nat>, n: nat, i: nat)
    requires multiset(xs) == multiset(Iota(n))
    ensures i in xs <==> i < n
  {
    InIota(n, i);
    assert i in xs <==> i in multiset(xs);
  }

  lemma IotaIsPermutation(xs: seq<nat>)
    requires multiset(xs) == multiset(Iota(|xs|))
    ensures IsPermutation(xs)
  {
    DistinctByMultiset(Iota(|xs|), xs);
    forall i: nat ensures i in xs <==> i < |xs| {
      Occurrences(xs, |xs|, i);
    }
    PermutationByMembers(xs, |xs|);
  }

  /** A list whose sorted form counts up from zero is a permutation, and conversely. */
  lemma SortedIota(xs: seq<nat>)
    ensures IsIota(Sorted(xs)) <==> IsPermutation(xs)
  {
    assert |Sorted(xs)| == |multiset(Sorted(xs))| == |xs|;
    if IsIota(Sorted(xs)) {
      assert Sorted(xs) == Iota(|xs|);
      IotaIsPermutation(xs);
    }
    if IsPermutation(xs) {
      forall i: nat ensures i in xs <==> i < |xs| {
        PermutationMembers(xs, i);
      }
      PermutationByMembers(xs, |xs|);
      SortedAsIota(xs);
    }
  }

  lemma SortedAsIota(xs: seq<nat>)
    requires multiset(xs) == multiset(Iota(|xs|))
    ensures Sorted(xs) == Iota(|xs|)
  {
    var key, leq := (x: nat) => x, (x: nat, y: nat) => x <= y;
    var iota := Iota(|xs|);
    Sorting.SortsAgreeOnPermutations(xs, iota, key, leq);
    Sorting.SortBySorted(iota, key, leq);
    Sorting.StableForEveryKey(iota, key, leq);
    Sorting.SortedUnique(Sorting.SortBy(iota, key, leq), iota, key, leq);
    assert Sorted(xs) == Sorting.SortBy(xs, key, leq);
  }

  // ---- Walking through a permutation ------------------------------------------------------

  ghost predicate AscendsFrom(xs: seq<nat>, t: nat) {
    forall a, b | t <= a < b < |xs| :: xs[a] < xs[b]
  }

  /** Of the entries from t on, those below i are the ones that stand before m. */
  ghost predicate Passed(xs: seq<nat>, t: nat, i: nat, m: nat) {
    t <= m <= |xs| && forall a | t <= a < |xs| :: a < m <==> xs[a] < i
  }

  /** A number standing before t is passed by none of the later entries. */
  lemma PassEarly(xs: seq<nat>, t: nat, i: nat, m: nat)
    requires IsPermutation(xs) && Passed(xs, t, i, m) && i < |xs| && Place(xs, i) < t
    ensures Passed(xs, t, i + 1, m)
  {
    var k := Place(xs, i);
    assert forall a | t <= a < |xs| :: xs[a] != xs[k];
  }

  /** A number standing from t on is the entry at m, which is passed next. */
  lemma PassLate(xs: seq<nat>, t: nat, i: nat, m: nat)
    requires IsPermutation(xs) && AscendsFrom(xs, t) && Passed(xs, t, i, m) && i < |xs| && Place(xs, i) >= t
    ensures Place(xs, i) == m && Passed(xs, t, i + 1, m + 1)
  {
    var k := Place(xs, i);
    var a := if m < k then m else k;
    assert a < m <==> xs[a] < i;
    forall b | t <= b < |xs| ensures b < m + 1 <==> xs[b] < i + 1 {
      assert xs[b] == xs[k] ==> b == k;
    }
  }

  /** In the end everything is passed. */
  lemma PassAll(xs: seq<nat>, t: nat, m: nat)
    requires IsPermutation(xs) && Passed(xs, t, |xs|, m)
    ensures m == |xs|
  {
    if t < |xs| {
      var last := |xs| - 1;
      assert xs[last] < |xs|;
      assert last < m <==> xs[last] < |xs|;
    }
  }
}
