/** Lists without repetition and lists up to reordering. */
module Sequences {

  /** No value occurs twice. */
  ghost predicate Distinct<T>(xs: seq<T>) {
    forall i, j | 0 <= i < j < |xs| :: xs[i] != xs[j]
  }

  /** `new Set(xs).size === xs.length` */
  predicate AllDifferent<T(==)>(xs: seq<T>)
    ensures AllDifferent(xs) <==> Distinct(xs)
  {
    if xs == [] then true
    else
      assert xs == [xs[0]] + xs[1..];
      assert xs[0] !in xs[1..] && Distinct(xs[1..]) ==> Distinct(xs);
      assert Distinct(xs) ==> xs[0] !in xs[1..] by {
        assert forall k | 0 <= k < |xs[1..]| :: xs[1..][k] == xs[k + 1];
      }
      assert Distinct(xs) ==> Distinct(xs[1..]);
      xs[0] !in xs[1..] && AllDifferent(xs[1..])
  }

  function Without<T>(xs: seq<T>, j: nat): seq<T>
    requires j < |xs|
  {
    xs[..j] + xs[j + 1..]
  }

  lemma WithoutMultiset<T>(xs: seq<T>, j: nat)
    requires j < |xs|
    ensures multiset(xs) == multiset(Without(xs, j)) + multiset{xs[j]}
    ensures multiset(Without(xs, j)) == multiset(xs) - multiset{xs[j]}
  {
    assert xs == xs[..j] + [xs[j]] + xs[j + 1..];
  }

  lemma WithoutAppend<T>(xs: seq<T>, x: T, j: nat)
    requires j < |xs|
    ensures Without(xs + [x], j) == Without(xs, j) + [x]
  {
  }

  lemma {:induction false} DistinctOnce<T>(xs: seq<T>, x: T)
    requires Distinct(xs)
    ensures multiset(xs)[x] <= 1
  {
    if xs != [] {
      assert xs == [xs[0]] + xs[1..];
      DistinctOnce(xs[1..], x);
      assert xs[0] !in xs[1..];
    }
  }

  lemma DistinctByMultiset<T>(xs: seq<T>, ys: seq<T>)
    requires multiset(xs) == multiset(ys) && Distinct(xs)
    ensures Distinct(ys)
  {
    forall i, j | 0 <= i < j < |ys| ensures ys[i] != ys[j] {
      DistinctOnce(xs, ys[j]);
      assert ys == ys[..j] + [ys[j]] + ys[j + 1..];
      assert ys[..j][i] == ys[i];
    }
  }

  lemma SamePlace<T>(xs: seq<T>, i: nat, j: nat)
    requires Distinct(xs) && i < |xs| && j < |xs| && xs[i] == xs[j]
    ensures i == j
  {
  }

  lemma DifferentPlaces<T>(xs: seq<T>, i: nat, j: nat)
    requires Distinct(xs) && i < |xs| && j < |xs| && i != j
    ensures xs[i] != xs[j]
  {
  }

  lemma FrontMultiset<T>(a: T, b: T, rest: seq<T>, all: multiset<T>)
    requires all == multiset(rest) + multiset{a} + multiset{b}
    ensures multiset([a, b] + rest) == all && multiset([b, a] + rest) == all
  {
    assert multiset([a, b]) == multiset{a} + multiset{b} == multiset([b, a]);
  }

  /** Two entries of a list can be taken out of it. */
  lemma TakeTwo<T>(xs: seq<T>, a: T, b: T) returns (rest: seq<T>)
    requires a in xs && b in xs && a != b
    ensures multiset(xs) == multiset(rest) + multiset{a} + multiset{b}
  {
    var i :| 0 <= i < |xs| && xs[i] == a;
    var others := Without(xs, i);
    WithoutMultiset(xs, i);
    StillThere(xs, i, b);
    var j :| 0 <= j < |others| && others[j] == b;
    rest := Without(others, j);
    WithoutMultiset(others, j);
  }

  lemma StillThere<T>(xs: seq<T>, i: nat, b: T)
    requires i < |xs| && b in xs && b != xs[i]
    ensures b in Without(xs, i)
  {
    WithoutMultiset(xs, i);
    assert b in multiset(xs) && b in multiset(Without(xs, i));
  }

  function Elements<T>(xs: seq<T>): set<T> {
    set x | x in xs
  }

  lemma {:induction false} DistinctSize<T>(xs: seq<T>)
    ensures |Elements(xs)| <= |xs|
    ensures |Elements(xs)| == |xs| <==> Distinct(xs)
  {
    if xs != [] {
      DistinctSize(xs[1..]);
      assert xs == [xs[0]] + xs[1..];
      assert Elements(xs) == {xs[0]} + Elements(xs[1..]);
      if xs[0] in xs[1..] {
        assert Elements(xs) == Elements(xs[1..]);
      }
      assert AllDifferent(xs) <==> xs[0] !in xs[1..] && AllDifferent(xs[1..]);
    }
  }

  // ---- Sums over a list -------------------------------------------------------------------

  /** What the entries contribute together. */
  ghost function Collected<T, U>(xs: seq<T>, bag: T -> multiset<U>): multiset<U> {
    if xs == [] then multiset{} else Collected(xs[..|xs| - 1], bag) + bag(xs[|xs| - 1])
  }

  lemma {:induction false} CollectedMember<T, U>(xs: seq<T>, f: T -> multiset<U>, u: U)
    ensures u in Collected(xs, f) <==> exists i | 0 <= i < |xs| :: u in f(xs[i])
  {
    if xs != [] {
      var n := |xs| - 1;
      CollectedMember(xs[..n], f, u);
      assert forall i | 0 <= i < n :: xs[..n][i] == xs[i];
    }
  }

  lemma CollectedAppend<T, U>(xs: seq<T>, x: T, bag: T -> multiset<U>)
    ensures Collected(xs + [x], bag) == Collected(xs, bag) + bag(x)
  {
    assert (xs + [x])[..|xs|] == xs;
  }

  lemma {:induction false} CollectedWithout<T, U>(xs: seq<T>, j: nat, bag: T -> multiset<U>)
    requires j < |xs|
    ensures Collected(xs, bag) == Collected(Without(xs, j), bag) + bag(xs[j])
  {
    var n := |xs| - 1;
    if j == n {
      assert Without(xs, j) == xs[..n];
    } else {
      assert xs == xs[..n] + [xs[n]];
      WithoutAppend(xs[..n], xs[n], j);
      CollectedWithout(xs[..n], j, bag);
      CollectedAppend(Without(xs[..n], j), xs[n], bag);
    }
  }

  /** Contributions add up the same in every order. */
  lemma {:induction false} CollectedPermutes<T, U>(xs: seq<T>, ys: seq<T>, bag: T -> multiset<U>)
    requires multiset(xs) == multiset(ys)
    ensures Collected(xs, bag) == Collected(ys, bag)
  {
    if xs == [] {
      assert |multiset(ys)| == 0;
    } else {
      var n := |xs| - 1;
      assert xs == xs[..n] + [xs[n]];
      assert xs[n] in multiset(ys);
      var j :| 0 <= j < |ys| && ys[j] == xs[n];
      WithoutMultiset(ys, j);
      CollectedPermutes(xs[..n], Without(ys, j), bag);
      CollectedWithout(ys, j, bag);
    }
  }

  lemma {:induction false} CollectedAgree<T, U>(xs: seq<T>, ys: seq<T>, bag: T -> multiset<U>)
    requires |xs| == |ys| && forall i | 0 <= i < |xs| :: bag(xs[i]) == bag(ys[i])
    ensures Collected(xs, bag) == Collected(ys, bag)
  {
    if xs != [] {
      CollectedAgree(xs[..|xs| - 1], ys[..|ys| - 1], bag);
    }
  }

  // ---- Rearrangements ---------------------------------------------------------------------

  /** p sends every position below n to a position of its own. */
  ghost predicate IsRearrangement(p: seq<nat>, n: nat) {
    |p| == n && Distinct(p) && forall i | 0 <= i < n :: p[i] < n
  }

  ghost predicate Rearranged<T>(xs: seq<T>, ys: seq<T>, p: seq<nat>) {
    |xs| == |ys| && IsRearrangement(p, |xs|) && forall i | 0 <= i < |xs| :: xs[i] == ys[p[i]]
  }

  /** Positions of a list with position j taken out, seen in the whole list, and back. */
  function Raise(q: seq<nat>, j: nat): (r: seq<nat>) {
    seq(|q|, i requires 0 <= i < |q| => if q[i] < j then q[i] else q[i] + 1)
  }

  function Lower(p: seq<nat>, j: nat): (r: seq<nat>)
    requires forall i | 0 <= i < |p| :: p[i] != j
  {
    seq(|p|, i requires 0 <= i < |p| => if p[i] <= j then p[i] else p[i] - 1)
  }

  lemma Raised(q: seq<nat>, n: nat, j: nat)
    requires IsRearrangement(q, n) && j <= n
    ensures IsRearrangement(Raise(q, j) + [j], n + 1)
  {
    var r := Raise(q, j);
    forall a, b | 0 <= a < b < n ensures r[a] != r[b] && r[a] != j && r[b] != j {
      assert q[a] != q[b];
    }
    assert n > 0 ==> r[0] != j;
  }

  lemma Lowered(p: seq<nat>, n: nat)
    requires IsRearrangement(p, n + 1)
    ensures forall i | 0 <= i < n :: p[..n][i] != p[n]
    ensures IsRearrangement(Lower(p[..n], p[n]), n)
  {
    var j := p[n];
    assert forall i | 0 <= i < n :: p[i] != p[n] && p[..n][i] == p[i];
    var r := Lower(p[..n], j);
    forall a, b | 0 <= a < b < n ensures r[a] != r[b] {
      assert p[a] != p[b];
    }
    forall i | 0 <= i < n ensures r[i] < n {
      assert p[i] <= n && j <= n;
    }
  }

  lemma RearrangedNext<T>(xs: seq<T>, ys: seq<T>, j: nat, q: seq<nat>)
    requires xs != [] && j < |ys| && ys[j] == xs[|xs| - 1] && Rearranged(xs[..|xs| - 1], Without(ys, j), q)
    ensures Rearranged(xs, ys, Raise(q, j) + [j])
  {
    var n := |xs| - 1;
    var p := Raise(q, j) + [j];
    Raised(q, n, j);
    forall i | 0 <= i < n ensures xs[i] == ys[p[i]] {
      assert xs[..n][i] == Without(ys, j)[q[i]];
    }
  }

  lemma LastMultiset<T>(xs: seq<T>)
    requires xs != []
    ensures multiset(xs) == multiset(xs[..|xs| - 1]) + multiset{xs[|xs| - 1]}
  {
    assert xs == xs[..|xs| - 1] + [xs[|xs| - 1]];
  }

  lemma FindIn<T>(xs: seq<T>, ys: seq<T>, x: T) returns (j: nat)
    requires multiset(xs) == multiset(ys) && x in xs
    ensures j < |ys| && ys[j] == x
  {
    assert x in multiset(ys);
    j :| 0 <= j < |ys| && ys[j] == x;
  }

  lemma SameLength<T>(xs: seq<T>, ys: seq<T>)
    requires multiset(xs) == multiset(ys)
    ensures |xs| == |ys|
  {
    assert |xs| == |multiset(xs)| == |multiset(ys)| == |ys|;
  }

  lemma {:induction false} FindRearrangement<T>(xs: seq<T>, ys: seq<T>) returns (p: seq<nat>)
    requires multiset(xs) == multiset(ys)
    ensures Rearranged(xs, ys, p)
  {
    SameLength(xs, ys);
    if xs == [] {
      p := [];
    } else {
      var n := |xs| - 1;
      var j := FindIn(xs, ys, xs[n]);
      LastMultiset(xs);
      WithoutMultiset(ys, j);
      var q := FindRearrangement(xs[..n], Without(ys, j));
      RearrangedNext(xs, ys, j, q);
      p := Raise(q, j) + [j];
    }
  }

  lemma LoweredPairs<T>(xs: seq<T>, ys: seq<T>, p: seq<nat>, n: nat)
    requires Rearranged(xs, ys, p) && |xs| == n + 1
    ensures forall i | 0 <= i < n :: p[..n][i] != p[n]
    ensures Rearranged(xs[..n], Without(ys, p[n]), Lower(p[..n], p[n]))
  {
    var j := p[n];
    Lowered(p, n);
    var q := Lower(p[..n], j);
    forall i | 0 <= i < n ensures xs[..n][i] == Without(ys, j)[q[i]] {
      assert p[..n][i] == p[i] != j;
      assert xs[i] == ys[p[i]];
    }
  }

  lemma {:induction false} RearrangedMultiset<T>(xs: seq<T>, ys: seq<T>, p: seq<nat>)
    requires Rearranged(xs, ys, p)
    ensures multiset(xs) == multiset(ys)
  {
    if xs != [] {
      var n := |xs| - 1;
      LoweredPairs(xs, ys, p, n);
      RearrangedMultiset(xs[..n], Without(ys, p[n]), Lower(p[..n], p[n]));
      WithoutMultiset(ys, p[n]);
      LastMultiset(xs);
    }
  }
}
