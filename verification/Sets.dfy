/** Small facts about finite sets that SQL aggregates rely on. */
module Sets {

  predicate IsMin(s: set<nat>, m: nat) {
    m in s && forall x | x in s :: m <= x
  }

  /** min(...) over the ids of a group; UUID text sorts as the number it spells. */
  function MinOf(s: set<nat>): (m: nat)
    requires s != {}
    ensures IsMin(s, m)
  {
    HasMin(s);
    var m :| m in s && IsMin(s, m);
    m
  }

  lemma {:induction false} HasMin(s: set<nat>)
    requires s != {}
    ensures exists m :: m in s && IsMin(s, m)
  {
    var x :| x in s;
    var rest := s - {x};
    if rest == {} {
      assert s == {x};
      assert IsMin(s, x);
    } else {
      HasMin(rest);
      var m :| m in rest && IsMin(rest, m);
      assert forall y | y in s :: y == x || y in rest;
      assert IsMin(s, if x < m then x else m);
    }
  }

  lemma {:induction false} SubsetSize<T>(s: set<T>, t: set<T>)
    requires s <= t
    ensures |s| <= |t|
    ensures |s| == |t| ==> s == t
  {
    if x :| x in s {
      SubsetSize(s - {x}, t - {x});
      assert s == (s - {x}) + {x} && t == (t - {x}) + {x};
    }
  }

  /** count(DISTINCT ...) <= 1, said of the values themselves. */
  lemma AtMostOneValue<T>(s: set<T>)
    ensures |s| <= 1 <==> forall x, y | x in s && y in s :: x == y
  {
    if x :| x in s {
      if |s| <= 1 {
        SubsetSize({x}, s);
      }
      assert (forall a | a in s :: a == x) ==> s == {x};
    }
  }

  /** count(*) > 1 for the group of x: somebody else is in it. */
  lemma MoreThanOne<T>(s: set<T>, x: T)
    requires x in s
    ensures |s| > 1 <==> exists y :: y in s && y != x
  {
    if y :| y in s && y != x {
      SubsetSize({x, y}, s);
    } else {
      assert s == {x};
    }
  }
}
