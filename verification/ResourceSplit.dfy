/**
 Splitting a list of resources by the keys a task names, and putting it together again, in terms of
 positions alone.
 */
module ResourceSplit {
  import opened Permutations
  import opened Sequences
  import opened Wrappers

  datatype Resource = Resource(key: string, kind: string, required: bool, access: string,
                               capabilities: Option<seq<string>>, guidance: Option<string>)

  function Names(resources: seq<Resource>): seq<string> {
    seq(|resources|, i requires 0 <= i < |resources| => resources[i].key)
  }

  lemma SamePosition(original: seq<Resource>, i: nat, j: nat)
    requires Distinct(Names(original)) && i < |original| && j < |original| && original[i].key == original[j].key
    ensures i == j
  {
    SamePlace(Names(original), i, j);
  }

  // ---- The split --------------------------------------------------------------------------

  /** The position of the first resource with this key. */
  function Position(original: seq<Resource>, key: string): (i: nat)
    ensures i <= |original|
    ensures i < |original| ==> original[i].key == key
    ensures forall j | 0 <= j < i :: original[j].key != key
  {
    if original == [] then 0
    else if original[0].key == key then 0
    else
      var i := 1 + Position(original[1..], key);
      assert forall j | 0 < j < i :: original[j] == original[1..][j - 1];
      i
  }

  predicate Contains(original: seq<Resource>, key: string) {
    Position(original, key) < |original|
  }

  predicate ContainsAll(original: seq<Resource>, keys: seq<string>) {
    forall i | 0 <= i < |keys| :: Contains(original, keys[i])
  }

  /** The task names its resources in its own order. */
  function TaskIndices(original: seq<Resource>, keys: seq<string>): (indices: seq<nat>)
    requires ContainsAll(original, keys)
    ensures forall k | 0 <= k < |indices| :: indices[k] < |original|
  {
    seq(|keys|, i requires 0 <= i < |keys| && Contains(original, keys[i]) => Position(original, keys[i]))
  }

  /** From position i on, everything the task does not name, in the original order. */
  function SharedIndices(original: seq<Resource>, keys: seq<string>, i: nat): (indices: seq<nat>)
    requires i <= |original|
    ensures forall k | 0 <= k < |indices| :: i <= indices[k] < |original|
    decreases |original| - i
  {
    if i == |original| then []
    else (if original[i].key in keys then [] else [i]) + SharedIndices(original, keys, i + 1)
  }

  /** The positions in the order in which the split lists them. */
  function SplitIndices(original: seq<Resource>, keys: seq<string>): (xs: seq<nat>)
    requires ContainsAll(original, keys)
    ensures forall k | 0 <= k < |xs| :: xs[k] < |original|
  {
    TaskIndices(original, keys) + SharedIndices(original, keys, 0)
  }

  // ---- Putting the list back together -----------------------------------------------------

  predicate Covers(xs: seq<nat>) {
    forall i: nat | i < |xs| :: i in xs
  }

  /** The value whose index is i, placed at i. */
  function MergeBy(values: seq<Resource>, xs: seq<nat>): (original: seq<Resource>)
    requires |values| == |xs| && Covers(xs)
    ensures |original| == |values|
  {
    seq(|xs|, (i: nat) requires i < |xs| && i in xs => values[Place(xs, i)])
  }

  lemma MergedByAt(values: seq<Resource>, xs: seq<nat>, k: nat)
    requires |values| == |xs| && IsPermutation(xs) && k < |xs|
    ensures MergeBy(values, xs)[xs[k]] == values[k]
  {
    SamePlace(xs, Place(xs, xs[k]), k);
  }

  lemma MergedDistinct(values: seq<Resource>, xs: seq<nat>)
    requires |values| == |xs| && IsPermutation(xs) && Distinct(Names(values))
    ensures Distinct(Names(MergeBy(values, xs)))
  {
    var names := Names(MergeBy(values, xs));
    forall a, b | 0 <= a < b < |names| ensures names[a] != names[b] {
      assert names[a] == Names(values)[Place(xs, a)] && names[b] == Names(values)[Place(xs, b)];
      assert xs[Place(xs, a)] != xs[Place(xs, b)];
    }
  }

  lemma MergedHolds(values: seq<Resource>, xs: seq<nat>, k: nat)
    requires |values| == |xs| && IsPermutation(xs) && k < |xs|
    ensures values[k].key in Names(MergeBy(values, xs))
  {
    MergedByAt(values, xs, k);
    assert Names(MergeBy(values, xs))[xs[k]] == values[k].key;
  }

  lemma MergedPosition(values: seq<Resource>, xs: seq<nat>, k: nat)
    requires |values| == |xs| && IsPermutation(xs) && Distinct(Names(values)) && k < |xs|
    ensures Position(MergeBy(values, xs), values[k].key) == xs[k]
  {
    var original := MergeBy(values, xs);
    MergedByAt(values, xs, k);
    MergedDistinct(values, xs);
    assert Position(original, values[k].key) <= xs[k];
    SamePosition(original, Position(original, values[k].key), xs[k]);
  }

  /** The task's part comes first, and its resources are the ones it names. */
  ghost predicate TaskFirst(values: seq<Resource>, xs: seq<nat>, keys: seq<string>) {
    |values| == |xs| && IsPermutation(xs) && Distinct(Names(values)) && keys <= Names(values)
  }

  lemma NamedFirst(values: seq<Resource>, keys: seq<string>, k: nat)
    requires Distinct(Names(values)) && keys <= Names(values) && k < |values|
    ensures values[k].key in keys <==> k < |keys|
  {
    var names := Names(values);
    assert names[k] == values[k].key;
    if k < |keys| {
      assert keys[k] == names[k];
    }
    if values[k].key in keys {
      var j :| 0 <= j < |keys| && keys[j] == names[k];
      SamePlace(names, j, k);
    }
  }

  lemma MergedTask(values: seq<Resource>, xs: seq<nat>, keys: seq<string>)
    requires TaskFirst(values, xs, keys)
    ensures ContainsAll(MergeBy(values, xs), keys)
    ensures TaskIndices(MergeBy(values, xs), keys) == xs[..|keys|]
  {
    var original := MergeBy(values, xs);
    forall j | 0 <= j < |keys| ensures Position(original, keys[j]) == xs[j] < |original| {
      assert keys[j] == Names(values)[j] == values[j].key;
      MergedPosition(values, xs, j);
    }
  }

  lemma MergedNamed(values: seq<Resource>, xs: seq<nat>, keys: seq<string>, i: nat)
    requires TaskFirst(values, xs, keys) && i < |xs|
    ensures MergeBy(values, xs)[i].key in keys <==> Place(xs, i) < |keys|
  {
    MergedByAt(values, xs, Place(xs, i));
    NamedFirst(values, keys, Place(xs, i));
  }

  lemma Tail(xs: seq<nat>, m: nat)
    requires m < |xs|
    ensures xs[m..] == [xs[m]] + xs[m + 1..]
  {
  }

  /** From position i on, the shared positions are the indices from m on. */
  lemma {:induction false} SharedAgrees(values: seq<Resource>, xs: seq<nat>, keys: seq<string>, i: nat, m: nat)
    requires TaskFirst(values, xs, keys) && AscendsFrom(xs, |keys|) && i <= |xs| && Passed(xs, |keys|, i, m)
    ensures SharedIndices(MergeBy(values, xs), keys, i) == xs[m..]
    decreases |xs| - i
  {
    var t := |keys|;
    if i == |xs| {
      PassAll(xs, t, m);
    } else {
      MergedNamed(values, xs, keys, i);
      if Place(xs, i) < t {
        PassEarly(xs, t, i, m);
        SharedAgrees(values, xs, keys, i + 1, m);
      } else {
        PassLate(xs, t, i, m);
        SharedAgrees(values, xs, keys, i + 1, m + 1);
        Tail(xs, m);
      }
    }
  }

  lemma MergedShared(values: seq<Resource>, xs: seq<nat>, keys: seq<string>)
    requires TaskFirst(values, xs, keys) && AscendsFrom(xs, |keys|)
    ensures SharedIndices(MergeBy(values, xs), keys, 0) == xs[|keys|..]
  {
    SharedAgrees(values, xs, keys, 0, |keys|);
  }

  // ---- The split covers the list ----------------------------------------------------------

  lemma {:induction false} SharedMembers(original: seq<Resource>, keys: seq<string>, i: nat, j: nat)
    requires i <= |original|
    ensures j in SharedIndices(original, keys, i) <==> i <= j < |original| && original[j].key !in keys
    decreases |original| - i
  {
    if i < |original| {
      SharedMembers(original, keys, i + 1, j);
    }
  }

  lemma {:induction false} SharedAscends(original: seq<Resource>, keys: seq<string>, i: nat)
    requires i <= |original|
    ensures AscendsFrom(SharedIndices(original, keys, i), 0)
    decreases |original| - i
  {
    if i < |original| {
      SharedAscends(original, keys, i + 1);
    }
  }

  lemma AscendingDiffers(xs: seq<nat>)
    requires AscendsFrom(xs, 0)
    ensures Distinct(xs)
  {
  }

  lemma TaskMembers(original: seq<Resource>, keys: seq<string>, j: nat)
    requires Distinct(Names(original)) && ContainsAll(original, keys)
    ensures j in TaskIndices(original, keys) <==> j < |original| && original[j].key in keys
  {
    var xs := TaskIndices(original, keys);
    if j < |original| && original[j].key in keys {
      var k :| 0 <= k < |keys| && keys[k] == original[j].key;
      assert Contains(original, keys[k]) && xs[k] == Position(original, keys[k]);
      SamePosition(original, xs[k], j);
    }
    if j in xs {
      var k :| 0 <= k < |keys| && xs[k] == j;
      assert Contains(original, keys[k]) && original[j].key == keys[k];
    }
  }

  lemma TaskDiffers(original: seq<Resource>, keys: seq<string>)
    requires Distinct(keys) && ContainsAll(original, keys)
    ensures Distinct(TaskIndices(original, keys))
  {
    var xs := TaskIndices(original, keys);
    forall a, b | 0 <= a < b < |xs| ensures xs[a] != xs[b] {
      assert Contains(original, keys[a]) && original[xs[a]].key == keys[a];
      assert Contains(original, keys[b]) && original[xs[b]].key == keys[b];
    }
  }

  lemma JoinedDistinct(xs: seq<nat>, ys: seq<nat>)
    requires Distinct(xs) && Distinct(ys) && forall x | x in xs :: x !in ys
    ensures Distinct(xs + ys)
  {
    forall a, b | 0 <= a < b < |xs| + |ys| ensures (xs + ys)[a] != (xs + ys)[b] {
      if a < |xs| <= b {
        assert xs[a] in xs && ys[b - |xs|] in ys;
      }
    }
  }

  /** The two parts together name every position once. */
  lemma SplitPermutes(original: seq<Resource>, keys: seq<string>)
    requires Distinct(Names(original)) && Distinct(keys) && ContainsAll(original, keys)
    ensures |SplitIndices(original, keys)| == |original| && IsPermutation(SplitIndices(original, keys))
  {
    var task, shared := TaskIndices(original, keys), SharedIndices(original, keys, 0);
    forall j: nat
      ensures j in task <==> j < |original| && original[j].key in keys
      ensures j in shared <==> j < |original| && original[j].key !in keys
    {
      TaskMembers(original, keys, j);
      SharedMembers(original, keys, 0, j);
    }
    TaskDiffers(original, keys);
    SharedAscends(original, keys, 0);
    AscendingDiffers(shared);
    JoinedDistinct(task, shared);
    PermutationByMembers(SplitIndices(original, keys), |original|);
  }

  function ValuesAt(original: seq<Resource>, xs: seq<nat>): seq<Resource>
    requires forall k | 0 <= k < |xs| :: xs[k] < |original|
  {
    seq(|xs|, k requires 0 <= k < |xs| && xs[k] < |original| => original[xs[k]])
  }

  lemma MergedBack(original: seq<Resource>, xs: seq<nat>)
    requires |original| == |xs| && IsPermutation(xs)
    ensures MergeBy(ValuesAt(original, xs), xs) == original
  {
    var values := ValuesAt(original, xs);
    forall i: nat | i < |xs| ensures values[Place(xs, i)] == original[i] {
      assert xs[Place(xs, i)] == i;
    }
  }

  lemma NamesAtDiffer(original: seq<Resource>, xs: seq<nat>)
    requires forall k | 0 <= k < |xs| :: xs[k] < |original|
    requires Distinct(xs) && Distinct(Names(original))
    ensures Distinct(Names(ValuesAt(original, xs)))
  {
    var names := Names(ValuesAt(original, xs));
    forall a, b | 0 <= a < b < |xs| ensures names[a] != names[b] {
      assert names[a] == Names(original)[xs[a]] && names[b] == Names(original)[xs[b]];
      DifferentPlaces(Names(original), xs[a], xs[b]);
    }
  }
}
