/**
 The plan of a task flow preview. The server splits one list of resource requirements into those the
 task names and those the Skill shares; the client accepts a plan only if the split can be undone.
 */
module TaskFlowPlan {
  import opened Permutations
  import opened ResourceSplit
  import opened Sequences
  import opened Wrappers
  import Text

  datatype Reference = Reference(ref: string, value: Resource)
  datatype Effect = Effect(mode: string, resourceKey: Option<string>)

  /** `keys` is the task's resource_keys, empty when it declares none. */
  datatype Plan = Plan(keys: seq<string>, task: seq<Reference>, shared: seq<Reference>, effects: Option<seq<Effect>>)

  const PREFIX := "/resource_requirements/"
  const MAX_RESOURCES: nat := 50

  // ---- References -------------------------------------------------------------------------

  /** A canonical index below the list bound, behind the fixed path. */
  predicate IsReference(ref: string) {
    && PREFIX <= ref && Text.IsCanonicalNumeral(ref[|PREFIX|..])
    && Text.Numeral(ref[|PREFIX|..]) < MAX_RESOURCES
  }

  function Index(ref: string): (i: nat)
    requires IsReference(ref)
    ensures i < MAX_RESOURCES
  {
    Text.Numeral(ref[|PREFIX|..])
  }

  function RefTo(i: nat): string {
    PREFIX + Text.Decimal(i)
  }

  /** Index and reference name each other: there is one accepted spelling of every index. */
  lemma ReferenceIsIndex(ref: string, i: nat)
    requires i < MAX_RESOURCES
    ensures ref == "/resource_requirements/" + Text.Decimal(i) <==> IsReference(ref) && Index(ref) == i
    ensures RefTo(i) == "/resource_requirements/" + Text.Decimal(i)
  {
    Text.DecimalRoundTrip(i);
    assert RefTo(i)[|PREFIX|..] == Text.Decimal(i);
    if IsReference(ref) {
      assert ref == PREFIX + ref[|PREFIX|..];
      Text.CanonicalNumeralIsDecimal(ref[|PREFIX|..]);
    }
  }

  // ---- The acceptor -----------------------------------------------------------------------

  predicate AllReferences(refs: seq<Reference>) {
    forall k | 0 <= k < |refs| :: IsReference(refs[k].ref)
  }

  function Indices(refs: seq<Reference>): seq<nat>
    requires AllReferences(refs)
  {
    seq(|refs|, i requires 0 <= i < |refs| => Index(refs[i].ref))
  }

  function Values(refs: seq<Reference>): seq<Resource> {
    seq(|refs|, i requires 0 <= i < |refs| => refs[i].value)
  }

  function Keys(refs: seq<Reference>): seq<string> {
    Names(Values(refs))
  }

  function Refs(refs: seq<Reference>): seq<string> {
    seq(|refs|, i requires 0 <= i < |refs| => refs[i].ref)
  }

  function All(p: Plan): seq<Reference> {
    p.task + p.shared
  }

  predicate EffectsResolve(p: Plan) {
    p.effects.Some? ==> forall e | e in p.effects.value && e.resourceKey.Some? :: e.resourceKey.value in Keys(All(p))
  }

  /** The checks that tie the parts of a plan together, each list already checked for its shape. */
  predicate Accepts(p: Plan) {
    && AllReferences(p.task) && AllReferences(p.shared)
    && Keys(p.task) == p.keys
    && |All(p)| <= MAX_RESOURCES
    && AllDifferent(Keys(All(p))) && AllDifferent(Refs(All(p)))
    && IsIota(Sorted(Indices(All(p))))
    && (forall i | 0 < i < |p.shared| :: Index(p.shared[i].ref) > Index(p.shared[i - 1].ref))
    && EffectsResolve(p)
  }

  // ---- The split the server makes ---------------------------------------------------------

  function ReferenceTo(original: seq<Resource>, i: nat): Reference
    requires i < |original|
  {
    Reference(RefTo(i), original[i])
  }

  /** The references to these positions. */
  function PartAt(original: seq<Resource>, indices: seq<nat>): seq<Reference>
    requires forall k | 0 <= k < |indices| :: indices[k] < |original|
  {
    seq(|indices|, k requires 0 <= k < |indices| && indices[k] < |original| => ReferenceTo(original, indices[k]))
  }

  function TaskPart(original: seq<Resource>, keys: seq<string>): seq<Reference>
    requires ContainsAll(original, keys)
  {
    PartAt(original, TaskIndices(original, keys))
  }

  function SharedPart(original: seq<Resource>, keys: seq<string>): seq<Reference> {
    PartAt(original, SharedIndices(original, keys, 0))
  }

  /** The resource each index refers to, placed at that index. */
  function Merge(refs: seq<Reference>): seq<Resource>
    requires AllReferences(refs) && Covers(Indices(refs))
  {
    MergeBy(Values(refs), Indices(refs))
  }

  // ---- Merge, then split ------------------------------------------------------------------

  lemma AllParts(p: Plan)
    requires AllReferences(p.task) && AllReferences(p.shared)
    ensures AllReferences(All(p)) && Indices(All(p)) == Indices(p.task) + Indices(p.shared)
    ensures Values(All(p)) == Values(p.task) + Values(p.shared) && Keys(All(p)) == Keys(p.task) + Keys(p.shared)
  {
  }

  lemma {:induction false} Ascending(xs: seq<nat>, a: nat, b: nat)
    requires a < b < |xs| && forall i | 0 < i < |xs| :: xs[i] > xs[i - 1]
    ensures xs[a] < xs[b]
    decreases b - a
  {
    if a + 1 < b {
      Ascending(xs, a, b - 1);
    }
  }

  lemma SharedAscends(p: Plan)
    requires Accepts(p)
    ensures AscendsFrom(Indices(p.shared), 0)
  {
    var ys := Indices(p.shared);
    forall a, b | 0 <= a < b < |ys| ensures ys[a] < ys[b] {
      Ascending(ys, a, b);
    }
  }

  lemma TailAscends(xs: seq<nat>, ys: seq<nat>)
    requires AscendsFrom(ys, 0)
    ensures AscendsFrom(xs + ys, |xs|)
  {
  }

  /** Where a reference points, and that the merged list holds its value there. */
  lemma MergedAt(refs: seq<Reference>, k: nat)
    requires AllReferences(refs) && IsPermutation(Indices(refs)) && k < |refs|
    ensures Index(refs[k].ref) < |refs| && ReferenceTo(Merge(refs), Index(refs[k].ref)) == refs[k]
  {
    var xs := Indices(refs);
    MergedByAt(Values(refs), xs, k);
    ReferenceIsIndex(refs[k].ref, xs[k]);
  }

  lemma PartOfMerged(refs: seq<Reference>, part: seq<Reference>)
    requires AllReferences(refs) && IsPermutation(Indices(refs)) && AllReferences(part)
    requires forall r | r in part :: r in refs
    ensures forall k | 0 <= k < |part| :: Indices(part)[k] < |refs|
    ensures PartAt(Merge(refs), Indices(part)) == part
  {
    var original := Merge(refs);
    forall k | 0 <= k < |part|
      ensures Index(part[k].ref) < |original| && ReferenceTo(original, Index(part[k].ref)) == part[k]
    {
      assert part[k] in refs;
      var j :| 0 <= j < |refs| && refs[j] == part[k];
      MergedAt(refs, j);
    }
  }

  /** The positions that the split of the merged list would give to the two parts. */
  lemma MergedPositions(p: Plan)
    requires Accepts(p)
    ensures AllReferences(All(p)) && IsPermutation(Indices(All(p)))
    ensures ContainsAll(Merge(All(p)), p.keys)
    ensures TaskIndices(Merge(All(p)), p.keys) == Indices(p.task)
    ensures SharedIndices(Merge(All(p)), p.keys, 0) == Indices(p.shared)
  {
    AllParts(p);
    var xs := Indices(All(p));
    SortedIota(xs);
    SharedAscends(p);
    TailAscends(Indices(p.task), Indices(p.shared));
    MergedTask(Values(All(p)), xs, p.keys);
    MergedShared(Values(All(p)), xs, p.keys);
    assert xs[..|p.keys|] == Indices(p.task) && xs[|p.keys|..] == Indices(p.shared);
  }

  /** An accepted plan is the split of one list: placing every value at its index rebuilds it. */
  lemma MergeThenSplit(p: Plan)
    requires Accepts(p)
    ensures AllReferences(All(p)) && IsPermutation(Indices(All(p)))
    ensures ContainsAll(Merge(All(p)), p.keys)
    ensures TaskPart(Merge(All(p)), p.keys) == p.task && SharedPart(Merge(All(p)), p.keys) == p.shared
  {
    MergedPositions(p);
    PartOfMerged(All(p), p.task);
    PartOfMerged(All(p), p.shared);
  }

  // ---- Split, then merge ------------------------------------------------------------------

  /** Lists the server may split: bounded, without repeated keys, and holding every key that is used. */
  predicate Splittable(original: seq<Resource>, keys: seq<string>, effects: Option<seq<Effect>>) {
    && |original| <= 50 && AllDifferent(Names(original)) && AllDifferent(keys)
    && ContainsAll(original, keys)
    && (effects.Some? ==>
          forall e | e in effects.value && e.resourceKey.Some? :: e.resourceKey.value in Names(original))
  }

  function Split(original: seq<Resource>, keys: seq<string>, effects: Option<seq<Effect>>): Plan
    requires Splittable(original, keys, effects)
  {
    Plan(keys, TaskPart(original, keys), SharedPart(original, keys), effects)
  }

  lemma PartIndices(original: seq<Resource>, xs: seq<nat>)
    requires |original| <= MAX_RESOURCES && forall k | 0 <= k < |xs| :: xs[k] < |original|
    ensures AllReferences(PartAt(original, xs)) && Indices(PartAt(original, xs)) == xs
  {
    forall k | 0 <= k < |xs| ensures IsReference(RefTo(xs[k])) && Index(RefTo(xs[k])) == xs[k] {
      ReferenceIsIndex(RefTo(xs[k]), xs[k]);
    }
  }

  lemma PartValues(original: seq<Resource>, xs: seq<nat>)
    requires forall k | 0 <= k < |xs| :: xs[k] < |original|
    ensures Values(PartAt(original, xs)) == ValuesAt(original, xs)
  {
  }

  lemma PartRefsDiffer(original: seq<Resource>, xs: seq<nat>)
    requires |original| <= MAX_RESOURCES && forall k | 0 <= k < |xs| :: xs[k] < |original|
    requires Distinct(xs)
    ensures Distinct(Refs(PartAt(original, xs)))
  {
    var refs := Refs(PartAt(original, xs));
    forall a, b | 0 <= a < b < |xs| ensures refs[a] != refs[b] {
      ReferenceIsIndex(refs[a], xs[a]);
      ReferenceIsIndex(refs[b], xs[b]);
    }
  }

  lemma SplitParts(original: seq<Resource>, keys: seq<string>, effects: Option<seq<Effect>>)
    requires Splittable(original, keys, effects)
    ensures All(Split(original, keys, effects)) == PartAt(original, SplitIndices(original, keys))
    ensures Keys(TaskPart(original, keys)) == keys
  {
    forall k | 0 <= k < |keys| ensures original[TaskIndices(original, keys)[k]].key == keys[k] {
      assert Contains(original, keys[k]);
    }
  }

  lemma SplitResolves(original: seq<Resource>, keys: seq<string>, effects: Option<seq<Effect>>)
    requires Splittable(original, keys, effects)
    ensures EffectsResolve(Split(original, keys, effects))
  {
    SplitPermutes(original, keys);
    SplitParts(original, keys, effects);
    var xs := SplitIndices(original, keys);
    PartValues(original, xs);
    var names := Names(ValuesAt(original, xs));
    forall name | name in Names(original) ensures name in names {
      var i :| 0 <= i < |original| && Names(original)[i] == name;
      assert names[Place(xs, i)] == name;
    }
  }

  lemma SplitAscends(original: seq<Resource>, keys: seq<string>)
    requires |original| <= MAX_RESOURCES
    ensures AllReferences(SharedPart(original, keys)) && AscendsFrom(Indices(SharedPart(original, keys)), 0)
  {
    ResourceSplit.SharedAscends(original, keys, 0);
    PartIndices(original, SharedIndices(original, keys, 0));
  }

  lemma SplitDiffers(original: seq<Resource>, xs: seq<nat>)
    requires |original| == |xs| <= MAX_RESOURCES && IsPermutation(xs) && Distinct(Names(original))
    ensures AllReferences(PartAt(original, xs)) && Indices(PartAt(original, xs)) == xs
    ensures Distinct(Keys(PartAt(original, xs))) && Distinct(Refs(PartAt(original, xs)))
    ensures Merge(PartAt(original, xs)) == original
  {
    PartIndices(original, xs);
    PartValues(original, xs);
    NamesAtDiffer(original, xs);
    PartRefsDiffer(original, xs);
    MergedBack(original, xs);
  }

  /** Every split of a list is accepted, and its parts give the list back. */
  lemma SplitThenMerge(original: seq<Resource>, keys: seq<string>, effects: Option<seq<Effect>>)
    requires Splittable(original, keys, effects)
    ensures Accepts(Split(original, keys, effects))
    ensures IsPermutation(Indices(All(Split(original, keys, effects))))
    ensures Merge(All(Split(original, keys, effects))) == original
  {
    var xs := SplitIndices(original, keys);
    SplitPermutes(original, keys);
    SplitParts(original, keys, effects);
    SplitDiffers(original, xs);
    PartIndices(original, TaskIndices(original, keys));
    SplitAscends(original, keys);
    AscendingSteps(SharedPart(original, keys));
    SplitResolves(original, keys, effects);
    SortedIota(xs);
  }

  lemma AscendingSteps(shared: seq<Reference>)
    requires AllReferences(shared) && AscendsFrom(Indices(shared), 0)
    ensures forall i | 0 < i < |shared| :: Index(shared[i].ref) > Index(shared[i - 1].ref)
  {
    var xs := Indices(shared);
    forall i | 0 < i < |shared| ensures Index(shared[i].ref) > Index(shared[i - 1].ref) {
      assert xs[i - 1] < xs[i];
    }
  }

  // ---- Accepted plans ---------------------------------------------------------------------

  predicate IsSplitOf(p: Plan, original: seq<Resource>) {
    Splittable(original, p.keys, p.effects) && Split(original, p.keys, p.effects) == p
  }

  lemma TaskKeysDiffer(p: Plan)
    requires Accepts(p)
    ensures Distinct(p.keys)
  {
    AllParts(p);
    forall a, b | 0 <= a < b < |p.keys| ensures p.keys[a] != p.keys[b] {
      DifferentPlaces(Keys(All(p)), a, b);
    }
  }

  lemma MergedSplittable(p: Plan)
    requires Accepts(p) && IsPermutation(Indices(All(p))) && ContainsAll(Merge(All(p)), p.keys)
    ensures Splittable(Merge(All(p)), p.keys, p.effects)
  {
    var values, xs := Values(All(p)), Indices(All(p));
    MergedDistinct(values, xs);
    TaskKeysDiffer(p);
    forall name | name in Keys(All(p)) ensures name in Names(Merge(All(p))) {
      var k :| 0 <= k < |values| && Names(values)[k] == name;
      MergedHolds(values, xs, k);
    }
  }

  /** The accepted plans are exactly the splits of some list. */
  lemma AcceptedPlansAreSplits(p: Plan)
    ensures Accepts(p) <==> exists original :: IsSplitOf(p, original)
  {
    if Accepts(p) {
      MergeThenSplit(p);
      MergedSplittable(p);
      assert IsSplitOf(p, Merge(All(p)));
    }
    if original :| IsSplitOf(p, original) {
      SplitThenMerge(original, p.keys, p.effects);
    }
  }
}
