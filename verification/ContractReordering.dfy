/**
 The normal form of a contract whose keys differ on every level, compared with a relation that knows
 nothing of keys, printing or order.
 */
module ContractReordering {
  import opened Json
  import opened Sequences
  import opened Sorting
  import opened ContractForm

  /** No key is printed twice among the fields of one level, on this level and below. */
  ghost predicate KeysDiffer(py: Printers, f: Json)
    decreases f
  {
    && Distinct(KeysIn(py, f))
    && (forall i | 0 <= i < |ChildFields(f)| :: KeysDiffer(py, ChildFields(f)[i]))
    && (HasItems(f) ==> KeysDiffer(py, Get(f, "items")))
  }

  /** The same field with the fields of every level, and the values of every enum, in any order. */
  ghost predicate AlikeField(a: Json, b: Json)
    decreases a, 2
  {
    && Get(a, "key") == Get(b, "key") && Get(a, "required") == Get(b, "required") && Get(a, "type") == Get(b, "type")
    && SameValues(Get(a, "enum"), Get(b, "enum"))
    && AlikeFields(a, b)
    && HasItems(a) == HasItems(b)
    && (HasItems(a) ==> AlikeField(Get(a, "items"), Get(b, "items")))
  }

  ghost predicate AlikeFields(a: Json, b: Json)
    decreases a, 1
  {
    exists p :: AlikeBy(a, b, p)
  }

  ghost predicate AlikeBy(a: Json, b: Json, p: seq<nat>)
    decreases a, 0
  {
    && |ChildFields(a)| == |ChildFields(b)| && IsRearrangement(p, |ChildFields(a)|)
    && forall i | 0 <= i < |ChildFields(a)| :: AlikeField(ChildFields(a)[i], ChildFields(b)[p[i]])
  }

  /** The fields of a and b paired off by p, each pair meaning the same. */
  ghost predicate SameBy(py: Printers, a: Json, b: Json, p: seq<nat>) {
    && |ChildFields(a)| == |ChildFields(b)| && IsRearrangement(p, |ChildFields(a)|)
    && forall i | 0 <= i < |ChildFields(a)| :: SameField(py, ChildFields(a)[i], ChildFields(b)[p[i]])
  }

  lemma PairedKeys(py: Printers, a: Json, b: Json, p: seq<nat>)
    requires SameBy(py, a, b, p)
    ensures Rearranged(KeysIn(py, a), KeysIn(py, b), p) && multiset(KeysIn(py, a)) == multiset(KeysIn(py, b))
  {
    var xs, ys := ChildFields(a), ChildFields(b);
    forall i | 0 <= i < |xs| ensures KeyOf(py)(xs[i]) == KeyOf(py)(ys[p[i]]) {
      assert SameField(py, xs[i], ys[p[i]]);
    }
    RearrangedMultiset(KeysIn(py, a), KeysIn(py, b), p);
  }

  lemma PairsGoByKey(py: Printers, a: Json, b: Json, p: seq<nat>)
    requires SameBy(py, a, b, p) && Distinct(KeysIn(py, a))
    ensures SameByKey(py, a, b)
  {
    var xs, ys := ChildFields(a), ChildFields(b);
    PairedKeys(py, a, b, p);
    DistinctByMultiset(KeysIn(py, a), KeysIn(py, b));
    forall x, y | x in xs && y in ys && KeyOf(py)(x) == KeyOf(py)(y) ensures SameField(py, x, y) {
      PartnerByKey(xs, ys, KeyOf(py), p, x, y);
    }
  }

  lemma FindPairs(py: Printers, a: Json, b: Json) returns (p: seq<nat>)
    requires multiset(KeysIn(py, a)) == multiset(KeysIn(py, b)) && SameByKey(py, a, b)
    ensures SameBy(py, a, b, p)
  {
    var xs, ys := ChildFields(a), ChildFields(b);
    p := FindRearrangement(KeysIn(py, a), KeysIn(py, b));
    forall i | 0 <= i < |xs| ensures SameField(py, xs[i], ys[p[i]]) {
      assert KeysIn(py, a)[i] == KeysIn(py, b)[p[i]];
      assert xs[i] in xs && ys[p[i]] in ys;
    }
  }

  /** With different keys, agreeing key by key is being paired off. */
  lemma SameByPairs(py: Printers, a: Json, b: Json)
    requires Distinct(KeysIn(py, a))
    ensures SameFields(py, a, b) <==> exists p :: SameBy(py, a, b, p)
  {
    FieldsByKey(py, a, b);
    if multiset(KeysIn(py, a)) == multiset(KeysIn(py, b)) && SameByKey(py, a, b) {
      var p := FindPairs(py, a, b);
    }
    if p :| SameBy(py, a, b, p) {
      PairedKeys(py, a, b, p);
      PairsGoByKey(py, a, b, p);
    }
  }

  lemma {:induction false} FieldAlike(py: Printers, a: Json, b: Json)
    requires KeysDiffer(py, a)
    ensures SameField(py, a, b) <==> AlikeField(a, b)
    decreases a, 2
  {
    FieldsAlike(py, a, b);
    if HasItems(a) && HasItems(b) {
      FieldAlike(py, Get(a, "items"), Get(b, "items"));
    }
  }

  lemma {:induction false} FieldsAlike(py: Printers, a: Json, b: Json)
    requires KeysDiffer(py, a)
    ensures SameFields(py, a, b) <==> AlikeFields(a, b)
    decreases a, 1
  {
    SameByPairs(py, a, b);
    forall p ensures SameBy(py, a, b, p) <==> AlikeBy(a, b, p) {
      PairsAlike(py, a, b, p);
    }
  }

  lemma {:induction false} PairsAlike(py: Printers, a: Json, b: Json, p: seq<nat>)
    requires KeysDiffer(py, a)
    ensures SameBy(py, a, b, p) <==> AlikeBy(a, b, p)
    decreases a, 0
  {
    var xs, ys := ChildFields(a), ChildFields(b);
    if |xs| == |ys| && IsRearrangement(p, |xs|) {
      forall i | 0 <= i < |xs| ensures SameField(py, xs[i], ys[p[i]]) <==> AlikeField(xs[i], ys[p[i]]) {
        FieldAlike(py, xs[i], ys[p[i]]);
      }
    }
  }

  /** Where keys differ, two contracts have one normal form exactly when they differ by order and wording alone. */
  lemma ReorderingExact(py: Printers, a: Json, b: Json)
    requires Canonical(py) && KeysDiffer(py, a)
    ensures ContractSemantics(py, a) == ContractSemantics(py, b) <==> AlikeFields(a, b)
  {
    ContractsDecided(py, a, b);
    FieldsAlike(py, a, b);
  }
}
