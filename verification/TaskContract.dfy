/**
 The recursive validator of draft task contracts: depth and width are bounded by a counter that one
 call shares with all the calls below it.
 */
module TaskContract {
  import opened Json
  import opened Sequences

  datatype Kind = Root | Field | Item

  const VERSION := "skillmind.task-contract-draft/v1"
  const TYPES := {"object", "array", "string", "integer", "number", "boolean"}
  const ATTRIBUTES :=
    {"description", "enum", "fields", "items", "min_length", "max_length", "pattern", "minimum", "maximum"}
  const MAX_DEPTH: nat := 5
  const MAX_FIELDS: nat := 100

  // ---- One node, without its children -----------------------------------------------------

  function Required(kind: Kind): set<string> {
    match kind
    case Root => {"contract_version", "type"}
    case Field => {"key", "type", "required"}
    case Item => {"type"}
  }

  predicate IsText(j: Json, maximum: nat) {
    j.JString? && 1 <= |j.s| <= maximum
  }

  predicate IsFieldKey(j: Json) {
    && j.JString? && 1 <= |j.s| <= 64 && 'a' <= j.s[0] <= 'z'
    && forall i | 0 <= i < |j.s| :: 'a' <= j.s[i] <= 'z' || '0' <= j.s[i] <= '9' || j.s[i] == '_'
  }

  predicate IsLength(j: Json) {
    j.JNumber? && j.integer && AtMost(Whole(0), j.value) && AtMost(j.value, Whole(100000))
  }

  predicate InOrder(m: map<string, Json>, low: string, high: string) {
    low in m && high in m && m[low].JNumber? && m[high].JNumber? ==> AtMost(m[low].value, m[high].value)
  }

  predicate IsEnumValue(j: Json, kind: string) {
    match kind
    case "string" => j.JString?
    case "boolean" => j.JBool?
    case "integer" => j.JNumber? && j.integer
    case "number" => j.JNumber?
    case _ => false
  }

  /** Numbers are compared by value, whichever way they were written. */
  function EnumKey(j: Json): Json {
    if j.JNumber? then JNumber(j.value, true) else j
  }

  /** Two enum values count as one exactly when they are equal, numbers being compared by size alone. */
  lemma EnumKeyExact(a: Json, b: Json)
    ensures EnumKey(a) == EnumKey(b)
       <==> if a.JNumber? && b.JNumber? then Amount(a.value) == Amount(b.value) else a == b
  {
    if a.JNumber? && b.JNumber? {
      EqualValues(a.value, b.value);
      AtMostExact(a.value, b.value);
      AtMostExact(b.value, a.value);
    }
  }

  function EnumKeys(xs: seq<Json>): seq<Json> {
    seq(|xs|, i requires 0 <= i < |xs| => EnumKey(xs[i]))
  }

  predicate IsEnum(j: Json, kind: string) {
    && j.JArray? && 1 <= |j.items| <= 50
    && (forall i | 0 <= i < |j.items| :: IsEnumValue(j.items[i], kind))
    && AllDifferent(EnumKeys(j.items))
  }

  /** What is checked before the validator looks at any attribute's value. */
  predicate HeaderOk(v: Json, kind: Kind) {
    && v.JObject? && Required(kind) <= v.members.Keys <= Required(kind) + ATTRIBUTES
    && v.members["type"].JString? && v.members["type"].s in TYPES
    && (kind == Root ==> v.members["contract_version"] == JString(VERSION))
    && (kind == Field ==> IsFieldKey(v.members["key"]) && v.members["required"].JBool?)
    && var m, t := v.members, v.members["type"].s;
       && ("fields" in m ==> t == "object")
       && ("items" in m <==> t == "array")
       && ("min_length" in m || "max_length" in m || "pattern" in m ==> t == "string")
       && ("minimum" in m || "maximum" in m ==> t in {"integer", "number"})
  }

  predicate BoundsOk(m: map<string, Json>) {
    && ("description" in m ==> IsText(m["description"], 500)) && ("pattern" in m ==> IsText(m["pattern"], 128))
    && ("minimum" in m ==> m["minimum"].JNumber?) && ("maximum" in m ==> m["maximum"].JNumber?)
    && InOrder(m, "minimum", "maximum")
    && ("min_length" in m ==> IsLength(m["min_length"])) && ("max_length" in m ==> IsLength(m["max_length"]))
    && InOrder(m, "min_length", "max_length")
  }

  function ChildKey(j: Json): Json {
    if j.JObject? && "key" in j.members then j.members["key"] else JNull
  }

  function ChildKeys(xs: seq<Json>): seq<Json> {
    seq(|xs|, i requires 0 <= i < |xs| => ChildKey(xs[i]))
  }

  predicate IsFieldList(j: Json) {
    j.JArray? && |j.items| <= 100 && AllDifferent(ChildKeys(j.items))
  }

  predicate FieldListOk(m: map<string, Json>) {
    "fields" in m ==> IsFieldList(m["fields"])
  }

  /** Everything a node must satisfy on its own. */
  predicate LocalOk(v: Json, kind: Kind) {
    && HeaderOk(v, kind) && BoundsOk(v.members) && FieldListOk(v.members)
    && ("enum" in v.members ==> IsEnum(v.members["enum"], v.members["type"].s))
  }

  // ---- The whole tree ---------------------------------------------------------------------

  /** A node where it stands: its role and its distance from the root, which has depth 1. */
  datatype Node = Node(value: Json, kind: Kind, depth: nat)

  /** The node and everything below it that the validator may ever visit. */
  function Nodes(v: Json, kind: Kind, depth: nat): seq<Node>
    decreases v, 1
  {
    [Node(v, kind, depth)]
    + (if v.JObject? && "fields" in v.members && v.members["fields"].JArray?
       then Forest(v.members["fields"].items, depth + 1) else [])
    + (if v.JObject? && "items" in v.members then Nodes(v.members["items"], Item, depth + 1) else [])
  }

  function Forest(xs: seq<Json>, depth: nat): seq<Node>
    decreases xs, 0
  {
    if xs == [] then [] else Forest(xs[..|xs| - 1], depth) + Nodes(xs[|xs| - 1], Field, depth)
  }

  function FieldCount(nodes: seq<Node>): nat {
    if nodes == [] then 0 else FieldCount(nodes[..|nodes| - 1]) + if nodes[|nodes| - 1].kind == Field then 1 else 0
  }

  ghost predicate NodeOk(n: Node) {
    LocalOk(n.value, n.kind) && n.depth <= MAX_DEPTH
  }

  ghost predicate AllOk(nodes: seq<Node>) {
    nodes == [] || (AllOk(nodes[..|nodes| - 1]) && NodeOk(nodes[|nodes| - 1]))
  }

  lemma {:induction false} AllOkMeans(nodes: seq<Node>)
    ensures AllOk(nodes) <==> forall n | n in nodes :: NodeOk(n)
  {
    if nodes != [] {
      var front := nodes[..|nodes| - 1];
      AllOkMeans(front);
      assert nodes == front + [nodes[|nodes| - 1]];
    }
  }

  /** Every node is well formed, none is too deep, and `already` plus the fields here stay in bounds. */
  ghost predicate Acceptable(nodes: seq<Node>, already: nat) {
    AllOk(nodes) && already + FieldCount(nodes) <= MAX_FIELDS
  }

  /** The declarative meaning of the validator: no order of visits and no counter in it. */
  ghost predicate IsContract(v: Json) {
    Acceptable(Nodes(v, Root, 1), 0)
  }

  lemma {:induction false} CountAdds(a: seq<Node>, b: seq<Node>)
    ensures FieldCount(a + b) == FieldCount(a) + FieldCount(b)
  {
    if b == [] {
      assert a + b == a;
    } else {
      assert (a + b)[..|a + b| - 1] == a + b[..|b| - 1];
      CountAdds(a, b[..|b| - 1]);
    }
  }

  lemma {:induction false} AllOkSplits(a: seq<Node>, b: seq<Node>)
    ensures AllOk(a + b) <==> AllOk(a) && AllOk(b)
  {
    if b == [] {
      assert a + b == a;
    } else {
      assert (a + b)[..|a + b| - 1] == a + b[..|b| - 1];
      AllOkSplits(a, b[..|b| - 1]);
    }
  }

  // ---- The validator ----------------------------------------------------------------------

  class FieldCounter {
    var fields: nat

    constructor ()
      ensures fields == 0
    {
      fields := 0;
    }
  }

  /** `nodes` splits into the node itself, the fields below it and the item below it. */
  lemma NodesSplit(v: Json, kind: Kind, depth: nat, already: nat)
    requires HeaderOk(v, kind) && depth <= MAX_DEPTH
    requires v.members["type"].s == "object" && "fields" in v.members && v.members["fields"].JArray?
    ensures var forest := Forest(v.members["fields"].items, depth + 1);
            Acceptable(Nodes(v, kind, depth), already) <==>
              LocalOk(v, kind) && Acceptable(forest, already + if kind == Field then 1 else 0)
    ensures FieldCount(Nodes(v, kind, depth))
         == (if kind == Field then 1 else 0) + FieldCount(Forest(v.members["fields"].items, depth + 1))
  {
    var forest := Forest(v.members["fields"].items, depth + 1);
    var self := [Node(v, kind, depth)];
    assert Nodes(v, kind, depth) == self + forest;
    SelfCount(v, kind, depth);
    CountAdds(self, forest);
    AllOkSplits(self, forest);
    SelfOk(self[0]);
  }

  lemma ItemSplit(v: Json, kind: Kind, depth: nat, already: nat)
    requires HeaderOk(v, kind) && depth <= MAX_DEPTH && v.members["type"].s == "array"
    ensures var below := Nodes(v.members["items"], Item, depth + 1);
            Acceptable(Nodes(v, kind, depth), already) <==>
              LocalOk(v, kind) && Acceptable(below, already + if kind == Field then 1 else 0)
    ensures FieldCount(Nodes(v, kind, depth))
         == (if kind == Field then 1 else 0) + FieldCount(Nodes(v.members["items"], Item, depth + 1))
  {
    var below := Nodes(v.members["items"], Item, depth + 1);
    var self := [Node(v, kind, depth)];
    assert Nodes(v, kind, depth) == self + below;
    SelfCount(v, kind, depth);
    CountAdds(self, below);
    AllOkSplits(self, below);
    SelfOk(self[0]);
  }

  lemma SelfCount(v: Json, kind: Kind, depth: nat)
    ensures FieldCount([Node(v, kind, depth)]) == if kind == Field then 1 else 0
  {
    var self := [Node(v, kind, depth)];
    assert self[..0] == [];
  }

  lemma SelfOk(n: Node)
    ensures AllOk([n]) <==> NodeOk(n)
  {
    assert [n][..0] == [];
  }

  /** A node the header or the depth rules out fails the whole tree, whatever lies below. */
  lemma SelfRejected(v: Json, kind: Kind, depth: nat, already: nat)
    requires !LocalOk(v, kind) || depth > MAX_DEPTH || (kind == Field && already >= MAX_FIELDS)
    ensures !Acceptable(Nodes(v, kind, depth), already)
  {
    var nodes := Nodes(v, kind, depth);
    assert nodes[0] == Node(v, kind, depth);
    assert nodes == [Node(v, kind, depth)] + nodes[1..];
    SelfCount(v, kind, depth);
    CountAdds([Node(v, kind, depth)], nodes[1..]);
    SelfOk(Node(v, kind, depth));
    AllOkSplits([Node(v, kind, depth)], nodes[1..]);
  }

  predicate EnumOk(v: Json)
    requires HeaderOk(v, Item) || HeaderOk(v, Field) || HeaderOk(v, Root)
  {
    "enum" in v.members ==> IsEnum(v.members["enum"], v.members["type"].s)
  }

  lemma LocalParts(v: Json, kind: Kind)
    requires HeaderOk(v, kind)
    ensures LocalOk(v, kind) <==> BoundsOk(v.members) && FieldListOk(v.members) && EnumOk(v)
    ensures "fields" !in v.members ==> FieldListOk(v.members)
    ensures "fields" in v.members ==> "items" !in v.members && v.members["type"].s == "object"
    ensures "items" in v.members ==> v.members["type"].s == "array"
  {
  }

  lemma LeafExact(v: Json, kind: Kind, depth: nat, already: nat)
    requires HeaderOk(v, kind) && depth <= MAX_DEPTH && "fields" !in v.members && "items" !in v.members
    requires already + (if kind == Field then 1 else 0) <= MAX_FIELDS
    ensures Acceptable(Nodes(v, kind, depth), already) <==> LocalOk(v, kind)
    ensures FieldCount(Nodes(v, kind, depth)) == if kind == Field then 1 else 0
  {
    var self := [Node(v, kind, depth)];
    assert Nodes(v, kind, depth) == self;
    SelfCount(v, kind, depth);
    SelfOk(self[0]);
  }

  /** The validator with its shared counter and early exits decides exactly the declarative meaning. */
  method Contract(v: Json, kind: Kind, depth: nat, state: FieldCounter) returns (ok: bool)
    requires state.fields <= MAX_FIELDS
    modifies state
    ensures ok <==> Acceptable(Nodes(v, kind, depth), old(state.fields))
    ensures ok ==> state.fields == old(state.fields) + FieldCount(Nodes(v, kind, depth))
    decreases v, 2
  {
    ghost var already := state.fields;
    if depth > MAX_DEPTH {
      SelfRejected(v, kind, depth, already);
      return false;
    }
    if kind == Field {
      state.fields := state.fields + 1;
      if state.fields > MAX_FIELDS {
        SelfRejected(v, kind, depth, already);
        return false;
      }
    }
    if !HeaderOk(v, kind) || !BoundsOk(v.members) {
      SelfRejected(v, kind, depth, already);
      return false;
    }
    if "fields" in v.members {
      ok := ObjectBelow(v, kind, depth, already, state);
    } else if "items" in v.members {
      ok := ArrayBelow(v, kind, depth, already, state);
    } else {
      LocalParts(v, kind);
      LeafExact(v, kind, depth, already);
      ok := true;
    }
    ok := ok && EnumOk(v);
  }

  method ArrayBelow(v: Json, kind: Kind, depth: nat, ghost already: nat, state: FieldCounter) returns (ok: bool)
    requires HeaderOk(v, kind) && BoundsOk(v.members) && depth <= MAX_DEPTH
    requires "items" in v.members && "fields" !in v.members
    requires state.fields == already + (if kind == Field then 1 else 0) && state.fields <= MAX_FIELDS
    modifies state
    ensures Acceptable(Nodes(v, kind, depth), already) <==> ok && EnumOk(v)
    ensures ok ==> state.fields == already + FieldCount(Nodes(v, kind, depth))
    decreases v, 1
  {
    LocalParts(v, kind);
    ItemSplit(v, kind, depth, already);
    ok := Contract(v.members["items"], Item, depth + 1, state);
  }

  method ObjectBelow(v: Json, kind: Kind, depth: nat, ghost already: nat, state: FieldCounter) returns (ok: bool)
    requires HeaderOk(v, kind) && BoundsOk(v.members) && depth <= MAX_DEPTH && "fields" in v.members
    requires state.fields == already + (if kind == Field then 1 else 0) && state.fields <= MAX_FIELDS
    modifies state
    ensures Acceptable(Nodes(v, kind, depth), already) <==> ok && EnumOk(v)
    ensures ok ==> state.fields == already + FieldCount(Nodes(v, kind, depth))
    decreases v, 1
  {
    LocalParts(v, kind);
    if !v.members["fields"].JArray? || |v.members["fields"].items| > 100 {
      SelfRejected(v, kind, depth, already);
      return false;
    }
    NodesSplit(v, kind, depth, already);
    ok := Fields(v.members["fields"].items, depth + 1, state);
    ok := ok && AllDifferent(ChildKeys(v.members["fields"].items));
  }

  lemma AcceptableAdds(a: seq<Node>, b: seq<Node>, already: nat, between: nat)
    requires between == already + FieldCount(a)
    ensures Acceptable(a + b, already) <==> Acceptable(a, already) && Acceptable(b, between)
    ensures FieldCount(a + b) == FieldCount(a) + FieldCount(b)
  {
    CountAdds(a, b);
    AllOkSplits(a, b);
  }

  lemma ForestNext(xs: seq<Json>, i: nat, depth: nat)
    requires i < |xs|
    ensures Forest(xs[..i + 1], depth) == Forest(xs[..i], depth) + Nodes(xs[i], Field, depth)
  {
    assert xs[..i + 1][..i] == xs[..i];
  }

  /** These nodes have passed and brought the counter to `fields`. */
  ghost predicate Accumulated(done: seq<Node>, already: nat, fields: nat) {
    Acceptable(done, already) && fields == already + FieldCount(done)
  }

  lemma AccumulatedNext(done: seq<Node>, here: seq<Node>, already: nat, before: nat, after: nat)
    requires Accumulated(done, already, before)
    ensures Acceptable(here, before) <==> Acceptable(done + here, already)
    ensures Acceptable(here, before) && after == before + FieldCount(here) ==> Accumulated(done + here, already, after)
  {
    AcceptableAdds(done, here, already, before);
  }

  ghost predicate Passed(xs: seq<Json>, i: nat, depth: nat, already: nat, fields: nat)
    requires i <= |xs|
  {
    Accumulated(Forest(xs[..i], depth), already, fields)
  }

  lemma PassedNext(xs: seq<Json>, i: nat, depth: nat, already: nat, before: nat, after: nat)
    requires i < |xs| && Passed(xs, i, depth, already, before)
    requires Acceptable(Nodes(xs[i], Field, depth), before) && after == before + FieldCount(Nodes(xs[i], Field, depth))
    ensures Passed(xs, i + 1, depth, already, after)
  {
    ForestNext(xs, i, depth);
    AccumulatedNext(Forest(xs[..i], depth), Nodes(xs[i], Field, depth), already, before, after);
  }

  lemma FailedAt(xs: seq<Json>, i: nat, depth: nat, already: nat, before: nat)
    requires i < |xs| && Passed(xs, i, depth, already, before) && !Acceptable(Nodes(xs[i], Field, depth), before)
    ensures !Acceptable(Forest(xs, depth), already)
  {
    ForestNext(xs, i, depth);
    AccumulatedNext(Forest(xs[..i], depth), Nodes(xs[i], Field, depth), already, before, before);
    ForestPrefix(xs, i + 1, depth, already);
  }

  lemma PassedAll(xs: seq<Json>, depth: nat, already: nat, fields: nat)
    requires Passed(xs, |xs|, depth, already, fields)
    ensures Acceptable(Forest(xs, depth), already) && fields == already + FieldCount(Forest(xs, depth))
  {
    assert xs[..|xs|] == xs;
  }

  method Fields(xs: seq<Json>, depth: nat, state: FieldCounter) returns (ok: bool)
    requires state.fields <= MAX_FIELDS
    modifies state
    ensures ok <==> Acceptable(Forest(xs, depth), old(state.fields))
    ensures ok ==> state.fields == old(state.fields) + FieldCount(Forest(xs, depth))
    decreases xs, 0
  {
    ghost var already := state.fields;
    var i := 0;
    while i < |xs|
      invariant 0 <= i <= |xs| && state.fields <= MAX_FIELDS
      invariant Passed(xs, i, depth, already, state.fields)
    {
      ghost var before := state.fields;
      ok := Contract(xs[i], Field, depth, state);
      if !ok {
        FailedAt(xs, i, depth, already, before);
        return false;
      }
      PassedNext(xs, i, depth, already, before, state.fields);
      i := i + 1;
    }
    PassedAll(xs, depth, already, state.fields);
    return true;
  }

  lemma {:induction false} ForestPrefix(xs: seq<Json>, n: nat, depth: nat, already: nat)
    requires n <= |xs| && !Acceptable(Forest(xs[..n], depth), already)
    ensures !Acceptable(Forest(xs, depth), already)
    decreases |xs|
  {
    if n == |xs| {
      assert xs[..n] == xs;
    } else {
      var front := xs[..|xs| - 1];
      assert front[..n] == xs[..n];
      ForestPrefix(front, n, depth, already);
      CountAdds(Forest(front, depth), Nodes(xs[|xs| - 1], Field, depth));
      AllOkSplits(Forest(front, depth), Nodes(xs[|xs| - 1], Field, depth));
    }
  }

  /** The entry point: a fresh counter and the root role. */
  method ValidateContract(v: Json) returns (ok: bool)
    ensures ok <==> IsContract(v)
  {
    var state := new FieldCounter();
    ok := Contract(v, Root, 1, state);
  }

  // ---- Order of declaration ---------------------------------------------------------------

  ghost function NodeBag(depth: nat): Json -> multiset<Node> {
    (v: Json) => multiset(Nodes(v, Field, depth))
  }

  lemma {:induction false} ForestBag(xs: seq<Json>, depth: nat)
    ensures multiset(Forest(xs, depth)) == Collected(xs, NodeBag(depth))
  {
    if xs != [] {
      ForestBag(xs[..|xs| - 1], depth);
    }
  }

  ghost function KeyBag(): Json -> multiset<Json> {
    (v: Json) => multiset{ChildKey(v)}
  }

  lemma {:induction false} KeysBag(xs: seq<Json>)
    ensures multiset(ChildKeys(xs)) == Collected(xs, KeyBag())
  {
    if xs != [] {
      var n := |xs| - 1;
      KeysBag(xs[..n]);
      assert ChildKeys(xs) == ChildKeys(xs[..n]) + [ChildKey(xs[n])];
    }
  }

  lemma ForestShuffled(xs: seq<Json>, ys: seq<Json>, depth: nat)
    requires multiset(xs) == multiset(ys)
    ensures multiset(Forest(xs, depth)) == multiset(Forest(ys, depth))
    ensures multiset(ChildKeys(xs)) == multiset(ChildKeys(ys))
  {
    ForestBag(xs, depth);
    ForestBag(ys, depth);
    CollectedPermutes(xs, ys, NodeBag(depth));
    KeysBag(xs);
    KeysBag(ys);
    CollectedPermutes(xs, ys, KeyBag());
  }

  ghost function FieldBag(): Node -> multiset<Kind> {
    (n: Node) => if n.kind == Field then multiset{Field} else multiset{}
  }

  lemma {:induction false} CountBag(nodes: seq<Node>)
    ensures FieldCount(nodes) == |Collected(nodes, FieldBag())|
  {
    if nodes != [] {
      CountBag(nodes[..|nodes| - 1]);
    }
  }

  lemma CountByMultiset(a: seq<Node>, b: seq<Node>)
    requires multiset(a) == multiset(b)
    ensures FieldCount(a) == FieldCount(b)
  {
    CountBag(a);
    CountBag(b);
    CollectedPermutes(a, b, FieldBag());
  }

  lemma AllOkByMultiset(a: seq<Node>, b: seq<Node>)
    requires multiset(a) == multiset(b) && AllOk(a)
    ensures AllOk(b)
  {
    AllOkMeans(a);
    AllOkMeans(b);
    forall n | n in b ensures NodeOk(n) {
      assert n in multiset(a);
    }
  }

  /** The same contract with the fields declared in another order, at any level. */
  ghost predicate Reordered(v: Json, w: Json)
    decreases v, 1
  {
    v == w
    || (&& v.JObject? && w.JObject? && v.members.Keys == w.members.Keys
        && (forall n | n in v.members && n != "fields" && n != "items" :: v.members[n] == w.members[n])
        && ("items" in v.members ==> Reordered(v.members["items"], w.members["items"]))
        && ("fields" in v.members ==> ReorderedLists(v.members["fields"], w.members["fields"])))
  }

  ghost predicate ReorderedLists(a: Json, b: Json)
    decreases a, 0
  {
    a == b || (a.JArray? && b.JArray? && exists p :: ReorderedBy(a.items, b.items, p))
  }

  ghost predicate ReorderedBy(xs: seq<Json>, ys: seq<Json>, p: seq<nat>)
    decreases xs
  {
    |xs| == |ys| && IsRearrangement(p, |xs|) && forall i | 0 <= i < |xs| :: Reordered(xs[i], ys[p[i]])
  }

  lemma ReorderedKeys(xs: seq<Json>, ys: seq<Json>, p: seq<nat>)
    requires ReorderedBy(xs, ys, p)
    ensures AllDifferent(ChildKeys(xs)) <==> AllDifferent(ChildKeys(ys))
  {
    var a, b := ChildKeys(xs), ChildKeys(ys);
    forall i | 0 <= i < |xs| ensures a[i] == b[p[i]] {
      assert Reordered(xs[i], ys[p[i]]);
    }
    RearrangedMultiset(a, b, p);
    if Distinct(a) {
      DistinctByMultiset(a, b);
    }
    if Distinct(b) {
      DistinctByMultiset(b, a);
    }
  }

  lemma ReorderedFieldList(a: Json, b: Json)
    requires ReorderedLists(a, b)
    ensures IsFieldList(a) <==> IsFieldList(b)
  {
    if a != b {
      var p :| ReorderedBy(a.items, b.items, p);
      ReorderedKeys(a.items, b.items, p);
    }
  }

  lemma ReorderedHeader(v: Json, w: Json, kind: Kind)
    requires Reordered(v, w) && v != w
    ensures HeaderOk(v, kind) <==> HeaderOk(w, kind)
  {
    assert v.members.Keys == w.members.Keys;
  }

  lemma ReorderedBounds(v: Json, w: Json)
    requires Reordered(v, w) && v != w
    ensures BoundsOk(v.members) <==> BoundsOk(w.members)
  {
    assert forall n | n in ATTRIBUTES - {"fields", "items"} :: n in v.members <==> n in w.members;
  }

  lemma ReorderedLocal(v: Json, w: Json, kind: Kind)
    requires Reordered(v, w)
    ensures LocalOk(v, kind) <==> LocalOk(w, kind)
  {
    if v != w {
      ReorderedHeader(v, w, kind);
      ReorderedBounds(v, w);
      if "fields" in v.members {
        ReorderedFieldList(v.members["fields"], w.members["fields"]);
      }
    }
  }

  /** Two trees with equally many fields, acceptable alike. */
  ghost predicate Alike(a: seq<Node>, b: seq<Node>) {
    FieldCount(a) == FieldCount(b) && (AllOk(a) <==> AllOk(b))
  }

  lemma AlikeAdds(a: seq<Node>, b: seq<Node>, c: seq<Node>, d: seq<Node>)
    requires Alike(a, c) && Alike(b, d)
    ensures Alike(a + b, c + d)
  {
    CountAdds(a, b);
    CountAdds(c, d);
    AllOkSplits(a, b);
    AllOkSplits(c, d);
  }

  lemma AlikeByMultiset(a: seq<Node>, b: seq<Node>)
    requires multiset(a) == multiset(b)
    ensures Alike(a, b)
  {
    CountByMultiset(a, b);
    if AllOk(a) {
      AllOkByMultiset(a, b);
    }
    if AllOk(b) {
      AllOkByMultiset(b, a);
    }
  }

  function FieldsBelow(v: Json, depth: nat): seq<Node> {
    if v.JObject? && "fields" in v.members && v.members["fields"].JArray?
    then Forest(v.members["fields"].items, depth + 1) else []
  }

  function ItemBelow(v: Json, depth: nat): seq<Node> {
    if v.JObject? && "items" in v.members then Nodes(v.members["items"], Item, depth + 1) else []
  }

  lemma {:induction false} ForestAlike(xs: seq<Json>, zs: seq<Json>, depth: nat)
    requires |xs| == |zs| && forall i | 0 <= i < |xs| :: Alike(Nodes(xs[i], Field, depth), Nodes(zs[i], Field, depth))
    ensures Alike(Forest(xs, depth), Forest(zs, depth))
    decreases |xs|
  {
    if xs != [] {
      var n := |xs| - 1;
      ForestAlike(xs[..n], zs[..n], depth);
      AlikeAdds(Forest(xs[..n], depth), Nodes(xs[n], Field, depth), Forest(zs[..n], depth), Nodes(zs[n], Field, depth));
    }
  }

  lemma {:induction false} ForestReordered(xs: seq<Json>, ys: seq<Json>, p: seq<nat>, depth: nat)
    requires ReorderedBy(xs, ys, p)
    ensures Alike(Forest(xs, depth), Forest(ys, depth))
    decreases xs, 0
  {
    var zs := seq(|xs|, i requires 0 <= i < |xs| => ys[p[i]]);
    forall i | 0 <= i < |xs| ensures Alike(Nodes(xs[i], Field, depth), Nodes(zs[i], Field, depth)) {
      NodesReordered(xs[i], zs[i], Field, depth);
    }
    ForestAlike(xs, zs, depth);
    RearrangedMultiset(zs, ys, p);
    ForestShuffled(zs, ys, depth);
    AlikeByMultiset(Forest(zs, depth), Forest(ys, depth));
  }

  lemma {:induction false} NodesReordered(v: Json, w: Json, kind: Kind, depth: nat)
    requires Reordered(v, w)
    ensures Alike(Nodes(v, kind, depth), Nodes(w, kind, depth))
    decreases v, 1
  {
    if v != w {
      var selfV, selfW := [Node(v, kind, depth)], [Node(w, kind, depth)];
      ReorderedLocal(v, w, kind);
      SelfCount(v, kind, depth);
      SelfCount(w, kind, depth);
      SelfOk(selfV[0]);
      SelfOk(selfW[0]);
      FieldsReordered(v, w, depth);
      ItemReordered(v, w, depth);
      AlikeAdds(selfV, FieldsBelow(v, depth), selfW, FieldsBelow(w, depth));
      AlikeAdds(selfV + FieldsBelow(v, depth), ItemBelow(v, depth), selfW + FieldsBelow(w, depth), ItemBelow(w, depth));
    }
  }

  lemma {:induction false} FieldsReordered(v: Json, w: Json, depth: nat)
    requires Reordered(v, w) && v != w
    ensures Alike(FieldsBelow(v, depth), FieldsBelow(w, depth))
    decreases v, 0
  {
    if "fields" in v.members && v.members["fields"] != w.members["fields"] {
      var a, b := v.members["fields"], w.members["fields"];
      assert ReorderedLists(a, b);
      var p :| ReorderedBy(a.items, b.items, p);
      ForestReordered(a.items, b.items, p, depth + 1);
    }
  }

  lemma {:induction false} ItemReordered(v: Json, w: Json, depth: nat)
    requires Reordered(v, w) && v != w
    ensures Alike(ItemBelow(v, depth), ItemBelow(w, depth))
    decreases v, 0
  {
    if "items" in v.members {
      NodesReordered(v.members["items"], w.members["items"], Item, depth + 1);
    }
  }

  /**
   The declared order of fields, at any level, never decides acceptance, although the validator counts
   them in that order and stops at the first failure.
   */
  lemma FieldOrderIrrelevant(v: Json, w: Json)
    requires Reordered(v, w)
    ensures IsContract(v) <==> IsContract(w)
  {
    NodesReordered(v, w, Root, 1);
  }

  lemma ReorderedFields(m: map<string, Json>, a: Json, b: Json)
    requires ReorderedLists(a, b)
    ensures Reordered(JObject(m["fields" := a]), JObject(m["fields" := b]))
  {
    var n, o := m["fields" := a], m["fields" := b];
    assert n.Keys == o.Keys;
    assert "items" in n ==> Reordered(n["items"], o["items"]);
  }

  /** One list of fields in another order. */
  lemma ShuffledFields(m: map<string, Json>, xs: seq<Json>, ys: seq<Json>)
    requires multiset(xs) == multiset(ys)
    ensures Reordered(JObject(m["fields" := JArray(xs)]), JObject(m["fields" := JArray(ys)]))
    ensures IsContract(JObject(m["fields" := JArray(xs)])) <==> IsContract(JObject(m["fields" := JArray(ys)]))
  {
    var p := FindRearrangement(xs, ys);
    assert ReorderedBy(xs, ys, p);
    ReorderedFields(m, JArray(xs), JArray(ys));
    FieldOrderIrrelevant(JObject(m["fields" := JArray(xs)]), JObject(m["fields" := JArray(ys)]));
  }

  lemma OneReordered(xs: seq<Json>, k: nat, w: Json)
    requires k < |xs| && Reordered(xs[k], w)
    ensures ReorderedLists(JArray(xs), JArray(xs[k := w]))
  {
    var q: seq<nat> := seq(|xs|, i => i);
    var ys := xs[k := w];
    forall i | 0 <= i < |xs| ensures Reordered(xs[i], ys[q[i]]) {
      assert i != k ==> ys[i] == xs[i];
    }
    assert ReorderedBy(xs, ys, q);
  }

  /** A reordering further down: in the item of an array, or in one field of an object. */
  lemma ReorderedInside(m: map<string, Json>, v: Json, w: Json, xs: seq<Json>, k: nat)
    requires Reordered(v, w) && k < |xs| && xs[k] == v
    ensures Reordered(JObject(m["fields" := JArray(xs)]), JObject(m["fields" := JArray(xs[k := w])]))
    ensures Reordered(JObject(m["items" := v]), JObject(m["items" := w]))
  {
    OneReordered(xs, k, w);
    ReorderedFields(m, JArray(xs), JArray(xs[k := w]));
    ReorderedItem(m, v, w);
  }

  lemma ReorderedItem(m: map<string, Json>, v: Json, w: Json)
    requires Reordered(v, w)
    ensures Reordered(JObject(m["items" := v]), JObject(m["items" := w]))
  {
    var n, o := m["items" := v], m["items" := w];
    assert n.Keys == o.Keys;
    assert "fields" in n ==> ReorderedLists(n["fields"], o["fields"]);
  }
}
