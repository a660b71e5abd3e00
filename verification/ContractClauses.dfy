/**
 What the contract validator accepts, clause by clause: a bare root, and what each further attribute of
 a root must be like. Every root is a bare one with attributes added, in any order.
 */
module ContractClauses {
  import opened Json
  import opened Sequences
  import opened TaskContract

  // ---- A root and the nodes below it ------------------------------------------------------

  lemma RootSplit(v: Json)
    ensures IsContract(v) <==> LocalOk(v, Root) && Acceptable(Nodes(v, Root, 1)[1..], 0)
  {
    var nodes := Nodes(v, Root, 1);
    assert nodes == [Node(v, Root, 1)] + nodes[1..];
    SelfCount(v, Root, 1);
    CountAdds([Node(v, Root, 1)], nodes[1..]);
    AllOkSplits([Node(v, Root, 1)], nodes[1..]);
    SelfOk(Node(v, Root, 1));
  }

  lemma LeafRoot(v: Json)
    requires v.JObject? && "items" !in v.members && ("fields" in v.members ==> !v.members["fields"].JArray?)
    ensures IsContract(v) <==> LocalOk(v, Root)
  {
    RootSplit(v);
    assert Nodes(v, Root, 1)[1..] == [];
  }

  // ---- The bare root ----------------------------------------------------------------------

  function Bare(version: Json, kind: Json): map<string, Json> {
    map["contract_version" := version, "type" := kind]
  }

  /** A root that holds nothing but its version and type; an array needs an item. */
  lemma BareExact(version: Json, kind: Json)
    ensures IsContract(JObject(Bare(version, kind)))
       <==> && version == JString("skillmind.task-contract-draft/v1")
            && (exists t | t in ["object", "string", "integer", "number", "boolean"] :: kind == JString(t))
  {
    LeafRoot(JObject(Bare(version, kind)));
    assert Bare(version, kind)["type"] == kind && Bare(version, kind)["contract_version"] == version;
    assert Bare(version, kind).Keys == {"contract_version", "type"};
    if kind.JString? {
      assert kind.s in ["object", "string", "integer", "number", "boolean"] <==> kind.s in TYPES && kind.s != "array";
    }
  }

  lemma RootsOnly(v: Json)
    requires IsContract(v)
    ensures v.JObject? && "contract_version" in v.members && "type" in v.members
    ensures forall name | name in v.members ::
              name in ["contract_version", "type", "description", "enum", "fields", "items", "min_length", "max_length",
                       "pattern", "minimum", "maximum"]
  {
    RootSplit(v);
  }

  // ---- Attributes, one at a time ----------------------------------------------------------

  predicate HasType(m: map<string, Json>, t: string) {
    "type" in m && m["type"] == JString(t)
  }

  predicate HasNumericType(m: map<string, Json>) {
    HasType(m, "integer") || HasType(m, "number")
  }

  /** The types a header lets an attribute go with; `items` aside, an attribute may be left out. */
  predicate GoesWith(m: map<string, Json>, name: string) {
    match name
    case "description" => true
    case "enum" => true
    case "fields" => HasType(m, "object")
    case "pattern" => HasType(m, "string")
    case "min_length" => HasType(m, "string")
    case "max_length" => HasType(m, "string")
    case "minimum" => HasNumericType(m)
    case "maximum" => HasNumericType(m)
    case _ => false
  }

  lemma KeysAdded(m: map<string, Json>, name: string, x: Json)
    requires name !in m && name != "type" && name != "contract_version"
    ensures Required(Root) <= m[name := x].Keys <= Required(Root) + ATTRIBUTES
       <==> Required(Root) <= m.Keys <= Required(Root) + ATTRIBUTES && name in ATTRIBUTES
  {
    assert m[name := x].Keys == m.Keys + {name};
    assert name !in Required(Root);
  }

  lemma HeaderAdded(m: map<string, Json>, name: string, x: Json)
    requires name !in m && name != "items" && name != "type" && name != "contract_version"
    ensures HeaderOk(JObject(m[name := x]), Root) <==> HeaderOk(JObject(m), Root) && GoesWith(m, name)
  {
    KeysAdded(m, name, x);
  }

  predicate EnumFits(m: map<string, Json>) {
    "enum" in m ==> "type" in m && m["type"].JString? && IsEnum(m["enum"], m["type"].s)
  }

  /** What the nodes below a root, and its attributes, must satisfy beside the header. */
  ghost predicate RestOk(m: map<string, Json>, below: seq<Node>) {
    BoundsOk(m) && FieldListOk(m) && EnumFits(m) && Acceptable(below, 0)
  }

  lemma RootParts(m: map<string, Json>)
    ensures IsContract(JObject(m)) <==> HeaderOk(JObject(m), Root) && RestOk(m, Nodes(JObject(m), Root, 1)[1..])
  {
    RootSplit(JObject(m));
  }

  /** n is m with one attribute more. */
  ghost predicate Extends(n: map<string, Json>, m: map<string, Json>, name: string, x: Json) {
    && name !in m && name in n && n[name] == x
    && (forall k | k in m :: k in n && n[k] == m[k]) && forall k | k in n && k != name :: k in m
  }

  /** One attribute more: it must go with the type, and its own clause must hold. */
  lemma OneMore(m: map<string, Json>, name: string, x: Json)
    requires name !in m && name !in ["items", "fields", "type", "contract_version"]
    ensures IsContract(JObject(m[name := x]))
       <==> HeaderOk(JObject(m), Root) && GoesWith(m, name) && RestOk(m[name := x], Nodes(JObject(m), Root, 1)[1..])
    ensures IsContract(JObject(m)) <==> HeaderOk(JObject(m), Root) && RestOk(m, Nodes(JObject(m), Root, 1)[1..])
    ensures Extends(m[name := x], m, name, x)
  {
    RootParts(m);
    RootParts(m[name := x]);
    HeaderAdded(m, name, x);
    assert Nodes(JObject(m[name := x]), Root, 1)[1..] == Nodes(JObject(m), Root, 1)[1..];
  }

  lemma DescriptionPart(n: map<string, Json>, m: map<string, Json>, x: Json, below: seq<Node>)
    requires Extends(n, m, "description", x)
    ensures RestOk(n, below) <==> RestOk(m, below) && x.JString? && 1 <= |x.s| <= 500
  {
  }

  lemma DescriptionExact(m: map<string, Json>, x: Json)
    requires "description" !in m
    ensures IsContract(JObject(m["description" := x]))
       <==> IsContract(JObject(m)) && x.JString? && 1 <= |x.s| <= 500
  {
    OneMore(m, "description", x);
    DescriptionPart(m["description" := x], m, x, Nodes(JObject(m), Root, 1)[1..]);
  }

  lemma PatternPart(n: map<string, Json>, m: map<string, Json>, x: Json, below: seq<Node>)
    requires Extends(n, m, "pattern", x)
    ensures RestOk(n, below) <==> RestOk(m, below) && x.JString? && 1 <= |x.s| <= 128
  {
  }

  lemma PatternExact(m: map<string, Json>, x: Json)
    requires "pattern" !in m
    ensures IsContract(JObject(m["pattern" := x]))
       <==> IsContract(JObject(m)) && HasType(m, "string") && x.JString? && 1 <= |x.s| <= 128
  {
    OneMore(m, "pattern", x);
    PatternPart(m["pattern" := x], m, x, Nodes(JObject(m), Root, 1)[1..]);
  }

  /** Two bounds in order, if both are there. */
  ghost predicate Ordered(low: Json, high: Json) {
    low.JNumber? && high.JNumber? ==> Amount(low.value) <= Amount(high.value)
  }

  lemma InOrderExact(m: map<string, Json>, low: string, high: string)
    ensures InOrder(m, low, high) <==> (low in m && high in m ==> Ordered(m[low], m[high]))
  {
    if low in m && high in m && m[low].JNumber? && m[high].JNumber? {
      AtMostExact(m[low].value, m[high].value);
    }
  }

  lemma MinimumPart(n: map<string, Json>, m: map<string, Json>, x: Json, below: seq<Node>)
    requires Extends(n, m, "minimum", x)
    ensures RestOk(n, below)
       <==> RestOk(m, below) && x.JNumber? && ("maximum" in m ==> Ordered(x, m["maximum"]))
  {
    InOrderExact(n, "minimum", "maximum");
  }

  /** A minimum: a number, of a numeric type, not above the maximum. */
  lemma MinimumExact(m: map<string, Json>, x: Json)
    requires "minimum" !in m
    ensures IsContract(JObject(m["minimum" := x]))
       <==> && IsContract(JObject(m)) && HasNumericType(m) && x.JNumber?
            && ("maximum" in m ==> Ordered(x, m["maximum"]))
  {
    OneMore(m, "minimum", x);
    MinimumPart(m["minimum" := x], m, x, Nodes(JObject(m), Root, 1)[1..]);
  }

  lemma MaximumPart(n: map<string, Json>, m: map<string, Json>, x: Json, below: seq<Node>)
    requires Extends(n, m, "maximum", x)
    ensures RestOk(n, below)
       <==> RestOk(m, below) && x.JNumber? && ("minimum" in m ==> Ordered(m["minimum"], x))
  {
    InOrderExact(n, "minimum", "maximum");
  }

  lemma MaximumExact(m: map<string, Json>, x: Json)
    requires "maximum" !in m
    ensures IsContract(JObject(m["maximum" := x]))
       <==> && IsContract(JObject(m)) && HasNumericType(m) && x.JNumber?
            && ("minimum" in m ==> Ordered(m["minimum"], x))
  {
    OneMore(m, "maximum", x);
    MaximumPart(m["maximum" := x], m, x, Nodes(JObject(m), Root, 1)[1..]);
  }

  /** A whole number from 0 to 100000, written as an integer. */
  ghost predicate IsCount(x: Json) {
    x.JNumber? && x.integer && 0.0 <= Amount(x.value) <= 100000.0
  }

  lemma LengthExact(x: Json)
    ensures IsLength(x) <==> IsCount(x)
  {
    if x.JNumber? {
      AtMostExact(Whole(0), x.value);
      AtMostExact(x.value, Whole(100000));
      WholeAmount(0);
      WholeAmount(100000);
    }
  }

  lemma MinLengthPart(n: map<string, Json>, m: map<string, Json>, x: Json, below: seq<Node>)
    requires Extends(n, m, "min_length", x)
    ensures RestOk(n, below)
       <==> RestOk(m, below) && IsCount(x) && ("max_length" in m ==> Ordered(x, m["max_length"]))
  {
    InOrderExact(n, "min_length", "max_length");
    LengthExact(x);
  }

  lemma MinLengthExact(m: map<string, Json>, x: Json)
    requires "min_length" !in m
    ensures IsContract(JObject(m["min_length" := x]))
       <==> && IsContract(JObject(m)) && HasType(m, "string") && IsCount(x)
            && ("max_length" in m ==> Ordered(x, m["max_length"]))
  {
    OneMore(m, "min_length", x);
    MinLengthPart(m["min_length" := x], m, x, Nodes(JObject(m), Root, 1)[1..]);
  }

  lemma MaxLengthPart(n: map<string, Json>, m: map<string, Json>, x: Json, below: seq<Node>)
    requires Extends(n, m, "max_length", x)
    ensures RestOk(n, below)
       <==> RestOk(m, below) && IsCount(x) && ("min_length" in m ==> Ordered(m["min_length"], x))
  {
    InOrderExact(n, "min_length", "max_length");
    LengthExact(x);
  }

  lemma MaxLengthExact(m: map<string, Json>, x: Json)
    requires "max_length" !in m
    ensures IsContract(JObject(m["max_length" := x]))
       <==> && IsContract(JObject(m)) && HasType(m, "string") && IsCount(x)
            && ("min_length" in m ==> Ordered(m["min_length"], x))
  {
    OneMore(m, "max_length", x);
    MaxLengthPart(m["max_length" := x], m, x, Nodes(JObject(m), Root, 1)[1..]);
  }

  /** Whether two enum values are one: numbers by their amount, all others by what they are. */
  ghost predicate SameChoice(a: Json, b: Json) {
    if a.JNumber? && b.JNumber? then Amount(a.value) == Amount(b.value) else a == b
  }

  /** Values that go with the type. */
  predicate IsChoiceOf(m: map<string, Json>, x: Json) {
    || (HasType(m, "string") && x.JString?) || (HasType(m, "boolean") && x.JBool?)
    || (HasType(m, "integer") && x.JNumber? && x.integer) || (HasType(m, "number") && x.JNumber?)
  }

  lemma ChoicesDiffer(xs: seq<Json>)
    ensures AllDifferent(EnumKeys(xs)) <==> forall i, j | 0 <= i < j < |xs| :: !SameChoice(xs[i], xs[j])
  {
    var keys := EnumKeys(xs);
    forall i, j | 0 <= i < j < |xs| ensures keys[i] == keys[j] <==> SameChoice(xs[i], xs[j]) {
      EnumKeyExact(xs[i], xs[j]);
    }
    if !(forall i, j | 0 <= i < j < |xs| :: !SameChoice(xs[i], xs[j])) {
      var i, j :| 0 <= i < j < |xs| && SameChoice(xs[i], xs[j]);
      assert keys[i] == keys[j];
    }
  }

  lemma EnumPart(n: map<string, Json>, m: map<string, Json>, x: Json, below: seq<Node>)
    requires Extends(n, m, "enum", x) && "type" in m && m["type"].JString?
    ensures RestOk(n, below) <==> RestOk(m, below) && IsEnum(x, m["type"].s)
  {
  }

  lemma EnumValuesExact(m: map<string, Json>, xs: seq<Json>)
    requires "type" in m && m["type"].JString?
    ensures (forall i | 0 <= i < |xs| :: IsEnumValue(xs[i], m["type"].s))
       <==> forall i | 0 <= i < |xs| :: IsChoiceOf(m, xs[i])
  {
  }

  /** An enum: one to fifty values of the type, no two of them the same. */
  lemma EnumExact(m: map<string, Json>, x: Json)
    requires "enum" !in m
    ensures IsContract(JObject(m["enum" := x]))
       <==> && IsContract(JObject(m)) && x.JArray? && 1 <= |x.items| <= 50
            && (forall i | 0 <= i < |x.items| :: IsChoiceOf(m, x.items[i]))
            && (forall i, j | 0 <= i < j < |x.items| :: !SameChoice(x.items[i], x.items[j]))
  {
    OneMore(m, "enum", x);
    if HeaderOk(JObject(m), Root) {
      EnumPart(m["enum" := x], m, x, Nodes(JObject(m), Root, 1)[1..]);
      if x.JArray? {
        EnumValuesExact(m, x.items);
        ChoicesDiffer(x.items);
      }
    }
  }

  /** Any other attribute is refused. */
  lemma OthersRefused(m: map<string, Json>, name: string, x: Json)
    requires name !in ["contract_version", "type", "description", "enum", "fields", "items", "min_length", "max_length",
                       "pattern", "minimum", "maximum"]
    ensures !IsContract(JObject(m[name := x]))
  {
    RootSplit(JObject(m[name := x]));
    assert name in m[name := x].Keys;
  }

  // ---- Two bounds at once -----------------------------------------------------------------

  function Root2(kind: string, low: string, a: Json, high: string, b: Json): Json {
    JObject(Bare(JString("skillmind.task-contract-draft/v1"), JString(kind))[low := a][high := b])
  }

  /** A numeric root with exactly two bounds is accepted exactly when the first is not above the second. */
  lemma BoundsDecide(kind: string, a: Json, b: Json)
    requires kind in ["integer", "number"] && a.JNumber? && b.JNumber?
    ensures IsContract(Root2(kind, "minimum", a, "maximum", b)) <==> Amount(a.value) <= Amount(b.value)
  {
    var m := Bare(JString("skillmind.task-contract-draft/v1"), JString(kind));
    BareExact(m["contract_version"], m["type"]);
    MinimumExact(m, a);
    MaximumExact(m["minimum" := a], b);
  }

  /** So is a root of strings, when both lengths are whole numbers from 0 to 100000. */
  lemma LengthsDecide(a: Json, b: Json)
    requires a.JNumber? && b.JNumber? && a.integer && b.integer
    ensures IsContract(Root2("string", "min_length", a, "max_length", b))
       <==> 0.0 <= Amount(a.value) <= Amount(b.value) <= 100000.0
  {
    var m := Bare(JString("skillmind.task-contract-draft/v1"), JString("string"));
    BareExact(m["contract_version"], m["type"]);
    MinLengthExact(m, a);
    MaxLengthExact(m["min_length" := a], b);
  }

  // ---- Fields -----------------------------------------------------------------------------

  /** A field that holds nothing but its key, whether it is required, and its type. */
  datatype Plain = Plain(key: Json, required: Json, kind: Json)

  function FieldOf(p: Plain): Json {
    JObject(map["key" := p.key, "required" := p.required, "type" := p.kind])
  }

  function FieldsOf(ps: seq<Plain>): (xs: seq<Json>)
    ensures |xs| == |ps| && forall i | 0 <= i < |ps| :: xs[i] == FieldOf(ps[i])
  {
    seq(|ps|, i requires 0 <= i < |ps| => FieldOf(ps[i]))
  }

  predicate IsPlainType(kind: Json) {
    kind.JString? && kind.s in ["object", "string", "integer", "number", "boolean"]
  }

  predicate IsLower(c: char) {
    'a' <= c <= 'z'
  }

  /** A small letter, then small letters, digits and underscores, sixty-four at most. */
  predicate IsKeyText(key: Json) {
    && key.JString? && 1 <= |key.s| <= 64 && IsLower(key.s[0])
    && forall i | 0 <= i < |key.s| :: IsLower(key.s[i]) || '0' <= key.s[i] <= '9' || key.s[i] == '_'
  }

  predicate IsPlainField(p: Plain) {
    IsKeyText(p.key) && p.required.JBool? && IsPlainType(p.kind)
  }

  lemma PlainFieldExact(p: Plain)
    ensures LocalOk(FieldOf(p), Field) <==> IsPlainField(p)
  {
    var m := FieldOf(p).members;
    assert m.Keys == {"key", "required", "type"} && m["key"] == p.key && m["required"] == p.required;
    assert m["type"] == p.kind;
    if p.kind.JString? {
      assert IsPlainType(p.kind) <==> p.kind.s in TYPES && p.kind.s != "array";
    }
  }

  lemma PlainNode(p: Plain, depth: nat)
    requires depth <= 5
    ensures AllOk(Nodes(FieldOf(p), Field, depth)) <==> IsPlainField(p)
    ensures FieldCount(Nodes(FieldOf(p), Field, depth)) == 1
  {
    var v := FieldOf(p);
    assert Nodes(v, Field, depth) == [Node(v, Field, depth)];
    SelfCount(v, Field, depth);
    SelfOk(Node(v, Field, depth));
    PlainFieldExact(p);
  }

  lemma ForestStep(xs: seq<Json>, n: nat, depth: nat)
    requires n < |xs|
    ensures AllOk(Forest(xs[..n + 1], depth)) <==> AllOk(Forest(xs[..n], depth)) && AllOk(Nodes(xs[n], Field, depth))
    ensures FieldCount(Forest(xs[..n + 1], depth))
         == FieldCount(Forest(xs[..n], depth)) + FieldCount(Nodes(xs[n], Field, depth))
  {
    ForestNext(xs, n, depth);
    CountAdds(Forest(xs[..n], depth), Nodes(xs[n], Field, depth));
    AllOkSplits(Forest(xs[..n], depth), Nodes(xs[n], Field, depth));
  }

  ghost predicate PlainUpTo(ps: seq<Plain>, n: nat)
    requires n <= |ps|
  {
    forall i | 0 <= i < n :: IsPlainField(ps[i])
  }

  lemma PlainOneMore(ps: seq<Plain>, n: nat)
    requires n < |ps|
    ensures PlainUpTo(ps, n + 1) <==> PlainUpTo(ps, n) && IsPlainField(ps[n])
  {
  }

  lemma PlainStep(p: Plain, xs: seq<Json>, depth: nat, n: nat)
    requires depth <= 5 && n < |xs| && xs[n] == FieldOf(p)
    ensures AllOk(Forest(xs[..n + 1], depth)) <==> AllOk(Forest(xs[..n], depth)) && IsPlainField(p)
    ensures FieldCount(Forest(xs[..n + 1], depth)) == FieldCount(Forest(xs[..n], depth)) + 1
  {
    ForestStep(xs, n, depth);
    PlainNode(p, depth);
  }

  lemma {:induction false} PlainForestUpTo(ps: seq<Plain>, xs: seq<Json>, depth: nat, n: nat)
    requires depth <= 5 && n <= |ps| == |xs| && forall i | 0 <= i < |ps| :: xs[i] == FieldOf(ps[i])
    ensures AllOk(Forest(xs[..n], depth)) <==> PlainUpTo(ps, n)
    ensures FieldCount(Forest(xs[..n], depth)) == n
  {
    if n == 0 {
      assert xs[..0] == [];
    } else {
      PlainForestUpTo(ps, xs, depth, n - 1);
      PlainStep(ps[n - 1], xs, depth, n - 1);
      PlainOneMore(ps, n - 1);
    }
  }

  lemma PlainForest(ps: seq<Plain>, depth: nat)
    requires depth <= 5
    ensures AllOk(Forest(FieldsOf(ps), depth)) <==> forall i | 0 <= i < |ps| :: IsPlainField(ps[i])
    ensures FieldCount(Forest(FieldsOf(ps), depth)) == |ps|
  {
    var xs := FieldsOf(ps);
    PlainForestUpTo(ps, xs, depth, |ps|);
    assert xs[..|ps|] == xs;
  }

  lemma PlainKeysDiffer(ps: seq<Plain>)
    ensures AllDifferent(ChildKeys(FieldsOf(ps))) <==> forall i, j | 0 <= i < j < |ps| :: ps[i].key != ps[j].key
  {
    var keys := ChildKeys(FieldsOf(ps));
    assert |keys| == |ps| && forall i | 0 <= i < |ps| :: keys[i] == ps[i].key;
  }

  predicate PlainListOk(ps: seq<Plain>) {
    && |ps| <= 100 && (forall i | 0 <= i < |ps| :: IsPlainField(ps[i]))
    && forall i, j | 0 <= i < j < |ps| :: ps[i].key != ps[j].key
  }

  lemma FieldListPart(n: map<string, Json>, m: map<string, Json>, x: Json, below: seq<Node>)
    requires Extends(n, m, "fields", x)
    ensures RestOk(n, below)
       <==> && BoundsOk(m) && EnumFits(m) && Acceptable(below, 0)
            && x.JArray? && |x.items| <= 100 && AllDifferent(ChildKeys(x.items))
  {
  }

  lemma OnlyForest(n: map<string, Json>, xs: seq<Json>)
    requires "fields" in n && n["fields"] == JArray(xs) && "items" !in n
    ensures Nodes(JObject(n), Root, 1)[1..] == Forest(xs, 2)
  {
    assert Nodes(JObject(n), Root, 1) == [Node(JObject(n), Root, 1)] + Forest(xs, 2);
  }

  /** A list of fields: at most a hundred, each with its own key, and only below an object. */
  lemma FieldListExact(m: map<string, Json>, ps: seq<Plain>)
    requires "fields" !in m
    ensures IsContract(JObject(m["fields" := JArray(FieldsOf(ps))]))
       <==> && IsContract(JObject(m)) && HasType(m, "object") && |ps| <= 100
            && (forall i | 0 <= i < |ps| :: IsPlainField(ps[i]))
            && (forall i, j | 0 <= i < j < |ps| :: ps[i].key != ps[j].key)
  {
    var x := JArray(FieldsOf(ps));
    var n := m["fields" := x];
    RootParts(m);
    RootParts(n);
    HeaderAdded(m, "fields", x);
    if HeaderOk(JObject(n), Root) {
      assert Nodes(JObject(m), Root, 1)[1..] == [];
      OnlyForest(n, FieldsOf(ps));
      PlainForest(ps, 2);
      PlainKeysDiffer(ps);
      assert Extends(n, m, "fields", x);
      FieldListPart(n, m, x, Forest(FieldsOf(ps), 2));
    }
  }

  lemma FieldsMustBeList(m: map<string, Json>, x: Json)
    requires !x.JArray?
    ensures !IsContract(JObject(m["fields" := x]))
  {
    RootSplit(JObject(m["fields" := x]));
  }

  // ---- The bound on all fields together ---------------------------------------------------

  /** An object field over others. */
  function Group(key: string, xs: seq<Json>): Json {
    JObject(map["key" := JString(key), "required" := JBool(true), "type" := JString("object"),
                "fields" := JArray(xs)])
  }

  lemma GroupLocal(key: string, xs: seq<Json>)
    requires IsKeyText(JString(key)) && |xs| <= 100 && AllDifferent(ChildKeys(xs))
    ensures var v := Group(key, xs);
            && HeaderOk(v, Field) && LocalOk(v, Field) && v.members["type"] == JString("object")
            && "fields" in v.members && v.members["fields"] == JArray(xs)
  {
    assert Group(key, xs).members.Keys == {"key", "required", "type", "fields"};
  }

  /** An object that is good in itself stands or falls with the forest of its fields. */
  lemma FieldsBelow(v: Json, kind: Kind, depth: nat, already: nat, nodes: seq<Node>, xs: seq<Json>, forest: seq<Node>)
    requires HeaderOk(v, kind) && LocalOk(v, kind) && depth <= 5
    requires v.members["type"] == JString("object") && "fields" in v.members && v.members["fields"] == JArray(xs)
    requires nodes == Nodes(v, kind, depth) && forest == Forest(xs, depth + 1)
    ensures Acceptable(nodes, already) <==> Acceptable(forest, already + if kind == Field then 1 else 0)
    ensures FieldCount(nodes) == (if kind == Field then 1 else 0) + FieldCount(forest)
  {
    NodesSplit(v, kind, depth, already);
  }

  /** Nodes made of one field and a forest of n good ones. */
  lemma Counting(nodes: seq<Node>, forest: seq<Node>, already: nat, n: nat)
    requires Acceptable(nodes, already) <==> Acceptable(forest, already + 1)
    requires FieldCount(nodes) == 1 + FieldCount(forest) && AllOk(forest) && FieldCount(forest) == n
    ensures (Acceptable(nodes, already) <==> already + 1 + n <= 100) && FieldCount(nodes) == 1 + n
  {
  }

  lemma CountedBelow(v: Json, nodes: seq<Node>, xs: seq<Json>, already: nat, n: nat)
    requires HeaderOk(v, Field) && LocalOk(v, Field) && nodes == Nodes(v, Field, 2)
    requires v.members["type"] == JString("object") && "fields" in v.members && v.members["fields"] == JArray(xs)
    requires AllOk(Forest(xs, 3)) && FieldCount(Forest(xs, 3)) == n
    ensures (Acceptable(nodes, already) <==> already + 1 + n <= 100) && FieldCount(nodes) == 1 + n
  {
    FieldsBelow(v, Field, 2, already, nodes, xs, Forest(xs, 3));
    Counting(nodes, Forest(xs, 3), already, n);
  }

  lemma GroupExact(key: string, ps: seq<Plain>, already: nat)
    requires PlainListOk(ps) && IsKeyText(JString(key))
    ensures Acceptable(Nodes(Group(key, FieldsOf(ps)), Field, 2), already) <==> already + 1 + |ps| <= 100
    ensures FieldCount(Nodes(Group(key, FieldsOf(ps)), Field, 2)) == 1 + |ps|
  {
    PlainKeysDiffer(ps);
    GroupLocal(key, FieldsOf(ps));
    PlainForest(ps, 3);
    var v := Group(key, FieldsOf(ps));
    CountedBelow(v, Nodes(v, Field, 2), FieldsOf(ps), already, |ps|);
  }

  function ObjectOver(xs: seq<Json>): Json {
    JObject(Bare(JString("skillmind.task-contract-draft/v1"), JString("object"))["fields" := JArray(xs)])
  }

  lemma ObjectLocal(xs: seq<Json>)
    requires |xs| <= 100 && AllDifferent(ChildKeys(xs))
    ensures var v := ObjectOver(xs);
            && HeaderOk(v, Root) && LocalOk(v, Root) && v.members["type"] == JString("object")
            && "fields" in v.members && v.members["fields"] == JArray(xs)
  {
    assert ObjectOver(xs).members.Keys == {"contract_version", "type", "fields"};
  }

  lemma PairForest(a: Json, b: Json, depth: nat)
    ensures Forest([a, b], depth) == Nodes(a, Field, depth) + Nodes(b, Field, depth)
  {
    ForestNext([a, b], 0, depth);
    ForestNext([a, b], 1, depth);
    assert [a, b][..2] == [a, b] && [a, b][..1] == [a] && Forest([a, b][..0], depth) == [];
  }

  lemma PairOver(a: Json, b: Json)
    requires ChildKey(a) != ChildKey(b)
    ensures IsContract(ObjectOver([a, b])) <==> Acceptable(Nodes(a, Field, 2) + Nodes(b, Field, 2), 0)
  {
    assert ChildKeys([a, b]) == [ChildKey(a), ChildKey(b)];
    ObjectLocal([a, b]);
    PairForest(a, b, 2);
    RootOver(ObjectOver([a, b]), [a, b], Nodes(a, Field, 2) + Nodes(b, Field, 2));
  }

  lemma RootOver(v: Json, xs: seq<Json>, forest: seq<Node>)
    requires HeaderOk(v, Root) && LocalOk(v, Root) && forest == Forest(xs, 2)
    requires v.members["type"] == JString("object") && "fields" in v.members && v.members["fields"] == JArray(xs)
    ensures IsContract(v) <==> Acceptable(forest, 0)
  {
    FieldsBelow(v, Root, 1, 0, Nodes(v, Root, 1), xs, forest);
  }

  lemma Sharing(first: seq<Node>, second: seq<Node>, n: nat, m: nat)
    requires Acceptable(first, 0) <==> 0 + 1 + n <= 100
    requires Acceptable(second, 1 + n) <==> 1 + n + 1 + m <= 100
    requires FieldCount(first) == 1 + n
    ensures Acceptable(first + second, 0) <==> 2 + n + m <= 100
  {
    AcceptableAdds(first, second, 0, 1 + n);
  }

  /** The hundred counts fields of every level: two groups under one root share it. */
  lemma TotalExact(a: seq<Plain>, b: seq<Plain>)
    requires PlainListOk(a) && PlainListOk(b)
    ensures IsContract(ObjectOver([Group("a", FieldsOf(a)), Group("b", FieldsOf(b))])) <==> 2 + |a| + |b| <= 100
  {
    var ga, gb := Group("a", FieldsOf(a)), Group("b", FieldsOf(b));
    PairOver(ga, gb);
    GroupExact("a", a, 0);
    GroupExact("b", b, 1 + |a|);
    Sharing(Nodes(ga, Field, 2), Nodes(gb, Field, 2), |a|, |b|);
  }

  // ---- Items, and how deep they go --------------------------------------------------------

  /** n arrays, one inside the other, around an item of the given type. */
  function Tower(n: nat, kind: Json): Json {
    if n == 0 then JObject(map["type" := kind])
    else JObject(map["type" := JString("array"), "items" := Tower(n - 1, kind)])
  }

  lemma ArrayItem(item: Json, depth: nat)
    requires depth <= 5
    ensures var v := JObject(map["type" := JString("array"), "items" := item]);
            Acceptable(Nodes(v, Item, depth), 0) <==> Acceptable(Nodes(item, Item, depth + 1), 0)
  {
    var v := JObject(map["type" := JString("array"), "items" := item]);
    assert v.members.Keys == {"type", "items"};
    assert HeaderOk(v, Item) && LocalOk(v, Item);
    ItemSplit(v, Item, depth, 0);
  }

  lemma PlainItemExact(kind: Json)
    ensures LocalOk(JObject(map["type" := kind]), Item) <==> IsPlainType(kind)
  {
    assert map["type" := kind].Keys == {"type"};
    if kind.JString? {
      assert IsPlainType(kind) <==> kind.s in TYPES && kind.s != "array";
    }
  }

  lemma PlainItemNode(kind: Json, depth: nat)
    requires depth <= 5
    ensures Acceptable(Nodes(JObject(map["type" := kind]), Item, depth), 0) <==> IsPlainType(kind)
  {
    var v := JObject(map["type" := kind]);
    PlainItemExact(kind);
    assert Nodes(v, Item, depth) == [Node(v, Item, depth)];
    SelfOk(Node(v, Item, depth));
    SelfCount(v, Item, depth);
  }

  lemma {:induction false} TowerExact(n: nat, kind: Json, v: Json, depth: nat)
    requires v == Tower(n, kind)
    ensures Acceptable(Nodes(v, Item, depth), 0) <==> IsPlainType(kind) && depth + n <= 5
  {
    if depth > 5 {
      SelfRejected(v, Item, depth, 0);
    } else if n == 0 {
      PlainItemNode(kind, depth);
    } else {
      var item := Tower(n - 1, kind);
      ArrayItem(item, depth);
      TowerExact(n - 1, kind, item, depth + 1);
    }
  }

  function ArrayOf(item: Json): Json {
    JObject(Bare(JString("skillmind.task-contract-draft/v1"), JString("array"))["items" := item])
  }

  lemma ArrayRoot(item: Json)
    ensures IsContract(ArrayOf(item)) <==> Acceptable(Nodes(item, Item, 2), 0)
  {
    var v := ArrayOf(item);
    assert v.members.Keys == {"contract_version", "type", "items"};
    assert HeaderOk(v, Root) && LocalOk(v, Root);
    ItemSplit(v, Root, 1, 0);
  }

  /** An array holds one item, and nodes lie at most five deep, the root counted. */
  lemma ItemsExact(n: nat, kind: Json)
    ensures IsContract(ArrayOf(Tower(n, kind))) <==> IsPlainType(kind) && n + 2 <= 5
  {
    ArrayRoot(Tower(n, kind));
    TowerExact(n, kind, Tower(n, kind), 2);
  }

  /** Only an array has items. */
  lemma ItemsNeedArray(m: map<string, Json>, x: Json)
    requires IsContract(JObject(m["items" := x]))
    ensures HasType(m["items" := x], "array")
  {
    RootSplit(JObject(m["items" := x]));
  }
}
