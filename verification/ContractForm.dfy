/**
 The canonical form behind the contract signature of an interpretation: what is left of a task's
 contracts once wording and order are dropped, and the field paths listed beside it.
 */
module ContractForm {
  import opened Wrappers
  import opened Json
  import opened Sequences
  import opened Sorting
  import Text

  /** The two printers the script relies on: canonical_json and str. */
  datatype Printers = Printers(canon: Json -> string, str: Json -> string)

  ghost predicate Injective(canon: Json -> string) {
    forall a, b :: canon(a) == canon(b) ==> a == b
  }

  /** canonical_json prints different values differently. */
  ghost predicate Canonical(py: Printers) {
    Injective(py.canon)
  }

  lemma CanonicalMeans(py: Printers)
    ensures Canonical(py) <==> forall a, b | a != b :: py.canon(a) != py.canon(b)
  {
  }

  function Order(): (string, string) -> bool {
    (s: string, t: string) => Text.Leq(s, t)
  }

  lemma OrderIsTotal()
    ensures TotalOrder(Order())
  {
    forall s, t ensures Text.Leq(s, t) || Text.Leq(t, s) {
      Text.LeqTotal(s, t);
    }
    forall s, t | Text.Leq(s, t) && Text.Leq(t, s) ensures s == t {
      Text.LeqAntisymmetric(s, t);
    }
    forall s, t, u | Text.Leq(s, t) && Text.Leq(t, u) ensures Text.Leq(s, u) {
      Text.LeqTransitive(s, t, u);
    }
  }

  // ---- Reading a response -----------------------------------------------------------------

  /** `mapping.get(name)` on a value read as a mapping: anything else is an empty one. */
  function Get(j: Json, name: string): (v: Json)
    ensures v != JNull ==> v < j
  {
    if j.JObject? && name in j.members then j.members[name] else JNull
  }

  /** The objects of a list, in order. */
  function Objects(xs: seq<Json>): (r: seq<Json>)
    ensures forall x | x in r :: x in xs && x.JObject?
  {
    if xs == [] then [] else (if xs[0].JObject? then [xs[0]] else []) + Objects(xs[1..])
  }

  function ChildFields(c: Json): (r: seq<Json>)
    ensures forall i | 0 <= i < |r| :: r[i] < c && r[i].JObject?
  {
    var fields := Get(c, "fields");
    if fields.JArray? then
      var r := Objects(fields.items);
      assert forall i | 0 <= i < |r| :: r[i] in r && r[i] in fields.items;
      r
    else []
  }

  predicate HasItems(f: Json) {
    Get(f, "items").JObject? && Get(f, "items").members != map[]
  }

  function PrintedKey(py: Printers, f: Json): string {
    py.str(Get(f, "key"))
  }

  function KeyOf(py: Printers): Json -> string {
    (f: Json) => PrintedKey(py, f)
  }

  // ---- The normal form --------------------------------------------------------------------

  function SortedValues(py: Printers, values: seq<Json>): seq<Json> {
    SortBy(values, py.canon, Order())
  }

  /** The dictionary built from the parts of a field; absent and empty parts leave no entry. */
  function Built(key: Json, required: Json, kind: Json, values: Option<seq<Json>>, nested: seq<Json>,
                 items: Option<Json>): (r: Json)
    ensures r.JObject?
  {
    var base := map["key" := key, "required" := required, "type" := kind];
    var withEnum := if values.Some? then base["enum" := JArray(values.value)] else base;
    var withFields := if nested != [] then withEnum["fields" := JArray(nested)] else withEnum;
    JObject(if items.Some? then withFields["items" := items.value] else withFields)
  }

  function EnumPart(py: Printers, f: Json): Option<seq<Json>> {
    if Get(f, "enum").JArray? then Some(SortedValues(py, Get(f, "enum").items)) else None
  }

  function FieldSemantics(py: Printers, f: Json): (r: Json)
    decreases f, 2
  {
    Built(Get(f, "key"), Get(f, "required"), Get(f, "type"), EnumPart(py, f), NestedSemantics(py, f),
          ItemsPart(py, f))
  }

  function ItemsPart(py: Printers, f: Json): Option<Json>
    decreases f, 1
  {
    if HasItems(f) then Some(FieldSemantics(py, Get(f, "items"))) else None
  }

  /** The semantics of the fields below, stably sorted by their printed key. */
  function NestedSemantics(py: Printers, c: Json): seq<Json>
    decreases c, 1
  {
    SortBy(EachSemantics(py, c), KeyOf(py), Order())
  }

  function EachSemantics(py: Printers, c: Json): seq<Json>
    decreases c, 0
  {
    seq(|ChildFields(c)|, i requires 0 <= i < |ChildFields(c)| => FieldSemantics(py, ChildFields(c)[i]))
  }

  lemma EachAt(py: Printers, c: Json)
    ensures |EachSemantics(py, c)| == |ChildFields(c)|
    ensures forall i | 0 <= i < |ChildFields(c)| :: EachSemantics(py, c)[i] == FieldSemantics(py, ChildFields(c)[i])
  {
  }

  function ContractSemantics(py: Printers, c: Json): Json {
    JObject(map["fields" := JArray(NestedSemantics(py, c))])
  }

  // ---- What it is meant to decide ---------------------------------------------------------

  predicate SameValues(a: Json, b: Json) {
    if a.JArray? && b.JArray? then multiset(a.items) == multiset(b.items) else a.JArray? == b.JArray?
  }

  /** The fields whose key prints as k, in their order. */
  function Slice(py: Printers, c: Json, k: string): (r: seq<Json>)
    ensures forall i | 0 <= i < |r| :: r[i] < c
  {
    var r := WithKey(ChildFields(c), KeyOf(py), k);
    assert forall i | 0 <= i < |r| :: r[i] < c by {
      forall i | 0 <= i < |r| ensures r[i] < c {
        WithKeyMember(ChildFields(c), KeyOf(py), k, r[i]);
      }
    }
    r
  }

  /** Same key, type, obligation, values up to order, items, and the same fields below. */
  ghost predicate SameField(py: Printers, a: Json, b: Json)
    decreases a, 2
  {
    && Get(a, "key") == Get(b, "key") && Get(a, "required") == Get(b, "required") && Get(a, "type") == Get(b, "type")
    && SameValues(Get(a, "enum"), Get(b, "enum"))
    && SameFields(py, a, b) && SameItems(py, a, b)
  }

  ghost predicate SameItems(py: Printers, a: Json, b: Json)
    decreases a, 1
  {
    HasItems(a) == HasItems(b) && (HasItems(a) ==> SameField(py, Get(a, "items"), Get(b, "items")))
  }

  /** For every printed key, the same fields in the same order; the order between keys is free. */
  ghost predicate SameFields(py: Printers, a: Json, b: Json)
    decreases a, 1
  {
    forall k: string :: SameSlice(py, a, b, k)
  }

  ghost predicate SameSlice(py: Printers, a: Json, b: Json, k: string)
    decreases a, 0
  {
    && |Slice(py, a, k)| == |Slice(py, b, k)|
    && forall i | 0 <= i < |Slice(py, a, k)| :: SameField(py, Slice(py, a, k)[i], Slice(py, b, k)[i])
  }

  // ---- The normal form decides it ---------------------------------------------------------

  /** Every part of a built dictionary can be read back. */
  lemma BuiltScalars(key: Json, required: Json, kind: Json, values: Option<seq<Json>>, nested: seq<Json>,
                     items: Option<Json>)
    ensures var r := Built(key, required, kind, values, nested, items);
            && "key" in r.members && r.members["key"] == key
            && Get(r, "required") == required && Get(r, "type") == kind
  {
  }

  lemma BuiltLists(key: Json, required: Json, kind: Json, values: Option<seq<Json>>, nested: seq<Json>,
                   items: Option<Json>)
    ensures var r := Built(key, required, kind, values, nested, items);
            && Get(r, "enum") == (if values.Some? then JArray(values.value) else JNull)
            && Get(r, "fields") == (if nested != [] then JArray(nested) else JNull)
            && ("items" in r.members <==> items.Some?) && (items.Some? ==> r.members["items"] == items.value)
  {
  }

  lemma FieldScalars(py: Printers, f: Json)
    ensures var r := FieldSemantics(py, f);
            && r.JObject? && r.members != map[]
            && Get(r, "key") == Get(f, "key") && Get(r, "required") == Get(f, "required")
            && Get(r, "type") == Get(f, "type")
  {
    BuiltScalars(Get(f, "key"), Get(f, "required"), Get(f, "type"), EnumPart(py, f), NestedSemantics(py, f),
                 ItemsPart(py, f));
  }

  lemma FieldLists(py: Printers, f: Json)
    ensures var r := FieldSemantics(py, f);
            && Get(r, "enum") == (if EnumPart(py, f).Some? then JArray(EnumPart(py, f).value) else JNull)
            && Get(r, "fields") == (if NestedSemantics(py, f) != [] then JArray(NestedSemantics(py, f)) else JNull)
            && ("items" in r.members <==> HasItems(f))
            && (HasItems(f) ==> r.members["items"] == FieldSemantics(py, Get(f, "items")))
  {
    BuiltLists(Get(f, "key"), Get(f, "required"), Get(f, "type"), EnumPart(py, f), NestedSemantics(py, f),
               ItemsPart(py, f));
  }

  lemma ValuesDecide(py: Printers, a: Json, b: Json)
    requires Canonical(py)
    ensures EnumPart(py, a) == EnumPart(py, b) <==> SameValues(Get(a, "enum"), Get(b, "enum"))
  {
    var va, vb := Get(a, "enum"), Get(b, "enum");
    if va.JArray? && vb.JArray? {
      OrderIsTotal();
      SortsAgreeOnPermutations(va.items, vb.items, py.canon, Order());
    }
  }

  /** A built dictionary and its parts determine each other. */
  lemma BuiltDecides(k: Json, r: Json, t: Json, values: Option<seq<Json>>, nested: seq<Json>, items: Option<Json>,
                     l: Json, q: Json, u: Json, otherValues: Option<seq<Json>>, others: seq<Json>,
                     otherItems: Option<Json>)
    ensures Built(k, r, t, values, nested, items) == Built(l, q, u, otherValues, others, otherItems)
       <==> k == l && r == q && t == u && values == otherValues && nested == others && items == otherItems
  {
    BuiltScalars(k, r, t, values, nested, items);
    BuiltLists(k, r, t, values, nested, items);
    BuiltScalars(l, q, u, otherValues, others, otherItems);
    BuiltLists(l, q, u, otherValues, others, otherItems);
  }

  lemma PartsDecide(py: Printers, a: Json, b: Json)
    ensures FieldSemantics(py, a) == FieldSemantics(py, b)
       <==> && Get(a, "key") == Get(b, "key") && Get(a, "required") == Get(b, "required")
            && Get(a, "type") == Get(b, "type")
            && EnumPart(py, a) == EnumPart(py, b)
            && NestedSemantics(py, a) == NestedSemantics(py, b)
            && ItemsPart(py, a) == ItemsPart(py, b)
  {
    BuiltDecides(Get(a, "key"), Get(a, "required"), Get(a, "type"), EnumPart(py, a), NestedSemantics(py, a),
                 ItemsPart(py, a),
                 Get(b, "key"), Get(b, "required"), Get(b, "type"), EnumPart(py, b), NestedSemantics(py, b),
                 ItemsPart(py, b));
  }

  /** Slices of the normal forms are the normal forms of the slices. */
  lemma SliceSemantics(py: Printers, c: Json, k: string)
    ensures var r := WithKey(EachSemantics(py, c), KeyOf(py), k);
            && |r| == |Slice(py, c, k)|
            && forall i | 0 <= i < |r| :: r[i] == FieldSemantics(py, Slice(py, c, k)[i])
  {
    var xs, ys := ChildFields(c), EachSemantics(py, c);
    forall i | 0 <= i < |xs| ensures KeyOf(py)(ys[i]) == KeyOf(py)(xs[i]) {
      FieldScalars(py, xs[i]);
    }
    WithKeyOfMapped(xs, ys, (f: Json) => FieldSemantics(py, f), KeyOf(py), KeyOf(py), k);
  }

  ghost predicate SliceAgrees(py: Printers, a: Json, b: Json, k: string) {
    && |Slice(py, a, k)| == |Slice(py, b, k)|
    && forall i | 0 <= i < |Slice(py, a, k)| ::
         FieldSemantics(py, Slice(py, a, k)[i]) == FieldSemantics(py, Slice(py, b, k)[i])
  }

  lemma SliceDecides(py: Printers, a: Json, b: Json, k: string)
    ensures WithKey(EachSemantics(py, a), KeyOf(py), k) == WithKey(EachSemantics(py, b), KeyOf(py), k)
       <==> SliceAgrees(py, a, b, k)
  {
    SliceSemantics(py, a, k);
    SliceSemantics(py, b, k);
  }

  lemma NestedDecides(py: Printers, a: Json, b: Json)
    ensures NestedSemantics(py, a) == NestedSemantics(py, b) <==> forall k: string :: SliceAgrees(py, a, b, k)
  {
    OrderIsTotal();
    SortsAgree(EachSemantics(py, a), EachSemantics(py, b), KeyOf(py), Order());
    forall k: string
      ensures WithKey(EachSemantics(py, a), KeyOf(py), k) == WithKey(EachSemantics(py, b), KeyOf(py), k)
         <==> SliceAgrees(py, a, b, k)
    {
      SliceDecides(py, a, b, k);
    }
  }

  /** Two fields have one normal form exactly when they mean the same. */
  lemma {:induction false} FieldsDecided(py: Printers, a: Json, b: Json)
    requires Canonical(py)
    ensures FieldSemantics(py, a) == FieldSemantics(py, b) <==> SameField(py, a, b)
    decreases a, 2
  {
    PartsDecide(py, a, b);
    ValuesDecide(py, a, b);
    NestedDecided(py, a, b);
    ItemsDecided(py, a, b);
  }

  lemma {:induction false} ItemsDecided(py: Printers, a: Json, b: Json)
    requires Canonical(py)
    ensures ItemsPart(py, a) == ItemsPart(py, b) <==> SameItems(py, a, b)
    decreases a, 1
  {
    if HasItems(a) && HasItems(b) {
      FieldsDecided(py, Get(a, "items"), Get(b, "items"));
    }
  }

  lemma {:induction false} NestedDecided(py: Printers, a: Json, b: Json)
    requires Canonical(py)
    ensures NestedSemantics(py, a) == NestedSemantics(py, b) <==> SameFields(py, a, b)
    decreases a, 1
  {
    NestedDecides(py, a, b);
    forall k: string ensures SliceAgrees(py, a, b, k) <==> SameSlice(py, a, b, k) {
      SliceDecided(py, a, b, k);
    }
  }

  lemma {:induction false} SliceDecided(py: Printers, a: Json, b: Json, k: string)
    requires Canonical(py)
    ensures SliceAgrees(py, a, b, k) <==> SameSlice(py, a, b, k)
    decreases a, 0
  {
    var xs, ys := Slice(py, a, k), Slice(py, b, k);
    forall i | 0 <= i < |xs| && |xs| == |ys|
      ensures FieldSemantics(py, xs[i]) == FieldSemantics(py, ys[i]) <==> SameField(py, xs[i], ys[i])
    {
      FieldsDecided(py, xs[i], ys[i]);
    }
  }

  lemma ContractsDecided(py: Printers, a: Json, b: Json)
    requires Canonical(py)
    ensures ContractSemantics(py, a) == ContractSemantics(py, b) <==> SameFields(py, a, b)
  {
    NestedDecided(py, a, b);
    assert ContractSemantics(py, a).members["fields"].items == NestedSemantics(py, a);
    assert ContractSemantics(py, b).members["fields"].items == NestedSemantics(py, b);
  }

  // ---- Consequences -----------------------------------------------------------------------

  function KeysIn(py: Printers, c: Json): seq<string> {
    Map(ChildFields(c), KeyOf(py))
  }

  lemma SliceCounts(py: Printers, c: Json, k: string)
    ensures |Slice(py, c, k)| == multiset(KeysIn(py, c))[k]
    ensures forall x | x in ChildFields(c) && KeyOf(py)(x) == k :: x in Slice(py, c, k)
    ensures forall x | x in Slice(py, c, k) :: x in ChildFields(c) && KeyOf(py)(x) == k
  {
    SliceLength(ChildFields(c), KeysIn(py, c), KeyOf(py), k);
    forall x ensures x in Slice(py, c, k) <==> x in ChildFields(c) && KeyOf(py)(x) == k {
      WithKeyMember(ChildFields(c), KeyOf(py), k, x);
    }
  }

  ghost predicate SameByKey(py: Printers, a: Json, b: Json) {
    forall x, y | x in ChildFields(a) && y in ChildFields(b) && KeyOf(py)(x) == KeyOf(py)(y) :: SameField(py, x, y)
  }

  lemma SlicesCountKeys(py: Printers, a: Json, b: Json)
    requires SameFields(py, a, b)
    ensures multiset(KeysIn(py, a)) == multiset(KeysIn(py, b))
  {
    forall k ensures multiset(KeysIn(py, a))[k] == multiset(KeysIn(py, b))[k] {
      assert SameSlice(py, a, b, k);
      SliceCounts(py, a, k);
      SliceCounts(py, b, k);
    }
  }

  lemma FieldsPair(py: Printers, a: Json, b: Json)
    requires Distinct(KeysIn(py, a)) && SameFields(py, a, b)
    ensures SameByKey(py, a, b)
  {
    forall x, y | x in ChildFields(a) && y in ChildFields(b) && KeyOf(py)(x) == KeyOf(py)(y)
      ensures SameField(py, x, y)
    {
      assert SameSlice(py, a, b, KeyOf(py)(x));
      PairedByKey(py, a, b, x, y);
    }
  }

  /** Without repeated keys the order of the fields is free: only keys and the fields under them count. */
  lemma FieldsByKey(py: Printers, a: Json, b: Json)
    requires Distinct(KeysIn(py, a))
    ensures SameFields(py, a, b) <==> multiset(KeysIn(py, a)) == multiset(KeysIn(py, b)) && SameByKey(py, a, b)
  {
    if SameFields(py, a, b) {
      SlicesCountKeys(py, a, b);
      FieldsPair(py, a, b);
    }
    if multiset(KeysIn(py, a)) == multiset(KeysIn(py, b)) && SameByKey(py, a, b) {
      forall k: string ensures SameSlice(py, a, b, k) {
        SliceByKey(py, a, b, k);
      }
    }
  }

  lemma SliceByKey(py: Printers, a: Json, b: Json, k: string)
    requires multiset(KeysIn(py, a)) == multiset(KeysIn(py, b)) && SameByKey(py, a, b)
    ensures SameSlice(py, a, b, k)
  {
    SliceCounts(py, a, k);
    SliceCounts(py, b, k);
    var xs, ys := Slice(py, a, k), Slice(py, b, k);
    forall i | 0 <= i < |xs| ensures SameField(py, xs[i], ys[i]) {
      assert xs[i] in xs && ys[i] in ys;
    }
  }

  lemma OnlyOne(py: Printers, xs: seq<Json>, ys: seq<Json>, x: Json, y: Json)
    requires |xs| == |ys| <= 1 && x in xs && y in ys && SameField(py, xs[0], ys[0])
    ensures SameField(py, x, y)
  {
    assert xs == [x] && ys == [y];
  }

  lemma PairedByKey(py: Printers, a: Json, b: Json, x: Json, y: Json)
    requires Distinct(KeysIn(py, a)) && SameSlice(py, a, b, KeyOf(py)(x))
    requires x in ChildFields(a) && y in ChildFields(b) && KeyOf(py)(x) == KeyOf(py)(y)
    ensures SameField(py, x, y)
  {
    var k := KeyOf(py)(x);
    SliceCounts(py, a, k);
    SliceCounts(py, b, k);
    DistinctOnce(KeysIn(py, a), k);
    OnlyOne(py, Slice(py, a, k), Slice(py, b, k), x, y);
  }

  const CONSIDERED := {"key", "required", "type", "enum", "fields", "items"}

  /** Wording and every other attribute of a field leave no trace. */
  lemma OtherAttributesIgnored(py: Printers, members: map<string, Json>, name: string, v: Json)
    requires name !in CONSIDERED
    ensures FieldSemantics(py, JObject(members[name := v])) == FieldSemantics(py, JObject(members))
  {
    var a, b := JObject(members[name := v]), JObject(members);
    assert forall n | n in CONSIDERED :: Get(a, n) == Get(b, n);
    assert Get(a, "fields") == Get(b, "fields") && Get(a, "items") == Get(b, "items");
    assert Get(a, "enum") == Get(b, "enum");
    assert EachSemantics(py, a) == EachSemantics(py, b);
    PartsDecide(py, a, b);
  }

  lemma {:induction false} ObjectsOnly(xs: seq<Json>)
    requires forall x | x in xs :: x.JObject?
    ensures Objects(xs) == xs
  {
    if xs != [] {
      ObjectsOnly(xs[1..]);
    }
  }

  lemma NormalList(py: Printers, c: Json)
    ensures Objects(NestedSemantics(py, c)) == NestedSemantics(py, c)
  {
    var each, r := EachSemantics(py, c), NestedSemantics(py, c);
    EachAt(py, c);
    forall x | x in r ensures x.JObject? {
      assert x in multiset(r) && x in multiset(each);
    }
    ObjectsOnly(r);
  }

  lemma ChildrenOf(c: Json, r: seq<Json>)
    requires Get(c, "fields") == (if r != [] then JArray(r) else JNull) || Get(c, "fields") == JArray(r)
    requires Objects(r) == r
    ensures ChildFields(c) == r
  {
  }

  /** The fields below a normal form are the normal forms of the fields below. */
  lemma NormalChildren(py: Printers, c: Json)
    ensures ChildFields(FieldSemantics(py, c)) == NestedSemantics(py, c)
    ensures ChildFields(ContractSemantics(py, c)) == NestedSemantics(py, c)
  {
    FieldLists(py, c);
    NormalList(py, c);
    ChildrenOf(FieldSemantics(py, c), NestedSemantics(py, c));
    ChildrenOf(ContractSemantics(py, c), NestedSemantics(py, c));
  }

  lemma NormalItems(py: Printers, f: Json)
    ensures HasItems(FieldSemantics(py, f)) == HasItems(f)
    ensures HasItems(f) ==> Get(FieldSemantics(py, f), "items") == FieldSemantics(py, Get(f, "items"))
  {
    FieldLists(py, f);
    if HasItems(f) {
      FieldScalars(py, Get(f, "items"));
    }
  }

  lemma {:induction false} NormalFormIsSame(py: Printers, f: Json)
    ensures SameField(py, f, FieldSemantics(py, f))
    decreases f, 1
  {
    FieldScalars(py, f);
    FieldLists(py, f);
    NormalFieldsAreSame(py, f);
    NormalItems(py, f);
    if HasItems(f) {
      NormalFormIsSame(py, Get(f, "items"));
    }
  }

  lemma {:induction false} NormalFieldsAreSame(py: Printers, c: Json)
    ensures SameFields(py, c, FieldSemantics(py, c))
    decreases c, 0
  {
    forall k: string ensures SameSlice(py, c, FieldSemantics(py, c), k) {
      NormalChildren(py, c);
      SortByStable(EachSemantics(py, c), KeyOf(py), Order(), k) by {
        OrderIsTotal();
      }
      SliceSemantics(py, c, k);
      forall i | 0 <= i < |Slice(py, c, k)|
        ensures SameField(py, Slice(py, c, k)[i], FieldSemantics(py, Slice(py, c, k)[i]))
      {
        NormalFormIsSame(py, Slice(py, c, k)[i]);
      }
    }
  }

  /** The normal form is its own normal form, and it means what the field means. */
  lemma NormalFormIdempotent(py: Printers, f: Json)
    requires Canonical(py)
    ensures FieldSemantics(py, FieldSemantics(py, f)) == FieldSemantics(py, f)
  {
    NormalFormIsSame(py, f);
    FieldsDecided(py, f, FieldSemantics(py, f));
  }
}
