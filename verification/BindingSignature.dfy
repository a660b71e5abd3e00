/**
 The rest of the semantic signature: data sources, tools and workflows of a manifest, which also make up
 the signature of its runtime binding. Sources and workflows are sorted by their whole text, tools by
 their capability alone.
 */
module BindingSignature {
  import opened Json
  import opened Sequences
  import opened Sorting
  import opened ContractForm
  import opened TaskSignature
  import Text

  // ---- Normalised entries -----------------------------------------------------------------

  /** The objects of a list; any other value has none. */
  function ObjectsIn(j: Json): seq<Json> {
    if j.JArray? then Objects(j.items) else []
  }

  function Strings(xs: seq<Json>): seq<string> {
    if xs == [] then [] else (if xs[0].JString? then [xs[0].s] else []) + Strings(xs[1..])
  }

  function StringsIn(j: Json): seq<string> {
    if j.JArray? then Strings(j.items) else []
  }

  function Quoted(s: string): Json {
    JString(s)
  }

  function EachQuoted(): string -> Json {
    (s: string) => Quoted(s)
  }

  function SortedStrings(ss: seq<string>): Json {
    JArray(Map(SortBy(ss, Itself(), Order()), EachQuoted()))
  }

  function SourceOf(providers: Json, capability: Json, required: Json, policy: Json): Json {
    JObject(map["accepted_providers" := providers, "capability" := capability, "required" := required,
                "selection_policy" := policy])
  }

  function SourceEntry(item: Json): Json {
    SourceOf(SortedStrings(StringsIn(Get(item, "accepted_providers"))), Get(item, "capability"), Get(item, "required"),
             Get(item, "selection_policy"))
  }

  function ToolEntry(item: Json): Json {
    JObject(map["capability" := Get(item, "capability"), "required" := Get(item, "required")])
  }

  function StepEntry(step: Json): Json {
    JObject(map["kind" := Get(step, "kind")])
  }

  function EachStep(): Json -> Json {
    (step: Json) => StepEntry(step)
  }

  function WorkflowEntry(workflow: Json): Json {
    JObject(map["steps" := JArray(Map(ObjectsIn(Get(workflow, "steps")), EachStep()))])
  }

  function EachSource(): Json -> Json {
    (item: Json) => SourceEntry(item)
  }

  function EachTool(): Json -> Json {
    (item: Json) => ToolEntry(item)
  }

  function EachWorkflow(): Json -> Json {
    (item: Json) => WorkflowEntry(item)
  }

  function Sources(items: seq<Json>): seq<Json> {
    Map(Objects(items), EachSource())
  }

  function Tools(items: seq<Json>): seq<Json> {
    Map(Objects(items), EachTool())
  }

  function Workflows(items: seq<Json>): seq<Json> {
    Map(Objects(items), EachWorkflow())
  }

  /** `str(item.get("capability"))` */
  function CapabilityText(py: Printers, entry: Json): string {
    py.str(Get(entry, "capability"))
  }

  function ToolKey(py: Printers): Json -> string {
    (entry: Json) => CapabilityText(py, entry)
  }

  function SortedTools(py: Printers, items: seq<Json>): seq<Json> {
    SortBy(Tools(items), ToolKey(py), Order())
  }

  // ---- What the entries keep --------------------------------------------------------------

  lemma SourceParts(a: seq<Json>, b: seq<Json>)
    requires |a| == |b| == 4
    ensures SourceOf(a[0], a[1], a[2], a[3]) == SourceOf(b[0], b[1], b[2], b[3]) <==> a == b
  {
    var x, y := SourceOf(a[0], a[1], a[2], a[3]).members, SourceOf(b[0], b[1], b[2], b[3]).members;
    if x == y {
      assert x["accepted_providers"] == y["accepted_providers"] && x["capability"] == y["capability"];
      assert x["required"] == y["required"] && x["selection_policy"] == y["selection_policy"];
      assert a == b;
    }
  }

  /** The attributes of a source other than its providers. */
  function Plain(item: Json): seq<Json> {
    [Get(item, "capability"), Get(item, "required"), Get(item, "selection_policy")]
  }

  /** Two sources have one entry exactly when all four attributes agree, providers up to order. */
  lemma SourceEntryExact(a: Json, b: Json)
    ensures SourceEntry(a) == SourceEntry(b)
       <==> && multiset(StringsIn(Get(a, "accepted_providers"))) == multiset(StringsIn(Get(b, "accepted_providers")))
            && Plain(a) == Plain(b)
  {
    var pa, pb := StringsIn(Get(a, "accepted_providers")), StringsIn(Get(b, "accepted_providers"));
    SortedStringsExact(pa, pb);
    FourthFirst(SortedStrings(pa), Plain(a), SortedStrings(pb), Plain(b));
  }

  lemma FourthFirst(x: Json, a: seq<Json>, y: Json, b: seq<Json>)
    requires |a| == |b| == 3
    ensures SourceOf(x, a[0], a[1], a[2]) == SourceOf(y, b[0], b[1], b[2]) <==> x == y && a == b
  {
    SourceParts([x] + a, [y] + b);
    assert ([x] + a)[1..] == a && ([y] + b)[1..] == b;
  }

  lemma QuotedTellApart(a: seq<string>, b: seq<string>)
    requires Map(a, EachQuoted()) == Map(b, EachQuoted())
    ensures a == b
  {
    var f := EachQuoted();
    assert |a| == |Map(a, f)| == |Map(b, f)| == |b|;
    forall i | 0 <= i < |a| ensures a[i] == b[i] {
      assert Map(a, f)[i] == Map(b, f)[i];
    }
  }

  lemma SortedStringsExact(xs: seq<string>, ys: seq<string>)
    ensures SortedStrings(xs) == SortedStrings(ys) <==> multiset(xs) == multiset(ys)
  {
    OrderIsTotal();
    SortsAgreeOnPermutations(xs, ys, Itself(), Order());
    if SortedStrings(xs) == SortedStrings(ys) {
      QuotedTellApart(SortBy(xs, Itself(), Order()), SortBy(ys, Itself(), Order()));
    }
  }

  lemma ToolEntryExact(a: Json, b: Json)
    ensures ToolEntry(a) == ToolEntry(b)
       <==> Get(a, "capability") == Get(b, "capability") && Get(a, "required") == Get(b, "required")
  {
    var x, y := ToolEntry(a).members, ToolEntry(b).members;
    if ToolEntry(a) == ToolEntry(b) {
      assert x["capability"] == y["capability"] && x["required"] == y["required"];
    }
  }

  lemma StepEntryExact(a: Json, b: Json)
    ensures StepEntry(a) == StepEntry(b) <==> Get(a, "kind") == Get(b, "kind")
  {
    var x, y := StepEntry(a).members, StepEntry(b).members;
    if StepEntry(a) == StepEntry(b) {
      assert x["kind"] == y["kind"];
    }
  }

  lemma StepEntriesExact(xs: seq<Json>, ys: seq<Json>)
    ensures Map(xs, EachStep()) == Map(ys, EachStep())
       <==> |xs| == |ys| && forall i | 0 <= i < |xs| :: Get(xs[i], "kind") == Get(ys[i], "kind")
  {
    var mx, my := Map(xs, EachStep()), Map(ys, EachStep());
    assert |mx| == |xs| && |my| == |ys|;
    if |xs| == |ys| {
      forall i | 0 <= i < |xs| ensures mx[i] == my[i] <==> Get(xs[i], "kind") == Get(ys[i], "kind") {
        StepEntryExact(xs[i], ys[i]);
      }
    }
  }

  /** Two workflows leave one entry exactly when their steps are of the same kinds, one by one. */
  lemma WorkflowEntryExact(a: Json, b: Json)
    ensures WorkflowEntry(a) == WorkflowEntry(b)
       <==> var xs, ys := ObjectsIn(Get(a, "steps")), ObjectsIn(Get(b, "steps"));
            |xs| == |ys| && forall i | 0 <= i < |xs| :: Get(xs[i], "kind") == Get(ys[i], "kind")
  {
    var xs, ys := ObjectsIn(Get(a, "steps")), ObjectsIn(Get(b, "steps"));
    StepEntriesExact(xs, ys);
    if WorkflowEntry(a) == WorkflowEntry(b) {
      assert WorkflowEntry(a).members["steps"] == WorkflowEntry(b).members["steps"];
    }
  }

  // ---- Entries paired off -----------------------------------------------------------------

  /** The same kinds of steps in the same order. */
  ghost predicate SameSteps(a: Json, b: Json) {
    var xs, ys := ObjectsIn(Get(a, "steps")), ObjectsIn(Get(b, "steps"));
    |xs| == |ys| && forall i | 0 <= i < |xs| :: Get(xs[i], "kind") == Get(ys[i], "kind")
  }

  ghost predicate WorkflowsPaired(xs: seq<Json>, ys: seq<Json>, p: seq<nat>) {
    |xs| == |ys| && IsRearrangement(p, |xs|) && forall i | 0 <= i < |xs| :: SameSteps(xs[i], ys[p[i]])
  }

  /** The same three attributes, and the same accepted providers up to order. */
  ghost predicate SameSource(a: Json, b: Json) {
    && Get(a, "capability") == Get(b, "capability") && Get(a, "required") == Get(b, "required")
    && Get(a, "selection_policy") == Get(b, "selection_policy")
    && multiset(StringsIn(Get(a, "accepted_providers"))) == multiset(StringsIn(Get(b, "accepted_providers")))
  }

  ghost predicate SourcesPaired(xs: seq<Json>, ys: seq<Json>, p: seq<nat>) {
    |xs| == |ys| && IsRearrangement(p, |xs|) && forall i | 0 <= i < |xs| :: SameSource(xs[i], ys[p[i]])
  }

  lemma WorkflowsPairOff(xs: seq<Json>, ys: seq<Json>)
    ensures multiset(Map(xs, EachWorkflow())) == multiset(Map(ys, EachWorkflow()))
       <==> exists p :: WorkflowsPaired(xs, ys, p)
  {
    ImagesPairOff(xs, ys, EachWorkflow());
    forall p ensures WorkflowsPaired(xs, ys, p) <==> ImagesMatch(xs, ys, EachWorkflow(), p) {
      if |xs| == |ys| && IsRearrangement(p, |xs|) {
        forall i | 0 <= i < |xs|
          ensures EachWorkflow()(xs[i]) == EachWorkflow()(ys[p[i]]) <==> SameSteps(xs[i], ys[p[i]])
        {
          WorkflowEntryExact(xs[i], ys[p[i]]);
        }
      }
    }
  }

  lemma SourcesPairOff(xs: seq<Json>, ys: seq<Json>)
    ensures multiset(Map(xs, EachSource())) == multiset(Map(ys, EachSource()))
       <==> exists p :: SourcesPaired(xs, ys, p)
  {
    ImagesPairOff(xs, ys, EachSource());
    forall p ensures SourcesPaired(xs, ys, p) <==> ImagesMatch(xs, ys, EachSource(), p) {
      if |xs| == |ys| && IsRearrangement(p, |xs|) {
        forall i | 0 <= i < |xs|
          ensures EachSource()(xs[i]) == EachSource()(ys[p[i]]) <==> SameSource(xs[i], ys[p[i]])
        {
          SourceEntryExact(xs[i], ys[p[i]]);
        }
      }
    }
  }

  // ---- Tools are not always order-free ----------------------------------------------------

  /** What a value contributes to a list of entries: one entry if it is an object, nothing otherwise. */
  ghost function EntryBag(entry: Json -> Json): Json -> multiset<Json> {
    (item: Json) => if item.JObject? then multiset{entry(item)} else multiset{}
  }

  lemma EntriesAppend(items: seq<Json>, last: Json, entry: Json -> Json)
    ensures multiset(Map(Objects(items + [last]), entry))
         == multiset(Map(Objects(items), entry)) + EntryBag(entry)(last)
  {
    ObjectsAppend(items, last);
    MapAppend(Objects(items), last, entry);
    assert Objects(items) + [] == Objects(items);
  }

  lemma {:induction false} EntriesBag(items: seq<Json>, entry: Json -> Json)
    ensures multiset(Map(Objects(items), entry)) == Collected(items, EntryBag(entry))
  {
    if items != [] {
      var n := |items| - 1;
      EntriesBag(items[..n], entry);
      EntriesAppend(items[..n], items[n], entry);
      assert items == items[..n] + [items[n]];
    }
  }

  lemma {:induction false} ObjectsAppend(xs: seq<Json>, x: Json)
    ensures Objects(xs + [x]) == Objects(xs) + if x.JObject? then [x] else []
  {
    if xs == [] {
      assert xs + [x] == [x];
    } else {
      assert (xs + [x])[1..] == xs[1..] + [x];
      ObjectsAppend(xs[1..], x);
    }
  }

  lemma EntriesShuffled(items: seq<Json>, others: seq<Json>, entry: Json -> Json)
    requires multiset(items) == multiset(others)
    ensures multiset(Map(Objects(items), entry)) == multiset(Map(Objects(others), entry))
  {
    EntriesBag(items, entry);
    EntriesBag(others, entry);
    CollectedPermutes(items, others, EntryBag(entry));
  }

  /** Two tools that print the same capability and yet differ in it or in being required. */
  ghost predicate Clash(py: Printers, a: Json, b: Json) {
    && a.JObject? && b.JObject? && py.str(Get(a, "capability")) == py.str(Get(b, "capability"))
    && ToolEntry(a) != ToolEntry(b)
  }

  ghost predicate ToolsTellApart(py: Printers, items: seq<Json>) {
    forall a, b | a in items && b in items :: !Clash(py, a, b)
  }

  lemma ToolKeyOfEntry(py: Printers, item: Json)
    ensures ToolKey(py)(ToolEntry(item)) == py.str(Get(item, "capability"))
  {
    assert ToolEntry(item).members["capability"] == Get(item, "capability");
  }

  ghost predicate SortAlike(py: Printers, items: seq<Json>, others: seq<Json>) {
    SortedTools(py, items) == SortedTools(py, others)
  }

  ghost predicate OrderUnseen(py: Printers, items: seq<Json>) {
    forall others | multiset(others) == multiset(items) :: SortAlike(py, items, others)
  }

  lemma {:induction false} ObjectsMember(xs: seq<Json>, x: Json)
    ensures x in Objects(xs) <==> x in xs && x.JObject?
  {
    if xs != [] {
      ObjectsMember(xs[1..], x);
      assert xs == [xs[0]] + xs[1..];
    }
  }

  lemma ToolsMember(items: seq<Json>, entry: Json)
    requires entry in Tools(items)
    ensures exists item :: item in items && item.JObject? && ToolEntry(item) == entry
  {
    var objects := Objects(items);
    var i :| 0 <= i < |objects| && Tools(items)[i] == entry;
    assert objects[i] in objects;
    ObjectsMember(items, objects[i]);
  }

  lemma TellingApartSuffices(py: Printers, items: seq<Json>)
    requires ToolsTellApart(py, items)
    ensures OrderUnseen(py, items)
  {
    OrderIsTotal();
    var key := ToolKey(py);
    forall x, y | x in Tools(items) && y in Tools(items) && key(x) == key(y) ensures x == y {
      ToolsMember(items, x);
      ToolsMember(items, y);
      var a :| a in items && a.JObject? && ToolEntry(a) == x;
      var b :| b in items && b.JObject? && ToolEntry(b) == y;
      ToolKeyOfEntry(py, a);
      ToolKeyOfEntry(py, b);
      assert !Clash(py, a, b);
    }
    forall others | multiset(others) == multiset(items) ensures SortAlike(py, items, others) {
      EntriesShuffled(items, others, EachTool());
      PermutedSorts(Tools(items), Tools(others), key, Order());
    }
  }

  lemma SwapIsSeen(py: Printers, rest: seq<Json>, a: Json, b: Json)
    requires Clash(py, a, b)
    ensures SortedTools(py, [a, b] + rest) != SortedTools(py, [b, a] + rest)
  {
    OrderIsTotal();
    var key, more := ToolKey(py), Tools(rest);
    var x, y := ToolEntry(a), ToolEntry(b);
    ToolsPair(a, b, rest);
    ToolsPair(b, a, rest);
    ToolKeyOfEntry(py, a);
    ToolKeyOfEntry(py, b);
    SortsAgree([x, y] + more, [y, x] + more, key, Order());
    PairSlice(x, y, more, key);
    PairSlice(y, x, more, key);
    assert WithKey([x, y] + more, key, key(x))[0] != WithKey([y, x] + more, key, key(x))[0];
  }

  lemma ObjectsCons(x: Json, xs: seq<Json>)
    requires x.JObject?
    ensures Objects([x] + xs) == [x] + Objects(xs)
  {
    assert ([x] + xs)[1..] == xs;
  }

  lemma ToolsCons(a: Json, xs: seq<Json>)
    requires a.JObject?
    ensures Tools([a] + xs) == [EachTool()(a)] + Tools(xs)
  {
    ObjectsCons(a, xs);
    MapCons(a, Objects(xs), EachTool());
  }

  lemma InFront(x: Json, y: Json, more: seq<Json>)
    ensures [x, y] + more == [x] + ([y] + more)
  {
  }

  lemma ToolsPair(a: Json, b: Json, rest: seq<Json>)
    requires a.JObject? && b.JObject?
    ensures Tools([a, b] + rest) == [ToolEntry(a), ToolEntry(b)] + Tools(rest)
  {
    InFront(a, b, rest);
    ToolsCons(a, [b] + rest);
    ToolsCons(b, rest);
    InFront(EachTool()(a), EachTool()(b), Tools(rest));
  }

  lemma PairSlice(x: Json, y: Json, more: seq<Json>, key: Json -> string)
    requires key(x) == key(y)
    ensures WithKey([x, y] + more, key, key(x)) == [x, y] + WithKey(more, key, key(x))
  {
    assert [x, y] + more == [x] + ([y] + more);
    WithKeyCons(x, [y] + more, key, key(x));
    WithKeyCons(y, more, key, key(x));
  }

  lemma TwoOrdersSeen(py: Printers, items: seq<Json>, xs: seq<Json>, ys: seq<Json>)
    requires multiset(xs) == multiset(items) && multiset(ys) == multiset(items)
    requires SortedTools(py, xs) != SortedTools(py, ys)
    ensures !OrderUnseen(py, items)
  {
    assert !SortAlike(py, items, xs) || !SortAlike(py, items, ys);
  }

  lemma ClashIsSeen(py: Printers, items: seq<Json>, a: Json, b: Json)
    requires a in items && b in items && Clash(py, a, b)
    ensures !OrderUnseen(py, items)
  {
    var rest := TakeTwo(items, a, b);
    FrontMultiset(a, b, rest, multiset(items));
    SwapIsSeen(py, rest, a, b);
    TwoOrdersSeen(py, items, [a, b] + rest, [b, a] + rest);
  }

  /**
   The order in which a manifest lists its tools is invisible exactly when tools that print the same
   capability agree on it and on being required.
   */
  lemma ToolOrderExact(py: Printers, items: seq<Json>)
    ensures OrderUnseen(py, items) <==> ToolsTellApart(py, items)
  {
    if a, b :| a in items && b in items && Clash(py, a, b) {
      ClashIsSeen(py, items, a, b);
    } else {
      TellingApartSuffices(py, items);
    }
  }

  function Tool(capability: string, required: bool): Json {
    JObject(map["capability" := JString(capability), "required" := JBool(required)])
  }

  /** A capability listed once as required and once as optional: swapping the two changes the list that is hashed. */
  lemma ToolOrderSeen(py: Printers, capability: string)
    ensures var a, b := Tool(capability, true), Tool(capability, false);
            SortedTools(py, [a, b]) != SortedTools(py, [b, a])
  {
    var a, b := Tool(capability, true), Tool(capability, false);
    assert a.members["required"] == JBool(true) && b.members["required"] == JBool(false);
    assert a.members["capability"] == b.members["capability"];
    ToolEntryExact(a, b);
    SwapIsSeen(py, [], a, b);
    assert [a, b] + [] == [a, b] && [b, a] + [] == [b, a];
  }

  // ---- The whole signature ----------------------------------------------------------------

  /** The dictionary that is hashed into the semantic signature, from its six values. */
  function Semantic(compatibility: Json, count: Json, tasks: Json, sources: Json, tools: Json, workflows: Json): Json {
    JObject(map["compatibility" := compatibility, "capability_count" := count, "tasks" := tasks,
                "data_sources" := sources, "tools" := tools, "workflows" := workflows])
  }

  lemma SemanticParts(a: seq<Json>, b: seq<Json>)
    requires |a| == |b| == 6
    ensures Semantic(a[0], a[1], a[2], a[3], a[4], a[5]) == Semantic(b[0], b[1], b[2], b[3], b[4], b[5]) <==> a == b
  {
    var x := Semantic(a[0], a[1], a[2], a[3], a[4], a[5]).members;
    var y := Semantic(b[0], b[1], b[2], b[3], b[4], b[5]).members;
    if x == y {
      assert x["compatibility"] == y["compatibility"] && x["capability_count"] == y["capability_count"];
      assert x["tasks"] == y["tasks"] && x["data_sources"] == y["data_sources"];
      assert x["tools"] == y["tools"] && x["workflows"] == y["workflows"];
      assert a == b;
    }
  }

  function TaskList(manifest: Json): seq<Json> {
    ObjectsIn(Get(manifest, "tasks"))
  }

  function ListOf(manifest: Json, name: string): seq<Json> {
    if Get(manifest, name).JArray? then Get(manifest, name).items else []
  }

  function TasksJson(py: Printers, manifest: Json): Json {
    JArray(Entries(Map(Ordered(py, TaskList(manifest)), SemanticsOf(py))))
  }

  function Parts(py: Printers, manifest: Json): (parts: seq<Json>)
    ensures |parts| == 6
  {
    [Get(Get(manifest, "compatibility"), "level"),
     JNumber(Whole(|ObjectsIn(Get(manifest, "capabilities"))|), true),
     TasksJson(py, manifest),
     JArray(SortBy(Sources(ListOf(manifest, "data_sources")), py.canon, Order())),
     JArray(SortedTools(py, ListOf(manifest, "tools"))),
     JArray(SortBy(Workflows(ListOf(manifest, "workflows")), py.canon, Order()))]
  }

  function SemanticText(py: Printers, manifest: Json): string {
    var parts := Parts(py, manifest);
    py.canon(Semantic(parts[0], parts[1], parts[2], parts[3], parts[4], parts[5]))
  }

  /** The tools whose capability prints as k, in the order in which they are listed. */
  function ToolsPrinting(py: Printers, tools: seq<Json>, k: string): seq<Json> {
    WithKey(tools, ToolKey(py), k)
  }

  /** Under one printed capability, the same capabilities and obligations in the same order. */
  ghost predicate SameToolsUnder(py: Printers, xs: seq<Json>, ys: seq<Json>, k: string) {
    var a, b := ToolsPrinting(py, xs, k), ToolsPrinting(py, ys, k);
    && |a| == |b|
    && forall i | 0 <= i < |a| ::
         Get(a[i], "capability") == Get(b[i], "capability") && Get(a[i], "required") == Get(b[i], "required")
  }

  ghost predicate SameTools(py: Printers, xs: seq<Json>, ys: seq<Json>) {
    forall k: string :: SameToolsUnder(py, xs, ys, k)
  }

  lemma EntriesPrinting(py: Printers, tools: seq<Json>, k: string)
    ensures var entries := WithKey(Map(tools, EachTool()), ToolKey(py), k);
            |entries| == |ToolsPrinting(py, tools, k)|
            && forall i | 0 <= i < |entries| :: entries[i] == ToolEntry(ToolsPrinting(py, tools, k)[i])
  {
    var entries := Map(tools, EachTool());
    forall i | 0 <= i < |tools| ensures ToolKey(py)(entries[i]) == ToolKey(py)(tools[i]) {
      ToolKeyOfEntry(py, tools[i]);
    }
    WithKeyOfMapped(tools, entries, EachTool(), ToolKey(py), ToolKey(py), k);
  }

  lemma SlicesAreTools(py: Printers, xs: seq<Json>, ys: seq<Json>, k: string)
    ensures WithKey(Map(xs, EachTool()), ToolKey(py), k) == WithKey(Map(ys, EachTool()), ToolKey(py), k)
       <==> SameToolsUnder(py, xs, ys, k)
  {
    EntriesPrinting(py, xs, k);
    EntriesPrinting(py, ys, k);
    EntriesDecide(ToolsPrinting(py, xs, k), ToolsPrinting(py, ys, k),
                  WithKey(Map(xs, EachTool()), ToolKey(py), k), WithKey(Map(ys, EachTool()), ToolKey(py), k));
  }

  lemma EntriesDecide(a: seq<Json>, b: seq<Json>, ea: seq<Json>, eb: seq<Json>)
    requires |ea| == |a| && |eb| == |b|
    requires forall i | 0 <= i < |a| :: ea[i] == ToolEntry(a[i])
    requires forall i | 0 <= i < |b| :: eb[i] == ToolEntry(b[i])
    ensures ea == eb
       <==> |a| == |b| && forall i | 0 <= i < |a| ::
              Get(a[i], "capability") == Get(b[i], "capability") && Get(a[i], "required") == Get(b[i], "required")
  {
    if |a| == |b| {
      forall i | 0 <= i < |a|
        ensures ea[i] == eb[i]
           <==> Get(a[i], "capability") == Get(b[i], "capability") && Get(a[i], "required") == Get(b[i], "required")
      {
        ToolEntryExact(a[i], b[i]);
      }
    }
  }

  lemma TextIsParts(py: Printers, a: seq<Json>, b: seq<Json>)
    requires Canonical(py) && |a| == |b| == 6
    ensures py.canon(Semantic(a[0], a[1], a[2], a[3], a[4], a[5]))
            == py.canon(Semantic(b[0], b[1], b[2], b[3], b[4], b[5]))
       <==> a == b
  {
    SemanticParts(a, b);
  }

  lemma TasksJsonExact(py: Printers, m: Json, n: Json)
    requires Canonical(py)
    ensures TasksJson(py, m) == TasksJson(py, n) <==> exists p :: PairedOff(py, TaskList(m), TaskList(n), p)
  {
    var sm, sn := Map(Ordered(py, TaskList(m)), SemanticsOf(py)), Map(Ordered(py, TaskList(n)), SemanticsOf(py));
    TextDecides(py.canon, SemanticsOf(py), TaskList(m), TaskList(n));
    ContractTextExact(py, TaskList(m), TaskList(n));
    if TasksJson(py, m) == TasksJson(py, n) {
      EntriesTellApart(sm, sn);
    }
  }

  /** Sources and workflows are sorted by their whole text, so their order is never seen. */
  lemma WholeTextSortExact(py: Printers, xs: seq<Json>, ys: seq<Json>)
    requires Canonical(py)
    ensures SortBy(xs, py.canon, Order()) == SortBy(ys, py.canon, Order()) <==> multiset(xs) == multiset(ys)
  {
    OrderIsTotal();
    SortsAgreeOnPermutations(xs, ys, py.canon, Order());
  }

  lemma SourcesSortExact(py: Printers, xs: seq<Json>, ys: seq<Json>)
    requires Canonical(py)
    ensures SortBy(Sources(xs), py.canon, Order()) == SortBy(Sources(ys), py.canon, Order())
       <==> exists p :: SourcesPaired(Objects(xs), Objects(ys), p)
  {
    WholeTextSortExact(py, Sources(xs), Sources(ys));
    assert Sources(xs) == Map(Objects(xs), EachSource()) && Sources(ys) == Map(Objects(ys), EachSource());
    SourcesPairOff(Objects(xs), Objects(ys));
  }

  lemma WorkflowsSortExact(py: Printers, xs: seq<Json>, ys: seq<Json>)
    requires Canonical(py)
    ensures SortBy(Workflows(xs), py.canon, Order()) == SortBy(Workflows(ys), py.canon, Order())
       <==> exists p :: WorkflowsPaired(Objects(xs), Objects(ys), p)
  {
    WholeTextSortExact(py, Workflows(xs), Workflows(ys));
    assert Workflows(xs) == Map(Objects(xs), EachWorkflow()) && Workflows(ys) == Map(Objects(ys), EachWorkflow());
    WorkflowsPairOff(Objects(xs), Objects(ys));
  }

  lemma ObjectsListed(manifest: Json)
    ensures Objects(ListOf(manifest, "data_sources")) == ObjectsIn(Get(manifest, "data_sources"))
    ensures Objects(ListOf(manifest, "tools")) == ObjectsIn(Get(manifest, "tools"))
    ensures Objects(ListOf(manifest, "workflows")) == ObjectsIn(Get(manifest, "workflows"))
  {
  }

  lemma ToolsSortExact(py: Printers, xs: seq<Json>, ys: seq<Json>)
    ensures SortedTools(py, xs) == SortedTools(py, ys) <==> SameTools(py, Objects(xs), Objects(ys))
  {
    OrderIsTotal();
    SortsAgree(Tools(xs), Tools(ys), ToolKey(py), Order());
    forall k: string {
      SlicesAreTools(py, Objects(xs), Objects(ys), k);
    }
  }

  lemma SixAgree(a: seq<Json>, b: seq<Json>)
    requires |a| == |b| == 6
    ensures a == b <==> a[0] == b[0] && a[1] == b[1] && a[2] == b[2] && a[3] == b[3] && a[4] == b[4] && a[5] == b[5]
  {
  }

  lemma TextsAgree(py: Printers, m: Json, n: Json)
    requires Canonical(py)
    ensures SemanticText(py, m) == SemanticText(py, n)
       <==> && Get(Get(m, "compatibility"), "level") == Get(Get(n, "compatibility"), "level")
            && |ObjectsIn(Get(m, "capabilities"))| == |ObjectsIn(Get(n, "capabilities"))|
            && TasksJson(py, m) == TasksJson(py, n)
            && SortBy(Sources(ListOf(m, "data_sources")), py.canon, Order())
               == SortBy(Sources(ListOf(n, "data_sources")), py.canon, Order())
            && SortedTools(py, ListOf(m, "tools")) == SortedTools(py, ListOf(n, "tools"))
            && SortBy(Workflows(ListOf(m, "workflows")), py.canon, Order())
               == SortBy(Workflows(ListOf(n, "workflows")), py.canon, Order())
  {
    var a, b := Parts(py, m), Parts(py, n);
    TextIsParts(py, a, b);
    SixAgree(a, b);
  }

  /**
   Two manifests hash the same semantic text exactly when level and number of capabilities agree, tasks,
   sources and workflows pair off in any order, and the tools agree in their order under every printed
   capability.
   */
  lemma SemanticTextExact(py: Printers, m: Json, n: Json)
    requires Canonical(py)
    ensures SemanticText(py, m) == SemanticText(py, n)
       <==> && Get(Get(m, "compatibility"), "level") == Get(Get(n, "compatibility"), "level")
            && |ObjectsIn(Get(m, "capabilities"))| == |ObjectsIn(Get(n, "capabilities"))|
            && (exists p :: PairedOff(py, ObjectsIn(Get(m, "tasks")), ObjectsIn(Get(n, "tasks")), p))
            && (exists p :: SourcesPaired(ObjectsIn(Get(m, "data_sources")), ObjectsIn(Get(n, "data_sources")), p))
            && SameTools(py, ObjectsIn(Get(m, "tools")), ObjectsIn(Get(n, "tools")))
            && (exists p :: WorkflowsPaired(ObjectsIn(Get(m, "workflows")), ObjectsIn(Get(n, "workflows")), p))
  {
    TextsAgree(py, m, n);
    TasksJsonExact(py, m, n);
    SourcesSortExact(py, ListOf(m, "data_sources"), ListOf(n, "data_sources"));
    WorkflowsSortExact(py, ListOf(m, "workflows"), ListOf(n, "workflows"));
    ToolsSortExact(py, ListOf(m, "tools"), ListOf(n, "tools"));
    ObjectsListed(m);
    ObjectsListed(n);
  }

  // ---- The signature of the runtime binding -----------------------------------------------

  /** The semantic dictionary without its tasks. */
  function Binding(semantic: Json): Json
    requires semantic.JObject?
  {
    JObject(semantic.members - {"tasks"})
  }

  function BindingText(py: Printers, manifest: Json): string {
    var parts := Parts(py, manifest);
    py.canon(Binding(Semantic(parts[0], parts[1], parts[2], parts[3], parts[4], parts[5])))
  }

  lemma BindingParts(a: seq<Json>, b: seq<Json>)
    requires |a| == |b| == 6
    ensures Binding(Semantic(a[0], a[1], a[2], a[3], a[4], a[5]))
            == Binding(Semantic(b[0], b[1], b[2], b[3], b[4], b[5]))
       <==> a[0] == b[0] && a[1] == b[1] && a[3] == b[3] && a[4] == b[4] && a[5] == b[5]
  {
    var x := Binding(Semantic(a[0], a[1], a[2], a[3], a[4], a[5])).members;
    var y := Binding(Semantic(b[0], b[1], b[2], b[3], b[4], b[5])).members;
    if x == y {
      assert x["compatibility"] == y["compatibility"] && x["capability_count"] == y["capability_count"];
      assert x["data_sources"] == y["data_sources"];
      assert x["tools"] == y["tools"] && x["workflows"] == y["workflows"];
    }
    if a[0] == b[0] && a[1] == b[1] && a[3] == b[3] && a[4] == b[4] && a[5] == b[5] {
      assert x == y;
    }
  }

  lemma ContractPartExact(py: Printers, m: Json, n: Json)
    requires Canonical(py)
    ensures TasksJson(py, m) == TasksJson(py, n) <==> ContractText(py, TaskList(m)) == ContractText(py, TaskList(n))
  {
    TasksJsonExact(py, m, n);
    ContractTextExact(py, TaskList(m), TaskList(n));
  }

  lemma PartsSplit(py: Printers, a: seq<Json>, b: seq<Json>)
    requires Canonical(py) && |a| == |b| == 6
    ensures py.canon(Semantic(a[0], a[1], a[2], a[3], a[4], a[5]))
            == py.canon(Semantic(b[0], b[1], b[2], b[3], b[4], b[5]))
       <==> && a[2] == b[2]
            && py.canon(Binding(Semantic(a[0], a[1], a[2], a[3], a[4], a[5])))
               == py.canon(Binding(Semantic(b[0], b[1], b[2], b[3], b[4], b[5])))
  {
    TextIsParts(py, a, b);
    BindingParts(a, b);
  }

  /**
   The three hashed texts fit together: two manifests hash the same semantic text exactly when they hash
   the same contract text and the same binding text.
   */
  lemma SemanticSplits(py: Printers, m: Json, n: Json)
    requires Canonical(py)
    ensures SemanticText(py, m) == SemanticText(py, n)
       <==> && ContractText(py, TaskList(m)) == ContractText(py, TaskList(n))
            && BindingText(py, m) == BindingText(py, n)
  {
    PartsSplit(py, Parts(py, m), Parts(py, n));
    ContractPartExact(py, m, n);
  }
}
