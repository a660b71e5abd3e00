/**
 The contract signature of a whole interpretation, over its tasks in any order, and the sorted list of
 field paths that is reported beside it.
 */
module TaskSignature {
  import opened Json
  import opened Sequences
  import opened Sorting
  import opened ContractForm
  import Text

  /** The three values of a task that count; both dictionaries the script builds hold exactly these. */
  datatype Task = Task(input: Json, output: Json, kind: Json)

  function Meaning(py: Printers, t: Json): Task {
    Task(ContractSemantics(py, Get(t, "input_contract")), ContractSemantics(py, Get(t, "output_contract")),
         Get(t, "type"))
  }

  function SemanticsOf(py: Printers): Json -> Task {
    (t: Json) => Meaning(py, t)
  }

  /** The text tasks are sorted by. */
  function SortText(canon: Json -> string): Task -> string {
    (t: Task) => canon(JObject(map["input" := t.input, "output" := t.output, "type" := t.kind]))
  }

  function OrderedBy(canon: Json -> string, meaning: Json -> Task, tasks: seq<Json>): seq<Json> {
    SortBy(tasks, (t: Json) => SortText(canon)(meaning(t)), Order())
  }

  function Entry(t: Task): Json {
    JObject(map["input_contract" := t.input, "output_contract" := t.output, "type" := t.kind])
  }

  function Entries(tasks: seq<Task>): (entries: seq<Json>) {
    Map(tasks, (t: Task) => Entry(t))
  }

  /** The text of a list of tasks, given what each of them means. */
  function TextOf(canon: Json -> string, meaning: Json -> Task, tasks: seq<Json>): string {
    canon(JObject(map["tasks" := JArray(Entries(Map(OrderedBy(canon, meaning, tasks), meaning)))]))
  }

  function Ordered(py: Printers, tasks: seq<Json>): seq<Json> {
    OrderedBy(py.canon, SemanticsOf(py), tasks)
  }

  /** The text that is hashed into the contract signature. */
  function ContractText(py: Printers, tasks: seq<Json>): string {
    TextOf(py.canon, SemanticsOf(py), tasks)
  }

  function Signature(py: Printers, sha: string -> string, tasks: seq<Json>): string {
    "sha256:" + sha(ContractText(py, tasks))
  }

  // ---- Task order never matters -----------------------------------------------------------

  lemma SortTextTellsApart(canon: Json -> string, a: Task, b: Task)
    requires Injective(canon) && SortText(canon)(a) == SortText(canon)(b)
    ensures a == b
  {
    var ma := map["input" := a.input, "output" := a.output, "type" := a.kind];
    var mb := map["input" := b.input, "output" := b.output, "type" := b.kind];
    assert JObject(ma) == JObject(mb);
    assert ma["input"] == mb["input"] && ma["output"] == mb["output"] && ma["type"] == mb["type"];
  }

  lemma EntryTellsApart(a: Task, b: Task)
    requires Entry(a) == Entry(b)
    ensures a == b
  {
    var ma, mb := Entry(a).members, Entry(b).members;
    assert ma["input_contract"] == mb["input_contract"] && ma["output_contract"] == mb["output_contract"];
    assert ma["type"] == mb["type"];
  }

  lemma EntriesTellApart(xs: seq<Task>, ys: seq<Task>)
    requires Entries(xs) == Entries(ys)
    ensures xs == ys
  {
    assert |xs| == |Entries(xs)| == |Entries(ys)| == |ys|;
    forall i | 0 <= i < |xs| ensures xs[i] == ys[i] {
      assert Entries(xs)[i] == Entries(ys)[i];
      EntryTellsApart(xs[i], ys[i]);
    }
  }

  lemma TasksTextTellsApart(canon: Json -> string, xs: seq<Json>, ys: seq<Json>)
    requires Injective(canon)
    requires canon(JObject(map["tasks" := JArray(xs)])) == canon(JObject(map["tasks" := JArray(ys)]))
    ensures xs == ys
  {
    var mx, my := map["tasks" := JArray(xs)], map["tasks" := JArray(ys)];
    assert JObject(mx) == JObject(my);
    assert mx["tasks"] == my["tasks"];
  }

  /** Two texts agree exactly when the ordered tasks mean the same one by one. */
  lemma TextDecides(canon: Json -> string, meaning: Json -> Task, xs: seq<Json>, ys: seq<Json>)
    requires Injective(canon)
    ensures TextOf(canon, meaning, xs) == TextOf(canon, meaning, ys)
       <==> Map(OrderedBy(canon, meaning, xs), meaning) == Map(OrderedBy(canon, meaning, ys), meaning)
  {
    var sx, sy := Map(OrderedBy(canon, meaning, xs), meaning), Map(OrderedBy(canon, meaning, ys), meaning);
    if TextOf(canon, meaning, xs) == TextOf(canon, meaning, ys) {
      TasksTextTellsApart(canon, Entries(sx), Entries(sy));
      EntriesTellApart(sx, sy);
    }
  }

  /** Sorting the tasks sorts their meanings: ties have equal meanings, so they cannot be seen. */
  lemma OrderedMeanings(canon: Json -> string, meaning: Json -> Task, tasks: seq<Json>)
    ensures Map(OrderedBy(canon, meaning, tasks), meaning) == SortBy(Map(tasks, meaning), SortText(canon), Order())
  {
    SortMapped(tasks, meaning, (t: Json) => SortText(canon)(meaning(t)), SortText(canon), Order());
  }

  lemma SortTextInjective(canon: Json -> string)
    requires Injective(canon)
    ensures forall a: Task, b: Task :: SortText(canon)(a) == SortText(canon)(b) ==> a == b
  {
    forall a: Task, b: Task | SortText(canon)(a) == SortText(canon)(b) ensures a == b {
      SortTextTellsApart(canon, a, b);
    }
  }

  lemma SortedMeaningsDecide(canon: Json -> string, xs: seq<Task>, ys: seq<Task>)
    requires Injective(canon)
    ensures SortBy(xs, SortText(canon), Order()) == SortBy(ys, SortText(canon), Order())
       <==> multiset(xs) == multiset(ys)
  {
    OrderIsTotal();
    SortTextInjective(canon);
    SortsAgreeOnPermutations(xs, ys, SortText(canon), Order());
  }

  lemma MeaningsDecide(canon: Json -> string, meaning: Json -> Task, xs: seq<Json>, ys: seq<Json>)
    requires Injective(canon)
    ensures TextOf(canon, meaning, xs) == TextOf(canon, meaning, ys)
       <==> multiset(Map(xs, meaning)) == multiset(Map(ys, meaning))
  {
    TextDecides(canon, meaning, xs, ys);
    OrderedMeanings(canon, meaning, xs);
    OrderedMeanings(canon, meaning, ys);
    SortedMeaningsDecide(canon, Map(xs, meaning), Map(ys, meaning));
  }

  ghost predicate SameTask(py: Printers, a: Json, b: Json) {
    && SameFields(py, Get(a, "input_contract"), Get(b, "input_contract"))
    && SameFields(py, Get(a, "output_contract"), Get(b, "output_contract"))
    && Get(a, "type") == Get(b, "type")
  }

  lemma TasksDecided(py: Printers, a: Json, b: Json)
    requires Canonical(py)
    ensures SemanticsOf(py)(a) == SemanticsOf(py)(b) <==> SameTask(py, a, b)
  {
    ContractsDecided(py, Get(a, "input_contract"), Get(b, "input_contract"));
    ContractsDecided(py, Get(a, "output_contract"), Get(b, "output_contract"));
  }

  /** The tasks of one list can be paired off with those of the other, each pair meaning the same. */
  ghost predicate PairedOff(py: Printers, xs: seq<Json>, ys: seq<Json>, p: seq<nat>) {
    |xs| == |ys| && IsRearrangement(p, |xs|) && forall i | 0 <= i < |xs| :: SameTask(py, xs[i], ys[p[i]])
  }

  lemma PairingMatches(py: Printers, xs: seq<Json>, ys: seq<Json>, p: seq<nat>)
    requires Canonical(py)
    ensures PairedOff(py, xs, ys, p) <==> ImagesMatch(xs, ys, SemanticsOf(py), p)
  {
    if |xs| == |ys| && IsRearrangement(p, |xs|) {
      forall i | 0 <= i < |xs|
        ensures SemanticsOf(py)(xs[i]) == SemanticsOf(py)(ys[p[i]]) <==> SameTask(py, xs[i], ys[p[i]])
      {
        TasksDecided(py, xs[i], ys[p[i]]);
      }
    }
  }

  /**
   Two interpretations hash the same contract text exactly when their tasks can be paired off so that
   each pair has the same type and the same fields in both contracts.
   */
  lemma ContractTextExact(py: Printers, xs: seq<Json>, ys: seq<Json>)
    requires Canonical(py)
    ensures ContractText(py, xs) == ContractText(py, ys) <==> exists p :: PairedOff(py, xs, ys, p)
  {
    MeaningsDecide(py.canon, SemanticsOf(py), xs, ys);
    ImagesPairOff(xs, ys, SemanticsOf(py));
    forall p ensures PairedOff(py, xs, ys, p) <==> ImagesMatch(xs, ys, SemanticsOf(py), p) {
      PairingMatches(py, xs, ys, p);
    }
  }

  /** So do the signatures, as long as the hash does not collide on these two texts. */
  lemma SignatureExact(py: Printers, sha: string -> string, xs: seq<Json>, ys: seq<Json>)
    requires Canonical(py)
    ensures (exists p :: PairedOff(py, xs, ys, p)) ==> Signature(py, sha, xs) == Signature(py, sha, ys)
    ensures (sha(ContractText(py, xs)) == sha(ContractText(py, ys)) ==> ContractText(py, xs) == ContractText(py, ys))
       ==> (Signature(py, sha, xs) == Signature(py, sha, ys) <==> exists p :: PairedOff(py, xs, ys, p))
  {
    ContractTextExact(py, xs, ys);
    assert Signature(py, sha, xs)[7..] == sha(ContractText(py, xs));
    assert Signature(py, sha, ys)[7..] == sha(ContractText(py, ys));
  }

  // ---- Field paths ------------------------------------------------------------------------

  /** The paths of the first n fields of a contract, each followed by those below it. */
  function PathsUpTo(c: Json, prefix: string, n: nat): (paths: seq<string>)
    requires n <= |ChildFields(c)|
    decreases c, 1, n
  {
    if n == 0 then [] else PathsUpTo(c, prefix, n - 1) + PathsOfField(ChildFields(c)[n - 1], prefix)
  }

  function Paths(c: Json, prefix: string): (paths: seq<string>)
    decreases c, 2
  {
    PathsUpTo(c, prefix, |ChildFields(c)|)
  }

  /** A field without a textual key is skipped with everything below it. */
  function PathsOfField(f: Json, prefix: string): (paths: seq<string>)
    decreases f, 3
  {
    var key := Get(f, "key");
    if key.JString? then
      var path := prefix + "/" + key.s;
      [path] + Paths(f, path) + (if HasItems(f) then Paths(Get(f, "items"), path + "[]") else [])
    else []
  }

  lemma PathsStep(c: Json, prefix: string, n: nat)
    requires n < |ChildFields(c)|
    ensures PathsUpTo(c, prefix, n + 1) == PathsUpTo(c, prefix, n) + PathsOfField(ChildFields(c)[n], prefix)
  {
  }

  function Below(f: Json, path: string): (paths: seq<string>) {
    if HasItems(f) then Paths(Get(f, "items"), path + "[]") else []
  }

  lemma TextualField(f: Json, prefix: string)
    ensures !Get(f, "key").JString? ==> PathsOfField(f, prefix) == []
    ensures Get(f, "key").JString? ==>
              var path := prefix + "/" + Get(f, "key").s;
              PathsOfField(f, prefix) == [path] + Paths(f, path) + Below(f, path)
  {
  }

  lemma Appended(a: seq<string>, b: seq<string>, c: seq<string>, d: seq<string>)
    ensures a + b + c + d == a + (b + c + d)
  {
  }

  /** `_contract_field_paths`, appending as it goes. */
  method ContractFieldPaths(c: Json, prefix: string) returns (paths: seq<string>)
    ensures paths == Paths(c, prefix)
    decreases c
  {
    paths := [];
    var fields, i := ChildFields(c), 0;
    while i < |fields|
      invariant 0 <= i <= |fields| && paths == PathsUpTo(c, prefix, i)
    {
      PathsStep(c, prefix, i);
      TextualField(fields[i], prefix);
      var key := Get(fields[i], "key");
      if key.JString? {
        ghost var before := paths;
        var path := prefix + "/" + key.s;
        paths := paths + [path];
        var inner := ContractFieldPaths(fields[i], path);
        paths := paths + inner;
        var items: seq<string> := [];
        if HasItems(fields[i]) {
          items := ContractFieldPaths(Get(fields[i], "items"), path + "[]");
        }
        paths := paths + items;
        Appended(before, [path], inner, items);
      }
      i := i + 1;
    }
  }

  ghost function PathBag(prefix: string): Json -> multiset<string> {
    (f: Json) => multiset(PathsOfField(f, prefix))
  }

  lemma {:induction false} BagOfPaths(c: Json, prefix: string, fields: seq<Json>, n: nat)
    requires fields == ChildFields(c) && n <= |fields|
    ensures multiset(PathsUpTo(c, prefix, n)) == Collected(fields[..n], PathBag(prefix))
  {
    if n > 0 {
      BagOfPaths(c, prefix, fields, n - 1);
      PathsStep(c, prefix, n - 1);
      assert fields[..n][..n - 1] == fields[..n - 1];
    }
  }

  lemma BagOfContract(c: Json, prefix: string)
    ensures multiset(Paths(c, prefix)) == Collected(ChildFields(c), PathBag(prefix))
  {
    var fields := ChildFields(c);
    BagOfPaths(c, prefix, fields, |fields|);
    assert fields[..|fields|] == fields;
  }

  // ---- What a path is ---------------------------------------------------------------------

  /** A way down a contract: stop at a field, go on to the fields below it, or to those of its items. */
  datatype Route = Stop(i: nat) | Down(i: nat, rest: Route) | IntoItems(i: nat, rest: Route)

  /** Every field on the way has a textual key, and items are entered only where there are some. */
  predicate IsRoute(c: Json, route: Route)
    decreases route
  {
    && route.i < |ChildFields(c)| && Get(ChildFields(c)[route.i], "key").JString?
    && match route
       case Stop(_) => true
       case Down(i, rest) => IsRoute(ChildFields(c)[i], rest)
       case IntoItems(i, rest) =>
         var items := Get(ChildFields(c)[i], "items");
         items.JObject? && items.members != map[] && IsRoute(items, rest)
  }

  /** The keys on the way behind slashes, with brackets wherever items are entered. */
  function RouteText(c: Json, prefix: string, route: Route): string
    requires IsRoute(c, route)
    decreases route
  {
    var f := ChildFields(c)[route.i];
    var here := prefix + "/" + Get(f, "key").s;
    match route
    case Stop(_) => here
    case Down(_, rest) => RouteText(f, here, rest)
    case IntoItems(_, rest) => RouteText(Get(f, "items"), here + "[]", rest)
  }

  ghost predicate Leads(c: Json, prefix: string, path: string, route: Route) {
    IsRoute(c, route) && RouteText(c, prefix, route) == path
  }

  lemma Listed(c: Json, prefix: string, path: string)
    ensures path in Paths(c, prefix)
       <==> exists i | 0 <= i < |ChildFields(c)| :: path in PathsOfField(ChildFields(c)[i], prefix)
  {
    BagOfContract(c, prefix);
    CollectedMember(ChildFields(c), PathBag(prefix), path);
  }

  lemma ListedBelow(f: Json, prefix: string, path: string)
    ensures path in PathsOfField(f, prefix)
       <==> && Get(f, "key").JString?
            && var here := prefix + "/" + Get(f, "key").s;
               path == here || path in Paths(f, here) || path in Below(f, here)
  {
    TextualField(f, prefix);
  }

  lemma FieldListed(c: Json, prefix: string, i: nat, f: Json, here: string, path: string)
    requires i < |ChildFields(c)| && f == ChildFields(c)[i]
    requires Get(f, "key").JString? && here == prefix + "/" + Get(f, "key").s
    requires path == here || path in Paths(f, here) || path in Below(f, here)
    ensures path in Paths(c, prefix)
  {
    ListedBelow(f, prefix, path);
    Listed(c, prefix, path);
  }

  lemma {:induction false} RouteListed(c: Json, prefix: string, path: string, route: Route)
    requires Leads(c, prefix, path, route)
    ensures path in Paths(c, prefix)
    decreases route
  {
    var f := ChildFields(c)[route.i];
    var here := prefix + "/" + Get(f, "key").s;
    match route {
      case Stop(_) =>
      case Down(_, rest) =>
        RouteListed(f, here, path, rest);
      case IntoItems(_, rest) =>
        RouteListed(Get(f, "items"), here + "[]", path, rest);
        assert path in Below(f, here);
    }
    FieldListed(c, prefix, route.i, f, here, path);
  }

  lemma WhichField(c: Json, prefix: string, path: string) returns (i: nat, f: Json, here: string)
    requires path in Paths(c, prefix)
    ensures i < |ChildFields(c)| && f == ChildFields(c)[i]
    ensures Get(f, "key").JString? && here == prefix + "/" + Get(f, "key").s
    ensures path == here || path in Paths(f, here) || path in Below(f, here)
  {
    Listed(c, prefix, path);
    i :| i < |ChildFields(c)| && path in PathsOfField(ChildFields(c)[i], prefix);
    f := ChildFields(c)[i];
    ListedBelow(f, prefix, path);
    here := prefix + "/" + Get(f, "key").s;
  }

  lemma LeadsDown(c: Json, prefix: string, path: string, i: nat, f: Json, here: string, rest: Route)
    requires i < |ChildFields(c)| && f == ChildFields(c)[i]
    requires Get(f, "key").JString? && here == prefix + "/" + Get(f, "key").s && Leads(f, here, path, rest)
    ensures Leads(c, prefix, path, Down(i, rest))
  {
  }

  lemma LeadsIntoItems(c: Json, prefix: string, path: string, i: nat, f: Json, here: string, rest: Route)
    requires i < |ChildFields(c)| && f == ChildFields(c)[i] && HasItems(f)
    requires Get(f, "key").JString? && here == prefix + "/" + Get(f, "key").s
    requires Leads(Get(f, "items"), here + "[]", path, rest)
    ensures Leads(c, prefix, path, IntoItems(i, rest))
  {
  }

  lemma {:induction false} ListedRoute(c: Json, prefix: string, path: string) returns (route: Route)
    requires path in Paths(c, prefix)
    ensures Leads(c, prefix, path, route)
    decreases c
  {
    var i, f, here := WhichField(c, prefix, path);
    if path == here {
      route := Stop(i);
    } else if path in Paths(f, here) {
      var rest := ListedRoute(f, here, path);
      LeadsDown(c, prefix, path, i, f, here, rest);
      route := Down(i, rest);
    } else {
      var rest := ListedRoute(Get(f, "items"), here + "[]", path);
      LeadsIntoItems(c, prefix, path, i, f, here, rest);
      route := IntoItems(i, rest);
    }
  }

  /** A path is listed exactly when some way down the contract spells it. */
  lemma PathsExact(c: Json, prefix: string, path: string)
    ensures path in Paths(c, prefix) <==> exists route :: Leads(c, prefix, path, route)
  {
    if path in Paths(c, prefix) {
      var route := ListedRoute(c, prefix, path);
    }
    if route :| Leads(c, prefix, path, route) {
      RouteListed(c, prefix, path, route);
    }
  }

  /** The normal form of a contract has the paths of the contract, each as often. */
  lemma {:induction false} NormalPaths(py: Printers, c: Json, prefix: string)
    ensures multiset(Paths(ContractSemantics(py, c), prefix)) == multiset(Paths(c, prefix))
    ensures multiset(Paths(FieldSemantics(py, c), prefix)) == multiset(Paths(c, prefix))
    decreases c, 0
  {
    var each := EachSemantics(py, c);
    NormalChildren(py, c);
    forall i | 0 <= i < |each|
      ensures multiset(PathsOfField(each[i], prefix)) == multiset(PathsOfField(ChildFields(c)[i], prefix))
    {
      NormalFieldPaths(py, ChildFields(c)[i], prefix);
    }
    CollectedAgree(each, ChildFields(c), PathBag(prefix));
    CollectedPermutes(NestedSemantics(py, c), each, PathBag(prefix));
    BagOfContract(c, prefix);
    BagOfContract(ContractSemantics(py, c), prefix);
    BagOfContract(FieldSemantics(py, c), prefix);
  }

  lemma {:induction false} NormalFieldPaths(py: Printers, f: Json, prefix: string)
    ensures multiset(PathsOfField(FieldSemantics(py, f), prefix)) == multiset(PathsOfField(f, prefix))
    decreases f, 1
  {
    FieldScalars(py, f);
    NormalItems(py, f);
    var key := Get(f, "key");
    if key.JString? {
      var path := prefix + "/" + key.s;
      NormalPaths(py, f, path);
      if HasItems(f) {
        NormalPaths(py, Get(f, "items"), path + "[]");
      }
    }
  }

  /** Contracts with the same fields have the same paths, each as often. */
  lemma SameFieldsSamePaths(py: Printers, a: Json, b: Json, prefix: string)
    requires Canonical(py) && SameFields(py, a, b)
    ensures multiset(Paths(a, prefix)) == multiset(Paths(b, prefix))
  {
    ContractsDecided(py, a, b);
    NormalPaths(py, a, prefix);
    NormalPaths(py, b, prefix);
  }

  function TaskPrefix(i: nat, name: string): string {
    "task[" + Text.Decimal(i) + "]/" + name
  }

  function PathsOfTask(t: Json, i: nat): (paths: seq<string>) {
    Paths(Get(t, "input_contract"), TaskPrefix(i, "input_contract"))
    + Paths(Get(t, "output_contract"), TaskPrefix(i, "output_contract"))
  }

  /** The first n pieces, one after the other. */
  function Pieces(piece: nat -> seq<string>, n: nat): seq<string> {
    if n == 0 then [] else Pieces(piece, n - 1) + piece(n - 1)
  }

  function PieceOf(ordered: seq<Json>): nat -> seq<string> {
    (i: nat) => if i < |ordered| then PathsOfTask(ordered[i], i + 1) else []
  }

  /** The paths of all tasks, numbered from one. */
  function TaskPaths(ordered: seq<Json>): seq<string> {
    Pieces(PieceOf(ordered), |ordered|)
  }

  function Itself(): string -> string {
    (s: string) => s
  }

  function FieldPaths(py: Printers, tasks: seq<Json>): seq<string> {
    SortBy(TaskPaths(Ordered(py, tasks)), Itself(), Order())
  }

  lemma SameTaskSamePaths(py: Printers, a: Json, b: Json, i: nat)
    requires Canonical(py) && SameTask(py, a, b)
    ensures multiset(PathsOfTask(a, i)) == multiset(PathsOfTask(b, i))
  {
    SameFieldsSamePaths(py, Get(a, "input_contract"), Get(b, "input_contract"), TaskPrefix(i, "input_contract"));
    SameFieldsSamePaths(py, Get(a, "output_contract"), Get(b, "output_contract"), TaskPrefix(i, "output_contract"));
  }

  lemma {:induction false} PiecesAgree(f: nat -> seq<string>, g: nat -> seq<string>, n: nat)
    requires forall i: nat :: multiset(f(i)) == multiset(g(i))
    ensures multiset(Pieces(f, n)) == multiset(Pieces(g, n))
  {
    if n > 0 {
      PiecesAgree(f, g, n - 1);
    }
  }

  lemma TaskPathsAgree(py: Printers, xs: seq<Json>, ys: seq<Json>)
    requires Canonical(py) && |xs| == |ys| && forall i | 0 <= i < |xs| :: SameTask(py, xs[i], ys[i])
    ensures multiset(TaskPaths(xs)) == multiset(TaskPaths(ys))
  {
    var f, g := PieceOf(xs), PieceOf(ys);
    forall i: nat ensures multiset(f(i)) == multiset(g(i)) {
      if i < |xs| {
        SameTaskSamePaths(py, xs[i], ys[i], i + 1);
      }
    }
    PiecesAgree(f, g, |xs|);
  }

  /** Interpretations that hash the same contract text report the same field paths. */
  lemma FieldPathsFollowText(py: Printers, xs: seq<Json>, ys: seq<Json>)
    requires Canonical(py)
    ensures ContractText(py, xs) == ContractText(py, ys) ==> FieldPaths(py, xs) == FieldPaths(py, ys)
  {
    var meaning := SemanticsOf(py);
    var ox, oy := Ordered(py, xs), Ordered(py, ys);
    TextDecides(py.canon, meaning, xs, ys);
    if Map(ox, meaning) == Map(oy, meaning) {
      assert |ox| == |Map(ox, meaning)| == |Map(oy, meaning)| == |oy|;
      forall i | 0 <= i < |ox| ensures SameTask(py, ox[i], oy[i]) {
        assert Map(ox, meaning)[i] == Map(oy, meaning)[i];
        TasksDecided(py, ox[i], oy[i]);
      }
      TaskPathsAgree(py, ox, oy);
      OrderIsTotal();
      SortsAgreeOnPermutations(TaskPaths(ox), TaskPaths(oy), Itself(), Order());
    }
  }

  lemma {:induction false} PiecesMember(piece: nat -> seq<string>, n: nat, path: string)
    ensures path in Pieces(piece, n) <==> exists i: nat | i < n :: path in piece(i)
  {
    if n > 0 {
      PiecesMember(piece, n - 1, path);
    }
  }

  /** A path of one of the two contracts of a task, under its number. */
  ghost predicate IsOfTask(t: Json, number: nat, path: string) {
    || path in Paths(Get(t, "input_contract"), "task[" + Text.Decimal(number) + "]/" + "input_contract")
    || path in Paths(Get(t, "output_contract"), "task[" + Text.Decimal(number) + "]/" + "output_contract")
  }

  lemma OfTask(t: Json, number: nat, path: string)
    ensures path in PathsOfTask(t, number) <==> IsOfTask(t, number, path)
  {
  }

  lemma OfTasks(ordered: seq<Json>, path: string)
    ensures path in TaskPaths(ordered) <==> exists i: nat | i < |ordered| :: IsOfTask(ordered[i], i + 1, path)
  {
    PiecesMember(PieceOf(ordered), |ordered|, path);
    forall i: nat | i < |ordered| ensures path in PieceOf(ordered)(i) <==> IsOfTask(ordered[i], i + 1, path) {
      OfTask(ordered[i], i + 1, path);
    }
  }

  lemma SameMembers(xs: seq<string>, ys: seq<string>, path: string)
    requires multiset(xs) == multiset(ys)
    ensures path in xs <==> path in ys
  {
    assert path in xs <==> path in multiset(xs);
    assert path in ys <==> path in multiset(ys);
  }

  /** The report lists the paths of both contracts of every task, under the task's place in the sorted order. */
  lemma FieldPathsExact(py: Printers, tasks: seq<Json>, path: string)
    ensures path in FieldPaths(py, tasks)
       <==> exists i: nat | i < |Ordered(py, tasks)| :: IsOfTask(Ordered(py, tasks)[i], i + 1, path)
    ensures var paths := FieldPaths(py, tasks);
            forall i, j | 0 <= i < j < |paths| :: Text.Leq(paths[i], paths[j])
  {
    var all := TaskPaths(Ordered(py, tasks));
    OrderIsTotal();
    SortBySorted(all, Itself(), Order());
    SameMembers(FieldPaths(py, tasks), all, path);
    OfTasks(Ordered(py, tasks), path);
  }

  /** The order in which an interpretation lists its tasks is seen neither in the text nor in the paths. */
  lemma TaskOrderIgnored(py: Printers, xs: seq<Json>, ys: seq<Json>)
    requires Canonical(py) && multiset(xs) == multiset(ys)
    ensures ContractText(py, xs) == ContractText(py, ys) && FieldPaths(py, xs) == FieldPaths(py, ys)
  {
    var p := FindRearrangement(xs, ys);
    assert ImagesMatch(xs, ys, SemanticsOf(py), p);
    ImagesPairOff(xs, ys, SemanticsOf(py));
    MeaningsDecide(py.canon, SemanticsOf(py), xs, ys);
    FieldPathsFollowText(py, xs, ys);
  }
}
