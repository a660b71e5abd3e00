/**
 The readiness assessment that travels with a task flow preview, compared with the resources the
 preview declares, and the key lists of a source-execution declaration.
 */
module TaskReadiness {
  import opened ResourceSplit
  import opened Sequences
  import opened Sets
  import opened TaskFlowPlan
  import opened Wrappers
  import Text

  datatype SourceRequirement = SourceRequirement(key: string, kind: string, required: bool, guidance: Option<string>)

  /** What a checked preview declares: a plan, a source execution, or nothing. */
  datatype Declarations = Blueprint(plan: Plan) | SourceExecution(requirements: seq<SourceRequirement>) | NotDeclared

  datatype Requirement = Requirement(key: string, kind: string, required: bool, access: string,
                                     capabilities: seq<string>, guidance: Option<string>)

  /** A declaration of either origin; only those of a blueprint say how they are accessed. */
  datatype Declared = Declared(key: string, kind: string, required: bool, guidance: Option<string>, use: Option<Use>)
  datatype Use = Use(access: string, capabilities: seq<string>)

  function FromResource(r: Resource): Declared {
    var capabilities := match r.capabilities case Some(list) => list case None => [];
    Declared(r.key, r.kind, r.required, r.guidance, Some(Use(r.access, capabilities)))
  }

  function FromSource(x: SourceRequirement): Declared {
    Declared(x.key, x.kind, x.required, x.guidance, None)
  }

  function Resources(d: Declarations): seq<Declared> {
    match d
    case Blueprint(p) => seq(|All(p)|, i requires 0 <= i < |All(p)| => FromResource(All(p)[i].value))
    case SourceExecution(rs) =>
      seq(|rs|, i requires 0 <= i < |rs| => FromSource(rs[i]))
    case NotDeclared => []
  }

  predicate AppliesTo(d: Declarations, key: string) {
    d.Blueprint? && d.plan.effects.Some?
    && exists e | e in d.plan.effects.value :: e.mode == "apply" && e.resourceKey == Some(key)
  }

  // ---- The comparison ---------------------------------------------------------------------

  /** `resources.find(...)`: the first declaration with this key. */
  function FindByKey(resources: seq<Declared>, key: string): Option<Declared> {
    if resources == [] then None
    else if resources[0].key == key then Some(resources[0])
    else FindByKey(resources[1..], key)
  }

  predicate UseMatches(r: Requirement, use: Use) {
    && r.access == use.access && |r.capabilities| == |use.capabilities|
    && forall c | c in r.capabilities :: c in use.capabilities
  }

  predicate RequirementMatches(r: Requirement, d: Declarations) {
    match FindByKey(Resources(d), r.key)
    case None => false
    case Some(declared) =>
      && r.kind == declared.kind
      && r.required == (declared.required || AppliesTo(d, declared.key))
      && (declared.use.Some? ==> UseMatches(r, declared.use.value))
      && r.guidance == declared.guidance
      && AllDifferent(r.capabilities)
  }

  predicate ReadinessMatches(d: Declarations, assessment: Option<seq<Requirement>>) {
    assessment.Some? ==>
      && !d.NotDeclared?
      && |assessment.value| == |Resources(d)|
      && forall i | 0 <= i < |assessment.value| :: RequirementMatches(assessment.value[i], d)
  }

  function RequirementKeys(rs: seq<Requirement>): (ks: seq<string>) {
    seq(|rs|, i requires 0 <= i < |rs| => rs[i].key)
  }

  function DeclaredKeys(ds: seq<Declared>): (ks: seq<string>) {
    seq(|ds|, i requires 0 <= i < |ds| => ds[i].key)
  }

  predicate CapabilitiesOk(r: Resource) {
    r.capabilities.Some? ==> AllDifferent(r.capabilities.value)
  }

  /** What `plan` and `parseSourceExecution` have checked about the declarations by now. */
  predicate DeclarationsOk(d: Declarations) {
    match d
    case Blueprint(p) => Accepts(p) && forall r | r in All(p) :: CapabilitiesOk(r.value)
    case SourceExecution(rs) => |rs| <= MAX_RESOURCES && AllDifferent(DeclaredKeys(Resources(d)))
    case NotDeclared => true
  }

  /** What a parsed preview has passed: its declarations, the shape of the assessment, and the comparison. */
  predicate PreviewAccepts(d: Declarations, assessment: Option<seq<Requirement>>) {
    && DeclarationsOk(d)
    && (assessment.Some? ==> |assessment.value| <= MAX_RESOURCES && AllDifferent(RequirementKeys(assessment.value)))
    && ReadinessMatches(d, assessment)
  }

  // ---- What it amounts to -----------------------------------------------------------------

  /** Every requirement restates the declaration it names; capability lists agree as sets. */
  ghost predicate Restates(r: Requirement, declared: Declared, applied: bool) {
    && r.kind == declared.kind && r.guidance == declared.guidance
    && (r.required <==> declared.required || applied)
    && Distinct(r.capabilities)
    && (declared.use.Some? ==>
          r.access == declared.use.value.access
          && Elements(r.capabilities) == Elements(declared.use.value.capabilities))
  }

  /** No key twice on either side, no capability declared twice. */
  ghost predicate Checked(d: Declarations, rs: seq<Requirement>) {
    && Distinct(RequirementKeys(rs)) && Distinct(DeclaredKeys(Resources(d)))
    && forall x | x in Resources(d) && x.use.Some? :: Distinct(x.use.value.capabilities)
  }

  lemma UseIsSet(r: Requirement, use: Use)
    requires Distinct(r.capabilities) && Distinct(use.capabilities)
    ensures UseMatches(r, use) <==> r.access == use.access && Elements(r.capabilities) == Elements(use.capabilities)
  {
    DistinctSize(r.capabilities);
    DistinctSize(use.capabilities);
    if UseMatches(r, use) {
      SubsetSize(Elements(r.capabilities), Elements(use.capabilities));
    } else if Elements(r.capabilities) == Elements(use.capabilities) {
      assert forall c | c in r.capabilities :: c in Elements(use.capabilities);
    }
  }

  lemma {:induction false} FindSome(ds: seq<Declared>, key: string)
    ensures key in DeclaredKeys(ds) <==> FindByKey(ds, key).Some?
    ensures FindByKey(ds, key).Some? ==> FindByKey(ds, key).value in ds && FindByKey(ds, key).value.key == key
  {
    if ds != [] {
      FindSome(ds[1..], key);
      assert DeclaredKeys(ds) == [ds[0].key] + DeclaredKeys(ds[1..]);
    }
  }

  lemma FindAt(ds: seq<Declared>, j: nat)
    requires Distinct(DeclaredKeys(ds)) && j < |ds|
    ensures FindByKey(ds, ds[j].key) == Some(ds[j])
  {
    var keys := DeclaredKeys(ds);
    assert keys[j] == ds[j].key;
    FindSome(ds, ds[j].key);
    var k :| 0 <= k < |ds| && ds[k] == FindByKey(ds, ds[j].key).value;
    assert keys[k] == keys[j];
  }

  /** Distinct lists of equal length, one inside the other, hold the same values. */
  lemma Pigeonhole<T>(xs: seq<T>, ys: seq<T>)
    requires Distinct(xs) && Distinct(ys) && |xs| == |ys| && forall x | x in xs :: x in ys
    ensures multiset(xs) == multiset(ys)
  {
    DistinctSize(xs);
    DistinctSize(ys);
    SubsetSize(Elements(xs), Elements(ys));
    forall x ensures multiset(xs)[x] == multiset(ys)[x] {
      DistinctOnce(xs, x);
      DistinctOnce(ys, x);
      assert x in Elements(xs) <==> x in Elements(ys);
      assert x in multiset(xs) <==> x in xs;
      assert x in multiset(ys) <==> x in ys;
    }
  }

  lemma MatchIsRestating(r: Requirement, d: Declarations, j: nat)
    requires Distinct(DeclaredKeys(Resources(d))) && j < |Resources(d)| && r.key == Resources(d)[j].key
    requires Resources(d)[j].use.Some? ==> Distinct(Resources(d)[j].use.value.capabilities)
    ensures RequirementMatches(r, d) <==> Restates(r, Resources(d)[j], AppliesTo(d, r.key))
  {
    var declared := Resources(d)[j];
    FindAt(Resources(d), j);
    if declared.use.Some? && Distinct(r.capabilities) {
      UseIsSet(r, declared.use.value);
    }
  }

  lemma MatchedKeys(d: Declarations, rs: seq<Requirement>)
    requires Checked(d, rs) && ReadinessMatches(d, Some(rs))
    ensures multiset(RequirementKeys(rs)) == multiset(DeclaredKeys(Resources(d)))
  {
    forall i | 0 <= i < |rs| ensures RequirementKeys(rs)[i] in DeclaredKeys(Resources(d)) {
      assert RequirementMatches(rs[i], d);
      FindSome(Resources(d), rs[i].key);
    }
    Pigeonhole(RequirementKeys(rs), DeclaredKeys(Resources(d)));
  }

  /** Requirements and declarations paired by key. */
  ghost predicate Paired(d: Declarations, rs: seq<Requirement>, i: nat, j: nat) {
    i < |rs| && j < |Resources(d)| && rs[i].key == Resources(d)[j].key
  }

  lemma MatchesWhenChecked(d: Declarations, rs: seq<Requirement>)
    requires Checked(d, rs)
    ensures ReadinessMatches(d, Some(rs))
       <==> !d.NotDeclared?
            && multiset(RequirementKeys(rs)) == multiset(DeclaredKeys(Resources(d)))
            && forall i: nat, j: nat | Paired(d, rs, i, j) :: Restates(rs[i], Resources(d)[j], AppliesTo(d, rs[i].key))
  {
    if ReadinessMatches(d, Some(rs)) {
      MatchedKeys(d, rs);
      forall i: nat, j: nat | Paired(d, rs, i, j) ensures Restates(rs[i], Resources(d)[j], AppliesTo(d, rs[i].key)) {
        assert Resources(d)[j] in Resources(d);
        MatchIsRestating(rs[i], d, j);
      }
    } else if !d.NotDeclared? && multiset(RequirementKeys(rs)) == multiset(DeclaredKeys(Resources(d))) {
      NotMatched(d, rs);
    }
  }

  lemma NotMatched(d: Declarations, rs: seq<Requirement>)
    requires Checked(d, rs) && !ReadinessMatches(d, Some(rs)) && !d.NotDeclared?
    requires multiset(RequirementKeys(rs)) == multiset(DeclaredKeys(Resources(d)))
    ensures exists i: nat, j: nat :: Paired(d, rs, i, j) && !Restates(rs[i], Resources(d)[j], AppliesTo(d, rs[i].key))
  {
    var keys := DeclaredKeys(Resources(d));
    assert |multiset(RequirementKeys(rs))| == |rs| && |multiset(keys)| == |Resources(d)|;
    var i :| 0 <= i < |rs| && !RequirementMatches(rs[i], d);
    assert RequirementKeys(rs)[i] in multiset(RequirementKeys(rs));
    assert rs[i].key in multiset(keys) && rs[i].key in keys;
    var j :| 0 <= j < |keys| && keys[j] == rs[i].key;
    assert Resources(d)[j] in Resources(d);
    MatchIsRestating(rs[i], d, j);
    assert Paired(d, rs, i, j);
  }

  /** Accepted declarations carry no key twice, no capability twice, and stay within the bound. */
  lemma DeclaredOnce(d: Declarations)
    requires DeclarationsOk(d)
    ensures Distinct(DeclaredKeys(Resources(d))) && |Resources(d)| <= MAX_RESOURCES
    ensures forall x | x in Resources(d) && x.use.Some? :: Distinct(x.use.value.capabilities)
  {
    if d.Blueprint? {
      var refs := All(d.plan);
      assert DeclaredKeys(Resources(d)) == Keys(refs);
      forall i | 0 <= i < |refs| ensures Distinct(Resources(d)[i].use.value.capabilities) {
        assert refs[i] in refs;
      }
    }
  }

  /**
   A preview with an assessment is accepted exactly when its declarations are, every declared resource
   is assessed once, and each requirement restates its declaration.
   */
  lemma MatchesExactly(d: Declarations, rs: seq<Requirement>)
    ensures PreviewAccepts(d, Some(rs))
       <==> DeclarationsOk(d) && !d.NotDeclared?
            && multiset(RequirementKeys(rs)) == multiset(DeclaredKeys(Resources(d)))
            && forall i: nat, j: nat | Paired(d, rs, i, j) :: Restates(rs[i], Resources(d)[j], AppliesTo(d, rs[i].key))
  {
    if DeclarationsOk(d) {
      DeclaredOnce(d);
      if multiset(RequirementKeys(rs)) == multiset(DeclaredKeys(Resources(d))) {
        DistinctByMultiset(DeclaredKeys(Resources(d)), RequirementKeys(rs));
        assert |rs| == |multiset(RequirementKeys(rs))| == |multiset(DeclaredKeys(Resources(d)))| == |Resources(d)|;
      }
      if Checked(d, rs) {
        MatchesWhenChecked(d, rs);
      }
    }
  }

  lemma KeysPairUp(xs: seq<string>, ys: seq<string>)
    requires Distinct(ys)
    ensures multiset(xs) == multiset(ys) <==> |xs| == |ys| && Distinct(xs) && forall x | x in xs :: x in ys
  {
    if |xs| == |ys| && Distinct(xs) && forall x | x in xs :: x in ys {
      Pigeonhole(xs, ys);
    } else if multiset(xs) == multiset(ys) {
      DistinctByMultiset(ys, xs);
      assert |xs| == |multiset(xs)| == |multiset(ys)| == |ys|;
      assert forall x | x in xs :: x in multiset(xs) && x in multiset(ys);
    }
  }

  /** Distinct requirements, as many as there are declarations, each naming one of them. */
  ghost predicate OneEach(rs: seq<Requirement>, declared: seq<string>) {
    && |rs| == |declared| && (forall i, j | 0 <= i < j < |rs| :: rs[i].key != rs[j].key)
    && forall r | r in rs :: r.key in declared
  }

  lemma OneEachExact(rs: seq<Requirement>, declared: seq<string>)
    requires Distinct(declared)
    ensures multiset(RequirementKeys(rs)) == multiset(declared) <==> OneEach(rs, declared)
  {
    var keys := RequirementKeys(rs);
    KeysPairUp(keys, declared);
    if OneEach(rs, declared) {
      assert forall i | 0 <= i < |keys| :: rs[i] in rs && keys[i] == rs[i].key;
    }
    if multiset(keys) == multiset(declared) {
      assert forall i, j | 0 <= i < j < |keys| :: keys[i] != keys[j] && keys[i] == rs[i].key && keys[j] == rs[j].key;
      forall r | r in rs ensures r.key in declared {
        var i :| 0 <= i < |rs| && rs[i] == r;
        assert keys[i] in keys;
      }
    }
  }

  /** What an assessment must say about a resource of a blueprint, attribute by attribute. */
  lemma ResourceRestated(p: Plan, r: Requirement, x: Resource)
    requires x.capabilities.Some? ==> Distinct(x.capabilities.value)
    ensures Restates(r, FromResource(x), AppliesTo(Blueprint(p), r.key))
       <==> && r.kind == x.kind && r.guidance == x.guidance && r.access == x.access
            && r.required
               == (x.required || (p.effects.Some? && exists e | e in p.effects.value ::
                                    e.mode == "apply" && e.resourceKey == Some(r.key)))
            && Distinct(r.capabilities)
            && (forall c :: c in r.capabilities <==> x.capabilities.Some? && c in x.capabilities.value)
  {
    var capabilities := FromResource(x).use.value.capabilities;
    assert forall c :: c in Elements(r.capabilities) <==> c in r.capabilities;
    assert forall c :: c in Elements(capabilities) <==> x.capabilities.Some? && c in x.capabilities.value;
  }

  lemma KeyOfDeclared(ds: seq<Declared>, key: string)
    ensures key in DeclaredKeys(ds) <==> exists x | x in ds :: x.key == key
  {
    var keys := DeclaredKeys(ds);
    if key in keys {
      var i :| 0 <= i < |keys| && keys[i] == key;
      assert ds[i] in ds;
    }
    if x :| x in ds && x.key == key {
      var i :| 0 <= i < |ds| && ds[i] == x;
      assert keys[i] == key;
    }
  }

  lemma AllRestated(d: Declarations, rs: seq<Requirement>)
    ensures (forall i: nat, j: nat | Paired(d, rs, i, j) :: Restates(rs[i], Resources(d)[j], AppliesTo(d, rs[i].key)))
       <==> forall r, x | r in rs && x in Resources(d) && x.key == r.key :: Restates(r, x, AppliesTo(d, r.key))
  {
    var declared := Resources(d);
    if forall i: nat, j: nat | Paired(d, rs, i, j) :: Restates(rs[i], declared[j], AppliesTo(d, rs[i].key)) {
      forall r, x | r in rs && x in declared && x.key == r.key ensures Restates(r, x, AppliesTo(d, r.key)) {
        var i: nat :| i < |rs| && rs[i] == r;
        var j: nat :| j < |declared| && declared[j] == x;
        assert Paired(d, rs, i, j);
      }
    }
  }

  /** The comparison without positions: requirements and declarations meet by key. */
  lemma MatchesByKey(d: Declarations, rs: seq<Requirement>)
    ensures PreviewAccepts(d, Some(rs))
       <==> && DeclarationsOk(d) && !d.NotDeclared?
            && |rs| == |Resources(d)| && (forall i, j | 0 <= i < j < |rs| :: rs[i].key != rs[j].key)
            && (forall r | r in rs :: exists x | x in Resources(d) :: x.key == r.key)
            && forall r, x | r in rs && x in Resources(d) && x.key == r.key :: Restates(r, x, AppliesTo(d, r.key))
  {
    MatchesExactly(d, rs);
    if DeclarationsOk(d) {
      DeclaredOnce(d);
      OneEachExact(rs, DeclaredKeys(Resources(d)));
      forall r | r in rs {
        KeyOfDeclared(Resources(d), r.key);
      }
      AllRestated(d, rs);
    }
  }

  lemma BlueprintResources(p: Plan)
    ensures |Resources(Blueprint(p))| == |p.task| + |p.shared|
    ensures forall x | x in p.task + p.shared :: FromResource(x.value) in Resources(Blueprint(p))
    ensures forall y | y in Resources(Blueprint(p)) :: exists x | x in p.task + p.shared :: y == FromResource(x.value)
  {
    var refs, declared := p.task + p.shared, Resources(Blueprint(p));
    forall x | x in refs ensures FromResource(x.value) in declared {
      var i :| 0 <= i < |refs| && refs[i] == x;
      assert declared[i] == FromResource(x.value);
    }
    forall y | y in declared ensures exists x | x in refs :: y == FromResource(x.value) {
      var i :| 0 <= i < |declared| && declared[i] == y;
      assert refs[i] in refs;
    }
  }

  lemma BlueprintPairs(p: Plan, rs: seq<Requirement>)
    ensures PreviewAccepts(Blueprint(p), Some(rs))
       <==> && Accepts(p)
            && (forall x | x in p.task + p.shared && x.value.capabilities.Some? :: Distinct(x.value.capabilities.value))
            && |rs| == |p.task| + |p.shared| && (forall i, j | 0 <= i < j < |rs| :: rs[i].key != rs[j].key)
            && (forall r | r in rs :: exists x | x in p.task + p.shared :: x.value.key == r.key)
            && forall r, x | r in rs && x in p.task + p.shared && x.value.key == r.key ::
                 Restates(r, FromResource(x.value), AppliesTo(Blueprint(p), r.key))
  {
    MatchesByKey(Blueprint(p), rs);
    BlueprintResources(p);
  }

  lemma RestatedThroughout(p: Plan, rs: seq<Requirement>)
    requires forall x | x in p.task + p.shared && x.value.capabilities.Some? :: Distinct(x.value.capabilities.value)
    ensures (forall r, x | r in rs && x in p.task + p.shared && x.value.key == r.key ::
               Restates(r, FromResource(x.value), AppliesTo(Blueprint(p), r.key)))
       <==> forall r, x | r in rs && x in p.task + p.shared && x.value.key == r.key ::
              && r.kind == x.value.kind && r.guidance == x.value.guidance && r.access == x.value.access
              && r.required
                 == (x.value.required || (p.effects.Some? && exists e | e in p.effects.value ::
                                            e.mode == "apply" && e.resourceKey == Some(r.key)))
              && Distinct(r.capabilities)
              && (forall c :: c in r.capabilities <==> x.value.capabilities.Some? && c in x.value.capabilities.value)
  {
    forall r, x | r in rs && x in p.task + p.shared && x.value.key == r.key {
      ResourceRestated(p, r, x.value);
    }
  }

  /**
   The comparison for a blueprint in terms of its resources: each is assessed once, and its assessment
   copies kind, guidance, access and capabilities, an absent list being empty, and says required
   exactly when the resource is required or an apply effect aims at it.
   */
  lemma BlueprintMatchesExactly(p: Plan, rs: seq<Requirement>)
    ensures PreviewAccepts(Blueprint(p), Some(rs))
       <==> && Accepts(p)
            && (forall x | x in p.task + p.shared && x.value.capabilities.Some? :: Distinct(x.value.capabilities.value))
            && |rs| == |p.task| + |p.shared| && (forall i, j | 0 <= i < j < |rs| :: rs[i].key != rs[j].key)
            && (forall r | r in rs :: exists x | x in p.task + p.shared :: x.value.key == r.key)
            && forall r, x | r in rs && x in p.task + p.shared && x.value.key == r.key ::
                 && r.kind == x.value.kind && r.guidance == x.value.guidance && r.access == x.value.access
                 && r.required
                    == (x.value.required || (p.effects.Some? && exists e | e in p.effects.value ::
                                               e.mode == "apply" && e.resourceKey == Some(r.key)))
                 && Distinct(r.capabilities)
                 && (forall c :: c in r.capabilities <==> x.value.capabilities.Some? && c in x.value.capabilities.value)
  {
    BlueprintPairs(p, rs);
    if forall x | x in p.task + p.shared && x.value.capabilities.Some? :: Distinct(x.value.capabilities.value) {
      RestatedThroughout(p, rs);
    }
  }

  /** A source execution says nothing about access, and nothing is applied; all else is the same. */
  lemma SourceMatchesExactly(declared: seq<SourceRequirement>, rs: seq<Requirement>)
    ensures PreviewAccepts(SourceExecution(declared), Some(rs))
       <==> && |rs| == |declared| <= 50 && (forall i, j | 0 <= i < j < |rs| :: rs[i].key != rs[j].key)
            && (forall i, j | 0 <= i < j < |declared| :: declared[i].key != declared[j].key)
            && (forall r | r in rs :: exists x | x in declared :: x.key == r.key)
            && forall r, x | r in rs && x in declared && x.key == r.key ::
                 r.kind == x.kind && r.guidance == x.guidance && r.required == x.required && Distinct(r.capabilities)
  {
    var d := SourceExecution(declared);
    MatchesByKey(d, rs);
    SourceResources(declared);
  }

  lemma SourceResources(declared: seq<SourceRequirement>)
    ensures var resources := Resources(SourceExecution(declared));
            && |resources| == |declared|
            && (forall x | x in declared :: FromSource(x) in resources)
            && (forall y | y in resources :: exists x | x in declared :: y == FromSource(x))
            && (Distinct(DeclaredKeys(resources))
                <==> forall i, j | 0 <= i < j < |declared| :: declared[i].key != declared[j].key)
  {
    var resources := Resources(SourceExecution(declared));
    forall x | x in declared ensures FromSource(x) in resources {
      var i :| 0 <= i < |declared| && declared[i] == x;
      assert resources[i] == FromSource(x);
    }
    forall y | y in resources ensures exists x | x in declared :: y == FromSource(x) {
      var i :| 0 <= i < |resources| && resources[i] == y;
      assert declared[i] in declared;
    }
    var keys := DeclaredKeys(resources);
    assert |keys| == |declared| && forall i | 0 <= i < |declared| :: keys[i] == declared[i].key;
  }

  /** Without an assessment the declarations decide; without declarations no assessment is accepted. */
  lemma NothingToCompare(p: Plan, declared: seq<SourceRequirement>, rs: seq<Requirement>)
    ensures PreviewAccepts(NotDeclared, None) && !PreviewAccepts(NotDeclared, Some(rs))
    ensures PreviewAccepts(Blueprint(p), None)
       <==> && Accepts(p)
            && forall x | x in p.task + p.shared && x.value.capabilities.Some? :: Distinct(x.value.capabilities.value)
    ensures PreviewAccepts(SourceExecution(declared), None)
       <==> |declared| <= 50 && forall i, j | 0 <= i < j < |declared| :: declared[i].key != declared[j].key
  {
    SourceResources(declared);
  }

  lemma Assessed(d: Declarations, rs: seq<Requirement>, key: string) returns (i: nat)
    requires Checked(d, rs) && ReadinessMatches(d, Some(rs)) && key in DeclaredKeys(Resources(d))
    ensures i < |rs| && rs[i].key == key && RequirementMatches(rs[i], d)
  {
    MatchedKeys(d, rs);
    assert key in multiset(DeclaredKeys(Resources(d))) && key in multiset(RequirementKeys(rs));
    i :| 0 <= i < |rs| && RequirementKeys(rs)[i] == key;
  }

  lemma RequiredWhenApplied(r: Requirement, d: Declarations)
    requires RequirementMatches(r, d) && AppliesTo(d, r.key)
    ensures r.required
  {
    FindSome(Resources(d), r.key);
  }

  /** In an accepted preview the target of every apply effect is assessed, and as required. */
  lemma ApplyTargetsAreRequired(p: Plan, rs: seq<Requirement>, e: Effect)
    requires PreviewAccepts(Blueprint(p), Some(rs))
    requires p.effects.Some? && e in p.effects.value && e.mode == "apply" && e.resourceKey.Some?
    ensures exists i :: 0 <= i < |rs| && rs[i].key == e.resourceKey.value && rs[i].required
  {
    var d, key := Blueprint(p), e.resourceKey.value;
    DeclaredOnce(d);
    EffectKeyDeclared(p, key);
    var i := Assessed(d, rs, key);
    assert AppliesTo(d, rs[i].key);
    RequiredWhenApplied(rs[i], d);
  }

  lemma EffectKeyDeclared(p: Plan, key: string)
    requires EffectsResolve(p) && AppliesTo(Blueprint(p), key)
    ensures key in DeclaredKeys(Resources(Blueprint(p)))
  {
    assert key in Keys(All(p));
    assert DeclaredKeys(Resources(Blueprint(p))) == Keys(All(p));
  }

  // ---- Key lists of a source execution ----------------------------------------------------

  const MAX_KEY: nat := 128

  predicate IsKeyChar(c: char) {
    'a' <= c <= 'z' || '0' <= c <= '9' || c == '_' || c == '.' || c == '-'
  }

  /** ^[a-z][a-z0-9_.-]*$ within the length bound */
  predicate IsKey(s: string) {
    && 0 < |s| <= MAX_KEY && 'a' <= s[0] <= 'z'
    && forall i | 0 <= i < |s| :: IsKeyChar(s[i])
  }

  /** A list of keys on its own: bounded, well formed, none twice. */
  predicate IsKeyList(keys: seq<string>) {
    |keys| <= MAX_RESOURCES && (forall i | 0 <= i < |keys| :: IsKey(keys[i])) && AllDifferent(keys)
  }

  /** The keys of the resources, those the task lists, and the paths of the documents. */
  predicate SourceReferencesOk(resources: seq<string>, taskKeys: seq<string>, paths: seq<string>) {
    && IsKeyList(taskKeys) && |resources| <= MAX_RESOURCES && (forall i | 0 <= i < |resources| :: IsKey(resources[i]))
    && AllDifferent(resources)
    && Text.Join(resources, '\n') == Text.Join(taskKeys, '\n')
    && AllDifferent(paths)
  }

  /**
   Comparing the joined keys compares the lists, as no key can hold the separator or be empty: a source
   execution passes exactly when the task lists the resources' keys, in their order, and each is proper.
   */
  lemma SourceReferencesExact(resources: seq<string>, taskKeys: seq<string>, paths: seq<string>)
    ensures SourceReferencesOk(resources, taskKeys, paths)
       <==> && taskKeys == resources && |resources| <= 50
            && (forall k | k in resources ::
                  && 1 <= |k| <= 128 && 'a' <= k[0] <= 'z'
                  && forall c | c in k :: 'a' <= c <= 'z' || '0' <= c <= '9' || c in ['_', '.', '-'])
            && (forall i, j | 0 <= i < j < |resources| :: resources[i] != resources[j])
            && forall i, j | 0 <= i < j < |paths| :: paths[i] != paths[j]
  {
    assert !IsKeyChar('\n');
    forall k: string {
      KeyExact(k);
    }
    if && (forall i | 0 <= i < |resources| :: IsKey(resources[i]))
       && (forall i | 0 <= i < |taskKeys| :: IsKey(taskKeys[i]))
       && Text.Join(resources, '\n') == Text.Join(taskKeys, '\n')
    {
      Text.JoinInjective(resources, taskKeys, '\n');
    }
  }

  lemma KeyExact(k: string)
    ensures IsKey(k)
       <==> && 1 <= |k| <= 128 && 'a' <= k[0] <= 'z'
            && forall c | c in k :: 'a' <= c <= 'z' || '0' <= c <= '9' || c in ['_', '.', '-']
  {
    if 1 <= |k| && forall c | c in k :: 'a' <= c <= 'z' || '0' <= c <= '9' || c in ['_', '.', '-'] {
      forall i | 0 <= i < |k| ensures IsKeyChar(k[i]) {
        assert k[i] in k;
      }
    }
  }
}
