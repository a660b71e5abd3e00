/**
 The life of an upload intent and the three migrations that record it: 0038 (intents and their
 documents), 0042 (publication closures) and 0060 (replacements).
 */
module DocumentUploads {
  import opened Identity
  import opened Sql
  import opened Text
  import opened Wrappers

  const PENDING := "PENDING"

  datatype Intent = Intent(documentId: Id, project: Id, folder: string, name: string, state: string,
                           createdAt: int, publishedAt: Option<int>, cleanupAt: Option<int>)

  // ---- Row CHECKs -------------------------------------------------------------------------

  function StateCheck(i: Intent): Truth {
    In(Some(i.state), {PENDING, "PUBLISHED"})
  }

  function PublicationCheck(i: Intent): Truth {
    Eq(Some(i.state), Some(PENDING)).And(IsNull(i.publishedAt)).And(IsNull(i.cleanupAt)).Or(
      Eq(Some(i.state), Some("PUBLISHED")).And(NotNull(i.publishedAt)).And(Ge(i.publishedAt, Some(i.createdAt)))
        .And(IsNull(i.cleanupAt).Or(Ge(i.cleanupAt, i.publishedAt))))
  }

  function ClosureCheck(i: Intent, closedAt: Option<int>): Truth {
    IsNull(closedAt).Or(Eq(Some(i.state), Some(PENDING)).And(IsNull(i.publishedAt))
      .And(Ge(closedAt, Some(i.createdAt))))
  }

  function ReplacementCheck(i: Intent, replaced: Option<Id>, expected: Option<string>): Truth {
    IsNull(replaced).And(IsNull(expected)).Or(
      NotNull(replaced).And(NotNull(expected)).And(Ne(replaced, Some(NIL)))
        .And(Ne(replaced, Some(i.documentId))).And(MatchesDigest(expected, SHA)))
  }

  predicate IntentAccepted(i: Intent) {
    StateCheck(i).CheckPasses() && PublicationCheck(i).CheckPasses()
  }

  /** Open, closed for good before publication, or published and possibly awaiting cleanup. */
  datatype Life = Open | Closed(at: int) | Published(at: int, cleanup: Option<int>)

  predicate Lives(i: Intent, closedAt: Option<int>, life: Life) {
    match life
    case Open => i.state == "PENDING" && i.publishedAt.None? && i.cleanupAt.None? && closedAt.None?
    case Closed(at) =>
      i.state == "PENDING" && i.publishedAt.None? && i.cleanupAt.None? && closedAt == Some(at) && i.createdAt <= at
    case Published(at, cleanup) =>
      i.state == "PUBLISHED" && i.publishedAt == Some(at) && i.createdAt <= at && closedAt.None?
      && i.cleanupAt == cleanup && (cleanup.Some? ==> at <= cleanup.value)
  }

  /** On any mix of NULLs the CHECKs of 0038 and 0042 admit exactly the rows that live one such life. */
  lemma LifeExact(i: Intent, closedAt: Option<int>)
    ensures IntentAccepted(i) && ClosureCheck(i, closedAt).CheckPasses() <==> exists life :: Lives(i, closedAt, life)
  {
    var life := if closedAt.Some? then Closed(closedAt.value)
                else if i.publishedAt.Some? then Published(i.publishedAt.value, i.cleanupAt) else Open;
    if IntentAccepted(i) && ClosureCheck(i, closedAt).CheckPasses() {
      assert Lives(i, closedAt, life);
    }
  }

  /** The paired columns of 0060 are both set, to another document and a digest, or both NULL. */
  lemma ReplacementExact(i: Intent, replaced: Option<Id>, expected: Option<string>)
    ensures ReplacementCheck(i, replaced, expected).CheckPasses() <==>
      || (replaced.None? && expected.None?)
      || (replaced.Some? && expected.Some? && replaced.value != NIL && replaced.value != i.documentId
          && IsDigest(expected.value, SHA))
  {
  }

  // ---- 0038 -------------------------------------------------------------------------------

  /** `documents` maps a document to its project; `intentOf` is the nullable upload_intent_id. */
  datatype Db38 = Db38(documents: map<Id, Id>, intentOf: map<Id, Id>, intents: map<Id, Intent>)

  predicate SamePath(intents: map<Id, Intent>, a: Id, b: Id)
    requires a in intents && b in intents
  {
    intents[a].project == intents[b].project && intents[a].folder == intents[b].folder
    && intents[a].name == intents[b].name
  }

  /** The partial unique index over the rows in `indexed`. */
  predicate UniquePath(intents: map<Id, Intent>, indexed: set<Id>)
    requires indexed <= intents.Keys
  {
    forall a, b {:trigger SamePath(intents, a, b)} | a in indexed && b in indexed && SamePath(intents, a, b) :: a == b
  }

  function PendingRows(intents: map<Id, Intent>): set<Id> {
    set i | i in intents && Eq(Some(intents[i].state), Some(PENDING)).Selects()
  }

  predicate SameDocument(intents: map<Id, Intent>, a: Id, b: Id)
    requires a in intents && b in intents
  {
    intents[a].documentId == intents[b].documentId
  }

  predicate ValidIntents(intents: map<Id, Intent>) {
    && (forall i | i in intents :: IntentAccepted(intents[i]))
    && (forall a, b {:trigger SameDocument(intents, a, b)}
          | a in intents && b in intents && SameDocument(intents, a, b) :: a == b)
  }

  predicate Valid37(t: Db38) {
    t.intentOf == map[] && t.intents == map[]
  }

  /** The composite key (intent, document, project) is checked only when the intent is not NULL. */
  predicate Valid38(t: Db38) {
    && ValidIntents(t.intents) && UniquePath(t.intents, PendingRows(t.intents))
    && t.intentOf.Keys <= t.documents.Keys
    && (forall d | d in t.intentOf :: t.intentOf[d] in t.intents
          && t.intents[t.intentOf[d]].documentId == d && t.intents[t.intentOf[d]].project == t.documents[d])
  }

  /** The schema of 0038 in terms of lives: which rows and which pairs of rows may stand in it. */
  lemma IntentSchemaExact(t: Db38)
    ensures Valid38(t)
       <==> && (forall i | i in t.intents :: exists life :: Lives(t.intents[i], None, life))
            && (forall a, b | a in t.intents && b in t.intents && a != b ::
                  t.intents[a].documentId != t.intents[b].documentId)
            && (forall a, b | a in t.intents && b in t.intents && a != b
                              && t.intents[a].state == "PENDING" && t.intents[b].state == "PENDING" ::
                  (t.intents[a].project, t.intents[a].folder, t.intents[a].name)
                  != (t.intents[b].project, t.intents[b].folder, t.intents[b].name))
            && forall d | d in t.intentOf ::
                 d in t.documents && t.intentOf[d] in t.intents && t.intents[t.intentOf[d]].documentId == d
                 && t.intents[t.intentOf[d]].project == t.documents[d]
  {
    IntentRows(t.intents);
    PathsDiffer(t.intents, PendingRows(t.intents));
  }

  lemma IntentRows(intents: map<Id, Intent>)
    ensures ValidIntents(intents)
       <==> && (forall i | i in intents :: exists life :: Lives(intents[i], None, life))
            && (forall a, b | a in intents && b in intents && a != b :: intents[a].documentId != intents[b].documentId)
  {
    forall i | i in intents {
      LifeExact(intents[i], None);
    }
    DocumentsDiffer(intents);
  }

  lemma DocumentsDiffer(intents: map<Id, Intent>)
    ensures (forall a, b {:trigger SameDocument(intents, a, b)}
               | a in intents && b in intents && SameDocument(intents, a, b) :: a == b)
       <==> forall a, b | a in intents && b in intents && a != b :: intents[a].documentId != intents[b].documentId
  {
    if forall a, b {:trigger SameDocument(intents, a, b)}
         | a in intents && b in intents && SameDocument(intents, a, b) :: a == b {
      forall a, b | a in intents && b in intents && a != b ensures intents[a].documentId != intents[b].documentId {
        assert !SameDocument(intents, a, b);
      }
    }
  }

  lemma PathsDiffer(intents: map<Id, Intent>, indexed: set<Id>)
    requires indexed <= intents.Keys
    ensures UniquePath(intents, indexed)
       <==> forall a, b | a in indexed && b in indexed && a != b ::
              (intents[a].project, intents[a].folder, intents[a].name)
              != (intents[b].project, intents[b].folder, intents[b].name)
  {
    if UniquePath(intents, indexed) {
      forall a, b | a in indexed && b in indexed && a != b
        ensures (intents[a].project, intents[a].folder, intents[a].name)
             != (intents[b].project, intents[b].folder, intents[b].name)
      {
        assert !SamePath(intents, a, b);
      }
    }
  }

  function Upgrade38(t: Db38): Db38 {
    t.(intentOf := map[], intents := map[])
  }

  function Downgrade38(t: Db38): Result<Db38> {
    if t.intents != map[] || t.intentOf != map[] then Refused else Ok(t.(intentOf := map[], intents := map[]))
  }

  /** Undone exactly when never used; the foreign key already makes the guard's second half follow. */
  lemma IntentsLossless(t: Db38)
    requires Valid38(t)
    ensures Downgrade38(t).Ok? <==> exists before :: Valid37(before) && Upgrade38(before) == t
    ensures Downgrade38(t).Ok? <==> t.intents == map[]
    ensures Downgrade38(t).Ok? ==> Valid37(Downgrade38(t).value) && Upgrade38(Downgrade38(t).value) == t
  {
    if t.intents == map[] {
      assert t.intentOf.Keys == {};
      assert t.intentOf == map[];
      assert Valid37(t) && Upgrade38(t) == t;
    }
  }

  lemma IntentsReversible(t: Db38)
    requires Valid37(t)
    ensures Valid38(Upgrade38(t)) && Downgrade38(Upgrade38(t)) == Ok(t)
  {
  }

  // ---- 0042 -------------------------------------------------------------------------------

  datatype Closure = Closure(intent: Id, documentId: Id, project: Id)

  datatype Db42 = Db42(intents: map<Id, Intent>, closedAt: map<Id, int>, closures: map<Id, Closure>)

  predicate Valid41(t: Db42) {
    && ValidIntents(t.intents) && UniquePath(t.intents, PendingRows(t.intents))
    && t.closedAt == map[] && t.closures == map[]
  }

  /** The rows of the new partial index: pending and not closed. */
  function OpenRows(t: Db42): set<Id> {
    set i | i in t.intents
      && Eq(Some(t.intents[i].state), Some(PENDING)).And(IsNull(Cell(t.closedAt, i))).Selects()
  }

  predicate SameClosure(t: Db42, a: Id, b: Id)
    requires a in t.closures && b in t.closures
  {
    t.closures[a].intent == t.closures[b].intent
  }

  lemma OpenExact(t: Db42, i: Id)
    requires i in t.intents && IntentAccepted(t.intents[i])
    ensures i in OpenRows(t) <==> Lives(t.intents[i], Cell(t.closedAt, i), Open)
  {
  }

  predicate Valid42(t: Db42) {
    && ValidIntents(t.intents) && UniquePath(t.intents, OpenRows(t))
    && t.closedAt.Keys <= t.intents.Keys
    && (forall i | i in t.intents :: ClosureCheck(t.intents[i], Cell(t.closedAt, i)).CheckPasses())
    && (forall c | c in t.closures :: t.closures[c].intent in t.intents
          && t.intents[t.closures[c].intent].documentId == t.closures[c].documentId
          && t.intents[t.closures[c].intent].project == t.closures[c].project)
    && (forall a, b {:trigger SameClosure(t, a, b)}
          | a in t.closures && b in t.closures && SameClosure(t, a, b) :: a == b)
  }

  /** The schema of 0042: every intent lives one life, and the path of an open one is free of other open ones. */
  lemma ClosureSchemaExact(t: Db42)
    ensures Valid42(t)
       <==> && t.closedAt.Keys <= t.intents.Keys
            && (forall i | i in t.intents :: exists life :: Lives(t.intents[i], Cell(t.closedAt, i), life))
            && (forall a, b | a in t.intents && b in t.intents && a != b ::
                  t.intents[a].documentId != t.intents[b].documentId)
            && (forall a, b | a in t.intents && b in t.intents && a != b
                              && Lives(t.intents[a], Cell(t.closedAt, a), Open)
                              && Lives(t.intents[b], Cell(t.closedAt, b), Open) ::
                  (t.intents[a].project, t.intents[a].folder, t.intents[a].name)
                  != (t.intents[b].project, t.intents[b].folder, t.intents[b].name))
            && (forall c | c in t.closures ::
                  t.closures[c].intent in t.intents
                  && t.intents[t.closures[c].intent].documentId == t.closures[c].documentId
                  && t.intents[t.closures[c].intent].project == t.closures[c].project)
            && (forall c, e | c in t.closures && e in t.closures && c != e ::
                  t.closures[c].intent != t.closures[e].intent)
  {
    ClosedIntentRows(t);
    ClosuresDiffer(t);
    if ValidIntents(t.intents) {
      OpenPathsDiffer(t);
    }
  }

  lemma ClosedIntentRows(t: Db42)
    ensures ValidIntents(t.intents)
            && (forall i | i in t.intents :: ClosureCheck(t.intents[i], Cell(t.closedAt, i)).CheckPasses())
       <==> && (forall i | i in t.intents :: exists life :: Lives(t.intents[i], Cell(t.closedAt, i), life))
            && (forall a, b | a in t.intents && b in t.intents && a != b ::
                  t.intents[a].documentId != t.intents[b].documentId)
  {
    forall i | i in t.intents {
      LifeExact(t.intents[i], Cell(t.closedAt, i));
    }
    DocumentsDiffer(t.intents);
  }

  lemma OpenPathsDiffer(t: Db42)
    requires ValidIntents(t.intents)
    ensures UniquePath(t.intents, OpenRows(t))
       <==> forall a, b | a in t.intents && b in t.intents && a != b
                          && Lives(t.intents[a], Cell(t.closedAt, a), Open)
                          && Lives(t.intents[b], Cell(t.closedAt, b), Open) ::
              (t.intents[a].project, t.intents[a].folder, t.intents[a].name)
              != (t.intents[b].project, t.intents[b].folder, t.intents[b].name)
  {
    PathsDiffer(t.intents, OpenRows(t));
    forall i | i in t.intents ensures i in OpenRows(t) <==> Lives(t.intents[i], Cell(t.closedAt, i), Open) {
      OpenExact(t, i);
    }
  }

  lemma ClosuresDiffer(t: Db42)
    ensures (forall a, b {:trigger SameClosure(t, a, b)}
               | a in t.closures && b in t.closures && SameClosure(t, a, b) :: a == b)
       <==> forall c, e | c in t.closures && e in t.closures && c != e :: t.closures[c].intent != t.closures[e].intent
  {
    if forall a, b {:trigger SameClosure(t, a, b)}
         | a in t.closures && b in t.closures && SameClosure(t, a, b) :: a == b {
      forall c, e | c in t.closures && e in t.closures && c != e
        ensures t.closures[c].intent != t.closures[e].intent
      {
        assert !SameClosure(t, c, e);
      }
    }
  }

  function Upgrade42(t: Db42): Db42 {
    t.(closedAt := map[], closures := map[])
  }

  function Downgrade42(t: Db42): Result<Db42> {
    if t.closures != map[] || (exists i :: i in t.intents && NotNull(Cell(t.closedAt, i)).Selects()) then Refused
    else Ok(t.(closedAt := map[], closures := map[]))
  }

  /** With nothing closed the two index predicates select the same rows, so the old index holds again. */
  lemma ClosuresLossless(t: Db42)
    requires Valid42(t)
    ensures Downgrade42(t).Ok? <==> exists before :: Valid41(before) && Upgrade42(before) == t
    ensures Downgrade42(t).Ok? ==> Valid41(Downgrade42(t).value) && Upgrade42(Downgrade42(t).value) == t
  {
    if Downgrade42(t).Ok? {
      assert forall i | i in t.intents :: !NotNull(Cell(t.closedAt, i)).Selects();
      assert t.closedAt.Keys == {};
      assert t.closedAt == map[];
      assert OpenRows(t) == PendingRows(t.intents);
      assert Valid41(t) && Upgrade42(t) == t;
    }
  }

  lemma ClosuresReversible(t: Db42)
    requires Valid41(t)
    ensures Valid42(Upgrade42(t)) && Downgrade42(Upgrade42(t)) == Ok(t)
  {
    assert OpenRows(Upgrade42(t)) == PendingRows(t.intents);
  }

  /** Reading the closure table alone would not do: a closed path can be taken again. */
  lemma ClosureGuardNeedsBothReads()
    ensures exists t: Db42 :: Valid42(t) && t.closures == map[] && !UniquePath(t.intents, PendingRows(t.intents))
  {
    var first := Intent(1, 7, "", "a", PENDING, 0, None, None);
    var t := Db42(map[1 := first, 2 := first.(documentId := 2)], map[1 := 5], map[]);
    assert 2 in OpenRows(t) && 1 !in OpenRows(t);
    assert SamePath(t.intents, 1, 2);
    assert 1 in PendingRows(t.intents) && 2 in PendingRows(t.intents);
    assert Valid42(t);
  }

  // ---- 0060 -------------------------------------------------------------------------------

  datatype Db60 = Db60(intents: map<Id, Intent>, replaced: map<Id, Id>, expected: map<Id, string>)

  predicate Valid59(t: Db60) {
    t.replaced == map[] && t.expected == map[]
  }

  predicate Valid60(t: Db60) {
    && t.replaced.Keys <= t.intents.Keys && t.expected.Keys <= t.intents.Keys
    && (forall i | i in t.intents ::
          ReplacementCheck(t.intents[i], Cell(t.replaced, i), Cell(t.expected, i)).CheckPasses())
  }

  function Upgrade60(t: Db60): Db60 {
    t.(replaced := map[], expected := map[])
  }

  function Downgrade60(t: Db60): Result<Db60> {
    if exists i :: i in t.intents && NotNull(Cell(t.replaced, i)).Selects() then Refused
    else Ok(t.(replaced := map[], expected := map[]))
  }

  /** The guard reads one column of the pair; the CHECK makes it speak for the other. */
  lemma ReplacementsLossless(t: Db60)
    requires Valid60(t)
    ensures Downgrade60(t).Ok? <==> exists before :: Valid59(before) && Upgrade60(before) == t
    ensures Downgrade60(t).Ok? ==> Valid59(Downgrade60(t).value) && Upgrade60(Downgrade60(t).value) == t
  {
    if Downgrade60(t).Ok? {
      forall i ensures i !in t.replaced && i !in t.expected {
        if i in t.intents {
          assert !NotNull(Cell(t.replaced, i)).Selects();
          ReplacementExact(t.intents[i], Cell(t.replaced, i), Cell(t.expected, i));
        }
      }
      assert t.replaced == map[] && t.expected == map[];
      assert Valid59(t) && Upgrade60(t) == t;
    }
  }

  lemma ReplacementsReversible(t: Db60)
    requires Valid59(t)
    ensures Valid60(Upgrade60(t)) && Downgrade60(Upgrade60(t)) == Ok(t)
  {
  }

  lemma ReplacementGuardNeedsCheck()
    ensures exists t: Db60 ::
              t.expected.Keys <= t.intents.Keys && Downgrade60(t).Ok? && Upgrade60(Downgrade60(t).value) != t
  {
    var t := Db60(map[1 := Intent(1, 7, "", "a", PENDING, 0, None, None)], map[], map[1 := "x"]);
    assert 1 in t.expected && 1 !in Upgrade60(t).expected;
  }

  // ---- The migrations as they run ---------------------------------------------------------

  class UploadTables {
    var documents: map<Id, Id>
    var intentOf: map<Id, Id>
    var intents: map<Id, Intent>
    var closedAt: map<Id, int>
    var closures: map<Id, Closure>
    var replaced: map<Id, Id>
    var expected: map<Id, string>

    ghost function Rows38(): Db38
      reads this
    {
      Db38(documents, intentOf, intents)
    }

    ghost function Rows42(): Db42
      reads this
    {
      Db42(intents, closedAt, closures)
    }

    ghost function Rows60(): Db60
      reads this
    {
      Db60(intents, replaced, expected)
    }

    method Upgrade0038()
      requires Valid37(Rows38())
      modifies this`intents, this`intentOf
      ensures Rows38() == Upgrade38(old(Rows38())) && Valid38(Rows38())
    {
      intents := map[];
      intentOf := map[];
    }

    method Downgrade0038() returns (ok: bool)
      requires Valid38(Rows38())
      modifies this`intents, this`intentOf
      ensures ok == Downgrade38(old(Rows38())).Ok?
      ensures Rows38() == if ok then Downgrade38(old(Rows38())).value else old(Rows38())
      ensures ok ==> Valid37(Rows38()) && Upgrade38(Rows38()) == old(Rows38())
    {
      IntentsLossless(Rows38());
      if intents != map[] || intentOf != map[] { return false; }
      intentOf := map[];
      intents := map[];
      return true;
    }

    method Upgrade0042()
      requires Valid41(Rows42())
      modifies this`closedAt, this`closures
      ensures Rows42() == Upgrade42(old(Rows42())) && Valid42(Rows42())
    {
      ClosuresReversible(Rows42());
      closedAt := map[];
      closures := map[];
    }

    method Downgrade0042() returns (ok: bool)
      requires Valid42(Rows42())
      modifies this`closedAt, this`closures
      ensures ok == Downgrade42(old(Rows42())).Ok?
      ensures Rows42() == if ok then Downgrade42(old(Rows42())).value else old(Rows42())
      ensures ok ==> Valid41(Rows42()) && Upgrade42(Rows42()) == old(Rows42())
    {
      ClosuresLossless(Rows42());
      if closures != map[] || exists i :: i in intents && i in closedAt { return false; }
      closures := map[];
      closedAt := map[];
      return true;
    }

    method Upgrade0060()
      requires Valid59(Rows60())
      modifies this`replaced, this`expected
      ensures Rows60() == Upgrade60(old(Rows60())) && Valid60(Rows60())
    {
      replaced := map[];
      expected := map[];
    }

    method Downgrade0060() returns (ok: bool)
      requires Valid60(Rows60())
      modifies this`replaced, this`expected
      ensures ok == Downgrade60(old(Rows60())).Ok?
      ensures Rows60() == if ok then Downgrade60(old(Rows60())).value else old(Rows60())
      ensures ok ==> Valid59(Rows60()) && Upgrade60(Rows60()) == old(Rows60())
    {
      ReplacementsLossless(Rows60());
      if exists i :: i in intents && i in replaced { return false; }
      expected := map[];
      replaced := map[];
      return true;
    }
  }
}
