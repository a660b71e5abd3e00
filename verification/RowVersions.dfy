/**
 Two migrations that add defaulted columns and may only be undone while the defaults are unused:
 0034 (projects.row_version) and 0036 (task_schedules and their occurrences).
 */
module RowVersions {
  import opened Identity
  import opened Wrappers
  import opened Sql

  // ---- 0034 -------------------------------------------------------------------------------

  /** `projects` stands for all older columns; a dropped column is the empty map. */
  datatype Projects = Projects(projects: map<Id, string>, rowVersion: map<Id, int>)

  const MAX_VERSION := 2147483647

  function VersionCheck(v: Option<int>): Truth {
    Ge(v, Some(1)).And(Ge(Some(MAX_VERSION), v))
  }

  predicate Valid33(t: Projects) {
    t.rowVersion == map[]
  }

  predicate Valid34(t: Projects) {
    && t.rowVersion.Keys == t.projects.Keys
    && forall p | p in t.rowVersion :: VersionCheck(Some(t.rowVersion[p])).CheckPasses()
  }

  lemma VersionSchemaExact(t: Projects)
    ensures Valid34(t)
       <==> t.rowVersion.Keys == t.projects.Keys && forall p | p in t.projects :: 1 <= t.rowVersion[p] <= 2147483647
  {
    assert t.rowVersion.Keys == t.projects.Keys ==> forall p :: p in t.projects <==> p in t.rowVersion;
  }

  function Upgrade34(t: Projects): Projects {
    t.(rowVersion := map p | p in t.projects :: 1)
  }

  function Downgrade34(t: Projects): Result<Projects> {
    if exists p :: p in t.rowVersion && Gt(Some(t.rowVersion[p]), Some(1)).Selects() then Refused
    else Ok(t.(rowVersion := map[]))
  }

  class ProjectTable {
    var projects: map<Id, string>
    var rowVersion: map<Id, int>

    ghost function Rows(): Projects
      reads this
    {
      Projects(projects, rowVersion)
    }

    method Upgrade0034()
      requires Valid33(Rows())
      modifies this`rowVersion
      ensures Rows() == Upgrade34(old(Rows())) && Valid34(Rows())
    {
      rowVersion := map p | p in projects :: 1;
    }

    method Downgrade0034() returns (ok: bool)
      requires Valid34(Rows())
      modifies this`rowVersion
      ensures ok == Downgrade34(old(Rows())).Ok?
      ensures Rows() == if ok then Downgrade34(old(Rows())).value else old(Rows())
      ensures ok ==> Valid33(Rows()) && Upgrade34(Rows()) == old(Rows())
    {
      VersionsLossless(Rows());
      if exists p :: p in rowVersion && rowVersion[p] > 1 { return false; }
      rowVersion := map[];
      return true;
    }
  }

  /** The guard sees only values above one; the CHECK rules out the rest, so nothing is ever lost. */
  lemma VersionsLossless(t: Projects)
    requires Valid34(t)
    ensures Downgrade34(t).Ok? <==> exists before :: Valid33(before) && Upgrade34(before) == t
    ensures Downgrade34(t).Ok? ==> Valid33(Downgrade34(t).value) && Upgrade34(Downgrade34(t).value) == t
  {
    if Downgrade34(t).Ok? {
      assert Upgrade34(Downgrade34(t).value).rowVersion == t.rowVersion;
    }
  }

  lemma VersionsReversible(t: Projects)
    requires Valid33(t)
    ensures Valid34(Upgrade34(t)) && Downgrade34(Upgrade34(t)) == Ok(t)
  {
  }

  /** Without the CHECK the guard would erase a version below one. */
  lemma VersionGuardNeedsCheck()
    ensures exists t: Projects :: !Valid34(t) && t.rowVersion.Keys == t.projects.Keys
              && Downgrade34(t).Ok? && Upgrade34(Downgrade34(t).value) != t
  {
    var t := Projects(map[1 := "p"], map[1 := 0]);
    assert Upgrade34(Downgrade34(t).value).rowVersion[1] == 1;
  }

  // ---- 0036 -------------------------------------------------------------------------------

  datatype Occurrence = Occurrence(schedule: Id, occurrenceAt: int, status: string, runId: Option<Id>,
                                   outcome: Option<string>, settledAt: Option<int>)

  const RUN_CREATED := "RUN_CREATED"
  const NO_RUN := {"SKIPPED_OVERLAP", "FAILED_PRECONDITION"}

  function StatusCheck(o: Occurrence): Truth {
    In(Some(o.status), {"PENDING", "SETTLED"})
  }

  function OutcomeCheck(o: Occurrence): Truth {
    IsNull(o.outcome).Or(In(o.outcome, {RUN_CREATED} + NO_RUN))
  }

  function SettlementCheck(o: Occurrence): Truth {
    Eq(Some(o.status), Some("PENDING")).And(IsNull(o.runId)).And(IsNull(o.outcome)).And(IsNull(o.settledAt)).Or(
      Eq(Some(o.status), Some("SETTLED")).And(NotNull(o.outcome)).And(NotNull(o.settledAt)).And(
        Eq(o.outcome, Some(RUN_CREATED)).And(NotNull(o.runId)).Or(In(o.outcome, NO_RUN).And(IsNull(o.runId)))))
  }

  predicate OccurrenceAccepted(o: Occurrence) {
    StatusCheck(o).CheckPasses() && OutcomeCheck(o).CheckPasses() && SettlementCheck(o).CheckPasses()
  }

  /** An occurrence is pending and blank, or settled with a run exactly when it created one. */
  lemma SettlementExact(o: Occurrence)
    ensures OccurrenceAccepted(o) <==>
      || o == Occurrence(o.schedule, o.occurrenceAt, "PENDING", None, None, None)
      || (o.status == "SETTLED" && o.settledAt.Some? && o.outcome.Some?
          && if o.runId.Some? then o.outcome.value == "RUN_CREATED"
             else o.outcome.value in ["SKIPPED_OVERLAP", "FAILED_PRECONDITION"])
  {
  }

  datatype Schedules = Schedules(schedules: map<Id, string>, configuration: map<Id, int>, protocol: map<Id, int>,
                                 occurrences: map<Id, Occurrence>)

  predicate SameOccurrence(t: Schedules, a: Id, b: Id)
    requires a in t.occurrences && b in t.occurrences
  {
    var x, y := t.occurrences[a], t.occurrences[b];
    || (x.schedule == y.schedule && x.occurrenceAt == y.occurrenceAt)
    || Eq(x.runId, y.runId).Selects()
    || (x.schedule == y.schedule && x.status == "PENDING" && y.status == "PENDING")
  }

  predicate Valid35(t: Schedules) {
    t.configuration == map[] && t.protocol == map[] && t.occurrences == map[]
  }

  /** The CHECKs, the foreign key and the three unique keys; NULL run ids never clash. */
  predicate Valid36(t: Schedules) {
    && t.configuration.Keys == t.schedules.Keys && t.protocol.Keys == t.schedules.Keys
    && (forall s | s in t.configuration :: Ge(Some(t.configuration[s]), Some(1)).CheckPasses())
    && (forall s | s in t.protocol :: In(Some(t.protocol[s]), {0, 1}).CheckPasses())
    && (forall o | o in t.occurrences ::
          OccurrenceAccepted(t.occurrences[o]) && t.occurrences[o].schedule in t.schedules)
    && (forall a, b {:trigger SameOccurrence(t, a, b)}
          | a in t.occurrences && b in t.occurrences && SameOccurrence(t, a, b) :: a == b)
  }

  /** The schema of 0036: each schedule has at most one pending occurrence, one per time, and runs are not shared. */
  lemma OccurrenceSchemaExact(t: Schedules)
    ensures Valid36(t)
       <==> && t.configuration.Keys == t.schedules.Keys && t.protocol.Keys == t.schedules.Keys
            && (forall s | s in t.schedules :: t.configuration[s] >= 1 && t.protocol[s] in [0, 1])
            && (forall o | o in t.occurrences ::
                  OccurrenceAccepted(t.occurrences[o]) && t.occurrences[o].schedule in t.schedules)
            && forall a, b | a in t.occurrences && b in t.occurrences && a != b ::
                 && (t.occurrences[a].runId != t.occurrences[b].runId || t.occurrences[a].runId.None?)
                 && (t.occurrences[a].schedule == t.occurrences[b].schedule ==>
                       t.occurrences[a].occurrenceAt != t.occurrences[b].occurrenceAt
                       && (t.occurrences[a].status != "PENDING" || t.occurrences[b].status != "PENDING"))
  {
    OccurrencesDiffer(t);
    if t.configuration.Keys == t.schedules.Keys && t.protocol.Keys == t.schedules.Keys {
      ColumnsInRange(t);
    }
  }

  lemma ColumnsInRange(t: Schedules)
    requires t.configuration.Keys == t.schedules.Keys && t.protocol.Keys == t.schedules.Keys
    ensures && (forall s | s in t.configuration :: Ge(Some(t.configuration[s]), Some(1)).CheckPasses())
            && (forall s | s in t.protocol :: In(Some(t.protocol[s]), {0, 1}).CheckPasses())
       <==> forall s | s in t.schedules :: t.configuration[s] >= 1 && t.protocol[s] in [0, 1]
  {
    assert forall s :: (s in t.schedules <==> s in t.configuration) && (s in t.schedules <==> s in t.protocol);
  }

  lemma SameOccurrenceExact(t: Schedules, a: Id, b: Id)
    requires a in t.occurrences && b in t.occurrences
    ensures !SameOccurrence(t, a, b)
       <==> && (t.occurrences[a].runId != t.occurrences[b].runId || t.occurrences[a].runId.None?)
            && (t.occurrences[a].schedule == t.occurrences[b].schedule ==>
                  t.occurrences[a].occurrenceAt != t.occurrences[b].occurrenceAt
                  && (t.occurrences[a].status != "PENDING" || t.occurrences[b].status != "PENDING"))
  {
  }

  lemma OccurrencesDiffer(t: Schedules)
    ensures (forall a, b {:trigger SameOccurrence(t, a, b)}
               | a in t.occurrences && b in t.occurrences && SameOccurrence(t, a, b) :: a == b)
       <==> forall a, b | a in t.occurrences && b in t.occurrences && a != b ::
              && (t.occurrences[a].runId != t.occurrences[b].runId || t.occurrences[a].runId.None?)
              && (t.occurrences[a].schedule == t.occurrences[b].schedule ==>
                    t.occurrences[a].occurrenceAt != t.occurrences[b].occurrenceAt
                    && (t.occurrences[a].status != "PENDING" || t.occurrences[b].status != "PENDING"))
  {
    forall a, b | a in t.occurrences && b in t.occurrences {
      SameOccurrenceExact(t, a, b);
    }
  }

  function Upgrade36(t: Schedules): Schedules {
    t.(configuration := map s | s in t.schedules :: 1, protocol := map s | s in t.schedules :: 0,
       occurrences := map[])
  }

  function Downgrade36(t: Schedules): Result<Schedules> {
    if t.occurrences != map[]
       || (exists s :: s in t.protocol && s in t.configuration && Eq(Some(t.protocol[s]), Some(1))
             .Or(Ne(Some(t.configuration[s]), Some(1))).Selects())
    then Refused
    else Ok(t.(configuration := map[], protocol := map[], occurrences := map[]))
  }

  class ScheduleTables {
    var schedules: map<Id, string>
    var configuration: map<Id, int>
    var protocol: map<Id, int>
    var occurrences: map<Id, Occurrence>

    ghost function Rows(): Schedules
      reads this
    {
      Schedules(schedules, configuration, protocol, occurrences)
    }

    method Upgrade0036()
      requires Valid35(Rows())
      modifies this
      ensures Rows() == Upgrade36(old(Rows())) && Valid36(Rows())
    {
      configuration := map s | s in schedules :: 1;
      protocol := map s | s in schedules :: 0;
      occurrences := map[];
    }

    method Downgrade0036() returns (ok: bool)
      requires Valid36(Rows())
      modifies this
      ensures ok == Downgrade36(old(Rows())).Ok?
      ensures Rows() == if ok then Downgrade36(old(Rows())).value else old(Rows())
      ensures ok ==> Valid35(Rows()) && Upgrade36(Rows()) == old(Rows())
    {
      OccurrencesLossless(Rows());
      if occurrences != map[]
        || exists s :: s in schedules && (protocol[s] == 1 || configuration[s] != 1)
      {
        return false;
      }
      occurrences := map[];
      protocol := map[];
      configuration := map[];
      return true;
    }
  }

  /** Guard and CHECK together: what the downgrade drops, the upgrade puts back exactly. */
  lemma OccurrencesLossless(t: Schedules)
    requires Valid36(t)
    ensures Downgrade36(t).Ok? <==> exists before :: Valid35(before) && Upgrade36(before) == t
    ensures Downgrade36(t).Ok? ==> Valid35(Downgrade36(t).value) && Upgrade36(Downgrade36(t).value) == t
  {
    if Downgrade36(t).Ok? {
      var again := Upgrade36(Downgrade36(t).value);
      forall s | s in t.schedules ensures t.protocol[s] == 0 && t.configuration[s] == 1 {
      }
      assert again.configuration == t.configuration && again.protocol == t.protocol;
    }
  }

  lemma OccurrencesReversible(t: Schedules)
    requires Valid35(t)
    ensures Valid36(Upgrade36(t)) && Downgrade36(Upgrade36(t)) == Ok(t)
  {
  }
}
