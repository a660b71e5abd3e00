/**
 Migration 0027 narrows two unique keys of agent_sessions to PRIMARY rows so that sub-agents can
 share an attempt, and its guarded downgrade widens them again.
 */
module SubagentSessions {
  import opened Identity
  import opened Wrappers
  import opened Sets
  import opened Sql

  /** Every column either schema constrains; `sdk` and `kind` are read as nullable throughout. */
  datatype Session = Session(run: Id, attempt: Id, sdk: Option<Id>, kind: Option<string>, mode: string, status: string)

  type Sessions = map<Id, Session>

  const PRIMARY := "PRIMARY"
  const SUBAGENT := "SUBAGENT"
  const BRANCH := "BRANCH"
  const ACTIVE := "ACTIVE"

  // ---- Constraints ------------------------------------------------------------------------

  predicate IsPrimary(s: Session) {
    Eq(s.kind, Some(PRIMARY)).Selects()
  }

  predicate SameAttempt(t: Sessions, a: Id, b: Id)
    requires a in t && b in t
  {
    t[a].attempt == t[b].attempt
  }

  predicate SameActiveRun(t: Sessions, a: Id, b: Id)
    requires a in t && b in t
  {
    t[a].status == ACTIVE && t[b].status == ACTIVE && t[a].run == t[b].run
  }

  /** NOT NULL columns, one session per attempt, one ACTIVE session per run. */
  predicate Valid26(t: Sessions) {
    && (forall i | i in t :: t[i].sdk.Some? && t[i].kind.Some?)
    && (forall a, b {:trigger SameAttempt(t, a, b)} | a in t && b in t && SameAttempt(t, a, b) :: a == b)
    && (forall a, b {:trigger SameActiveRun(t, a, b)} | a in t && b in t && SameActiveRun(t, a, b) :: a == b)
  }

  function KindCheck(s: Session): Truth {
    In(s.kind, {PRIMARY, SUBAGENT})
  }

  function SdkCheck(s: Session): Truth {
    NotNull(s.sdk).Or(Eq(s.kind, Some(SUBAGENT)))
  }

  function BranchCheck(s: Session): Truth {
    SameTruth(Eq(Some(s.mode), Some(BRANCH)), Eq(s.kind, Some(SUBAGENT)))
  }

  predicate ChecksPass(s: Session) {
    KindCheck(s).CheckPasses() && SdkCheck(s).CheckPasses() && BranchCheck(s).CheckPasses()
  }

  /** The same two keys over PRIMARY rows only, the three CHECKs, and a nullable sdk_session_id. */
  predicate Valid27(t: Sessions) {
    && (forall i | i in t :: t[i].kind.Some? && ChecksPass(t[i]))
    && (forall a, b {:trigger SameAttempt(t, a, b)}
          | a in t && b in t && IsPrimary(t[a]) && IsPrimary(t[b]) && SameAttempt(t, a, b) :: a == b)
    && (forall a, b {:trigger SameActiveRun(t, a, b)}
          | a in t && b in t && IsPrimary(t[a]) && IsPrimary(t[b]) && SameActiveRun(t, a, b) :: a == b)
  }

  /** A row is a primary session that the SDK knows, or a branch of a sub-agent. */
  lemma SessionRowExact(s: Session)
    ensures s.kind.Some? && ChecksPass(s)
       <==> || (s.kind == Some("PRIMARY") && s.mode != "BRANCH" && s.sdk.Some?)
            || (s.kind == Some("SUBAGENT") && s.mode == "BRANCH")
  {
  }

  lemma PrimaryKeysExact(t: Sessions)
    ensures && (forall a, b {:trigger SameAttempt(t, a, b)}
                  | a in t && b in t && IsPrimary(t[a]) && IsPrimary(t[b]) && SameAttempt(t, a, b) :: a == b)
            && (forall a, b {:trigger SameActiveRun(t, a, b)}
                  | a in t && b in t && IsPrimary(t[a]) && IsPrimary(t[b]) && SameActiveRun(t, a, b) :: a == b)
       <==> forall a, b | a in t && b in t && a != b
                          && t[a].kind == Some("PRIMARY") && t[b].kind == Some("PRIMARY") ::
              && t[a].attempt != t[b].attempt
              && (t[a].run == t[b].run ==> t[a].status != "ACTIVE" || t[b].status != "ACTIVE")
  {
    forall a, b | a in t && b in t
      ensures SameAttempt(t, a, b) <==> t[a].attempt == t[b].attempt
      ensures SameActiveRun(t, a, b) <==> t[a].status == "ACTIVE" && t[b].status == "ACTIVE" && t[a].run == t[b].run
    {
    }
  }

  /** The schema of 0027: rows of two kinds, one primary session per attempt and one active one per run. */
  lemma SessionSchemaExact(t: Sessions)
    ensures Valid27(t)
       <==> && (forall i | i in t ::
                  || (t[i].kind == Some("PRIMARY") && t[i].mode != "BRANCH" && t[i].sdk.Some?)
                  || (t[i].kind == Some("SUBAGENT") && t[i].mode == "BRANCH"))
            && forall a, b | a in t && b in t && a != b
                             && t[a].kind == Some("PRIMARY") && t[b].kind == Some("PRIMARY") ::
                 && t[a].attempt != t[b].attempt
                 && (t[a].run == t[b].run ==> t[a].status != "ACTIVE" || t[b].status != "ACTIVE")
  {
    forall i | i in t {
      SessionRowExact(t[i]);
    }
    PrimaryKeysExact(t);
  }

  // ---- The migration ----------------------------------------------------------------------

  predicate IncompatibleRow(s: Session) {
    IsNull(s.sdk).Or(IsDistinctFrom(s.kind, Some(PRIMARY))).Or(Eq(Some(s.mode), Some(BRANCH))).Selects()
  }

  function AttemptGroup(t: Sessions, attempt: Id): set<Id> {
    set i | i in t && t[i].attempt == attempt
  }

  function ActiveGroup(t: Sessions, run: Id): set<Id> {
    set i | i in t && t[i].status == ACTIVE && t[i].run == run
  }

  /** The five conditions under which the audit cannot be read by 0026 code. */
  predicate Incompatible(t: Sessions) {
    || (exists i :: i in t && IncompatibleRow(t[i]))
    || (exists i :: i in t && |AttemptGroup(t, t[i].attempt)| > 1)
    || (exists i :: i in t && t[i].status == ACTIVE && |ActiveGroup(t, t[i].run)| > 1)
  }

  /** ADD CONSTRAINT checks every existing row; the narrower keys cannot fail. */
  function Upgrade(t: Sessions): Result<Sessions> {
    if exists i :: i in t && !ChecksPass(t[i]) then Refused else Ok(t)
  }

  function Downgrade(t: Sessions): Result<Sessions> {
    if Incompatible(t) then Refused else Ok(t)
  }

  /** The constraints on agent_sessions that the migration swaps. */
  datatype Schema = V26 | V27

  class AgentSessions {
    var rows: Sessions
    var schema: Schema

    predicate Valid()
      reads this
    {
      if schema == V26 then Valid26(rows) else Valid27(rows)
    }

    constructor (rows: Sessions)
      requires Valid26(rows)
      ensures this.rows == rows && schema == V26 && Valid()
    {
      this.rows, schema := rows, V26;
    }

    method Upgrade0027() returns (ok: bool)
      requires Valid() && schema == V26
      modifies this`schema
      ensures ok == Upgrade(rows).Ok? && schema == (if ok then V27 else V26)
      ensures Valid()
    {
      if exists i :: i in rows && !ChecksPass(rows[i]) { return false; }
      NarrowerKeys(rows);
      schema := V27;
      return true;
    }

    /** No row is touched either way: what the guard lets through already meets the old schema. */
    method Downgrade0027() returns (ok: bool)
      requires Valid() && schema == V27
      modifies this`schema
      ensures ok == Downgrade(rows).Ok? && schema == (if ok then V26 else V27)
      ensures Valid()
    {
      if Incompatible(rows) { return false; }
      CompatibleIsOld(rows);
      schema := V26;
      return true;
    }
  }

  // ---- Theorems ---------------------------------------------------------------------------

  lemma NarrowerKeys(t: Sessions)
    requires Valid26(t) && forall i | i in t :: ChecksPass(t[i])
    ensures Valid27(t)
  {
  }

  /**
   The guard alone is enough: any table it lets through, whatever constraints it was kept under,
   meets the 0026 constraints as it stands.
   */
  lemma CompatibleIsOld(t: Sessions)
    requires !Incompatible(t)
    ensures Valid26(t)
  {
    forall a, b | a in t && b in t && SameAttempt(t, a, b) ensures a == b {
      AtMostOneValue(AttemptGroup(t, t[a].attempt));
      assert a in AttemptGroup(t, t[a].attempt) && b in AttemptGroup(t, t[a].attempt);
    }
    forall a, b | a in t && b in t && SameActiveRun(t, a, b) ensures a == b {
      AtMostOneValue(ActiveGroup(t, t[a].run));
      assert a in ActiveGroup(t, t[a].run) && b in ActiveGroup(t, t[a].run);
    }
    forall i | i in t ensures t[i].sdk.Some? && t[i].kind.Some? {
      assert !IncompatibleRow(t[i]);
    }
  }

  /** Under 0027's own constraints, the five conditions come down to one: a sub-agent row exists. */
  lemma GuardMeansSubagent(t: Sessions)
    requires Valid27(t)
    ensures Incompatible(t) <==> exists i :: i in t && t[i].kind == Some("SUBAGENT")
  {
    if i :| i in t && t[i].kind == Some(SUBAGENT) {
      assert IncompatibleRow(t[i]);
    } else {
      forall i | i in t ensures !IncompatibleRow(t[i]) && IsPrimary(t[i]) {
      }
      forall i | i in t ensures |AttemptGroup(t, t[i].attempt)| <= 1 {
        forall a, b | a in AttemptGroup(t, t[i].attempt) && b in AttemptGroup(t, t[i].attempt) ensures a == b {
          assert SameAttempt(t, a, b);
        }
        AtMostOneValue(AttemptGroup(t, t[i].attempt));
      }
      forall i | i in t && t[i].status == ACTIVE ensures |ActiveGroup(t, t[i].run)| <= 1 {
        forall a, b | a in ActiveGroup(t, t[i].run) && b in ActiveGroup(t, t[i].run) ensures a == b {
          assert SameActiveRun(t, a, b);
        }
        AtMostOneValue(ActiveGroup(t, t[i].run));
      }
    }
  }

  /** Down and up again gives the same table under the same constraints. */
  lemma DownAndUp(t: Sessions)
    requires Valid27(t) && Downgrade(t).Ok?
    ensures Valid26(Downgrade(t).value) && Upgrade(Downgrade(t).value) == Ok(t)
  {
    CompatibleIsOld(t);
  }

  /** From 0026: the upgrade accepts exactly tables of well-labelled rows, and can be undone unless one is a branch. */
  lemma UpAndDown(t: Sessions)
    requires Valid26(t)
    ensures Upgrade(t).Ok? <==> forall i | i in t ::
      || (t[i].kind == Some("PRIMARY") && t[i].mode != "BRANCH")
      || (t[i].kind == Some("SUBAGENT") && t[i].mode == "BRANCH")
    ensures Upgrade(t).Ok? ==> Valid27(t)
    ensures Upgrade(t).Ok? ==> (Downgrade(t) == Ok(t) <==> forall i | i in t :: t[i].mode != "BRANCH")
  {
    if Upgrade(t).Ok? {
      NarrowerKeys(t);
      GuardMeansSubagent(t);
    }
  }
}
