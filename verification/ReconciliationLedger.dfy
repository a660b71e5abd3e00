/**
 The request ledger of migration 0047 and the client parser that reads its public projection.
 Timestamps are microseconds, the resolution both sides compare at.
 */
module ReconciliationLedger {
  import opened Identity
  import opened Sql
  import opened Text
  import opened Wrappers

  /** The columns the owner, state, status and kind CHECKs read. */
  datatype Row = Row(id: Id, project: Id, run: Id, effect: Id, kind: string, status: string,
                     ownerHash: Option<string>, claimedAt: Option<int>, leaseExpiresAt: Option<int>,
                     createdAt: int, finishedAt: Option<int>, observation: Option<string>,
                     observedAt: Option<int>, receipt: Option<string>, errorCode: Option<string>)

  const DATABASE := "DATABASE_TRANSACTION"
  const DOCUMENT := "DOCUMENT_OBJECT"
  const STATUSES := {"QUEUED", "RUNNING", "SUCCEEDED", "FAILED", "REVOKED"}

  // ---- The CHECK constraints --------------------------------------------------------------

  function OwnerCheck(r: Row): Truth {
    IsNull(r.ownerHash).And(IsNull(r.claimedAt)).And(IsNull(r.leaseExpiresAt)).Or(
      NotNull(r.ownerHash).And(MatchesDigest(r.ownerHash, ""))
        .And(NotNull(r.claimedAt)).And(Ge(r.claimedAt, Some(r.createdAt)))
        .And(NotNull(r.leaseExpiresAt)).And(Gt(r.leaseExpiresAt, r.claimedAt)))
  }

  /** Nothing has been observed or settled yet. */
  function Unfinished(r: Row): Truth {
    IsNull(r.finishedAt).And(IsNull(r.observation)).And(IsNull(r.observedAt))
      .And(IsNull(r.receipt)).And(IsNull(r.errorCode))
  }

  function Succeeded(r: Row): Truth {
    Eq(Some(r.status), Some("SUCCEEDED")).And(NotNull(r.ownerHash)).And(NotNull(r.finishedAt))
      .And(Ge(r.finishedAt, r.observedAt)).And(Lt(r.finishedAt, r.leaseExpiresAt))
      .And(NotNull(r.observedAt)).And(Ge(r.observedAt, r.claimedAt)).And(IsNull(r.errorCode))
      .And(NotNull(r.observation))
      .And(Eq(r.observation, Some("CONFIRMED")).And(NotNull(r.receipt)).Or(
             In(r.observation, {"NOT_OBSERVED", "CONFLICT"}).And(IsNull(r.receipt))))
  }

  function Failed(r: Row): Truth {
    In(Some(r.status), {"FAILED", "REVOKED"}).And(NotNull(r.finishedAt)).And(Ge(r.finishedAt, Some(r.createdAt)))
      .And(IsNull(r.observation)).And(IsNull(r.observedAt)).And(IsNull(r.receipt)).And(NotNull(r.errorCode))
  }

  function StateCheck(r: Row): Truth {
    Eq(Some(r.status), Some("QUEUED")).And(IsNull(r.ownerHash)).And(Unfinished(r)).Or(
      Eq(Some(r.status), Some("RUNNING")).And(NotNull(r.ownerHash)).And(Unfinished(r))).Or(
      Succeeded(r)).Or(Failed(r))
  }

  predicate Accepted(r: Row) {
    && In(Some(r.status), STATUSES).CheckPasses()
    && In(Some(r.kind), {DATABASE, DOCUMENT}).CheckPasses()
    && OwnerCheck(r).CheckPasses()
    && StateCheck(r).CheckPasses()
  }

  // ---- What they were meant to admit ------------------------------------------------------

  predicate Unowned(r: Row) {
    r.ownerHash.None? && r.claimedAt.None? && r.leaseExpiresAt.None?
  }

  predicate Owned(r: Row) {
    && r.ownerHash.Some? && IsDigest(r.ownerHash.value, "")
    && r.claimedAt.Some? && r.leaseExpiresAt.Some?
    && r.createdAt <= r.claimedAt.value < r.leaseExpiresAt.value
  }

  predicate Blank(r: Row) {
    r.finishedAt.None? && r.observation.None? && r.observedAt.None? && r.receipt.None? && r.errorCode.None?
  }

  /** The two-valued life of a request: waiting, claimed, observed within its lease, or given up. */
  predicate Intended(r: Row) {
    || (r.status == "QUEUED" && Unowned(r) && Blank(r))
    || (r.status == "RUNNING" && Owned(r) && Blank(r))
    || (&& r.status == "SUCCEEDED" && Owned(r) && r.observedAt.Some? && r.finishedAt.Some?
        && r.claimedAt.value <= r.observedAt.value <= r.finishedAt.value < r.leaseExpiresAt.value
        && r.errorCode.None?
        && (if r.receipt.Some? then r.observation == Some("CONFIRMED")
            else r.observation in {Some("NOT_OBSERVED"), Some("CONFLICT")}))
    || (&& r.status in {"FAILED", "REVOKED"} && (Unowned(r) || Owned(r))
        && r.finishedAt.Some? && r.createdAt <= r.finishedAt.value
        && r.observation.None? && r.observedAt.None? && r.receipt.None? && r.errorCode.Some?)
  }

  /** On rows with any mix of NULLs the CHECKs together admit exactly the intended rows. */
  lemma ChecksExact(r: Row)
    ensures Accepted(r) <==> Intended(r) && r.kind in {"DATABASE_TRANSACTION", "DOCUMENT_OBJECT"}
  {
  }

  /** The state CHECK alone does not: a missing lease makes its comparison unknown, and so passes. */
  lemma StateCheckNeedsOwnerCheck(hash: string)
    requires IsDigest(hash, "")
    ensures exists r: Row :: r.ownerHash == Some(hash) && StateCheck(r).CheckPasses() && r.leaseExpiresAt.None?
              && r.status == "SUCCEEDED" && !OwnerCheck(r).CheckPasses()
  {
    var r := Row(1, 1, 1, 1, DATABASE, "SUCCEEDED", Some(hash), Some(1), None, 0, Some(3), Some("CONFIRMED"),
                 Some(2), Some("{}"), None);
    assert Lt(r.finishedAt, r.leaseExpiresAt) == Unknown;
    assert StateCheck(r) == Unknown;
  }

  // ---- The client -------------------------------------------------------------------------

  datatype Public = Public(requestId: Id, projectId: Id, runId: Id, effectId: Id, kind: string, status: string,
                           createdAt: int, finishedAt: Option<int>, observation: Option<string>,
                           observedAt: Option<int>, errorCode: Option<string>)

  datatype Scope = Scope(projectId: Id, runId: Id, effectId: Id)

  const CLIENT_KINDS := {DATABASE, DOCUMENT, "GIT_COMMIT", "MCP_OPERATION"}
  const PUBLIC_ERRORS := {"lookup_unavailable", "lookup_interrupted", "authorization_revoked", "target_changed"}

  /** The eleven public fields; owner, lease, checksums and receipt stay on the server. */
  function Project(r: Row): Public {
    Public(r.id, r.project, r.run, r.effect, r.kind, r.status, r.createdAt, r.finishedAt, r.observation,
           r.observedAt, r.errorCode)
  }

  function ParseReconciliation(value: Public, scope: Scope, requestId: Option<Id>): Result<Public> {
    if value.requestId == NIL || value.projectId == NIL || value.runId == NIL || value.effectId == NIL
       || value.projectId != scope.projectId || value.runId != scope.runId || value.effectId != scope.effectId
       || (requestId.Some? && value.requestId != requestId.value)
       || value.kind !in CLIENT_KINDS
    then Refused
    else
      var active := value.status == "QUEUED" || value.status == "RUNNING";
      var succeeded := value.status == "SUCCEEDED";
      var failed := value.status == "FAILED" || value.status == "REVOKED";
      if (!active && !succeeded && !failed)
         || (active && (value.finishedAt.Some? || value.observation.Some? || value.observedAt.Some?
                        || value.errorCode.Some?))
         || (succeeded && (value.finishedAt.None? || value.observedAt.None? || value.errorCode.Some?
                           || value.observation !in {Some("CONFIRMED"), Some("NOT_OBSERVED"), Some("CONFLICT")}))
         || (failed && (value.finishedAt.None? || value.observedAt.Some? || value.observation.Some?
                        || value.errorCode.None? || value.errorCode.value !in PUBLIC_ERRORS))
      then Refused
      else if (value.finishedAt.Some? && value.finishedAt.value < value.createdAt)
         || (value.observedAt.Some? && (value.observedAt.value < value.createdAt
               || (value.finishedAt.Some? && value.observedAt.value > value.finishedAt.value)))
      then Refused
      else Ok(value)
  }

  /**
   The client reads every stored request in its scope, its time order included, exactly when no id
   is nil and a failure carries one of the four public codes.
   */
  lemma StoredRequestsParse(r: Row, scope: Scope, requestId: Option<Id>)
    requires Accepted(r)
    ensures ParseReconciliation(Project(r), scope, requestId).Ok? <==>
      && NIL !in {r.id, r.project, r.run, r.effect}
      && scope == Scope(r.project, r.run, r.effect) && (requestId.Some? ==> requestId.value == r.id)
      && (|| r.errorCode.None?
          || r.errorCode.value
             in ["lookup_unavailable", "lookup_interrupted", "authorization_revoked", "target_changed"])
  {
    ChecksExact(r);
  }

  /**
   Conversely, whatever the client accepts about a stored kind is the projection of some row the
   ledger could hold: the parser is no looser than the CHECKs.
   */
  lemma ParsedRecordsAreStorable(value: Public, scope: Scope, hash: string)
    requires ParseReconciliation(value, scope, None).Ok? && value.kind in {DATABASE, DOCUMENT}
    requires IsDigest(hash, "")
    ensures exists r: Row :: Accepted(r) && Project(r) == value
  {
    var receipt := if value.observation == Some("CONFIRMED") then Some("{}") else None;
    var owned := value.status == "RUNNING" || value.status == "SUCCEEDED";
    var lease := if value.finishedAt.Some? then value.finishedAt.value + 1 else value.createdAt + 1;
    var r := Row(value.requestId, value.projectId, value.runId, value.effectId, value.kind, value.status,
                 if owned then Some(hash) else None, if owned then Some(value.createdAt) else None,
                 if owned then Some(lease) else None, value.createdAt, value.finishedAt, value.observation,
                 value.observedAt, receipt, value.errorCode);
    assert Intended(r);
    ChecksExact(r);
    assert Project(r) == value;
  }

  /** The client knows two kinds more than the ledger stores, and reads all four alike. */
  lemma KindsReadAlike(value: Public, scope: Scope, requestId: Option<Id>)
    ensures ParseReconciliation(value, scope, requestId).Ok?
       <==> && ParseReconciliation(value.(kind := "DATABASE_TRANSACTION"), scope, requestId).Ok?
            && value.kind in ["DATABASE_TRANSACTION", "DOCUMENT_OBJECT", "GIT_COMMIT", "MCP_OPERATION"]
  {
  }
}
