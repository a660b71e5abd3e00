/** The interpretation requests of migration 0044 and the client parser of a launch response. */
module InterpretationLedger {
  import opened Identity
  import opened Sql
  import opened Text
  import opened Wrappers

  datatype Row = Row(id: Id, source: Id, executionKey: string, inputChecksum: string, status: string,
                     ownerHash: Option<string>, claimedAt: Option<int>, finishedAt: Option<int>,
                     interpretation: Option<Id>, errorCode: Option<string>)

  const STATUSES := {"QUEUED", "RUNNING", "UNKNOWN", "SUCCEEDED", "FAILED", "REVOKED"}

  function HashCheck(r: Row): Truth {
    MatchesDigest(Some(r.inputChecksum), SHA).And(MatchesDigest(Some(r.executionKey), SHA))
  }

  function OwnerCheck(r: Row): Truth {
    IsNull(r.ownerHash).And(IsNull(r.claimedAt)).Or(
      NotNull(r.ownerHash).And(MatchesDigest(r.ownerHash, SHA)).And(NotNull(r.claimedAt)))
  }

  function TerminalCheck(r: Row): Truth {
    Eq(Some(r.status), Some("QUEUED")).And(IsNull(r.ownerHash)).And(IsNull(r.finishedAt))
      .And(IsNull(r.interpretation)).And(IsNull(r.errorCode)).Or(
    In(Some(r.status), {"RUNNING", "UNKNOWN"}).And(NotNull(r.ownerHash)).And(IsNull(r.finishedAt))
      .And(IsNull(r.interpretation)).And(IsNull(r.errorCode))).Or(
    Eq(Some(r.status), Some("SUCCEEDED")).And(NotNull(r.finishedAt)).And(NotNull(r.interpretation))
      .And(IsNull(r.errorCode))).Or(
    In(Some(r.status), {"FAILED", "REVOKED"}).And(NotNull(r.finishedAt)).And(NotNull(r.errorCode)))
  }

  predicate Accepted(r: Row) {
    && In(Some(r.status), STATUSES).CheckPasses() && HashCheck(r).CheckPasses()
    && OwnerCheck(r).CheckPasses() && TerminalCheck(r).CheckPasses()
  }

  predicate Intended(r: Row) {
    && IsDigest(r.inputChecksum, SHA) && IsDigest(r.executionKey, SHA)
    && (r.ownerHash.Some? <==> r.claimedAt.Some?)
    && (r.ownerHash.Some? ==> IsDigest(r.ownerHash.value, SHA))
    && if r.status in {"SUCCEEDED", "FAILED", "REVOKED"} then
         r.finishedAt.Some? && (r.errorCode.Some? <==> r.status != "SUCCEEDED")
         && (r.status == "SUCCEEDED" ==> r.interpretation.Some?)
       else
         r.status in {"QUEUED", "RUNNING", "UNKNOWN"} && (r.ownerHash.Some? <==> r.status != "QUEUED")
         && r.finishedAt.None? && r.interpretation.None? && r.errorCode.None?
  }

  lemma ChecksExact(r: Row)
    ensures Accepted(r) <==> Intended(r)
  {
  }

  datatype Launch = Launch(requestId: Id, sourceId: Id, status: string, executionKey: string,
                           interpretation: Option<Id>, errorCode: Option<string>)

  function Project(r: Row): Launch {
    Launch(r.id, r.source, r.status, r.executionKey, r.interpretation, r.errorCode)
  }

  /** An empty error code is as good as none to the client: `!value.error_code` is true of both. */
  function ParseLaunch(value: Launch): Result<Launch> {
    if value.requestId == NIL || value.sourceId == NIL || value.status !in STATUSES
       || !IsDigest(value.executionKey, SHA)
       || (value.interpretation.Some? && value.interpretation.value == NIL)
       || (value.status == "SUCCEEDED" && (value.interpretation.None? || value.errorCode.Some?))
       || (value.status in {"QUEUED", "RUNNING", "UNKNOWN"} && (value.interpretation.Some? || value.errorCode.Some?))
       || (value.status in {"FAILED", "REVOKED"} && (value.errorCode.None? || value.errorCode.value == ""))
    then Refused else Ok(value)
  }

  /** The client reads every stored request exactly when no id is nil and no error code is empty. */
  lemma StoredRequestsParse(r: Row)
    requires Accepted(r)
    ensures ParseLaunch(Project(r)).Ok? <==>
      r.id != NIL && r.source != NIL && r.interpretation != Some(NIL) && r.errorCode != Some("")
  {
    ChecksExact(r);
  }

  /** Conversely, every launch the client accepts is the projection of some row the CHECKs accept. */
  lemma ParsedLaunchesAreStorable(value: Launch)
    requires ParseLaunch(value).Ok?
    ensures exists r: Row :: Accepted(r) && Project(r) == value
  {
    var owned := value.status in {"RUNNING", "UNKNOWN"};
    var finished := value.status in {"SUCCEEDED", "FAILED", "REVOKED"};
    var r := Row(value.requestId, value.sourceId, value.executionKey, value.executionKey, value.status,
                 if owned then Some(value.executionKey) else None, if owned then Some(0) else None,
                 if finished then Some(0) else None, value.interpretation, value.errorCode);
    ChecksExact(r);
    assert Accepted(r) && Project(r) == value;
  }
}
