/** Migration 0045: documents that an effect produced, and the ledger of how each was sent. */
module EffectUploads {
  import opened Identity
  import opened Wrappers
  import opened Sql

  datatype Upload = Upload(documentId: Id, project: Id, state: string, putOwner: Option<Id>, etag: Option<string>,
                           version: Option<string>, createdAt: int, sentAt: Option<int>,
                           verifiedAt: Option<int>, publishedAt: Option<int>)

  const RESERVED := "RESERVED"
  const SENT := "SENT"
  const VERIFIED := "VERIFIED"
  const PUBLISHED := "PUBLISHED"

  function StateTimesCheck(u: Upload): Truth {
    Eq(Some(u.state), Some(RESERVED)).And(IsNull(u.sentAt)).And(IsNull(u.verifiedAt))
      .And(IsNull(u.publishedAt)).And(IsNull(u.putOwner)).Or(
    Eq(Some(u.state), Some(SENT)).And(NotNull(u.sentAt)).And(Ge(u.sentAt, Some(u.createdAt)))
      .And(IsNull(u.verifiedAt)).And(IsNull(u.publishedAt)).And(NotNull(u.putOwner))).Or(
    Eq(Some(u.state), Some(VERIFIED)).And(NotNull(u.sentAt)).And(NotNull(u.verifiedAt))
      .And(Ge(u.sentAt, Some(u.createdAt))).And(Ge(u.verifiedAt, u.sentAt))
      .And(IsNull(u.publishedAt)).And(NotNull(u.putOwner))).Or(
    Eq(Some(u.state), Some(PUBLISHED)).And(NotNull(u.sentAt)).And(NotNull(u.verifiedAt))
      .And(NotNull(u.publishedAt)).And(Ge(u.sentAt, Some(u.createdAt))).And(Ge(u.verifiedAt, u.sentAt))
      .And(Ge(u.publishedAt, u.verifiedAt)).And(NotNull(u.putOwner)))
  }

  function ReceiptCheck(u: Upload): Truth {
    In(Some(u.state), {RESERVED, SENT}).And(IsNull(u.etag)).And(IsNull(u.version)).Or(
      In(Some(u.state), {VERIFIED, PUBLISHED}).And(NotNull(u.etag)).And(Ne(u.etag, Some(""))))
  }

  predicate Accepted(u: Upload) {
    StateTimesCheck(u).CheckPasses() && ReceiptCheck(u).CheckPasses()
  }

  const STATES := ["RESERVED", "SENT", "VERIFIED", "PUBLISHED"]

  function Stamps(u: Upload): seq<Option<int>> {
    [Some(u.createdAt), u.sentAt, u.verifiedAt, u.publishedAt]
  }

  /** The first `stage` stamps after creation are set, in order; the later ones are not. */
  predicate Reached(u: Upload, stage: nat)
    requires stage < 4
  {
    && (forall k | 0 <= k < 4 :: Stamps(u)[k].Some? <==> k <= stage)
    && (forall k | 0 < k <= stage :: Stamps(u)[k - 1].value <= Stamps(u)[k].value)
  }

  function StampCount(u: Upload): nat {
    (if u.sentAt.Some? then 1 else 0) + (if u.verifiedAt.Some? then 1 else 0) + (if u.publishedAt.Some? then 1 else 0)
  }

  /**
   On any mix of NULLs: the state is the number of stamps, the stamps form the chain created, sent,
   verified, published, an owner exists from the first send on and a receipt from verification on.
   */
  lemma StateIsStampCount(u: Upload)
    ensures Accepted(u) <==>
      && Reached(u, StampCount(u)) && u.state == STATES[StampCount(u)]
      && (u.putOwner.Some? <==> StampCount(u) >= 1)
      && (if StampCount(u) >= 2 then u.etag.Some? && u.etag.value != "" else u.etag.None? && u.version.None?)
  {
    var s := Stamps(u);
    assert s[0] == Some(u.createdAt) && s[1] == u.sentAt && s[2] == u.verifiedAt && s[3] == u.publishedAt;
    var n := StampCount(u);
    assert Reached(u, n) <==>
      && (u.sentAt.Some? <==> n >= 1) && (u.verifiedAt.Some? <==> n >= 2) && (u.publishedAt.Some? <==> n >= 3)
      && (n >= 1 ==> u.sentAt.Some? && u.createdAt <= u.sentAt.value)
      && (n >= 2 ==> u.verifiedAt.Some? && u.sentAt.value <= u.verifiedAt.value)
      && (n >= 3 ==> u.publishedAt.Some? && u.verifiedAt.value <= u.publishedAt.value);
  }

  // ---- The migration ----------------------------------------------------------------------

  /** Two nullable origins of a document: an upload intent (0038) or an effect upload (0045). */
  datatype Db = Db(documents: map<Id, Id>, intentOf: map<Id, Id>, uploadOf: map<Id, Id>, uploads: map<Id, Upload>)

  function SingleOriginCheck(t: Db, d: Id): Truth {
    IsNull(Cell(t.intentOf, d)).Or(IsNull(Cell(t.uploadOf, d)))
  }

  predicate Valid44(t: Db) {
    t.intentOf.Keys <= t.documents.Keys && t.uploadOf == map[] && t.uploads == map[]
  }

  /** MATCH SIMPLE: a NULL upload id satisfies the composite key, any other must find its exact row. */
  predicate Valid45(t: Db) {
    && t.intentOf.Keys <= t.documents.Keys && t.uploadOf.Keys <= t.documents.Keys
    && (forall u | u in t.uploads :: Accepted(t.uploads[u]))
    && (forall d | d in t.uploadOf :: t.uploadOf[d] in t.uploads
          && t.uploads[t.uploadOf[d]].documentId == d && t.uploads[t.uploadOf[d]].project == t.documents[d])
    && (forall d | d in t.documents :: SingleOriginCheck(t, d).CheckPasses())
  }

  /** The schema of 0045: uploads on the chain, one origin per document, and an origin that names its own upload. */
  lemma UploadSchemaExact(t: Db)
    ensures Valid45(t)
       <==> && (forall u | u in t.uploads :: Accepted(t.uploads[u]))
            && (forall d | d in t.intentOf :: d in t.documents && d !in t.uploadOf)
            && forall d | d in t.uploadOf ::
                 d in t.documents && t.uploadOf[d] in t.uploads && t.uploads[t.uploadOf[d]].documentId == d
                 && t.uploads[t.uploadOf[d]].project == t.documents[d]
  {
    OriginsExact(t);
  }

  lemma OriginsExact(t: Db)
    ensures t.intentOf.Keys <= t.documents.Keys
            && (forall d | d in t.documents :: SingleOriginCheck(t, d).CheckPasses())
       <==> forall d | d in t.intentOf :: d in t.documents && d !in t.uploadOf
  {
    assert t.intentOf.Keys <= t.documents.Keys <==> forall d | d in t.intentOf :: d in t.documents;
  }

  function Upgrade(t: Db): Db {
    t.(uploadOf := map[], uploads := map[])
  }

  function Downgrade(t: Db): Result<Db> {
    if t.uploads != map[] then Refused else Ok(t.(uploadOf := map[], uploads := map[]))
  }

  class UploadTables {
    var documents: map<Id, Id>
    var intentOf: map<Id, Id>
    var uploadOf: map<Id, Id>
    var uploads: map<Id, Upload>

    ghost function Rows(): Db
      reads this
    {
      Db(documents, intentOf, uploadOf, uploads)
    }

    method Upgrade0045()
      requires Valid44(Rows())
      modifies this`uploads, this`uploadOf
      ensures Rows() == Upgrade(old(Rows())) && Valid45(Rows())
    {
      uploads := map[];
      uploadOf := map[];
    }

    method Downgrade0045() returns (ok: bool)
      requires Valid45(Rows())
      modifies this`uploads, this`uploadOf
      ensures ok == Downgrade(old(Rows())).Ok?
      ensures Rows() == if ok then Downgrade(old(Rows())).value else old(Rows())
      ensures ok ==> Valid44(Rows()) && Upgrade(Rows()) == old(Rows())
    {
      UploadsLossless(Rows());
      if uploads != map[] { return false; }
      uploadOf := map[];
      uploads := map[];
      return true;
    }
  }

  /**
   The guard never looks at the dropped column of project_documents: a foreign key into an empty
   table leaves that column no value but NULL.
   */
  lemma UploadsLossless(t: Db)
    requires Valid45(t)
    ensures Downgrade(t).Ok? <==> exists before :: Valid44(before) && Upgrade(before) == t
    ensures Downgrade(t).Ok? ==> Valid44(Downgrade(t).value) && Upgrade(Downgrade(t).value) == t
  {
    if t.uploads == map[] {
      assert t.uploadOf.Keys == {};
      assert t.uploadOf == map[];
      assert Valid44(t) && Upgrade(t) == t;
    }
  }

  lemma UploadsReversible(t: Db)
    requires Valid44(t)
    ensures Valid45(Upgrade(t)) && Downgrade(Upgrade(t)) == Ok(t)
  {
  }

  /** Without the foreign key the same guard would drop a document's origin. */
  lemma UploadGuardNeedsForeignKey()
    ensures exists t: Db :: (forall d | d in t.documents :: SingleOriginCheck(t, d).CheckPasses())
              && t.uploadOf.Keys <= t.documents.Keys && Downgrade(t).Ok? && Upgrade(Downgrade(t).value) != t
  {
    var t := Db(map[1 := 7], map[], map[1 := 9], map[]);
    assert 1 in t.uploadOf && 1 !in Upgrade(t).uploadOf;
  }
}
