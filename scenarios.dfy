/** Clients of the services: runs of the lifecycle that use only the
    contracts above, checking what a caller can rely on. */
module Scenarios {
  import opened Common
  import opened Dates
  import opened Schemas
  import opened Documents
  import opened Retention

  function HrContract(): CreateDocumentDto {
    CreateDocumentDto(None, Taxonomy("HR", "Contracts", "PDF"), Acl(Some([]), Some([]), Some([]), Some([])))
  }

  /** Created at version 1, versioned twice: version 3, and a history of three
      entries of which only the last is current. */
  method VersioningScenario(id: DocId, now: Date)
    requires IsValidObjectId(id)
  {
    var db := new Database();
    var service := new DocumentsService(db);
    var created := service.Create(HrContract(), "t1", id, now);
    assert created.Ok? && created.value.currentVersion == 1;
    var second := service.CreateVersion(id, CreateVersionDto(None));
    var third := service.CreateVersion(id, CreateVersionDto(Some("signatures fixed")));
    assert third == Ok(VersionReceipt(id, 3, Some("signatures fixed")));
    var history := service.GetDocumentVersions(id);
    assert history.Ok?;
    HistoryShape(history.value, id, 3);
    assert |history.value| == 3;
    assert history.value[0].status == "ARCHIVED" && history.value[1].status == "ARCHIVED";
    assert history.value[2].status == "CURRENT";
    var future := service.GetDownloadUrl(id, Some(4), Some("t1"));
    assert future == Err(BadRequest);
    var current := service.GetDownloadUrl(id, None, Some("t1"));
    assert current.Ok? && current.value.fileName == FileName(id, 3);
  }

  /** A HARD retention of five years, swept once it has passed: the document is
      gone and the sweep audited its disposal. */
  method HardExpiryScenario(id: DocId, now: Date, later: Date)
    requires IsValidObjectId(id) && ValidDate(now)
    requires Before(AddYears(now, 5), later)
  {
    var db := new Database();
    var service := new DocumentsService(db);
    var sweeper := new RetentionTaskService(db);
    var created := service.Create(HrContract(), "t1", id, now);
    var attached := service.UpdateRetention(id, UpdateRetentionDto(Some("RET-1"), 5, Some("HARD")), now);
    assert attached.Ok? && attached.value.Some?;
    var doc := db.docs[id];
    assert Selected(db.docs, later) == {id};
    var order := sweeper.HandleRetentionCleanup(later, later, {}, {});
    assert order == [id];
    assert SweepAudit(order, map[id := doc], {}, {}, later)
           == [DisposalEntry(id, doc, later)];
    assert db.audit[0].action == HardAction && db.audit[0].actorId == SweepActor;
    var lookup := service.FindOne(id);
    assert lookup == Err(NotFound);
  }

  /** A SOFT retention swept after it passed: the document can still be read
      by id, now with `deletedAt`, and the listing no longer shows it. */
  method SoftExpiryScenario(id: DocId, now: Date, later: Date)
    requires IsValidObjectId(id) && ValidDate(now)
    requires Before(AddYears(now, 5), later)
  {
    var db := new Database();
    var service := new DocumentsService(db);
    var sweeper := new RetentionTaskService(db);
    var created := service.Create(HrContract(), "t1", id, now);
    var attached := service.UpdateRetention(id, UpdateRetentionDto(Some("RET-1"), 5, Some("SOFT")), now);
    assert Selected(db.docs, later) == {id};
    var order := sweeper.HandleRetentionCleanup(later, later, {}, {});
    var lookup := service.FindOne(id);
    assert lookup.Ok? && lookup.value.deletedAt == Some(later);
    assert Matching(db.docs, None) == {};
    var listing := service.FindAll(None, 1, 10);
    assert listing.Ok? && listing.value.meta.total == 0 && listing.value.data == [];
  }

  /** A document under a five-year retention cannot be deleted the moment it
      was attached, and can be once the deadline has passed. */
  method RemoveDuringRetentionScenario(id: DocId, now: Date, later: Date)
    requires IsValidObjectId(id) && ValidDate(now)
    requires !Before(later, AddYears(now, 5))
  {
    var db := new Database();
    var service := new DocumentsService(db);
    var created := service.Create(HrContract(), "t1", id, now);
    var attached := service.UpdateRetention(id, UpdateRetentionDto(Some("RET-1"), 5, Some("SOFT")), now);
    var refused := service.Remove(id, now);
    assert refused == Err(BadRequest) && id in db.docs;
    var removed := service.Remove(id, later);
    assert removed.Ok? && id !in db.docs;
  }

  /** A caller of tenant t2 is refused the export of a document of tenant t1,
      which a caller of t1 obtains. */
  method CrossTenantDownloadScenario(id: DocId, now: Date)
    requires IsValidObjectId(id)
  {
    var db := new Database();
    var service := new DocumentsService(db);
    var created := service.Create(HrContract(), "t1", id, now);
    var foreign := service.GetDownloadUrl(id, None, Some("t2"));
    assert foreign == Err(Forbidden);
    var own := service.GetDownloadUrl(id, None, Some("t1"));
    assert own.Ok?;
  }
}
