/** The document lifecycle service: create, list, read, version, export,
    re-permission, attach retention and delete documents, writing an audit
    entry for the individual reads and the ACL changes. */
module Documents {
  import opened Common
  import opened Dates
  import opened Numerals
  import opened Schemas

  /** The fixed actor of every audit entry the service writes. */
  const ServiceActor: string := "user_admin_test"
  /** The fixed author of every synthesised history entry. */
  const HistoryAuthor: string := "admin_test"
  const DownloadRoute: string := "http://localhost:3000/documents/download-file/"

  datatype CreateDocumentDto = CreateDocumentDto(processId: Option<string>, taxonomy: Taxonomy, acl: Acl)
  datatype CreateVersionDto = CreateVersionDto(comment: Option<string>)
  datatype UpdateRetentionDto = UpdateRetentionDto(policyId: Option<string>, retentionYear: int, mode: Option<string>)

  datatype VersionReceipt = VersionReceipt(documentId: string, newVersion: int, comment: Option<string>)
  datatype DownloadLink = DownloadLink(downloadUrl: string, fileName: string)
  datatype HistoryEntry = HistoryEntry(version: int, documentId: string, author: string, status: string)
  datatype PageMeta = PageMeta(total: nat, page: int, lastPage: int)
  datatype Listing = Listing(data: seq<Document>, meta: PageMeta)

  /** Both service invariants: positive version counters, and no undeclared paths. */
  predicate ServiceInvariant(docs: map<DocId, Document>) {
    VersionsPositive(docs) && NoUndeclaredPaths(docs)
  }

  // ---------------------------------------------------------------------
  // Listing: filter, order, page
  // ---------------------------------------------------------------------

  /** The listing's query: `deletedAt` unset, and, when a non-empty domain is
      given, the taxonomy domain contains it regardless of case. */
  predicate Listed(d: Document, domain: Option<string>) {
    d.deletedAt.None? && (Truthy(domain) ==> ContainsIgnoringCase(d.taxonomy.domain, domain.value))
  }

  function Matching(docs: map<DocId, Document>, domain: Option<string>): set<DocId> {
    set id | id in docs && Listed(docs[id], domain)
  }

  /** `sort({ createdAt: -1 })`: newest first, ties in any order. */
  predicate NewestFirst(docs: map<DocId, Document>, ids: seq<DocId>) {
    forall i, j :: 0 <= i < j < |ids| && ids[i] in docs && ids[j] in docs ==>
      NotAfter(docs[ids[j]].createdAt, docs[ids[i]].createdAt)
  }

  /** `ids` is an order in which the store may return every matching document. */
  predicate IsListing(docs: map<DocId, Document>, domain: Option<string>, ids: seq<DocId>) {
    && Distinct(ids)
    && (forall i :: 0 <= i < |ids| ==> ids[i] in Matching(docs, domain))
    && (forall id :: id in Matching(docs, domain) ==> id in ids)
    && NewestFirst(docs, ids)
  }

  /** `skip(n).limit(m)` on an ordered result; a negative limit returns at most
      its absolute value of documents. */
  function Window<T>(s: seq<T>, skip: nat, limit: int): (w: seq<T>)
    ensures |w| == Min(Abs(limit), Max(0, |s| - skip))
    ensures forall i :: 0 <= i < |w| ==> w[i] == s[skip + i]
  {
    s[Min(skip, |s|)..Min(skip + Abs(limit), |s|)]
  }

  function DocsAt(docs: map<DocId, Document>, ids: seq<DocId>): (ds: seq<Document>)
    requires forall i :: 0 <= i < |ids| ==> ids[i] in docs
    ensures |ds| == |ids|
    ensures forall i :: 0 <= i < |ids| ==> ds[i] == docs[ids[i]]
  {
    seq(|ids|, i requires 0 <= i < |ids| => docs[ids[i]])
  }

  function Skip(page: int, limit: int): int {
    (page - 1) * limit
  }

  /** `Math.ceil(a / b)`. */
  function CeilDiv(a: int, b: int): (q: int)
    requires b != 0
    ensures b > 0 ==> (q - 1) * b < a <= q * b
    ensures b < 0 ==> q * b <= a < (q - 1) * b
  {
    if b > 0 then
      var f := (-a) / b;
      assert -a == f * b + (-a) % b;
      -f
    else
      var f := a / (-b);
      assert a == f * (-b) + a % (-b);
      -f
  }

  /** The newest of a non-empty set of stored documents. */
  lemma {:induction false} NewestExists(docs: map<DocId, Document>, s: set<DocId>) returns (m: DocId)
    requires s != {} && s <= docs.Keys
    ensures m in s
    ensures forall id :: id in s ==> NotAfter(docs[id].createdAt, docs[m].createdAt)
    decreases s
  {
    var x :| x in s;
    if s == {x} {
      m := x;
    } else {
      var m' := NewestExists(docs, s - {x});
      m := if Before(docs[m'].createdAt, docs[x].createdAt) then x else m';
      forall id | id in s
        ensures NotAfter(docs[id].createdAt, docs[m].createdAt)
      {
        if id != x {
          BeforeIsStrictTotalOrder(docs[m'].createdAt, docs[x].createdAt, docs[id].createdAt);
          BeforeIsStrictTotalOrder(docs[x].createdAt, docs[m'].createdAt, docs[id].createdAt);
        }
      }
    }
  }

  /** Every set of stored documents can be listed newest first. */
  lemma {:induction false} NewestFirstOrderExists(docs: map<DocId, Document>, s: set<DocId>) returns (ids: seq<DocId>)
    requires s <= docs.Keys
    ensures Distinct(ids) && NewestFirst(docs, ids)
    ensures forall i :: 0 <= i < |ids| ==> ids[i] in s
    ensures forall id :: id in s ==> id in ids
    decreases s
  {
    if s == {} {
      ids := [];
    } else {
      var m := NewestExists(docs, s);
      var rest := NewestFirstOrderExists(docs, s - {m});
      ids := [m] + rest;
      assert forall i :: 1 <= i < |ids| ==> ids[i] == rest[i - 1];
    }
  }

  /** A sequence without repeats has as many elements as its set. */
  lemma {:induction false} DistinctCardinality(ids: seq<DocId>)
    requires Distinct(ids)
    ensures |set id | id in ids| == |ids|
  {
    if ids != [] {
      var tail := ids[1..];
      DistinctCardinality(tail);
      assert (set id | id in ids) == {ids[0]} + (set id | id in tail);
      assert ids[0] !in (set id | id in tail);
    }
  }

  /** A listing holds every match exactly once. */
  lemma ListingLength(docs: map<DocId, Document>, domain: Option<string>, ids: seq<DocId>)
    requires IsListing(docs, domain, ids)
    ensures |ids| == |Matching(docs, domain)|
  {
    DistinctCardinality(ids);
    assert (set id | id in ids) == Matching(docs, domain);
  }

  /** With a positive page size, page `page >= 1` holds documents exactly when
      it is not past the last page. */
  lemma PageNonEmptyIffNotPastLast(total: nat, page: int, limit: int)
    requires limit > 0 && page >= 1
    ensures Min(limit, Max(0, total - Skip(page, limit))) > 0 <==> page <= CeilDiv(total, limit)
  {
    var q := CeilDiv(total, limit);
    if page <= q {
      ScaleMonotone(page - 1, q - 1, limit);
    } else {
      ScaleMonotone(q, page - 1, limit);
    }
  }

  lemma ScaleMonotone(a: int, b: int, c: int)
    requires a <= b && c > 0
    ensures a * c <= b * c
  {
    assert b * c - a * c == (b - a) * c;
  }

  // ---------------------------------------------------------------------
  // Versions and downloads
  // ---------------------------------------------------------------------

  /** `(doc.currentVersion || 1) + 1`. */
  function NextVersion(current: int): int {
    OrElse(current, 1) + 1
  }

  /** The counter only moves forward, by one from any non-zero value. */
  lemma NextVersionIncreases(current: int)
    ensures NextVersion(current) > current
    ensures current != 0 ==> NextVersion(current) == current + 1
    ensures current == 0 ==> NextVersion(current) == 2
  {
  }

  /** `version || doc.currentVersion`: an absent or zero version means the current one. */
  function TargetVersion(version: Option<int>, current: int): int {
    if version.Some? then OrElse(version.value, current) else current
  }

  function FileName(id: string, version: int): string {
    "documento_" + id + "_v" + IntToDecimal(version) + ".txt"
  }

  /** Different versions of one document are exported under different names. */
  lemma FileNameDistinguishesVersions(id: string, a: int, b: int)
    requires FileName(id, a) == FileName(id, b)
    ensures a == b
  {
    var p := "documento_" + id + "_v";
    var sa, sb := IntToDecimal(a), IntToDecimal(b);
    assert FileName(id, a) == p + sa + ".txt";
    assert FileName(id, b) == p + sb + ".txt";
    assert |sa| == |sb|;
    assert sa == FileName(id, a)[|p|..|p| + |sa|];
    assert sb == FileName(id, b)[|p|..|p| + |sb|];
    IntToDecimalInjective(a, b);
  }

  /** The tenant check as written: the document's `tenantId` and the caller's
      tenant are both non-empty and differ. */
  predicate TenantMismatch(d: Document, tenantId: Option<string>) {
    Truthy(d.tenantId) && Truthy(tenantId) && d.tenantId.value != tenantId.value
  }

  /** The `count` synthesised history entries, numbered from 1, the last one current. */
  predicate IsHistory(h: seq<HistoryEntry>, id: string, count: int) {
    && |h| == Max(count, 0)
    && forall k :: 0 <= k < |h| ==>
         h[k] == HistoryEntry(k + 1, id, HistoryAuthor, if k + 1 == count then "CURRENT" else "ARCHIVED")
  }

  /** A history lists versions 1..n in order, and exactly its last entry is current. */
  lemma HistoryShape(h: seq<HistoryEntry>, id: string, count: int)
    requires IsHistory(h, id, count) && count >= 1
    ensures |h| == count && h[count - 1].status == "CURRENT"
    ensures forall k :: 0 <= k < |h| ==> h[k].version == k + 1
    ensures forall k :: 0 <= k < |h| ==> (h[k].status == "CURRENT" <==> k == count - 1)
  {
  }

  // ---------------------------------------------------------------------
  // ACL, retention and the delete guard
  // ---------------------------------------------------------------------

  /** `$set: { acl: dto }`: the whole list object becomes the request body, which
      has no `owners`. */
  function AclOf(dto: UpdateAclDto): (a: Acl)
    ensures a.owners.None?
  {
    Acl(None, dto.readers, dto.updaters, dto.roles)
  }

  /** The retention `updateRetention` stores when run at `now`. */
  function RetentionFor(dto: UpdateRetentionDto, now: Date): (r: Retention)
    requires ValidDate(now)
    ensures r.deleteAt.Some? && ValidDate(r.deleteAt.value)
    ensures dto.retentionYear > 0 ==> Before(now, r.deleteAt.value)
  {
    AddYearsMovesForward(now, dto.retentionYear);
    Retention(dto.policyId, Some(AddYears(now, dto.retentionYear)), dto.mode)
  }

  /** The delete guard as written: it reads `retentionPolicy.expiryDate`. */
  predicate RetentionLocked(d: Document, now: Date) {
    d.retentionPolicy.Some? && d.retentionPolicy.value.expiryDate.Some?
    && Before(now, d.retentionPolicy.value.expiryDate.value)
  }

  /** The guard the delete route evidently means: the document's own retention
      `deleteAt`, the date `updateRetention` writes, is still in the future. */
  predicate RetentionLockedIntended(d: Document, now: Date) {
    d.retention.Some? && d.retention.value.deleteAt.Some? && Before(now, d.retention.value.deleteAt.value)
  }

  /** As written, the guard never locks a document the service stored, not
      even right after a retention of a year or more was attached, when the
      intended guard locks it. */
  lemma RemoveIgnoresRetentionDeadline(d: Document, dto: UpdateRetentionDto, now: Date, later: Date)
    requires ValidDate(now) && d.retentionPolicy.None? && dto.retentionYear > 0
    ensures var attached := d.(retention := Some(RetentionFor(dto, now)));
            !RetentionLocked(attached, later) && RetentionLockedIntended(attached, now)
  {
  }

  /** With the intended guard, a retention of at least one year attached at
      `attachedAt` blocks deletion at every instant before its `deleteAt`, and
      releases it from then on. */
  lemma IntendedLockBlocksRemoval(d: Document, dto: UpdateRetentionDto, attachedAt: Date, now: Date)
    requires ValidDate(attachedAt) && dto.retentionYear > 0
    ensures var locked := d.(retention := Some(RetentionFor(dto, attachedAt)));
            && RetentionLockedIntended(locked, attachedAt)
            && (RetentionLockedIntended(locked, now) <==> Before(now, AddYears(attachedAt, dto.retentionYear)))
  {
  }

  /** As written, the tenant check never fires for a document the service
      stored: a caller of another tenant than the owner passes it. */
  lemma DownloadIgnoresTenant(d: Document, tenantId: Option<string>)
    requires d.tenantId.None? && Truthy(tenantId) && d.customerId != tenantId.value
    ensures !TenantMismatch(d, tenantId) && TenantMismatchIntended(d, tenantId)
  {
  }

  /** The tenant check evidently meant: compare with the owner `create` recorded. */
  predicate TenantMismatchIntended(d: Document, tenantId: Option<string>) {
    Truthy(tenantId) && d.customerId != tenantId.value
  }

  /** With the intended check, a caller with a tenant passes exactly on the
      documents of that tenant. */
  lemma IntendedTenantCheckIsolates(d: Document, tenantId: Option<string>)
    requires Truthy(tenantId)
    ensures !TenantMismatchIntended(d, tenantId) <==> d.customerId == tenantId.value
  {
  }

  class DocumentsService {
    const db: Database

    constructor (db: Database)
      ensures this.db == db
    {
      this.db := db;
    }

    /** Append one entry by the service's fixed actor. */
    method LogAction(docId: DocId, action: string, details: AuditDetails)
      modifies db
      ensures db.docs == old(db.docs)
      ensures db.audit == old(db.audit) + [AuditEntry(docId, action, ServiceActor, None, None, details)]
    {
      db.audit := db.audit + [AuditEntry(docId, action, ServiceActor, None, None, details)];
    }

    /** Store a new document of the caller's tenant at version 1, without retention.
        `newId` is the identifier MongoDB allocates, `now` the creation time. */
    method Create(dto: CreateDocumentDto, customerId: string, newId: DocId, now: Date) returns (r: Result<Document>)
      requires IsValidObjectId(newId) && newId !in db.docs
      modifies db
      ensures db.audit == old(db.audit)
      ensures customerId == "" ==> r == Err(ServerError) && db.docs == old(db.docs)
      ensures customerId != "" ==> r.Ok? && db.docs == old(db.docs)[newId := r.value]
      ensures r.Ok? ==> && r.value.customerId == customerId
                        && r.value.currentVersion == 1
                        && r.value.retention.None? && r.value.deletedAt.None?
                        && r.value.taxonomy == dto.taxonomy && r.value.acl == dto.acl
                        && r.value.processId == dto.processId
                        && r.value.createdAt == now
      ensures ServiceInvariant(old(db.docs)) ==> ServiceInvariant(db.docs)
    {
      if customerId == "" {
        // `customerId` is a required path; Mongoose refuses to save an empty one.
        return Err(ServerError);
      }
      var d := Document(customerId, dto.processId, dto.taxonomy, 1, dto.acl, None, None, now, None, None);
      db.docs := db.docs[newId := d];
      r := Ok(d);
    }

    /** One page of the not-deleted documents, newest first, with the count of
        all matches and the number of the last page. */
    method FindAll(domain: Option<string>, page: int, limit: int) returns (r: Result<Listing>)
      requires limit != 0
      ensures r.Err? <==> Skip(page, limit) < 0
      ensures r.Err? ==> r.error == ServerError
      ensures r.Ok? ==> r.value.meta.total == |Matching(db.docs, domain)|
      ensures r.Ok? ==> r.value.meta.page == page
      ensures r.Ok? ==> r.value.meta.lastPage == CeilDiv(r.value.meta.total, limit)
      ensures r.Ok? ==> |r.value.data| == Min(Abs(limit), Max(0, r.value.meta.total - Skip(page, limit)))
      ensures r.Ok? ==> forall i :: 0 <= i < |r.value.data| ==> Listed(r.value.data[i], domain)
      ensures r.Ok? ==> exists ids :: IsListing(db.docs, domain, ids)
                                      && r.value.data == DocsAt(db.docs, Window(ids, Skip(page, limit), limit))
    {
      var skip := Skip(page, limit);
      if skip < 0 {
        // MongoDB rejects a negative skip.
        return Err(ServerError);
      }
      var docs := db.docs;
      ghost var order := NewestFirstOrderExists(docs, Matching(docs, domain));
      assert IsListing(docs, domain, order);
      var ids :| IsListing(docs, domain, ids);
      ListingLength(docs, domain, ids);
      var total := |Matching(docs, domain)|;
      var w := Window(ids, skip, limit);
      var data := DocsAt(docs, w);
      r := Ok(Listing(data, PageMeta(total, page, CeilDiv(total, limit))));
    }

    /** Fetch one document and audit the read. */
    method FindOne(id: string) returns (r: Result<Document>)
      modifies db
      ensures db.docs == old(db.docs)
      ensures !IsValidObjectId(id) ==> r == Err(BadRequest)
      ensures IsValidObjectId(id) && id !in old(db.docs) ==> r == Err(NotFound)
      ensures IsValidObjectId(id) && id in old(db.docs) ==> r == Ok(old(db.docs)[id])
      ensures db.audit == if r.Ok? then old(db.audit) + [AuditEntry(id, "READ", ServiceActor, None, None, NoDetails)]
                          else old(db.audit)
    {
      if !IsValidObjectId(id) {
        return Err(BadRequest);
      }
      if id !in db.docs {
        return Err(NotFound);
      }
      var d := db.docs[id];
      LogAction(id, "READ", NoDetails);
      r := Ok(d);
    }

    /** Bump the version counter of an existing document. */
    method CreateVersion(id: string, dto: CreateVersionDto) returns (r: Result<VersionReceipt>)
      modifies db
      ensures db.audit == old(db.audit)
      ensures !IsValidObjectId(id) ==> r == Err(BadRequest) && db.docs == old(db.docs)
      ensures IsValidObjectId(id) && id !in old(db.docs) ==> r == Err(NotFound) && db.docs == old(db.docs)
      ensures IsValidObjectId(id) && id in old(db.docs) ==>
                && r == Ok(VersionReceipt(id, NextVersion(old(db.docs)[id].currentVersion), dto.comment))
                && r.value.newVersion > old(db.docs)[id].currentVersion
                && db.docs == old(db.docs)[id := old(db.docs)[id].(currentVersion := r.value.newVersion)]
      ensures ServiceInvariant(old(db.docs)) ==> ServiceInvariant(db.docs)
    {
      if !IsValidObjectId(id) {
        return Err(BadRequest);
      }
      if id !in db.docs {
        return Err(NotFound);
      }
      var d := db.docs[id];
      var v := NextVersion(d.currentVersion);
      NextVersionIncreases(d.currentVersion);
      db.docs := db.docs[id := d.(currentVersion := v)];
      r := Ok(VersionReceipt(id, v, dto.comment));
    }

    /** Check the tenant and the requested version, and name the export file.
        The tenant is compared with the owner `customerId`, the corrected
        reading of the `tenantId` check (see TenantMismatch). Writing the file
        and scheduling its removal are not modelled. */
    method GetDownloadUrl(id: string, version: Option<int>, tenantId: Option<string>) returns (r: Result<DownloadLink>)
      ensures !IsValidObjectId(id) ==> r == Err(CastError)
      ensures IsValidObjectId(id) && id !in db.docs ==> r == Err(NotFound)
      ensures IsValidObjectId(id) && id in db.docs && TenantMismatchIntended(db.docs[id], tenantId) ==> r == Err(Forbidden)
      ensures IsValidObjectId(id) && id in db.docs && !TenantMismatchIntended(db.docs[id], tenantId) ==>
                var target := TargetVersion(version, db.docs[id].currentVersion);
                && (target > db.docs[id].currentVersion ==> r == Err(BadRequest))
                && (target <= db.docs[id].currentVersion ==>
                      r == Ok(DownloadLink(DownloadRoute + FileName(id, target), FileName(id, target))))
    {
      if !IsValidObjectId(id) {
        // `findById` cannot cast a malformed id.
        return Err(CastError);
      }
      if id !in db.docs {
        return Err(NotFound);
      }
      var d := db.docs[id];
      if TenantMismatchIntended(d, tenantId) {
        return Err(Forbidden);
      }
      var target := TargetVersion(version, d.currentVersion);
      if target > d.currentVersion {
        return Err(BadRequest);
      }
      var fileName := FileName(id, target);
      r := Ok(DownloadLink(DownloadRoute + fileName, fileName));
    }

    /** Synthesise the version history from the counter. */
    method GetDocumentVersions(id: string) returns (r: Result<seq<HistoryEntry>>)
      ensures !IsValidObjectId(id) ==> r == Err(BadRequest)
      ensures IsValidObjectId(id) && id !in db.docs ==> r == Err(NotFound)
      ensures IsValidObjectId(id) && id in db.docs ==>
                r.Ok? && IsHistory(r.value, id, OrElse(db.docs[id].currentVersion, 1))
    {
      if !IsValidObjectId(id) {
        return Err(BadRequest);
      }
      if id !in db.docs {
        return Err(NotFound);
      }
      var totalVersions := OrElse(db.docs[id].currentVersion, 1);
      var history: seq<HistoryEntry> := [];
      var i := 1;
      while i <= totalVersions
        invariant 1 <= i <= Max(totalVersions, 0) + 1
        invariant |history| == i - 1
        invariant forall k :: 0 <= k < |history| ==>
                    history[k] == HistoryEntry(k + 1, id, HistoryAuthor,
                                               if k + 1 == totalVersions then "CURRENT" else "ARCHIVED")
      {
        history := history + [HistoryEntry(i, id, HistoryAuthor, if i == totalVersions then "CURRENT" else "ARCHIVED")];
        i := i + 1;
      }
      r := Ok(history);
    }

    /** Replace the whole ACL with the request body and audit the change. */
    method UpdateAcl(id: string, dto: UpdateAclDto) returns (r: Result<Document>)
      modifies db
      ensures !IsValidObjectId(id) ==> r == Err(BadRequest) && unchanged(db)
      ensures IsValidObjectId(id) && id !in old(db.docs) ==> r == Err(NotFound) && unchanged(db)
      ensures IsValidObjectId(id) && id in old(db.docs) ==>
                && r == Ok(old(db.docs)[id].(acl := AclOf(dto)))
                && db.docs == old(db.docs)[id := r.value]
                && db.audit == old(db.audit) + [AuditEntry(id, "UPDATE_ACL", ServiceActor, None, None, AclChange(dto))]
      ensures ServiceInvariant(old(db.docs)) ==> ServiceInvariant(db.docs)
    {
      if !IsValidObjectId(id) {
        return Err(BadRequest);
      }
      if id !in db.docs {
        return Err(NotFound);
      }
      var updated := db.docs[id].(acl := AclOf(dto));
      db.docs := db.docs[id := updated];
      LogAction(id, "UPDATE_ACL", AclChange(dto));
      r := Ok(updated);
    }

    /** Attach a retention policy expiring `retentionYear` calendar years after
        `now`, replacing any earlier one; a missing document yields no document. */
    method UpdateRetention(id: string, dto: UpdateRetentionDto, now: Date) returns (r: Result<Option<Document>>)
      requires ValidDate(now)
      modifies db
      ensures db.audit == old(db.audit)
      ensures !IsValidObjectId(id) ==> r == Err(CastError) && db.docs == old(db.docs)
      ensures IsValidObjectId(id) && id !in old(db.docs) ==> r == Ok(None) && db.docs == old(db.docs)
      ensures IsValidObjectId(id) && id in old(db.docs) ==>
                && r == Ok(Some(old(db.docs)[id].(retention := Some(RetentionFor(dto, now)))))
                && db.docs == old(db.docs)[id := r.value.value]
      ensures ServiceInvariant(old(db.docs)) ==> ServiceInvariant(db.docs)
    {
      var retention := RetentionFor(dto, now);
      if !IsValidObjectId(id) {
        return Err(CastError);
      }
      if id !in db.docs {
        return Ok(None);
      }
      var updated := db.docs[id].(retention := Some(retention));
      db.docs := db.docs[id := updated];
      r := Ok(Some(updated));
    }

    /** Physically delete a document unless its retention deadline is still
        ahead. The guard reads `retention.deleteAt`, the corrected reading of
        the `retentionPolicy.expiryDate` check (see RetentionLocked). */
    method Remove(id: string, now: Date) returns (r: Result<Document>)
      modifies db
      ensures db.audit == old(db.audit)
      ensures !IsValidObjectId(id) ==> r == Err(BadRequest) && db.docs == old(db.docs)
      ensures IsValidObjectId(id) && id !in old(db.docs) ==> r == Err(NotFound) && db.docs == old(db.docs)
      ensures IsValidObjectId(id) && id in old(db.docs) && RetentionLockedIntended(old(db.docs)[id], now) ==>
                r == Err(BadRequest) && db.docs == old(db.docs)
      ensures IsValidObjectId(id) && id in old(db.docs) && !RetentionLockedIntended(old(db.docs)[id], now) ==>
                r == Ok(old(db.docs)[id]) && db.docs == old(db.docs) - {id}
      ensures ServiceInvariant(old(db.docs)) ==> ServiceInvariant(db.docs)
    {
      if !IsValidObjectId(id) {
        return Err(BadRequest);
      }
      if id !in db.docs {
        return Err(NotFound);
      }
      var d := db.docs[id];
      if RetentionLockedIntended(d, now) {
        return Err(BadRequest);
      }
      db.docs := db.docs - {id};
      r := Ok(d);
    }
  }
}
