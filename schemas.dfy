/** The persisted records: documents, their retention data and the audit
    trail, and the database holding both collections. */
module Schemas {
  import opened Common
  import opened Dates

  /** A document's `_id`, as text. */
  type DocId = string

  predicate IsHexDigit(c: char) {
    ('0' <= c <= '9') || ('a' <= c <= 'f') || ('A' <= c <= 'F')
  }

  /** `isValidObjectId(id)`: the 24-hex-digit form of a MongoDB ObjectId. */
  predicate IsValidObjectId(id: string) {
    |id| == 24 && forall i :: 0 <= i < |id| ==> IsHexDigit(id[i])
  }

  datatype Taxonomy = Taxonomy(domain: string, category: string, docType: string)

  /** The access lists; an absent list is one the stored object does not carry. */
  datatype Acl = Acl(
    owners: Option<seq<string>>,
    readers: Option<seq<string>>,
    updaters: Option<seq<string>>,
    roles: Option<seq<string>>)

  /** `retention: { policyId?, deleteAt?, mode }`; `mode` is absent when the
      request did not carry one. */
  datatype Retention = Retention(policyId: Option<string>, deleteAt: Option<Date>, mode: Option<string>)

  /** The loosely typed `retentionPolicy?: any`, of which only `expiryDate` is read. */
  datatype RetentionPolicy = RetentionPolicy(expiryDate: Option<Date>)

  /** A stored document. `retentionPolicy` and `tenantId` are read by the
      service but are not paths of the schema, so nothing the service writes
      ever sets them. */
  datatype Document = Document(
    customerId: string,
    processId: Option<string>,
    taxonomy: Taxonomy,
    currentVersion: int,
    acl: Acl,
    retention: Option<Retention>,
    deletedAt: Option<Date>,
    createdAt: Date,
    retentionPolicy: Option<RetentionPolicy>,
    tenantId: Option<string>)

  /** The body of `PATCH /documents/:id/acl`; it has no `owners` list. */
  datatype UpdateAclDto = UpdateAclDto(
    readers: Option<seq<string>>,
    updaters: Option<seq<string>>,
    roles: Option<seq<string>>)

  datatype AuditDetails =
    | NoDetails
    | AclChange(newAcl: UpdateAclDto)
    | Expiration(policyId: Option<string>, executionDate: Date, result: string, version: int)

  datatype AuditEntry = AuditEntry(
    documentId: DocId,
    action: string,
    actorId: string,
    ip: Option<string>,
    userAgent: Option<string>,
    details: AuditDetails)

  /** The two collections both services share. */
  class Database {
    var docs: map<DocId, Document>
    var audit: seq<AuditEntry>

    constructor ()
      ensures docs == map[] && audit == []
    {
      docs := map[];
      audit := [];
    }
  }

  /** A sequence of identifiers without repeats. */
  predicate Distinct(ids: seq<DocId>) {
    forall i, j :: 0 <= i < j < |ids| ==> ids[i] != ids[j]
  }

  /** Every stored document has a positive version counter. */
  predicate VersionsPositive(docs: map<DocId, Document>) {
    forall id :: id in docs ==> docs[id].currentVersion >= 1
  }

  /** No stored document carries the two paths the schema does not declare. */
  predicate NoUndeclaredPaths(docs: map<DocId, Document>) {
    forall id :: id in docs ==> docs[id].retentionPolicy.None? && docs[id].tenantId.None?
  }
}
