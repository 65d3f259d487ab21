/** The retention sweep: one pass over the documents whose retention deadline
    has passed, deleting HARD-mode ones, stamping the others as deleted, and
    auditing each disposal; a failure on one document does not stop the pass. */
module Retention {
  import opened Common
  import opened Dates
  import opened Schemas
  import Documents

  const SweepActor: string := "SYSTEM_CRON_WORKER"
  const SweepIp: string := "127.0.0.1"
  const SweepUserAgent: string := "NodeJS-Cron-Service"
  const HardAction: string := "HARD_DELETE_EXPIRATION"
  const SoftAction: string := "SOFT_DELETE_EXPIRATION"

  /** The sweep's query: `retention.deleteAt <= now` and no `deletedAt`. */
  predicate Expired(d: Document, now: Date) {
    && d.retention.Some?
    && d.retention.value.deleteAt.Some?
    && NotAfter(d.retention.value.deleteAt.value, now)
    && d.deletedAt.None?
  }

  function Selected(docs: map<DocId, Document>, now: Date): set<DocId> {
    set id | id in docs && Expired(docs[id], now)
  }

  /** The sweep selects only stored documents. */
  lemma SelectedAreStored(docs: map<DocId, Document>, now: Date)
    ensures Selected(docs, now) <= docs.Keys
  {
  }

  /** `doc.retention.mode === 'HARD'`; any other or no mode disposes softly. */
  predicate IsHard(d: Document) {
    d.retention.Some? && d.retention.value.mode == Some("HARD")
  }

  function PolicyIdOf(d: Document): Option<string> {
    if d.retention.Some? then d.retention.value.policyId else None
  }

  /** The audit entry of one disposal, from the document as the query saw it. */
  function DisposalEntry(id: DocId, d: Document, stamp: Date): AuditEntry {
    AuditEntry(id, if IsHard(d) then HardAction else SoftAction, SweepActor, Some(SweepIp), Some(SweepUserAgent),
               Expiration(PolicyIdOf(d), stamp, "SUCCESS", d.currentVersion))
  }

  /** The store after the documents in `done` were disposed of at `stamp`:
      HARD ones are gone, the others carry `deletedAt`, the rest is as it was. */
  function Disposed(docs: map<DocId, Document>, done: set<DocId>, stamp: Date): map<DocId, Document> {
    map id | id in docs && !(id in done && IsHard(docs[id])) ::
      if id in done then docs[id].(deletedAt := Some(stamp)) else docs[id]
  }

  /** The entries a pass appends, in the order it took the documents: one per
      document whose store step and audit step both went through. */
  function SweepAudit(order: seq<DocId>, snapshot: map<DocId, Document>, storeFails: set<DocId>,
                      auditFails: set<DocId>, stamp: Date): seq<AuditEntry>
    requires forall i :: 0 <= i < |order| ==> order[i] in snapshot
  {
    if order == [] then []
    else
      var last := order[|order| - 1];
      SweepAudit(order[..|order| - 1], snapshot, storeFails, auditFails, stamp)
      + (if last !in storeFails && last !in auditFails then [DisposalEntry(last, snapshot[last], stamp)] else [])
  }

  /** Disposing of one more document changes only that document's entry. */
  lemma DisposeOneMore(snapshot: map<DocId, Document>, done: set<DocId>, id: DocId, stamp: Date)
    requires id in snapshot && id !in done
    ensures IsHard(snapshot[id]) ==> Disposed(snapshot, done + {id}, stamp) == Disposed(snapshot, done, stamp) - {id}
    ensures !IsHard(snapshot[id]) ==>
              Disposed(snapshot, done + {id}, stamp)
              == Disposed(snapshot, done, stamp)[id := snapshot[id].(deletedAt := Some(stamp))]
  {
    var before, after := Disposed(snapshot, done, stamp), Disposed(snapshot, done + {id}, stamp);
    if IsHard(snapshot[id]) {
      assert after.Keys == before.Keys - {id};
    } else {
      assert after.Keys == before.Keys;
    }
  }

  /** `ids` lists the documents of `s`, each once: the array the query returns. */
  predicate Enumerates(ids: seq<DocId>, s: set<DocId>) {
    && Distinct(ids)
    && (forall i :: 0 <= i < |ids| ==> ids[i] in s)
    && (forall id :: id in s ==> id in ids)
  }

  /** The documents among the first `k` of `ids`. */
  function Taken(ids: seq<DocId>, k: nat): set<DocId>
    requires k <= |ids|
  {
    set id | id in ids[..k]
  }

  /** All of an enumeration is the whole set. */
  lemma TakenAll(ids: seq<DocId>, s: set<DocId>)
    requires Enumerates(ids, s)
    ensures Taken(ids, |ids|) == s
  {
    assert ids[..|ids|] == ids;
  }

  /** One turn of the sweep's loop: taking the next document disposes of it
      exactly when its store step succeeds, and it is still as the query saw it. */
  lemma SweepStep(snapshot: map<DocId, Document>, ids: seq<DocId>, k: nat, storeFails: set<DocId>, stamp: Date)
    requires Distinct(ids) && k < |ids| && ids[k] in snapshot
    ensures var id := ids[k];
            var before := Disposed(snapshot, Taken(ids, k) - storeFails, stamp);
            var after := Disposed(snapshot, Taken(ids, k + 1) - storeFails, stamp);
            && id in before && before[id] == snapshot[id]
            && (id in storeFails ==> after == before)
            && (id !in storeFails && IsHard(snapshot[id]) ==> after == before - {id})
            && (id !in storeFails && !IsHard(snapshot[id]) ==>
                  after == before[id := snapshot[id].(deletedAt := Some(stamp))])
  {
    var id, done := ids[k], Taken(ids, k) - storeFails;
    assert ids[..k + 1] == ids[..k] + [id];
    assert Taken(ids, k + 1) == Taken(ids, k) + {id};
    assert forall j :: 0 <= j < k ==> ids[j] != id;
    assert id !in Taken(ids, k);
    DisposedShape(snapshot, done, stamp, id);
    if id in storeFails {
      assert Taken(ids, k + 1) - storeFails == done;
    } else {
      assert Taken(ids, k + 1) - storeFails == done + {id};
      DisposeOneMore(snapshot, done, id, stamp);
    }
  }

  /** Taking one more document appends at most its own entry. */
  lemma SweepAuditStep(order: seq<DocId>, id: DocId, snapshot: map<DocId, Document>, storeFails: set<DocId>,
                       auditFails: set<DocId>, stamp: Date)
    requires forall i :: 0 <= i < |order| ==> order[i] in snapshot
    requires id in snapshot
    ensures SweepAudit(order + [id], snapshot, storeFails, auditFails, stamp)
            == SweepAudit(order, snapshot, storeFails, auditFails, stamp)
               + (if id !in storeFails && id !in auditFails then [DisposalEntry(id, snapshot[id], stamp)] else [])
  {
    assert (order + [id])[..|order|] == order;
  }

  /** The store half of the loop invariant survives one turn: if the store
      stood for the first `k` documents, then after the store step of
      document `k` it stands for the first `k + 1`. */
  lemma StoreAdvance(snapshot: map<DocId, Document>, order: seq<DocId>, k: nat, storeFails: set<DocId>,
                     stamp: Date, docs: map<DocId, Document>, docs': map<DocId, Document>)
    requires Distinct(order) && k < |order| && order[k] in snapshot
    requires docs == Disposed(snapshot, Taken(order, k) - storeFails, stamp)
    requires order[k] in storeFails ==> docs' == docs
    requires order[k] !in storeFails && IsHard(snapshot[order[k]]) ==> docs' == docs - {order[k]}
    requires order[k] !in storeFails && !IsHard(snapshot[order[k]]) ==>
               docs' == docs[order[k] := snapshot[order[k]].(deletedAt := Some(stamp))]
    ensures docs' == Disposed(snapshot, Taken(order, k + 1) - storeFails, stamp)
  {
    SweepStep(snapshot, order, k, storeFails, stamp);
  }

  /** The log half of the loop invariant survives one turn. */
  lemma AuditAdvance(snapshot: map<DocId, Document>, order: seq<DocId>, k: nat, storeFails: set<DocId>,
                     auditFails: set<DocId>, stamp: Date, base: seq<AuditEntry>,
                     audit: seq<AuditEntry>, audit': seq<AuditEntry>)
    requires k < |order| && forall i :: 0 <= i < |order| ==> order[i] in snapshot
    requires audit == base + SweepAudit(order[..k], snapshot, storeFails, auditFails, stamp)
    requires audit' == audit + (if order[k] !in storeFails && order[k] !in auditFails
                                then [DisposalEntry(order[k], snapshot[order[k]], stamp)] else [])
    ensures audit' == base + SweepAudit(order[..k + 1], snapshot, storeFails, auditFails, stamp)
  {
    SweepAuditStep(order[..k], order[k], snapshot, storeFails, auditFails, stamp);
    assert order[..k] + [order[k]] == order[..k + 1];
  }

  /** Outside `done` nothing changes; in it, HARD documents are gone and the
      others differ only by their new `deletedAt`. */
  lemma DisposedShape(docs: map<DocId, Document>, done: set<DocId>, stamp: Date, id: DocId)
    requires id in docs
    ensures id !in done ==> id in Disposed(docs, done, stamp) && Disposed(docs, done, stamp)[id] == docs[id]
    ensures id in done && IsHard(docs[id]) ==> id !in Disposed(docs, done, stamp)
    ensures id in done && !IsHard(docs[id]) ==>
              id in Disposed(docs, done, stamp) && Disposed(docs, done, stamp)[id] == docs[id].(deletedAt := Some(stamp))
    ensures Disposed(docs, done, stamp).Keys <= docs.Keys
  {
  }

  /** After a run, exactly the documents whose store step failed are still
      eligible: the next run retries them and nothing else. */
  lemma OnlyStoreFailuresStayEligible(docs: map<DocId, Document>, now: Date, storeFails: set<DocId>, stamp: Date)
    ensures Selected(Disposed(docs, Selected(docs, now) - storeFails, stamp), now) == Selected(docs, now) * storeFails
  {
    var done := Selected(docs, now) - storeFails;
    var after := Disposed(docs, done, stamp);
    forall id | id in Selected(after, now)
      ensures id in Selected(docs, now) * storeFails
    {
      assert id !in done;
    }
    forall id | id in Selected(docs, now) * storeFails
      ensures id in Selected(after, now)
    {
      assert id !in done;
    }
  }

  /** A second run at the same `now`, after a run without store failures,
      disposes of nothing and leaves the store as it is. */
  lemma SecondRunChangesNothing(docs: map<DocId, Document>, now: Date, stamp: Date, stamp': Date)
    ensures var after := Disposed(docs, Selected(docs, now), stamp);
            Selected(after, now) == {} && Disposed(after, Selected(after, now), stamp') == after
  {
    OnlyStoreFailuresStayEligible(docs, now, {}, stamp);
    assert Selected(docs, now) - {} == Selected(docs, now);
  }

  /** Every entry a run appends is a successful disposal by the sweep's actor,
      tagged by the mode of a document the run took and whose steps both succeeded. */
  lemma {:induction false} SweepAuditEntries(order: seq<DocId>, snapshot: map<DocId, Document>, storeFails: set<DocId>,
                                             auditFails: set<DocId>, stamp: Date)
    requires forall i :: 0 <= i < |order| ==> order[i] in snapshot
    ensures forall e :: e in SweepAudit(order, snapshot, storeFails, auditFails, stamp) ==>
              && e.actorId == SweepActor
              && e.documentId in order && e.documentId !in storeFails && e.documentId !in auditFails
              && e == DisposalEntry(e.documentId, snapshot[e.documentId], stamp)
              && e.details.result == "SUCCESS"
              && (e.action == HardAction <==> IsHard(snapshot[e.documentId]))
  {
    if order != [] {
      var prefix := order[..|order| - 1];
      SweepAuditEntries(prefix, snapshot, storeFails, auditFails, stamp);
      assert forall id :: id in prefix ==> id in order;
    }
  }

  /** A run over distinct documents appends one entry per document whose store
      and audit steps both succeeded. */
  lemma {:induction false} SweepAuditCount(order: seq<DocId>, snapshot: map<DocId, Document>, storeFails: set<DocId>,
                                           auditFails: set<DocId>, stamp: Date)
    requires forall i :: 0 <= i < |order| ==> order[i] in snapshot
    requires Distinct(order)
    ensures |SweepAudit(order, snapshot, storeFails, auditFails, stamp)|
            == |set id | id in order && id !in storeFails && id !in auditFails|
  {
    if order != [] {
      var prefix, last := order[..|order| - 1], order[|order| - 1];
      assert order == prefix + [last];
      SweepAuditCount(prefix, snapshot, storeFails, auditFails, stamp);
      var ok := set id | id in order && id !in storeFails && id !in auditFails;
      var okPrefix := set id | id in prefix && id !in storeFails && id !in auditFails;
      assert last !in prefix by {
        assert forall j :: 0 <= j < |prefix| ==> prefix[j] == order[j] && order[j] != last;
      }
      if last !in storeFails && last !in auditFails {
        assert ok == okPrefix + {last};
      } else {
        assert ok == okPrefix;
      }
    }
  }

  /** A run keeps the service invariants of every document it leaves in the store. */
  lemma DisposedKeepsInvariant(docs: map<DocId, Document>, done: set<DocId>, stamp: Date)
    requires Documents.ServiceInvariant(docs)
    ensures Documents.ServiceInvariant(Disposed(docs, done, stamp))
  {
  }

  /** A document the sweep selects is never one the intended delete guard locks:
      the sweep and the guard split time at the same instant. */
  lemma SweepAndIntendedLockAgree(d: Document, now: Date)
    requires d.retention.Some? && d.retention.value.deleteAt.Some? && d.deletedAt.None?
    ensures Expired(d, now) <==> !Documents.RetentionLockedIntended(d, now)
  {
  }

  class RetentionTaskService {
    const db: Database

    constructor (db: Database)
      ensures this.db == db
    {
      this.db := db;
    }

    /** The store and audit steps for one expired document `doc` stored under
        `id`: delete it or stamp its `deletedAt`, then save its audit entry.
        A failing step skips the rest, as the `catch` around them does. */
    method DisposeOne(id: DocId, doc: Document, stamp: Date, storeFails: set<DocId>, auditFails: set<DocId>)
      requires id in db.docs && db.docs[id] == doc
      modifies db
      ensures id in storeFails ==> db.docs == old(db.docs)
      ensures id !in storeFails && IsHard(doc) ==> db.docs == old(db.docs) - {id}
      ensures id !in storeFails && !IsHard(doc) ==> db.docs == old(db.docs)[id := doc.(deletedAt := Some(stamp))]
      ensures db.audit == old(db.audit) + (if id !in storeFails && id !in auditFails then [DisposalEntry(id, doc, stamp)] else [])
    {
      if id in storeFails {
        return;
      }
      if IsHard(doc) {
        db.docs := db.docs - {id};
      } else {
        db.docs := db.docs[id := db.docs[id].(deletedAt := Some(stamp))];
      }
      if id !in auditFails {
        db.audit := db.audit + [DisposalEntry(id, doc, stamp)];
      }
    }

    /** One run at time `now`. `stamp` is the time the run writes into
        `deletedAt` and the audit details; `storeFails` are the documents whose
        delete or update throws, `auditFails` those whose audit save throws.
        `order` is the order in which the run took the selected documents. */
    method HandleRetentionCleanup(now: Date, stamp: Date, storeFails: set<DocId>, auditFails: set<DocId>)
      returns (order: seq<DocId>)
      modifies db
      ensures Enumerates(order, Selected(old(db.docs), now))
      ensures db.docs == Disposed(old(db.docs), Selected(old(db.docs), now) - storeFails, stamp)
      ensures db.audit == old(db.audit) + SweepAudit(order, old(db.docs), storeFails, auditFails, stamp)
      ensures forall id :: id in old(db.docs) && id !in Selected(old(db.docs), now) ==>
                id in db.docs && db.docs[id] == old(db.docs)[id]
      ensures Documents.ServiceInvariant(old(db.docs)) ==> Documents.ServiceInvariant(db.docs)
    {
      var snapshot := db.docs;
      var expired := Selected(snapshot, now);
      ghost var some := Documents.NewestFirstOrderExists(snapshot, expired);
      assert Enumerates(some, expired);
      order :| Enumerates(order, expired);
      SelectedAreStored(snapshot, now);
      assert Enumerates(order, expired);
      assert Distinct(order);
      for k := 0 to |order|
        invariant Distinct(order) && forall i :: 0 <= i < |order| ==> order[i] in snapshot
        invariant db.docs == Disposed(snapshot, Taken(order, k) - storeFails, stamp)
        invariant db.audit == old(db.audit) + SweepAudit(order[..k], snapshot, storeFails, auditFails, stamp)
      {
        var id := order[k];
        SweepStep(snapshot, order, k, storeFails, stamp);
        ghost var docs, audit := db.docs, db.audit;
        DisposeOne(id, snapshot[id], stamp, storeFails, auditFails);
        StoreAdvance(snapshot, order, k, storeFails, stamp, docs, db.docs);
        AuditAdvance(snapshot, order, k, storeFails, auditFails, stamp, old(db.audit), audit, db.audit);
      }
      assert order[..|order|] == order;
      TakenAll(order, expired);
      forall id | id in snapshot && id !in expired
        ensures id in db.docs && db.docs[id] == snapshot[id]
      {
        DisposedShape(snapshot, expired - storeFails, stamp, id);
      }
      if Documents.ServiceInvariant(snapshot) {
        DisposedKeepsInvariant(snapshot, expired - storeFails, stamp);
      }
    }
  }
}
