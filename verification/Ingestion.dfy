/** The write use case run to completion by one caller against the SQLite store. The observer and
    the extraction port are unseen code; whether they raise is a parameter. */
module Ingestion {
  import opened Domain
  import opened Records
  import WP = WriteProtocol

  /** Which of the calls into unseen code raise. */
  datatype Raises = Raises(audit: bool, written: bool, extract: bool, enriched: bool, failed: bool)

  datatype WriteResult = WriteResult(memoryId: string, status: Pipeline, idempotent: bool)

  /** The write gets as far as an enrichment that it waits for. */
  predicate Enriches(req: WP.Request, hasExtraction: bool, x: Raises) {
    !x.audit && !x.written && req.extract && hasExtraction && req.wait
  }

  /** What a completed call did. A stored record of the request's tenant and key is returned and nothing is
      written. Otherwise one record appears with what the request says and no other changes. It is
      ENRICHMENT_SKIPPED if extraction was asked for and there is none, PENDING otherwise; after an
      enrichment that was waited for it is ENRICHED if neither the extraction nor the event raised and
      PARTIAL_ENRICHMENT_FAILED else. The answer is the initial status, unless the audit log, the event or
      the report of a failed enrichment raised. */
  ghost predicate IsExecution(rows: Rows, rows': Rows, req: WP.Request, hasExtraction: bool, newId: string, now: int,
                              x: Raises, result: Result<WriteResult, StoreError>) {
    if exists i :: i in rows && Known(rows[i], req) then
      rows' == rows && exists i :: i in rows && Known(rows[i], req) && result == Ok(WriteResult(i, rows[i].pipeline, true))
    else
      var initial := if req.extract && !hasExtraction then Skipped else Pending;
      var enriches, fails := Enriches(req, hasExtraction, x), x.extract || x.enriched;
      var status := if !enriches then initial else if fails then PartialFailed else Enriched;
      && rows' == rows[newId := Record(newId, req.tenant, req.principal, req.payload, req.sector, Active, status, now, req.key)]
      && result == if x.audit || x.written || (enriches && fails && x.failed) then Err(StorageFailure)
                   else Ok(WriteResult(newId, initial, false))
  }

  /** The record holds the request's idempotency key. */
  predicate Known(r: Record, req: WP.Request) {
    req.key.Some? && r.key == req.key && r.tenant == req.tenant
  }

  /** A saved record is the only one of its key, so a write that raised after its save is answered
      with that record when it is tried again. */
  lemma RetryFindsTheRecord(rows: Rows, req: WP.Request, hasExtraction: bool, id: string, now: int)
    requires UniqueKeys(rows) && req.key.Some?
    requires id !in rows || rows[id].tenant != req.tenant || rows[id].key != req.key
    ensures WithKey(SqliteSaved(rows, WP.RecordOf(req, hasExtraction, id, now)), req.tenant, req.key.value) == {id}
  {
  }

  class WriteMemoryService {
    const repo: SqliteRecordRepository
    const hasExtraction: bool
    var auditLog: seq<string>

    constructor (repo: SqliteRecordRepository, hasExtraction: bool)
      ensures this.repo == repo && this.hasExtraction == hasExtraction && auditLog == []
    {
      this.repo := repo;
      this.hasExtraction := hasExtraction;
      auditLog := [];
    }

    /** If the row is gone both status updates raise, and so does the enrichment. */
    method Enrich(r: Record, x: Raises) returns (raised: bool)
      modifies repo
      ensures if r.id !in old(repo.rows) || old(repo.rows)[r.id].tenant != r.tenant then raised && repo.rows == old(repo.rows)
              else if x.extract || x.enriched then
                && repo.rows == old(repo.rows)[r.id := old(repo.rows)[r.id].(pipeline := PartialFailed)]
                && raised == x.failed
              else repo.rows == old(repo.rows)[r.id := old(repo.rows)[r.id].(pipeline := Enriched)] && !raised
    {
      if !x.extract {
        var error := repo.UpdatePipelineStatus(r.id, r.tenant, Enriched);
        if error.None? && !x.enriched {
          return false;
        }
      }
      var error := repo.UpdatePipelineStatus(r.id, r.tenant, PartialFailed);
      raised := error.Some? || x.failed;
    }

    /** What follows the save: the audit entry, the event, and an enrichment that is waited for. */
    method Follow(req: WP.Request, r: Record, x: Raises) returns (result: Result<WriteResult, StoreError>)
      requires r.id in repo.rows && repo.rows[r.id].tenant == r.tenant
      modifies this, repo
      ensures repo.rows == if !Enriches(req, hasExtraction, x) then old(repo.rows) else
        old(repo.rows)[r.id := old(repo.rows)[r.id].(pipeline := if x.extract || x.enriched then PartialFailed else Enriched)]
      ensures auditLog == old(auditLog) + if x.audit then [] else [r.id]
      ensures result == if x.audit || x.written || (Enriches(req, hasExtraction, x) && (x.extract || x.enriched) && x.failed)
                        then Err(StorageFailure) else Ok(WriteResult(r.id, r.pipeline, false))
    {
      if x.audit {
        return Err(StorageFailure);
      }
      auditLog := auditLog + [r.id];
      if x.written {
        return Err(StorageFailure);
      }
      if req.extract && hasExtraction && req.wait {
        var raised := Enrich(r, x);
        if raised {
          return Err(StorageFailure);
        }
      }
      result := Ok(WriteResult(r.id, r.pipeline, false));
    }

    /** A raise after the save leaves the record stored, and with it the audit entry unless the audit log is
        what raised. */
    method Execute(req: WP.Request, newId: string, now: int, x: Raises)
      returns (result: Result<WriteResult, StoreError>)
      requires UniqueKeys(repo.rows)
      modifies this, repo
      ensures IsExecution(old(repo.rows), repo.rows, req, hasExtraction, newId, now, x, result)
      ensures auditLog == old(auditLog) + if (exists i :: i in old(repo.rows) && Known(old(repo.rows)[i], req)) || x.audit
                                          then [] else [newId]
      ensures UniqueKeys(repo.rows)
    {
      if req.key.Some? {
        var existing := repo.GetByIdempotencyKey(req.key.value, req.tenant);
        if existing.Some? {
          ghost var i :| i in WithKey(repo.rows, req.tenant, req.key.value) && repo.rows[i] == existing.value;
          assert Known(repo.rows[i], req);
          result := Ok(WriteResult(existing.value.id, existing.value.pipeline, true));
          return;
        }
      }
      ghost var rows := repo.rows;
      assert forall i :: i in rows && Known(rows[i], req) ==> i in WithKey(rows, req.tenant, req.key.value);
      var r := WP.RecordOf(req, hasExtraction, newId, now);
      repo.Save(r);
      SavingUnknownAdds(rows, r);
      result := Follow(req, r, x);
      KeysStayUnique(rows, r, repo.rows);
    }
  }

  /** The save of a record whose key no row holds adds its row and touches no other. */
  lemma SavingUnknownAdds(rows: Rows, r: Record)
    requires forall i :: i in rows ==> !Collide(rows[i], r)
    ensures SqliteSaved(rows, r) == rows[r.id := r]
  {
  }

  lemma KeysStayUnique(rows: Rows, r: Record, rows': Rows)
    requires UniqueKeys(rows) && forall i :: i in rows ==> !Collide(rows[i], r)
    requires r.id in rows' && rows' == rows[r.id := r.(pipeline := rows'[r.id].pipeline)]
    ensures UniqueKeys(rows')
  {
  }
}
