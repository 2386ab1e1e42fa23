/** The sequential write service is one of the interleavings of the write protocol: a call that runs to its
    end is a run of one process, with the same table and the same answer. */
module WriteRefinement {
  import opened Domain
  import opened Records
  import opened Ingestion
  import opened WriteProtocol
  import opened WriteGuarantees
  import opened Runs

  /** The enrichment reports its failure. */
  lemma FailureIsReported(s: State, p: nat, req: Request, r: Record, failed: bool) returns (steps: seq<State>)
    requires p in s.writers && s.writers[p] == Waiting(req, r) && p in s.enrichments && s.enrichments[p] == MarkingFailed(r)
    requires r.id in s.rows && s.rows[r.id].tenant == r.tenant
    ensures IsPath(Next, s, steps)
    ensures var last := steps[|steps| - 1];
      && last.rows == s.rows[r.id := s.rows[r.id].(pipeline := PartialFailed)]
      && p in last.writers && last.writers[p] == if failed then Failed else Acked(req, r.id, false)
  {
    var s1 := Taken(s, Enrich(p, false));
    var s2 := Taken(s1, Enrich(p, failed));
    var s3 := Taken(s2, Finish(p));
    steps := [s, s1, s2, s3];
  }

  /** The extraction and the status update succeed. */
  lemma EnrichmentIsMarked(s: State, p: nat, r: Record) returns (steps: seq<State>)
    requires p in s.enrichments && s.enrichments[p] == Extracting(r) && r.id in s.rows && s.rows[r.id].tenant == r.tenant
    ensures IsPath(Next, s, steps)
    ensures steps[|steps| - 1] == s.(rows := s.rows[r.id := s.rows[r.id].(pipeline := Enriched)],
                                     enrichments := s.enrichments[p := Announcing(r)])
  {
    var s1 := Taken(s, Enrich(p, false));
    var s2 := Taken(s1, Enrich(p, false));
    assert s2.enrichments == s.enrichments[p := Announcing(r)];
    steps := [s, s1, s2];
  }

  /** The enrichment has marked its record and announces it. */
  lemma EnrichmentIsAnnounced(s: State, p: nat, req: Request, r: Record, x: Raises) returns (steps: seq<State>)
    requires p in s.writers && s.writers[p] == Waiting(req, r) && p in s.enrichments && s.enrichments[p] == Announcing(r)
    requires r.id in s.rows && s.rows[r.id].tenant == r.tenant && s.rows[r.id].pipeline == Enriched
    ensures IsPath(Next, s, steps)
    ensures var last := steps[|steps| - 1];
      && last.rows == s.rows[r.id := s.rows[r.id].(pipeline := if x.enriched then PartialFailed else Enriched)]
      && p in last.writers && last.writers[p] == if x.enriched && x.failed then Failed else Acked(req, r.id, false)
  {
    var s1 := Taken(s, Enrich(p, x.enriched));
    if x.enriched {
      var rest := FailureIsReported(s1, p, req, r, x.failed);
      steps := Chained(Next, s, [s, s1], rest);
    } else {
      steps := [s, s1, Taken(s1, Finish(p))];
    }
  }

  /** The enrichment that a writer waits for, from its start to the answer. */
  lemma EnrichmentRuns(s: State, p: nat, req: Request, r: Record, x: Raises) returns (steps: seq<State>)
    requires p in s.writers && s.writers[p] == Waiting(req, r) && p in s.enrichments && s.enrichments[p] == Extracting(r)
    requires r.id in s.rows && s.rows[r.id].tenant == r.tenant
    ensures IsPath(Next, s, steps)
    ensures var last, fails := steps[|steps| - 1], x.extract || x.enriched;
      && last.rows == s.rows[r.id := s.rows[r.id].(pipeline := if fails then PartialFailed else Enriched)]
      && p in last.writers && last.writers[p] == if fails && x.failed then Failed else Acked(req, r.id, false)
  {
    if x.extract {
      var s1 := Taken(s, Enrich(p, true));
      var rest := FailureIsReported(s1, p, req, r, x.failed);
      steps := Chained(Next, s, [s, s1], rest);
    } else {
      var marked := EnrichmentIsMarked(s, p, r);
      var rest := EnrichmentIsAnnounced(marked[|marked| - 1], p, req, r, x);
      steps := Chained(Next, s, marked, rest);
    }
  }

  /** A new process looks up the key and finds nothing. */
  lemma LookupFindsNothing(s: State, p: nat, req: Request, newId: string, now: int) returns (steps: seq<State>)
    requires p !in s.writers && newId !in s.issued && forall i :: i in s.rows ==> !Known(s.rows[i], req)
    ensures IsPath(Next, s, steps)
    ensures var last, r := steps[|steps| - 1], NewRecord(s, req, newId, now);
      last == s.(writers := s.writers[p := Saving(req, r)], issued := s.issued + {newId})
  {
    var s1 := Taken(s, Arrive(p, req));
    assert req.key.Some? ==> forall i :: i in WithKey(s1.rows, req.tenant, req.key.value) ==> Known(s.rows[i], req);
    var s2 := Taken(s1, Check(p, None, newId, now));
    assert s2.writers == s.writers[p := Saving(req, NewRecord(s, req, newId, now))];
    steps := [s, s1, s2];
  }

  /** And it saves. */
  lemma NewRecordIsSaved(s: State, p: nat, req: Request, newId: string, now: int) returns (steps: seq<State>)
    requires s.semantics.Sqlite? && p !in s.writers && p !in s.enrichments && newId !in s.issued
    requires forall i :: i in s.rows ==> !Known(s.rows[i], req)
    ensures IsPath(Next, s, steps)
    ensures var last, r := steps[|steps| - 1], NewRecord(s, req, newId, now);
      && last.rows == s.rows[newId := r] && last.hasExtraction == s.hasExtraction
      && p in last.writers && last.writers[p] == Auditing(req, r) && p !in last.enrichments
  {
    var looked := LookupFindsNothing(s, p, req, newId, now);
    var before := looked[|looked| - 1];
    SavingUnknownAdds(s.rows, NewRecord(s, req, newId, now));
    steps := Chained(Next, s, looked, [before, Taken(before, Save(p))]);
  }

  /** What follows the save, from the audit entry to the answer. */
  lemma SavedRecordIsAnswered(s: State, p: nat, req: Request, r: Record, x: Raises) returns (steps: seq<State>)
    requires p in s.writers && s.writers[p] == Auditing(req, r) && p !in s.enrichments
    requires r.id in s.rows && s.rows[r.id] == r
    ensures IsPath(Next, s, steps)
    ensures var last, enriches, fails := steps[|steps| - 1], Enriches(req, s.hasExtraction, x), x.extract || x.enriched;
      && last.rows == (if !enriches then s.rows else s.rows[r.id := r.(pipeline := if fails then PartialFailed else Enriched)])
      && p in last.writers
      && last.writers[p] == (if x.audit || x.written || (enriches && fails && x.failed) then Failed else Acked(req, r.id, false))
    ensures !x.audit && !x.written && req.extract && s.hasExtraction && !req.wait ==>
      var last := steps[|steps| - 1]; p in last.enrichments && last.enrichments[p] == Extracting(r)
  {
    if x.audit {
      steps := [s, Taken(s, Raise(p))];
    } else {
      var s1 := Taken(s, Audit(p));
      if x.written {
        steps := [s, s1, Taken(s1, Raise(p))];
      } else {
        var s2 := Taken(s1, Emit(p));
        steps := [s, s1, s2];
        if Enriches(req, s.hasExtraction, x) {
          var rest := EnrichmentRuns(s2, p, req, r, x);
          steps := Chained(Next, s, steps, rest);
        }
      }
    }
  }

  lemma NewKeyIsAnswered(s: State, p: nat, req: Request, newId: string, now: int, x: Raises) returns (steps: seq<State>)
    requires Inv(s) && s.semantics.Sqlite? && p !in s.writers && newId !in s.issued
    requires forall i :: i in s.rows ==> !Known(s.rows[i], req)
    ensures IsPath(Next, s, steps)
    ensures var last, enriches, fails := steps[|steps| - 1], Enriches(req, s.hasExtraction, x), x.extract || x.enriched;
      var r := NewRecord(s, req, newId, now);
      && last.rows == s.rows[newId := if enriches then r.(pipeline := if fails then PartialFailed else Enriched) else r]
      && p in last.writers
      && last.writers[p] == (if x.audit || x.written || (enriches && fails && x.failed) then Failed else Acked(req, newId, false))
    ensures !x.audit && !x.written && req.extract && s.hasExtraction && !req.wait ==>
      var last := steps[|steps| - 1];
      p in last.enrichments && last.enrichments[p] == Extracting(NewRecord(s, req, newId, now))
  {
    assert EnrichmentOk(s, p);
    var before := NewRecordIsSaved(s, p, req, newId, now);
    var after := SavedRecordIsAnswered(before[|before| - 1], p, req, NewRecord(s, req, newId, now), x);
    steps := Chained(Next, s, before, after);
  }

  /** A completed call is a run of one new process that ends in the same table, acknowledged with the same
      id or failed as the call did; an enrichment that is not waited for stands at its start. */
  lemma ExecutionIsAnInterleaving(s: State, p: nat, req: Request, newId: string, now: int, x: Raises, rows': Rows,
                                  result: Result<WriteResult, StoreError>) returns (steps: seq<State>)
    requires Inv(s) && s.semantics.Sqlite? && p !in s.writers && newId !in s.issued
    requires IsExecution(s.rows, rows', req, s.hasExtraction, newId, now, x, result)
    ensures IsPath(Next, s, steps)
    ensures var last := steps[|steps| - 1];
      && last.rows == rows' && p in last.writers
      && last.writers[p] == (if result.Ok? then Acked(req, result.value.memoryId, result.value.idempotent) else Failed)
    ensures result.Ok? && !result.value.idempotent && req.extract && s.hasExtraction && !req.wait ==>
      var last := steps[|steps| - 1];
      newId in rows' && p in last.enrichments && last.enrichments[p] == Extracting(rows'[newId])
  {
    if exists i :: i in s.rows && Known(s.rows[i], req) {
      var i :| i in s.rows && Known(s.rows[i], req) && result == Ok(WriteResult(i, s.rows[i].pipeline, true));
      steps := KnownKeyIsAnswered(s, p, req, i, newId, now);
    } else {
      steps := NewKeyIsAnswered(s, p, req, newId, now, x);
    }
  }

  /** A process finds record i under its key. */
  lemma KnownKeyIsAnswered(s: State, p: nat, req: Request, i: string, newId: string, now: int) returns (steps: seq<State>)
    requires p !in s.writers && newId !in s.issued && i in s.rows && Known(s.rows[i], req)
    ensures IsPath(Next, s, steps)
    ensures var last := steps[|steps| - 1];
      last.rows == s.rows && p in last.writers && last.writers[p] == Acked(req, i, true)
  {
    var s1 := Taken(s, Arrive(p, req));
    var s2 := Taken(s1, Check(p, Some(i), newId, now));
    steps := [s, s1, s2];
  }
}
