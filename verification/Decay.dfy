/** The decay sweep run alone. Its two repository calls exist only in the port, so they mean what
    they are named. */
module Decay {
  import opened Domain
  import opened Records
  import opened Sql

  const MICROSECONDS_PER_DAY: nat := 86400 * 1000000

  predicate IsStale(r: Record, tenant: string, cutoff: int) {
    r.tenant == tenant && r.lifecycle == Active && r.recordedAt < cutoff
  }

  function StaleIds(rows: Rows, tenant: string, cutoff: int): set<string> {
    set i | i in rows && IsStale(rows[i], tenant, cutoff)
  }

  /** Every stale record decayed, every other record as it was. */
  function AfterSweep(rows: Rows, tenant: string, cutoff: int): Rows {
    map i | i in rows :: if IsStale(rows[i], tenant, cutoff) then rows[i].(lifecycle := Decayed) else rows[i]
  }

  /** The table after the first n records of the batch. */
  function Swept(rows: Rows, batch: seq<string>, n: nat): Rows
    requires n <= |batch|
  {
    map i | i in rows :: if i in batch[..n] then rows[i].(lifecycle := Decayed) else rows[i]
  }

  lemma SweepAdvances(rows: Rows, batch: seq<string>, k: nat, tenant: string)
    requires k < |batch| && batch[k] in rows && rows[batch[k]].tenant == tenant
    ensures TenantCheck(Swept(rows, batch, k), batch[k], tenant).None?
    ensures WithLifecycle(Swept(rows, batch, k), batch[k], tenant, Decayed) == Swept(rows, batch, k + 1)
  {
    assert batch[..k + 1] == batch[..k] + [batch[k]];
    assert Swept(rows, batch, k + 1)[batch[k]] == rows[batch[k]].(lifecycle := Decayed);
  }

  lemma SweepCompletes(rows: Rows, batch: seq<string>, tenant: string, cutoff: int)
    requires IsNewestFirst(StaleIds(rows, tenant, cutoff), RecordedAt(rows), |StaleIds(rows, tenant, cutoff)|, batch)
    ensures forall i :: i in batch <==> i in StaleIds(rows, tenant, cutoff)
    ensures Swept(rows, batch, |batch|) == AfterSweep(rows, tenant, cutoff)
  {
    ListingCovers(StaleIds(rows, tenant, cutoff), RecordedAt(rows), |StaleIds(rows, tenant, cutoff)|, batch);
    assert batch[..|batch|] == batch;
  }

  /** The age of a record in days of 24 hours. */
  function DaysOld(r: Record, now: int): real {
    (now - r.recordedAt) as real / (24.0 * 60.0 * 60.0 * 1000000.0)
  }

  /** Being recorded before the cutoff is being more than that many days old. */
  lemma AgeIsAgainstCutoff(rows: Rows, tenant: string, now: int, days: nat)
    ensures forall i :: i in rows ==>
      (IsStale(rows[i], tenant, now - days * MICROSECONDS_PER_DAY) <==>
       rows[i].tenant == tenant && rows[i].lifecycle == Active && DaysOld(rows[i], now) > days as real)
  {
  }

  /** A sweep leaves nothing for a second sweep with the same cutoff. */
  lemma SweepIsIdempotent(rows: Rows, tenant: string, cutoff: int)
    ensures StaleIds(AfterSweep(rows, tenant, cutoff), tenant, cutoff) == {}
    ensures AfterSweep(AfterSweep(rows, tenant, cutoff), tenant, cutoff) == AfterSweep(rows, tenant, cutoff)
  {
  }

  class DecayService {
    const repo: SqliteRecordRepository
    const decayDays: nat
    var auditLog: seq<string>

    constructor (repo: SqliteRecordRepository, decayDays: nat)
      ensures this.repo == repo && this.decayDays == decayDays && auditLog == []
    {
      this.repo := repo;
      this.decayDays := decayDays;
      auditLog := [];
    }

    method Sweep(batch: seq<string>, tenant: string) returns (count: nat)
      requires forall i :: i in batch ==> i in repo.rows && repo.rows[i].tenant == tenant
      modifies this, repo
      ensures repo.rows == Swept(old(repo.rows), batch, |batch|)
      ensures count == |batch| && auditLog == old(auditLog) + batch
    {
      ghost var rows := repo.rows;
      count := 0;
      for k := 0 to |batch|
        invariant count == k
        invariant repo.rows == Swept(rows, batch, k)
        invariant auditLog == old(auditLog) + batch[..k]
      {
        assert batch[k] in batch;
        SweepAdvances(rows, batch, k, tenant);
        var raised := repo.UpdateLifecycle(batch[k], tenant, Decayed);
        auditLog := auditLog + [batch[k]];
        count := count + 1;
      }
      assert batch[..|batch|] == batch;
    }

    method Execute(tenant: string, now: int) returns (count: nat, ghost batch: seq<string>)
      modifies this, repo
      ensures var cutoff := now - decayDays * MICROSECONDS_PER_DAY;
        && repo.rows == AfterSweep(old(repo.rows), tenant, cutoff)
        && count == |StaleIds(old(repo.rows), tenant, cutoff)|
        && |batch| == count && (forall i :: i in batch <==> i in StaleIds(old(repo.rows), tenant, cutoff))
      ensures auditLog == old(auditLog) + batch
      ensures repo.rows.Keys == old(repo.rows).Keys && forall i :: i in repo.rows ==>
        var r := old(repo.rows)[i];
        repo.rows[i] == if r.tenant == tenant && r.lifecycle == Active && DaysOld(r, now) > decayDays as real
                        then r.(lifecycle := Decayed) else r
    {
      AgeIsAgainstCutoff(repo.rows, tenant, now, decayDays);
      var cutoff := now - decayDays * MICROSECONDS_PER_DAY;
      var stale := StaleIds(repo.rows, tenant, cutoff);
      var records := NewestFirst(stale, RecordedAt(repo.rows), |stale|);
      SweepCompletes(repo.rows, records, tenant, cutoff);
      batch := records;
      count := Sweep(records, tenant);
    }
  }
}
