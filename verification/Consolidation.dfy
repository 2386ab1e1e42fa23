/** Consolidation passes and decay sweeps run one at a time, against the SQLite store. */
module Consolidation {
  import opened Domain
  import opened Records
  import opened Sql

  datatype Policy = Policy(enabled: bool, threshold: nat, maxItems: nat, sectors: seq<Sector>)

  const LISTING_LIMIT: nat := 100

  /** Whom a pass looks at. Without a scope the code passes principal None, which the SQLite
      adapter turns into the text "None". */
  function ScopeOf(tenant: string, scope: Option<Scope>): Scope {
    if scope.Some? then scope.value else Scope(tenant, "None")
  }

  /** What every sector run of a pass is told. The scope carries a tenant of its own. */
  datatype Job = Job(tenant: string, scope: Scope, policy: Policy)

  function InSector(rows: Rows, ids: seq<string>, sector: Sector): (r: seq<string>)
    requires forall i :: i in ids ==> i in rows
    ensures forall i :: i in r <==> i in ids && rows[i].sector == sector
    ensures |r| <= |ids|
    ensures (forall a, b :: 0 <= a < b < |ids| ==> ids[a] != ids[b]) ==> forall a, b :: 0 <= a < b < |r| ==> r[a] != r[b]
  {
    if ids == [] then []
    else if rows[ids[0]].sector == sector then [ids[0]] + InSector(rows, ids[1..], sector)
    else InSector(rows, ids[1..], sector)
  }

  /** The newline join that stands in for a missing or failing LLM. */
  function JoinLines(texts: seq<string>): string {
    if texts == [] then "" else if |texts| == 1 then texts[0] else texts[0] + "\n" + JoinLines(texts[1..])
  }

  function Payloads(rows: Rows, ids: seq<string>): (r: seq<string>)
    requires forall i :: i in ids ==> i in rows
    ensures |r| == |ids| && forall k :: 0 <= k < |ids| ==> r[k] == rows[ids[k]].payload
  {
    seq(|ids|, k requires 0 <= k < |ids| => rows[ids[k]].payload)
  }

  /** What the outside supplies to one sector run: the LLM's answer if there is one, a fresh id, the
      clock, and how many calls of the audit log succeed before one raises. */
  datatype Supply = Supply(llm: Option<string>, newId: string, now: int, audits: nat)

  function SummaryOf(rows: Rows, batch: seq<string>, tenant: string, sector: Sector, supply: Supply): Record
    requires batch != [] && forall i :: i in batch ==> i in rows
  {
    var text := if supply.llm.Some? then supply.llm.value else JoinLines(Payloads(rows, batch));
    Record(supply.newId, tenant, rows[batch[0]].principal, text, sector, Consolidated, Enriched, supply.now, None)
  }

  /** The table with the summary added and the first n sources of the batch marked. */
  function Merged(rows: Rows, summary: Record, batch: seq<string>, n: nat): Rows
    requires n <= |batch|
  {
    map i | i in rows.Keys + {summary.id} ::
      if i == summary.id then summary
      else if i in batch[..n] then rows[i].(lifecycle := Consolidated)
      else rows[i]
  }

  /** The listing of newest active records that a sector run works from. */
  ghost predicate IsListing(rows: Rows, scope: Scope, listing: seq<string>) {
    IsNewestFirst(InScope(rows, scope, {Active}, true), RecordedAt(rows), LISTING_LIMIT, listing)
  }

  /** The records that a sector run which fires works on. */
  function Cut(found: seq<string>, policy: Policy): seq<string> {
    if |found| <= policy.maxItems then found else found[..policy.maxItems]
  }

  function Batch(rows: Rows, listing: seq<string>, sector: Sector, policy: Policy): seq<string>
    requires forall i :: i in listing ==> i in rows
  {
    var found := InSector(rows, listing, sector);
    if |found| < policy.threshold then [] else Cut(found, policy)
  }

  datatype Outcome = Completed(count: nat) | Raised

  /** How many sources of the batch are marked: none if they belong to another tenant than the job,
      and after a failing audit call no more. */
  function Marked(job: Job, batch: seq<string>, supply: Supply): (n: nat)
    ensures n <= |batch|
  {
    if job.scope.tenant != job.tenant then 0
    else if supply.audits < |batch| then supply.audits + 1
    else |batch|
  }

  /** How many sources of the batch have an audit entry: a source is audited after it is marked. */
  function Audited(job: Job, batch: seq<string>, supply: Supply): (n: nat)
    ensures n <= |batch|
  {
    if job.scope.tenant != job.tenant then 0
    else if supply.audits < |batch| then supply.audits
    else |batch|
  }

  /** One sector run on a listing: below the threshold nothing happens; an empty batch raises; else the
      summary is saved and the sources are marked until something raises. */
  ghost predicate IsSectorRun(rows: Rows, rows': Rows, job: Job, sector: Sector, supply: Supply,
                              outcome: Outcome, listing: seq<string>)
  {
    && IsListing(rows, job.scope, listing)
    && supply.newId !in rows
    && var found := InSector(rows, listing, sector);
       var batch := Cut(found, job.policy);
       if |found| < job.policy.threshold then rows' == rows && outcome == Completed(0)
       else if batch == [] then rows' == rows && outcome == Raised
       else
         CutIsFound(rows, listing, sector, job.policy);
         && rows' == Merged(rows, SummaryOf(rows, batch, job.tenant, sector, supply), batch, Marked(job, batch, supply))
         && outcome == if job.scope.tenant == job.tenant && |batch| <= supply.audits then Completed(|batch|) else Raised
  }

  /** The audit entries of a sector run, in the order of its batch. */
  function AuditEntries(rows: Rows, job: Job, sector: Sector, supply: Supply, listing: seq<string>): seq<string>
    requires forall i :: i in listing ==> i in rows
  {
    var batch := Batch(rows, listing, sector, job.policy);
    batch[..Audited(job, batch, supply)]
  }

  lemma CutIsFound(rows: Rows, listing: seq<string>, sector: Sector, policy: Policy)
    requires forall i :: i in listing ==> i in rows
    ensures forall i :: i in Cut(InSector(rows, listing, sector), policy) ==> i in rows
  {
    assert forall i :: i in Cut(InSector(rows, listing, sector), policy) ==> i in InSector(rows, listing, sector);
  }

  /** The sector runs of a pass that all completed; listings are what they read. */
  ghost predicate IsPass(tables: seq<Rows>, counts: seq<nat>, listings: seq<seq<string>>, job: Job,
                         sectors: seq<Sector>, supplies: seq<Supply>) {
    && |counts| == |listings| == |sectors| == |supplies| && |tables| == |sectors| + 1
    && forall i :: 0 <= i < |sectors| ==>
         IsSectorRun(tables[i], tables[i + 1], job, sectors[i], supplies[i], Completed(counts[i]), listings[i])
  }

  function Sum(counts: seq<nat>): nat {
    if counts == [] then 0 else Sum(counts[..|counts| - 1]) + counts[|counts| - 1]
  }

  /** How many sector runs produced a summary. */
  function Fired(counts: seq<nat>): nat {
    if counts == [] then 0
    else Fired(counts[..|counts| - 1]) + if counts[|counts| - 1] > 0 then 1 else 0
  }

  function ActiveIds(rows: Rows, tenant: string): set<string> {
    set i | i in rows && rows[i].tenant == tenant && rows[i].lifecycle == Active
  }

  /** What a sector run works on are distinct active records of the scope's tenant. */
  lemma BatchIsActive(rows: Rows, scope: Scope, listing: seq<string>, sector: Sector, policy: Policy)
    requires IsListing(rows, scope, listing)
    ensures var batch := Cut(InSector(rows, listing, sector), policy);
      && (forall i :: i in batch ==> i in ActiveIds(rows, scope.tenant))
      && (forall a, b :: 0 <= a < b < |batch| ==> batch[a] != batch[b])
  {
    var found, batch := InSector(rows, listing, sector), Cut(InSector(rows, listing, sector), policy);
    assert forall a, b :: 0 <= a < b < |listing| ==> listing[a] != listing[b];
    forall i | i in batch ensures i in ActiveIds(rows, scope.tenant) {
      assert i in found && i in listing;
      assert i in InScope(rows, scope, {Active}, true);
    }
  }

  lemma SavingStartsTheMerge(rows: Rows, summary: Record, batch: seq<string>)
    requires summary.id !in rows && summary.key.None?
    ensures SqliteSaved(rows, summary) == Merged(rows, summary, batch, 0)
  {
  }

  lemma UpdatingAdvancesTheMerge(rows: Rows, summary: Record, batch: seq<string>, k: nat, tenant: string)
    requires k < |batch| && summary.id !in rows && batch[k] in ActiveIds(rows, tenant)
    ensures TenantCheck(Merged(rows, summary, batch, k), batch[k], tenant).None?
    ensures WithLifecycle(Merged(rows, summary, batch, k), batch[k], tenant, Consolidated)
         == Merged(rows, summary, batch, k + 1)
  {
    assert batch[..k + 1] == batch[..k] + [batch[k]];
    assert Merged(rows, summary, batch, k + 1)[batch[k]] == rows[batch[k]].(lifecycle := Consolidated);
  }

  /** A source of another tenant is not updated: the call raises and the table stays. */
  lemma ForeignUpdateRaises(rows: Rows, summary: Record, batch: seq<string>, tenant: string, other: string)
    requires batch != [] && summary.id !in rows && batch[0] in ActiveIds(rows, other) && tenant != other
    ensures TenantCheck(Merged(rows, summary, batch, 0), batch[0], tenant).Some?
    ensures WithLifecycle(Merged(rows, summary, batch, 0), batch[0], tenant, Consolidated) == Merged(rows, summary, batch, 0)
  {
  }

  lemma PassGrows(tables: seq<Rows>, counts: seq<nat>, listings: seq<seq<string>>, job: Job, sectors: seq<Sector>,
                  supplies: seq<Supply>, i: nat, rows: Rows, count: nat, listing: seq<string>)
    requires i < |sectors| == |supplies| && IsPass(tables, counts, listings, job, sectors[..i], supplies[..i])
    requires IsSectorRun(tables[i], rows, job, sectors[i], supplies[i], Completed(count), listing)
    ensures IsPass(tables + [rows], counts + [count], listings + [listing], job, sectors[..i + 1], supplies[..i + 1])
    ensures Sum(counts + [count]) == Sum(counts) + count
  {
    var tables', counts', listings' := tables + [rows], counts + [count], listings + [listing];
    assert counts'[..i] == counts;
    forall j | 0 <= j < i + 1
      ensures IsSectorRun(tables'[j], tables'[j + 1], job, sectors[..i + 1][j], supplies[..i + 1][j],
                          Completed(counts'[j]), listings'[j])
    {
      if j < i {
        assert IsSectorRun(tables[j], tables[j + 1], job, sectors[..i][j], supplies[..i][j], Completed(counts[j]), listings[j]);
      }
    }
  }

  class ConsolidationService {
    const repo: SqliteRecordRepository
    var auditLog: seq<string>

    constructor (repo: SqliteRecordRepository)
      ensures this.repo == repo && auditLog == []
    {
      this.repo := repo;
      auditLog := [];
    }

    method RunSector(job: Job, sector: Sector, supply: Supply)
      returns (outcome: Outcome, ghost listing: seq<string>)
      requires supply.newId !in repo.rows
      modifies this, repo
      ensures IsSectorRun(old(repo.rows), repo.rows, job, sector, supply, outcome, listing)
      ensures auditLog == old(auditLog) + AuditEntries(old(repo.rows), job, sector, supply, listing)
      ensures repo.rows.Keys <= old(repo.rows.Keys) + {supply.newId}
    {
      ghost var rows := repo.rows;
      var found;
      found, listing := Records(job.scope, sector);
      if |found| < job.policy.threshold {
        return Completed(0), listing;
      }
      var batch := Cut(found, job.policy);
      if batch == [] {
        return Raised, listing;
      }
      BatchIsActive(rows, job.scope, listing, sector, job.policy);
      var summary := SummaryOf(repo.rows, batch, job.tenant, sector, supply);
      var raised := MergeBatch(job, summary, batch, supply);
      outcome := if raised then Raised else Completed(|batch|);
    }

    method Records(scope: Scope, sector: Sector) returns (found: seq<string>, ghost listing: seq<string>)
      ensures IsListing(repo.rows, scope, listing)
      ensures found == InSector(repo.rows, listing, sector)
    {
      var records := repo.ListByScope(scope, {Active}, LISTING_LIMIT);
      found := InSector(repo.rows, records, sector);
      listing := records;
    }

    /** One source: its transition, then its audit entry, either of which may raise. */
    method MarkSource(job: Job, batch: seq<string>, k: nat, supply: Supply, ghost rows: Rows, ghost summary: Record)
      returns (raised: bool)
      requires k < |batch| && summary.id !in rows && batch[k] in ActiveIds(rows, job.scope.tenant)
      requires repo.rows == Merged(rows, summary, batch, k) && (job.scope.tenant != job.tenant ==> k == 0)
      modifies this, repo
      ensures repo.rows == Merged(rows, summary, batch, if job.scope.tenant == job.tenant then k + 1 else 0)
      ensures raised <==> job.scope.tenant != job.tenant || k == supply.audits
      ensures auditLog == old(auditLog) + if raised then [] else [batch[k]]
    {
      if job.scope.tenant == job.tenant {
        UpdatingAdvancesTheMerge(rows, summary, batch, k, job.tenant);
      } else {
        ForeignUpdateRaises(rows, summary, batch, job.tenant, job.scope.tenant);
      }
      var error := repo.UpdateLifecycle(batch[k], job.tenant, Consolidated);
      if error.Some? || k == supply.audits {
        return true;
      }
      auditLog := auditLog + [batch[k]];
      raised := false;
    }

    /** The loop over the sources: how far it gets is what Marked says. */
    method MarkSources(job: Job, batch: seq<string>, supply: Supply, ghost rows: Rows, ghost summary: Record)
      returns (raised: bool)
      requires summary.id !in rows && repo.rows == Merged(rows, summary, batch, 0)
      requires batch != [] && forall i :: i in batch ==> i in ActiveIds(rows, job.scope.tenant)
      modifies this, repo
      ensures repo.rows == Merged(rows, summary, batch, Marked(job, batch, supply))
      ensures raised <==> job.scope.tenant != job.tenant || supply.audits < |batch|
      ensures auditLog == old(auditLog) + batch[..Audited(job, batch, supply)]
    {
      for k := 0 to |batch|
        invariant repo.rows == Merged(rows, summary, batch, k)
        invariant auditLog == old(auditLog) + batch[..k]
        invariant k <= supply.audits && (k > 0 ==> job.scope.tenant == job.tenant)
      {
        assert batch[k] in batch;
        raised := MarkSource(job, batch, k, supply, rows, summary);
        if raised {
          assert Marked(job, batch, supply) == if job.scope.tenant == job.tenant then k + 1 else 0;
          return;
        }
      }
      assert Audited(job, batch, supply) == |batch|;
      raised := false;
    }

    method MergeBatch(job: Job, summary: Record, batch: seq<string>, supply: Supply) returns (raised: bool)
      requires summary.id !in repo.rows && summary.key.None? && batch != []
      requires forall i :: i in batch ==> i in ActiveIds(repo.rows, job.scope.tenant)
      modifies this, repo
      ensures repo.rows == Merged(old(repo.rows), summary, batch, Marked(job, batch, supply))
      ensures raised <==> job.scope.tenant != job.tenant || supply.audits < |batch|
      ensures auditLog == old(auditLog) + batch[..Audited(job, batch, supply)]
    {
      ghost var rows := repo.rows;
      repo.Save(summary);
      SavingStartsTheMerge(rows, summary, batch);
      raised := MarkSources(job, batch, supply, rows, summary);
    }

    method Execute(tenant: string, scope: Option<Scope>, policy: Policy, supplies: seq<Supply>)
      returns (raised: bool, total: nat, ghost tables: seq<Rows>, ghost counts: seq<nat>, ghost listings: seq<seq<string>>)
      requires |supplies| == |policy.sectors|
      requires forall i :: 0 <= i < |supplies| ==> supplies[i].newId !in repo.rows
      requires forall i, j :: 0 <= i < j < |supplies| ==> supplies[i].newId != supplies[j].newId
      modifies this, repo
      ensures !policy.enabled ==> !raised && total == 0 && repo.rows == old(repo.rows) && auditLog == old(auditLog)
      ensures policy.enabled ==>
        var job := Job(tenant, if scope.Some? then scope.value else Scope(tenant, "None"), policy); var n := |counts|;
        && n <= |policy.sectors| && IsPass(tables, counts, listings, job, policy.sectors[..n], supplies[..n])
        && tables[0] == old(repo.rows) && total == Sum(counts)
        && if raised then n < |policy.sectors| && exists listing ::
                            && IsSectorRun(tables[n], repo.rows, job, policy.sectors[n], supplies[n], Raised, listing)
                            && |auditLog| == |old(auditLog)| + total
                                 + |AuditEntries(tables[n], job, policy.sectors[n], supplies[n], listing)|
           else n == |policy.sectors| && tables[n] == repo.rows && |auditLog| == |old(auditLog)| + total
    {
      raised, total, tables, counts, listings := false, 0, [repo.rows], [], [];
      if !policy.enabled {
        return;
      }
      var job := Job(tenant, ScopeOf(tenant, scope), policy);
      for i := 0 to |policy.sectors|
        invariant |tables| == i + 1 && |counts| == i
        invariant IsPass(tables, counts, listings, job, policy.sectors[..i], supplies[..i])
        invariant tables[0] == old(repo.rows) && tables[i] == repo.rows
        invariant total == Sum(counts)
        invariant |auditLog| == |old(auditLog)| + total
        invariant forall j :: i <= j < |supplies| ==> supplies[j].newId !in repo.rows
      {
        ghost var listing;
        var outcome;
        outcome, listing := RunSector(job, policy.sectors[i], supplies[i]);
        if outcome.Raised? {
          raised := true;
          return;
        }
        PassGrows(tables, counts, listings, job, policy.sectors, supplies, i, repo.rows, outcome.count, listing);
        tables, counts, listings := tables + [repo.rows], counts + [outcome.count], listings + [listing];
        total := total + outcome.count;
      }
    }
  }

  // ---------------------------------------------------------------- the measure

  lemma MergingTakesMarkedOutOfActive(rows: Rows, summary: Record, batch: seq<string>, n: nat, tenant: string)
    requires summary.id !in rows && summary.lifecycle == Consolidated && n <= |batch|
    ensures ActiveIds(Merged(rows, summary, batch, n), tenant) == ActiveIds(rows, tenant) - set i | i in batch[..n]
  {
  }

  lemma MergingCounts(rows: Rows, summary: Record, batch: seq<string>, n: nat, tenant: string)
    requires summary.id !in rows && summary.lifecycle == Consolidated && n <= |batch|
    requires forall i :: i in batch ==> i in ActiveIds(rows, tenant)
    requires forall a, b :: 0 <= a < b < |batch| ==> batch[a] != batch[b]
    ensures |ActiveIds(Merged(rows, summary, batch, n), tenant)| + n == |ActiveIds(rows, tenant)|
    ensures |Merged(rows, summary, batch, n)| == |rows| + 1
  {
    MergingTakesMarkedOutOfActive(rows, summary, batch, n, tenant);
    var marked := set i | i in batch[..n];
    assert marked <= ActiveIds(rows, tenant);
    DistinctCount(batch[..n]);
    MergedSize(rows, summary, batch, n);
  }

  lemma MergedSize(rows: Rows, summary: Record, batch: seq<string>, n: nat)
    requires summary.id !in rows && n <= |batch|
    ensures |Merged(rows, summary, batch, n)| == |rows| + 1
  {
    var rows' := Merged(rows, summary, batch, n);
    assert rows'.Keys == rows.Keys + {summary.id};
    assert |rows'| == |rows'.Keys| && |rows| == |rows.Keys|;
  }

  /** A sector run, completed or not, takes exactly the marked sources out of ACTIVE and adds one
      CONSOLIDATED record if it had a batch; a completed one reports the number of sources. */
  lemma SectorRunCounts(rows: Rows, rows': Rows, job: Job, sector: Sector, supply: Supply, outcome: Outcome,
                        listing: seq<string>)
    requires IsSectorRun(rows, rows', job, sector, supply, outcome, listing)
    ensures var batch := Batch(rows, listing, sector, job.policy); var tenant := job.scope.tenant;
      && |ActiveIds(rows', tenant)| + Marked(job, batch, supply) == |ActiveIds(rows, tenant)|
      && |rows'| == |rows| + (if batch != [] then 1 else 0)
      && (if batch == [] then rows' == rows
          else supply.newId in rows' && supply.newId !in rows && rows'[supply.newId].lifecycle == Consolidated)
      && (outcome.Completed? ==> outcome.count == |batch| && (batch != [] ==> Marked(job, batch, supply) == |batch|))
  {
    var batch := Batch(rows, listing, sector, job.policy);
    if batch != [] {
      BatchIsActive(rows, job.scope, listing, sector, job.policy);
      MergingCounts(rows, SummaryOf(rows, batch, job.tenant, sector, supply), batch, Marked(job, batch, supply),
                    job.scope.tenant);
    }
  }

  /** The sources that leave ACTIVE in a sector run are the marked ones. */
  lemma LeftIsMarked(rows: Rows, rows': Rows, job: Job, sector: Sector, supply: Supply, outcome: Outcome,
                     listing: seq<string>)
    requires IsSectorRun(rows, rows', job, sector, supply, outcome, listing)
    ensures var batch := Batch(rows, listing, sector, job.policy);
      && Left(rows, rows', job) == (set i | i in batch[..Marked(job, batch, supply)])
      && (forall i :: i in batch[..Marked(job, batch, supply)] ==> i in rows' && rows'[i].lifecycle == Consolidated)
      && (forall a, b :: 0 <= a < b < |batch| ==> batch[a] != batch[b])
  {
    var batch := Batch(rows, listing, sector, job.policy);
    BatchIsActive(rows, job.scope, listing, sector, job.policy);
    if batch != [] {
      var summary, n := SummaryOf(rows, batch, job.tenant, sector, supply), Marked(job, batch, supply);
      MergingTakesMarkedOutOfActive(rows, summary, batch, n, job.scope.tenant);
      assert forall i :: i in batch[..n] ==> i in batch;
    }
  }

  function Left(rows: Rows, rows': Rows, job: Job): set<string> {
    ActiveIds(rows, job.scope.tenant) - ActiveIds(rows', job.scope.tenant)
  }

  /** Of distinct sources a longer prefix holds one that a shorter one does not. */
  lemma PrefixesDiffer(batch: seq<string>, n: nat, m: nat)
    requires n <= m <= |batch| && forall a, b :: 0 <= a < b < |batch| ==> batch[a] != batch[b]
    ensures |set i | i in batch[..m]| == m
    ensures forall i :: i in batch[..n] ==> i in batch[..m]
    ensures (forall i :: i in batch[..m] ==> i in batch[..n]) <==> n == m
  {
    DistinctCount(batch[..m]);
    assert batch[..n] == batch[..m][..n];
    if n < m {
      assert batch[..m][n] == batch[n];
      assert batch[n] !in batch[..n];
    }
  }

  /** The audit log in a sector run: what it gained are marked sources; there is one more marked source
      than entries if an audit call raised, and otherwise there are as many, so every source that left
      ACTIVE is audited exactly when no audit call raised. */
  lemma EveryMarkIsAuditedIff(rows: Rows, rows': Rows, job: Job, sector: Sector, supply: Supply, outcome: Outcome,
                              listing: seq<string>)
    requires IsSectorRun(rows, rows', job, sector, supply, outcome, listing)
    ensures var entries, left := AuditEntries(rows, job, sector, supply, listing), Left(rows, rows', job);
      var raised := AuditRaises(job, Batch(rows, listing, sector, job.policy), supply);
      && entries <= Batch(rows, listing, sector, job.policy)
      && |entries| == (if job.scope.tenant != job.tenant then 0
                       else if raised then supply.audits else |Batch(rows, listing, sector, job.policy)|)
      && (forall i :: i in entries ==> i in left && i in rows' && rows'[i].lifecycle == Consolidated)
      && |left| == |entries| + (if raised then 1 else 0)
      && ((forall i :: i in left ==> i in entries) <==> !raised)
  {
    var batch := Batch(rows, listing, sector, job.policy);
    LeftIsMarked(rows, rows', job, sector, supply, outcome, listing);
    PrefixesDiffer(batch, Audited(job, batch, supply), Marked(job, batch, supply));
  }

  /** Some source was marked and the audit call for it raised. */
  predicate AuditRaises(job: Job, batch: seq<string>, supply: Supply) {
    job.scope.tenant == job.tenant && supply.audits < |batch|
  }

  /** A completed sector run reports 0 exactly when its listing held too few records of the sector. */
  lemma CountIsZeroIff(rows: Rows, rows': Rows, job: Job, sector: Sector, supply: Supply, count: nat, listing: seq<string>)
    requires IsSectorRun(rows, rows', job, sector, supply, Completed(count), listing)
    ensures count == 0 <==> |InSector(rows, listing, sector)| < job.policy.threshold
    ensures count == 0 ==> rows' == rows
  {
  }

  /** A whole pass returns exactly the drop in ACTIVE records, adds one record per sector that fired,
      and a pass that returns 0 changed nothing. */
  lemma {:induction false} PassCounts(tables: seq<Rows>, counts: seq<nat>, listings: seq<seq<string>>, job: Job,
                                      sectors: seq<Sector>, supplies: seq<Supply>)
    requires IsPass(tables, counts, listings, job, sectors, supplies)
    ensures var last := tables[|sectors|];
      && |ActiveIds(last, job.scope.tenant)| + Sum(counts) == |ActiveIds(tables[0], job.scope.tenant)|
      && |last| == |tables[0]| + Fired(counts)
      && (Sum(counts) == 0 ==> last == tables[0])
    decreases |sectors|
  {
    if sectors != [] {
      var n := |sectors| - 1;
      PassCounts(tables[..n + 1], counts[..n], listings[..n], job, sectors[..n], supplies[..n]);
      SectorRunCounts(tables[n], tables[n + 1], job, sectors[n], supplies[n], Completed(counts[n]), listings[n]);
      CountIsZeroIff(tables[n], tables[n + 1], job, sectors[n], supplies[n], counts[n], listings[n]);
    }
  }

  lemma {:induction false} ZeroSumIffAllZero(counts: seq<nat>)
    ensures Sum(counts) == 0 <==> forall i :: 0 <= i < |counts| ==> counts[i] == 0
  {
    if counts != [] {
      var n := |counts| - 1;
      ZeroSumIffAllZero(counts[..n]);
      assert forall i :: 0 <= i < n ==> counts[..n][i] == counts[i];
    }
  }

  /** CountIsZeroIff for the k-th run of a pass. */
  lemma QuietRun(tables: seq<Rows>, counts: seq<nat>, listings: seq<seq<string>>, job: Job, sectors: seq<Sector>,
                 supplies: seq<Supply>, k: nat)
    requires IsPass(tables, counts, listings, job, sectors, supplies) && k < |sectors|
    ensures IsListing(tables[k], job.scope, listings[k])
    ensures counts[k] == 0 <==> |InSector(tables[k], listings[k], sectors[k])| < job.policy.threshold
    ensures counts[k] == 0 ==> tables[k + 1] == tables[k]
  {
    CountIsZeroIff(tables[k], tables[k + 1], job, sectors[k], supplies[k], counts[k], listings[k]);
  }

  lemma {:induction false} PrefixUnchanged(tables: seq<Rows>, counts: seq<nat>, listings: seq<seq<string>>, job: Job,
                                           sectors: seq<Sector>, supplies: seq<Supply>, k: nat)
    requires IsPass(tables, counts, listings, job, sectors, supplies) && k <= |sectors|
    requires forall i :: 0 <= i < k ==> counts[i] == 0
    ensures tables[k] == tables[0]
  {
    if k > 0 {
      PrefixUnchanged(tables, counts, listings, job, sectors, supplies, k - 1);
      QuietRun(tables, counts, listings, job, sectors, supplies, k - 1);
    }
  }

  /** Every sector has fewer than threshold records in the listing that its run read of the table the
      pass began with. */
  ghost predicate AllBelowThreshold(tables: seq<Rows>, listings: seq<seq<string>>, job: Job, sectors: seq<Sector>)
    requires |listings| == |sectors| && |tables| == |sectors| + 1
  {
    forall k :: 0 <= k < |sectors| ==>
      IsListing(tables[0], job.scope, listings[k]) && |InSector(tables[0], listings[k], sectors[k])| < job.policy.threshold
  }

  lemma BelowThresholdStep(tables: seq<Rows>, counts: seq<nat>, listings: seq<seq<string>>, job: Job,
                           sectors: seq<Sector>, supplies: seq<Supply>, k: nat)
    requires IsPass(tables, counts, listings, job, sectors, supplies) && k < |sectors|
    requires AllBelowThreshold(tables, listings, job, sectors) && tables[k] == tables[0]
    ensures tables[k + 1] == tables[0] && counts[k] == 0
  {
    QuietRun(tables, counts, listings, job, sectors, supplies, k);
  }

  lemma {:induction false} BelowThresholdChangesNothing(
    tables: seq<Rows>, counts: seq<nat>, listings: seq<seq<string>>, job: Job, sectors: seq<Sector>,
    supplies: seq<Supply>, k: nat)
    requires IsPass(tables, counts, listings, job, sectors, supplies) && k <= |sectors|
    requires AllBelowThreshold(tables, listings, job, sectors)
    ensures tables[k] == tables[0] && forall i :: 0 <= i < k ==> counts[i] == 0
  {
    if k > 0 {
      BelowThresholdChangesNothing(tables, counts, listings, job, sectors, supplies, k - 1);
      BelowThresholdStep(tables, counts, listings, job, sectors, supplies, k - 1);
    }
  }

  /** A pass returns 0 exactly when the table it began with is a fixpoint for what its runs read. */
  lemma PassIsZeroIff(tables: seq<Rows>, counts: seq<nat>, listings: seq<seq<string>>, job: Job,
                      sectors: seq<Sector>, supplies: seq<Supply>)
    requires IsPass(tables, counts, listings, job, sectors, supplies)
    ensures Sum(counts) == 0 <==> AllBelowThreshold(tables, listings, job, sectors)
  {
    ZeroSumIffAllZero(counts);
    if Sum(counts) == 0 {
      forall k | 0 <= k < |sectors|
        ensures IsListing(tables[0], job.scope, listings[k])
                && |InSector(tables[0], listings[k], sectors[k])| < job.policy.threshold
      {
        PrefixUnchanged(tables, counts, listings, job, sectors, supplies, k);
        QuietRun(tables, counts, listings, job, sectors, supplies, k);
      }
    }
    if AllBelowThreshold(tables, listings, job, sectors) {
      BelowThresholdChangesNothing(tables, counts, listings, job, sectors, supplies, |sectors|);
    }
  }

  /** The active records of the scope in one sector. */
  function Candidates(rows: Rows, scope: Scope, sector: Sector): set<string> {
    set i | i in InScope(rows, scope, {Active}, true) && rows[i].sector == sector
  }

  /** A listing that reached every active record in scope counts a sector completely. */
  lemma SmallScopeIsCounted(rows: Rows, scope: Scope, listing: seq<string>, sector: Sector)
    requires IsListing(rows, scope, listing) && |InScope(rows, scope, {Active}, true)| <= LISTING_LIMIT
    ensures |InSector(rows, listing, sector)| == |Candidates(rows, scope, sector)|
  {
    var all := InScope(rows, scope, {Active}, true);
    ListingCovers(all, RecordedAt(rows), LISTING_LIMIT, listing);
    var found := InSector(rows, listing, sector);
    DistinctCount(found);
    assert Candidates(rows, scope, sector) == set i | i in found;
  }

  /** With at most 100 active records in scope a pass returns 0 exactly when every policy sector has
      fewer than threshold of them. */
  lemma SmallScopePassIsZeroIff(tables: seq<Rows>, counts: seq<nat>, listings: seq<seq<string>>, job: Job,
                                sectors: seq<Sector>, supplies: seq<Supply>)
    requires IsPass(tables, counts, listings, job, sectors, supplies)
    requires |InScope(tables[0], job.scope, {Active}, true)| <= 100
    ensures Sum(counts) == 0 <==>
      forall k :: 0 <= k < |sectors| ==> |Candidates(tables[0], job.scope, sectors[k])| < job.policy.threshold
  {
    PassIsZeroIff(tables, counts, listings, job, sectors, supplies);
    ZeroSumIffAllZero(counts);
    if Sum(counts) == 0 {
      forall k | 0 <= k < |sectors| ensures |Candidates(tables[0], job.scope, sectors[k])| < job.policy.threshold {
        SmallScopeIsCounted(tables[0], job.scope, listings[k], sectors[k]);
      }
    }
    if forall k :: 0 <= k < |sectors| ==> |Candidates(tables[0], job.scope, sectors[k])| < job.policy.threshold {
      FewCandidatesChangeNothing(tables, counts, listings, job, sectors, supplies, |sectors|);
    }
  }

  lemma FewCandidatesQuietRun(tables: seq<Rows>, counts: seq<nat>, listings: seq<seq<string>>, job: Job,
                              sectors: seq<Sector>, supplies: seq<Supply>, k: nat)
    requires IsPass(tables, counts, listings, job, sectors, supplies) && k < |sectors|
    requires |InScope(tables[k], job.scope, {Active}, true)| <= LISTING_LIMIT
    requires |Candidates(tables[k], job.scope, sectors[k])| < job.policy.threshold
    ensures counts[k] == 0 && tables[k + 1] == tables[k]
  {
    QuietRun(tables, counts, listings, job, sectors, supplies, k);
    SmallScopeIsCounted(tables[k], job.scope, listings[k], sectors[k]);
  }

  lemma {:induction false} FewCandidatesChangeNothing(
    tables: seq<Rows>, counts: seq<nat>, listings: seq<seq<string>>, job: Job, sectors: seq<Sector>,
    supplies: seq<Supply>, k: nat)
    requires IsPass(tables, counts, listings, job, sectors, supplies) && k <= |sectors|
    requires |InScope(tables[0], job.scope, {Active}, true)| <= LISTING_LIMIT
    requires forall i :: 0 <= i < k ==> |Candidates(tables[0], job.scope, sectors[i])| < job.policy.threshold
    ensures tables[k] == tables[0] && forall i :: 0 <= i < k ==> counts[i] == 0
  {
    if k > 0 {
      FewCandidatesChangeNothing(tables, counts, listings, job, sectors, supplies, k - 1);
      FewCandidatesQuietRun(tables, counts, listings, job, sectors, supplies, k - 1);
    }
  }

  /** The listing holds at most 100 records, so a larger threshold makes every pass a no-op. */
  lemma LargeThresholdIsNoop(tables: seq<Rows>, counts: seq<nat>, listings: seq<seq<string>>, job: Job,
                             sectors: seq<Sector>, supplies: seq<Supply>)
    requires IsPass(tables, counts, listings, job, sectors, supplies) && job.policy.threshold > 100
    ensures Sum(counts) == 0 && tables[|sectors|] == tables[0]
  {
    ZeroSumIffAllZero(counts);
    forall k | 0 <= k < |sectors| ensures counts[k] == 0 {
      QuietRun(tables, counts, listings, job, sectors, supplies, k);
    }
    PrefixUnchanged(tables, counts, listings, job, sectors, supplies, |sectors|);
  }

  /** A pass without a scope, as the scheduler runs it, reads the records of the principal "None" on
      SQLite and of nobody else. */
  lemma UnscopedPassReads(rows: Rows, tenant: string, sector: Sector)
    ensures Candidates(rows, ScopeOf(tenant, None), sector) ==
      set i | i in rows && rows[i].tenant == tenant && rows[i].principal == "None"
              && rows[i].lifecycle == Active && rows[i].sector == sector
  {
  }

  /** Such a pass consolidates nothing exactly when no policy sector has threshold active records of
      that principal, as long as it has no more than a listing shows. */
  lemma UnscopedPassIsNoopIff(tables: seq<Rows>, counts: seq<nat>, listings: seq<seq<string>>, tenant: string,
                              policy: Policy, supplies: seq<Supply>)
    requires IsPass(tables, counts, listings, Job(tenant, ScopeOf(tenant, None), policy), policy.sectors, supplies)
    requires |InScope(tables[0], ScopeOf(tenant, None), {Active}, true)| <= 100
    ensures Sum(counts) == 0 <==> forall k :: 0 <= k < |policy.sectors| ==>
      |set i | i in tables[0] && tables[0][i].tenant == tenant && tables[0][i].principal == "None"
               && tables[0][i].lifecycle == Active && tables[0][i].sector == policy.sectors[k]| < policy.threshold
    ensures Sum(counts) == 0 ==> tables[|policy.sectors|] == tables[0]
  {
    var job := Job(tenant, ScopeOf(tenant, None), policy);
    SmallScopePassIsZeroIff(tables, counts, listings, job, policy.sectors, supplies);
    PassCounts(tables, counts, listings, job, policy.sectors, supplies);
    forall k | 0 <= k < |policy.sectors|
      ensures |Candidates(tables[0], job.scope, policy.sectors[k])| ==
        |set i | i in tables[0] && tables[0][i].tenant == tenant && tables[0][i].principal == "None"
                 && tables[0][i].lifecycle == Active && tables[0][i].sector == policy.sectors[k]|
    {
      UnscopedPassReads(tables[0], tenant, policy.sectors[k]);
    }
  }

  /** A completed pass that consolidated something. */
  ghost predicate ProductivePass(rows: Rows, rows': Rows, job: Job) {
    exists tables, counts, listings, supplies ::
      && IsPass(tables, counts, listings, job, job.policy.sectors, supplies)
      && tables[0] == rows && tables[|job.policy.sectors|] == rows' && Sum(counts) > 0
  }

  lemma ProductivePassShrinks(rows: Rows, rows': Rows, job: Job)
    requires ProductivePass(rows, rows', job)
    ensures |ActiveIds(rows', job.scope.tenant)| < |ActiveIds(rows, job.scope.tenant)|
  {
    var tables, counts, listings, supplies :|
      && IsPass(tables, counts, listings, job, job.policy.sectors, supplies)
      && tables[0] == rows && tables[|job.policy.sectors|] == rows' && Sum(counts) > 0;
    PassCounts(tables, counts, listings, job, job.policy.sectors, supplies);
  }

  /** Repeated passes reach a fixpoint: there are at most as many productive passes in a row as there
      were active records. */
  lemma {:induction false} PassesReachFixpoint(states: seq<Rows>, job: Job)
    requires states != []
    requires forall i, j :: 0 <= i < |states| && j == i + 1 && j < |states| ==> ProductivePass(states[i], states[j], job)
    ensures |states| - 1 <= |ActiveIds(states[0], job.scope.tenant)|
  {
    if |states| > 1 {
      ProductivePassShrinks(states[0], states[1], job);
      forall i, j | 0 <= i < |states[1..]| && j == i + 1 && j < |states[1..]|
        ensures ProductivePass(states[1..][i], states[1..][j], job)
      {
        assert ProductivePass(states[i + 1], states[j + 1], job);
      }
      PassesReachFixpoint(states[1..], job);
    }
  }
}
