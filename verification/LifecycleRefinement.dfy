/** The sequential consolidation and decay services are interleavings of the lifecycle protocol: a sector run
    and a sweep that nothing interrupts are runs of one process. */
module LifecycleRefinement {
  import opened Domain
  import opened Records
  import opened Runs
  import opened LifecycleProtocol
  import C = Consolidation
  import D = Decay

  ghost function Taken(s: State, a: Action): (s': State)
    requires Enabled(s, a)
    ensures Next(s, s')
  {
    Apply(s, a)
  }

  /** Process p is about to mark source k of the batch. */
  ghost predicate MarksNext(s: State, p: nat, rows: Rows, summary: Record, batch: seq<string>, k: nat) {
    && k <= |batch| && s.rows == C.Merged(rows, summary, batch, k)
    && PcOf(s, p) == Updating(summary.id, summary.tenant, batch, k)
  }

  /** What stays the same while a run marks its sources. */
  ghost predicate SameButRows(s: State, s': State, p: nat) {
    s' == s.(rows := s'.rows, procs := s'.procs) && p in s'.procs && s'.procs == s.procs[p := s'.procs[p]]
  }

  lemma OneSource(s: State, p: nat, rows: Rows, summary: Record, batch: seq<string>, k: nat) returns (marked: State)
    requires MarksNext(s, p, rows, summary, batch, k) && k < |batch|
    requires summary.id !in rows && batch[k] in C.ActiveIds(rows, summary.tenant)
    ensures Next(s, marked) && SameButRows(s, marked, p)
    ensures marked.rows == C.Merged(rows, summary, batch, k + 1)
    ensures PcOf(marked, p) == Reporting(summary.id, summary.tenant, batch, k)
  {
    C.UpdatingAdvancesTheMerge(rows, summary, batch, k, summary.tenant);
    marked := Taken(s, UpdateSource(p));
  }

  /** The first n sources are marked and reported. */
  lemma {:induction false} SourcesAreMarked(s: State, p: nat, rows: Rows, summary: Record, batch: seq<string>, n: nat)
    returns (steps: seq<State>)
    requires MarksNext(s, p, rows, summary, batch, 0) && n <= |batch| && summary.id !in rows
    requires forall i :: i in batch ==> i in C.ActiveIds(rows, summary.tenant)
    ensures IsPath(Next, s, steps)
    ensures MarksNext(steps[|steps| - 1], p, rows, summary, batch, n) && SameButRows(s, steps[|steps| - 1], p)
  {
    if n == 0 {
      steps := [s];
      assert s.procs == s.procs[p := s.procs[p]];
    } else {
      var before := SourcesAreMarked(s, p, rows, summary, batch, n - 1);
      var last := before[|before| - 1];
      assert batch[n - 1] in batch;
      var marked := OneSource(last, p, rows, summary, batch, n - 1);
      var reported := Taken(marked, Report(p));
      assert SameButRows(s, reported, p) by {
        assert reported.procs == s.procs[p := reported.procs[p]];
      }
      steps := Chained(Next, s, before, [last, marked, reported]);
    }
  }

  /** The batch is listed and summarised and the summary stored. */
  lemma SummaryIsStored(s: State, p: nat, job: C.Job, sector: Sector, batch: seq<string>, summary: Record)
    returns (steps: seq<State>)
    requires PcOf(s, p).Idle? && summary.id !in s.issued && batch != []
    requires forall i :: i in batch ==> i in C.ActiveIds(s.rows, job.scope.tenant) && s.rows[i].sector == sector
    requires summary == Record(summary.id, job.tenant, summary.principal, summary.payload, sector, Consolidated, Enriched,
                               summary.recordedAt, None)
    requires summary.id !in s.rows
    ensures IsPath(Next, s, steps)
    ensures var last := steps[|steps| - 1];
      && MarksNext(last, p, s.rows, summary, batch, 0)
      && last.lineage == s.lineage[summary.id := batch] && last.semantics == s.semantics
      && last.issued == s.issued + {summary.id} && p in last.procs && last.procs == s.procs[p := last.procs[p]]
  {
    var s1 := Taken(s, List(p, job.tenant, job.scope.tenant, sector, batch));
    var s2 := Taken(s1, Summarise(p, summary.id, summary.principal, summary.payload, summary.recordedAt));
    var s3 := Taken(s2, SaveSummary(p));
    C.SavingStartsTheMerge(s.rows, summary, batch);
    assert s3.procs == s.procs[p := s3.procs[p]];
    steps := [s, s1, s2, s3];
  }

  /** The run gives up at the source it has come to: that one is of another tenant, or it is marked and its
      audit call raises. Or it has marked them all and is done. */
  lemma RunEnds(s: State, p: nat, rows: Rows, summary: Record, batch: seq<string>, k: nat, raises: bool) returns (steps: seq<State>)
    requires MarksNext(s, p, rows, summary, batch, k) && summary.id !in rows
    requires raises ==> k < |batch| && batch[k] in C.ActiveIds(rows, summary.tenant)
    ensures IsPath(Next, s, steps)
    ensures var last := steps[|steps| - 1];
      && last.rows == C.Merged(rows, summary, batch, if raises then k + 1 else k)
      && last == s.(rows := last.rows, procs := s.procs[p := Idle])
  {
    if raises {
      var marked := OneSource(s, p, rows, summary, batch, k);
      var last := Taken(marked, Abort(p));
      assert last.procs == s.procs[p := Idle];
      steps := [s, marked, last];
    } else {
      steps := [s, Taken(s, Abort(p))];
    }
  }

  lemma SourcesMarkedUpTo(s: State, p: nat, rows: Rows, summary: Record, batch: seq<string>, n: nat, job: C.Job)
    returns (steps: seq<State>)
    requires MarksNext(s, p, rows, summary, batch, 0) && n <= |batch| && summary.id !in rows && summary.tenant == job.tenant
    requires forall i :: i in batch ==> i in C.ActiveIds(rows, job.scope.tenant)
    requires job.scope.tenant != job.tenant ==> n == 0
    ensures IsPath(Next, s, steps)
    ensures MarksNext(steps[|steps| - 1], p, rows, summary, batch, n) && SameButRows(s, steps[|steps| - 1], p)
  {
    if n == 0 {
      steps := [s];
      assert s.procs == s.procs[p := s.procs[p]];
    } else {
      steps := SourcesAreMarked(s, p, rows, summary, batch, n);
    }
  }

  /** From the stored summary to the end of the run: as many sources are marked as Marked says. */
  lemma MarkingIsAPath(s: State, p: nat, rows: Rows, job: C.Job, batch: seq<string>, summary: Record, supply: C.Supply)
    returns (steps: seq<State>)
    requires MarksNext(s, p, rows, summary, batch, 0) && summary.id !in rows && summary.tenant == job.tenant
    requires forall i :: i in batch ==> i in C.ActiveIds(rows, job.scope.tenant)
    ensures IsPath(Next, s, steps)
    ensures steps[|steps| - 1] == s.(rows := C.Merged(rows, summary, batch, C.Marked(job, batch, supply)), procs := s.procs[p := Idle])
  {
    var raises := C.AuditRaises(job, batch, supply);
    var n := if job.scope.tenant != job.tenant then 0 else if raises then supply.audits else |batch|;
    var marked := SourcesMarkedUpTo(s, p, rows, summary, batch, n, job);
    var last := marked[|marked| - 1];
    if raises { assert batch[n] in batch; }
    var ended := RunEnds(last, p, rows, summary, batch, n, raises);
    assert s.procs[p := Idle] == last.procs[p := Idle];
    steps := Chained(Next, s, marked, ended);
  }

  /** A sector run that had a batch is a run of one process that ends in the same table, with the batch as
      the lineage of the summary. */
  lemma SectorRunIsAnInterleaving(s: State, p: nat, rows': Rows, job: C.Job, sector: Sector, supply: C.Supply,
                                  outcome: C.Outcome, listing: seq<string>) returns (steps: seq<State>)
    requires PcOf(s, p).Idle? && supply.newId !in s.issued
    requires C.IsSectorRun(s.rows, rows', job, sector, supply, outcome, listing)
    requires C.Batch(s.rows, listing, sector, job.policy) != []
    ensures IsPath(Next, s, steps)
    ensures steps[|steps| - 1] == s.(rows := rows', issued := s.issued + {supply.newId}, procs := s.procs[p := Idle],
      lineage := s.lineage[supply.newId := C.Batch(s.rows, listing, sector, job.policy)])
  {
    var batch := C.Batch(s.rows, listing, sector, job.policy);
    C.BatchIsActive(s.rows, job.scope, listing, sector, job.policy);
    BatchIsOfSector(s.rows, listing, sector, job.policy);
    var summary := C.SummaryOf(s.rows, batch, job.tenant, sector, supply);
    assert rows' == C.Merged(s.rows, summary, batch, C.Marked(job, batch, supply));
    steps := MergeIsAPath(s, p, job, sector, batch, summary, supply);
  }

  lemma MergeIsAPath(s: State, p: nat, job: C.Job, sector: Sector, batch: seq<string>, summary: Record, supply: C.Supply)
    returns (steps: seq<State>)
    requires PcOf(s, p).Idle? && summary.id !in s.issued && summary.id !in s.rows && batch != []
    requires forall i :: i in batch ==> i in C.ActiveIds(s.rows, job.scope.tenant) && s.rows[i].sector == sector
    requires summary == Record(summary.id, job.tenant, summary.principal, summary.payload, sector, Consolidated, Enriched,
                               summary.recordedAt, None)
    ensures IsPath(Next, s, steps)
    ensures steps[|steps| - 1] == s.(rows := C.Merged(s.rows, summary, batch, C.Marked(job, batch, supply)),
      issued := s.issued + {summary.id}, procs := s.procs[p := Idle], lineage := s.lineage[summary.id := batch])
  {
    var stored := SummaryIsStored(s, p, job, sector, batch, summary);
    var last := stored[|stored| - 1];
    var marked := MarkingIsAPath(last, p, s.rows, job, batch, summary, supply);
    assert last.procs[p := Idle] == s.procs[p := Idle];
    steps := Chained(Next, s, stored, marked);
  }

  lemma BatchIsOfSector(rows: Rows, listing: seq<string>, sector: Sector, policy: C.Policy)
    requires forall i :: i in listing ==> i in rows
    ensures forall i :: i in C.Batch(rows, listing, sector, policy) ==> i in rows && rows[i].sector == sector
  {
    var found := C.InSector(rows, listing, sector);
    assert forall i :: i in C.Cut(found, policy) ==> i in found;
  }

  // ---------------------------------------------------------------- sweeps

  lemma {:induction false} RecordsDecay(s: State, p: nat, tenant: string, batch: seq<string>, n: nat) returns (steps: seq<State>)
    requires PcOf(s, p) == Sweeping(tenant, batch, 0) && n <= |batch|
    requires forall i :: i in batch ==> i in s.rows && s.rows[i].tenant == tenant
    ensures IsPath(Next, s, steps)
    ensures steps[|steps| - 1] == s.(rows := D.Swept(s.rows, batch, n), procs := s.procs[p := Sweeping(tenant, batch, n)])
  {
    if n == 0 {
      assert D.Swept(s.rows, batch, 0) == s.rows && s.procs[p := Sweeping(tenant, batch, 0)] == s.procs;
      steps := [s];
    } else {
      var before := RecordsDecay(s, p, tenant, batch, n - 1);
      var last := before[|before| - 1];
      assert batch[n - 1] in batch;
      D.SweepAdvances(s.rows, batch, n - 1, tenant);
      var next := Taken(last, DecayOne(p));
      assert next.procs == s.procs[p := Sweeping(tenant, batch, n)];
      steps := Chained(Next, s, before, [last, next]);
    }
  }

  /** A decay sweep is a run of one process that ends in the same table. */
  lemma SweepIsAnInterleaving(s: State, p: nat, tenant: string, cutoff: int, batch: seq<string>) returns (steps: seq<State>)
    requires PcOf(s, p).Idle? && forall i :: i in batch <==> i in D.StaleIds(s.rows, tenant, cutoff)
    ensures IsPath(Next, s, steps)
    ensures steps[|steps| - 1] == s.(rows := D.AfterSweep(s.rows, tenant, cutoff), procs := s.procs[p := Idle])
  {
    var s1 := Taken(s, ListOld(p, tenant, batch));
    var swept := RecordsDecay(s1, p, tenant, batch, |batch|);
    assert batch[..|batch|] == batch;
    assert D.Swept(s.rows, batch, |batch|) == D.AfterSweep(s.rows, tenant, cutoff);
    var s2 := swept[|swept| - 1];
    var s3 := Taken(s2, Abort(p));
    assert s3.procs == s.procs[p := Idle];
    var before := Chained(Next, s, [s, s1], swept);
    steps := Chained(Next, s, before, [s2, s3]);
  }
}
