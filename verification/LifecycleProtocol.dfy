/** Consolidation passes, for any scope, and decay sweeps racing over one record table of either store,
    with writers saving records meanwhile. Every await may raise (Abort) and a process may stop for good at any point
    (it takes no further step). */
module LifecycleProtocol {
  import opened Domain
  import opened Records
  import opened Runs

  datatype Pc =
    | Idle
    | Summarising(tenant: string, sector: Sector, batch: seq<string>) // the job's tenant, not the scope's
    | SavingSummary(summary: Record, batch: seq<string>)
    | Updating(summaryId: string, tenant: string, batch: seq<string>, next: nat)
    | Reporting(summaryId: string, tenant: string, batch: seq<string>, next: nat)
    | Sweeping(tenant: string, batch: seq<string>, next: nat)

  /** lineage is the history the claims speak about: the batch each saved summary was made from. */
  datatype State = State(
    semantics: Semantics,
    rows: Rows,
    issued: set<string>,
    lineage: map<string, seq<string>>,
    procs: map<nat, Pc>)

  datatype Action =
    | Write(r: Record)
    | List(p: nat, tenant: string, scopeTenant: string, sector: Sector, batch: seq<string>)
    | Summarise(p: nat, newId: string, principal: string, text: string, now: int)
    | SaveSummary(p: nat)
    | UpdateSource(p: nat)
    | Report(p: nat)
    | ListOld(p: nat, tenant: string, batch: seq<string>)
    | DecayOne(p: nat)
    | Abort(p: nat)

  function PcOf(s: State, p: nat): Pc {
    if p in s.procs then s.procs[p] else Idle
  }

  predicate AllActive(s: State, tenant: string, batch: seq<string>) {
    forall i :: i in batch ==> i in s.rows && s.rows[i].tenant == tenant && s.rows[i].lifecycle == Active
  }

  predicate Enabled(s: State, a: Action) {
    match a
    case Write(r) =>
      r.id !in s.issued && r.lifecycle == Active
    case List(p, _, scopeTenant, sector, batch) =>
      PcOf(s, p).Idle? && batch != [] && AllActive(s, scopeTenant, batch)
      && forall i :: i in batch ==> s.rows[i].sector == sector
    case Summarise(p, newId, _, _, _) => PcOf(s, p).Summarising? && newId !in s.issued
    case SaveSummary(p) => PcOf(s, p).SavingSummary?
    case UpdateSource(p) => PcOf(s, p).Updating? && PcOf(s, p).next < |PcOf(s, p).batch|
    case Report(p) => PcOf(s, p).Reporting?
    case ListOld(p, tenant, batch) => PcOf(s, p).Idle? && AllActive(s, tenant, batch)
    case DecayOne(p) => PcOf(s, p).Sweeping? && PcOf(s, p).next < |PcOf(s, p).batch|
    case Abort(p) => true
  }

  function SummaryOf(pc: Pc, newId: string, principal: string, text: string, now: int): Record
    requires pc.Summarising?
  {
    Record(newId, pc.tenant, principal, text, pc.sector, Consolidated, Enriched, now, None)
  }

  /** A write as the store takes it: SQLite replaces the row that holds its idempotency key, Postgres
      refuses it. */
  function AfterWrite(s: State, r: Record): Rows {
    match s.semantics
    case Sqlite => SqliteSaved(s.rows, r)
    case Postgres => if PostgresSaved(s.rows, r).Ok? then PostgresSaved(s.rows, r).value else s.rows
  }

  /** An update of row i's state by process p, which goes on at pc. If the row is gone by then, or
      another tenant's, nothing matches. SQLite looks at the row at an earlier await; a look that finds
      no such row raises, which is an Abort. */
  function Transition(s: State, p: nat, i: string, tenant: string, state: Lifecycle, pc: Pc): State {
    s.(rows := WithLifecycle(s.rows, i, tenant, state), procs := s.procs[p := pc])
  }

  function Apply(s: State, a: Action): State
    requires Enabled(s, a)
  {
    match a
    case Write(r) => s.(rows := AfterWrite(s, r), issued := s.issued + {r.id})
    case List(p, tenant, _, sector, batch) => s.(procs := s.procs[p := Summarising(tenant, sector, batch)])
    case Summarise(p, newId, principal, text, now) =>
      s.(procs := s.procs[p := SavingSummary(SummaryOf(PcOf(s, p), newId, principal, text, now), PcOf(s, p).batch)],
         issued := s.issued + {newId})
    case SaveSummary(p) =>
      var pc := PcOf(s, p);
      s.(rows := SqliteSaved(s.rows, pc.summary), lineage := s.lineage[pc.summary.id := pc.batch],
         procs := s.procs[p := Updating(pc.summary.id, pc.summary.tenant, pc.batch, 0)])
    case UpdateSource(p) =>
      var pc := PcOf(s, p);
      Transition(s, p, pc.batch[pc.next], pc.tenant, Consolidated, Reporting(pc.summaryId, pc.tenant, pc.batch, pc.next))
    case Report(p) =>
      var pc := PcOf(s, p);
      s.(procs := s.procs[p := Updating(pc.summaryId, pc.tenant, pc.batch, pc.next + 1)])
    case ListOld(p, tenant, batch) => s.(procs := s.procs[p := Sweeping(tenant, batch, 0)])
    case DecayOne(p) =>
      var pc := PcOf(s, p);
      Transition(s, p, pc.batch[pc.next], pc.tenant, Decayed, Sweeping(pc.tenant, pc.batch, pc.next + 1))
    case Abort(p) => s.(procs := s.procs[p := Idle])
  }

  ghost predicate Init(s: State) {
    && s.lineage == map[] && s.procs == map[]
    && s.rows.Keys <= s.issued
    && forall i :: i in s.rows ==> s.rows[i].id == i && s.rows[i].lifecycle != Consolidated
  }

  ghost predicate Next(s: State, s': State) {
    exists a :: Enabled(s, a) && s' == Apply(s, a)
  }

  // ---------------------------------------------------------------- the invariant

  /** Record i was part of the batch of the saved summary c, of its tenant and sector. */
  ghost predicate SourceOf(s: State, i: string, c: string) {
    && c in s.lineage && i in s.lineage[c]
    && c in s.rows && i in s.rows
    && s.rows[c].tenant == s.rows[i].tenant && s.rows[c].sector == s.rows[i].sector
  }

  ghost predicate RowOk(s: State, i: string) {
    i in s.rows ==>
      && s.rows[i].id == i
      && (s.rows[i].lifecycle == Consolidated && i !in s.lineage ==> exists c :: SourceOf(s, i, c))
  }

  /** Process p is about to save a summary under this id. */
  predicate AboutToSave(s: State, p: nat, id: string) {
    PcOf(s, p).SavingSummary? && PcOf(s, p).summary.id == id
  }

  /** The id of a written record, stored or replaced since, but never of a summary. */
  ghost predicate IsSource(s: State, i: string) {
    i in s.issued && i !in s.lineage && forall p: nat :: !AboutToSave(s, p, i)
  }

  /** Batches consist of source records; those still stored are of one sector. */
  ghost predicate BatchOk(s: State, sector: Sector, batch: seq<string>) {
    forall i :: i in batch ==> IsSource(s, i) && (i in s.rows ==> s.rows[i].sector == sector)
  }

  ghost predicate ProcOk(s: State, p: nat) {
    match PcOf(s, p)
    case Idle => true
    case Summarising(tenant, sector, batch) => BatchOk(s, sector, batch)
    case SavingSummary(summary, batch) =>
      && BatchOk(s, summary.sector, batch)
      && summary.id in s.issued && summary.id !in s.rows
      && summary.lifecycle == Consolidated && summary.key.None?
    case Updating(c, tenant, batch, _) => MadeFrom(s, c, tenant, batch)
    case Reporting(c, tenant, batch, _) => MadeFrom(s, c, tenant, batch)
    case Sweeping(tenant, batch, _) => forall i :: i in batch ==> IsSource(s, i)
  }

  /** The process works on the batch of a stored summary of its tenant. */
  predicate MadeFrom(s: State, c: string, tenant: string, batch: seq<string>) {
    c in s.lineage && s.lineage[c] == batch && c in s.rows && s.rows[c].tenant == tenant
  }

  ghost predicate SummaryOk(s: State, c: string) {
    c in s.lineage ==>
      && c in s.rows && s.rows[c].lifecycle != Active && s.rows[c].key.None?
      && BatchOk(s, s.rows[c].sector, s.lineage[c])
  }

  ghost predicate SummariesDistinct(s: State) {
    forall p: nat, q: nat, id :: AboutToSave(s, p, id) && AboutToSave(s, q, id) ==> p == q
  }

  ghost predicate Inv(s: State) {
    && s.rows.Keys <= s.issued
    && (forall c :: SummaryOk(s, c))
    && (forall i :: RowOk(s, i))
    && (forall p: nat :: ProcOk(s, p))
    && SummariesDistinct(s)
  }

  // ---------------------------------------------------------------- what a step can do

  lemma AboutToSaveBefore(s: State, a: Action, p: nat, id: string)
    requires Enabled(s, a) && AboutToSave(Apply(s, a), p, id)
    ensures AboutToSave(s, p, id) || (a.Summarise? && a.p == p && a.newId == id)
  {
  }

  lemma StepKeepsSummariesDistinct(s: State, a: Action)
    requires Inv(s) && Enabled(s, a)
    ensures SummariesDistinct(Apply(s, a))
  {
    var s' := Apply(s, a);
    forall p: nat, q: nat, id | AboutToSave(s', p, id) && AboutToSave(s', q, id) ensures p == q {
      AboutToSaveBefore(s, a, p, id);
      AboutToSaveBefore(s, a, q, id);
      assert ProcOk(s, p) && ProcOk(s, q);
    }
  }

  /** The row of a record that was stored before has at most its lifecycle changed. */
  ghost predicate OnlyLifecycleMoves(s: State, s': State, i: string) {
    i in s.rows && i in s'.rows && s'.rows[i] == s.rows[i].(lifecycle := s'.rows[i].lifecycle)
  }

  lemma StepOnRows(s: State, a: Action, i: string)
    requires Inv(s) && Enabled(s, a) && i in Apply(s, a).rows
    ensures var s' := Apply(s, a);
      || OnlyLifecycleMoves(s, s', i)
      || (a.Write? && i == a.r.id && s'.rows[i] == a.r)
      || (a.SaveSummary? && AboutToSave(s, a.p, i) && s'.rows[i] == PcOf(s, a.p).summary)
  {
    if a.SaveSummary? { assert ProcOk(s, a.p); }
  }

  lemma SourceStays(s: State, a: Action, i: string)
    requires Inv(s) && Enabled(s, a) && IsSource(s, i)
    ensures IsSource(Apply(s, a), i)
  {
    forall p: nat ensures !AboutToSave(Apply(s, a), p, i) {
      if AboutToSave(Apply(s, a), p, i) { AboutToSaveBefore(s, a, p, i); }
    }
    if a.SaveSummary? { assert !AboutToSave(s, a.p, i); }
  }

  lemma SourceRowStays(s: State, a: Action, i: string)
    requires Inv(s) && Enabled(s, a) && IsSource(s, i) && i in Apply(s, a).rows
    ensures OnlyLifecycleMoves(s, Apply(s, a), i)
  {
    StepOnRows(s, a, i);
    if a.SaveSummary? { assert !AboutToSave(s, a.p, i); }
  }

  lemma BatchStays(s: State, a: Action, sector: Sector, batch: seq<string>)
    requires Inv(s) && Enabled(s, a) && BatchOk(s, sector, batch)
    ensures BatchOk(Apply(s, a), sector, batch)
  {
    var s' := Apply(s, a);
    forall i | i in batch
      ensures IsSource(s', i) && (i in s'.rows ==> s'.rows[i].sector == sector)
    {
      SourceStays(s, a, i);
      if i in s'.rows { SourceRowStays(s, a, i); }
    }
  }

  lemma StoredSourceIsSource(s: State, i: string)
    requires Inv(s) && i in s.rows && s.rows[i].lifecycle == Active
    ensures IsSource(s, i)
  {
    assert SummaryOk(s, i);
    forall p: nat ensures !AboutToSave(s, p, i) { assert ProcOk(s, p); }
  }

  // ---------------------------------------------------------------- every step keeps it

  lemma OtherProcStays(s: State, a: Action, q: nat)
    requires Inv(s) && Enabled(s, a) && (a.Write? || a.p != q)
    ensures ProcOk(Apply(s, a), q)
  {
    var s' := Apply(s, a);
    assert ProcOk(s, q) && PcOf(s', q) == PcOf(s, q);
    match PcOf(s, q) {
      case Idle =>
      case Summarising(tenant, sector, batch) => BatchStays(s, a, sector, batch);
      case SavingSummary(summary, batch) =>
        BatchStays(s, a, summary.sector, batch);
        assert AboutToSave(s, q, summary.id);
        if summary.id in s'.rows { StepOnRows(s, a, summary.id); }
      case Updating(c, _, _, _) =>
        SummaryRowStays(s, a, c);
        if a.SaveSummary? { SavedIsNew(s, a.p); }
      case Reporting(c, _, _, _) =>
        SummaryRowStays(s, a, c);
        if a.SaveSummary? { SavedIsNew(s, a.p); }
      case Sweeping(tenant, batch, _) =>
        forall i | i in batch ensures IsSource(s', i) { SourceStays(s, a, i); }
    }
  }

  lemma SavedIsNew(s: State, p: nat)
    requires Inv(s) && PcOf(s, p).SavingSummary?
    ensures PcOf(s, p).summary.id !in s.lineage && PcOf(s, p).summary.id !in s.rows
  {
    assert ProcOk(s, p) && SummaryOk(s, PcOf(s, p).summary.id);
  }

  lemma OwnProcStays(s: State, a: Action)
    requires Inv(s) && Enabled(s, a) && !a.Write?
    ensures ProcOk(Apply(s, a), a.p)
  {
    var s' := Apply(s, a);
    var pc := PcOf(s, a.p);
    assert ProcOk(s, a.p);
    match a {
      case List(p, _, _, sector, batch) =>
        forall i | i in batch ensures IsSource(s, i) { StoredSourceIsSource(s, i); }
        BatchStays(s, a, sector, batch);
      case Summarise(p, newId, _, _, _) => BatchStays(s, a, pc.sector, pc.batch);
      case ListOld(p, tenant, batch) =>
        forall i | i in batch ensures IsSource(s', i) {
          StoredSourceIsSource(s, i);
          SourceStays(s, a, i);
        }
      case DecayOne(p) =>
        forall i | i in pc.batch ensures IsSource(s', i) { SourceStays(s, a, i); }
      case UpdateSource(p) => SummaryRowStays(s, a, pc.summaryId);
      case _ =>
    }
  }

  lemma SummaryStays(s: State, a: Action, c: string)
    requires Inv(s) && Enabled(s, a)
    ensures SummaryOk(Apply(s, a), c)
  {
    var s' := Apply(s, a);
    assert SummaryOk(s, c);
    if c in s.lineage {
      if a.SaveSummary? { SavedIsNew(s, a.p); }
      SummaryRowStays(s, a, c);
      BatchStays(s, a, s.rows[c].sector, s.lineage[c]);
    } else if a.SaveSummary? && c == PcOf(s, a.p).summary.id {
      var pc := PcOf(s, a.p);
      assert ProcOk(s, a.p);
      BatchStays(s, a, pc.summary.sector, pc.batch);
    }
  }

  /** A summary has no idempotency key, so no write replaces it, and no process updates it. */
  lemma SummaryRowStays(s: State, a: Action, c: string)
    requires Inv(s) && Enabled(s, a) && c in s.lineage
    ensures c in s.rows && c in Apply(s, a).rows && Apply(s, a).rows[c] == s.rows[c]
  {
    assert SummaryOk(s, c);
    match a {
      case UpdateSource(p) =>
        assert ProcOk(s, p) && SummaryOk(s, PcOf(s, p).summaryId);
        assert IsSource(s, PcOf(s, p).batch[PcOf(s, p).next]);
      case DecayOne(p) =>
        assert ProcOk(s, p);
        assert IsSource(s, PcOf(s, p).batch[PcOf(s, p).next]);
      case SaveSummary(p) => SavedIsNew(s, p);
      case _ =>
    }
  }

  lemma SourceOfStays(s: State, a: Action, i: string, c: string)
    requires Inv(s) && Enabled(s, a) && SourceOf(s, i, c) && i in Apply(s, a).rows
    ensures SourceOf(Apply(s, a), i, c)
  {
    SummaryRowStays(s, a, c);
    StepOnRows(s, a, i);
    assert SummaryOk(s, c) && IsSource(s, i);
    SourceRowStays(s, a, i);
    if a.SaveSummary? { SavedIsNew(s, a.p); }
  }

  lemma RowStays(s: State, a: Action, i: string)
    requires Inv(s) && Enabled(s, a)
    ensures RowOk(Apply(s, a), i)
  {
    var s' := Apply(s, a);
    if i in s'.rows {
      StepOnRows(s, a, i);
      assert RowOk(s, i);
      if i in s.rows && s.rows[i].lifecycle == Consolidated && i !in s.lineage {
        var c :| SourceOf(s, i, c);
        SourceOfStays(s, a, i, c);
      } else if a.UpdateSource? && i in s.rows && s'.rows[i] != s.rows[i] {
        var pc := PcOf(s, a.p);
        assert ProcOk(s, a.p) && SummaryOk(s, pc.summaryId);
        assert i == pc.batch[pc.next] && i in pc.batch;
        assert SourceOf(s, i, pc.summaryId);
        SourceOfStays(s, a, i, pc.summaryId);
      }
    }
  }

  lemma InvIsInductive()
    ensures Inductive(Init, Next, Inv)
  {
    forall s | Init(s) ensures Inv(s) {
      assert forall i :: RowOk(s, i) && SummaryOk(s, i);
    }
    forall s, s' | Inv(s) && Next(s, s') ensures Inv(s') {
      var a :| Enabled(s, a) && s' == Apply(s, a);
      StepKeepsInv(s, a);
    }
  }

  lemma StepKeepsInv(s: State, a: Action)
    requires Inv(s) && Enabled(s, a)
    ensures Inv(Apply(s, a))
  {
    var s' := Apply(s, a);
    StepKeepsSummariesDistinct(s, a);
    forall c ensures SummaryOk(s', c) { SummaryStays(s, a, c); }
    forall i ensures RowOk(s', i) { RowStays(s, a, i); }
    forall q: nat ensures ProcOk(s', q) {
      if a.Write? || a.p != q { OtherProcStays(s, a, q); } else { OwnProcStays(s, a); }
    }
    forall i | i in s'.rows ensures i in s'.issued {
      StepOnRows(s, a, i);
      if a.SaveSummary? { assert ProcOk(s, a.p); }
    }
  }

  // ---------------------------------------------------------------- the guarantees

  /** However passes, sweeps, writes and crashes interleave, a stored record in state CONSOLIDATED is a
      saved summary or belongs to the batch of one, of its own tenant and sector. */
  lemma LineageSurvives(trace: seq<State>, n: nat, i: string)
    requires IsRun(Init, Next, trace) && n < |trace|
    requires i in trace[n].rows && trace[n].rows[i].lifecycle == Consolidated
    ensures i in trace[n].lineage || exists c :: SourceOf(trace[n], i, c)
  {
    InvIsInductive();
    InvariantOnRuns(Init, Next, Inv, trace, n);
    assert RowOk(trace[n], i);
  }

  /** The id is used up and nobody will store a row under it. */
  ghost predicate Vacant(s: State, i: string) {
    i in s.issued && i !in s.rows && forall p: nat :: !AboutToSave(s, p, i)
  }

  /** A stored record keeps everything but its lifecycle state or leaves the table for good, one that
      has left ACTIVE does not come back to it, and summaries with their lineage are permanent. */
  ghost predicate Preserves(s: State, s': State) {
    && s'.semantics == s.semantics
    && (forall i :: i in s.rows ==> i in s'.rows || Vacant(s', i))
    && (forall i :: Vacant(s, i) ==> Vacant(s', i))
    && (forall i :: i in s.rows && i in s'.rows ==>
          && s'.rows[i] == s.rows[i].(lifecycle := s'.rows[i].lifecycle)
          && (s.rows[i].lifecycle != Active ==> s'.rows[i].lifecycle != Active))
    && (forall c :: c in s.lineage ==> c in s'.lineage && s'.lineage[c] == s.lineage[c])
    && (forall c :: c in s.lineage && c in s.rows ==> c in s'.rows && s'.rows[c] == s.rows[c])
  }

  lemma VacantStays(s: State, a: Action, i: string)
    requires Inv(s) && Enabled(s, a) && i in s.issued && (i in s.rows || Vacant(s, i))
    ensures i in Apply(s, a).rows || Vacant(Apply(s, a), i)
    ensures Vacant(s, i) ==> i !in Apply(s, a).rows
  {
    var s' := Apply(s, a);
    forall p: nat ensures !AboutToSave(s', p, i) {
      assert ProcOk(s, p);
      if AboutToSave(s', p, i) { AboutToSaveBefore(s, a, p, i); }
    }
    if Vacant(s, i) {
      if a.SaveSummary? { assert !AboutToSave(s, a.p, i); }
      if i in s'.rows { StepOnRows(s, a, i); }
    }
  }

  lemma StoredRowMoves(s: State, a: Action, i: string)
    requires Inv(s) && Enabled(s, a) && i in s.rows && i in Apply(s, a).rows
    ensures OnlyLifecycleMoves(s, Apply(s, a), i)
    ensures s.rows[i].lifecycle != Active ==> Apply(s, a).rows[i].lifecycle != Active
  {
    StepOnRows(s, a, i);
    if a.SaveSummary? { SavedIsNew(s, a.p); }
  }

  lemma StepPreserves(s: State, a: Action)
    requires Inv(s) && Enabled(s, a)
    ensures Preserves(s, Apply(s, a))
  {
    var s' := Apply(s, a);
    forall i | i in s.rows || Vacant(s, i)
      ensures (i in s'.rows || Vacant(s', i)) && (Vacant(s, i) ==> Vacant(s', i))
    {
      VacantStays(s, a, i);
    }
    forall i | i in s.rows && i in s'.rows
      ensures s'.rows[i] == s.rows[i].(lifecycle := s'.rows[i].lifecycle)
      ensures s.rows[i].lifecycle != Active ==> s'.rows[i].lifecycle != Active
    {
      StoredRowMoves(s, a, i);
    }
    forall c | c in s.lineage
      ensures c in s'.lineage && s'.lineage[c] == s.lineage[c] && c in s.rows && c in s'.rows && s'.rows[c] == s.rows[c]
    {
      SummaryRowStays(s, a, c);
      if a.SaveSummary? { SavedIsNew(s, a.p); }
    }
  }

  lemma PreservesComposes(a: State, b: State, c: State)
    requires Preserves(a, b) && Preserves(b, c)
    ensures Preserves(a, c)
  {
    forall i | i in a.rows && i in c.rows
      ensures c.rows[i] == a.rows[i].(lifecycle := c.rows[i].lifecycle)
      ensures a.rows[i].lifecycle != Active ==> c.rows[i].lifecycle != Active
    {
      assert i in b.rows || Vacant(b, i);
      assert Vacant(b, i) ==> Vacant(c, i);
      assert b.rows[i] == a.rows[i].(lifecycle := b.rows[i].lifecycle);
      assert c.rows[i] == b.rows[i].(lifecycle := c.rows[i].lifecycle);
    }
  }

  lemma RecordsAreKept(trace: seq<State>, m: nat, n: nat)
    requires IsRun(Init, Next, trace) && m <= n < |trace|
    ensures Preserves(trace[m], trace[n])
  {
    InvIsInductive();
    forall s, s' | Inv(s) && Next(s, s') ensures Preserves(s, s') {
      var a :| Enabled(s, a) && s' == Apply(s, a);
      StepPreserves(s, a);
    }
    forall a, b, c | Preserves(a, b) && Preserves(b, c) ensures Preserves(a, c) {
      PreservesComposes(a, b, c);
    }
    OrderedOnRuns(Init, Next, Inv, Preserves, trace, m, n);
  }

  /** A write on SQLite whose idempotency key row i holds. */
  ghost predicate Replaces(s: State, s': State, i: string) {
    s.semantics.Sqlite? && i in s.rows
    && exists r :: Enabled(s, Write(r)) && s' == Apply(s, Write(r)) && Collide(s.rows[i], r)
  }

  lemma OnlyWritesLose(s: State, a: Action, i: string)
    requires Inv(s) && Enabled(s, a) && i in s.rows && !a.Write?
    ensures i in Apply(s, a).rows
  {
    if a.SaveSummary? { assert ProcOk(s, a.p); }
  }

  lemma WriteLosesIff(s: State, r: Record, i: string)
    requires Inv(s) && Enabled(s, Write(r)) && i in s.rows
    ensures i !in Apply(s, Write(r)).rows <==> s.semantics.Sqlite? && Collide(s.rows[i], r)
  {
    assert i != r.id;
  }

  lemma StepLosesIff(s: State, s': State, i: string)
    requires Inv(s) && Next(s, s') && i in s.rows
    ensures i !in s'.rows <==> Replaces(s, s', i)
  {
    var a :| Enabled(s, a) && s' == Apply(s, a);
    if a.Write? { WriteLosesIff(s, a.r, i); } else { OnlyWritesLose(s, a, i); }
    if Replaces(s, s', i) {
      var r :| Enabled(s, Write(r)) && s' == Apply(s, Write(r)) && Collide(s.rows[i], r);
      WriteLosesIff(s, r, i);
    }
  }

  ghost predicate ReplacedBetween(trace: seq<State>, m: nat, n: nat, i: string)
    requires m <= n < |trace|
  {
    exists k, l :: m <= k < n && l == k + 1 && Replaces(trace[k], trace[l], i)
  }

  lemma ReplacedAtLast(trace: seq<State>, m: nat, n: nat, i: string)
    requires m < n < |trace|
    ensures ReplacedBetween(trace, m, n, i) <==>
      ReplacedBetween(trace, m, n - 1, i) || Replaces(trace[n - 1], trace[n], i)
  {
    if ReplacedBetween(trace, m, n, i) {
      var k, l :| m <= k < n && l == k + 1 && Replaces(trace[k], trace[l], i);
      assert k < n - 1 ==> ReplacedBetween(trace, m, n - 1, i);
    }
  }

  lemma GoneStaysGone(trace: seq<State>, m: nat, k: nat, n: nat, i: string)
    requires IsRun(Init, Next, trace) && m <= k <= n < |trace| && i in trace[m].rows && i !in trace[k].rows
    ensures i !in trace[n].rows
  {
    RecordsAreKept(trace, m, k);
    assert Vacant(trace[k], i);
    RecordsAreKept(trace, k, n);
    assert Vacant(trace[n], i);
  }

  lemma LastStepLosesIff(trace: seq<State>, n: nat, i: string)
    requires IsRun(Init, Next, trace) && 0 < n < |trace| && i in trace[n - 1].rows
    ensures i !in trace[n].rows <==> Replaces(trace[n - 1], trace[n], i)
  {
    InvIsInductive();
    InvariantOnRuns(Init, Next, Inv, trace, n - 1);
    StepLosesIff(trace[n - 1], trace[n], i);
  }

  lemma LostByThen(trace: seq<State>, m: nat, n: nat, i: string)
    requires IsRun(Init, Next, trace) && m < n < |trace| && i in trace[m].rows
    ensures i !in trace[n].rows <==> i !in trace[n - 1].rows || Replaces(trace[n - 1], trace[n], i)
  {
    if i in trace[n - 1].rows {
      LastStepLosesIff(trace, n, i);
    } else {
      GoneStaysGone(trace, m, n - 1, n, i);
    }
  }

  /** A record disappears between two points of a run exactly when in between, on SQLite, a write of
      its idempotency key replaced it; passes, sweeps, crashes and Postgres lose nothing. */
  lemma {:induction false} EvidenceIsLostIff(trace: seq<State>, m: nat, n: nat, i: string)
    requires IsRun(Init, Next, trace) && m <= n < |trace| && i in trace[m].rows
    ensures i !in trace[n].rows <==> ReplacedBetween(trace, m, n, i)
    decreases n
  {
    if m == n {
    } else {
      EvidenceIsLostIff(trace, m, n - 1, i);
      LostByThen(trace, m, n, i);
      ReplacedAtLast(trace, m, n, i);
    }
  }
}
