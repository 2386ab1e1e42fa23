/** Any number of writers and enrichments interleaving at every await, on either store, where any
    await may raise and any process may stop for good. */
module WriteProtocol {
  import opened Domain
  import opened Records
  import opened Runs

  datatype Request = Request(
    tenant: string,
    principal: string,
    payload: string,
    sector: Sector,
    key: Option<string>,
    extract: bool,
    wait: bool)

  datatype Writer =
    | Checking(req: Request)
    | Saving(req: Request, record: Record)
    | Auditing(req: Request, record: Record)
    | Emitting(req: Request, record: Record)
    | Waiting(req: Request, record: Record)
    | Acked(req: Request, memoryId: string, idempotent: bool)
    | Failed

  /** The enrichment of one written record. */
  datatype Enrichment =
    | Extracting(record: Record)
    | Marking(record: Record)
    | Announcing(record: Record)
    | MarkingFailed(record: Record)
    | AnnouncingFailed(record: Record)
    | Over(record: Record, raised: bool)

  datatype State = State(
    semantics: Semantics,
    hasExtraction: bool,
    rows: Rows,
    saved: set<string>,
    issued: set<string>,
    writers: map<nat, Writer>,
    enrichments: map<nat, Enrichment>)

  datatype Action =
    | Arrive(p: nat, req: Request)
    | Check(p: nat, existing: Option<string>, newId: string, now: int)
    | Save(p: nat)
    | Audit(p: nat)
    | Emit(p: nat)
    | Finish(p: nat)
    | Raise(p: nat)
    | Enrich(p: nat, raises: bool)

  /** The initial status of a record, by the request and whether an extraction port is configured. */
  function InitialStatus(req: Request, hasExtraction: bool): Pipeline {
    if req.extract && !hasExtraction then Skipped else Pending
  }

  function RecordOf(req: Request, hasExtraction: bool, id: string, now: int): Record {
    Record(id, req.tenant, req.principal, req.payload, req.sector, Active,
           InitialStatus(req, hasExtraction), now, req.key)
  }

  function NewRecord(s: State, req: Request, id: string, now: int): Record {
    RecordOf(req, s.hasExtraction, id, now)
  }

  /** What the idempotency lookup may answer: any stored record of the key, or none if there is none. */
  predicate LookupAnswers(s: State, req: Request, existing: Option<string>) {
    match req.key
    case None => existing.None?
    case Some(k) =>
      if existing.None? then WithKey(s.rows, req.tenant, k) == {}
      else existing.value in WithKey(s.rows, req.tenant, k)
  }

  predicate Enabled(s: State, a: Action) {
    match a
    case Arrive(p, _) => p !in s.writers
    case Check(p, existing, newId, _) =>
      p in s.writers && s.writers[p].Checking?
      && LookupAnswers(s, s.writers[p].req, existing) && newId !in s.issued
    case Save(p) => p in s.writers && s.writers[p].Saving?
    case Audit(p) => p in s.writers && s.writers[p].Auditing?
    case Emit(p) => p in s.writers && s.writers[p].Emitting?
    case Finish(p) => p in s.writers && s.writers[p].Waiting? && p in s.enrichments && s.enrichments[p].Over?
    case Raise(p) => p in s.writers && !s.writers[p].Acked? && !s.writers[p].Failed? && !s.writers[p].Waiting?
    case Enrich(p, _) => p in s.enrichments && !s.enrichments[p].Over?
  }

  function ApplySave(s: State, p: nat): State
    requires Enabled(s, Save(p))
  {
    var Saving(req, r) := s.writers[p];
    match s.semantics
    case Sqlite =>
      s.(rows := SqliteSaved(s.rows, r), saved := s.saved + {r.id}, writers := s.writers[p := Auditing(req, r)])
    case Postgres =>
      match PostgresSaved(s.rows, r)
      case Ok(rows') => s.(rows := rows', saved := s.saved + {r.id}, writers := s.writers[p := Auditing(req, r)])
      case Err(_) => s.(writers := s.writers[p := Failed])
  }

  function ApplyEmit(s: State, p: nat): State
    requires Enabled(s, Emit(p))
  {
    var Emitting(req, r) := s.writers[p];
    if req.extract && s.hasExtraction then
      s.(writers := s.writers[p := if req.wait then Waiting(req, r) else Acked(req, r.id, false)],
         enrichments := s.enrichments[p := Extracting(r)])
    else
      s.(writers := s.writers[p := Acked(req, r.id, false)])
  }

  /** An update of the pipeline status raises or changes the row, if it is still there. SQLite looks at
      the row at an earlier await; what the look found is part of the choice of raises. */
  function ApplyEnrich(s: State, p: nat, raises: bool): State
    requires Enabled(s, Enrich(p, raises))
  {
    match s.enrichments[p]
    case Extracting(r) =>
      s.(enrichments := s.enrichments[p := if raises then MarkingFailed(r) else Marking(r)])
    case Marking(r) =>
      if raises then s.(enrichments := s.enrichments[p := MarkingFailed(r)])
      else s.(rows := WithPipeline(s.rows, r.id, r.tenant, Enriched),
              enrichments := s.enrichments[p := Announcing(r)])
    case Announcing(r) =>
      s.(enrichments := s.enrichments[p := if raises then MarkingFailed(r) else Over(r, false)])
    case MarkingFailed(r) =>
      if raises then s.(enrichments := s.enrichments[p := Over(r, true)])
      else s.(rows := WithPipeline(s.rows, r.id, r.tenant, PartialFailed),
              enrichments := s.enrichments[p := AnnouncingFailed(r)])
    case AnnouncingFailed(r) =>
      s.(enrichments := s.enrichments[p := Over(r, raises)])
    case Over(_, _) => s
  }

  function Apply(s: State, a: Action): State
    requires Enabled(s, a)
  {
    match a
    case Arrive(p, req) => s.(writers := s.writers[p := Checking(req)])
    case Check(p, existing, newId, now) =>
      var req := s.writers[p].req;
      if existing.Some? then s.(writers := s.writers[p := Acked(req, existing.value, true)])
      else s.(writers := s.writers[p := Saving(req, NewRecord(s, req, newId, now))],
              issued := s.issued + {newId})
    case Save(p) => ApplySave(s, p)
    case Audit(p) => s.(writers := s.writers[p := Emitting(s.writers[p].req, s.writers[p].record)])
    case Emit(p) => ApplyEmit(s, p)
    case Finish(p) =>
      s.(writers := s.writers[p := if s.enrichments[p].raised then Failed
                                   else Acked(s.writers[p].req, s.writers[p].record.id, false)])
    case Raise(p) => s.(writers := s.writers[p := Failed])
    case Enrich(p, raises) => ApplyEnrich(s, p, raises)
  }

  ghost predicate Init(s: State) {
    s.rows == map[] && s.saved == {} && s.issued == {} && s.writers == map[] && s.enrichments == map[]
  }

  ghost predicate Next(s: State, s': State) {
    exists a :: Enabled(s, a) && s' == Apply(s, a)
  }

  // ---------------------------------------------------------------- the invariant

  predicate HasRecord(w: Writer) {
    w.Saving? || w.Auditing? || w.Emitting? || w.Waiting?
  }

  /** The record a live writer or an enrichment of process p works on. */
  ghost predicate Owns(s: State, p: nat, r: Record) {
    || (p in s.writers && HasRecord(s.writers[p]) && s.writers[p].record == r)
    || (p in s.enrichments && s.enrichments[p].record == r)
  }

  ghost predicate WriterOk(s: State, p: nat) {
    p in s.writers ==>
      match s.writers[p]
      case Checking(_) => p !in s.enrichments
      case Saving(req, r) =>
        r.id !in s.saved && IsWriteOf(s, req, r) && p !in s.enrichments
      case Auditing(req, r) => r.id in s.saved && IsWriteOf(s, req, r) && p !in s.enrichments
      case Emitting(req, r) => r.id in s.saved && IsWriteOf(s, req, r) && p !in s.enrichments
      case Waiting(req, r) => r.id in s.saved && IsWriteOf(s, req, r) && p in s.enrichments && s.enrichments[p].record == r
      case Acked(req, id, _) => id in s.saved
      case Failed => true
  }

  ghost predicate IsWriteOf(s: State, req: Request, r: Record) {
    r == NewRecord(s, req, r.id, r.recordedAt) && r.id in s.issued
  }

  /** Where an enrichment stands tells what its row, if still there, shows. */
  ghost predicate EnrichmentOk(s: State, p: nat) {
    p in s.enrichments ==>
      var r := s.enrichments[p].record;
      && p in s.writers && r.id in s.saved
      && (r.id in s.rows ==>
            s.rows[r.id] == r.(pipeline := s.rows[r.id].pipeline) &&
            match s.enrichments[p]
            case Extracting(_) => s.rows[r.id].pipeline == Pending
            case Marking(_) => s.rows[r.id].pipeline == Pending
            case Announcing(_) => s.rows[r.id].pipeline == Enriched
            case MarkingFailed(_) => s.rows[r.id].pipeline in {Pending, Enriched}
            case AnnouncingFailed(_) => s.rows[r.id].pipeline == PartialFailed
            case Over(_, _) => true)
  }

  /** No record is worked on by two processes, and a writer that has not reached its emit leaves
      its row as it was saved. */
  ghost predicate OwnershipOk(s: State) {
    && (forall p: nat, q: nat, r, r' :: Owns(s, p, r) && Owns(s, q, r') && r.id == r'.id ==> p == q)
    && (forall p: nat :: p in s.writers && (s.writers[p].Auditing? || s.writers[p].Emitting?)
          && s.writers[p].record.id in s.rows
          ==> s.rows[s.writers[p].record.id] == s.writers[p].record)
  }

  ghost predicate StoreOk(s: State) {
    && UniqueKeys(s.rows)
    && s.rows.Keys <= s.saved <= s.issued
    && forall i :: i in s.rows ==> s.rows[i].lifecycle == Active
  }

  /** Postgres never drops a row, so an acknowledged id is stored under its request's key. */
  ghost predicate AckOk(s: State, p: nat) {
    s.semantics.Postgres? && p in s.writers ==>
      match s.writers[p]
      case Checking(_) => true
      case Saving(_, _) => true
      case Failed => true
      case Acked(req, id, _) => id in s.rows && s.rows[id].tenant == req.tenant && (req.key.Some? ==> s.rows[id].key == req.key)
      case _ =>
        var w := s.writers[p];
        w.record.id in s.rows && s.rows[w.record.id].tenant == w.req.tenant && s.rows[w.record.id].key == w.req.key
  }

  ghost predicate Inv(s: State) {
    && StoreOk(s)
    && OwnershipOk(s)
    && (forall p: nat :: WriterOk(s, p) && EnrichmentOk(s, p) && AckOk(s, p))
  }

  // ---------------------------------------------------------------- what a step can do

  /** Saving a record: its row appears, rows of other ids stay or (SQLite only) vanish. */
  ghost predicate SaveEffect(s: State, s': State, p: nat, r: Record) {
    && p in s.writers && s.writers[p].Saving?
    && s' == s.(rows := s'.rows, saved := s.saved + {r.id}, writers := s.writers[p := Auditing(s.writers[p].req, r)])
    && UniqueKeys(s'.rows)
    && r.id in s'.rows && s'.rows[r.id] == r
    && (forall i :: i in s'.rows && i != r.id ==> i in s.rows && s'.rows[i] == s.rows[i])
    && (s.semantics.Postgres? ==> s.rows.Keys <= s'.rows.Keys)
  }

  /** An enrichment step: at most the status of the enriched record's row changes. */
  ghost predicate EnrichEffect(s: State, s': State, p: nat, e: Enrichment) {
    && p in s.enrichments && e.record == s.enrichments[p].record
    && s' == s.(rows := s'.rows, enrichments := s.enrichments[p := e])
    && s'.rows.Keys == s.rows.Keys
    && forall i :: i in s.rows ==>
         if i == e.record.id then s'.rows[i] == s.rows[i].(pipeline := s'.rows[i].pipeline)
         else s'.rows[i] == s.rows[i]
  }

  lemma SaveHasEffect(s: State, p: nat)
    requires UniqueKeys(s.rows) && Enabled(s, Save(p)) && s.writers[p].record.id !in s.rows
    ensures var s' := Apply(s, Save(p)); var r := s.writers[p].record;
      || s' == s.(writers := s.writers[p := Failed])
      || SaveEffect(s, s', p, r)
  {
    var r := s.writers[p].record;
    if s.semantics.Sqlite? {
      SqliteSaveKeepsKeysUnique(s.rows, r);
    } else {
      PostgresSaveKeepsKeysUnique(s.rows, r);
    }
  }

  lemma EnrichHasEffect(s: State, p: nat, raises: bool)
    requires Enabled(s, Enrich(p, raises))
    ensures var s' := Apply(s, Enrich(p, raises));
      p in s'.enrichments && EnrichEffect(s, s', p, s'.enrichments[p])
  {
    var s' := Apply(s, Enrich(p, raises));
    if s'.rows == s.rows {
    } else if s.enrichments[p].Marking? {
    } else {
    }
  }

  lemma OwnedIdsAreIssued(s: State, p: nat, r: Record)
    requires Inv(s) && Owns(s, p, r)
    ensures r.id in s.issued
  {
    assert WriterOk(s, p) && EnrichmentOk(s, p);
  }

  // ---------------------------------------------------------------- saves

  lemma SaveKeepsProcess(s: State, s': State, p: nat, r: Record, q: nat)
    requires Inv(s) && Enabled(s, Save(p)) && s.writers[p].record == r
    requires SaveEffect(s, s', p, r)
    ensures WriterOk(s', q) && EnrichmentOk(s', q) && AckOk(s', q)
  {
    assert WriterOk(s, p) && Owns(s, p, r);
    assert WriterOk(s, q) && EnrichmentOk(s, q) && AckOk(s, q);
    if q != p && q in s.writers && s.writers[q].Saving? {
      assert Owns(s, q, s.writers[q].record);
    }
  }

  lemma SaveKeepsInv(s: State, s': State, p: nat, r: Record)
    requires Inv(s) && Enabled(s, Save(p)) && s.writers[p].record == r
    requires SaveEffect(s, s', p, r)
    ensures Inv(s')
  {
    assert WriterOk(s, p);
    forall q: nat ensures WriterOk(s', q) && EnrichmentOk(s', q) && AckOk(s', q) {
      SaveKeepsProcess(s, s', p, r, q);
    }
    assert forall q: nat, x :: Owns(s', q, x) <==> Owns(s, q, x);
    forall q: nat | q in s'.writers && (s'.writers[q].Auditing? || s'.writers[q].Emitting?)
                    && s'.writers[q].record.id in s'.rows
      ensures s'.rows[s'.writers[q].record.id] == s'.writers[q].record
    {
      if q != p {
        assert WriterOk(s, q) && Owns(s, q, s.writers[q].record) && Owns(s, p, r);
      }
    }
  }

  // ---------------------------------------------------------------- enrichment

  lemma EnrichKeepsInv(s: State, p: nat, raises: bool)
    requires Inv(s) && Enabled(s, Enrich(p, raises))
    ensures Inv(Apply(s, Enrich(p, raises)))
  {
    var s' := Apply(s, Enrich(p, raises));
    EnrichHasEffect(s, p, raises);
    EnrichKeepsOthers(s, s', p, s'.enrichments[p]);
    EnrichKeepsOwn(s, p, raises);
  }

  lemma EnrichKeepsOwn(s: State, p: nat, raises: bool)
    requires Inv(s) && Enabled(s, Enrich(p, raises))
    ensures EnrichmentOk(Apply(s, Enrich(p, raises)), p)
  {
    assert EnrichmentOk(s, p);
    var r := s.enrichments[p].record;
    assert WriterOk(s, p);
  }

  lemma EnrichKeepsOthers(s: State, s': State, p: nat, e: Enrichment)
    requires Inv(s) && p in s.enrichments && EnrichEffect(s, s', p, e)
    ensures StoreOk(s') && OwnershipOk(s')
    ensures forall q: nat :: WriterOk(s', q) && AckOk(s', q) && (q != p ==> EnrichmentOk(s', q))
  {
    assert EnrichmentOk(s, p) && Owns(s, p, e.record);
    assert forall q: nat, x :: Owns(s', q, x) <==> Owns(s, q, x);
    forall q: nat ensures WriterOk(s', q) && AckOk(s', q) && (q != p ==> EnrichmentOk(s', q)) {
      assert WriterOk(s, q) && AckOk(s, q) && EnrichmentOk(s, q);
      if q != p && q in s.enrichments {
        assert Owns(s, q, s.enrichments[q].record);
      }
    }
    forall q: nat | q in s'.writers && (s'.writers[q].Auditing? || s'.writers[q].Emitting?)
                    && s'.writers[q].record.id in s'.rows
      ensures s'.rows[s'.writers[q].record.id] == s'.writers[q].record
    {
      assert WriterOk(s, q) && Owns(s, q, s.writers[q].record);
    }
  }

  // ---------------------------------------------------------------- steps that leave the store alone

  lemma OwnedBefore(s: State, a: Action, p: nat, r: Record)
    requires Inv(s) && Enabled(s, a) && !a.Save? && !a.Enrich? && Owns(Apply(s, a), p, r)
    ensures Owns(s, p, r) || (a.Check? && a.p == p && r.id == a.newId)
  {
    assert WriterOk(s, p);
  }

  lemma QuietStepKeepsOwnership(s: State, a: Action)
    requires Inv(s) && Enabled(s, a) && !a.Save? && !a.Enrich?
    ensures forall p: nat, q: nat, r, r' ::
      Owns(Apply(s, a), p, r) && Owns(Apply(s, a), q, r') && r.id == r'.id ==> p == q
  {
    var s' := Apply(s, a);
    forall p: nat, q: nat, r, r' | Owns(s', p, r) && Owns(s', q, r') && r.id == r'.id ensures p == q {
      OwnedBefore(s, a, p, r);
      OwnedBefore(s, a, q, r');
      if Owns(s, p, r) { OwnedIdsAreIssued(s, p, r); }
      if Owns(s, q, r') { OwnedIdsAreIssued(s, q, r'); }
    }
  }

  /** A process's writer and enrichment change only in its own steps. */
  lemma OthersAreLeftAlone(s: State, a: Action, p: nat)
    requires Enabled(s, a) && p != a.p
    ensures var s' := Apply(s, a);
      && (p in s'.writers <==> p in s.writers) && (p in s.writers ==> s'.writers[p] == s.writers[p])
      && (p in s'.enrichments <==> p in s.enrichments)
      && (p in s.enrichments ==> s'.enrichments[p] == s.enrichments[p])
  {
    match a {
      case Save(_) =>
      case Emit(_) =>
      case Enrich(_, _) =>
      case _ =>
    }
  }

  lemma QuietStepKeepsWriter(s: State, a: Action, p: nat)
    requires Inv(s) && Enabled(s, a) && !a.Save? && !a.Enrich?
    ensures WriterOk(Apply(s, a), p)
  {
    assert WriterOk(s, p);
    if p != a.p {
      OthersAreLeftAlone(s, a, p);
    } else if a.Finish? {
      assert EnrichmentOk(s, p);
    } else if a.Check? {
    } else if a.Emit? {
    }
  }

  lemma QuietStepKeepsEnrichment(s: State, a: Action, p: nat)
    requires Inv(s) && Enabled(s, a) && !a.Save? && !a.Enrich?
    ensures EnrichmentOk(Apply(s, a), p)
  {
    assert EnrichmentOk(s, p) && WriterOk(s, p);
  }

  lemma QuietStepKeepsAck(s: State, a: Action, p: nat)
    requires Inv(s) && Enabled(s, a) && !a.Save? && !a.Enrich?
    ensures AckOk(Apply(s, a), p)
  {
    assert AckOk(s, p);
    if p != a.p {
      OthersAreLeftAlone(s, a, p);
    } else if a.Check? {
    } else if a.Emit? {
    } else if a.Finish? {
      assert WriterOk(s, p);
    }
  }

  lemma QuietStepKeepsInv(s: State, a: Action)
    requires Inv(s) && Enabled(s, a) && !a.Save? && !a.Enrich?
    ensures Inv(Apply(s, a))
  {
    QuietStepKeepsOwnership(s, a);
    forall p: nat ensures WriterOk(Apply(s, a), p) && EnrichmentOk(Apply(s, a), p) && AckOk(Apply(s, a), p) {
      QuietStepKeepsWriter(s, a, p);
      QuietStepKeepsEnrichment(s, a, p);
      QuietStepKeepsAck(s, a, p);
    }
  }

  lemma InvIsInductive()
    ensures Inductive(Init, Next, Inv)
  {
    forall s, s' | Inv(s) && Next(s, s') ensures Inv(s') {
      var a :| Enabled(s, a) && s' == Apply(s, a);
      match a {
        case Save(p) =>
          assert WriterOk(s, p);
          SaveHasEffect(s, p);
          if SaveEffect(s, s', p, s.writers[p].record) {
            SaveKeepsInv(s, s', p, s.writers[p].record);
          } else {
            QuietStepKeepsInv(s, Raise(p));
          }
        case Enrich(p, raises) => EnrichKeepsInv(s, p, raises);
        case _ => QuietStepKeepsInv(s, a);
      }
    }
  }
}
