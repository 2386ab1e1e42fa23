/** What every interleaving of writers and enrichments guarantees, and where the stores differ. */
module WriteGuarantees {
  import opened Domain
  import opened Records
  import opened WriteProtocol
  import opened Runs

  /** On either store, at most one record per tenant and idempotency key, in every reachable table. */
  lemma AtMostOneRecordPerKey(trace: seq<State>, n: nat, tenant: string, key: string, i: string, j: string)
    requires IsRun(Init, Next, trace) && n < |trace|
    requires i in WithKey(trace[n].rows, tenant, key) && j in WithKey(trace[n].rows, tenant, key)
    ensures i == j
  {
    InvIsInductive();
    InvariantOnRuns(Init, Next, Inv, trace, n);
  }

  /** On Postgres all acknowledged writes for one key carry the same memory id, and its record is
      still stored under that key. */
  lemma AcknowledgedWritesAgree(trace: seq<State>, n: nat, p: nat, q: nat)
    requires IsRun(Init, Next, trace) && n < |trace| && trace[n].semantics.Postgres?
    requires p in trace[n].writers && trace[n].writers[p].Acked?
    requires q in trace[n].writers && trace[n].writers[q].Acked?
    requires trace[n].writers[p].req.tenant == trace[n].writers[q].req.tenant
    requires trace[n].writers[p].req.key.Some? && trace[n].writers[p].req.key == trace[n].writers[q].req.key
    ensures var w := trace[n].writers[p];
      && w.memoryId == trace[n].writers[q].memoryId
      && WithKey(trace[n].rows, w.req.tenant, w.req.key.value) == {w.memoryId}
  {
    InvIsInductive();
    InvariantOnRuns(Init, Next, Inv, trace, n);
    var s, w, w' := trace[n], trace[n].writers[p], trace[n].writers[q];
    assert AckOk(s, p) && AckOk(s, q);
    assert Collide(s.rows[w.memoryId], s.rows[w'.memoryId]);
    forall i | i in WithKey(s.rows, w.req.tenant, w.req.key.value) ensures i == w.memoryId {
      assert Collide(s.rows[i], s.rows[w.memoryId]);
    }
  }

  // ---------------------------------------------------------------- status and lifecycle

  function Rank(p: Pipeline): nat {
    match p
    case Pending => 0
    case Enriched => 1
    case PartialFailed => 2
    case Skipped => 3
  }

  /** Forward along PENDING, ENRICHED, PARTIAL_ENRICHMENT_FAILED; ENRICHMENT_SKIPPED stands alone. */
  predicate Forward(a: Pipeline, b: Pipeline) {
    if a.Skipped? || b.Skipped? then a == b else Rank(a) <= Rank(b)
  }

  /** Of a record present in both tables only the status differs, and only forward; a record that
      was once saved and is gone does not come back. */
  ghost predicate OnlyStatusMoves(s: State, s': State) {
    && (forall i :: i in s.rows && i in s'.rows ==>
          && s'.rows[i] == s.rows[i].(pipeline := s'.rows[i].pipeline)
          && Forward(s.rows[i].pipeline, s'.rows[i].pipeline))
    && (forall i :: i in s.saved && i !in s.rows ==> i !in s'.rows)
    && s.saved + s.rows.Keys <= s'.saved + s'.rows.Keys
  }

  lemma SaveMovesForward(s: State, p: nat)
    requires Inv(s) && Enabled(s, Save(p))
    ensures OnlyStatusMoves(s, Apply(s, Save(p)))
  {
    assert WriterOk(s, p);
    SaveHasEffect(s, p);
    var s' := Apply(s, Save(p));
    if s'.rows != s.rows {
      assert SaveEffect(s, s', p, s.writers[p].record);
    }
  }

  lemma EnrichMovesForward(s: State, p: nat, raises: bool)
    requires Inv(s) && Enabled(s, Enrich(p, raises))
    ensures OnlyStatusMoves(s, Apply(s, Enrich(p, raises)))
  {
    EnrichHasEffect(s, p, raises);
    assert EnrichmentOk(s, p);
  }

  lemma StepMovesForward(s: State, a: Action)
    requires Inv(s) && Enabled(s, a)
    ensures OnlyStatusMoves(s, Apply(s, a))
  {
    match a {
      case Save(p) => SaveMovesForward(s, p);
      case Enrich(p, raises) => EnrichMovesForward(s, p, raises);
      case _ => assert Apply(s, a).rows == s.rows;
    }
  }

  lemma MovesCompose(a: State, b: State, c: State)
    requires OnlyStatusMoves(a, b) && OnlyStatusMoves(b, c)
    ensures OnlyStatusMoves(a, c)
  {
    forall i | i in a.rows && i in c.rows
      ensures c.rows[i] == a.rows[i].(pipeline := c.rows[i].pipeline)
      ensures Forward(a.rows[i].pipeline, c.rows[i].pipeline)
    {
      assert i in b.saved + b.rows.Keys;
      assert b.rows[i] == a.rows[i].(pipeline := b.rows[i].pipeline);
      assert c.rows[i] == b.rows[i].(pipeline := c.rows[i].pipeline);
    }
  }

  /** Between any two points of any run a record that is still stored is ACTIVE, unchanged but for
      its pipeline status, and that has only moved forward. */
  lemma EnrichmentNeverTouchesLifecycle(trace: seq<State>, m: nat, n: nat, i: string)
    requires IsRun(Init, Next, trace) && m <= n < |trace|
    requires i in trace[m].rows && i in trace[n].rows
    ensures var r, r' := trace[m].rows[i], trace[n].rows[i];
      && r' == r.(pipeline := r'.pipeline)
      && r'.lifecycle == Active
      && Forward(r.pipeline, r'.pipeline)
  {
    InvIsInductive();
    forall s, s' | Inv(s) && Next(s, s') ensures OnlyStatusMoves(s, s') {
      var a :| Enabled(s, a) && s' == Apply(s, a);
      StepMovesForward(s, a);
    }
    forall a, b, c | OnlyStatusMoves(a, b) && OnlyStatusMoves(b, c) ensures OnlyStatusMoves(a, c) {
      MovesCompose(a, b, c);
    }
    OrderedOnRuns(Init, Next, Inv, OnlyStatusMoves, trace, m, n);
    InvIsInductive();
    InvariantOnRuns(Init, Next, Inv, trace, n);
  }

  // ---------------------------------------------------------------- the SQLite race

  ghost function Taken(s: State, a: Action): (s': State)
    requires Enabled(s, a)
    ensures Next(s, s')
  {
    Apply(s, a)
  }

  /** On SQLite two writers of one key that both look before either saves are both acknowledged,
      with different ids, and only the second one's record is left. */
  lemma SqliteLosesAnAcknowledgedWrite() returns (trace: seq<State>)
    ensures IsRun(Init, Next, trace)
    ensures var s := trace[|trace| - 1];
      && s.semantics.Sqlite?
      && 0 in s.writers && 1 in s.writers && s.writers[0].Acked? && s.writers[1].Acked?
      && s.writers[0].req == s.writers[1].req && s.writers[0].req.key.Some?
      && s.writers[0].memoryId != s.writers[1].memoryId
      && s.rows.Keys == {s.writers[1].memoryId}
  {
    var req := Request("t", "u", "text", Episodic, Some("k"), false, false);
    var s := State(Sqlite, false, map[], {}, {}, map[], map[]);
    var r0, r1 := NewRecord(s, req, "a", 1), NewRecord(s, req, "b", 2);
    var before := BothLookFirst(s, req, r0, r1);
    var first := WriterCompletes(before[4], 0, req, r0);
    var second := WriterCompletes(first[2], 1, req, r1);
    Join(Init, Next, before, first);
    Join(Init, Next, before + first, second);
    trace := before + first + second;
    assert Collide(r0, r1);
  }

  lemma BothLookFirst(s: State, req: Request, r0: Record, r1: Record) returns (trace: seq<State>)
    requires Init(s) && req.key.Some? && r0 == NewRecord(s, req, "a", 1) && r1 == NewRecord(s, req, "b", 2)
    ensures |trace| == 5 && trace[0] == s && IsRun(Init, Next, trace)
    ensures trace[4] == s.(writers := map[0 := Saving(req, r0), 1 := Saving(req, r1)], issued := {"a", "b"})
  {
    var s1 := Taken(s, Arrive(0, req));
    var s2 := Taken(s1, Arrive(1, req));
    var s3 := Taken(s2, Check(0, None, "a", 1));
    var s4 := Taken(s3, Check(1, None, "b", 2));
    trace := [s, s1, s2, s3, s4];
  }

  /** A writer that has looked up its key saves, audits, announces and is acknowledged. */
  lemma WriterCompletes(s: State, p: nat, req: Request, r: Record) returns (tail: seq<State>)
    requires s.semantics.Sqlite? && p in s.writers && s.writers[p] == Saving(req, r) && !req.extract
    ensures |tail| == 3 && Next(s, tail[0])
    ensures forall i, j :: 0 <= i < 3 && j == i + 1 && j < 3 ==> Next(tail[i], tail[j])
    ensures tail[2] == s.(rows := SqliteSaved(s.rows, r), saved := s.saved + {r.id},
                          writers := s.writers[p := Acked(req, r.id, false)])
  {
    var s1 := Taken(s, Save(p));
    var s2 := Taken(s1, Audit(p));
    var s3 := Taken(s2, Emit(p));
    tail := [s1, s2, s3];
  }
}
