/** Any number of extractions interleaving at every await, over the Postgres table.
    A crashed extraction is a process that takes no further step. */
module ExtractionProtocol {
  import opened Domain
  import opened PostgresFacts
  import opened Extraction
  import opened Runs

  /** Where a process stands between two awaits. Closing has read the existing fact and the clock
      but not yet closed; Saving has its final fact in hand but not yet stored. */
  datatype Pc =
    | Idle
    | Resolving(candidate: Fact)
    | Closing(candidate: Fact, existing: string, now: int)
    | Saving(fact: Fact)

  datatype State = State(
    table: Table,
    procs: map<nat, Pc>,
    issued: set<string>,
    clock: int,
    threshold: real)

  datatype Action =
    | Tick(now: int)
    | Begin(p: nat, candidate: Fact)
    | Read(p: nat, pick: nat)
    | Close(p: nat)
    | Save(p: nat)

  function PcOf(s: State, p: nat): Pc {
    if p in s.procs then s.procs[p] else Idle
  }

  /** What _build_candidate yields: a fresh id, an open interval starting at the record's
      recorded_at, which was read from the clock earlier. */
  predicate IsFreshCandidate(s: State, c: Fact) {
    && c.id !in s.issued && c.id != ""
    && c.effectiveTo.None? && c.supersedes.None? && c.lifecycle == Active
    && c.effectiveFrom <= s.clock
  }

  /** A built candidate may enter the protocol: its interval starts where its record was recorded and
      has no end; only an element that is no object or has no numeric confidence is not built. */
  lemma BuiltCandidateIsFresh(s: State, raw: RawFact, src: Source, id: string, now: int)
    requires id !in s.issued && id != "" && src.recordedAt <= s.clock
    ensures var built := BuildCandidate(raw, src, id, now);
      if raw.NoObject? || raw.confidence.Unparsable? then built.Err?
      else built.Ok? && IsFreshCandidate(s, built.value) && built.value.effectiveFrom == src.recordedAt
           && KeyOf(built.value) == FactKey(src.tenant, OrEmpty(raw.entity), OrEmpty(raw.group))
  {
  }

  predicate Enabled(s: State, a: Action) {
    match a
    case Tick(now) => s.clock <= now
    case Begin(p, c) => PcOf(s, p).Idle? && IsFreshCandidate(s, c)
    case Read(p, pick) =>
      PcOf(s, p).Resolving? && Fits(s.table, Arrival(PcOf(s, p).candidate, s.clock, pick))
    case Close(p) => PcOf(s, p).Closing?
    case Save(p) => PcOf(s, p).Saving?
  }

  function AfterRead(s: State, c: Fact, pick: nat): Pc
    requires Fits(s.table, Arrival(c, s.clock, pick))
  {
    match Decide(c, Existing(s.table, Arrival(c, s.clock, pick)), s.threshold)
    case Store(f) => Saving(f)
    case Supersede(e, f) => Closing(c, e, s.clock)
  }

  function Apply(s: State, a: Action): State
    requires Enabled(s, a)
  {
    match a
    case Tick(now) => s.(clock := now)
    case Begin(p, c) => s.(procs := s.procs[p := Resolving(c)], issued := s.issued + {c.id})
    case Read(p, pick) => s.(procs := s.procs[p := AfterRead(s, PcOf(s, p).candidate, pick)])
    case Close(p) =>
      var pc := PcOf(s, p);
      s.(table := Closed(s.table, pc.existing, pc.candidate.tenant, pc.now, pc.candidate.id),
         procs := s.procs[p := Saving(pc.candidate.(supersedes := Some(pc.existing)))])
    case Save(p) =>
      s.(table := Inserted(s.table, RowOf(PcOf(s, p).fact)), procs := s.procs[p := Idle])
  }

  ghost predicate Init(s: State) {
    s.table == [] && s.procs == map[] && s.issued == {}
  }

  ghost predicate Next(s: State, s': State) {
    exists a :: Enabled(s, a) && s' == Apply(s, a)
  }

  // ---------------------------------------------------------------- the invariant

  /** Row i carries this id and belongs to this key. */
  ghost predicate Names(t: Table, i: int, id: string, k: FactKey) {
    0 <= i < |t| && t[i].factId == id && RowKey(t[i]) == k
  }

  /** Row i is closed in favour of the later row j of the same key, whose interval starts no later
      than row i's interval ends. */
  ghost predicate SucceededBy(t: Table, i: int, j: int) {
    && 0 <= i < j < |t|
    && t[i].effectiveTo.Some?
    && t[i].supersededBy == Some(t[j].factId)
    && RowKey(t[j]) == RowKey(t[i])
    && t[j].effectiveFrom <= t[i].effectiveTo.value
  }

  /** Row i is closed in favour of a fact that process p has yet to store. */
  ghost predicate ClaimedBy(s: State, i: int, p: nat) {
    && 0 <= i < |s.table|
    && s.table[i].effectiveTo.Some?
    && PcOf(s, p).Saving?
    && var f := PcOf(s, p).fact;
       && f.supersedes.Some?
       && s.table[i].supersededBy == Some(f.id)
       && KeyOf(f) == RowKey(s.table[i])
       && f.effectiveFrom <= s.table[i].effectiveTo.value
  }

  ghost predicate RowOk(s: State, i: nat)
    requires i < |s.table|
  {
    if IsOpen(s.table[i])
    then s.table[i].supersededBy.None? || exists j :: j < i && Names(s.table, j, s.table[i].supersededBy.value, RowKey(s.table[i]))
    else (exists j :: SucceededBy(s.table, i, j)) || (exists p: nat :: ClaimedBy(s, i, p))
  }

  function Carried(pc: Pc): Fact
    requires !pc.Idle?
  {
    if pc.Saving? then pc.fact else pc.candidate
  }

  ghost predicate ProcOk(s: State, p: nat) {
    var pc := PcOf(s, p);
    pc.Idle? ||
    (var f := Carried(pc);
     && f.id in s.issued && f.id != ""
     && (forall i :: 0 <= i < |s.table| ==> s.table[i].factId != f.id)
     && f.effectiveTo.None?
     && f.effectiveFrom <= s.clock
     && match pc
        case Resolving(_) => f.supersedes.None?
        case Closing(_, e, now) => f.effectiveFrom <= now && exists i :: Names(s.table, i, e, KeyOf(f))
        case Saving(_) => f.supersedes.Some? ==> exists i :: Names(s.table, i, f.supersedes.value, KeyOf(f)))
  }

  ghost predicate Distinct(s: State) {
    && (forall i :: 0 <= i < |s.table| ==> s.table[i].factId in s.issued && s.table[i].factId != "")
    && (forall i, j :: 0 <= i < j < |s.table| ==> s.table[i].factId != s.table[j].factId)
    && (forall p: nat, q: nat :: p != q && !PcOf(s, p).Idle? && !PcOf(s, q).Idle?
          ==> Carried(PcOf(s, p)).id != Carried(PcOf(s, q)).id)
  }

  ghost predicate Inv(s: State) {
    && Distinct(s)
    && (forall p: nat :: ProcOk(s, p))
    && (forall i :: 0 <= i < |s.table| ==> RowOk(s, i))
  }

  lemma CarriedBefore(s: State, a: Action, q: nat)
    requires Enabled(s, a) && !PcOf(Apply(s, a), q).Idle?
    ensures if a.Begin? && a.p == q then Carried(PcOf(Apply(s, a), q)).id == a.candidate.id
            else !PcOf(s, q).Idle? && Carried(PcOf(Apply(s, a), q)).id == Carried(PcOf(s, q)).id
  {
  }

  /** A step hands on the ids that processes carry; only Begin introduces one, and it is fresh. */
  lemma StepsKeepDistinct(s: State, a: Action)
    requires Inv(s) && Enabled(s, a)
    ensures Distinct(Apply(s, a))
  {
    var s' := Apply(s, a);
    forall p: nat, q: nat | p != q && !PcOf(s', p).Idle? && !PcOf(s', q).Idle?
      ensures Carried(PcOf(s', p)).id != Carried(PcOf(s', q)).id
    {
      CarriedBefore(s, a, p);
      CarriedBefore(s, a, q);
      assert ProcOk(s, p) && ProcOk(s, q);
    }
    assert forall q: nat :: ProcOk(s, q);
    if a.Save? {
      assert ProcOk(s, a.p);
      assert s'.table == s.table + [RowOf(PcOf(s, a.p).fact)];
    } else if a.Close? {
      assert forall i :: 0 <= i < |s.table| ==> s'.table[i].factId == s.table[i].factId;
    }
  }

  /** What a close does to the table: row e, which the process read, gets its end and successor. */
  lemma CloseTouchesOneRow(s: State, p: nat) returns (e: int)
    requires Inv(s) && PcOf(s, p).Closing?
    ensures Names(s.table, e, PcOf(s, p).existing, KeyOf(PcOf(s, p).candidate))
    ensures var pc := PcOf(s, p);
      Apply(s, Close(p)).table ==
        s.table[e := s.table[e].(effectiveTo := Some(pc.now), supersededBy := Some(pc.candidate.id))]
  {
    var pc := PcOf(s, p);
    assert ProcOk(s, p);
    e :| Names(s.table, e, pc.existing, KeyOf(pc.candidate));
  }

  lemma CloseKeepsRows(s: State, p: nat)
    requires Inv(s) && PcOf(s, p).Closing?
    ensures forall i :: 0 <= i < |s.table| ==> RowOk(Apply(s, Close(p)), i)
  {
    var s' := Apply(s, Close(p));
    var t, t' := s.table, s'.table;
    var e := CloseTouchesOneRow(s, p);
    assert ProcOk(s, p);
    forall i | 0 <= i < |t'| ensures RowOk(s', i) {
      assert RowOk(s, i);
      if i == e {
        assert ClaimedBy(s', i, p);
      } else if IsOpen(t[i]) {
        if t[i].supersededBy.Some? {
          var j :| j < i && Names(t, j, t[i].supersededBy.value, RowKey(t[i]));
          assert Names(t', j, t'[i].supersededBy.value, RowKey(t'[i]));
        }
      } else if j :| SucceededBy(t, i, j) {
        assert SucceededBy(t', i, j);
      } else {
        var q: nat :| ClaimedBy(s, i, q);
        assert ClaimedBy(s', i, q);
      }
    }
  }

  lemma CloseKeepsInv(s: State, p: nat)
    requires Inv(s) && PcOf(s, p).Closing?
    ensures Inv(Apply(s, Close(p)))
  {
    var s' := Apply(s, Close(p));
    StepsKeepDistinct(s, Close(p));
    CloseKeepsRows(s, p);
    var e := CloseTouchesOneRow(s, p);
    assert forall i, id, k :: Names(s.table, i, id, k) ==> Names(s'.table, i, id, k);
    forall q: nat ensures ProcOk(s', q) {
      assert ProcOk(s, q);
      if q == p {
        var f := PcOf(s', p).fact;
        assert Names(s'.table, e, f.supersedes.value, KeyOf(f));
      }
    }
  }

  lemma SaveKeepsInv(s: State, p: nat)
    requires Inv(s) && PcOf(s, p).Saving?
    ensures Inv(Apply(s, Save(p)))
  {
    var s' := Apply(s, Save(p));
    StepsKeepDistinct(s, Save(p));
    var f := PcOf(s, p).fact;
    var t, t', n := s.table, s'.table, |s.table|;
    assert ProcOk(s, p);
    assert t' == t + [RowOf(f)];
    assert forall i, id, k :: Names(t, i, id, k) ==> Names(t', i, id, k);
    forall q: nat ensures ProcOk(s', q) {
      assert ProcOk(s, q);
    }
    forall i | 0 <= i < |t'| ensures RowOk(s', i) {
      if i < n {
        assert RowOk(s, i);
        if IsOpen(t[i]) {
          if t[i].supersededBy.Some? {
            var j :| j < i && Names(t, j, t[i].supersededBy.value, RowKey(t[i]));
            assert Names(t', j, t'[i].supersededBy.value, RowKey(t'[i]));
          }
        } else if j :| SucceededBy(t, i, j) {
          assert SucceededBy(t', i, j);
        } else {
          var q :| ClaimedBy(s, i, q);
          if q == p {
            assert SucceededBy(t', i, n);
          } else {
            assert ClaimedBy(s', i, q);
          }
        }
      } else if f.supersedes.Some? {
        var j :| Names(t, j, f.supersedes.value, KeyOf(f));
        assert t[j].factId != "" && t'[n].supersededBy == f.supersedes;
        assert Names(t', j, f.supersedes.value, RowKey(t'[n])) && j < n;
      }
    }
  }

  lemma OtherStepsKeepInv(s: State, a: Action)
    requires Inv(s) && Enabled(s, a) && !a.Close? && !a.Save?
    ensures Inv(Apply(s, a))
  {
    var s' := Apply(s, a);
    StepsKeepDistinct(s, a);
    assert s'.table == s.table;
    forall q: nat ensures ProcOk(s', q) {
      assert ProcOk(s, q);
      if a.Read? && q == a.p {
        var arrival := Arrival(PcOf(s, q).candidate, s.clock, a.pick);
        if OpenOf(s.table, KeyOf(arrival.candidate)) != [] {
          assert Names(s.table, a.pick, s.table[a.pick].factId, KeyOf(arrival.candidate));
        }
      }
    }
    forall i | 0 <= i < |s'.table| ensures RowOk(s', i) {
      assert RowOk(s, i);
      if !IsOpen(s.table[i]) && !exists j :: SucceededBy(s.table, i, j) {
        var q :| ClaimedBy(s, i, q);
        assert ClaimedBy(s', i, q);
      }
    }
  }

  lemma InvIsInductive()
    ensures Inductive(Init, Next, Inv)
  {
    forall s, s' | Inv(s) && Next(s, s') ensures Inv(s') {
      var a :| Enabled(s, a) && s' == Apply(s, a);
      match a {
        case Close(p) => CloseKeepsInv(s, p);
        case Save(p) => SaveKeepsInv(s, p);
        case _ => OtherStepsKeepInv(s, a);
      }
    }
  }
}
