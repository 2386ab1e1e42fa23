/** Any number of extractions interleaving at every await over the SQLite fact table. Any of them may
    stop for good between two steps; a raised error ends its extraction. */
module SqliteFactRaces {
  import opened Domain
  import opened Extraction
  import opened SqliteFacts
  import opened Runs

  datatype Pc = Idle | Resolving(candidate: Fact) | Closing(candidate: Fact, existing: string) | Saving(fact: Fact)

  datatype State = State(rows: Facts, procs: map<nat, Pc>, issued: set<string>, threshold: real)

  datatype Action =
    | Begin(p: nat, candidate: Fact)
    | Read(p: nat, existing: Option<string>)
    | Close(p: nat, now: int)
    | Save(p: nat)

  function PcOf(s: State, p: nat): Pc {
    if p in s.procs then s.procs[p] else Idle
  }

  ghost predicate Enabled(s: State, a: Action) {
    match a
    case Begin(p, c) =>
      PcOf(s, p).Idle? && c.id !in s.issued && c.effectiveTo.None? && c.lifecycle == Active
    case Read(p, existing) => PcOf(s, p).Resolving? && ReadsCurrent(s.rows, PcOf(s, p).candidate, existing)
    case Close(p, _) => PcOf(s, p).Closing?
    case Save(p) => PcOf(s, p).Saving?
  }

  ghost function Apply(s: State, a: Action): State
    requires Enabled(s, a)
  {
    match a
    case Begin(p, c) => s.(procs := s.procs[p := Resolving(c)], issued := s.issued + {c.id})
    case Read(p, existing) =>
      var c := PcOf(s, p).candidate;
      s.(procs := s.procs[p := match Decide(c, existing, s.threshold)
                               case Store(f) => Saving(f)
                               case Supersede(e, _) => Closing(c, e)])
    case Close(p, now) =>
      var c, e := PcOf(s, p).candidate, PcOf(s, p).existing;
      if CloseOutcome(s.rows, e, c.tenant, c.id).Raised? then s.(procs := s.procs[p := Idle])
      else s.(rows := AfterClose(s.rows, e, c.tenant, now, c.id),
              procs := s.procs[p := Saving(c.(supersedes := Some(e)))])
    case Save(p) =>
      var f := PcOf(s, p).fact;
      s.(rows := s.rows[f.id := f], procs := s.procs[p := Idle])
  }

  ghost predicate Init(s: State) {
    s.rows == map[] && s.procs == map[] && s.issued == {}
  }

  ghost predicate Next(s: State, s': State) {
    exists a :: Enabled(s, a) && s' == Apply(s, a)
  }

  // ---------------------------------------------------------------- the invariant

  function Carried(pc: Pc): Fact
    requires !pc.Idle?
  {
    if pc.Saving? then pc.fact else pc.candidate
  }

  /** A process carries an open fact under an id of its own that is not stored yet. */
  ghost predicate ProcOk(s: State, p: nat) {
    !PcOf(s, p).Idle? ==>
      var f := Carried(PcOf(s, p));
      f.id in s.issued && f.id !in s.rows && f.effectiveTo.None?
  }

  ghost predicate Distinct(s: State) {
    forall p: nat, q: nat :: p != q && !PcOf(s, p).Idle? && !PcOf(s, q).Idle?
      ==> Carried(PcOf(s, p)).id != Carried(PcOf(s, q)).id
  }

  ghost predicate Inv(s: State) {
    && s.rows.Keys <= s.issued
    && (forall id :: id in s.rows ==> s.rows[id].id == id && s.rows[id].effectiveTo.None?)
    && (forall p: nat :: ProcOk(s, p))
    && Distinct(s)
  }

  /** A close names a successor that is not stored, so it raises and changes nothing. */
  lemma EveryCloseRaises(s: State, p: nat, now: int)
    requires Inv(s) && Enabled(s, Close(p, now))
    ensures Apply(s, Close(p, now)) == s.(procs := s.procs[p := Idle])
  {
    assert ProcOk(s, p);
  }

  lemma CarriedBefore(s: State, a: Action, q: nat)
    requires Inv(s) && Enabled(s, a) && !PcOf(Apply(s, a), q).Idle?
    ensures if a.Begin? && a.p == q then Carried(PcOf(Apply(s, a), q)) == a.candidate
            else !PcOf(s, q).Idle? && Carried(PcOf(Apply(s, a), q)).id == Carried(PcOf(s, q)).id
                 && Carried(PcOf(Apply(s, a), q)).effectiveTo == Carried(PcOf(s, q)).effectiveTo
  {
    if a.Close? { EveryCloseRaises(s, a.p, a.now); }
  }

  lemma StepKeepsInv(s: State, a: Action)
    requires Inv(s) && Enabled(s, a)
    ensures Inv(Apply(s, a))
  {
    var s' := Apply(s, a);
    if a.Close? { EveryCloseRaises(s, a.p, a.now); }
    assert ProcOk(s, a.p);
    forall q: nat ensures ProcOk(s', q) {
      assert ProcOk(s, q);
      if !PcOf(s', q).Idle? { CarriedBefore(s, a, q); }
    }
    forall p: nat, q: nat | p != q && !PcOf(s', p).Idle? && !PcOf(s', q).Idle?
      ensures Carried(PcOf(s', p)).id != Carried(PcOf(s', q)).id
    {
      CarriedBefore(s, a, p);
      CarriedBefore(s, a, q);
      assert ProcOk(s, p) && ProcOk(s, q);
    }
  }

  lemma InvIsInductive()
    ensures Inductive(Init, Next, Inv)
  {
    forall s, s' | Inv(s) && Next(s, s') ensures Inv(s') {
      var a :| Enabled(s, a) && s' == Apply(s, a);
      StepKeepsInv(s, a);
    }
  }

  // ---------------------------------------------------------------- two current facts

  ghost predicate AtMostOne(rows: Facts, k: FactKey) {
    forall x, y :: x in CurrentIds(rows, k) && y in CurrentIds(rows, k) ==> x == y
  }

  /** An ACTIVE fact of the key is saved although the key has a current one, which was not there when
      its extraction read. */
  ghost predicate StaleSave(s: State, s': State, k: FactKey) {
    exists p: nat :: PcOf(s, p).Saving? && s' == Apply(s, Save(p))
      && PcOf(s, p).fact.lifecycle == Active && KeyOf(PcOf(s, p).fact) == k && CurrentIds(s.rows, k) != {}
  }

  /** A step adds at most the saved fact to a key's current facts, and takes none away. */
  lemma CurrentAfter(s: State, a: Action, k: FactKey)
    requires Inv(s) && Enabled(s, a)
    ensures CurrentIds(Apply(s, a).rows, k) ==
      CurrentIds(s.rows, k) + if a.Save? && IsCurrent(PcOf(s, a.p).fact, k) then {PcOf(s, a.p).fact.id} else {}
    ensures a.Save? ==> PcOf(s, a.p).fact.id !in CurrentIds(s.rows, k)
  {
    assert ProcOk(s, a.p);
    if a.Close? { EveryCloseRaises(s, a.p, a.now); }
  }

  /** From at most one current fact a step leads to two exactly if it is a stale save; two stay two. */
  lemma StepMakesTwoIff(s: State, s': State, k: FactKey)
    requires Inv(s) && Next(s, s')
    ensures AtMostOne(s'.rows, k) <==> AtMostOne(s.rows, k) && !StaleSave(s, s', k)
  {
    var a :| Enabled(s, a) && s' == Apply(s, a);
    CurrentAfter(s, a, k);
    if a.Save? && IsCurrent(PcOf(s, a.p).fact, k) && CurrentIds(s.rows, k) != {} {
      var x :| x in CurrentIds(s.rows, k);
      assert x in CurrentIds(s'.rows, k) && PcOf(s, a.p).fact.id in CurrentIds(s'.rows, k);
    }
    if StaleSave(s, s', k) {
      var p: nat :| PcOf(s, p).Saving? && s' == Apply(s, Save(p))
        && PcOf(s, p).fact.lifecycle == Active && KeyOf(PcOf(s, p).fact) == k && CurrentIds(s.rows, k) != {};
      assert ProcOk(s, p);
      CurrentAfter(s, Save(p), k);
      var x :| x in CurrentIds(s.rows, k);
      assert x in CurrentIds(s'.rows, k) && PcOf(s, p).fact.id in CurrentIds(s'.rows, k);
    }
    assert AtMostOne(s'.rows, k) ==> AtMostOne(s.rows, k);
  }

  ghost predicate StaleBefore(trace: seq<State>, n: nat, k: FactKey)
    requires n < |trace|
  {
    exists i, j :: 0 <= i < n && j == i + 1 && StaleSave(trace[i], trace[j], k)
  }

  lemma StaleAtLast(trace: seq<State>, n: nat, k: FactKey)
    requires 0 < n < |trace|
    ensures StaleBefore(trace, n, k) <==> StaleBefore(trace, n - 1, k) || StaleSave(trace[n - 1], trace[n], k)
  {
    if StaleBefore(trace, n, k) {
      var i, j :| 0 <= i < n && j == i + 1 && StaleSave(trace[i], trace[j], k);
      assert i < n - 1 ==> StaleBefore(trace, n - 1, k);
    }
  }

  /** In any interleaving a key has two ACTIVE open facts exactly if some extraction of it saved an
      ACTIVE fact after another one had done so since it read. */
  lemma {:induction false} AtMostOneIff(trace: seq<State>, n: nat, k: FactKey)
    requires IsRun(Init, Next, trace) && n < |trace|
    ensures AtMostOne(trace[n].rows, k) <==> !StaleBefore(trace, n, k)
    decreases n
  {
    if n == 0 {
    } else {
      AtMostOneIff(trace, n - 1, k);
      StaleAtLast(trace, n, k);
      InvIsInductive();
      InvariantOnRuns(Init, Next, Inv, trace, n - 1);
      StepMakesTwoIff(trace[n - 1], trace[n], k);
    }
  }

  /** Facts are only ever added, and nobody closes one. */
  lemma FactsAreOnlyAdded(trace: seq<State>, m: nat, n: nat)
    requires IsRun(Init, Next, trace) && m <= n < |trace|
    ensures forall id :: id in trace[m].rows ==> id in trace[n].rows && trace[n].rows[id] == trace[m].rows[id]
  {
    InvIsInductive();
    var rel := (s: State, s': State) => forall id :: id in s.rows ==> id in s'.rows && s'.rows[id] == s.rows[id];
    forall s, s' | Inv(s) && Next(s, s') ensures rel(s, s') {
      var a :| Enabled(s, a) && s' == Apply(s, a);
      assert ProcOk(s, a.p);
      if a.Close? { EveryCloseRaises(s, a.p, a.now); }
    }
    OrderedOnRuns(Init, Next, Inv, rel, trace, m, n);
  }

  // ---------------------------------------------------------------- a concrete run

  ghost function Did(s: State, a: Action): (s': State)
    requires Enabled(s, a)
    ensures Next(s, s')
  {
    Apply(s, a)
  }

  /** One extraction that nothing interrupts is a run of the protocol: it begins, reads, closes if it has
      to, and saves or raises, and leaves what the sequential engine leaves. */
  lemma AttemptIsAnInterleaving(s: State, p: nat, a: Attempt) returns (steps: seq<State>)
    requires Inv(s) && PcOf(s, p).Idle? && a.candidate.id !in s.issued
    requires a.candidate.effectiveTo.None? && a.candidate.lifecycle == Active
    requires ReadsCurrent(s.rows, a.candidate, a.existing)
    ensures IsPath(Next, s, steps)
    ensures var last := steps[|steps| - 1];
      && Follows(s.rows, a, s.threshold, last.rows)
      && last.procs == s.procs[p := Idle] && last.threshold == s.threshold
  {
    var s1 := Did(s, Begin(p, a.candidate));
    var s2 := Did(s1, Read(p, a.existing));
    var s3 := if PcOf(s2, p).Saving? then Did(s2, Save(p)) else Did(s2, Close(p, a.now));
    steps := [s, s1, s2, s3];
  }

  /** Two extractions of one key that both read before either saves leave it with two current facts. */
  lemma BothReadFirst(c: Fact, d: Fact) returns (trace: seq<State>)
    requires c.id != d.id && KeyOf(c) == KeyOf(d) && c.effectiveTo.None? && d.effectiveTo.None?
    requires c.lifecycle == Active && d.lifecycle == Active
    ensures IsRun(Init, Next, trace)
    ensures CurrentIds(trace[|trace| - 1].rows, KeyOf(c)) == {c.id, d.id}
  {
    var s0 := State(map[], map[], {}, 0.6);
    var s1 := Did(s0, Begin(0, c));
    var s2 := Did(s1, Begin(1, d));
    var s3 := Did(s2, Read(0, None));
    var s4 := Did(s3, Read(1, None));
    var s5 := Did(s4, Save(0));
    var s6 := Did(s5, Save(1));
    assert s6.rows == map[c.id := c, d.id := d];
    trace := [s0, s1, s2, s3, s4, s5, s6];
  }
}
