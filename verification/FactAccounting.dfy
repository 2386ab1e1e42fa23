/** Extractions that run one after another: how many open facts a key has, and that such a run
    is one of the interleavings of the protocol. */
module FactAccounting {
  import opened Domain
  import opened PostgresFacts
  import opened Extraction
  import opened ExtractionProtocol
  import opened Runs

  function OpenCount(t: Table, k: FactKey): nat {
    |OpenOf(t, k)|
  }

  ghost predicate UniqueIds(t: Table) {
    forall i, j :: 0 <= i < j < |t| ==> t[i].factId != t[j].factId
  }

  ghost predicate Mentions(t: Table, id: string) {
    exists i :: 0 <= i < |t| && t[i].factId == id
  }

  /** The candidates carry ids that neither the table nor another candidate uses. */
  ghost predicate FreshIds(t: Table, arrivals: seq<Arrival>) {
    && (forall i :: 0 <= i < |arrivals| ==>
          !Mentions(t, arrivals[i].candidate.id) && arrivals[i].candidate.effectiveTo.None?)
    && (forall i, j :: 0 <= i < j < |arrivals| ==> arrivals[i].candidate.id != arrivals[j].candidate.id)
  }

  lemma AppendingCounts(t: Table, r: Row, k: FactKey)
    ensures OpenCount(t + [r], k) == OpenCount(t, k) + if IsOpen(r) && RowKey(r) == k then 1 else 0
  {
    assert (t + [r])[..|t|] == t;
  }

  /** Closing one open row of key k0 costs that key one open row and no other key any. */
  lemma {:induction false} ClosingCounts(t: Table, i: int, to: int, newId: string, k: FactKey)
    requires UniqueIds(t) && 0 <= i < |t| && IsOpen(t[i])
    ensures OpenCount(Closed(t, t[i].factId, t[i].tenant, to, newId), k)
         == OpenCount(t, k) - if RowKey(t[i]) == k then 1 else 0
  {
    var n := |t| - 1;
    var c := Closed(t, t[i].factId, t[i].tenant, to, newId);
    if i == n {
      assert c[..n] == t[..n];
    } else {
      ClosingCounts(t[..n], i, to, newId, k);
      assert c[..n] == Closed(t[..n], t[i].factId, t[i].tenant, to, newId);
    }
  }

  lemma AppendingKeepsUnique(t: Table, r: Row)
    requires UniqueIds(t) && !Mentions(t, r.factId)
    ensures Inserted(t, r) == t + [r] && UniqueIds(t + [r])
    ensures forall id :: Mentions(t + [r], id) ==> Mentions(t, id) || id == r.factId
  {
    forall id | Mentions(t + [r], id) && id != r.factId ensures Mentions(t, id) {
      var i :| 0 <= i < |t + [r]| && (t + [r])[i].factId == id;
      assert t[i].factId == id;
    }
  }

  lemma ClosingKeepsIds(t: Table, id: string, tenant: string, to: int, newId: string)
    ensures var c := Closed(t, id, tenant, to, newId);
      && (forall i :: 0 <= i < |t| ==> c[i].factId == t[i].factId)
      && (UniqueIds(t) ==> UniqueIds(c))
      && (forall x :: Mentions(c, x) <==> Mentions(t, x))
  {
    var c := Closed(t, id, tenant, to, newId);
    assert forall i :: 0 <= i < |t| ==> c[i].factId == t[i].factId;
  }

  lemma ProcessedCounts(t: Table, a: Arrival, threshold: real, k: FactKey)
    requires UniqueIds(t) && !Mentions(t, a.candidate.id) && a.candidate.effectiveTo.None? && Fits(t, a)
    ensures var t' := Processed(t, a, threshold);
      && UniqueIds(t')
      && (forall id :: Mentions(t', id) ==> Mentions(t, id) || id == a.candidate.id)
      && OpenCount(t', k) == OpenCount(t, k)
           + if KeyOf(a.candidate) == k && (OpenCount(t, k) == 0 || a.candidate.confidence < threshold) then 1 else 0
  {
    match Decide(a.candidate, Existing(t, a), threshold) {
      case Store(f) =>
        AppendingKeepsUnique(t, RowOf(f));
        AppendingCounts(t, RowOf(f), k);
      case Supersede(e, f) =>
        var c := Closed(t, e, a.candidate.tenant, a.now, a.candidate.id);
        ClosingKeepsIds(t, e, a.candidate.tenant, a.now, a.candidate.id);
        AppendingKeepsUnique(c, RowOf(f));
        ClosingCounts(t, a.pick, a.now, a.candidate.id, k);
        AppendingCounts(c, RowOf(f), k);
    }
  }

  predicate Arrived(arrivals: seq<Arrival>, k: FactKey) {
    exists i :: 0 <= i < |arrivals| && KeyOf(arrivals[i].candidate) == k
  }

  /** How many candidates of the key came below the threshold after the key had its first fact. */
  ghost function LowAfterFirst(arrivals: seq<Arrival>, k: FactKey, threshold: real): nat {
    if arrivals == [] then 0
    else
      var n := |arrivals| - 1;
      var c := arrivals[n].candidate;
      LowAfterFirst(arrivals[..n], k, threshold)
        + if KeyOf(c) == k && Arrived(arrivals[..n], k) && c.confidence < threshold then 1 else 0
  }

  lemma {:induction false} IdsOfRun(arrivals: seq<Arrival>, threshold: real)
    requires FreshIds([], arrivals) && AllFit([], arrivals, threshold)
    ensures UniqueIds(ProcessedAll([], arrivals, threshold))
    ensures forall id :: Mentions(ProcessedAll([], arrivals, threshold), id)
              ==> exists i :: 0 <= i < |arrivals| && arrivals[i].candidate.id == id
    decreases |arrivals|, 1
  {
    if arrivals == [] {
    } else {
      var n := |arrivals| - 1;
      LastIsFresh(arrivals, threshold);
      var t, t' := ProcessedAll([], arrivals[..n], threshold), ProcessedAll([], arrivals, threshold);
      ProcessedCounts(t, arrivals[n], threshold, KeyOf(arrivals[n].candidate));
      forall id | Mentions(t', id) ensures exists i :: 0 <= i < |arrivals| && arrivals[i].candidate.id == id {
        if Mentions(t, id) {
          var i :| 0 <= i < n && arrivals[..n][i].candidate.id == id;
          assert arrivals[i].candidate.id == id;
        }
      }
    }
  }

  lemma LastIsFresh(arrivals: seq<Arrival>, threshold: real)
    requires arrivals != [] && FreshIds([], arrivals) && AllFit([], arrivals, threshold)
    ensures var n := |arrivals| - 1;
      && FreshIds([], arrivals[..n])
      && UniqueIds(ProcessedAll([], arrivals[..n], threshold))
      && (forall id :: Mentions(ProcessedAll([], arrivals[..n], threshold), id)
            ==> exists i :: 0 <= i < n && arrivals[..n][i].candidate.id == id)
      && !Mentions(ProcessedAll([], arrivals[..n], threshold), arrivals[n].candidate.id)
      && arrivals[n].candidate.effectiveTo.None?
    decreases |arrivals|, 0
  {
    var n := |arrivals| - 1;
    IdsOfRun(arrivals[..n], threshold);
    assert forall i :: 0 <= i < n ==> arrivals[..n][i].candidate.id != arrivals[n].candidate.id;
  }

  lemma ArrivedWithLast(arrivals: seq<Arrival>, k: FactKey)
    requires arrivals != []
    ensures var n := |arrivals| - 1;
      Arrived(arrivals, k) <==> Arrived(arrivals[..n], k) || KeyOf(arrivals[n].candidate) == k
  {
    var n := |arrivals| - 1;
    if i :| 0 <= i < n && KeyOf(arrivals[..n][i].candidate) == k {
      assert KeyOf(arrivals[i].candidate) == k;
    }
    if i :| 0 <= i < |arrivals| && KeyOf(arrivals[i].candidate) == k {
      assert i < n ==> KeyOf(arrivals[..n][i].candidate) == k;
    }
  }

  ghost predicate Accounted(arrivals: seq<Arrival>, threshold: real, k: FactKey)
    requires AllFit([], arrivals, threshold)
  {
    && OpenCount(ProcessedAll([], arrivals, threshold), k)
       == (if Arrived(arrivals, k) then 1 + LowAfterFirst(arrivals, k, threshold) else 0)
    && (!Arrived(arrivals, k) ==> LowAfterFirst(arrivals, k, threshold) == 0)
  }

  lemma LastArrivalCounts(arrivals: seq<Arrival>, threshold: real, k: FactKey)
    requires arrivals != [] && AllFit([], arrivals, threshold)
    requires UniqueIds(ProcessedAll([], arrivals[..|arrivals| - 1], threshold))
    requires arrivals[|arrivals| - 1].candidate.effectiveTo.None?
    requires !Mentions(ProcessedAll([], arrivals[..|arrivals| - 1], threshold), arrivals[|arrivals| - 1].candidate.id)
    requires Accounted(arrivals[..|arrivals| - 1], threshold, k)
    ensures Accounted(arrivals, threshold, k)
  {
    var n := |arrivals| - 1;
    var t := ProcessedAll([], arrivals[..n], threshold);
    ProcessedCounts(t, arrivals[n], threshold, k);
    ArrivedWithLast(arrivals, k);
    assert ProcessedAll([], arrivals, threshold) == Processed(t, arrivals[n], threshold);
    assert OpenCount(t, k) == 0 <==> !Arrived(arrivals[..n], k);
  }

  /** The number of open facts of a key after any sequence of completed extractions: one, plus one
      for every low-confidence candidate that came after the key's first fact. */
  lemma {:induction false} OpenFactAccounting(arrivals: seq<Arrival>, threshold: real, k: FactKey)
    requires FreshIds([], arrivals) && AllFit([], arrivals, threshold)
    ensures OpenCount(ProcessedAll([], arrivals, threshold), k)
         == if Arrived(arrivals, k) then 1 + LowAfterFirst(arrivals, k, threshold) else 0
    ensures !Arrived(arrivals, k) ==> LowAfterFirst(arrivals, k, threshold) == 0
  {
    if arrivals == [] {
    } else {
      LastIsFresh(arrivals, threshold);
      OpenFactAccounting(arrivals[..|arrivals| - 1], threshold, k);
      LastArrivalCounts(arrivals, threshold, k);
    }
  }

  /** An uninterrupted extraction is the protocol's Begin, Read, Close if needed, and Save of one
      process, and leaves exactly the table of Processed. */
  lemma SequentialIsAnInterleaving(s: State, p: nat, a: Arrival) returns (steps: seq<State>)
    requires Inv(s) && PcOf(s, p).Idle? && IsFreshCandidate(s, a.candidate)
    requires s.clock == a.now && Fits(s.table, a)
    ensures IsPath(Next, s, steps)
    ensures var last := steps[|steps| - 1];
      && last.table == Processed(s.table, a, s.threshold)
      && last.procs == s.procs[p := Idle]
      && last.clock == s.clock && last.threshold == s.threshold
  {
    var s1 := Apply(s, Begin(p, a.candidate));
    assert Next(s, s1);
    var s2 := Apply(s1, Read(p, a.pick));
    assert Next(s1, s2) by { assert Enabled(s1, Read(p, a.pick)); }
    if PcOf(s2, p).Saving? {
      var s3 := Apply(s2, Save(p));
      assert Next(s2, s3) by { assert Enabled(s2, Save(p)); }
      steps := [s, s1, s2, s3];
    } else {
      var s3 := Apply(s2, Close(p));
      assert Next(s2, s3) by { assert Enabled(s2, Close(p)); }
      var s4 := Apply(s3, Save(p));
      assert Next(s3, s4) by { assert Enabled(s3, Save(p)); }
      steps := [s, s1, s2, s3, s4];
    }
  }
}
