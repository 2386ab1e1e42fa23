/** What the interleaved extractions guarantee about a key's timeline, over every run. */
module FactTimeline {
  import opened Domain
  import opened PostgresFacts
  import opened ExtractionProtocol
  import opened Runs

  /** Some extraction of this key has closed a fact and not yet stored its successor. */
  ghost predicate InWindow(s: State, k: FactKey) {
    exists p: nat :: PcOf(s, p).Saving? && PcOf(s, p).fact.supersedes.Some? && KeyOf(PcOf(s, p).fact) == k
  }

  /** No extraction of this key is under way at all. */
  ghost predicate Quiet(s: State, k: FactKey) {
    forall p: nat :: !PcOf(s, p).Idle? ==> KeyOf(Carried(PcOf(s, p))) != k
  }

  ghost predicate IsNewest(t: Table, k: FactKey, m: int) {
    && 0 <= m < |t| && RowKey(t[m]) == k
    && forall j :: m < j < |t| ==> RowKey(t[j]) != k
  }

  lemma InvHolds(trace: seq<State>, n: nat)
    requires IsRun(Init, Next, trace) && n < |trace|
    ensures Inv(trace[n])
  {
    InvIsInductive();
    InvariantOnRuns(Init, Next, Inv, trace, n);
  }

  /** In every interleaving, unless an extraction of the key sits between its close and its save,
      the most recently saved fact of the key is open. */
  lemma TruthIsNeverLost(trace: seq<State>, n: nat, k: FactKey, m: int)
    requires IsRun(Init, Next, trace) && n < |trace|
    requires IsNewest(trace[n].table, k, m)
    requires !InWindow(trace[n], k)
    ensures IsOpen(trace[n].table[m])
  {
    InvHolds(trace, n);
    assert RowOk(trace[n], m);
  }

  lemma QuietIsNotInWindow(s: State, k: FactKey)
    requires Quiet(s, k)
    ensures !InWindow(s, k)
  {
  }

  /** The truth of a key is lost exactly when its newest fact names a successor that is not stored:
      the state a crash between close and save leaves behind. */
  lemma TruthLostIffSuccessorMissing(trace: seq<State>, n: nat, k: FactKey, m: int)
    requires IsRun(Init, Next, trace) && n < |trace|
    requires IsNewest(trace[n].table, k, m)
    ensures var t := trace[n].table;
            !IsOpen(t[m]) <==>
            t[m].supersededBy.Some? && forall j :: 0 <= j < |t| ==> t[j].factId != t[m].supersededBy.value
  {
    InvHolds(trace, n);
    var s := trace[n];
    assert RowOk(s, m);
    if !IsOpen(s.table[m]) {
      var p: nat :| ClaimedBy(s, m, p);
      assert ProcOk(s, p);
    }
  }

  /** Closed facts stay closed, and nothing but the closing columns of a saved fact ever changes. */
  lemma HistoryIsPreserved(trace: seq<State>, m: nat, n: nat)
    requires IsRun(Init, Next, trace) && m <= n < |trace|
    ensures Evolves(trace[m].table, trace[n].table)
  {
    InvIsInductive();
    var rel := (s: State, s': State) => Evolves(s.table, s'.table);
    forall a: State, b: State, c: State | rel(a, b) && rel(b, c) ensures rel(a, c) {
      EvolvesTransitively(a.table, b.table, c.table);
    }
    OrderedOnRuns(Init, Next, Inv, rel, trace, m, n);
  }

  /** Following superseded_by from row i: later and later facts of the same key, ending at an open one. */
  ghost function Chain(s: State, i: int): (c: seq<int>)
    requires Inv(s) && 0 <= i < |s.table| && !InWindow(s, RowKey(s.table[i]))
    ensures c != [] && c[0] == i
    ensures forall x :: x in c ==> 0 <= x < |s.table| && RowKey(s.table[x]) == RowKey(s.table[i])
    ensures c[|c| - 1] in c && IsOpen(s.table[c[|c| - 1]])
    ensures forall a, b :: 0 <= a < |c| && b == a + 1 && b < |c| ==> SucceededBy(s.table, c[a], c[b])
    decreases |s.table| - i
  {
    if IsOpen(s.table[i]) then [i]
    else
      assert RowOk(s, i);
      var j :| SucceededBy(s.table, i, j);
      [i] + Chain(s, j)
  }

  /** The successor a closed row names is unique, so the chain is the one the column spells out. */
  lemma SuccessorIsUnique(s: State, i: int, j: int, j': int)
    requires Inv(s) && SucceededBy(s.table, i, j) && SucceededBy(s.table, i, j')
    ensures j == j'
  {
  }

  lemma SupersessionChainTerminates(trace: seq<State>, n: nat, i: int)
    requires IsRun(Init, Next, trace) && n < |trace|
    requires 0 <= i < |trace[n].table| && !InWindow(trace[n], RowKey(trace[n].table[i]))
    ensures exists c: seq<int> ::
      && 0 < |c| <= |trace[n].table| - i && c[0] == i
      && (forall a, b :: 0 <= a < |c| && b == a + 1 && b < |c| ==> SucceededBy(trace[n].table, c[a], c[b]))
      && 0 <= c[|c| - 1] < |trace[n].table| && IsOpen(trace[n].table[c[|c| - 1]])
  {
    InvHolds(trace, n);
    var c := Chain(trace[n], i);
    ChainIsShort(trace[n].table, c);
  }

  lemma {:induction false} ChainIsShort(t: Table, c: seq<int>)
    requires c != [] && forall x :: x in c ==> 0 <= x < |t|
    requires forall a, b :: 0 <= a < |c| && b == a + 1 && b < |c| ==> SucceededBy(t, c[a], c[b])
    ensures |c| <= |t| - c[0]
  {
    assert c[0] in c;
    if |c| > 1 {
      assert SucceededBy(t, c[0], c[1]);
      forall a, b | 0 <= a < |c[1..]| && b == a + 1 && b < |c[1..]|
        ensures SucceededBy(t, c[1..][a], c[1..][b])
      {
        assert SucceededBy(t, c[a + 1], c[b + 1]);
      }
      assert forall x :: x in c[1..] ==> x in c;
      ChainIsShort(t, c[1..]);
    }
  }

  /** Row j's interval [effective_from, effective_to) holds instant x. */
  ghost predicate Covers(r: Row, x: int) {
    r.effectiveFrom <= x && (r.effectiveTo.None? || x < r.effectiveTo.value)
  }

  /** From the start of any of its facts onward a key has no gap. */
  lemma NoGapInTimeline(trace: seq<State>, n: nat, i: int, x: int)
    requires IsRun(Init, Next, trace) && n < |trace|
    requires 0 <= i < |trace[n].table| && !InWindow(trace[n], RowKey(trace[n].table[i]))
    requires trace[n].table[i].effectiveFrom <= x
    ensures exists j :: 0 <= j < |trace[n].table|
              && RowKey(trace[n].table[j]) == RowKey(trace[n].table[i]) && Covers(trace[n].table[j], x)
  {
    InvHolds(trace, n);
    var j := CoveringRow(trace[n], i, x);
  }

  lemma {:induction false} CoveringRow(s: State, i: int, x: int) returns (j: int)
    requires Inv(s) && 0 <= i < |s.table| && !InWindow(s, RowKey(s.table[i]))
    requires s.table[i].effectiveFrom <= x
    ensures 0 <= j < |s.table| && RowKey(s.table[j]) == RowKey(s.table[i]) && Covers(s.table[j], x)
    decreases |s.table| - i
  {
    if Covers(s.table[i], x) {
      j := i;
    } else {
      assert RowOk(s, i);
      var next :| SucceededBy(s.table, i, next);
      j := CoveringRow(s, next, x);
    }
  }

  // ---------------------------------------------------------------- overlaps

  ghost predicate Overlap(r: Row, r': Row) {
    exists x :: Covers(r, x) && Covers(r', x)
  }

  predicate StartsBeforeEnd(r: Row, r': Row) {
    r'.effectiveTo.None? || r.effectiveFrom < r'.effectiveTo.value
  }

  lemma OverlapIff(r: Row, r': Row)
    ensures Overlap(r, r') <==>
      StartsBeforeEnd(r, r) && StartsBeforeEnd(r, r') && StartsBeforeEnd(r', r) && StartsBeforeEnd(r', r')
  {
    var x := if r.effectiveFrom >= r'.effectiveFrom then r.effectiveFrom else r'.effectiveFrom;
    if StartsBeforeEnd(r, r) && StartsBeforeEnd(r, r') && StartsBeforeEnd(r', r) && StartsBeforeEnd(r', r') {
      assert Covers(r, x) && Covers(r', x);
    }
  }

  /** The extraction of candidate c has decided at instant now to close fact e. While it has not
      closed, it still stands there; afterwards row e shows that instant as long as it names c. */
  ghost predicate Decided(s: State, p: nat, c: Fact, e: string, now: int) {
    || PcOf(s, p) == Closing(c, e, now)
    || (&& c.id in s.issued
        && (forall q: nat :: CarriesOn(PcOf(s, q), c))
        && (forall i :: 0 <= i < |s.table| ==> ShowsDecision(s.table[i], c, e, now)))
  }

  /** Only the save that follows the close still carries c's id. */
  ghost predicate CarriesOn(pc: Pc, c: Fact) {
    !pc.Idle? && Carried(pc).id == c.id ==> pc.Saving? && pc.fact.effectiveFrom == c.effectiveFrom
  }

  ghost predicate ShowsDecision(r: Row, c: Fact, e: string, now: int) {
    && (r.factId == c.id ==> r.effectiveFrom == c.effectiveFrom)
    && (r.factId == e && r.effectiveTo.Some? && r.supersededBy == Some(c.id) ==> r.effectiveTo == Some(now))
  }

  lemma CloseDecides(s: State, p: nat, c: Fact, e: string, now: int)
    requires Inv(s) && PcOf(s, p) == Closing(c, e, now)
    ensures Decided(Apply(s, Close(p)), p, c, e, now)
  {
    var s' := Apply(s, Close(p));
    assert ProcOk(s, p);
    forall q: nat ensures CarriesOn(PcOf(s', q), c) {
      if q != p && !PcOf(s, q).Idle? { assert Carried(PcOf(s, q)).id != c.id; }
    }
    var i := CloseTouchesOneRow(s, p);
    forall k | 0 <= k < |s'.table| ensures ShowsDecision(s'.table[k], c, e, now) {
      assert s.table[k].factId != c.id;
      assert k != i ==> s.table[k].factId != s.table[i].factId;
    }
  }

  lemma DecisionStands(s: State, a: Action, p: nat, c: Fact, e: string, now: int)
    requires Inv(s) && Enabled(s, a) && Decided(s, p, c, e, now)
    ensures Decided(Apply(s, a), p, c, e, now)
  {
    var s' := Apply(s, a);
    if PcOf(s, p) == Closing(c, e, now) {
      if a == Close(p) { CloseDecides(s, p, c, e, now); }
    } else {
      forall q: nat ensures CarriesOn(PcOf(s', q), c) {
        assert CarriesOn(PcOf(s, q), c);
      }
      forall k | 0 <= k < |s'.table| ensures ShowsDecision(s'.table[k], c, e, now) {
        assert k < |s.table| ==> ShowsDecision(s.table[k], c, e, now);
        if a.Close? || a.Save? { assert CarriesOn(PcOf(s, a.p), c) && ProcOk(s, a.p); }
      }
    }
  }

  lemma DecisionStandsOverStep(s: State, s': State, p: nat, c: Fact, e: string, now: int)
    requires Inv(s) && Next(s, s') && Decided(s, p, c, e, now)
    ensures Decided(s', p, c, e, now)
  {
    var a :| Enabled(s, a) && s' == Apply(s, a);
    DecisionStands(s, a, p, c, e, now);
  }

  lemma {:induction false} DecisionStandsOnRuns(trace: seq<State>, m: nat, n: nat, p: nat, c: Fact, e: string, now: int)
    requires IsRun(Init, Next, trace) && m <= n < |trace|
    requires PcOf(trace[m], p) == Closing(c, e, now)
    ensures Decided(trace[n], p, c, e, now)
    decreases n
  {
    if m < n {
      DecisionStandsOnRuns(trace, m, n - 1, p, c, e, now);
      InvHolds(trace, n - 1);
      DecisionStandsOverStep(trace[n - 1], trace[n], p, c, e, now);
    }
  }

  /** Whether a closed fact and its successor share an instant is settled when the close is decided:
      whatever runs in between, the old fact ends at the clock of the decision. It ends where the
      successor starts exactly when that clock reads the successor's start, and an open successor
      overlaps it exactly when both start before the decision. */
  lemma OverlapIsDecidedAtClose(trace: seq<State>, m: nat, n: nat, p: nat, i: int, j: int)
    requires IsRun(Init, Next, trace) && m <= n < |trace| && PcOf(trace[m], p).Closing?
    requires SucceededBy(trace[n].table, i, j)
    requires trace[n].table[i].factId == PcOf(trace[m], p).existing
    requires trace[n].table[j].factId == PcOf(trace[m], p).candidate.id
    ensures var c, now := PcOf(trace[m], p).candidate, PcOf(trace[m], p).now;
            var old', new' := trace[n].table[i], trace[n].table[j];
      && old'.effectiveTo == Some(now)
      && (old'.effectiveTo == Some(new'.effectiveFrom) <==> c.effectiveFrom == now)
      && (IsOpen(new') ==> (Overlap(old', new') <==> c.effectiveFrom < now && old'.effectiveFrom < now))
      && (Overlap(old', new') <==>
            c.effectiveFrom < now && old'.effectiveFrom < now && StartsBeforeEnd(old', new') && StartsBeforeEnd(new', new'))
  {
    var pc := PcOf(trace[m], p);
    DecisionStandsOnRuns(trace, m, n, p, pc.candidate, pc.existing, pc.now);
    InvHolds(trace, n);
    assert ProcOk(trace[n], p);
    OverlapIff(trace[n].table[i], trace[n].table[j]);
    assert PcOf(trace[n], p) != pc;
    assert ShowsDecision(trace[n].table[i], pc.candidate, pc.existing, pc.now);
    assert ShowsDecision(trace[n].table[j], pc.candidate, pc.existing, pc.now);
  }

  // ---------------------------------------------------------------- concrete runs

  function SampleFact(id: string, from: int): Fact {
    Fact(id, "m", "t", FactScope("t", "u", User, None, None, None), "e", "lives_in", "location", "somewhere", from, None, from, None, 1.0, Semantic, Active)
  }

  lemma OneFactSaved(c: Fact) returns (trace: seq<State>)
    requires c == SampleFact("a", 1)
    ensures IsRun(Init, Next, trace)
    ensures trace[|trace| - 1] == State([RowOf(c)], map[0 := Idle], {"a"}, 10, 0.6)
  {
    var s0 := State([], map[], {}, 10, 0.6);
    var s1 := Taken(s0, Begin(0, c));
    var s2 := Taken(s1, Read(0, 0));
    var s3 := Taken(s2, Save(0));
    assert s3.procs == map[0 := Idle];
    trace := [s0, s1, s2, s3];
  }

  /** A crash between close and save leaves a key whose only fact is closed. */
  lemma CrashInWindowLosesTruth() returns (trace: seq<State>)
    ensures IsRun(Init, Next, trace)
    ensures var s := trace[|trace| - 1];
            && s.table == [RowOf(SampleFact("a", 1)).(effectiveTo := Some(10), supersededBy := Some("b"))]
            && PcOf(s, 1) == Saving(SampleFact("b", 2).(supersedes := Some("a")))
  {
    var c := SampleFact("b", 2);
    var before := OneFactSaved(SampleFact("a", 1));
    var s3 := before[|before| - 1];
    var s4 := Taken(s3, Begin(1, c));
    assert OpenOf(s4.table, KeyOf(c)) == [0];
    var s5 := Taken(s4, Read(1, 0));
    assert PcOf(s5, 1) == Closing(c, "a", 10);
    var s6 := Taken(s5, Close(1));
    trace := before + [s4, s5, s6];
  }

  /** Closing at the clock, not at the successor's start, lets two facts of a key hold one instant. */
  lemma IntervalsMayOverlap() returns (trace: seq<State>, x: int)
    ensures IsRun(Init, Next, trace)
    ensures var t := trace[|trace| - 1].table;
            |t| == 2 && RowKey(t[0]) == RowKey(t[1]) && Covers(t[0], x) && Covers(t[1], x)
  {
    trace := CrashInWindowLosesTruth();
    trace := trace + [Taken(trace[|trace| - 1], Save(1))];
    x := 5;
  }

  ghost function Taken(s: State, a: Action): (s': State)
    requires Enabled(s, a)
    ensures Next(s, s')
  {
    Apply(s, a)
  }
}
