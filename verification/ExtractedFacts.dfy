/** What an extraction leaves in the fact table, said row by row about the elements of the answer. */
module ExtractedFacts {
  import opened Domain
  import opened PostgresFacts
  import opened Extraction
  import opened FactAccounting

  /** Row i holds an open fact of the candidate's tenant, entity and group. */
  ghost predicate Meets(t: Table, i: int, c: Fact) {
    && 0 <= i < |t| && t[i].effectiveTo.None?
    && t[i].tenant == c.tenant && t[i].entity == c.entity && t[i].group == c.group
  }

  /** The row holds the fact, whatever became of its interval since. */
  ghost predicate Holds(r: Row, f: Fact) {
    && r.factId == f.id && r.tenant == f.tenant && r.memoryRecordId == f.memoryRecordId
    && r.entity == f.entity && r.predicateName == f.predicateName && r.group == f.group && r.objectValue == f.objectValue
    && r.confidence == f.confidence && r.sector == f.sector && r.effectiveFrom == f.effectiveFrom
  }

  /** A candidate whose id is new. */
  ghost predicate IsNew(t: Table, c: Fact) {
    !Mentions(t, c.id) && c.effectiveTo.None? && c.supersedes.None?
  }

  /** What becomes of a candidate: it is always added as a row of its own. Without an open fact of its
      key it is ACTIVE; below the threshold it is PROPOSED; else it is ACTIVE and one open fact of the key
      ends now in its favour. No other row changes. */
  ghost predicate Settles(t: Table, t': Table, c: Fact, now: int, threshold: real, pick: int) {
    && |t'| == |t| + 1
    && Holds(t'[|t|], c) && t'[|t|].effectiveTo.None?
    && if !exists i :: Meets(t, i, c) then
         t' == t + [t'[|t|]] && t'[|t|].lifecycle == Active && t'[|t|].supersededBy.None?
       else if c.confidence < threshold then
         t' == t + [t'[|t|]] && t'[|t|].lifecycle == Proposed && t'[|t|].supersededBy.None?
       else
         && Meets(t, pick, c)
         && t' == t[pick := t[pick].(effectiveTo := Some(now), supersededBy := Some(c.id))] + [t'[|t|]]
         && t'[|t|].lifecycle == Active && t'[|t|].supersededBy == Truthy(Some(t[pick].factId))
  }

  lemma MeetsIsOpen(t: Table, c: Fact)
    ensures forall i :: Meets(t, i, c) <==> i in OpenOf(t, KeyOf(c))
    ensures (exists i :: Meets(t, i, c)) <==> OpenOf(t, KeyOf(c)) != []
  {
    if OpenOf(t, KeyOf(c)) != [] {
      var i := OpenOf(t, KeyOf(c))[0];
      assert i in OpenOf(t, KeyOf(c));
      assert Meets(t, i, c);
    }
  }

  lemma ClosingTouchesOne(t: Table, i: nat, to: int, newId: string)
    requires UniqueIds(t) && i < |t|
    ensures Closed(t, t[i].factId, t[i].tenant, to, newId)
         == t[i := t[i].(effectiveTo := Some(to), supersededBy := Some(newId))]
  {
  }

  lemma CandidateSettles(t: Table, a: Arrival, threshold: real)
    requires UniqueIds(t) && IsNew(t, a.candidate) && Fits(t, a)
    ensures Settles(t, Processed(t, a, threshold), a.candidate, a.now, threshold, a.pick)
    ensures Processed(t, a, threshold)[|t|] == RowOf(Resolution(t, a, threshold))
  {
    var c := a.candidate;
    MeetsIsOpen(t, c);
    match Decide(c, Existing(t, a), threshold) {
      case Store(f) => AppendingKeepsUnique(t, RowOf(f));
      case Supersede(e, f) =>
        assert Meets(t, a.pick, c);
        ClosingTouchesOne(t, a.pick, a.now, c.id);
        ClosingKeepsIds(t, e, c.tenant, a.now, c.id);
        AppendingKeepsUnique(Closed(t, e, c.tenant, a.now, c.id), RowOf(f));
    }
  }

  // ---------------------------------------------------------------- a whole extraction

  /** The table when the n-th candidate comes. */
  ghost function Before(t: Table, arrivals: seq<Arrival>, threshold: real, n: nat): Table
    requires n <= |arrivals| && AllFit(t, arrivals[..n], threshold)
  {
    ProcessedAll(t, arrivals[..n], threshold)
  }

  ghost predicate AllNew(t: Table, arrivals: seq<Arrival>) {
    UniqueIds(t) && FreshIds(t, arrivals) && forall i :: 0 <= i < |arrivals| ==> arrivals[i].candidate.supersedes.None?
  }

  /** The n-th candidate can be processed when it comes, and the next one finds what it left. */
  ghost predicate Comes(t: Table, arrivals: seq<Arrival>, threshold: real, n: nat)
    requires n < |arrivals|
  {
    && AllFit(t, arrivals[..n], threshold) && AllFit(t, arrivals[..n + 1], threshold)
    && Fits(Before(t, arrivals, threshold, n), arrivals[n])
    && Before(t, arrivals, threshold, n + 1) == Processed(Before(t, arrivals, threshold, n), arrivals[n], threshold)
  }

  lemma LastComes(t: Table, arrivals: seq<Arrival>, threshold: real)
    requires arrivals != [] && AllFit(t, arrivals, threshold)
    ensures Comes(t, arrivals, threshold, |arrivals| - 1)
  {
    assert arrivals[..|arrivals|] == arrivals;
  }

  lemma ShorterFits(t: Table, arrivals: seq<Arrival>, threshold: real)
    requires arrivals != [] && AllFit(t, arrivals, threshold)
    ensures AllFit(t, arrivals[..|arrivals| - 1], threshold)
  {
  }

  lemma ComesInLonger(t: Table, arrivals: seq<Arrival>, threshold: real, m: nat, n: nat)
    requires n < m <= |arrivals| && Comes(t, arrivals[..m], threshold, n)
    ensures Comes(t, arrivals, threshold, n)
  {
    assert arrivals[..m][..n] == arrivals[..n] && arrivals[..m][..n + 1] == arrivals[..n + 1];
  }

  lemma {:induction false} EachComes(t: Table, arrivals: seq<Arrival>, threshold: real, n: nat)
    requires AllFit(t, arrivals, threshold) && n < |arrivals|
    ensures Comes(t, arrivals, threshold, n)
  {
    var m := |arrivals| - 1;
    if n == m {
      LastComes(t, arrivals, threshold);
    } else {
      ShorterFits(t, arrivals, threshold);
      EachComes(t, arrivals[..m], threshold, n);
      ComesInLonger(t, arrivals, threshold, m, n);
    }
  }

  /** After n candidates: the rows of before, changed at most in their ends and links, then one row per
      candidate in their order. */
  ghost predicate Stored(t: Table, t': Table, arrivals: seq<Arrival>, n: nat)
    requires n <= |arrivals|
  {
    && |t'| == |t| + n && Evolves(t, t') && UniqueIds(t')
    && (forall id :: Mentions(t', id) ==> Mentions(t, id) || exists i :: 0 <= i < n && arrivals[i].candidate.id == id)
    && forall i :: 0 <= i < n ==> Holds(t'[|t| + i], arrivals[i].candidate)
  }

  lemma SettlingEvolves(t: Table, t': Table, c: Fact, now: int, threshold: real, pick: int)
    requires Settles(t, t', c, now, threshold, pick)
    ensures Evolves(t, t') && forall i :: 0 <= i < |t| ==> t'[i].factId == t[i].factId
  {
  }

  lemma SettlingMentions(t: Table, t': Table, c: Fact, now: int, threshold: real, pick: int)
    requires Settles(t, t', c, now, threshold, pick) && UniqueIds(t) && !Mentions(t, c.id)
    ensures UniqueIds(t') && forall id :: Mentions(t', id) ==> Mentions(t, id) || id == c.id
  {
    SettlingEvolves(t, t', c, now, threshold, pick);
    forall i | 0 <= i < |t| ensures t'[i].factId != c.id { assert t[i].factId != c.id; }
    forall id | Mentions(t', id) && id != c.id ensures Mentions(t, id) {
      var i :| 0 <= i < |t'| && t'[i].factId == id;
      assert t[i].factId == id;
    }
  }

  lemma OneMoreStored(t: Table, u: Table, u': Table, arrivals: seq<Arrival>, n: nat, threshold: real)
    requires n < |arrivals| && Stored(t, u, arrivals, n) && AllNew(t, arrivals)
    requires Settles(u, u', arrivals[n].candidate, arrivals[n].now, threshold, arrivals[n].pick)
    ensures Stored(t, u', arrivals, n + 1)
  {
    var c := arrivals[n].candidate;
    SettlingEvolves(u, u', c, arrivals[n].now, threshold, arrivals[n].pick);
    EvolvesTransitively(t, u, u');
    SettlingMentions(u, u', c, arrivals[n].now, threshold, arrivals[n].pick);
    forall i | 0 <= i < n ensures Holds(u'[|t| + i], arrivals[i].candidate) {
      assert Holds(u[|t| + i], arrivals[i].candidate);
    }
  }

  lemma {:induction false} RunStores(t: Table, arrivals: seq<Arrival>, threshold: real, n: nat)
    requires AllNew(t, arrivals) && AllFit(t, arrivals, threshold) && n <= |arrivals|
    ensures AllFit(t, arrivals[..n], threshold) && Stored(t, Before(t, arrivals, threshold, n), arrivals, n)
  {
    if n == 0 {
      assert arrivals[..0] == [];
    } else {
      EachComes(t, arrivals, threshold, n - 1);
      RunStores(t, arrivals, threshold, n - 1);
      CandidateComes(t, arrivals, threshold, n - 1);
      OneMoreStored(t, Before(t, arrivals, threshold, n - 1), Before(t, arrivals, threshold, n), arrivals, n - 1, threshold);
    }
  }

  /** What the n-th candidate does to the table that the earlier ones left. */
  lemma CandidateComes(t: Table, arrivals: seq<Arrival>, threshold: real, n: nat)
    requires AllNew(t, arrivals) && AllFit(t, arrivals, threshold) && n < |arrivals|
    requires AllFit(t, arrivals[..n], threshold) && Stored(t, Before(t, arrivals, threshold, n), arrivals, n)
    ensures AllFit(t, arrivals[..n + 1], threshold)
    ensures Settles(Before(t, arrivals, threshold, n), Before(t, arrivals, threshold, n + 1), arrivals[n].candidate,
                    arrivals[n].now, threshold, arrivals[n].pick)
  {
    EachComes(t, arrivals, threshold, n);
    CandidateSettles(Before(t, arrivals, threshold, n), arrivals[n], threshold);
  }

  /** The ids handed to an extraction are new. */
  ghost predicate NewIds(t: Table, ids: seq<string>) {
    && UniqueIds(t) && (forall i :: 0 <= i < |ids| ==> !Mentions(t, ids[i]))
    && forall i, j :: 0 <= i < j < |ids| ==> ids[i] != ids[j]
  }

  lemma ProgressIsNew(t: Table, raws: seq<RawFact>, src: Source, ids: seq<string>, clock: seq<int>, threshold: real,
                      saved: seq<Fact>, arrivals: seq<Arrival>)
    requires |ids| == |raws| == |clock| && NewIds(t, ids)
    requires Progress(t, raws, src, ids, clock, threshold, saved, arrivals)
    ensures AllNew(t, arrivals)
    ensures forall i :: 0 <= i < |arrivals| ==> arrivals[i].candidate.id == ids[i] && arrivals[i].now == clock[i]
  {
    forall i | 0 <= i < |arrivals|
      ensures arrivals[i].candidate.id == ids[i] && arrivals[i].now == clock[i]
      ensures arrivals[i].candidate.supersedes.None? && arrivals[i].candidate.effectiveTo.None?
    {
      assert Built(raws[i], src, ids[i], clock[i], arrivals[i]);
    }
  }

  /** An extraction adds one row per saved fact, in the order of the answer; each says what its element
      says. Of the earlier rows only ends and links change. */
  lemma ExtractionStores(t: Table, raws: seq<RawFact>, src: Source, ids: seq<string>, clock: seq<int>, threshold: real,
                         saved: seq<Fact>, arrivals: seq<Arrival>)
    requires |ids| == |raws| == |clock| && NewIds(t, ids)
    requires Progress(t, raws, src, ids, clock, threshold, saved, arrivals) && AllCarry(saved, raws, src, ids)
    ensures var t' := ProcessedAll(t, arrivals, threshold);
      && |t'| == |t| + |saved| && Evolves(t, t')
      && forall i :: 0 <= i < |saved| ==> Holds(t'[|t| + i], saved[i]) && Carries(saved[i], raws[i], src, ids[i])
  {
    ProgressIsNew(t, raws, src, ids, clock, threshold, saved, arrivals);
    RunStores(t, arrivals, threshold, |arrivals|);
    assert arrivals[..|arrivals|] == arrivals;
    forall i | 0 <= i < |saved| ensures Holds(ProcessedAll(t, arrivals, threshold)[|t| + i], saved[i]) {
      assert IsResolved(t, arrivals, threshold, saved[i], i);
    }
  }

  /** The n-th element of an extraction settles at the clock it was resolved at, and the fact that is
      reported for it is the one that was stored. */
  lemma ElementSettles(t: Table, raws: seq<RawFact>, src: Source, ids: seq<string>, clock: seq<int>, threshold: real,
                       saved: seq<Fact>, arrivals: seq<Arrival>, n: nat)
    requires |ids| == |raws| == |clock| && NewIds(t, ids) && n < |saved|
    requires Progress(t, raws, src, ids, clock, threshold, saved, arrivals) && AllCarry(saved, raws, src, ids)
    ensures AllFit(t, arrivals[..n], threshold) && AllFit(t, arrivals[..n + 1], threshold)
    ensures Settles(Before(t, arrivals, threshold, n), Before(t, arrivals, threshold, n + 1), saved[n], clock[n], threshold,
                    arrivals[n].pick)
    ensures var u' := Before(t, arrivals, threshold, n + 1); u'[|u'| - 1] == RowOf(saved[n])
  {
    ProgressIsNew(t, raws, src, ids, clock, threshold, saved, arrivals);
    RunStores(t, arrivals, threshold, n);
    CandidateComes(t, arrivals, threshold, n);
    assert IsResolved(t, arrivals, threshold, saved[n], n);
    CandidateSettles(Before(t, arrivals, threshold, n), arrivals[n], threshold);
    EachComes(t, arrivals, threshold, n);
    SameSettling(Before(t, arrivals, threshold, n), Before(t, arrivals, threshold, n + 1), arrivals[n].candidate, saved[n],
                 clock[n], threshold, arrivals[n].pick);
  }

  lemma SameSettling(t: Table, t': Table, c: Fact, f: Fact, now: int, threshold: real, pick: int)
    requires Settles(t, t', c, now, threshold, pick) && IsResolutionOf(f, c)
    ensures Settles(t, t', f, now, threshold, pick)
  {
    assert forall i :: Meets(t, i, c) <==> Meets(t, i, f);
  }

  /** With a threshold of at most 1 an element that names no confidence and meets an open fact of its key
      supersedes it: that fact ends at the clock in favour of the element's, which is ACTIVE. */
  lemma MissingConfidenceSupersedes(t: Table, raws: seq<RawFact>, src: Source, ids: seq<string>, clock: seq<int>,
                                    threshold: real, saved: seq<Fact>, arrivals: seq<Arrival>, n: nat) returns (e: int)
    requires |ids| == |raws| == |clock| && NewIds(t, ids) && n < |saved|
    requires Progress(t, raws, src, ids, clock, threshold, saved, arrivals) && AllCarry(saved, raws, src, ids)
    requires AllFit(t, arrivals[..n], threshold) && raws[n].confidence.Missing? && threshold <= 1.0
    requires exists i :: Meets(Before(t, arrivals, threshold, n), i, saved[n])
    ensures AllFit(t, arrivals[..n + 1], threshold)
    ensures var u, u' := Before(t, arrivals, threshold, n), Before(t, arrivals, threshold, n + 1);
      && Meets(u, e, saved[n]) && |u'| == |u| + 1
      && u'[e] == u[e].(effectiveTo := Some(clock[n]), supersededBy := Some(ids[n]))
      && u'[|u|].factId == ids[n] && u'[|u|].lifecycle == Active && u'[|u|].effectiveTo.None?
  {
    ElementSettles(t, raws, src, ids, clock, threshold, saved, arrivals, n);
    assert Carries(saved[n], raws[n], src, ids[n]);
    e := arrivals[n].pick;
  }
}
