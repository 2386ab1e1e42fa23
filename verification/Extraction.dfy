/** The extraction engine: candidates from LLM output, the contradiction decision, and the
    sequential service over the Postgres adapter. */
module Extraction {
  import opened Domain
  import opened PostgresFacts

  /** A JSON number field: missing, a number, or something float() rejects. */
  datatype RawNumber = Missing | Number(value: real) | Unparsable

  /** An element of the LLM's list: a JSON object with these fields, or anything else. */
  datatype RawFact =
    | RawFact(
        sector: Option<string>,
        entity: Option<string>,
        predicateName: Option<string>,
        group: Option<string>,
        objectValue: Option<string>,
        confidence: RawNumber)
    | NoObject

  /** The element does not make the building of its candidate raise. */
  predicate Buildable(raw: RawFact) {
    raw.RawFact? && !raw.confidence.Unparsable?
  }

  datatype Source = Source(memoryId: string, tenant: string, scope: FactScope, recordedAt: int)

  function OrEmpty(o: Option<string>): string {
    if o.Some? then o.value else ""
  }

  function SectorNamed(name: Option<string>): Sector {
    match name
    case None => Semantic
    case Some(n) =>
      if n == "EPISODIC" then Episodic
      else if n == "PROCEDURAL" then Procedural
      else if n == "IDENTITY" then Identity
      else if n == "RELATIONAL" then Relational
      else if n == "REFLECTIVE" then Reflective
      else Semantic
  }

  /** The candidate fact for one element of the LLM's list; the error is what an element that is no
      object or a confidence that is no number raises. */
  function BuildCandidate(raw: RawFact, src: Source, id: string, now: int): Result<Fact, StoreError> {
    if !Buildable(raw) then Err(StorageFailure)
    else Ok(Fact(id, src.memoryId, src.tenant, src.scope, OrEmpty(raw.entity), OrEmpty(raw.predicateName),
                 OrEmpty(raw.group), OrEmpty(raw.objectValue), src.recordedAt, None, now, None,
                 if raw.confidence.Number? then raw.confidence.value else 1.0,
                 SectorNamed(raw.sector), Active))
  }

  /** The text that a field of an element gives, none if it is missing. */
  predicate IsTextOf(field: Option<string>, text: string) {
    match field
    case None => text == ""
    case Some(t) => text == t
  }

  function NameOf(s: Sector): string {
    match s
    case Episodic => "EPISODIC"
    case Semantic => "SEMANTIC"
    case Procedural => "PROCEDURAL"
    case Identity => "IDENTITY"
    case Relational => "RELATIONAL"
    case Reflective => "REFLECTIVE"
  }

  /** The sector of that name, or SEMANTIC if the name is missing or no sector's. */
  ghost predicate IsSectorOf(name: Option<string>, sector: Sector) {
    if name.Some? && exists s :: NameOf(s) == name.value then NameOf(sector) == name.value else sector.Semantic?
  }

  /** The fact says what the element says, of the record it was extracted from. */
  ghost predicate Carries(f: Fact, raw: RawFact, src: Source, id: string) {
    && raw.RawFact? && f.id == id
    && f.memoryRecordId == src.memoryId && f.tenant == src.tenant && f.scope == src.scope
    && IsTextOf(raw.entity, f.entity) && IsTextOf(raw.group, f.group)
    && IsTextOf(raw.predicateName, f.predicateName) && IsTextOf(raw.objectValue, f.objectValue)
    && f.effectiveFrom == src.recordedAt && f.effectiveTo.None?
    && (raw.confidence.Number? ==> f.confidence == raw.confidence.value)
    && (raw.confidence.Missing? ==> f.confidence == 1.0)
    && IsSectorOf(raw.sector, f.sector)
  }

  /** The saved facts say what the first elements of the answer say, in order. */
  ghost predicate AllCarry(saved: seq<Fact>, raws: seq<RawFact>, src: Source, ids: seq<string>) {
    && |saved| <= |raws| && |saved| <= |ids|
    && forall i :: 0 <= i < |saved| ==> Carries(saved[i], raws[i], src, ids[i])
  }

  lemma OneMoreCarries(saved: seq<Fact>, raws: seq<RawFact>, src: Source, ids: seq<string>, now: int, c: Fact, f: Fact)
    requires AllCarry(saved, raws, src, ids) && |saved| < |raws| == |ids|
    requires BuildCandidate(raws[|saved|], src, ids[|saved|], now) == Ok(c) && IsResolutionOf(f, c)
    ensures AllCarry(saved + [f], raws, src, ids)
  {
    var n := |saved|;
    SectorIsNamed(raws[n].sector);
    forall i | 0 <= i <= n ensures Carries((saved + [f])[i], raws[i], src, ids[i]) {
      assert (saved + [f])[i] == if i < n then saved[i] else f;
    }
  }

  lemma SectorIsNamed(name: Option<string>)
    ensures IsSectorOf(name, SectorNamed(name))
  {
    if name.Some? && exists s :: NameOf(s) == name.value {
      var s :| NameOf(s) == name.value;
    } else if name.Some? {
      assert name.value != NameOf(Episodic) && name.value != NameOf(Procedural) && name.value != NameOf(Identity);
      assert name.value != NameOf(Relational) && name.value != NameOf(Reflective);
    }
  }

  /** What the engine does with a candidate once it has read the open facts of its key. */
  datatype Decision = Store(fact: Fact) | Supersede(existingId: string, successor: Fact)

  function Decide(c: Fact, existing: Option<string>, threshold: real): Decision {
    match existing
    case None => Store(c.(lifecycle := Active))
    case Some(e) =>
      if c.confidence >= threshold
      then Supersede(e, c.(supersedes := Some(e), lifecycle := Active))
      else Store(c.(lifecycle := Proposed))
  }

  /** One candidate, the clock at its resolution, and which open row the unordered query put first. */
  datatype Arrival = Arrival(candidate: Fact, now: int, pick: nat)

  predicate Fits(t: Table, a: Arrival) {
    var open := OpenOf(t, KeyOf(a.candidate));
    open == [] || a.pick in open
  }

  function Existing(t: Table, a: Arrival): Option<string>
    requires Fits(t, a)
  {
    if OpenOf(t, KeyOf(a.candidate)) == [] then None else Some(t[a.pick].factId)
  }

  /** Read, close, save without interruption. */
  function Processed(t: Table, a: Arrival, threshold: real): Table
    requires Fits(t, a)
  {
    match Decide(a.candidate, Existing(t, a), threshold)
    case Store(f) => Inserted(t, RowOf(f))
    case Supersede(e, f) => Inserted(Closed(t, e, a.candidate.tenant, a.now, a.candidate.id), RowOf(f))
  }

  /** The fact is the candidate but for its state and its link. */
  predicate IsResolutionOf(f: Fact, c: Fact) {
    f == c.(lifecycle := f.lifecycle, supersedes := f.supersedes) && f.lifecycle in {Active, Proposed}
  }

  /** The fact that is saved for the candidate and reported. */
  function Resolution(t: Table, a: Arrival, threshold: real): (f: Fact)
    requires Fits(t, a)
    ensures IsResolutionOf(f, a.candidate)
  {
    match Decide(a.candidate, Existing(t, a), threshold)
    case Store(g) => g
    case Supersede(_, g) => g
  }

  ghost predicate AllFit(t: Table, arrivals: seq<Arrival>, threshold: real)
    decreases |arrivals|, 0
  {
    arrivals == [] ||
    (var n := |arrivals| - 1;
     AllFit(t, arrivals[..n], threshold) && Fits(ProcessedAll(t, arrivals[..n], threshold), arrivals[n]))
  }

  ghost function ProcessedAll(t: Table, arrivals: seq<Arrival>, threshold: real): Table
    requires AllFit(t, arrivals, threshold)
    decreases |arrivals|, 1
  {
    if arrivals == [] then t
    else
      var n := |arrivals| - 1;
      Processed(ProcessedAll(t, arrivals[..n], threshold), arrivals[n], threshold)
  }

  /** The n-th fact is the candidate as it was resolved when it came. */
  ghost predicate IsResolved(t: Table, arrivals: seq<Arrival>, threshold: real, f: Fact, n: nat)
    requires n < |arrivals|
  {
    && AllFit(t, arrivals[..n], threshold) && Fits(ProcessedAll(t, arrivals[..n], threshold), arrivals[n])
    && f == Resolution(ProcessedAll(t, arrivals[..n], threshold), arrivals[n], threshold)
  }

  ghost predicate AllResolved(t: Table, arrivals: seq<Arrival>, threshold: real, saved: seq<Fact>) {
    && |saved| == |arrivals|
    && forall n :: 0 <= n < |arrivals| ==> IsResolved(t, arrivals, threshold, saved[n], n)
  }

  lemma ResolvedInLonger(t: Table, arrivals: seq<Arrival>, threshold: real, f: Fact, n: nat, a: Arrival)
    requires n < |arrivals| && IsResolved(t, arrivals, threshold, f, n)
    ensures IsResolved(t, arrivals + [a], threshold, f, n)
  {
    assert (arrivals + [a])[..n] == arrivals[..n];
  }

  lemma OneMoreResolved(t: Table, arrivals: seq<Arrival>, threshold: real, saved: seq<Fact>, a: Arrival, f: Fact)
    requires AllResolved(t, arrivals, threshold, saved)
    requires AllFit(t, arrivals, threshold) && Fits(ProcessedAll(t, arrivals, threshold), a)
    requires f == Resolution(ProcessedAll(t, arrivals, threshold), a, threshold)
    ensures AllResolved(t, arrivals + [a], threshold, saved + [f])
  {
    forall n | 0 <= n <= |arrivals| ensures IsResolved(t, arrivals + [a], threshold, (saved + [f])[n], n) {
      if n < |arrivals| {
        assert (saved + [f])[n] == saved[n];
        ResolvedInLonger(t, arrivals, threshold, saved[n], n, a);
      } else {
        assert (arrivals + [a])[..n] == arrivals;
      }
    }
  }

  /** The arrival stems from the i-th element of the answer. */
  predicate Built(raw: RawFact, src: Source, id: string, now: int, a: Arrival) {
    BuildCandidate(raw, src, id, now) == Ok(a.candidate) && a.now == now
  }

  /** The distinct entities of a list of facts, in order of first mention. */
  function EntitiesOf(facts: seq<Fact>): (es: seq<string>)
    ensures forall e :: e in es <==> exists f :: f in facts && f.entity == e
    ensures forall a, b :: 0 <= a < b < |es| ==> es[a] != es[b]
  {
    if facts == [] then []
    else
      var n := |facts| - 1;
      var before := EntitiesOf(facts[..n]);
      assert forall f :: f in facts <==> f in facts[..n] || f == facts[n] by {
        assert facts == facts[..n] + [facts[n]];
      }
      if facts[n].entity in before then before else before + [facts[n].entity]
  }

  /** An entity that is reported earlier was mentioned before the later one was first mentioned. */
  lemma {:induction false} EntitiesAreInOrder(facts: seq<Fact>, a: nat, b: nat) returns (i: nat)
    requires a < b < |EntitiesOf(facts)|
    ensures i < |facts| && facts[i].entity == EntitiesOf(facts)[a]
    ensures forall j :: 0 <= j <= i ==> facts[j].entity != EntitiesOf(facts)[b]
  {
    var n := |facts| - 1;
    var before := EntitiesOf(facts[..n]);
    if b < |before| {
      i := EntitiesAreInOrder(facts[..n], a, b);
      assert forall j :: 0 <= j <= i ==> facts[..n][j] == facts[j];
    } else {
      assert before[a] in before;
      i :| 0 <= i < n && facts[..n][i].entity == before[a];
      assert forall j :: 0 <= j <= i ==> facts[..n][j] == facts[j] && facts[j] in facts[..n];
    }
  }

  /** Where an extraction stands: the arrivals stem from a prefix of the answer in order, each was
      processable when it came, and the facts saved are those candidates as resolved. */
  ghost predicate Progress(t: Table, raws: seq<RawFact>, src: Source, ids: seq<string>, clock: seq<int>,
                           threshold: real, saved: seq<Fact>, arrivals: seq<Arrival>)
    requires |ids| == |raws| && |clock| == |raws|
  {
    && |saved| == |arrivals| <= |raws|
    && (forall i :: 0 <= i < |arrivals| ==> Built(raws[i], src, ids[i], clock[i], arrivals[i]))
    && AllFit(t, arrivals, threshold) && AllResolved(t, arrivals, threshold, saved)
  }

  lemma ProgressStep(t: Table, raws: seq<RawFact>, src: Source, ids: seq<string>, clock: seq<int>,
                     threshold: real, saved: seq<Fact>, arrivals: seq<Arrival>, f: Fact, a: Arrival)
    requires |ids| == |raws| && |clock| == |raws|
    requires Progress(t, raws, src, ids, clock, threshold, saved, arrivals)
    requires |arrivals| < |raws|
    requires Built(raws[|arrivals|], src, ids[|arrivals|], clock[|arrivals|], a)
    requires Fits(ProcessedAll(t, arrivals, threshold), a)
    requires f == Resolution(ProcessedAll(t, arrivals, threshold), a, threshold)
    ensures Progress(t, raws, src, ids, clock, threshold, saved + [f], arrivals + [a])
    ensures ProcessedAll(t, arrivals + [a], threshold) == Processed(ProcessedAll(t, arrivals, threshold), a, threshold)
    ensures EntitiesOf(saved + [f])
         == if f.entity in EntitiesOf(saved) then EntitiesOf(saved) else EntitiesOf(saved) + [f.entity]
  {
    var n := |arrivals|;
    OneMoreResolved(t, arrivals, threshold, saved, a, f);
    assert (saved + [f])[..n] == saved;
    assert (arrivals + [a])[..n] == arrivals;
    forall i | 0 <= i <= n
      ensures Built(raws[i], src, ids[i], clock[i], (arrivals + [a])[i])
    {
      assert (arrivals + [a])[i] == if i < n then arrivals[i] else a;
    }
  }

  class LLMExtractionService {
    const repo: PostgresFactRepository
    const threshold: real

    constructor (repo: PostgresFactRepository, threshold: real)
      ensures this.repo == repo && this.threshold == threshold
    {
      this.repo := repo;
      this.threshold := threshold;
    }

    method ResolveContradiction(c: Fact, now: int) returns (f: Fact, ghost pick: nat)
      modifies repo
      ensures Fits(old(repo.rows), Arrival(c, now, pick))
      ensures f == Resolution(old(repo.rows), Arrival(c, now, pick), threshold)
      ensures Inserted(repo.rows, RowOf(f)) == Processed(old(repo.rows), Arrival(c, now, pick), threshold)
    {
      var active := repo.GetActiveFacts(KeyOf(c));
      pick := if active == [] then 0 else active[0];
      if active != [] {
        assert active[0] in multiset(active) && active[0] in multiset(OpenOf(repo.rows, KeyOf(c)));
        assert active[0] in OpenOf(repo.rows, KeyOf(c));
      }
      match Decide(c, if active == [] then None else Some(repo.rows[active[0]].factId), threshold) {
        case Store(g) =>
          f := g;
        case Supersede(e, g) =>
          repo.CloseFact(e, c.tenant, now, c.id);
          f := g;
      }
    }

    method Process(c: Fact, now: int) returns (f: Fact, ghost a: Arrival)
      modifies repo
      ensures a.candidate == c && a.now == now && Fits(old(repo.rows), a)
      ensures f == Resolution(old(repo.rows), a, threshold)
      ensures repo.rows == Processed(old(repo.rows), a, threshold)
    {
      ghost var pick;
      f, pick := ResolveContradiction(c, now);
      repo.Save(f);
      a := Arrival(c, now, pick);
    }

    /** The extraction loop for an already parsed LLM answer. ids are the fresh fact ids,
        clock the readings of the clock, one per element. On an element that is not built the facts
        saved so far stay saved and the call fails. */
    method Extract(raws: seq<RawFact>, src: Source, ids: seq<string>, clock: seq<int>)
      returns (saved: seq<Fact>, entities: seq<string>, failed: bool, ghost arrivals: seq<Arrival>)
      requires |ids| == |raws| && |clock| == |raws|
      modifies repo
      ensures Progress(old(repo.rows), raws, src, ids, clock, threshold, saved, arrivals)
      ensures repo.rows == ProcessedAll(old(repo.rows), arrivals, threshold)
      ensures if failed
              then |arrivals| < |raws| && (raws[|arrivals|].NoObject? || raws[|arrivals|].confidence.Unparsable?)
              else |arrivals| == |raws|
      ensures AllCarry(saved, raws, src, ids)
      ensures entities == EntitiesOf(saved)
    {
      saved, entities, failed, arrivals := [], [], false, [];
      for i := 0 to |raws|
        invariant |arrivals| == i
        invariant Progress(old(repo.rows), raws, src, ids, clock, threshold, saved, arrivals)
        invariant repo.rows == ProcessedAll(old(repo.rows), arrivals, threshold)
        invariant AllCarry(saved, raws, src, ids)
        invariant entities == EntitiesOf(saved)
      {
        var built := BuildCandidate(raws[i], src, ids[i], clock[i]);
        if built.Err? {
          failed := true;
          return;
        }
        var f, a := Process(built.value, clock[i]);
        OneMoreCarries(saved, raws, src, ids, clock[i], built.value, f);
        ProgressStep(old(repo.rows), raws, src, ids, clock, threshold, saved, arrivals, f, a);
        saved, arrivals := saved + [f], arrivals + [a];
        if f.entity !in entities {
          entities := entities + [f.entity];
        }
      }
    }
  }
}
