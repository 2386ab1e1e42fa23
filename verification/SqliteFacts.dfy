/** The SQLite fact table: a transactional close_fact, and the engine run against it. */
module SqliteFacts {
  import opened Domain
  import opened Extraction
  import opened Sql

  /** The primary key is the fact id alone. */
  type Facts = map<string, Fact>

  predicate IsCurrent(f: Fact, k: FactKey) {
    KeyOf(f) == k && f.lifecycle == Active && f.effectiveTo.None?
  }

  function CurrentIds(rows: Facts, k: FactKey): set<string> {
    set id | id in rows && IsCurrent(rows[id], k)
  }

  datatype Outcome = Done | Raised(error: StoreError)

  /** What close_fact answers; every error leaves the table as it was. */
  function CloseOutcome(rows: Facts, id: string, tenant: string, newId: string): Outcome {
    if id !in rows then Raised(NotFound)
    else if rows[id].tenant != tenant then Raised(TenantViolation)
    else if newId !in rows || rows[newId].tenant != tenant then Raised(StorageFailure)
    else Done
  }

  function AfterClose(rows: Facts, id: string, tenant: string, to: int, newId: string): Facts {
    if CloseOutcome(rows, id, tenant, newId).Raised? then rows
    else
      var ended := rows[id := rows[id].(effectiveTo := Some(to))];
      ended[newId := ended[newId].(supersedes := Some(id))]
  }

  class SqliteFactRepository {
    var rows: Facts

    constructor ()
      ensures rows == map[]
    {
      rows := map[];
    }

    /** INSERT OR REPLACE */
    method Save(f: Fact)
      modifies this
      ensures rows.Keys == old(rows.Keys) + {f.id} && rows[f.id] == f
      ensures forall id :: id in old(rows) && id != f.id ==> rows[id] == old(rows)[id]
    {
      rows := rows[f.id := f];
    }

    method CloseFact(id: string, tenant: string, to: int, newId: string) returns (r: Outcome)
      modifies this
      ensures r == CloseOutcome(old(rows), id, tenant, newId)
      ensures rows == AfterClose(old(rows), id, tenant, to, newId)
      ensures if id !in old(rows) then r == Raised(NotFound)
              else if old(rows)[id].tenant != tenant then r == Raised(TenantViolation)
              else if newId !in old(rows) || old(rows)[newId].tenant != tenant then r == Raised(StorageFailure)
              else r == Done
      ensures r.Raised? ==> rows == old(rows)
      ensures r.Done? ==> rows.Keys == old(rows.Keys) && forall x :: x in rows ==>
        rows[x] == old(rows)[x].(effectiveTo := if x == id then Some(to) else old(rows)[x].effectiveTo,
                                 supersedes := if x == newId then Some(id) else old(rows)[x].supersedes)
    {
      if id !in rows {
        return Raised(NotFound);
      }
      if rows[id].tenant != tenant {
        return Raised(TenantViolation);
      }
      var begin := rows;
      rows := rows[id := rows[id].(effectiveTo := Some(to))];
      var rowcount := 0;
      if newId in rows && rows[newId].tenant == tenant {
        rows := rows[newId := rows[newId].(supersedes := Some(id))];
        rowcount := 1;
      }
      if rowcount == 0 {
        rows := begin;
        return Raised(StorageFailure);
      }
      r := Done;
    }

    method GetActiveFacts(k: FactKey) returns (found: seq<string>)
      ensures IsNewestFirst(CurrentIds(rows, k), RecordedAt(rows), |CurrentIds(rows, k)|, found)
      ensures forall id :: id in found <==>
        && id in rows && rows[id].tenant == k.tenant && rows[id].entity == k.entity && rows[id].group == k.group
        && rows[id].lifecycle == Active && rows[id].effectiveTo.None?
      ensures forall a, b :: 0 <= a < b < |found| ==>
        found[a] != found[b] && rows[found[a]].recordedAt >= rows[found[b]].recordedAt
    {
      found := NewestFirst(CurrentIds(rows, k), RecordedAt(rows), |CurrentIds(rows, k)|);
      ListingCovers(CurrentIds(rows, k), RecordedAt(rows), |CurrentIds(rows, k)|, found);
      assert forall id :: id in found <==> id in CurrentIds(rows, k);
      forall a, b | 0 <= a < b < |found| ensures rows[found[a]].recordedAt >= rows[found[b]].recordedAt {
        assert RecordedAt(rows)[found[a]] >= RecordedAt(rows)[found[b]];
      }
    }
  }

  function RecordedAt(rows: Facts): map<string, int> {
    map id | id in rows :: rows[id].recordedAt
  }

  /** One candidate processed to completion against this store; None is the raised StorageError. */
  function Step(rows: Facts, c: Fact, now: int, existing: Option<string>, threshold: real): Option<Facts> {
    match Decide(c, existing, threshold)
    case Store(f) => Some(rows[f.id := f])
    case Supersede(e, f) =>
      if CloseOutcome(rows, e, c.tenant, c.id).Done?
      then Some(AfterClose(rows, e, c.tenant, now, c.id)[f.id := f])
      else None
  }

  ghost predicate ReadsCurrent(rows: Facts, c: Fact, existing: Option<string>) {
    if existing.None? then CurrentIds(rows, KeyOf(c)) == {} else existing.value in CurrentIds(rows, KeyOf(c))
  }

  class SqliteExtraction {
    const repo: SqliteFactRepository
    const threshold: real

    constructor (repo: SqliteFactRepository, threshold: real)
      ensures this.repo == repo && this.threshold == threshold
    {
      this.repo := repo;
      this.threshold := threshold;
    }

    method Process(c: Fact, now: int) returns (r: Outcome, ghost existing: Option<string>)
      modifies repo
      ensures ReadsCurrent(old(repo.rows), c, existing)
      ensures match Step(old(repo.rows), c, now, existing, threshold)
              case Some(rows') => r == Done && repo.rows == rows'
              case None => r.Raised? && repo.rows == old(repo.rows)
    {
      var active := repo.GetActiveFacts(KeyOf(c));
      var first := if active == [] then None else Some(active[0]);
      existing := first;
      match Decide(c, first, threshold) {
        case Store(f) =>
          repo.Save(f);
          r := Done;
        case Supersede(e, f) =>
          r := repo.CloseFact(e, c.tenant, now, c.id);
          if r.Done? {
            repo.Save(f);
          }
      }
    }
  }

  // ---------------------------------------------------------------- sequential runs

  ghost predicate FreshCandidate(rows: Facts, c: Fact) {
    c.id !in rows && c.effectiveTo.None? && c.lifecycle == Active
  }

  /** One candidate, and what the engine read as the existing fact of its key. */
  datatype Attempt = Attempt(candidate: Fact, now: int, existing: Option<string>)

  /** The table after the attempt, which a raised error leaves unchanged. */
  ghost predicate Follows(rows: Facts, a: Attempt, threshold: real, rows': Facts) {
    && FreshCandidate(rows, a.candidate)
    && ReadsCurrent(rows, a.candidate, a.existing)
    && rows' == match Step(rows, a.candidate, a.now, a.existing, threshold)
                case Some(after) => after
                case None => rows
  }

  ghost predicate IsHistory(tables: seq<Facts>, attempts: seq<Attempt>, threshold: real) {
    && |tables| == |attempts| + 1
    && tables[0] == map[]
    && forall i :: 0 <= i < |attempts| ==> Follows(tables[i], attempts[i], threshold, tables[i + 1])
  }

  ghost predicate WellKeyed(rows: Facts) {
    && (forall id :: id in rows ==> rows[id].id == id && rows[id].effectiveTo.None?)
    && forall a, b, k :: a in CurrentIds(rows, k) && b in CurrentIds(rows, k) ==> a == b
  }

  /** Closing before saving cannot work here: the engine fails on exactly the contradictions it
      means to resolve, namely a current fact met by a candidate at or above the threshold. */
  lemma SupersedingAlwaysFails(rows: Facts, c: Fact, now: int, existing: Option<string>, threshold: real)
    requires FreshCandidate(rows, c) && ReadsCurrent(rows, c, existing)
    ensures Step(rows, c, now, existing, threshold).None?
       <==> CurrentIds(rows, KeyOf(c)) != {} && c.confidence >= threshold
  {
  }

  /** In sequential runs a key never has two ACTIVE open facts, and no fact is ever closed. */
  lemma {:induction false} AtMostOneCurrentFact(tables: seq<Facts>, attempts: seq<Attempt>, threshold: real, n: nat)
    requires IsHistory(tables, attempts, threshold) && n < |tables|
    ensures WellKeyed(tables[n])
    decreases n
  {
    if n > 0 {
      AtMostOneCurrentFact(tables, attempts, threshold, n - 1);
      var rows, a := tables[n - 1], attempts[n - 1];
      assert Follows(rows, a, threshold, tables[n]);
      SupersedingAlwaysFails(rows, a.candidate, a.now, a.existing, threshold);
      var f := Decide(a.candidate, a.existing, threshold);
      if f.Store? {
        assert tables[n] == rows[f.fact.id := f.fact];
        forall x, y, k | x in CurrentIds(tables[n], k) && y in CurrentIds(tables[n], k) ensures x == y {
          if x != f.fact.id { assert x in CurrentIds(rows, k); }
          if y != f.fact.id { assert y in CurrentIds(rows, k); }
        }
      }
    }
  }

  /** The first ACTIVE fact of a key stays its only current fact for the rest of the run. */
  lemma {:induction false} FirstFactStands(tables: seq<Facts>, attempts: seq<Attempt>, threshold: real,
                                           m: nat, n: nat, id: string, k: FactKey)
    requires IsHistory(tables, attempts, threshold) && m <= n < |tables|
    requires id in CurrentIds(tables[m], k)
    ensures id in CurrentIds(tables[n], k) && tables[n][id] == tables[m][id]
    decreases n
  {
    if m < n {
      FirstFactStands(tables, attempts, threshold, m, n - 1, id, k);
      var a := attempts[n - 1];
      assert Follows(tables[n - 1], a, threshold, tables[n]);
      SupersedingAlwaysFails(tables[n - 1], a.candidate, a.now, a.existing, threshold);
    }
  }
}
