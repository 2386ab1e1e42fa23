/** The memory record table under its two stores. A record id is a fresh uuid, so the id alone
    identifies a row in both. */
module Records {
  import opened Domain
  import opened Sql

  datatype Record = Record(
    id: string,
    tenant: string,
    principal: string,
    payload: string,
    sector: Sector,
    lifecycle: Lifecycle,
    pipeline: Pipeline,
    recordedAt: int,
    key: Option<string>)

  type Rows = map<string, Record>

  /** Which of the two stores is behind the port. */
  datatype Semantics = Sqlite | Postgres

  /** Two records that the partial unique index on (tenant_id, idempotency_key) keeps apart. */
  predicate Collide(a: Record, b: Record) {
    a.key.Some? && a.key == b.key && a.tenant == b.tenant
  }

  ghost predicate UniqueKeys(rows: Rows) {
    && (forall i :: i in rows ==> rows[i].id == i)
    && forall i, j :: i in rows && j in rows && Collide(rows[i], rows[j]) ==> i == j
  }

  /** SQLite: INSERT OR REPLACE deletes every row that conflicts on the primary key or on the
      unique index, then inserts. */
  function SqliteSaved(rows: Rows, r: Record): Rows {
    (map i | i in rows && !Collide(rows[i], r) :: rows[i])[r.id := r]
  }

  /** Postgres: ON CONFLICT on the primary key does nothing, a second row with the same
      idempotency key raises. */
  function PostgresSaved(rows: Rows, r: Record): Result<Rows, StoreError> {
    if r.id in rows then Ok(rows)
    else if exists i :: i in rows && Collide(rows[i], r) then Err(UniqueViolation)
    else Ok(rows[r.id := r])
  }

  function WithKey(rows: Rows, tenant: string, key: string): set<string> {
    set i | i in rows && rows[i].tenant == tenant && rows[i].key == Some(key)
  }

  /** Both stores' UPDATE ... WHERE id AND tenant_id. */
  function WithLifecycle(rows: Rows, id: string, tenant: string, state: Lifecycle): (rows': Rows)
    ensures rows'.Keys == rows.Keys
  {
    if id in rows && rows[id].tenant == tenant then rows[id := rows[id].(lifecycle := state)] else rows
  }

  function WithPipeline(rows: Rows, id: string, tenant: string, status: Pipeline): (rows': Rows)
    ensures rows'.Keys == rows.Keys
  {
    if id in rows && rows[id].tenant == tenant then rows[id := rows[id].(pipeline := status)] else rows
  }

  /** SQLite's check before an update; Postgres updates blindly. */
  function TenantCheck(rows: Rows, id: string, tenant: string): Option<StoreError> {
    if id !in rows then Some(StorageFailure)
    else if rows[id].tenant != tenant then Some(TenantViolation)
    else None
  }

  function RecordedAt(rows: Rows): map<string, int> {
    map i | i in rows :: rows[i].recordedAt
  }

  datatype Scope = Scope(tenant: string, principal: string)

  /** The WHERE clause of list_by_scope; only SQLite filters on the principal. */
  function InScope(rows: Rows, scope: Scope, states: set<Lifecycle>, byPrincipal: bool): set<string> {
    set i | i in rows && rows[i].tenant == scope.tenant && rows[i].lifecycle in states
            && (byPrincipal ==> rows[i].principal == scope.principal)
  }

  /** Of the selected rows the newest ones, newest first: if some are left out the listing is as long
      as its limit and none of them is newer than a listed one. */
  ghost predicate ListsNewest(rows: Rows, selected: set<string>, limit: nat, found: seq<string>) {
    && |found| <= limit && selected <= rows.Keys
    && (forall i :: i in found ==> i in selected)
    && (forall a, b :: 0 <= a < b < |found| ==> found[a] != found[b] && rows[found[a]].recordedAt >= rows[found[b]].recordedAt)
    && (forall i :: i in selected && i !in found ==> |found| == limit)
    && (forall i, a :: i in selected && i !in found && 0 <= a < |found| ==> rows[i].recordedAt <= rows[found[a]].recordedAt)
  }

  lemma ListingIsNewest(rows: Rows, selected: set<string>, limit: nat, found: seq<string>)
    requires IsNewestFirst(selected, RecordedAt(rows), limit, found)
    ensures ListsNewest(rows, selected, limit, found)
  {
    ListingCovers(selected, RecordedAt(rows), limit, found);
    forall a, b | 0 <= a < b < |found| ensures rows[found[a]].recordedAt >= rows[found[b]].recordedAt {
      assert RecordedAt(rows)[found[a]] >= RecordedAt(rows)[found[b]];
    }
    forall i, a | i in selected && i !in found && 0 <= a < |found| ensures rows[i].recordedAt <= rows[found[a]].recordedAt {
      assert RecordedAt(rows)[i] <= RecordedAt(rows)[found[a]];
    }
  }

  lemma SqliteSaveKeepsKeysUnique(rows: Rows, r: Record)
    requires UniqueKeys(rows)
    ensures UniqueKeys(SqliteSaved(rows, r))
  {
  }

  lemma PostgresSaveKeepsKeysUnique(rows: Rows, r: Record)
    requires UniqueKeys(rows)
    ensures PostgresSaved(rows, r).Ok? ==> UniqueKeys(PostgresSaved(rows, r).value)
  {
  }

  /** A SQLite save of a new record loses nothing exactly when a lookup of its idempotency key at
      that moment finds nothing. */
  lemma SqliteSaveLosesNothingIff(rows: Rows, r: Record)
    requires r.id !in rows
    ensures (forall i :: i in rows ==> i in SqliteSaved(rows, r) && SqliteSaved(rows, r)[i] == rows[i])
       <==> r.key.None? || WithKey(rows, r.tenant, r.key.value) == {}
  {
    var kept := SqliteSaved(rows, r);
    assert forall i :: i in rows && Collide(rows[i], r) ==> i in WithKey(rows, r.tenant, r.key.value);
    if r.key.Some? && WithKey(rows, r.tenant, r.key.value) != {} {
      var i :| i in WithKey(rows, r.tenant, r.key.value);
      assert i !in kept;
    }
  }

  class SqliteRecordRepository {
    var rows: Rows

    constructor ()
      ensures rows == map[]
    {
      rows := map[];
    }

    method Save(r: Record)
      modifies this
      ensures rows == SqliteSaved(old(rows), r)
      ensures r.id in rows && rows[r.id] == r
      ensures forall i :: i != r.id ==> (i in rows <==> i in old(rows) && !Collide(old(rows)[i], r))
      ensures forall i :: i in rows && i != r.id ==> rows[i] == old(rows)[i]
    {
      var kept := map i | i in rows && !Collide(rows[i], r) :: rows[i];
      rows := kept[r.id := r];
    }

    method UpdateLifecycle(id: string, tenant: string, state: Lifecycle) returns (raised: Option<StoreError>)
      modifies this
      ensures raised == TenantCheck(old(rows), id, tenant)
      ensures rows == WithLifecycle(old(rows), id, tenant, state)
      ensures if id !in old(rows) then raised == Some(StorageFailure) && rows == old(rows)
              else if old(rows)[id].tenant != tenant then raised == Some(TenantViolation) && rows == old(rows)
              else raised.None? && rows == old(rows)[id := old(rows)[id].(lifecycle := state)]
    {
      raised := TenantCheck(rows, id, tenant);
      if raised.None? {
        rows := rows[id := rows[id].(lifecycle := state)];
      }
    }

    method UpdatePipelineStatus(id: string, tenant: string, status: Pipeline) returns (raised: Option<StoreError>)
      modifies this
      ensures raised == TenantCheck(old(rows), id, tenant)
      ensures rows == WithPipeline(old(rows), id, tenant, status)
      ensures if id !in old(rows) then raised == Some(StorageFailure) && rows == old(rows)
              else if old(rows)[id].tenant != tenant then raised == Some(TenantViolation) && rows == old(rows)
              else raised.None? && rows == old(rows)[id := old(rows)[id].(pipeline := status)]
    {
      raised := TenantCheck(rows, id, tenant);
      if raised.None? {
        rows := rows[id := rows[id].(pipeline := status)];
      }
    }

    method ListByScope(scope: Scope, states: set<Lifecycle>, limit: nat) returns (found: seq<string>)
      ensures IsNewestFirst(InScope(rows, scope, states, true), RecordedAt(rows), limit, found)
      ensures ListsNewest(rows, (set i | i in rows && rows[i].tenant == scope.tenant && rows[i].principal == scope.principal
                                          && rows[i].lifecycle in states), limit, found)
    {
      found := NewestFirst(InScope(rows, scope, states, true), RecordedAt(rows), limit);
      ListingIsNewest(rows, InScope(rows, scope, states, true), limit, found);
    }

    method GetByIdempotencyKey(key: string, tenant: string) returns (found: Option<Record>)
      ensures if found.None? then WithKey(rows, tenant, key) == {}
              else exists i :: i in WithKey(rows, tenant, key) && rows[i] == found.value
    {
      var ids := WithKey(rows, tenant, key);
      if ids == {} {
        found := None;
      } else {
        var i :| i in ids;
        found := Some(rows[i]);
      }
    }
  }

  class PostgresRecordRepository {
    var rows: Rows

    constructor ()
      ensures rows == map[]
    {
      rows := map[];
    }

    method Save(r: Record) returns (raised: Option<StoreError>)
      modifies this
      ensures match PostgresSaved(old(rows), r)
              case Ok(rows') => raised.None? && rows == rows'
              case Err(e) => raised == Some(e) && rows == old(rows)
      ensures if r.id in old(rows) then raised.None? && rows == old(rows)
              else if r.key.Some? && WithKey(old(rows), r.tenant, r.key.value) != {}
              then raised == Some(UniqueViolation) && rows == old(rows)
              else raised.None? && rows == old(rows)[r.id := r]
    {
      assert r.key.Some? ==> forall i :: i in rows ==> (Collide(rows[i], r) <==> i in WithKey(rows, r.tenant, r.key.value));
      raised := None;
      if r.id !in rows {
        if exists i :: i in rows && Collide(rows[i], r) {
          raised := Some(UniqueViolation);
        } else {
          rows := rows[r.id := r];
        }
      }
    }

    method UpdateLifecycle(id: string, tenant: string, state: Lifecycle)
      modifies this
      ensures rows == WithLifecycle(old(rows), id, tenant, state)
    {
      if id in rows && rows[id].tenant == tenant && rows[id].lifecycle != state {
        rows := rows[id := rows[id].(lifecycle := state)];
      }
    }

    method UpdatePipelineStatus(id: string, tenant: string, status: Pipeline)
      modifies this
      ensures rows == WithPipeline(old(rows), id, tenant, status)
    {
      if id in rows && rows[id].tenant == tenant {
        rows := rows[id := rows[id].(pipeline := status)];
      }
    }

    method ListByScope(scope: Scope, states: set<Lifecycle>, limit: nat) returns (found: seq<string>)
      ensures IsNewestFirst(InScope(rows, scope, states, false), RecordedAt(rows), limit, found)
      ensures ListsNewest(rows, (set i | i in rows && rows[i].tenant == scope.tenant && rows[i].lifecycle in states), limit, found)
    {
      found := NewestFirst(InScope(rows, scope, states, false), RecordedAt(rows), limit);
      ListingIsNewest(rows, InScope(rows, scope, states, false), limit, found);
    }
  }
}
