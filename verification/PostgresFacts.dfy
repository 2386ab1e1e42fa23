/** The Postgres fact table and its adapter.
    The table is the sequence of its rows in the order they were saved, so that "saved later"
    is "at a larger index". Both directions of a supersession link live in one column. */
module PostgresFacts {
  import opened Domain

  datatype Row = Row(
    factId: string,
    tenant: string,
    memoryRecordId: string,
    entity: string,
    predicateName: string,
    group: string,
    objectValue: string,
    confidence: real,
    sector: Sector,
    lifecycle: Lifecycle,
    effectiveFrom: int,
    effectiveTo: Option<int>,
    supersededBy: Option<string>)

  type Table = seq<Row>

  predicate IsOpen(r: Row) {
    r.effectiveTo.None?
  }

  function RowKey(r: Row): FactKey {
    FactKey(r.tenant, r.entity, r.group)
  }

  function RowOf(f: Fact): Row {
    Row(f.id, f.tenant, f.memoryRecordId, f.entity, f.predicateName, f.group, f.objectValue,
        f.confidence, f.sector, f.lifecycle, f.effectiveFrom, f.effectiveTo, Truthy(f.supersedes))
  }

  /** No column holds the scope: every fact is read back as the system agent's. */
  function SystemScope(tenant: string): FactScope {
    FactScope(tenant, "system", Agent, None, None, None)
  }

  /** Reading a row back; recordedAt has no column either, so it becomes the time of the read. */
  function FactOf(r: Row, readAt: int): Fact {
    Fact(r.factId, r.memoryRecordId, r.tenant, SystemScope(r.tenant), r.entity, r.predicateName, r.group, r.objectValue,
         r.effectiveFrom, r.effectiveTo, readAt, Truthy(r.supersededBy),
         r.confidence, r.sector, r.lifecycle)
  }

  /** INSERT ... ON CONFLICT (fact_id, tenant_id) DO NOTHING */
  function Inserted(t: Table, r: Row): Table {
    if exists i :: 0 <= i < |t| && t[i].factId == r.factId && t[i].tenant == r.tenant then t else t + [r]
  }

  /** UPDATE facts SET effective_to, superseded_by WHERE fact_id AND tenant_id */
  function Closed(t: Table, id: string, tenant: string, to: int, newId: string): (t': Table)
    ensures |t'| == |t|
  {
    seq(|t|, i requires 0 <= i < |t| =>
      if t[i].factId == id && t[i].tenant == tenant
      then t[i].(effectiveTo := Some(to), supersededBy := Some(newId))
      else t[i])
  }

  /** The rows the engine treats as current truth: effective_to IS NULL, in any lifecycle state. */
  function OpenOf(t: Table, k: FactKey): (s: seq<nat>)
    ensures forall i :: i in s <==> 0 <= i < |t| && IsOpen(t[i]) && RowKey(t[i]) == k
    ensures forall a, b :: 0 <= a < b < |s| ==> s[a] < s[b]
  {
    if t == [] then []
    else
      var n := |t| - 1;
      var rest := OpenOf(t[..n], k);
      assert forall i :: i in rest ==> t[..n][i] == t[i];
      assert forall a :: 0 <= a < |rest| ==> rest[a] in rest;
      if IsOpen(t[n]) && RowKey(t[n]) == k then rest + [n] else rest
  }

  /** Row identity and content never change; only an open interval may become closed,
      and then it stays closed. */
  ghost predicate Evolves(t: Table, t': Table) {
    && |t| <= |t'|
    && forall i :: 0 <= i < |t| ==>
         && t'[i] == t[i].(effectiveTo := t'[i].effectiveTo, supersededBy := t'[i].supersededBy)
         && (IsOpen(t'[i]) ==> t'[i] == t[i])
  }

  lemma EvolvesTransitively(t: Table, u: Table, w: Table)
    requires Evolves(t, u) && Evolves(u, w)
    ensures Evolves(t, w)
  {
    forall i | 0 <= i < |t|
      ensures w[i] == t[i].(effectiveTo := w[i].effectiveTo, supersededBy := w[i].supersededBy)
      ensures IsOpen(w[i]) ==> w[i] == t[i]
    {
      assert u[i] == t[i].(effectiveTo := u[i].effectiveTo, supersededBy := u[i].supersededBy);
      assert w[i] == u[i].(effectiveTo := w[i].effectiveTo, supersededBy := w[i].supersededBy);
    }
  }

  /** A fact survives the round trip through its row exactly when its link is not the empty string,
      its scope is the system agent's and its recordedAt happens to be the time of the read. */
  lemma RowRoundTrip(f: Fact, readAt: int)
    ensures FactOf(RowOf(f), readAt) == f <==>
      f.supersedes != Some("") && f.scope == SystemScope(f.tenant) && f.recordedAt == readAt
  {
  }

  /** The shared column turns the link around: once closed, a fact is read back as superseding
      the very fact that replaced it. */
  lemma ClosedRowReadsBackwards(t: Table, i: nat, to: int, newId: string, readAt: int)
    requires i < |t| && newId != ""
    ensures FactOf(Closed(t, t[i].factId, t[i].tenant, to, newId)[i], readAt).supersedes == Some(newId)
  {
  }

  class PostgresFactRepository {
    var rows: Table

    constructor ()
      ensures rows == []
    {
      rows := [];
    }

    method Save(f: Fact)
      modifies this
      ensures rows == Inserted(old(rows), RowOf(f))
      ensures if exists i :: 0 <= i < |old(rows)| && old(rows)[i].factId == f.id && old(rows)[i].tenant == f.tenant
              then rows == old(rows) else rows == old(rows) + [RowOf(f)]
    {
      var r := RowOf(f);
      if !exists i :: 0 <= i < |rows| && rows[i].factId == r.factId && rows[i].tenant == r.tenant {
        rows := rows + [r];
      }
    }

    method CloseFact(id: string, tenant: string, to: int, newId: string)
      modifies this
      ensures rows == Closed(old(rows), id, tenant, to, newId)
      ensures forall i :: 0 <= i < |rows| ==>
        if old(rows)[i].factId == id && old(rows)[i].tenant == tenant
        then rows[i].effectiveTo == Some(to) && rows[i].supersededBy == Some(newId)
             && rows[i] == old(rows)[i].(effectiveTo := rows[i].effectiveTo, supersededBy := rows[i].supersededBy)
        else rows[i] == old(rows)[i]
      ensures (forall i :: 0 <= i < |old(rows)| ==> old(rows)[i].factId != id || old(rows)[i].tenant != tenant)
        ==> rows == old(rows)
    {
      rows := Closed(rows, id, tenant, to, newId);
    }

    /** The query has no ORDER BY: callers learn which rows they get, not in which order. */
    method GetActiveFacts(k: FactKey) returns (found: seq<nat>)
      ensures multiset(found) == multiset(OpenOf(rows, k))
      ensures forall i :: i in found <==>
        && 0 <= i < |rows| && rows[i].effectiveTo.None?
        && rows[i].tenant == k.tenant && rows[i].entity == k.entity && rows[i].group == k.group
    {
      found := OpenOf(rows, k);
    }
  }
}
