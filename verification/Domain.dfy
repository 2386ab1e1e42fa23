/** Value types shared by every component: the enumerations and records of the domain layer.
    Identifiers are strings and instants are integers (microseconds since a fixed epoch). */
module Domain {

  datatype Option<+T> = None | Some(value: T)

  datatype Result<+T, +E> = Ok(value: T) | Err(error: E)

  /** An optional identifier as the adapters treat it: the empty string counts as absent. */
  function Truthy(o: Option<string>): Option<string> {
    if o.Some? && o.value != "" then o else None
  }

  datatype StoreError = NotFound | TenantViolation | StorageFailure | UniqueViolation

  datatype Lifecycle = Active | Proposed | Consolidated | Decayed | Archived | Deleted

  datatype Pipeline = Pending | Enriched | PartialFailed | Skipped

  datatype Sector = Episodic | Semantic | Procedural | Identity | Relational | Reflective

  datatype PrincipalType = User | Agent

  /** The identity context a fact inherits from its record. */
  datatype FactScope = FactScope(
    tenant: string,
    principal: string,
    principalType: PrincipalType,
    workspace: Option<string>,
    session: Option<string>,
    run: Option<string>)

  /** A time-stamped statement about one entity, extracted from a memory record. */
  datatype Fact = Fact(
    id: string,
    memoryRecordId: string,
    tenant: string,
    scope: FactScope,
    entity: string,
    predicateName: string,
    group: string,
    objectValue: string,
    effectiveFrom: int,
    effectiveTo: Option<int>,
    recordedAt: int,
    supersedes: Option<string>,
    confidence: real,
    sector: Sector,
    lifecycle: Lifecycle)

  /** Facts compete for the truth inside one key. */
  datatype FactKey = FactKey(tenant: string, entity: string, group: string)

  function KeyOf(f: Fact): FactKey {
    FactKey(f.tenant, f.entity, f.group)
  }

  /** d stands before e in the list. */
  ghost predicate Precedes(list: seq<string>, d: string, e: string) {
    exists i, j :: 0 <= i < j < |list| && list[i] == d && list[j] == e
  }
}
