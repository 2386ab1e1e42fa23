/** The Postgres migrator: the DDL of a version and its schema_migrations row are committed in one
    transaction, the event follows outside it. */
module PostgresMigrations {

  datatype Event = Migrated(fromVersion: nat, toVersion: nat)

  /** rows are the versions in schema_migrations; ddl is the history of committed DDL, events the
      history of emitted events. */
  datatype Db = Db(rows: seq<string>, ddl: seq<string>, events: seq<Event>)

  const FRESH := Db([], [], [])

  datatype Result = Result(applied: seq<string>, skipped: seq<string>)

  datatype Outcome = Completed(result: Result) | Died

  /** The migrations from position idx on; fuel is how many effects (a commit, an emitted event)
      happen before the process dies. A death inside a transaction leaves nothing of it. */
  function Work(db: Db, migrations: seq<string>, idx: nat, fuel: nat): (Db, Outcome)
    requires idx <= |migrations|
    decreases |migrations| - idx
  {
    if idx == |migrations| then (db, Completed(Result([], [])))
    else
      var v := migrations[idx];
      if v in db.rows then
        var (after, o) := Work(db, migrations, idx + 1, fuel);
        (after, WithSkipped(v, o))
      else if fuel == 0 then (db, Died)
      else
        var committed := db.(ddl := db.ddl + [v], rows := db.rows + [v]);
        if fuel == 1 then (committed, Died)
        else
          var emitted := committed.(events := committed.events + [Migrated(idx, idx + 1)]);
          var (after, o) := Work(emitted, migrations, idx + 1, fuel - 2);
          (after, WithApplied(v, o))
  }

  class SchemaMigrator {
    const migrations: seq<string>
    var db: Db

    constructor (migrations: seq<string>)
      ensures this.migrations == migrations && db == FRESH
    {
      this.migrations := migrations;
      db := FRESH;
    }

    method Run(fuel: nat) returns (o: Outcome)
      modifies this
      ensures (db, o) == Work(old(db), migrations, 0, fuel)
    {
      var applied: seq<string>, skipped: seq<string>, left := [], [], fuel;
      ResumeFresh(db, migrations, fuel);
      for idx := 0 to |migrations|
        invariant Work(old(db), migrations, 0, fuel) == Resumed(db, migrations, idx, left, Result(applied, skipped))
      {
        var version := migrations[idx];
        ResumeStep(db, migrations, idx, left, Result(applied, skipped));
        if version in db.rows {
          skipped := skipped + [version];
        } else {
          if left == 0 { return Died; }
          db := db.(ddl := db.ddl + [version], rows := db.rows + [version]);
          applied := applied + [version];
          if left == 1 { return Died; }
          db := db.(events := db.events + [Migrated(idx, idx + 1)]);
          left := left - 2;
        }
      }
      assert applied + [] == applied && skipped + [] == skipped;
      o := Completed(Result(applied, skipped));
    }
  }

  function Resumed(db: Db, migrations: seq<string>, idx: nat, fuel: nat, sofar: Result): (Db, Outcome)
    requires idx <= |migrations|
  {
    var (after, o) := Work(db, migrations, idx, fuel);
    (after, if o.Completed?
            then Completed(Result(sofar.applied + o.result.applied, sofar.skipped + o.result.skipped)) else o)
  }

  lemma ResumeFresh(db: Db, migrations: seq<string>, fuel: nat)
    ensures Resumed(db, migrations, 0, fuel, Result([], [])) == Work(db, migrations, 0, fuel)
  {
    var o := Work(db, migrations, 0, fuel).1;
    if o.Completed? {
      assert [] + o.result.applied == o.result.applied && [] + o.result.skipped == o.result.skipped;
    }
  }

  lemma ResumeStep(db: Db, migrations: seq<string>, idx: nat, fuel: nat, sofar: Result)
    requires idx < |migrations|
    ensures var v := migrations[idx];
      Resumed(db, migrations, idx, fuel, sofar) ==
        if v in db.rows then Resumed(db, migrations, idx + 1, fuel, sofar.(skipped := sofar.skipped + [v]))
        else if fuel == 0 then (db, Died)
        else if fuel == 1 then (db.(ddl := db.ddl + [v], rows := db.rows + [v]), Died)
        else Resumed(Db(db.rows + [v], db.ddl + [v], db.events + [Migrated(idx, idx + 1)]), migrations, idx + 1, fuel - 2,
                     sofar.(applied := sofar.applied + [v]))
  {
    var v := migrations[idx];
    assert forall rest: seq<string> :: sofar.skipped + [v] + rest == sofar.skipped + ([v] + rest);
    assert forall rest: seq<string> :: sofar.applied + [v] + rest == sofar.applied + ([v] + rest);
  }

  // ---------------------------------------------------------------- histories

  function AfterRuns(migrations: seq<string>, fuels: seq<nat>): Db {
    if fuels == [] then FRESH
    else Work(AfterRuns(migrations, fuels[..|fuels| - 1]), migrations, 0, fuels[|fuels| - 1]).0
  }

  predicate Distinct<T(==)>(s: seq<T>) {
    forall i, j :: 0 <= i < j < |s| ==> s[i] != s[j]
  }

  /** The version an event reports. */
  predicate Reports(e: Event, migrations: seq<string>, v: string) {
    e.fromVersion < |migrations| && e.toVersion == e.fromVersion + 1 && migrations[e.fromVersion] == v
  }

  /** An event reports a version that has its row. */
  ghost predicate Recorded(e: Event, rows: seq<string>, migrations: seq<string>) {
    exists v :: v in rows && Reports(e, migrations, v)
  }

  /** Committed DDL and recorded rows are the same history, without repetition; every emitted event
      reports a committed version, and no version is reported twice. */
  ghost predicate ExactlyOnce(db: Db, migrations: seq<string>) {
    && db.ddl == db.rows && Distinct(db.rows)
    && (forall v :: v in db.rows ==> v in migrations)
    && (forall i :: 0 <= i < |db.events| ==> Recorded(db.events[i], db.rows, migrations))
    && (forall i, j, v :: 0 <= i < j < |db.events| && Reports(db.events[i], migrations, v)
          ==> !Reports(db.events[j], migrations, v))
  }

  /** The two reports of a run together are the migrations, in order. */
  ghost predicate IsSplit(migrations: seq<string>, idx: nat, applied: seq<string>, skipped: seq<string>)
    requires idx <= |migrations|
    decreases |migrations| - idx
  {
    if idx == |migrations| then applied == [] && skipped == []
    else
      || (applied != [] && applied[0] == migrations[idx] && IsSplit(migrations, idx + 1, applied[1..], skipped))
      || (skipped != [] && skipped[0] == migrations[idx] && IsSplit(migrations, idx + 1, applied, skipped[1..]))
  }

  /** The events of a completed run: one per applied version, in order, after the earlier ones. */
  ghost predicate ReportsApplied(events: seq<Event>, after: seq<Event>, migrations: seq<string>, applied: seq<string>) {
    && |after| == |events| + |applied| && events <= after
    && forall i :: 0 <= i < |applied| ==> Reports(after[|events| + i], migrations, applied[i])
  }

  /** What a completed run reports, from position idx on. */
  ghost predicate CompletedSpec(db: Db, migrations: seq<string>, idx: nat, after: Db, r: Result)
    requires idx <= |migrations|
  {
    && IsSplit(migrations, idx, r.applied, r.skipped)
    && after.rows == db.rows + r.applied
    && (forall j :: idx <= j < |migrations| ==> migrations[j] in after.rows)
    && ReportsApplied(db.events, after.events, migrations, r.applied)
  }

  /** What one run does, completed or not. */
  ghost predicate RunSpec(db: Db, migrations: seq<string>, idx: nat, after: Db, o: Outcome)
    requires idx <= |migrations|
  {
    && ExactlyOnce(after, migrations)
    && db.rows <= after.rows
    && (o.Completed? ==> CompletedSpec(db, migrations, idx, after, o.result))
  }

  lemma CommitKeepsExactlyOnce(db: Db, migrations: seq<string>, idx: nat)
    requires ExactlyOnce(db, migrations) && idx < |migrations| && migrations[idx] !in db.rows
    ensures var v := migrations[idx]; var committed := db.(ddl := db.ddl + [v], rows := db.rows + [v]);
      && ExactlyOnce(committed, migrations)
      && ExactlyOnce(committed.(events := committed.events + [Migrated(idx, idx + 1)]), migrations)
  {
    var v := migrations[idx];
    var rows, events := db.rows + [v], db.events + [Migrated(idx, idx + 1)];
    assert forall x :: x in rows <==> x in db.rows || x == v;
    forall i | 0 <= i < |events| ensures Recorded(events[i], rows, migrations) {
      if i < |db.events| {
        assert Recorded(db.events[i], db.rows, migrations);
      } else {
        assert Reports(events[i], migrations, v);
      }
    }
    forall i, j, x | 0 <= i < j < |events| && Reports(events[i], migrations, x) ensures !Reports(events[j], migrations, x) {
      if j == |db.events| {
        assert Recorded(db.events[i], db.rows, migrations);
      }
    }
  }

  lemma {:induction false} WorkMeetsSpec(db: Db, migrations: seq<string>, idx: nat, fuel: nat)
    requires idx <= |migrations| && ExactlyOnce(db, migrations)
    ensures RunSpec(db, migrations, idx, Work(db, migrations, idx, fuel).0, Work(db, migrations, idx, fuel).1)
    decreases |migrations| - idx
  {
    if idx < |migrations| {
      var v := migrations[idx];
      if v in db.rows {
        WorkMeetsSpec(db, migrations, idx + 1, fuel);
        var (after, o) := Work(db, migrations, idx + 1, fuel);
        if o.Completed? { SkippedStep(db, migrations, idx, after, o.result); }
      } else if fuel > 0 {
        CommitKeepsExactlyOnce(db, migrations, idx);
        if fuel == 1 {
          assert Work(db, migrations, idx, fuel) == (Db(db.rows + [v], db.ddl + [v], db.events), Died);
        } else {
          var emitted := Db(db.rows + [v], db.ddl + [v], db.events + [Migrated(idx, idx + 1)]);
          WorkMeetsSpec(emitted, migrations, idx + 1, fuel - 2);
          var (after, o) := Work(emitted, migrations, idx + 1, fuel - 2);
          assert Work(db, migrations, idx, fuel) == (after, WithApplied(v, o));
          assert db.rows <= emitted.rows <= after.rows;
          if o.Completed? { EmittedStep(db, migrations, idx, after, o.result); }
        }
      }
    }
  }

  lemma SplitOneMore(migrations: seq<string>, idx: nat, rest: seq<string>, skipped: seq<string>)
    requires idx < |migrations| && IsSplit(migrations, idx + 1, rest, skipped)
    ensures IsSplit(migrations, idx, [migrations[idx]] + rest, skipped)
  {
    assert ([migrations[idx]] + rest)[1..] == rest;
  }

  lemma EmittedStep(db: Db, migrations: seq<string>, idx: nat, after: Db, r: Result)
    requires idx < |migrations|
    requires var v := migrations[idx];
      CompletedSpec(Db(db.rows + [v], db.ddl + [v], db.events + [Migrated(idx, idx + 1)]), migrations, idx + 1, after, r)
    ensures CompletedSpec(db, migrations, idx, after, r.(applied := [migrations[idx]] + r.applied))
  {
    var v := migrations[idx];
    assert (db.rows + [v])[|db.rows|] == v;
    assert after.rows[|db.rows|] == v;
    SplitOneMore(migrations, idx, r.applied, r.skipped);
    assert db.rows + [v] + r.applied == db.rows + ([v] + r.applied);
    ReportsOneMore(db.events, after.events, migrations, idx, r.applied);
  }

  function WithSkipped(v: string, o: Outcome): Outcome {
    if o.Completed? then Completed(o.result.(skipped := [v] + o.result.skipped)) else o
  }

  function WithApplied(v: string, o: Outcome): Outcome {
    if o.Completed? then Completed(o.result.(applied := [v] + o.result.applied)) else o
  }

  lemma SkippedStep(db: Db, migrations: seq<string>, idx: nat, after: Db, r: Result)
    requires idx < |migrations| && migrations[idx] in db.rows
    requires CompletedSpec(db, migrations, idx + 1, after, r)
    ensures CompletedSpec(db, migrations, idx, after, r.(skipped := [migrations[idx]] + r.skipped))
  {
    assert ([migrations[idx]] + r.skipped)[1..] == r.skipped;
  }

  lemma ReportsOneMore(events: seq<Event>, after: seq<Event>, migrations: seq<string>, idx: nat, rest: seq<string>)
    requires idx < |migrations|
    requires ReportsApplied(events + [Migrated(idx, idx + 1)], after, migrations, rest)
    ensures ReportsApplied(events, after, migrations, [migrations[idx]] + rest)
  {
    var e := Migrated(idx, idx + 1);
    assert after[|events|] == (events + [e])[|events|] == e;
    var applied := [migrations[idx]] + rest;
    forall i | 0 <= i < |applied| ensures Reports(after[|events| + i], migrations, applied[i]) {
      if i > 0 {
        assert Reports(after[|events + [e]| + (i - 1)], migrations, rest[i - 1]);
      }
    }
  }

  /** Over any sequence of runs and crashes each version's DDL is committed at most once, and exactly
      when its row exists; every event reports a committed version, at most one per version. */
  lemma {:induction false} MigrationsAreExactlyOnce(migrations: seq<string>, fuels: seq<nat>)
    ensures ExactlyOnce(AfterRuns(migrations, fuels), migrations)
  {
    if fuels != [] {
      MigrationsAreExactlyOnce(migrations, fuels[..|fuels| - 1]);
      WorkMeetsSpec(AfterRuns(migrations, fuels[..|fuels| - 1]), migrations, 0, fuels[|fuels| - 1]);
    }
  }

  /** In every completed run the applied and the skipped versions split the migrations in order, all
      of them are recorded, and one event per applied version is emitted, in order. */
  lemma CompletedRunSplits(migrations: seq<string>, fuels: seq<nat>, fuel: nat)
    ensures var db := AfterRuns(migrations, fuels); var (after, o) := Work(db, migrations, 0, fuel);
      o.Completed? ==>
        && IsSplit(migrations, 0, o.result.applied, o.result.skipped)
        && after.ddl == after.rows == db.rows + o.result.applied
        && (forall v :: v in migrations <==> v in after.rows)
        && ReportsApplied(db.events, after.events, migrations, o.result.applied)
  {
    MigrationsAreExactlyOnce(migrations, fuels);
    WorkMeetsSpec(AfterRuns(migrations, fuels), migrations, 0, fuel);
  }

  /** A run that is given enough steps completes, and after it a further run applies nothing. */
  lemma {:induction false} EnoughFuelCompletes(db: Db, migrations: seq<string>, idx: nat, fuel: nat)
    requires idx <= |migrations| && fuel >= 2 * (|migrations| - idx)
    ensures Work(db, migrations, idx, fuel).1.Completed?
    decreases |migrations| - idx
  {
    if idx < |migrations| {
      var v := migrations[idx];
      if v in db.rows {
        EnoughFuelCompletes(db, migrations, idx + 1, fuel);
      } else {
        EnoughFuelCompletes(Db(db.rows + [v], db.ddl + [v], db.events + [Migrated(idx, idx + 1)]), migrations, idx + 1, fuel - 2);
      }
    }
  }

  /** Once everything is recorded a run changes nothing and skips everything, however little fuel. */
  lemma {:induction false} SettledRunSkipsAll(db: Db, migrations: seq<string>, idx: nat, fuel: nat)
    requires idx <= |migrations| && forall j :: idx <= j < |migrations| ==> migrations[j] in db.rows
    ensures Work(db, migrations, idx, fuel) == (db, Completed(Result([], migrations[idx..])))
    decreases |migrations| - idx
  {
    if idx < |migrations| {
      SettledRunSkipsAll(db, migrations, idx + 1, fuel);
      assert migrations[idx..] == [migrations[idx]] + migrations[idx + 1..];
    }
  }
}
