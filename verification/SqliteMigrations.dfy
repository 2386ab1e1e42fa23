/** The SQLite migration runner. Executing a script and recording its version are two separate
    durable actions, so a crash can fall between them. */
module SqliteMigrations {

  datatype File = File(version: nat, stem: string)

  /** recorded is the schema_version table in insertion order; executed is the history of scripts
      that were started, whether or not they ran to their end. */
  datatype Db = Db(recorded: seq<nat>, executed: seq<nat>)

  const FRESH := Db([], [])

  function MaxOf(s: seq<nat>): (m: nat)
    ensures forall x :: x in s ==> x <= m
    ensures m == 0 || m in s
  {
    if s == [] then 0
    else
      var m := MaxOf(s[..|s| - 1]);
      assert forall x :: x in s ==> x in s[..|s| - 1] || x == s[|s| - 1];
      if s[|s| - 1] > m then s[|s| - 1] else m
  }

  function CurrentVersion(db: Db): nat {
    MaxOf(db.recorded)
  }

  // ---------------------------------------------------------------- sorting the files

  function Insert(f: File, s: seq<File>): seq<File> {
    if s == [] || f.version < s[0].version then [f] + s else [s[0]] + Insert(f, s[1..])
  }

  function Sorted(files: seq<File>): seq<File> {
    if files == [] then [] else Insert(files[|files| - 1], Sorted(files[..|files| - 1]))
  }

  function Versions(files: seq<File>): (r: seq<nat>)
    ensures |r| == |files| && forall i :: 0 <= i < |files| ==> r[i] == files[i].version
  {
    seq(|files|, i requires 0 <= i < |files| => files[i].version)
  }

  predicate StrictlyAscending(vs: seq<nat>) {
    forall i, j :: 0 <= i < j < |vs| ==> vs[i] < vs[j]
  }

  predicate DistinctVersions(files: seq<File>) {
    forall i, j :: 0 <= i < j < |files| ==> files[i].version != files[j].version
  }

  predicate StrictFiles(s: seq<File>) {
    forall i, j :: 0 <= i < j < |s| ==> s[i].version < s[j].version
  }

  lemma {:induction false} InsertStaysStrict(f: File, s: seq<File>)
    requires StrictFiles(s) && forall g :: g in s ==> g.version != f.version
    ensures StrictFiles(Insert(f, s))
    ensures forall g :: g in Insert(f, s) <==> g == f || g in s
  {
    if s != [] && f.version >= s[0].version {
      InsertStaysStrict(f, s[1..]);
      var rest := Insert(f, s[1..]);
      forall i | 0 <= i < |rest| ensures s[0].version < rest[i].version {
        assert rest[i] in rest;
      }
    }
  }

  lemma {:induction false} SortedIsStrict(files: seq<File>)
    requires DistinctVersions(files)
    ensures StrictFiles(Sorted(files))
    ensures forall g :: g in Sorted(files) <==> g in files
  {
    if files != [] {
      var n := |files| - 1;
      SortedIsStrict(files[..n]);
      InsertStaysStrict(files[n], Sorted(files[..n]));
      assert files == files[..n] + [files[n]];
    }
  }

  /** Files with distinct versions sort into strictly ascending versions, the same set of them. */
  lemma SortedVersions(files: seq<File>)
    requires DistinctVersions(files)
    ensures StrictlyAscending(Versions(Sorted(files)))
    ensures forall v :: v in Versions(Sorted(files)) <==> exists f :: f in files && f.version == v
  {
    SortedIsStrict(files);
    var s := Sorted(files);
    forall v ensures v in Versions(s) <==> exists f :: f in files && f.version == v {
      if i :| 0 <= i < |s| && s[i].version == v {
        assert s[i] in s && Versions(s)[i] == v;
      }
      if v in Versions(s) {
        var i :| 0 <= i < |s| && Versions(s)[i] == v;
        assert s[i] in s;
      }
      if f :| f in files && f.version == v {
        var i :| 0 <= i < |s| && s[i] == f;
        assert Versions(s)[i] == v;
      }
    }
  }

  // ---------------------------------------------------------------- a run

  datatype Result = Applied(versions: seq<nat>) | Crashed | Raised | SchemaAhead

  /** The pending versions one by one; fuel is how many durable actions happen before the process
      dies. Recording a version twice raises, for the version is the primary key. */
  function Work(db: Db, pending: seq<nat>, fuel: nat): (Db, Result)
    decreases |pending|
  {
    if pending == [] then (db, Applied([]))
    else if fuel == 0 then (db, Crashed)
    else
      var started := db.(executed := db.executed + [pending[0]]);
      if fuel == 1 then (started, Crashed)
      else if pending[0] in db.recorded then (started, Raised)
      else
        var (after, r) := Work(started.(recorded := started.recorded + [pending[0]]), pending[1..], fuel - 2);
        (after, if r.Applied? then Applied([pending[0]] + r.versions) else r)
  }

  function PendingAfter(vs: seq<nat>, current: nat): (r: seq<nat>)
    ensures forall v :: v in r <==> v in vs && v > current
  {
    if vs == [] then []
    else if vs[0] <= current then PendingAfter(vs[1..], current)
    else [vs[0]] + PendingAfter(vs[1..], current)
  }

  function RunOnce(db: Db, files: seq<File>, fuel: nat): (Db, Result) {
    var vs := Versions(Sorted(files));
    var current := CurrentVersion(db);
    if current > (if vs == [] then 0 else vs[|vs| - 1]) then (db, SchemaAhead)
    else Work(db, PendingAfter(vs, current), fuel)
  }

  /** The outcome of a run that has already applied some versions and goes on with the pending ones. */
  function Resumed(db: Db, applied: seq<nat>, pending: seq<nat>, fuel: nat): (Db, Result) {
    var (after, r) := Work(db, pending, fuel);
    (after, if r.Applied? then Applied(applied + r.versions) else r)
  }

  lemma PendingFrom(vs: seq<nat>, i: nat, current: nat)
    requires i < |vs|
    ensures PendingAfter(vs[i..], current)
         == if vs[i] <= current then PendingAfter(vs[i + 1..], current) else [vs[i]] + PendingAfter(vs[i + 1..], current)
  {
    assert vs[i..][0] == vs[i] && vs[i..][1..] == vs[i + 1..];
  }

  lemma ResumeFresh(db: Db, pending: seq<nat>, fuel: nat)
    ensures Resumed(db, [], pending, fuel) == Work(db, pending, fuel)
  {
    var r := Work(db, pending, fuel).1;
    if r.Applied? { assert [] + r.versions == r.versions; }
  }

  /** One file of the loop: passed over, or started and recorded unless the process dies or the version is
      recorded already. */
  lemma ResumeStep(db: Db, applied: seq<nat>, vs: seq<nat>, i: nat, current: nat, fuel: nat)
    requires i < |vs|
    ensures var v, rest := vs[i], PendingAfter(vs[i + 1..], current); var started := Db(db.recorded, db.executed + [v]);
      Resumed(db, applied, PendingAfter(vs[i..], current), fuel) ==
        if v <= current then Resumed(db, applied, rest, fuel)
        else if fuel == 0 then (db, Crashed)
        else if fuel == 1 then (started, Crashed)
        else if v in db.recorded then (started, Raised)
        else Resumed(Db(db.recorded + [v], started.executed), applied + [v], rest, fuel - 2)
  {
    PendingFrom(vs, i, current);
    var v, rest := vs[i], PendingAfter(vs[i + 1..], current);
    assert ([v] + rest)[1..] == rest;
    assert forall more: seq<nat> :: applied + [v] + more == applied + ([v] + more);
  }

  predicate Ascending(s: seq<File>) {
    forall i, j :: 0 <= i < j < |s| ==> s[i].version <= s[j].version
  }

  lemma {:induction false} InsertStaysAscending(f: File, s: seq<File>)
    requires Ascending(s)
    ensures Ascending(Insert(f, s))
    ensures forall g :: g in Insert(f, s) <==> g == f || g in s
  {
    if s != [] && f.version >= s[0].version {
      InsertStaysAscending(f, s[1..]);
      var rest := Insert(f, s[1..]);
      forall i | 0 <= i < |rest| ensures s[0].version <= rest[i].version {
        assert rest[i] in rest;
      }
    }
  }

  lemma {:induction false} SortedAscends(files: seq<File>)
    ensures Ascending(Sorted(files))
    ensures forall g :: g in Sorted(files) <==> g in files
  {
    if files != [] {
      var n := |files| - 1;
      SortedAscends(files[..n]);
      InsertStaysAscending(files[n], Sorted(files[..n]));
      assert files == files[..n] + [files[n]];
    }
  }

  lemma {:induction false} WorkIsNeverAhead(db: Db, pending: seq<nat>, fuel: nat)
    ensures !Work(db, pending, fuel).1.SchemaAhead?
    decreases |pending|
  {
    if pending != [] && fuel > 1 && pending[0] !in db.recorded {
      WorkIsNeverAhead(Db(db.recorded + [pending[0]], db.executed + [pending[0]]), pending[1..], fuel - 2);
    }
  }

  /** Some recorded version other than 0 lies above every file. */
  ghost predicate IsAhead(db: Db, files: seq<File>) {
    exists v :: v in db.recorded && v > 0 && forall f :: f in files ==> f.version < v
  }

  lemma KnownMaxIsLast(files: seq<File>, v: nat)
    ensures (forall f :: f in files ==> f.version < v) <==> files == [] || Versions(Sorted(files))[|Sorted(files)| - 1] < v
    ensures files == [] <==> Sorted(files) == []
  {
    SortedAscends(files);
    var s := Sorted(files);
    if files == [] {
    } else {
      assert files[0] in s;
      assert s[|s| - 1] in files;
      forall f | f in files ensures f.version <= s[|s| - 1].version {
        var i :| 0 <= i < |s| && s[i] == f;
      }
    }
  }

  lemma AheadIffCurrentIs(db: Db, files: seq<File>)
    ensures IsAhead(db, files) <==> CurrentVersion(db) > 0 && forall f :: f in files ==> f.version < CurrentVersion(db)
  {
    var current := CurrentVersion(db);
    if v: nat :| v in db.recorded && v > 0 && forall f :: f in files ==> f.version < v {
      assert v <= current;
    }
    if current > 0 && forall f :: f in files ==> f.version < current {
      assert current in db.recorded;
    }
  }

  /** A run refuses a database exactly if it is ahead of the files, and then leaves it as it is. */
  lemma RefusedIffAhead(db: Db, files: seq<File>, fuel: nat)
    ensures RunOnce(db, files, fuel).1.SchemaAhead? <==> IsAhead(db, files)
    ensures IsAhead(db, files) ==> RunOnce(db, files, fuel).0 == db
  {
    AheadIffCurrentIs(db, files);
    KnownMaxIsLast(files, CurrentVersion(db));
    WorkIsNeverAhead(db, PendingAfter(Versions(Sorted(files)), CurrentVersion(db)), fuel);
  }

  class Database {
    var db: Db

    constructor ()
      ensures db == FRESH
    {
      db := FRESH;
    }

    method RunMigrations(files: seq<File>, fuel: nat) returns (r: Result)
      modifies this
      ensures (db, r) == RunOnce(old(db), files, fuel)
      ensures r.SchemaAhead? <==> IsAhead(old(db), files)
      ensures r.SchemaAhead? ==> db == old(db)
    {
      RefusedIffAhead(db, files, fuel);
      var migrations := Sorted(files);
      ghost var vs := Versions(migrations);
      var current := CurrentVersion(db);
      var knownMax := if migrations == [] then 0 else migrations[|migrations| - 1].version;
      if current > knownMax {
        return SchemaAhead;
      }
      var applied: seq<nat>, left := [], fuel;
      assert vs[0..] == vs;
      ResumeFresh(db, PendingAfter(vs, current), fuel);
      for i := 0 to |migrations|
        invariant RunOnce(old(db), files, fuel) == Resumed(db, applied, PendingAfter(vs[i..], current), left)
      {
        ResumeStep(db, applied, vs, i, current, left);
        var version := migrations[i].version;
        if version > current {
          if left == 0 { return Crashed; }
          db := db.(executed := db.executed + [version]);
          if left == 1 { return Crashed; }
          if version in db.recorded { return Raised; }
          db := db.(recorded := db.recorded + [version]);
          applied, left := applied + [version], left - 2;
        }
      }
      assert applied + [] == applied;
      r := Applied(applied);
    }
  }

  // ---------------------------------------------------------------- histories

  /** Any number of runs, each with its own point of death, on a database that starts fresh. */
  function AfterRuns(files: seq<File>, fuels: seq<nat>): Db {
    if fuels == [] then FRESH
    else RunOnce(AfterRuns(files, fuels[..|fuels| - 1]), files, fuels[|fuels| - 1]).0
  }

  predicate Positive(vs: seq<nat>) {
    forall v :: v in vs ==> v > 0
  }

  /** The recorded versions are the first n known ones; each of them was executed, and beyond them
      only the next one may have been; the history of executions never steps back. */
  ghost predicate IsPrefix(db: Db, vs: seq<nat>) {
    && |db.recorded| <= |vs| && db.recorded == vs[..|db.recorded|]
    && (forall v :: v in db.recorded ==> v in db.executed)
    && (forall v :: v in db.executed ==> v in db.recorded || (|db.recorded| < |vs| && v == vs[|db.recorded|]))
    && (forall i, j :: 0 <= i < j < |db.executed| ==> db.executed[i] <= db.executed[j])
  }

  lemma {:induction false} PendingIsTheRest(vs: seq<nat>, n: nat)
    requires StrictlyAscending(vs) && Positive(vs) && n <= |vs|
    ensures PendingAfter(vs, MaxOf(vs[..n])) == vs[n..]
  {
    var m := MaxOf(vs[..n]);
    assert n > 0 ==> m == vs[n - 1] by {
      if n > 0 { assert vs[..n][n - 1] == vs[n - 1]; }
    }
    assert forall i :: 0 <= i < n ==> vs[i] == vs[..n][i];
    assert forall i :: n <= i < |vs| ==> vs[i] in vs;
    PendingSkips(vs, m, n);
  }

  lemma {:induction false} PendingSkips(vs: seq<nat>, m: nat, n: nat)
    requires n <= |vs|
    requires forall i :: 0 <= i < n ==> vs[i] <= m
    requires forall i :: n <= i < |vs| ==> vs[i] > m
    ensures PendingAfter(vs, m) == vs[n..]
  {
    if vs == [] {
    } else if n == 0 {
      PendingSkips(vs[1..], m, 0);
    } else {
      PendingSkips(vs[1..], m, n - 1);
      assert vs[1..][n - 1..] == vs[n..];
    }
  }

  /** Starting the first unrecorded script keeps the prefix property, and so does recording it. */
  lemma ActionsKeepPrefix(db: Db, vs: seq<nat>)
    requires StrictlyAscending(vs) && IsPrefix(db, vs) && |db.recorded| < |vs|
    ensures var v := vs[|db.recorded|]; var started := db.(executed := db.executed + [v]);
      && v !in db.recorded
      && IsPrefix(started, vs)
      && IsPrefix(started.(recorded := started.recorded + [v]), vs)
  {
    var n := |db.recorded|;
    var v := vs[n];
    assert forall x :: x in db.recorded ==> exists i :: 0 <= i < n && vs[i] == x;
    assert forall x :: x in db.executed ==> x <= v;
    var executed := db.executed + [v];
    forall i, j | 0 <= i < j < |executed| ensures executed[i] <= executed[j] {
      assert executed[i] in db.executed;
    }
    assert db.recorded + [v] == vs[..n + 1];
    var done := Db(db.recorded + [v], executed);
    assert forall x :: x in done.recorded <==> x in db.recorded || x == v;
    assert forall x :: x in done.executed <==> x in db.executed || x == v;
  }

  /** One script started and recorded, the rest of the work after it. */
  lemma WorkOneVersion(db: Db, version: nat, rest: seq<nat>, fuel: nat)
    requires version !in db.recorded && fuel >= 2
    ensures var (after, r) := Work(Db(db.recorded + [version], db.executed + [version]), rest, fuel - 2);
      Work(db, [version] + rest, fuel) == (after, if r.Applied? then Applied([version] + r.versions) else r)
  {
    assert ([version] + rest)[1..] == rest;
  }

  /** What a run does, completed or not: it goes on with the known versions in order and records them
      all if it is not cut short. */
  ghost predicate WorksWell(db: Db, vs: seq<nat>, fuel: nat, after: Db, r: Result)
    requires |db.recorded| <= |vs|
  {
    && IsPrefix(after, vs)
    && db.recorded <= after.recorded && db.executed <= after.executed
    && (r.Applied? || r.Crashed?)
    && (r.Applied? ==> after.recorded == vs && r.versions == vs[|db.recorded|..])
    && (fuel >= 2 * (|vs| - |db.recorded|) ==> r.Applied?)
  }

  lemma OneMoreWorksWell(db: Db, vs: seq<nat>, fuel: nat, after: Db, r: Result)
    requires |db.recorded| < |vs| && fuel >= 2
    requires var v := vs[|db.recorded|];
      WorksWell(Db(db.recorded + [v], db.executed + [v]), vs, fuel - 2, after, r)
    ensures WorksWell(db, vs, fuel, after, if r.Applied? then Applied([vs[|db.recorded|]] + r.versions) else r)
  {
    var n := |db.recorded|;
    assert vs[n..] == [vs[n]] + vs[n + 1..];
    assert db.recorded <= db.recorded + [vs[n]] && db.executed <= db.executed + [vs[n]];
  }

  lemma {:induction false} WorkKeepsPrefix(db: Db, vs: seq<nat>, fuel: nat)
    requires StrictlyAscending(vs) && IsPrefix(db, vs)
    ensures WorksWell(db, vs, fuel, Work(db, vs[|db.recorded|..], fuel).0, Work(db, vs[|db.recorded|..], fuel).1)
    decreases |vs| - |db.recorded|
  {
    var n := |db.recorded|;
    if n < |vs| && fuel > 0 {
      ActionsKeepPrefix(db, vs);
      if fuel > 1 {
        var recorded := Db(db.recorded + [vs[n]], db.executed + [vs[n]]);
        WorkKeepsPrefix(recorded, vs, fuel - 2);
        assert vs[n..] == [vs[n]] + vs[n + 1..];
        WorkOneVersion(db, vs[n], vs[n + 1..], fuel);
        OneMoreWorksWell(db, vs, fuel, Work(recorded, vs[n + 1..], fuel - 2).0, Work(recorded, vs[n + 1..], fuel - 2).1);
      }
    }
  }

  lemma CurrentIsKnown(db: Db, vs: seq<nat>)
    requires StrictlyAscending(vs) && IsPrefix(db, vs)
    ensures CurrentVersion(db) <= if vs == [] then 0 else vs[|vs| - 1]
  {
    if db.recorded != [] {
      forall x | x in db.recorded ensures x <= vs[|vs| - 1] {
        var i :| 0 <= i < |db.recorded| && db.recorded[i] == x;
        assert vs[i] == vs[..|db.recorded|][i] == x;
      }
    }
  }

  lemma RunIsWork(db: Db, files: seq<File>, fuel: nat)
    requires DistinctVersions(files) && Positive(Versions(Sorted(files))) && IsPrefix(db, Versions(Sorted(files)))
    ensures var vs := Versions(Sorted(files));
      StrictlyAscending(vs) && RunOnce(db, files, fuel) == Work(db, vs[|db.recorded|..], fuel)
  {
    var vs := Versions(Sorted(files));
    SortedVersions(files);
    PendingIsTheRest(vs, |db.recorded|);
    CurrentIsKnown(db, vs);
  }

  lemma RunKeepsPrefix(db: Db, files: seq<File>, fuel: nat)
    requires DistinctVersions(files) && Positive(Versions(Sorted(files))) && IsPrefix(db, Versions(Sorted(files)))
    ensures WorksWell(db, Versions(Sorted(files)), fuel, RunOnce(db, files, fuel).0, RunOnce(db, files, fuel).1)
  {
    RunIsWork(db, files, fuel);
    WorkKeepsPrefix(db, Versions(Sorted(files)), fuel);
  }

  /** Over any sequence of runs and crashes the recorded versions are a prefix of the known ones. */
  lemma {:induction false} RecordedIsAlwaysPrefix(files: seq<File>, fuels: seq<nat>)
    requires DistinctVersions(files) && Positive(Versions(Sorted(files)))
    ensures IsPrefix(AfterRuns(files, fuels), Versions(Sorted(files)))
  {
    if fuels != [] {
      RecordedIsAlwaysPrefix(files, fuels[..|fuels| - 1]);
      RunKeepsPrefix(AfterRuns(files, fuels[..|fuels| - 1]), files, fuels[|fuels| - 1]);
    }
  }

  /** Whatever a run executes again was, when the run began, the first unrecorded version. */
  lemma OnlyFirstUnrecordedRepeats(files: seq<File>, fuels: seq<nat>, fuel: nat, i: nat)
    requires DistinctVersions(files) && Positive(Versions(Sorted(files)))
    requires var db := AfterRuns(files, fuels); var after := RunOnce(db, files, fuel).0;
      |db.executed| <= i < |after.executed| && after.executed[i] in db.executed
    ensures var db := AfterRuns(files, fuels); var vs := Versions(Sorted(files));
      |db.recorded| < |vs| && RunOnce(db, files, fuel).0.executed[i] == vs[|db.recorded|]
  {
    var db, vs := AfterRuns(files, fuels), Versions(Sorted(files));
    RecordedIsAlwaysPrefix(files, fuels);
    SortedVersions(files);
    PendingIsTheRest(vs, |db.recorded|);
    NewWorkIsPending(db, vs[|db.recorded|..], fuel, i);
    RunKeepsPrefix(db, files, fuel);
    var x := RunOnce(db, files, fuel).0.executed[i];
    assert x !in db.recorded by {
      var j :| |db.recorded| <= j < |vs| && vs[j] == x;
    }
  }

  lemma {:induction false} NewWorkIsPending(db: Db, pending: seq<nat>, fuel: nat, i: nat)
    requires |db.executed| <= i < |Work(db, pending, fuel).0.executed|
    ensures Work(db, pending, fuel).0.executed[i] in pending
    decreases |pending|
  {
    var started := db.(executed := db.executed + [pending[0]]);
    if fuel > 1 && pending[0] !in db.recorded {
      var recorded := started.(recorded := started.recorded + [pending[0]]);
      if i > |db.executed| {
        NewWorkIsPending(recorded, pending[1..], fuel - 2, i);
      } else {
        WorkExtends(recorded, pending[1..], fuel - 2);
      }
    }
  }

  lemma {:induction false} WorkExtends(db: Db, pending: seq<nat>, fuel: nat)
    ensures db.executed <= Work(db, pending, fuel).0.executed
    decreases |pending|
  {
    if pending != [] && fuel > 1 && pending[0] !in db.recorded {
      WorkExtends(Db(db.recorded + [pending[0]], db.executed + [pending[0]]), pending[1..], fuel - 2);
    }
  }

  /** The first unrecorded script was started and its version was not recorded. */
  predicate HalfDone(db: Db, vs: seq<nat>) {
    |db.recorded| < |vs| && vs[|db.recorded|] in db.executed
  }

  /** Since db some script was started that had been started before. */
  ghost predicate Repeats(db: Db, after: Db) {
    exists i :: |db.executed| <= i < |after.executed| && after.executed[i] in db.executed
  }

  lemma FirstPendingIsStarted(db: Db, pending: seq<nat>, fuel: nat)
    requires pending != [] && fuel >= 1
    ensures var after := Work(db, pending, fuel).0;
      |after.executed| > |db.executed| && after.executed[|db.executed|] == pending[0]
  {
    var started := db.executed + [pending[0]];
    if fuel > 1 && pending[0] !in db.recorded {
      WorkExtends(Db(db.recorded + [pending[0]], started), pending[1..], fuel - 2);
    }
    assert started[|db.executed|] == pending[0];
  }

  /** A run starts some script for a second time exactly when it gets to do anything and an earlier
      run died between that script and its version row. */
  lemma RunRepeatsIff(files: seq<File>, fuels: seq<nat>, fuel: nat)
    requires DistinctVersions(files) && Positive(Versions(Sorted(files)))
    ensures var db := AfterRuns(files, fuels);
      Repeats(db, RunOnce(db, files, fuel).0) <==> fuel >= 1 && HalfDone(db, Versions(Sorted(files)))
  {
    var db, vs := AfterRuns(files, fuels), Versions(Sorted(files));
    var after := RunOnce(db, files, fuel).0;
    RecordedIsAlwaysPrefix(files, fuels);
    RunIsWork(db, files, fuel);
    if i :| |db.executed| <= i < |after.executed| && after.executed[i] in db.executed {
      OnlyFirstUnrecordedRepeats(files, fuels, fuel, i);
    }
    if fuel >= 1 && HalfDone(db, vs) {
      FirstPendingIsStarted(db, vs[|db.recorded|..], fuel);
    }
  }

  lemma {:induction false} WorkLeavesHalfDoneIff(db: Db, vs: seq<nat>, fuel: nat)
    requires StrictlyAscending(vs) && IsPrefix(db, vs)
    ensures HalfDone(Work(db, vs[|db.recorded|..], fuel).0, vs) <==>
      fuel < 2 * (|vs| - |db.recorded|) && (fuel % 2 == 1 || (fuel == 0 && HalfDone(db, vs)))
    decreases |vs| - |db.recorded|
  {
    var n := |db.recorded|;
    if n < |vs| && fuel > 1 {
      ActionsKeepPrefix(db, vs);
      var recorded := Db(db.recorded + [vs[n]], db.executed + [vs[n]]);
      assert vs[n..][1..] == vs[n + 1..];
      WorkLeavesHalfDoneIff(recorded, vs, fuel - 2);
      NothingBeyondIsStarted(recorded, vs, vs[n]);
    } else if n < |vs| && fuel == 1 {
      assert vs[n] in Work(db, vs[n..], fuel).0.executed;
    }
  }

  /** Right after a version is recorded the next script has not been started. */
  lemma NothingBeyondIsStarted(db: Db, vs: seq<nat>, last: nat)
    requires StrictlyAscending(vs) && IsPrefix(db, vs)
    requires db.recorded != [] && db.recorded[|db.recorded| - 1] == last
    requires db.executed != [] && db.executed[|db.executed| - 1] == last
    ensures !HalfDone(db, vs)
  {
    var n := |db.recorded|;
    assert vs[n - 1] == vs[..n][n - 1] == last;
    forall i | 0 <= i < |db.executed| ensures db.executed[i] <= last {
    }
    assert n < |vs| ==> last < vs[n];
  }

  /** Which deaths leave a script half done: those after an odd number of durable actions, and those
      before any action if the database was already in that state. */
  lemma DeathLeavesHalfDoneIff(files: seq<File>, fuels: seq<nat>, fuel: nat)
    requires DistinctVersions(files) && Positive(Versions(Sorted(files)))
    ensures var db := AfterRuns(files, fuels); var vs := Versions(Sorted(files));
      HalfDone(RunOnce(db, files, fuel).0, vs) <==>
        fuel < 2 * (|vs| - |db.recorded|) && (fuel % 2 == 1 || (fuel == 0 && HalfDone(db, vs)))
  {
    RecordedIsAlwaysPrefix(files, fuels);
    RunIsWork(AfterRuns(files, fuels), files, fuel);
    WorkLeavesHalfDoneIff(AfterRuns(files, fuels), Versions(Sorted(files)), fuel);
  }

  lemma RunOfOneFile(db: Db, f: File, fuel: nat)
    requires f.version > 0 && db.recorded == []
    ensures RunOnce(db, [f], fuel) == Work(db, [f.version], fuel)
  {
    assert [f][..0] == [] && Sorted([]) == [] && Sorted([f]) == [f];
    var vs := Versions(Sorted([f]));
    assert vs == [f.version] && vs[1..] == [];
    assert PendingAfter(vs, 0) == [f.version];
  }

  /** A first run that dies after the script of its only file makes the next run execute it again. */
  lemma CrashRepeatsScript(f: File)
    requires f.version > 0
    ensures AfterRuns([f], [1]) == Db([], [f.version])
    ensures AfterRuns([f], [1, 2]) == Db([f.version], [f.version, f.version])
  {
    var v, crashed := f.version, Db([], [f.version]);
    assert [1][..0] == [] && AfterRuns([f], []) == FRESH;
    RunOfOneFile(FRESH, f, 1);
    assert [1, 2][..1] == [1];
    RunOfOneFile(crashed, f, 2);
    WorkOneVersion(crashed, v, [], 2);
    assert [v] + [] == [v] && [] + [v] == [v] && [v] + [v] == [v, v];
  }

  /** A completed run records every known version, and the next run applies nothing. */
  lemma CompletedRunIsFinal(files: seq<File>, fuels: seq<nat>, fuel: nat, fuel': nat)
    requires DistinctVersions(files) && Positive(Versions(Sorted(files)))
    requires RunOnce(AfterRuns(files, fuels), files, fuel).1.Applied?
    ensures var after := RunOnce(AfterRuns(files, fuels), files, fuel).0;
      && after.recorded == Versions(Sorted(files))
      && RunOnce(after, files, fuel') == (after, Applied([]))
  {
    RecordedIsAlwaysPrefix(files, fuels);
    RunKeepsPrefix(AfterRuns(files, fuels), files, fuel);
    var after, vs := RunOnce(AfterRuns(files, fuels), files, fuel).0, Versions(Sorted(files));
    RunKeepsPrefix(after, files, fuel');
    SortedVersions(files);
    PendingIsTheRest(vs, |vs|);
    assert after.recorded == vs[..|vs|];
  }

  /** An undisturbed first run records every file's version exactly when no file has version 0, which
      the runner takes for an already applied one. */
  lemma FirstRunRecordsAllIff(files: seq<File>, fuel: nat)
    requires DistinctVersions(files) && fuel >= 2 * |Versions(Sorted(files))|
    ensures (forall f :: f in files ==> f.version in RunOnce(FRESH, files, fuel).0.recorded)
       <==> (forall f :: f in files ==> f.version > 0)
  {
    var vs := Versions(Sorted(files));
    SortedVersions(files);
    if forall f :: f in files ==> f.version > 0 {
      RunKeepsPrefix(FRESH, files, fuel);
    } else {
      OnlyPendingIsRecorded(FRESH, PendingAfter(vs, 0), fuel);
    }
  }

  lemma {:induction false} OnlyPendingIsRecorded(db: Db, pending: seq<nat>, fuel: nat)
    ensures forall v :: v in Work(db, pending, fuel).0.recorded ==> v in db.recorded || v in pending
    decreases |pending|
  {
    if pending != [] && fuel > 1 && pending[0] !in db.recorded {
      OnlyPendingIsRecorded(Db(db.recorded + [pending[0]], db.executed + [pending[0]]), pending[1..], fuel - 2);
    }
  }

  // ---------------------------------------------------------------- files that arrive later

  /** One run of a release that ships these files. */
  datatype Release = Release(files: seq<File>, fuel: nat)

  function AfterReleases(db: Db, releases: seq<Release>): Db {
    if releases == [] then db
    else
      var n := |releases| - 1;
      RunOnce(AfterReleases(db, releases[..n]), releases[n].files, releases[n].fuel).0
  }

  lemma {:induction false} AppliedRecordsPending(db: Db, pending: seq<nat>, fuel: nat)
    requires Work(db, pending, fuel).1.Applied?
    ensures Work(db, pending, fuel).0.recorded == db.recorded + pending
    decreases |pending|
  {
    if pending != [] {
      var started := Db(db.recorded + [pending[0]], db.executed + [pending[0]]);
      AppliedRecordsPending(started, pending[1..], fuel - 2);
      assert started.recorded + pending[1..] == db.recorded + pending;
    }
  }

  /** On any database, whatever releases it saw, a completed run records every file it ships exactly
      when each of them that is not recorded yet lies above the highest recorded version. */
  lemma CompletedRunRecordsAllIff(db: Db, files: seq<File>, fuel: nat)
    requires DistinctVersions(files) && RunOnce(db, files, fuel).1.Applied?
    ensures (forall f :: f in files ==> f.version in RunOnce(db, files, fuel).0.recorded)
       <==> (forall f :: f in files ==> f.version in db.recorded || f.version > CurrentVersion(db))
  {
    var vs, current := Versions(Sorted(files)), CurrentVersion(db);
    SortedVersions(files);
    AppliedRecordsPending(db, PendingAfter(vs, current), fuel);
    forall f | f in files
      ensures f.version in RunOnce(db, files, fuel).0.recorded <==> f.version in db.recorded || f.version > current
    {
      assert f.version in vs;
    }
  }

  /** A version below the highest recorded one is passed over by every later run. */
  lemma {:induction false} SkippedForGood(db: Db, releases: seq<Release>, v: nat)
    requires v !in db.recorded && v <= CurrentVersion(db)
    ensures var after := AfterReleases(db, releases);
      v !in after.recorded && CurrentVersion(db) <= CurrentVersion(after)
  {
    if releases != [] {
      var n := |releases| - 1;
      SkippedForGood(db, releases[..n], v);
      var before, vs := AfterReleases(db, releases[..n]), Versions(Sorted(releases[n].files));
      var pending := PendingAfter(vs, CurrentVersion(before));
      OnlyPendingIsRecorded(before, pending, releases[n].fuel);
      RecordedGrows(before, pending, releases[n].fuel);
    }
  }

  lemma {:induction false} RecordedGrows(db: Db, pending: seq<nat>, fuel: nat)
    ensures db.recorded <= Work(db, pending, fuel).0.recorded
    ensures CurrentVersion(db) <= CurrentVersion(Work(db, pending, fuel).0)
    decreases |pending|
  {
    if pending != [] && fuel > 1 && pending[0] !in db.recorded {
      RecordedGrows(Db(db.recorded + [pending[0]], db.executed + [pending[0]]), pending[1..], fuel - 2);
    }
    var after := Work(db, pending, fuel).0;
    assert forall x :: x in db.recorded ==> x in after.recorded;
  }
}
