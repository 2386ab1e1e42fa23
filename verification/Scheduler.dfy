/** The lifecycle scheduler: a registry of background loops, changed by start, stop and stop_all,
    which interleave because start yields at its policy read and stop at its gather. */
module Scheduler {
  import opened Runs

  datatype Job = DecayJob | ConsolidationJob

  datatype Key = Key(tenant: string, job: Job)

  /** Tasks are numbered in the order of their creation; owner tells which key one was created for. */
  datatype Tasks = Tasks(
    registry: map<Key, nat>,
    owner: map<nat, Key>,
    cancelled: set<nat>,
    done: set<nat>,
    next: nat)

  /** A loop that nobody has asked to stop and that has not ended. */
  predicate Live(t: Tasks, id: nat) {
    id in t.owner && id !in t.cancelled && id !in t.done
  }

  predicate IsRunning(t: Tasks, tenant: string) {
    exists k :: k in t.registry && k.tenant == tenant && t.registry[k] !in t.done
  }

  /** A new task for the key; the one registered before is asked to stop unless it has ended. */
  function Ensured(t: Tasks, key: Key): Tasks {
    Tasks(t.registry[key := t.next],
          t.owner[t.next := key],
          if key in t.registry && t.registry[key] !in t.done then t.cancelled + {t.registry[key]} else t.cancelled,
          t.done,
          t.next + 1)
  }

  /** The unfinished tasks registered under the keys. */
  function Victims(t: Tasks, keys: set<Key>): set<nat> {
    set k | k in keys && k in t.registry && t.registry[k] !in t.done :: t.registry[k]
  }

  function Popped(t: Tasks, keys: set<Key>): Tasks {
    t.(registry := t.registry - keys, cancelled := t.cancelled + Victims(t, keys))
  }

  function KeysOf(t: Tasks, tenant: string): set<Key> {
    set k | k in t.registry && k.tenant == tenant
  }

  // ---------------------------------------------------------------- the object

  class LifecycleScheduler {
    var t: Tasks

    constructor ()
      ensures t == Tasks(map[], map[], {}, {}, 0)
    {
      t := Tasks(map[], map[], {}, {}, 0);
    }

    method EnsureTask(key: Key)
      modifies this
      ensures t == Ensured(old(t), key)
    {
      if key in t.registry && t.registry[key] !in t.done {
        t := t.(cancelled := t.cancelled + {t.registry[key]});
      }
      var id := t.next;
      t := t.(owner := t.owner[id := key], next := id + 1);
      t := t.(registry := t.registry[key := id]);
    }

    /** The part of start before it yields. */
    method StartBegin(tenant: string, enabled: bool) returns (waiting: bool)
      modifies this
      ensures waiting == enabled
      ensures t == if enabled then Ensured(old(t), Key(tenant, DecayJob)) else old(t)
    {
      if !enabled {
        return false;
      }
      EnsureTask(Key(tenant, DecayJob));
      waiting := true;
    }

    /** The part of start after the policy read. */
    method StartResume(tenant: string, scheduled: bool)
      modifies this
      ensures t == if scheduled then Ensured(old(t), Key(tenant, ConsolidationJob)) else old(t)
    {
      if scheduled {
        EnsureTask(Key(tenant, ConsolidationJob));
      }
    }

    /** The part of _cancel_keys before it awaits the tasks it cancelled. */
    method CancelKeys(keys: set<Key>) returns (awaited: set<nat>)
      modifies this
      ensures t == Popped(old(t), keys)
      ensures awaited == Victims(old(t), keys)
    {
      ghost var before := t;
      var todo := keys;
      awaited := {};
      while todo != {}
        invariant todo <= keys
        invariant t == Popped(before, keys - todo) && awaited == Victims(before, keys - todo)
        decreases |todo|
      {
        var key :| key in todo;
        assert keys - (todo - {key}) == (keys - todo) + {key};
        PoppingOneMore(before, keys - todo, key);
        if key in t.registry {
          var id := t.registry[key];
          t := t.(registry := t.registry - {key});
          if id !in t.done {
            t := t.(cancelled := t.cancelled + {id});
            awaited := awaited + {id};
          }
        }
        todo := todo - {key};
      }
      assert keys - todo == keys;
    }

    method Stop(tenant: string) returns (awaited: set<nat>)
      modifies this
      ensures t == Popped(old(t), KeysOf(old(t), tenant))
      ensures awaited == Victims(old(t), KeysOf(old(t), tenant))
    {
      var keys := KeysOf(t, tenant);
      if keys == {} {
        return {};
      }
      awaited := CancelKeys(keys);
    }

    method StopAll() returns (awaited: set<nat>)
      modifies this
      ensures t == Popped(old(t), old(t).registry.Keys)
      ensures awaited == Victims(old(t), old(t).registry.Keys)
    {
      awaited := CancelKeys(t.registry.Keys);
    }
  }

  lemma PoppingOneMore(t: Tasks, keys: set<Key>, key: Key)
    requires key !in keys
    ensures Victims(t, keys + {key})
         == Victims(t, keys) + if key in t.registry && t.registry[key] !in t.done then {t.registry[key]} else {}
    ensures key in Popped(t, keys).registry <==> key in t.registry
    ensures Popped(t, keys).done == t.done
    ensures key in t.registry ==> Popped(t, keys).registry[key] == t.registry[key]
    ensures Popped(t, keys + {key}) == Popped(t, keys).(
      registry := Popped(t, keys).registry - {key},
      cancelled := Popped(t, keys).cancelled + if key in t.registry && t.registry[key] !in t.done then {t.registry[key]} else {})
    ensures key !in t.registry ==> Popped(t, keys + {key}) == Popped(t, keys)
  {
    assert t.registry - (keys + {key}) == t.registry - keys - {key};
  }

  // ---------------------------------------------------------------- interleavings

  /** starting holds the start calls parked at their policy read, stopping the stop calls awaiting
      the tasks they cancelled. */
  datatype State = State(t: Tasks, starting: map<nat, string>, stopping: map<nat, set<nat>>)

  datatype Action =
    | StartBegin(call: nat, tenant: string, enabled: bool)
    | StartResume(call: nat, scheduled: bool)
    | StartFails(call: nat)
    | Stop(call: nat, tenant: string)
    | StopAll(call: nat)
    | StopReturns(call: nat)
    | TaskEnds(id: nat)

  predicate Enabled(s: State, a: Action) {
    match a
    case StartBegin(call, _, _) => call !in s.starting
    case StartResume(call, _) => call in s.starting
    case StartFails(call) => call in s.starting
    case Stop(call, _) => call !in s.stopping
    case StopAll(call) => call !in s.stopping
    case StopReturns(call) => call in s.stopping && s.stopping[call] <= s.t.done
    case TaskEnds(id) => id in s.t.owner
  }

  function Apply(s: State, a: Action): State
    requires Enabled(s, a)
  {
    match a
    case StartBegin(call, tenant, enabled) =>
      if enabled then s.(t := Ensured(s.t, Key(tenant, DecayJob)), starting := s.starting[call := tenant]) else s
    case StartResume(call, scheduled) =>
      s.(t := if scheduled then Ensured(s.t, Key(s.starting[call], ConsolidationJob)) else s.t,
         starting := s.starting - {call})
    case StartFails(call) => s.(starting := s.starting - {call})
    case Stop(call, tenant) =>
      s.(t := Popped(s.t, KeysOf(s.t, tenant)), stopping := s.stopping[call := Victims(s.t, KeysOf(s.t, tenant))])
    case StopAll(call) =>
      s.(t := Popped(s.t, s.t.registry.Keys), stopping := s.stopping[call := Victims(s.t, s.t.registry.Keys)])
    case StopReturns(call) => s.(stopping := s.stopping - {call})
    case TaskEnds(id) => s.(t := s.t.(done := s.t.done + {id}))
  }

  ghost predicate Init(s: State) {
    s == State(Tasks(map[], map[], {}, {}, 0), map[], map[])
  }

  ghost predicate Next(s: State, s': State) {
    exists a :: Enabled(s, a) && s' == Apply(s, a)
  }

  ghost predicate Registered(t: Tasks) {
    && (forall id :: id in t.owner ==> id < t.next)
    && t.done <= t.owner.Keys && t.cancelled <= t.owner.Keys
    && (forall k :: k in t.registry ==> t.registry[k] in t.owner && t.owner[t.registry[k]] == k)
    && (forall id :: Live(t, id) ==> t.owner[id] in t.registry && t.registry[t.owner[id]] == id)
  }

  lemma EnsuredStaysRegistered(t: Tasks, key: Key)
    requires Registered(t)
    ensures Registered(Ensured(t, key))
  {
  }

  /** Registering a loop gives its key a new live task in place of the one it had, whose stop is asked for,
      and leaves every other key's entry and every other key's tasks alone. */
  lemma StartSparesOthers(t: Tasks, key: Key, id: nat)
    requires Registered(t)
    ensures var t' := Ensured(t, key);
      && t'.registry == t.registry[key := t.next] && Live(t', t.next) && t'.owner[t.next] == key
      && (id in t.owner && t.owner[id] != key ==> id in t'.owner && t'.owner[id] == t.owner[id] && (Live(t', id) <==> Live(t, id)))
      && (id in t.owner && t.owner[id] == key ==> !Live(t', id))
      && t'.done == t.done
  {
  }

  lemma PoppedStaysRegistered(t: Tasks, keys: set<Key>)
    requires Registered(t)
    ensures Registered(Popped(t, keys))
  {
    var t' := Popped(t, keys);
    forall id | Live(t', id) ensures t'.owner[id] in t'.registry && t'.registry[t'.owner[id]] == id {
      assert Live(t, id);
      assert t.owner[id] in keys ==> id in Victims(t, keys);
    }
  }

  ghost predicate Inv(s: State) {
    Registered(s.t)
  }

  lemma InvIsInductive()
    ensures Inductive(Init, Next, Inv)
  {
    forall s, s' | Inv(s) && Next(s, s') ensures Inv(s') {
      var a :| Enabled(s, a) && s' == Apply(s, a);
      match a {
        case StartBegin(_, tenant, _) => EnsuredStaysRegistered(s.t, Key(tenant, DecayJob));
        case StartResume(call, _) => EnsuredStaysRegistered(s.t, Key(s.starting[call], ConsolidationJob));
        case Stop(_, tenant) => PoppedStaysRegistered(s.t, KeysOf(s.t, tenant));
        case StopAll(_) => PoppedStaysRegistered(s.t, s.t.registry.Keys);
        case _ =>
      }
    }
  }

  /** No loop leaks: a live task is the registry entry of its own key, in every interleaving. */
  lemma NoLoopLeaks(trace: seq<State>, n: nat, id: nat)
    requires IsRun(Init, Next, trace) && n < |trace| && Live(trace[n].t, id)
    ensures var t := trace[n].t; t.owner[id] in t.registry && t.registry[t.owner[id]] == id
  {
    InvIsInductive();
    InvariantOnRuns(Init, Next, Inv, trace, n);
  }

  lemma AtMostOneLoopPerKey(trace: seq<State>, n: nat, id: nat, id': nat)
    requires IsRun(Init, Next, trace) && n < |trace| && Live(trace[n].t, id) && Live(trace[n].t, id')
    requires trace[n].t.owner[id] == trace[n].t.owner[id']
    ensures id == id'
  {
    NoLoopLeaks(trace, n, id);
    NoLoopLeaks(trace, n, id');
  }

  // ---------------------------------------------------------------- stopping

  ghost predicate StartInFlight(s: State, tenant: string) {
    exists call :: call in s.starting && s.starting[call] == tenant
  }

  /** Nothing of the tenant runs, and nothing already under way will make it run. */
  ghost predicate Quiet(s: State, tenant: string) {
    KeysOf(s.t, tenant) == {} && !StartInFlight(s, tenant)
  }

  lemma StopRemovesTenant(s: State, call: nat, tenant: string)
    requires Enabled(s, Stop(call, tenant))
    ensures KeysOf(Apply(s, Stop(call, tenant)).t, tenant) == {}
  {
    var s' := Apply(s, Stop(call, tenant));
    assert forall k :: k in s'.t.registry ==> k in s.t.registry && k !in KeysOf(s.t, tenant);
  }

  /** Stopping one tenant leaves every other tenant's entries, and their tasks, untouched. */
  lemma StopSparesOthers(s: State, call: nat, tenant: string, k: Key)
    requires Inv(s) && Enabled(s, Stop(call, tenant)) && k.tenant != tenant
    ensures var t, t' := s.t, Apply(s, Stop(call, tenant)).t;
      && (k in t'.registry <==> k in t.registry)
      && (k in t.registry ==> t'.registry[k] == t.registry[k] && (Live(t', t.registry[k]) <==> Live(t, t.registry[k])))
  {
    var t := s.t;
    if k in t.registry {
      assert forall k' :: k' in KeysOf(t, tenant) ==> t.owner[t.registry[k']] == k' && k' != k;
      assert t.owner[t.registry[k]] == k;
    }
  }

  lemma QuietMeansNoLiveLoop(s: State, tenant: string, id: nat)
    requires Inv(s) && Quiet(s, tenant) && Live(s.t, id)
    ensures s.t.owner[id].tenant != tenant
  {
    assert s.t.owner[id] !in KeysOf(s.t, tenant);
  }

  /** A step other than a new start of the tenant. */
  ghost predicate NextWithoutStart(s: State, s': State, tenant: string) {
    exists a :: Enabled(s, a) && s' == Apply(s, a) && !(a.StartBegin? && a.tenant == tenant)
  }

  lemma QuietPersists(s: State, s': State, tenant: string)
    requires Quiet(s, tenant) && NextWithoutStart(s, s', tenant)
    ensures Quiet(s', tenant)
  {
    var a :| Enabled(s, a) && s' == Apply(s, a) && !(a.StartBegin? && a.tenant == tenant);
    var s_ := Apply(s, a);
    assert forall call :: call in s_.starting && s_.starting[call] == tenant ==> call in s.starting;
    assert forall k :: k in s_.t.registry && k.tenant == tenant ==> k in KeysOf(s.t, tenant);
  }

  /** What can follow without a new start of the tenant. */
  ghost predicate Continuation(s: State, rest: seq<State>, tenant: string) {
    && rest != [] && rest[0] == s
    && forall i, j :: 0 <= i < |rest| && j == i + 1 && j < |rest| ==> NextWithoutStart(rest[i], rest[j], tenant)
  }

  lemma {:induction false} QuietForGood(s: State, rest: seq<State>, tenant: string, n: nat)
    requires Quiet(s, tenant) && Continuation(s, rest, tenant) && n < |rest|
    ensures Quiet(rest[n], tenant)
    decreases n
  {
    if n > 0 {
      QuietForGood(s, rest, tenant, n - 1);
      QuietPersists(rest[n - 1], rest[n], tenant);
    }
  }

  /** From here on the tenant is not running, whatever happens short of a new start. */
  ghost predicate StaysStopped(s: State, tenant: string) {
    forall rest: seq<State>, n: nat :: Continuation(s, rest, tenant) && n < |rest| ==> !IsRunning(rest[n].t, tenant)
  }

  /** Stopping a tenant sticks exactly when no start of that tenant is parked at its policy read. */
  lemma StopSticksIff(s: State, call: nat, tenant: string)
    requires Inv(s) && Enabled(s, Stop(call, tenant))
    ensures StaysStopped(Apply(s, Stop(call, tenant)), tenant) <==> !StartInFlight(s, tenant)
  {
    var s' := Apply(s, Stop(call, tenant));
    StopRemovesTenant(s, call, tenant);
    PoppedStaysRegistered(s.t, KeysOf(s.t, tenant));
    assert s'.starting == s.starting;
    if StartInFlight(s, tenant) {
      ParkedStartRevives(s', tenant);
    } else {
      assert Quiet(s', tenant);
      forall rest: seq<State>, n: nat | Continuation(s', rest, tenant) && n < |rest|
        ensures !IsRunning(rest[n].t, tenant)
      {
        QuietForGood(s', rest, tenant, n);
        assert forall k :: k in rest[n].t.registry && k.tenant == tenant ==> k in KeysOf(rest[n].t, tenant);
      }
    }
  }

  /** A start that yielded before a stop creates a consolidation loop after it. */
  lemma ParkedStartRevives(s: State, tenant: string)
    requires Inv(s) && StartInFlight(s, tenant)
    ensures !StaysStopped(s, tenant)
  {
    var call :| call in s.starting && s.starting[call] == tenant;
    var s' := Apply(s, StartResume(call, true));
    assert NextWithoutStart(s, s', tenant);
    var rest := [s, s'];
    assert Continuation(s, rest, tenant);
    assert Key(tenant, ConsolidationJob) in rest[1].t.registry;
    assert IsRunning(rest[1].t, tenant);
  }

  /** stop_all sticks for every tenant without a start in flight. */
  lemma StopAllQuietsEveryTenant(s: State, call: nat, tenant: string)
    requires Enabled(s, StopAll(call)) && !StartInFlight(s, tenant)
    ensures Quiet(Apply(s, StopAll(call)), tenant)
  {
    var s' := Apply(s, StopAll(call));
    assert forall k :: k !in s'.t.registry;
  }

  // ---------------------------------------------------------------- what a stop waits for

  predicate Unfinished(t: Tasks, tenant: string, id: nat) {
    id in t.owner && t.owner[id].tenant == tenant && id !in t.done
  }

  /** A task that a later one replaced in the registry and that has not ended yet. */
  predicate ReplacedUnfinished(t: Tasks, tenant: string, id: nat) {
    Unfinished(t, tenant, id) && !(t.owner[id] in t.registry && t.registry[t.owner[id]] == id)
  }

  /** Steps of any kind during which the stop call keeps waiting. */
  ghost predicate Waiting(s: State, rest: seq<State>, call: nat) {
    && rest != [] && rest[0] == s
    && (forall i :: 0 <= i < |rest| ==> call in rest[i].stopping)
    && forall i, j :: 0 <= i < |rest| && j == i + 1 && j < |rest| ==> Next(rest[i], rest[j])
  }

  /** Whenever the stop call gets to return, the tasks that the tenant had in t are all done. */
  ghost predicate ReturnsClean(s: State, t: Tasks, call: nat, tenant: string) {
    forall rest: seq<State>, n: nat, id: nat ::
      Waiting(s, rest, call) && n < |rest| && Enabled(rest[n], StopReturns(call)) && Unfinished(t, tenant, id)
      ==> id in rest[n].t.done
  }

  lemma {:induction false} WaitingKeepsVictims(s: State, rest: seq<State>, call: nat, n: nat)
    requires Waiting(s, rest, call) && n < |rest|
    ensures rest[n].stopping[call] == s.stopping[call] && s.t.done <= rest[n].t.done
    decreases n
  {
    if n > 0 {
      WaitingKeepsVictims(s, rest, call, n - 1);
      assert Next(rest[n - 1], rest[n]);
    }
  }

  /** The awaited tasks can end one by one while nothing else happens. */
  lemma {:induction false} VictimsEnd(s: State, call: nat, ids: set<nat>) returns (rest: seq<State>)
    requires call in s.stopping && ids <= s.t.owner.Keys
    ensures Waiting(s, rest, call)
    ensures rest[|rest| - 1] == s.(t := s.t.(done := s.t.done + ids))
    decreases ids
  {
    if ids == {} {
      assert s.t.done + ids == s.t.done;
      rest := [s];
    } else {
      var id :| id in ids;
      var before := VictimsEnd(s, call, ids - {id});
      var last := before[|before| - 1];
      var ended := Apply(last, TaskEnds(id));
      assert last.t.done + {id} == s.t.done + ids;
      assert Next(last, ended);
      rest := before + [ended];
    }
  }

  lemma VictimsAreOwned(t: Tasks, tenant: string)
    requires Registered(t)
    ensures Victims(t, KeysOf(t, tenant)) <= t.owner.Keys
    ensures forall id :: Unfinished(t, tenant, id) ==> (id in Victims(t, KeysOf(t, tenant)) <==> !ReplacedUnfinished(t, tenant, id))
  {
    forall id | Unfinished(t, tenant, id) && !ReplacedUnfinished(t, tenant, id)
      ensures id in Victims(t, KeysOf(t, tenant))
    {
      assert t.owner[id] in KeysOf(t, tenant) && t.registry[t.owner[id]] == id;
    }
  }

  /** A stop returns with every task of its tenant done exactly when no replaced task of the tenant
      was still unfinished at the call: such a task was asked to stop, but nobody waits for it. */
  lemma StopReturnsCleanIff(s: State, call: nat, tenant: string)
    requires Inv(s) && Enabled(s, Stop(call, tenant))
    ensures ReturnsClean(Apply(s, Stop(call, tenant)), s.t, call, tenant)
       <==> forall id: nat :: !ReplacedUnfinished(s.t, tenant, id)
  {
    var s' := Apply(s, Stop(call, tenant));
    var victims := Victims(s.t, KeysOf(s.t, tenant));
    VictimsAreOwned(s.t, tenant);
    if id: nat :| ReplacedUnfinished(s.t, tenant, id) {
      var rest := VictimsEnd(s', call, victims);
      assert Enabled(rest[|rest| - 1], StopReturns(call)) && id !in rest[|rest| - 1].t.done;
    } else {
      forall rest: seq<State>, n: nat, id: nat
        | Waiting(s', rest, call) && n < |rest| && Enabled(rest[n], StopReturns(call)) && Unfinished(s.t, tenant, id)
        ensures id in rest[n].t.done
      {
        WaitingKeepsVictims(s', rest, call, n);
        assert id in victims;
      }
    }
  }
}
