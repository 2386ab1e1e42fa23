/** Runs of a transition system, and the two inductions over them that the protocols need:
    an invariant that every step keeps holds throughout, and a preorder that every step
    respects relates any earlier state to any later one. */
module Runs {

  ghost predicate IsRun<S(!new)>(init: S -> bool, next: (S, S) -> bool, trace: seq<S>) {
    && 0 < |trace|
    && init(trace[0])
    && forall i, j :: 0 <= i < |trace| && j == i + 1 && j < |trace| ==> next(trace[i], trace[j])
  }

  ghost predicate Inductive<S(!new)>(init: S -> bool, next: (S, S) -> bool, inv: S -> bool) {
    && (forall s :: init(s) ==> inv(s))
    && (forall s, s' :: inv(s) && next(s, s') ==> inv(s'))
  }

  lemma {:induction false} InvariantOnRuns<S(!new)>(
    init: S -> bool, next: (S, S) -> bool, inv: S -> bool, trace: seq<S>, n: nat)
    requires Inductive(init, next, inv)
    requires IsRun(init, next, trace)
    requires n < |trace|
    ensures inv(trace[n])
    decreases n
  {
    if n == 0 {
    } else {
      InvariantOnRuns(init, next, inv, trace, n - 1);
      assert next(trace[n - 1], trace[n]);
    }
  }

  ghost predicate Preorder<S(!new)>(rel: (S, S) -> bool) {
    && (forall s :: rel(s, s))
    && (forall a, b, c :: rel(a, b) && rel(b, c) ==> rel(a, c))
  }

  lemma {:induction false} OrderedOnRuns<S(!new)>(
    init: S -> bool, next: (S, S) -> bool, inv: S -> bool, rel: (S, S) -> bool,
    trace: seq<S>, m: nat, n: nat)
    requires Inductive(init, next, inv)
    requires Preorder(rel)
    requires forall s, s' :: inv(s) && next(s, s') ==> rel(s, s')
    requires IsRun(init, next, trace)
    requires m <= n < |trace|
    ensures rel(trace[m], trace[n])
    decreases n
  {
    if m == n {
    } else {
      OrderedOnRuns(init, next, inv, rel, trace, m, n - 1);
      InvariantOnRuns(init, next, inv, trace, n - 1);
      assert next(trace[n - 1], trace[n]);
    }
  }

  /** Permitted steps from a state on. */
  ghost predicate IsPath<S(!new)>(next: (S, S) -> bool, from: S, steps: seq<S>) {
    && 0 < |steps| && steps[0] == from
    && forall i, j :: 0 <= i < |steps| && j == i + 1 && j < |steps| ==> next(steps[i], steps[j])
  }

  /** Two paths, the second one from where the first ends. */
  lemma Chained<S(!new)>(next: (S, S) -> bool, from: S, first: seq<S>, second: seq<S>) returns (steps: seq<S>)
    requires IsPath(next, from, first) && IsPath(next, first[|first| - 1], second)
    ensures IsPath(next, from, steps) && steps[|steps| - 1] == second[|second| - 1]
  {
    steps := first + second[1..];
    forall i, j | 0 <= i < |steps| && j == i + 1 && j < |steps| ensures next(steps[i], steps[j]) {
      if j < |first| {
        assert next(first[i], first[j]);
      } else {
        assert steps[i] == second[i - |first| + 1] && steps[j] == second[j - |first| + 1];
      }
    }
  }

  /** A run followed by permitted steps is a run; used to exhibit concrete runs. */
  lemma Join<S(!new)>(init: S -> bool, next: (S, S) -> bool, trace: seq<S>, tail: seq<S>)
    requires IsRun(init, next, trace) && tail != []
    requires next(trace[|trace| - 1], tail[0])
    requires forall i, j :: 0 <= i < |tail| && j == i + 1 && j < |tail| ==> next(tail[i], tail[j])
    ensures IsRun(init, next, trace + tail)
  {
    var joined := trace + tail;
    forall i, j | 0 <= i < |joined| && j == i + 1 && j < |joined| ensures next(joined[i], joined[j]) {
      if j < |trace| {
        assert next(trace[i], trace[j]);
      } else if i >= |trace| {
        assert next(tail[i - |trace|], tail[j - |trace|]);
      }
    }
  }
}
