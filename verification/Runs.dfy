/**
 Promises over whole runs.  `state` gives the state after a sequence of commands; a guard
 that decides at each command whether the promise outlives it decides the run.
 */
module Runs {

  /** The promise holds before the run and after every command. */
  ghost predicate Throughout<S, C>(state: seq<C> -> S, promise: S -> bool, run: seq<C>) {
    forall n :: 0 <= n <= |run| ==> promise(state(run[..n]))
  }

  /** Every command meets the guard in the state that it finds. */
  ghost predicate AtEveryStep<S, C>(state: seq<C> -> S, guard: (S, C) -> bool, run: seq<C>) {
    forall n :: 0 <= n < |run| ==> guard(state(run[..n]), run[n])
  }

  ghost predicate Decides<S, C>(state: seq<C> -> S, promise: S -> bool, guard: (S, C) -> bool, run: seq<C>, n: nat)
    requires n < |run|
  {
    promise(state(run[..n])) ==> (promise(state(run[..n + 1])) <==> guard(state(run[..n]), run[n]))
  }

  lemma {:induction false} PromiseUpTo<S, C>(state: seq<C> -> S, promise: S -> bool, guard: (S, C) -> bool,
                                             run: seq<C>, n: nat)
    requires n <= |run| && promise(state([])) && AtEveryStep(state, guard, run)
    requires forall k :: 0 <= k < |run| ==> Decides(state, promise, guard, run, k)
    ensures promise(state(run[..n]))
  {
    if n == 0 {
      assert run[..0] == [];
    } else {
      PromiseUpTo(state, promise, guard, run, n - 1);
      assert Decides(state, promise, guard, run, n - 1) && guard(state(run[..n - 1]), run[n - 1]);
    }
  }

  lemma GuardDecidesRun<S, C>(state: seq<C> -> S, promise: S -> bool, guard: (S, C) -> bool, run: seq<C>)
    requires promise(state([])) && forall n :: 0 <= n < |run| ==> Decides(state, promise, guard, run, n)
    ensures Throughout(state, promise, run) <==> AtEveryStep(state, guard, run)
  {
    if Throughout(state, promise, run) {
      forall n | 0 <= n < |run|
        ensures guard(state(run[..n]), run[n])
      {
        assert Decides(state, promise, guard, run, n);
      }
    }
    if AtEveryStep(state, guard, run) {
      forall n | 0 <= n <= |run|
        ensures promise(state(run[..n]))
      {
        PromiseUpTo(state, promise, guard, run, n);
      }
    }
  }

  /** One command keeps the promise, if it holds. */
  ghost predicate Carries<S, C>(state: seq<C> -> S, promise: S -> bool, run: seq<C>, n: nat)
    requires n < |run|
  {
    promise(state(run[..n])) ==> promise(state(run[..n + 1]))
  }

  lemma {:induction false} PromiseCarried<S, C>(state: seq<C> -> S, promise: S -> bool, run: seq<C>, n: nat, m: nat)
    requires n <= m <= |run| && promise(state(run[..n]))
    requires forall k :: n <= k < m ==> Carries(state, promise, run, k)
    ensures promise(state(run[..m]))
  {
    if n < m {
      PromiseCarried(state, promise, run, n, m - 1);
      assert Carries(state, promise, run, m - 1);
    }
  }
}
