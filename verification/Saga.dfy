/**
 Sagas: compensable steps run in order over a shared world; the first failure
 unwinds the completed steps.
 */
module Saga {

  /** What an action does to the world, whether it succeeds or fails. */
  datatype Attempt<S, E> = Done(world: S) | Failed(world: S, error: E)

  datatype Step<!S, !E> = Step(action: S -> Attempt<S, E>, compensate: S -> S)

  datatype Outcome<E> = Completed | Aborted(step: nat, error: E)

  datatype Event = Acted(step: nat) | Compensated(step: nat)

  /** The world after the first `n` actions. */
  function Forward<S, E>(steps: seq<Step<S, E>>, start: S, n: nat): S
    requires n <= |steps|
  {
    if n == 0 then start else steps[n - 1].action(Forward(steps, start, n - 1)).world
  }

  /** The world after compensating steps `n - 1` down to 0. */
  function Backward<S, E>(steps: seq<Step<S, E>>, world: S, n: nat): S
    requires n <= |steps|
  {
    if n == 0 then world else Backward(steps, steps[n - 1].compensate(world), n - 1)
  }

  ghost predicate SucceedsAt<S, E>(steps: seq<Step<S, E>>, start: S, i: nat) {
    i < |steps| && steps[i].action(Forward(steps, start, i)).Done?
  }

  /** The first `n` actions all succeed. */
  ghost predicate Succeeds<S, E>(steps: seq<Step<S, E>>, start: S, n: nat) {
    forall i :: 0 <= i < n ==> SucceedsAt(steps, start, i)
  }

  ghost predicate FirstFailure<S, E>(steps: seq<Step<S, E>>, start: S, k: nat, error: E) {
    && k < |steps| && Succeeds(steps, start, k)
    && var attempt := steps[k].action(Forward(steps, start, k));
       attempt.Failed? && attempt.error == error
  }

  /** Actions 0 to `n - 1`, in order. */
  ghost predicate IsForwardTrace(trace: seq<Event>, n: nat) {
    |trace| == n && forall i :: 0 <= i < n ==> trace[i] == Acted(i)
  }

  /** Actions 0 to `k`, then the compensations of `k - 1` down to 0. */
  ghost predicate IsRollbackTrace(trace: seq<Event>, k: nat) {
    && |trace| == 2 * k + 1
    && (forall i :: 0 <= i <= k ==> trace[i] == Acted(i))
    && (forall i :: k < i <= 2 * k ==> trace[i] == Compensated(2 * k - i))
  }

  method Execute<S, E>(steps: seq<Step<S, E>>, start: S) returns (world: S, outcome: Outcome<E>, trace: seq<Event>)
    ensures outcome.Completed? ==>
      Succeeds(steps, start, |steps|) && world == Forward(steps, start, |steps|) && IsForwardTrace(trace, |steps|)
    ensures outcome.Aborted? ==>
      && FirstFailure(steps, start, outcome.step, outcome.error)
      && world == Backward(steps, Forward(steps, start, outcome.step + 1), outcome.step)
      && IsRollbackTrace(trace, outcome.step)
  {
    world, trace := start, [];
    var completed: seq<nat> := [];
    for index := 0 to |steps|
      invariant |completed| == index && forall i :: 0 <= i < index ==> completed[i] == i
      invariant Succeeds(steps, start, index)
      invariant world == Forward(steps, start, index) && IsForwardTrace(trace, index)
    {
      var attempt := steps[index].action(world);
      world, trace := attempt.world, trace + [Acted(index)];
      match attempt {
        case Done(_) =>
          assert SucceedsAt(steps, start, index);
          completed := completed + [index];
        case Failed(_, error) =>
          world, trace := Unwind(steps, completed, world, trace);
          return world, Aborted(index, error), trace;
      }
    }
    outcome := Completed;
  }

  /** Runs the compensations of the completed steps, last first. */
  method Unwind<S, E>(steps: seq<Step<S, E>>, completed: seq<nat>, failed: S, log: seq<Event>)
    returns (world: S, trace: seq<Event>)
    requires |completed| < |steps| && forall i :: 0 <= i < |completed| ==> completed[i] == i
    requires IsForwardTrace(log, |completed| + 1)
    ensures world == Backward(steps, failed, |completed|)
    ensures IsRollbackTrace(trace, |completed|)
  {
    var k := |completed|;
    world, trace := failed, log;
    for j := k downto 0
      invariant Backward(steps, world, j) == Backward(steps, failed, k)
      invariant |trace| == 2 * k + 1 - j
      invariant forall i :: 0 <= i <= k ==> trace[i] == Acted(i)
      invariant forall i :: k < i < |trace| ==> trace[i] == Compensated(2 * k - i)
    {
      var step := completed[j];
      world := steps[step].compensate(world);
      trace := trace + [Compensated(step)];
    }
  }

  // --- Rollback ------------------------------------------------------------

  /** On the worlds this run met, compensation `i` undoes action `i`. */
  ghost predicate UndoneAt<S, E>(steps: seq<Step<S, E>>, start: S, i: nat) {
    i < |steps| && steps[i].compensate(Forward(steps, start, i + 1)) == Forward(steps, start, i)
  }

  lemma {:induction false} BackwardUndoesForward<S, E>(steps: seq<Step<S, E>>, start: S, n: nat)
    requires n <= |steps| && forall i :: 0 <= i < n ==> UndoneAt(steps, start, i)
    ensures Backward(steps, Forward(steps, start, n), n) == start
  {
    if n > 0 {
      assert UndoneAt(steps, start, n - 1);
      BackwardUndoesForward(steps, start, n - 1);
    }
  }

  /** A compensation that undoes its action from every world. */
  ghost predicate Undoes<S(!new), E>(step: Step<S, E>) {
    forall s :: step.action(s).Done? ==> step.compensate(step.action(s).world) == s
  }

  /** A failing action leaves the world as it was. */
  ghost predicate FailsCleanly<S(!new), E>(step: Step<S, E>) {
    forall s :: step.action(s).Failed? ==> step.action(s).world == s
  }

  /** If compensations undo their actions and the failed action had no effect, an
      aborted saga ends where it started. */
  lemma AbortedSagaRestores<S(!new), E>(steps: seq<Step<S, E>>, start: S, k: nat, error: E)
    requires FirstFailure(steps, start, k, error)
    requires forall i :: 0 <= i < k ==> Undoes(steps[i])
    requires FailsCleanly(steps[k])
    ensures Backward(steps, Forward(steps, start, k + 1), k) == start
  {
    forall i | 0 <= i < k ensures UndoneAt(steps, start, i) {
      assert SucceedsAt(steps, start, i);
      assert Undoes(steps[i]);
    }
    BackwardUndoesForward(steps, start, k);
  }

  /** The failing step and its error are determined by the steps and the start. */
  lemma FirstFailureIsUnique<S, E>(steps: seq<Step<S, E>>, start: S, j: nat, e: E, k: nat, f: E)
    requires FirstFailure(steps, start, j, e) && FirstFailure(steps, start, k, f)
    ensures j == k && e == f
  {
    assert !SucceedsAt(steps, start, j) && !SucceedsAt(steps, start, k);
  }
}
