/** internal/saga/saga.go: steps run in order; when one fails, the completed ones are compensated in reverse. */
module Sagas {
  import opened Wrappers

  type Error = string

  /** Execute and Compensate act on a world state S and may fail; Compensate is optional (nil in the source). */
  datatype Step<!S> = Step(name: string, execute: S -> (S, Option<Error>),
                           compensate: Option<S -> (S, Option<Error>)>)

  datatype SagaError =
    | StepFailed(step: string, cause: Error)
    | CompensationAlsoFailed(step: string, cause: Error, compensation: Error)

  /** Compensating steps[i..] from the last one down: the state reached and the last error seen. */
  function Unwind<S>(steps: seq<Step<S>>, s: S, i: nat): (S, Option<Error>)
    requires i <= |steps|
    decreases |steps| - i
  {
    if i == |steps| then (s, None)
    else
      var (t, lastErr) := Unwind(steps, s, i + 1);
      if steps[i].compensate.None? then (t, lastErr)
      else
        var (u, err) := steps[i].compensate.value(t);
        (u, if err.Some? then err else lastErr)
  }

  function Failed(step: string, cause: Error, compensation: Option<Error>): SagaError {
    if compensation.Some? then CompensationAlsoFailed(step, cause, compensation.value) else StepFailed(step, cause)
  }

  /** Executing steps[i..] when steps[..i] are completed. */
  function RunFrom<S>(steps: seq<Step<S>>, s: S, i: nat): (S, Option<SagaError>)
    requires i <= |steps|
    decreases |steps| - i
  {
    if i == |steps| then (s, None)
    else
      var (t, err) := steps[i].execute(s);
      if err.None? then RunFrom(steps, t, i + 1)
      else
        var (u, compensation) := Unwind(steps[..i], t, 0);
        (u, Some(Failed(steps[i].name, err.value, compensation)))
  }

  class World<S> {
    var state: S
    constructor (s: S)
      ensures state == s
    {
      state := s;
    }
  }

  class Saga<S> {
    var steps: seq<Step<S>>

    constructor ()
      ensures steps == []
    {
      steps := [];
    }

    method AddStep(name: string, execute: S -> (S, Option<Error>), compensate: Option<S -> (S, Option<Error>)>)
      modifies this
      ensures steps == old(steps) + [Step(name, execute, compensate)]
    {
      steps := steps + [Step(name, execute, compensate)];
    }

    method Execute(world: World<S>) returns (err: Option<SagaError>)
      modifies world
      ensures (world.state, err) == RunFrom(steps, old(world.state), 0)
    {
      var completed: seq<Step<S>> := [];
      for i := 0 to |steps|
        invariant completed == steps[..i]
        invariant RunFrom(steps, world.state, i) == RunFrom(steps, old(world.state), 0)
      {
        var step := steps[i];
        var (t, failure) := step.execute(world.state);
        world.state := t;
        if failure.Some? {
          var compensation := Compensate(world, completed);
          return Some(Failed(step.name, failure.value, compensation));
        }
        completed := completed + [step];
      }
      return None;
    }

    method Compensate(world: World<S>, completed: seq<Step<S>>) returns (lastErr: Option<Error>)
      modifies world
      ensures (world.state, lastErr) == Unwind(completed, old(world.state), 0)
    {
      lastErr := None;
      for i := |completed| downto 0
        invariant (world.state, lastErr) == Unwind(completed, old(world.state), i)
      {
        var step := completed[i];
        if step.compensate.Some? {
          var (t, err) := step.compensate.value(world.state);
          world.state := t;
          if err.Some? {
            lastErr := err;
          }
        }
      }
    }
  }

  // ---------------------------------------------------------------- what a saga's result means

  /** The state before steps[i] when the steps before it all ran. */
  function StateBefore<S>(steps: seq<Step<S>>, s: S, i: nat): S
    requires i <= |steps|
  {
    if i == 0 then s else steps[i - 1].execute(StateBefore(steps, s, i - 1)).0
  }

  /** The error of steps[i] when the steps before it all ran. */
  function StepError<S>(steps: seq<Step<S>>, s: S, i: nat): Option<Error>
    requires i < |steps|
  {
    steps[i].execute(StateBefore(steps, s, i)).1
  }

  ghost predicate FailsAt<S>(steps: seq<Step<S>>, s: S, k: nat) {
    k < |steps| && StepError(steps, s, k).Some? && forall i | 0 <= i < k :: StepError(steps, s, i).None?
  }

  lemma {:induction false} RunFromPrefix<S>(steps: seq<Step<S>>, s: S, i: nat)
    requires i <= |steps| && forall j | 0 <= j < i :: StepError(steps, s, j).None?
    ensures RunFrom(steps, s, 0) == RunFrom(steps, StateBefore(steps, s, i), i)
  {
    if i > 0 {
      RunFromPrefix(steps, s, i - 1);
      assert StepError(steps, s, i - 1).None?;
    }
  }

  lemma {:induction false} FirstFailure<S>(steps: seq<Step<S>>, s: S, i: nat) returns (k: nat)
    requires i <= |steps| && forall j | 0 <= j < i :: StepError(steps, s, j).None?
    ensures (k == |steps| && forall j | 0 <= j < |steps| :: StepError(steps, s, j).None?) || FailsAt(steps, s, k)
    decreases |steps| - i
  {
    if i == |steps| || StepError(steps, s, i).Some? {
      return i;
    }
    k := FirstFailure(steps, s, i + 1);
  }

  /** A saga that fails at step k ends in the state that compensating exactly the steps before k leaves. */
  lemma FailureUnwindsCompleted<S>(steps: seq<Step<S>>, s: S, k: nat)
    requires FailsAt(steps, s, k)
    ensures var (t, compensation) := Unwind(steps[..k], StateBefore(steps, s, k + 1), 0);
            RunFrom(steps, s, 0) == (t, Some(Failed(steps[k].name, StepError(steps, s, k).value, compensation)))
  {
    RunFromPrefix(steps, s, k);
  }

  /** nil is returned iff every step ran and succeeded, and then all their effects stay. */
  lemma NilIffEveryStepSucceeds<S>(steps: seq<Step<S>>, s: S)
    ensures RunFrom(steps, s, 0).1.None? <==> forall i | 0 <= i < |steps| :: StepError(steps, s, i).None?
    ensures RunFrom(steps, s, 0).1.None? ==> RunFrom(steps, s, 0).0 == StateBefore(steps, s, |steps|)
  {
    var k := FirstFailure(steps, s, 0);
    if k == |steps| {
      RunFromPrefix(steps, s, k);
    } else {
      FailureUnwindsCompleted(steps, s, k);
    }
  }

  /** The compensation error reported is the one of the earliest step whose compensation failed, because
      compensation goes on after a failure and runs backwards. */
  lemma {:induction false} ReportsEarliestCompensationFailure<S>(steps: seq<Step<S>>, s: S, i: nat, j: nat)
    requires i <= j < |steps| && CompensationFails(steps, s, j)
    requires forall h | i <= h < j :: !CompensationFails(steps, s, h)
    ensures Unwind(steps, s, i).1 == steps[j].compensate.value(Unwind(steps, s, j + 1).0).1
    decreases j - i
  {
    if i < j {
      ReportsEarliestCompensationFailure(steps, s, i + 1, j);
      assert !CompensationFails(steps, s, i);
    }
  }

  /** ... and none is reported iff no compensation failed. */
  lemma {:induction false} ReportsNoneIffNoneFailed<S>(steps: seq<Step<S>>, s: S, i: nat)
    requires i <= |steps|
    ensures Unwind(steps, s, i).1.None? <==> forall j | i <= j < |steps| :: !CompensationFails(steps, s, j)
    decreases |steps| - i
  {
    if i < |steps| {
      ReportsNoneIffNoneFailed(steps, s, i + 1);
      assert CompensationFails(steps, s, i) ==> Unwind(steps, s, i).1.Some?;
    }
  }

  /** Whether the compensation of steps[j] is present and fails, in the state in which it is reached. */
  ghost predicate CompensationFails<S>(steps: seq<Step<S>>, s: S, j: nat)
    requires j < |steps|
  {
    steps[j].compensate.Some? && steps[j].compensate.value(Unwind(steps, s, j + 1).0).1.Some?
  }

  /** What the compensation of steps[j] returns, in the state in which it is reached. */
  function CompensationError<S>(steps: seq<Step<S>>, s: S, j: nat): Option<Error>
    requires j < |steps|
  {
    if steps[j].compensate.None? then None else steps[j].compensate.value(Unwind(steps, s, j + 1).0).1
  }

  ghost predicate FirstToFail<S>(steps: seq<Step<S>>, s: S, j: nat)
    requires j < |steps|
  {
    CompensationError(steps, s, j).Some? && forall h | 0 <= h < j :: CompensationError(steps, s, h).None?
  }

  lemma FailsIffError<S>(steps: seq<Step<S>>, s: S)
    ensures forall j | 0 <= j < |steps| :: CompensationFails(steps, s, j) <==> CompensationError(steps, s, j).Some?
  {
  }

  lemma FirstErrorReported<S>(steps: seq<Step<S>>, s: S, j: nat)
    requires j < |steps| && FirstToFail(steps, s, j)
    ensures Unwind(steps, s, 0).1 == CompensationError(steps, s, j)
  {
    hide Unwind, CompensationFails;
    FailsIffError(steps, s);
    ReportsEarliestCompensationFailure(steps, s, 0, j);
  }

  lemma NoErrorReportedIff<S>(steps: seq<Step<S>>, s: S)
    ensures Unwind(steps, s, 0).1.None? <==> forall j | 0 <= j < |steps| :: CompensationError(steps, s, j).None?
  {
    hide Unwind, CompensationFails, CompensationError;
    FailsIffError(steps, s);
    ReportsNoneIffNoneFailed(steps, s, 0);
  }

  /** What the caller learns: the step that failed and its error; and exactly when some compensation failed as
      well, the error of the earliest step whose compensation did. */
  lemma SagaErrorTells<S>(steps: seq<Step<S>>, s: S, k: nat)
    requires FailsAt(steps, s, k)
    ensures var err := RunFrom(steps, s, 0).1;
            var done, after := steps[..k], StateBefore(steps, s, k + 1);
            && err.Some? && err.value.step == steps[k].name && Some(err.value.cause) == StepError(steps, s, k)
            && (err.value.StepFailed? <==> (forall j | 0 <= j < k :: CompensationError(done, after, j).None?))
            && (forall j | 0 <= j < k && FirstToFail(done, after, j) ::
                  err.value.CompensationAlsoFailed?
                  && Some(err.value.compensation) == CompensationError(done, after, j))
  {
    hide Unwind, CompensationError, RunFrom, StateBefore, FirstToFail, StepError, FailsAt;
    FailureHasError(steps, s, k);
    var done, after := steps[..k], StateBefore(steps, s, k + 1);
    FailureUnwindsCompleted(steps, s, k);
    NoErrorReportedIff(done, after);
    forall j | 0 <= j < k && FirstToFail(done, after, j)
      ensures Unwind(done, after, 0).1 == CompensationError(done, after, j) != None
    {
      FirstErrorReported(done, after, j);
      FirstHasError(done, after, j);
    }
  }

  lemma FailureHasError<S>(steps: seq<Step<S>>, s: S, k: nat)
    requires FailsAt(steps, s, k)
    ensures k < |steps| && StepError(steps, s, k).Some?
  {
  }

  lemma FirstHasError<S>(steps: seq<Step<S>>, s: S, j: nat)
    requires j < |steps| && FirstToFail(steps, s, j)
    ensures CompensationError(steps, s, j).Some?
  {
  }

  // ---------------------------------------------------------------- restoration

  /** A failing Execute changes nothing. */
  ghost predicate FailsCleanly<S(!new)>(step: Step<S>) {
    forall s: S :: step.execute(s).1.Some? ==> step.execute(s).0 == s
  }

  /** Compensate is present, succeeds after a successful Execute, and undoes it. */
  ghost predicate Undoes<S(!new)>(step: Step<S>) {
    && step.compensate.Some?
    && forall s: S :: step.execute(s).1.None? ==> step.compensate.value(step.execute(s).0) == (s, None)
  }

  lemma {:induction false} UnwindReturnsToStart<S(!new)>(steps: seq<Step<S>>, s: S, k: nat, i: nat)
    requires i <= k <= |steps| && (forall step <- steps :: Undoes(step))
    requires forall j | 0 <= j < k :: StepError(steps, s, j).None?
    ensures Unwind(steps[..k], StateBefore(steps, s, k), i) == (StateBefore(steps, s, i), None)
    decreases k - i
  {
    if i < k {
      UnwindReturnsToStart(steps, s, k, i + 1);
      assert Undoes(steps[i]) && StepError(steps, s, i).None?;
    }
  }

  /** A failing saga whose steps fail cleanly and whose compensations undo them leaves the world as it was. */
  lemma FailingSagaRestores<S(!new)>(steps: seq<Step<S>>, s: S)
    requires forall step <- steps :: FailsCleanly(step) && Undoes(step)
    ensures RunFrom(steps, s, 0).1.Some? ==> RunFrom(steps, s, 0).0 == s && RunFrom(steps, s, 0).1.value.StepFailed?
  {
    var k := FirstFailure(steps, s, 0);
    if k == |steps| {
      RunFromPrefix(steps, s, k);
    } else {
      FailureUnwindsCompleted(steps, s, k);
      assert FailsCleanly(steps[k]);
      UnwindReturnsToStart(steps, s, k, 0);
    }
  }

  // ---------------------------------------------------------------- steps that write disjoint components

  type Components<V> = map<string, V>

  function At<V>(s: Components<V>, component: string): Option<V> {
    if component in s then Some(s[component]) else None
  }

  ghost predicate SameExcept<V>(s: Components<V>, t: Components<V>, component: string) {
    forall c: string | c != component :: At(s, c) == At(t, c)
  }

  /** The step touches only its own component; what fails changes nothing; and a compensation that succeeds
      restores the component, whatever happened to the others in the meantime. */
  ghost predicate Confined<V(!new)>(step: Step<Components<V>>, component: string) {
    && FailsCleanly(step)
    && (forall s: Components<V> :: SameExcept(s, step.execute(s).0, component))
    && (step.compensate.Some? ==>
          && (forall t: Components<V> :: SameExcept(t, step.compensate.value(t).0, component))
          && (forall t: Components<V> :: step.compensate.value(t).1.Some? ==> step.compensate.value(t).0 == t)
          && (forall s: Components<V>, t: Components<V> ::
                step.execute(s).1.None? && At(t, component) == At(step.execute(s).0, component)
                && step.compensate.value(t).1.None?
                ==> At(step.compensate.value(t).0, component) == At(s, component)))
  }

  ghost predicate Disjoint<V(!new)>(steps: seq<Step<Components<V>>>, owns: seq<string>) {
    && |owns| == |steps|
    && (forall i, j | 0 <= i < j < |owns| :: owns[i] != owns[j])
    && (forall i | 0 <= i < |steps| :: Confined(steps[i], owns[i]))
  }

  /** Whether the compensation of steps[i] takes effect when the first k steps are unwound. */
  ghost predicate Compensated<S>(steps: seq<Step<S>>, s: S, k: nat, i: nat)
    requires i < k <= |steps|
  {
    steps[i].compensate.Some? && !CompensationFails(steps[..k], StateBefore(steps, s, k), i)
  }

  lemma {:induction false} ForwardTouchesOwn<V(!new)>(steps: seq<Step<Components<V>>>, owns: seq<string>,
                                                      s: Components<V>, i: nat, c: string)
    requires Disjoint(steps, owns) && i <= |steps| && forall j | 0 <= j < i :: owns[j] != c
    ensures At(StateBefore(steps, s, i), c) == At(s, c)
  {
    if i > 0 {
      ForwardTouchesOwn(steps, owns, s, i - 1, c);
      assert Confined(steps[i - 1], owns[i - 1]);
    }
  }

  /** After step i, its component keeps the value the step gave it. */
  lemma {:induction false} ForwardKeeps<V(!new)>(steps: seq<Step<Components<V>>>, owns: seq<string>,
                                                 s: Components<V>, i: nat, k: nat)
    requires Disjoint(steps, owns) && i < k <= |steps|
    ensures At(StateBefore(steps, s, k), owns[i]) == At(StateBefore(steps, s, i + 1), owns[i])
  {
    if k > i + 1 {
      ForwardKeeps(steps, owns, s, i, k - 1);
      assert Confined(steps[k - 1], owns[k - 1]);
    }
  }

  /** Compensating one step touches its own component, and restores it unless compensation is missing or fails. */
  lemma OneCompensation<V(!new)>(step: Step<Components<V>>, component: string, s: Components<V>, t: Components<V>)
    requires Confined(step, component) && step.execute(s).1.None?
    requires At(t, component) == At(step.execute(s).0, component)
    ensures step.compensate.Some? ==>
              && SameExcept(t, step.compensate.value(t).0, component)
              && At(step.compensate.value(t).0, component)
                 == if step.compensate.value(t).1.Some? then At(t, component) else At(s, component)
  {
  }

  lemma UnwindNothing<S>(steps: seq<Step<S>>, s: S)
    ensures Unwind(steps, s, |steps|) == (s, None)
  {
  }

  /** What unwinding steps[j], after those behind it, does. */
  lemma UnwindHere<S>(steps: seq<Step<S>>, s: S, k: nat, j: nat)
    requires j < k <= |steps|
    ensures var full := StateBefore(steps, s, k);
            var before, after := Unwind(steps[..k], full, j + 1).0, Unwind(steps[..k], full, j).0;
            && after == (if steps[j].compensate.None? then before else steps[j].compensate.value(before).0)
            && (Compensated(steps, s, k, j)
                <==> steps[j].compensate.Some? && steps[j].compensate.value(before).1.None?)
            && StateBefore(steps, s, j + 1) == steps[j].execute(StateBefore(steps, s, j)).0
            && StepError(steps, s, j) == steps[j].execute(StateBefore(steps, s, j)).1
  {
  }

  /** Unwinding steps[j..k] restores the component of each of them exactly when its compensation took
      effect, and touches nothing else. */
  lemma {:induction false} UnwindComponents<V(!new)>(steps: seq<Step<Components<V>>>, owns: seq<string>,
                                                     s: Components<V>, k: nat, j: nat)
    requires Disjoint(steps, owns) && j <= k <= |steps| && forall i | 0 <= i < k :: StepError(steps, s, i).None?
    ensures var full := StateBefore(steps, s, k);
            var t := Unwind(steps[..k], full, j).0;
            && (forall i | j <= i < k ::
                  At(t, owns[i]) == if Compensated(steps, s, k, i) then At(s, owns[i]) else At(full, owns[i]))
            && (forall c: string | (forall i | j <= i < k :: owns[i] != c) :: At(t, c) == At(full, c))
    decreases k - j
  {
    hide Confined, Unwind, Compensated, StateBefore;
    if j == k {
      UnwindNothing(steps[..k], StateBefore(steps, s, k));
    } else {
      UnwindComponents(steps, owns, s, k, j + 1);
      ForwardKeeps(steps, owns, s, j, k);
      ForwardTouchesOwn(steps, owns, s, j, owns[j]);
      assert StepError(steps, s, j).None?;
      UnwindHere(steps, s, k, j);
      var full := StateBefore(steps, s, k);
      var before, after := Unwind(steps[..k], full, j + 1).0, Unwind(steps[..k], full, j).0;
      assert At(before, owns[j]) == At(full, owns[j]);
      OneCompensation(steps[j], owns[j], StateBefore(steps, s, j), before);
    }
  }

  /** A saga that fails at step k: exactly the components of the completed steps with a missing or failed
      compensation keep their new values; every other component is as before the saga. */
  lemma OnlyUncompensatedStepsRemain<V(!new)>(steps: seq<Step<Components<V>>>, owns: seq<string>,
                                              s: Components<V>, k: nat, c: string)
    requires Disjoint(steps, owns) && FailsAt(steps, s, k)
    ensures At(RunFrom(steps, s, 0).0, c)
         == if exists i | 0 <= i < k :: owns[i] == c && !Compensated(steps, s, k, i)
            then At(StateBefore(steps, s, k), c) else At(s, c)
  {
    FailureUnwindsCompleted(steps, s, k);
    assert Confined(steps[k], owns[k]);
    UnwindComponents(steps, owns, s, k, 0);
    if i :| 0 <= i < k && owns[i] == c {
      assert forall h | 0 <= h < k :: owns[h] == c ==> h == i;
    } else {
      ForwardTouchesOwn(steps, owns, s, k, c);
    }
  }
}
