/** The in-memory task queue of internal/queue/fallback.go: a bounded channel, one worker goroutine that
    starts a goroutine per task, and a shutdown that waits for all of them.

    The worker's iteration is split where other goroutines can run in between: receiving a task, looking up
    its handler, and adding to the wait group before the handler starts. */
module Queues {
  const CAPACITY: nat := 1000

  /** `hand` numbers the tasks of a run, so that equal payloads stay apart. */
  datatype Task = Task(hand: nat, kind: string, payload: map<string, string>)

  /** Where the worker goroutine is. */
  datatype Worker = NotStarted | Selecting | Received(task: Task) | Found(task: Task) | Exited

  datatype Waiting = NotCalled | InWait | Returned

  /** What became of a task taken from the channel. */
  datatype Fate = Fate(task: Task, dispatched: bool)

  /** `enqueued` and `fates` are history: the tasks accepted, and the decisions taken, in order. `running` and
      `finished` hold positions in `fates`. `misused` is set when the wait group is raised from zero during Wait. */
  datatype Queue = Queue(chan: seq<Task>, handlers: set<string>, worker: Worker, stop: bool, wg: nat,
                         running: set<nat>, waiting: Waiting, enqueued: seq<Task>, fates: seq<Fate>,
                         finished: set<nat>, misused: bool)

  const EMPTY := Queue([], {}, NotStarted, false, 0, {}, NotCalled, [], [], {}, false)

  predicate Accepts(q: Queue) { |q.chan| < CAPACITY }

  function Enqueue(q: Queue, t: Task): Queue {
    if Accepts(q) then q.(chan := q.chan + [t], enqueued := q.enqueued + [t]) else q
  }

  function WgAdd(q: Queue): Queue {
    q.(wg := q.wg + 1, misused := q.misused || (q.wg == 0 && q.waiting == InWait))
  }

  function WgDone(q: Queue): Queue {
    if q.wg == 0 then q else q.(wg := q.wg - 1)
  }

  function Start(q: Queue): Queue {
    if q.worker == NotStarted then WgAdd(q).(worker := Selecting) else q
  }

  /** The worker's select: it may take a task even when stop is closed, and may exit only then. */
  function Receive(q: Queue): Queue {
    if q.worker == Selecting && q.chan != [] then q.(worker := Received(q.chan[0]), chan := q.chan[1..]) else q
  }

  function Exit(q: Queue): Queue {
    if q.worker == Selecting && q.stop then WgDone(q.(worker := Exited)) else q
  }

  function LookUp(q: Queue): Queue {
    if !q.worker.Received? then q
    else if q.worker.task.kind in q.handlers then q.(worker := Found(q.worker.task))
    else q.(worker := Selecting, fates := q.fates + [Fate(q.worker.task, false)])
  }

  function Spawn(q: Queue): Queue {
    if !q.worker.Found? then q
    else
      WgAdd(q).(worker := Selecting, running := q.running + {|q.fates|},
                fates := q.fates + [Fate(q.worker.task, true)])
  }

  function Finish(q: Queue, i: nat): Queue {
    if i in q.running then WgDone(q.(running := q.running - {i}, finished := q.finished + {i})) else q
  }

  /** Shutdown: close(stop), then Wait, which returns when the count is zero. */
  function CloseStop(q: Queue): Queue {
    if q.waiting == NotCalled then q.(stop := true, waiting := InWait) else q
  }

  function WaitReturns(q: Queue): Queue {
    if q.waiting == InWait && q.wg == 0 then q.(waiting := Returned) else q
  }

  datatype Event =
    | Enqueuing(task: Task)
    | Handling(kind: string)
    | Starting
    | Receiving
    | Exiting
    | LookingUp
    | Spawning
    | Finishing(i: nat)
    | ClosingStop
    | Returning

  function Step(q: Queue, e: Event): Queue {
    match e
    case Enqueuing(t) => Enqueue(q, t)
    case Handling(kind) => q.(handlers := q.handlers + {kind})
    case Starting => Start(q)
    case Receiving => Receive(q)
    case Exiting => Exit(q)
    case LookingUp => LookUp(q)
    case Spawning => Spawn(q)
    case Finishing(i) => Finish(q, i)
    case ClosingStop => CloseStop(q)
    case Returning => WaitReturns(q)
  }

  function After(q: Queue, run: seq<Event>): Queue {
    if run == [] then q else Step(After(q, run[..|run| - 1]), run[|run| - 1])
  }

  // ---------------------------------------------------------------- what every step keeps

  function Held(q: Queue): seq<Task> {
    if q.worker.Received? || q.worker.Found? then [q.worker.task] else []
  }

  function Tasks(fates: seq<Fate>): seq<Task> { seq(|fates|, i requires 0 <= i < |fates| => fates[i].task) }

  /** The tasks taken out of the channel so far. */
  function Dequeued(q: Queue): seq<Task> { Tasks(q.fates) + Held(q) }

  predicate Live(q: Queue) { q.worker != NotStarted && q.worker != Exited }

  /** The positions of the tasks that were given to a handler. */
  ghost function Dispatched(fates: seq<Fate>): set<nat> {
    set i | 0 <= i < |fates| && fates[i].dispatched
  }

  ghost predicate Inv(q: Queue) {
    && |q.chan| <= CAPACITY
    && q.enqueued == Dequeued(q) + q.chan
    && q.wg == (if Live(q) then 1 else 0) + |q.running|
    && q.running !! q.finished
    && q.running + q.finished == Dispatched(q.fates)
    && (q.stop <==> q.waiting != NotCalled) && (q.worker == Exited ==> q.stop)
  }

  lemma FatesGrow(fates: seq<Fate>, fate: Fate)
    ensures Tasks(fates + [fate]) == Tasks(fates) + [fate.task]
    ensures Dispatched(fates + [fate]) == Dispatched(fates) + if fate.dispatched then {|fates|} else {}
    ensures |fates| !in Dispatched(fates)
  {
  }

  lemma EnqueueKeepsInv(q: Queue, t: Task)
    requires Inv(q)
    ensures Inv(Enqueue(q, t))
  {
    assert Dequeued(q) + (q.chan + [t]) == Dequeued(q) + q.chan + [t];
  }

  lemma ReceiveKeepsInv(q: Queue)
    requires Inv(q)
    ensures Inv(Receive(q))
  {
    if q.worker == Selecting && q.chan != [] {
      assert Tasks(q.fates) + [q.chan[0]] + q.chan[1..] == Tasks(q.fates) + [] + q.chan;
    }
  }

  lemma LookUpKeepsInv(q: Queue)
    requires Inv(q)
    ensures Inv(LookUp(q))
  {
    if q.worker.Received? {
      FatesGrow(q.fates, Fate(q.worker.task, false));
      assert Tasks(q.fates) + [q.worker.task] + [] == Tasks(q.fates) + [q.worker.task];
    }
  }

  lemma SpawnKeepsInv(q: Queue)
    requires Inv(q)
    ensures Inv(Spawn(q))
  {
    if q.worker.Found? {
      FatesGrow(q.fates, Fate(q.worker.task, true));
      assert Tasks(q.fates) + [q.worker.task] + [] == Tasks(q.fates) + [q.worker.task];
    }
  }

  lemma FinishKeepsInv(q: Queue, i: nat)
    requires Inv(q)
    ensures Inv(Finish(q, i))
  {
    hide Dispatched, Tasks;
    if i in q.running {
      assert q.running - {i} + (q.finished + {i}) == q.running + q.finished;
    }
  }

  lemma ControlKeepsInv(q: Queue, e: Event)
    requires Inv(q) && (e.Handling? || e.Starting? || e.Exiting? || e.ClosingStop? || e.Returning?)
    ensures Inv(Step(q, e))
  {
    hide Dispatched, Tasks;
  }

  lemma StepKeepsInv(q: Queue, e: Event)
    requires Inv(q)
    ensures Inv(Step(q, e))
  {
    hide Inv;
    match e
    case Enqueuing(task) => EnqueueKeepsInv(q, task);
    case Receiving => ReceiveKeepsInv(q);
    case LookingUp => LookUpKeepsInv(q);
    case Spawning => SpawnKeepsInv(q);
    case Finishing(i) => FinishKeepsInv(q, i);
    case _ => ControlKeepsInv(q, e);
  }

  lemma {:induction false} RunKeepsInv(run: seq<Event>)
    ensures Inv(After(EMPTY, run))
  {
    if run == [] {
      assert Dequeued(EMPTY) == [];
    } else {
      RunKeepsInv(run[..|run| - 1]);
      StepKeepsInv(After(EMPTY, run[..|run| - 1]), run[|run| - 1]);
    }
  }

  /** In every run the wait group counts the worker and the running handlers, the tasks taken out are a prefix
      of the tasks accepted, and each of them is running or finished exactly once if it was dispatched, and
      dropped for lack of a handler otherwise. */
  lemma EveryTaskAccountedFor(run: seq<Event>)
    ensures var q := After(EMPTY, run);
            && q.wg == (if Live(q) then 1 else 0) + |q.running|
            && Dequeued(q) <= q.enqueued && q.enqueued == Dequeued(q) + q.chan && |q.chan| <= 1000
            && forall i | 0 <= i < |q.fates| ::
                 (q.fates[i].dispatched <==> i in q.running + q.finished) && !(i in q.running && i in q.finished)
  {
    RunKeepsInv(run);
  }

  // ---------------------------------------------------------------- handlers

  /** A task whose kind has a handler is dispatched when its turn comes. */
  lemma {:induction false} HandledKindsAreDispatched(q: Queue, run: seq<Event>, i: nat)
    requires |q.fates| <= i < |After(q, run).fates| && After(q, run).fates[i].task.kind in q.handlers
    ensures After(q, run).fates[i].dispatched && q.handlers <= After(q, run).handlers
  {
    HandlersGrow(q, run);
    if run != [] {
      var front := run[..|run| - 1];
      HandlersGrow(q, front);
      if i < |After(q, front).fates| {
        HandledKindsAreDispatched(q, front, i);
      }
    }
  }

  lemma HandlersOfStep(q: Queue, e: Event)
    ensures Step(q, e).handlers == q.handlers + if e.Handling? then {e.kind} else {}
  {
  }

  ghost predicate OnlyHandled(q: Queue) {
    && (q.worker.Found? ==> q.worker.task.kind in q.handlers)
    && forall f <- q.fates | f.dispatched :: f.task.kind in q.handlers
  }

  lemma StepKeepsOnlyHandled(q: Queue, e: Event)
    requires OnlyHandled(q)
    ensures OnlyHandled(Step(q, e))
  {
  }

  /** Only tasks that have a handler are dispatched; the others are dropped. */
  lemma {:induction false} DispatchedHaveHandlers(run: seq<Event>)
    ensures OnlyHandled(After(EMPTY, run))
  {
    hide OnlyHandled, Step;
    if run == [] {
      assert OnlyHandled(EMPTY) by { NothingYet(); }
    } else {
      DispatchedHaveHandlers(run[..|run| - 1]);
      StepKeepsOnlyHandled(After(EMPTY, run[..|run| - 1]), run[|run| - 1]);
    }
  }

  lemma NothingYet()
    ensures OnlyHandled(EMPTY)
  {
  }

  /** The handlers are those the run registered. */
  lemma {:induction false} HandlersFollowRun(run: seq<Event>, kind: string)
    ensures kind in After(EMPTY, run).handlers <==> Handling(kind) in run
  {
    hide Step;
    if run != [] {
      var front, e := run[..|run| - 1], run[|run| - 1];
      HandlersFollowRun(front, kind);
      HandlersOfStep(After(EMPTY, front), e);
      assert Handling(kind) in run <==> Handling(kind) in front || e == Handling(kind);
    }
  }

  lemma AfterSnoc(q: Queue, run: seq<Event>, e: Event)
    ensures After(q, run + [e]) == Step(After(q, run), e)
  {
    hide Step;
    assert (run + [e])[..|run|] == run;
  }

  /** A task is put behind those waiting, unless 1000 wait. */
  lemma AcceptedIffRoom(run: seq<Event>, t: Task)
    ensures var q, r := After(EMPTY, run), After(EMPTY, run + [Enqueuing(t)]);
            && r.fates == q.fates && r.running == q.running
            && (if |q.chan| < 1000 then r.chan == q.chan + [t] && r.enqueued == q.enqueued + [t]
                else r.chan == q.chan && r.enqueued == q.enqueued)
  {
    AfterSnoc(EMPTY, run, Enqueuing(t));
  }

  lemma {:induction false} HandlersGrow(q: Queue, run: seq<Event>)
    ensures q.handlers <= After(q, run).handlers
  {
    if run != [] {
      HandlersGrow(q, run[..|run| - 1]);
    }
  }

  // ---------------------------------------------------------------- progress

  /** What worker and handlers do by themselves. */
  predicate Internal(e: Event) { e.Receiving? || e.LookingUp? || e.Spawning? || e.Finishing? }

  ghost predicate AllInternal(run: seq<Event>) { forall e <- run :: Internal(e) }

  lemma {:induction false} AfterConcat(q: Queue, xs: seq<Event>, ys: seq<Event>)
    ensures After(q, xs + ys) == After(After(q, xs), ys)
  {
    hide Step;
    if ys == [] {
      assert xs + ys == xs;
    } else {
      AfterConcat(q, xs, ys[..|ys| - 1]);
      assert (xs + ys)[..|xs + ys| - 1] == xs + ys[..|ys| - 1];
    }
  }

  lemma AfterOne(q: Queue, e: Event)
    ensures After(q, [e]) == Step(q, e)
  {
    hide Step;
    AfterNone(q);
    assert [e][..0] == [];
  }

  lemma AfterNone(q: Queue)
    ensures After(q, []) == q
  {
  }

  lemma {:induction false} RunKeepsInvFrom(q: Queue, run: seq<Event>)
    requires Inv(q)
    ensures Inv(After(q, run))
  {
    hide Inv, Step;
    if run != [] {
      RunKeepsInvFrom(q, run[..|run| - 1]);
      StepKeepsInv(After(q, run[..|run| - 1]), run[|run| - 1]);
    }
  }

  /** The worker decides on the task it holds, and is back at its select. */
  lemma WorkerSettles(q: Queue) returns (rest: seq<Event>)
    requires Live(q)
    ensures AllInternal(rest)
    ensures var t := After(q, rest);
            t.worker == Selecting && t.chan == q.chan && t.enqueued == q.enqueued && t.waiting == q.waiting
  {
    AfterOne(q, LookingUp);
    AfterOne(q, Spawning);
    if q.worker.Received? {
      var looked := Step(q, LookingUp);
      AfterOne(looked, Spawning);
      AfterConcat(q, [LookingUp], [Spawning]);
      rest := if looked.worker.Found? then [LookingUp] + [Spawning] else [LookingUp];
    } else {
      rest := if q.worker.Found? then [Spawning] else [];
      assert After(q, []) == q;
    }
  }

  /** Every running handler finishes. */
  lemma {:induction false} HandlersFinish(q: Queue) returns (rest: seq<Event>)
    ensures AllInternal(rest)
    ensures var t := After(q, rest);
            && t.running == {} && t.worker == q.worker && t.chan == q.chan && t.fates == q.fates
            && t.enqueued == q.enqueued && t.waiting == q.waiting && t.stop == q.stop
    decreases |q.running|
  {
    if q.running == {} {
      rest := [];
    } else {
      var i :| i in q.running;
      var more := HandlersFinish(Step(q, Finishing(i)));
      AfterOne(q, Finishing(i));
      AfterConcat(q, [Finishing(i)], more);
      rest := [Finishing(i)] + more;
    }
  }

  lemma {:induction false} ChannelEmpties(q: Queue) returns (rest: seq<Event>)
    requires q.worker == Selecting
    ensures AllInternal(rest)
    ensures var t := After(q, rest);
            t.worker == Selecting && t.chan == [] && t.enqueued == q.enqueued && t.waiting == q.waiting
    decreases |q.chan|
  {
    if q.chan == [] {
      rest := [];
    } else {
      var received := Step(q, Receiving);
      AfterOne(q, Receiving);
      var settle := WorkerSettles(received);
      AfterConcat(q, [Receiving], settle);
      var more := ChannelEmpties(After(received, settle));
      AfterConcat(q, [Receiving] + settle, more);
      rest := [Receiving] + settle + more;
    }
  }

  lemma {:induction false} LiveOnceStarted(run: seq<Event>)
    requires Starting in run && ClosingStop !in run
    ensures Live(After(EMPTY, run))
  {
    NotStoppedWithoutShutdown(run);
    StartedWorkerStays(run);
  }

  lemma {:induction false} NotStoppedWithoutShutdown(run: seq<Event>)
    requires ClosingStop !in run
    ensures !After(EMPTY, run).stop && After(EMPTY, run).worker != Exited
  {
    if run != [] {
      assert run == run[..|run| - 1] + [run[|run| - 1]];
      NotStoppedWithoutShutdown(run[..|run| - 1]);
    }
  }

  lemma {:induction false} StartedWorkerStays(run: seq<Event>)
    requires Starting in run
    ensures After(EMPTY, run).worker != NotStarted
  {
    assert run == run[..|run| - 1] + [run[|run| - 1]];
    if Starting in run[..|run| - 1] {
      StartedWorkerStays(run[..|run| - 1]);
    }
  }

  /** Nothing gets stuck: once started and not shut down, from every reachable state worker and handlers can by
      themselves get to the point where every accepted task was taken, in order, and every handler has finished. */
  lemma EveryTaskCanFinish(run: seq<Event>)
    requires Starting in run && ClosingStop !in run
    ensures exists rest :: AllInternal(rest)
              && var t := After(EMPTY, run + rest);
                 Tasks(t.fates) == After(EMPTY, run).enqueued && t.finished == Dispatched(t.fates)
  {
    hide Inv, Step, Dispatched, Tasks;
    var q := After(EMPTY, run);
    LiveOnceStarted(run);
    var settle := WorkerSettles(q);
    var empty := ChannelEmpties(After(q, settle));
    var finish := HandlersFinish(After(After(q, settle), empty));
    AfterConcat(q, settle, empty);
    AfterConcat(q, settle + empty, finish);
    var rest := settle + empty + finish;
    AfterConcat(EMPTY, run, rest);
    RunKeepsInv(run + rest);
    var t := After(EMPTY, run + rest);
    IdleMeansDone(t);
  }

  lemma IdleMeansDone(q: Queue)
    requires Inv(q) && q.worker == Selecting && q.chan == [] && q.running == {}
    ensures Tasks(q.fates) == q.enqueued && q.finished == Dispatched(q.fates)
  {
    assert q.enqueued == Tasks(q.fates) + [] + [];
  }

  /** A Shutdown that waits can always return: the worker can leave as soon as it is back at its select. */
  lemma ShutdownCanReturn(run: seq<Event>)
    requires After(EMPTY, run).waiting == InWait
    ensures exists rest :: (forall e <- rest :: Internal(e) || e == Exiting || e == Returning)
                           && After(EMPTY, run + rest).waiting == Returned
  {
    hide Inv, Step, After;
    var q := After(EMPTY, run);
    RunKeepsInv(run);
    var leave: seq<Event> := [];
    AfterNone(q);
    if Live(q) {
      var settle := WorkerSettles(q);
      RunKeepsInvFrom(q, settle);
      AfterOne(After(q, settle), Exiting);
      WorkerLeaves(After(q, settle));
      AfterConcat(q, settle, [Exiting]);
      leave := settle + [Exiting];
    }
    var finish := HandlersFinish(After(q, leave));
    AfterConcat(q, leave, finish);
    var done := After(q, leave + finish);
    RunKeepsInvFrom(q, leave + finish);
    WaitCanReturn(done);
    AfterOne(done, Returning);
    AfterConcat(q, leave + finish, [Returning]);
    AfterConcat(EMPTY, run, leave + finish + [Returning]);
    var rest := leave + finish + [Returning];
    assert forall e <- rest :: Internal(e) || e == Exiting || e == Returning;
  }

  lemma WorkerLeaves(q: Queue)
    requires Inv(q) && q.worker == Selecting && q.waiting == InWait
    ensures var t := Step(q, Exiting); t.worker == Exited && t.waiting == InWait
  {
  }

  lemma WaitCanReturn(q: Queue)
    requires Inv(q) && !Live(q) && q.running == {} && q.waiting == InWait
    ensures Step(q, Returning).waiting == Returned
  {
  }

  // ---------------------------------------------------------------- shutdown

  /** Shutdown was not called before Start. */
  ghost predicate StartedFirst(q: Queue) { q.waiting != NotCalled ==> q.worker != NotStarted }

  ghost predicate ShutdownInv(q: Queue) {
    && Inv(q) && !q.misused
    && (q.waiting == Returned ==> q.worker == Exited && q.running == {})
  }

  lemma CountsWorkerAndHandlers(q: Queue)
    requires Inv(q)
    ensures q.wg == (if Live(q) then 1 else 0) + |q.running| && (q.worker == Exited ==> q.waiting != NotCalled)
  {
  }

  lemma StepKeepsShutdownInv(q: Queue, e: Event)
    requires ShutdownInv(q) && StartedFirst(q) && StartedFirst(Step(q, e))
    ensures ShutdownInv(Step(q, e))
  {
    hide Inv;
    StepKeepsInv(q, e);
    CountsWorkerAndHandlers(q);
    match e
    case Starting =>
    case Spawning =>
    case Returning =>
      assert q.wg == 0 && q.waiting == InWait ==> !Live(q) && q.running == {};
    case _ =>
  }

  /** If no Shutdown precedes Start, the wait group is never raised from zero during Wait; and once Shutdown has
      returned the worker is gone, no handler runs, and each task taken out that had a handler has finished. */
  lemma {:induction false} ShutdownWaitsForAll(run: seq<Event>)
    requires forall n | 0 <= n <= |run| :: StartedFirst(After(EMPTY, run[..n]))
    ensures var q := After(EMPTY, run);
            && ShutdownInv(q)
            && (q.waiting == Returned ==>
                  && Dequeued(q) == Tasks(q.fates)
                  && q.finished == Dispatched(q.fates))
  {
    if run == [] {
      RunKeepsInv([]);
    } else {
      var front := run[..|run| - 1];
      forall n | 0 <= n <= |front| ensures StartedFirst(After(EMPTY, front[..n])) {
        assert front[..n] == run[..n];
      }
      ShutdownWaitsForAll(front);
      assert run[..|run| - 1] == front && run[..|run|] == run;
      StepKeepsShutdownInv(After(EMPTY, front), run[|run| - 1]);
    }
  }

  lemma {:induction false} IdleUntilStarted(run: seq<Event>)
    ensures After(EMPTY, run).worker == NotStarted ==> After(EMPTY, run).fates == []
  {
    if run != [] {
      IdleUntilStarted(run[..|run| - 1]);
    }
  }

  lemma {:induction false} NothingClosedYet(run: seq<Event>)
    requires After(EMPTY, run).waiting == NotCalled
    ensures ShutdownInv(After(EMPTY, run))
  {
    if run == [] {
      RunKeepsInv([]);
    } else {
      var s := After(EMPTY, run[..|run| - 1]);
      assert s.waiting == NotCalled;
      NothingClosedYet(run[..|run| - 1]);
      hide ShutdownInv;
      StepKeepsShutdownInv(s, run[|run| - 1]);
    }
  }

  /** From a state in which the invariant holds and the worker was started, it holds for good. */
  lemma {:induction false} StartedStaysSafe(q: Queue, rest: seq<Event>)
    requires ShutdownInv(q) && q.worker != NotStarted
    ensures ShutdownInv(After(q, rest)) && After(q, rest).worker != NotStarted
  {
    hide ShutdownInv;
    if rest != [] {
      StartedStaysSafe(q, rest[..|rest| - 1]);
      var t := After(q, rest[..|rest| - 1]);
      StepKeepsShutdownInv(t, rest[|rest| - 1]);
    }
  }

  /** When Shutdown may be called: it keeps its promise in every continuation - the wait group not misused, and
      worker and handlers gone once it has returned - exactly if Start was called before. */
  lemma ShutdownSafeIffStarted(run: seq<Event>)
    requires After(EMPTY, run).waiting == NotCalled
    ensures (forall rest :: ShutdownInv(After(Step(After(EMPTY, run), ClosingStop), rest)))
            <==> After(EMPTY, run).worker != NotStarted
  {
    NothingClosedYet(run);
    var q := After(EMPTY, run);
    var closing := Step(q, ClosingStop);
    if q.worker != NotStarted {
      StepKeepsShutdownInv(q, ClosingStop);
      forall rest ensures ShutdownInv(After(closing, rest)) {
        StartedStaysSafe(closing, rest);
      }
    } else {
      IdleUntilStarted(run);
      ReturnsTooEarly(q);
    }
  }

  lemma ReturnsTooEarly(q: Queue)
    requires Inv(q) && q.waiting == NotCalled && q.worker == NotStarted && q.fates == []
    ensures !ShutdownInv(After(Step(q, ClosingStop), [Returning, Starting]))
  {
    var early := [Returning, Starting];
    var closing := Step(q, ClosingStop);
    assert q.running == {} by { assert q.running <= Dispatched(q.fates) == {}; }
    assert Step(closing, Returning).waiting == Returned;
    assert After(closing, early) == Step(Step(closing, Returning), Starting) by {
      hide Step;
      assert early[..1] == [Returning] && [Returning][..0] == [];
      assert After(closing, []) == closing;
    }
  }

  /** Called before Start, Shutdown returns at once, and handlers can still start afterwards. */
  lemma ShutdownBeforeStart(t: Task)
    ensures var returned := Step(Step(EMPTY, ClosingStop), Returning);
            var fed := Step(Step(returned, Handling(t.kind)), Enqueuing(t));
            var found := Step(Step(Step(fed, Starting), Receiving), LookingUp);
            returned.waiting == Returned && Step(found, Spawning).waiting == Returned
            && Step(found, Spawning).running == {0}
  {
    var returned := Step(Step(EMPTY, ClosingStop), Returning);
    assert returned == EMPTY.(stop := true, waiting := Returned);
    var fed := Step(Step(returned, Handling(t.kind)), Enqueuing(t));
    assert fed == returned.(handlers := {t.kind}, chan := [t], enqueued := [t]);
  }

  // ---------------------------------------------------------------- the objects

  /** The channel with the client and the server around it; `view` is the state above, whose history fields
      have no counterpart in the source. */
  class InMemoryQueue {
    var taskChan: seq<Task>
    var handlers: set<string>
    var stop: bool
    var wg: nat
    var worker: Worker
    ghost var view: Queue

    ghost predicate Valid()
      reads this
    {
      && view.chan == taskChan && view.handlers == handlers && view.stop == stop && view.wg == wg
      && view.worker == worker && Inv(view)
    }

    constructor ()
      ensures Valid() && view == EMPTY
    {
      taskChan, handlers, stop, wg, worker := [], {}, false, 0, NotStarted;
      view := EMPTY;
      new;
      RunKeepsInv([]);
    }

    method EnqueueTask(task: Task) returns (ok: bool)
      requires Valid()
      modifies this
      ensures Valid() && view == Enqueue(old(view), task) && ok == (|old(taskChan)| < 1000)
    {
      hide Inv;
      StepKeepsInv(view, Enqueuing(task));
      view := Enqueue(view, task);
      if |taskChan| < CAPACITY {
        taskChan := taskChan + [task];
        return true;
      }
      return false;
    }

    method HandleFunc(pattern: string)
      requires Valid()
      modifies this
      ensures Valid() && view == Step(old(view), Handling(pattern))
    {
      hide Inv;
      StepKeepsInv(view, Handling(pattern));
      view := Step(view, Handling(pattern));
      handlers := handlers + {pattern};
    }

    method StartWorker()
      requires Valid() && worker == NotStarted
      modifies this
      ensures Valid() && view == Start(old(view))
    {
      hide Inv;
      StepKeepsInv(view, Starting);
      view := Start(view);
      wg := wg + 1;
      worker := Selecting;
    }

    /** The select of the worker, when a task is chosen. */
    method ReceiveTask()
      requires Valid() && worker == Selecting && taskChan != []
      modifies this
      ensures Valid() && view == Receive(old(view))
    {
      hide Inv;
      StepKeepsInv(view, Receiving);
      view := Receive(view);
      worker := Received(taskChan[0]);
      taskChan := taskChan[1..];
    }

    /** ... and when the closed stop channel is chosen. */
    method ExitWorker()
      requires Valid() && worker == Selecting && stop
      modifies this
      ensures Valid() && view == Exit(old(view))
    {
      hide Inv;
      CountsWorkerAndHandlers(view);
      StepKeepsInv(view, Exiting);
      view := Exit(view);
      worker := Exited;
      wg := wg - 1;
    }

    method LookUpHandler()
      requires Valid() && worker.Received?
      modifies this
      ensures Valid() && view == LookUp(old(view))
    {
      hide Inv;
      StepKeepsInv(view, LookingUp);
      view := LookUp(view);
      worker := if worker.task.kind in handlers then Found(worker.task) else Selecting;
    }

    method SpawnHandler()
      requires Valid() && worker.Found?
      modifies this
      ensures Valid() && view == Spawn(old(view))
    {
      hide Inv;
      StepKeepsInv(view, Spawning);
      view := Spawn(view);
      wg := wg + 1;
      worker := Selecting;
    }

    method FinishHandler(i: nat)
      requires Valid() && i in view.running
      modifies this
      ensures Valid() && view == Finish(old(view), i)
    {
      hide Inv;
      CountsWorkerAndHandlers(view);
      StepKeepsInv(view, Finishing(i));
      view := Finish(view, i);
      wg := wg - 1;
    }

    method Shutdown()
      requires Valid() && !stop
      modifies this
      ensures Valid() && view == CloseStop(old(view))
    {
      StepKeepsInv(view, ClosingStop);
      view := CloseStop(view);
      stop := true;
    }

    /** The end of Wait. */
    method WaitReturn()
      requires Valid() && view.waiting == InWait && wg == 0
      modifies this
      ensures Valid() && view == WaitReturns(old(view))
    {
      hide Inv;
      StepKeepsInv(view, Returning);
      view := WaitReturns(view);
    }
  }
}
