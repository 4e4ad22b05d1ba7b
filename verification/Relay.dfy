/** The way from the outbox table to the handlers: any number of publishers poll, hand over entry by entry, and
    mark (internal/outbox/outbox.go:217-252); the PublisherFunc of cmd/server/setup/server.go marshals the
    payload and enqueues it, and only logs a failure; the in-memory queue dispatches. Publishers may fail or
    stop between any two of these steps.

    A run is any sequence of events; an event that cannot happen leaves the state as it is. */
module Relays {
  import opened Wrappers
  import opened Outboxes
  import Q = Queues

  /** A publisher inside Process: its batch, how far it got, and publishedIDs. */
  datatype Publishing = Publishing(batch: seq<Row>, next: nat, ids: seq<Id>)

  /** `handed[h]` is the entry of the h-th hand-over; `rejected` are the hand-overs that did not reach the
      queue, `full` those of them that found it full. */
  datatype Relay = Relay(rows: seq<Row>, publishing: map<nat, Publishing>, handed: seq<Row>, queue: Q.Queue,
                         rejected: set<nat>, full: set<nat>)

  const START := Relay([], map[], [], Q.EMPTY, {}, {})

  datatype Event =
    | Committing(id: Id, name: string, payload: Payload)
    | Polling(p: nat, limit: nat)
    | Handing(p: nat, marshals: bool)
    | Marking(p: nat, ok: bool)
    | Stopping(p: nat)
    | Queueing(e: Q.Event)

  function Commit(s: Relay, id: Id, name: string, payload: Payload): Relay {
    var stored := Stored(s.rows, id, name, payload);
    if stored.None? then s else s.(rows := stored.value)
  }

  function Poll(s: Relay, p: nat, limit: nat): Relay {
    if p in s.publishing then s
    else s.(publishing := s.publishing[p := Publishing(Batch(s.rows, limit), 0, [])])
  }

  /** The closure passed to NewPublisher: marshal, enqueue, and at most log. */
  function Publish(s: Relay, row: Row, marshals: bool): Relay
    requires row.payload.Object?
  {
    var h := |s.handed|;
    var t := s.(handed := s.handed + [row]);
    var task := Q.Task(h, row.name, row.payload.fields);
    if marshals && Q.Accepts(s.queue) then t.(queue := Q.Enqueue(s.queue, task))
    else t.(rejected := s.rejected + {h}, full := if marshals then s.full + {h} else s.full)
  }

  function Hand(s: Relay, p: nat, marshals: bool): Relay {
    if p !in s.publishing || s.publishing[p].next >= |s.publishing[p].batch| then s
    else
      var local := s.publishing[p];
      var row := local.batch[local.next];
      if row.payload.Undecodable? then s.(publishing := s.publishing[p := local.(next := local.next + 1)])
      else Publish(s, row, marshals).(publishing :=
        s.publishing[p := local.(next := local.next + 1, ids := local.ids + [row.id])])
  }

  function Mark(s: Relay, p: nat, ok: bool): Relay {
    if p !in s.publishing || s.publishing[p].next < |s.publishing[p].batch| then s
    else s.(rows := if ok then Marked(s.rows, s.publishing[p].ids) else s.rows, publishing := s.publishing - {p})
  }

  function Step(s: Relay, e: Event): Relay {
    match e
    case Committing(id, name, payload) => Commit(s, id, name, payload)
    case Polling(p, limit) => Poll(s, p, limit)
    case Handing(p, marshals) => Hand(s, p, marshals)
    case Marking(p, ok) => Mark(s, p, ok)
    case Stopping(p) => s.(publishing := s.publishing - {p})
    case Queueing(qe) => if qe.Enqueuing? then s else s.(queue := Q.Step(s.queue, qe))
  }

  function After(s: Relay, run: seq<Event>): Relay {
    if run == [] then s else Step(After(s, run[..|run| - 1]), run[|run| - 1])
  }

  // ---------------------------------------------------------------- marked only after handed over

  ghost predicate WasHanded(s: Relay, id: Id) {
    exists h | 0 <= h < |s.handed| :: s.handed[h].id == id
  }

  ghost predicate PublishedWereHanded(s: Relay) {
    && (forall r <- s.rows | r.published :: WasHanded(s, r.id))
    && (forall p <- s.publishing :: forall id <- s.publishing[p].ids :: WasHanded(s, id))
  }

  lemma HandedGrows(s: Relay, e: Event)
    ensures s.handed <= Step(s, e).handed
    ensures forall id :: WasHanded(s, id) ==> WasHanded(Step(s, e), id)
  {
    assert s.handed <= Step(s, e).handed;
    assert forall h | 0 <= h < |s.handed| :: Step(s, e).handed[h] == s.handed[h];
  }

  lemma HandKeepsPublishedHanded(s: Relay, p: nat, marshals: bool)
    requires PublishedWereHanded(s)
    ensures PublishedWereHanded(Hand(s, p, marshals))
  {
    var t := Hand(s, p, marshals);
    HandedGrows(s, Handing(p, marshals));
    forall q <- t.publishing, id | id in t.publishing[q].ids ensures WasHanded(t, id) {
      if q == p && id !in s.publishing[p].ids {
        assert t.handed[|s.handed|].id == id;
      }
    }
  }

  lemma StepKeepsPublishedHanded(s: Relay, e: Event)
    requires PublishedWereHanded(s)
    ensures PublishedWereHanded(Step(s, e))
  {
    HandedGrows(s, e);
    match e
    case Handing(p, marshals) => HandKeepsPublishedHanded(s, p, marshals);
    case Marking(p, ok) =>
      var t := Mark(s, p, ok);
      forall r <- t.rows | r.published ensures WasHanded(t, r.id) {
        var i :| 0 <= i < |t.rows| && t.rows[i] == r;
        assert s.rows[i].id == r.id && s.rows[i] in s.rows;
      }
    case _ =>
  }

  /** In every run, with any number of publishers stopping anywhere, an entry marked published was handed to
      the PublisherFunc before: failures can repeat a hand-over but never skip one. */
  lemma {:induction false} MarkedOnlyAfterHandedOver(run: seq<Event>)
    ensures PublishedWereHanded(After(START, run))
  {
    if run != [] {
      MarkedOnlyAfterHandedOver(run[..|run| - 1]);
      StepKeepsPublishedHanded(After(START, run[..|run| - 1]), run[|run| - 1]);
    }
  }

  // ---------------------------------------------------------------- conservation of hand-overs

  ghost function Hands(tasks: seq<Q.Task>): set<nat> { set i | 0 <= i < |tasks| :: tasks[i].hand }

  ghost predicate Increasing(tasks: seq<Q.Task>) {
    forall i, j | 0 <= i < j < |tasks| :: tasks[i].hand < tasks[j].hand
  }

  /** The numbers below n. */
  function Upto(n: nat): (r: set<nat>)
    ensures forall h: nat :: h in r <==> h < n
  {
    if n == 0 then {} else Upto(n - 1) + {n - 1}
  }

  ghost predicate Conserved(s: Relay) {
    && Q.Inv(s.queue) && Increasing(s.queue.enqueued)
    && Hands(s.queue.enqueued) + s.rejected == Upto(|s.handed|) && Hands(s.queue.enqueued) !! s.rejected
    && s.full <= s.rejected
  }

  lemma HandsConcat(a: seq<Q.Task>, b: seq<Q.Task>)
    ensures Hands(a + b) == Hands(a) + Hands(b)
    ensures Increasing(a + b) ==> Hands(a) !! Hands(b) && Increasing(a) && Increasing(b)
  {
    forall h | h in Hands(a) + Hands(b) ensures h in Hands(a + b) {
      if h in Hands(a) {
        var i :| 0 <= i < |a| && a[i].hand == h;
        assert (a + b)[i].hand == h;
      } else {
        var i :| 0 <= i < |b| && b[i].hand == h;
        assert (a + b)[|a| + i].hand == h;
      }
    }
    if Increasing(a + b) {
      forall i, j | 0 <= i < j < |a| ensures a[i].hand < a[j].hand {
        assert (a + b)[i].hand < (a + b)[j].hand;
      }
      forall i, j | 0 <= i < j < |b| ensures b[i].hand < b[j].hand {
        assert (a + b)[|a| + i].hand < (a + b)[|a| + j].hand;
      }
      forall i, j | 0 <= i < |a| && 0 <= j < |b| ensures a[i].hand < b[j].hand {
        assert (a + b)[i].hand < (a + b)[|a| + j].hand;
      }
    }
  }

  lemma AppendHand(tasks: seq<Q.Task>, t: Q.Task)
    requires Increasing(tasks) && forall h <- Hands(tasks) :: h < t.hand
    ensures Hands(tasks + [t]) == Hands(tasks) + {t.hand} && Increasing(tasks + [t])
  {
    HandsConcat(tasks, [t]);
    assert Hands([t]) == {t.hand} by { assert [t][0].hand == t.hand; }
    assert forall i | 0 <= i < |tasks| :: tasks[i].hand in Hands(tasks);
  }

  lemma PublishConserves(s: Relay, row: Row, marshals: bool)
    requires Conserved(s) && row.payload.Object?
    ensures Conserved(Publish(s, row, marshals))
  {
    hide Hands, Increasing, Q.Inv;
    var h := |s.handed|;
    assert Upto(h + 1) == Upto(h) + {h};
    AppendHand(s.queue.enqueued, Q.Task(h, row.name, row.payload.fields));
    Q.EnqueueKeepsInv(s.queue, Q.Task(h, row.name, row.payload.fields));
  }

  lemma QueueStepKeepsEnqueued(q: Q.Queue, e: Q.Event)
    requires !e.Enqueuing?
    ensures Q.Step(q, e).enqueued == q.enqueued
  {
  }

  lemma StepConserves(s: Relay, e: Event)
    requires Conserved(s)
    ensures Conserved(Step(s, e))
  {
    hide Hands, Increasing, Q.Inv, Publish;
    match e
    case Handing(p, marshals) =>
      if p in s.publishing && s.publishing[p].next < |s.publishing[p].batch| {
        var row := s.publishing[p].batch[s.publishing[p].next];
        if row.payload.Object? {
          PublishConserves(s, row, marshals);
        }
      }
    case Queueing(qe) =>
      Q.StepKeepsInv(s.queue, qe);
      if !qe.Enqueuing? {
        QueueStepKeepsEnqueued(s.queue, qe);
      }
    case _ =>
  }

  lemma {:induction false} RunConserves(run: seq<Event>)
    ensures Conserved(After(START, run))
  {
    if run == [] {
      Q.RunKeepsInv([]);
    } else {
      RunConserves(run[..|run| - 1]);
      StepConserves(After(START, run[..|run| - 1]), run[|run| - 1]);
    }
  }

  /** The hand-overs given to a handler, and those dropped for lack of one. */
  ghost function DispatchedHands(q: Q.Queue): set<nat> {
    set i | 0 <= i < |q.fates| && q.fates[i].dispatched :: q.fates[i].task.hand
  }

  ghost function DroppedHands(q: Q.Queue): set<nat> {
    set i | 0 <= i < |q.fates| && !q.fates[i].dispatched :: q.fates[i].task.hand
  }

  /** Five sets are disjoint, and `whole` is their union. */
  ghost predicate Partition(whole: set<nat>, a: set<nat>, b: set<nat>, c: set<nat>, d: set<nat>, e: set<nat>) {
    whole == a + b + c + d + e && a !! b !! c !! d !! e
  }

  lemma FatesSplit(q: Q.Queue)
    requires Increasing(Q.Tasks(q.fates))
    ensures Hands(Q.Tasks(q.fates)) == DispatchedHands(q) + DroppedHands(q)
    ensures DispatchedHands(q) !! DroppedHands(q)
  {
    var tasks := Q.Tasks(q.fates);
    forall h | h in DispatchedHands(q) + DroppedHands(q) ensures h in Hands(tasks) {
      var i :| 0 <= i < |q.fates| && q.fates[i].task.hand == h;
      assert tasks[i].hand == h;
    }
    forall i, j | 0 <= i < |q.fates| && 0 <= j < |q.fates| && q.fates[i].dispatched && !q.fates[j].dispatched
      ensures q.fates[i].task.hand != q.fates[j].task.hand
    {
      assert tasks[i].hand == q.fates[i].task.hand && tasks[j].hand == q.fates[j].task.hand;
    }
  }

  /** In every run each hand-over has exactly one of five fates: it was rejected, it waits in the channel, the
      worker holds it, it was dispatched to a handler, or it was dropped for lack of one. */
  lemma EachHandOverHasOneFate(run: seq<Event>)
    ensures var s := After(START, run);
            Partition(Upto(|s.handed|), s.rejected, Hands(s.queue.chan), Hands(Q.Held(s.queue)),
                      DispatchedHands(s.queue), DroppedHands(s.queue))
  {
    RunConserves(run);
    var s := After(START, run);
    var q := s.queue;
    assert q.enqueued == Q.Tasks(q.fates) + Q.Held(q) + q.chan;
    hide Hands, Increasing, DispatchedHands, DroppedHands, Partition, Upto;
    HandsConcat(Q.Tasks(q.fates) + Q.Held(q), q.chan);
    HandsConcat(Q.Tasks(q.fates), Q.Held(q));
    FatesSplit(q);
    FiveParts(Upto(|s.handed|), s.rejected, Hands(q.chan), Hands(Q.Held(q)), DispatchedHands(q), DroppedHands(q));
  }

  lemma FiveParts(whole: set<nat>, a: set<nat>, b: set<nat>, c: set<nat>, d: set<nat>, e: set<nat>)
    requires whole == d + e + c + b + a
    requires d !! e && (d + e) !! c && (d + e + c) !! b && (d + e + c + b) !! a
    ensures Partition(whole, a, b, c, d, e)
  {
  }

  // ---------------------------------------------------------------- what the queue is given

  /** The task is made of the entry that was handed over: its name as the kind, its payload as the payload. */
  ghost predicate Carries(s: Relay, t: Q.Task) {
    && t.hand < |s.handed|
    && t.kind == s.handed[t.hand].name && s.handed[t.hand].payload == Object(t.payload)
  }

  ghost predicate TasksCarry(s: Relay) { forall t <- s.queue.enqueued :: Carries(s, t) }

  lemma StepKeepsTasksCarry(s: Relay, e: Event)
    requires TasksCarry(s)
    ensures TasksCarry(Step(s, e))
  {
    HandedGrows(s, e);
    if e.Queueing? && !e.e.Enqueuing? {
      QueueStepKeepsEnqueued(s.queue, e.e);
    }
    forall t <- Step(s, e).queue.enqueued ensures Carries(Step(s, e), t) {
      if t in s.queue.enqueued {
        assert Carries(s, t) && Step(s, e).handed[t.hand] == s.handed[t.hand];
      }
    }
  }

  /** In every run each task accepted by the queue carries the name and the payload of the entry that was handed
      over - also when it is dispatched. */
  lemma {:induction false} TasksCarryEntries(run: seq<Event>)
    ensures var s := After(START, run);
            TasksCarry(s) && forall f <- s.queue.fates :: Carries(s, f.task)
  {
    RunKeepsTasksCarry(run);
    RunConserves(run);
    var s := After(START, run);
    assert s.queue.enqueued == Q.Tasks(s.queue.fates) + Q.Held(s.queue) + s.queue.chan;
    forall f <- s.queue.fates ensures Carries(s, f.task) {
      var i :| 0 <= i < |s.queue.fates| && s.queue.fates[i] == f;
      assert s.queue.enqueued[i] == f.task;
    }
  }

  lemma {:induction false} RunKeepsTasksCarry(run: seq<Event>)
    ensures TasksCarry(After(START, run))
  {
    hide Step, Carries;
    if run != [] {
      RunKeepsTasksCarry(run[..|run| - 1]);
      StepKeepsTasksCarry(After(START, run[..|run| - 1]), run[|run| - 1]);
    }
  }

  lemma QueueOfStep(s: Relay, e: Event)
    ensures var q, r := s.queue, Step(s, e).queue;
            if e.Queueing? && !e.e.Enqueuing? then r == Q.Step(q, e.e)
            else r.fates == q.fates && r.handlers == q.handlers && r.worker == q.worker
  {
  }

  lemma FatesOfStep(q: Q.Queue, e: Q.Event)
    ensures q.handlers <= Q.Step(q, e).handlers && q.fates <= Q.Step(q, e).fates
    ensures |Q.Step(q, e).fates| > |q.fates| ==>
              && |Q.Step(q, e).fates| == |q.fates| + 1
              && (Q.Step(q, e).fates[|q.fates|].task.kind in q.handlers ==> Q.Step(q, e).fates[|q.fates|].dispatched)
  {
  }

  /** From a state in which a kind has a handler on, every task of that kind that is decided is dispatched. */
  lemma {:induction false} HandledStayHandled(s: Relay, rest: seq<Event>, i: nat)
    requires |s.queue.fates| <= i < |After(s, rest).queue.fates|
    requires After(s, rest).queue.fates[i].task.kind in s.queue.handlers
    ensures After(s, rest).queue.fates[i].dispatched
  {
    hide Step;
    var front, e := rest[..|rest| - 1], rest[|rest| - 1];
    var t := After(s, front);
    HandlersOnlyGrow(s, front);
    QueueOfStep(t, e);
    if i < |t.queue.fates| {
      if e.Queueing? {
        FatesOfStep(t.queue, e.e);
      }
      HandledStayHandled(s, front, i);
    } else {
      FatesOfStep(t.queue, e.e);
    }
  }

  lemma {:induction false} HandlersOnlyGrow(s: Relay, rest: seq<Event>)
    ensures s.queue.handlers <= After(s, rest).queue.handlers
  {
    hide Step;
    if rest != [] {
      var t := After(s, rest[..|rest| - 1]);
      HandlersOnlyGrow(s, rest[..|rest| - 1]);
      QueueOfStep(t, rest[|rest| - 1]);
      if rest[|rest| - 1].Queueing? {
        FatesOfStep(t.queue, rest[|rest| - 1].e);
      }
    }
  }

  lemma {:induction false} RunKeepsOnlyHandled(run: seq<Event>)
    ensures Q.OnlyHandled(After(START, run).queue)
  {
    hide Step;
    if run != [] {
      var s, e := After(START, run[..|run| - 1]), run[|run| - 1];
      RunKeepsOnlyHandled(run[..|run| - 1]);
      QueueOfStep(s, e);
      if e.Queueing? {
        Q.StepKeepsOnlyHandled(s.queue, e.e);
      }
    }
  }

  /** From the outbox to the handler: every task carries the name and the payload of the entry that was handed
      over; it is dispatched if that name had a handler, and only if it has one now. */
  lemma HandedEntriesReachTheirHandler(run: seq<Event>, rest: seq<Event>, i: nat)
    requires |After(START, run).queue.fates| <= i < |After(After(START, run), rest).queue.fates|
    ensures var s, t := After(START, run), After(After(START, run), rest);
            var fate := t.queue.fates[i];
            && fate.task.hand < |t.handed|
            && var entry := t.handed[fate.task.hand];
               && fate.task.kind == entry.name && entry.payload == Object(fate.task.payload)
               && (entry.name in s.queue.handlers ==> fate.dispatched)
               && (fate.dispatched ==> entry.name in t.queue.handlers)
  {
    hide Step;
    RunKeepsOnlyHandled(run + rest);
    var s, t := After(START, run), After(After(START, run), rest);
    AfterConcat(START, run, rest);
    TasksCarryEntries(run + rest);
    assert t.queue.fates[i] in t.queue.fates && Carries(t, t.queue.fates[i].task);
    if t.queue.fates[i].task.kind in s.queue.handlers {
      HandledStayHandled(s, rest, i);
    }
  }

  lemma {:induction false} AfterConcat(s: Relay, xs: seq<Event>, ys: seq<Event>)
    ensures After(s, xs + ys) == After(After(s, xs), ys)
  {
    hide Step;
    if ys == [] {
      assert xs + ys == xs;
    } else {
      AfterConcat(s, xs, ys[..|ys| - 1]);
      assert (xs + ys)[..|xs + ys| - 1] == xs + ys[..|ys| - 1];
    }
  }

  /** The closure passed to NewPublisher, on the queue object; `s` is the relay around it. */
  method PublishToQueue(queue: Q.InMemoryQueue, hand: nat, name: string, payload: map<string, string>,
                        marshals: bool, ghost s: Relay)
    requires queue.Valid() && s.queue == queue.view && hand == |s.handed|
    modifies queue
    ensures queue.Valid()
    ensures forall id: Id :: queue.view == Publish(s, Row(id, name, Object(payload), false), marshals).queue
    ensures queue.taskChan == old(queue.taskChan)
              + if marshals && |old(queue.taskChan)| < 1000 then [Q.Task(hand, name, payload)] else []
  {
    hide Q.Inv;
    if marshals {
      var _ := queue.EnqueueTask(Q.Task(hand, name, payload));
    }
  }

  // ---------------------------------------------------------------- room for a single publisher

  /** Only publisher 0 polls, and each time it finds at least `limit` free slots in the channel. */
  ghost predicate SinglePublisherWithRoom(run: seq<Event>) {
    forall i | 0 <= i < |run| && run[i].Polling? ::
      run[i].p == 0 && |After(START, run[..i]).queue.chan| + run[i].limit <= Q.CAPACITY
  }

  ghost predicate RoomForBatch(s: Relay) {
    && s.full == {} && s.publishing.Keys <= {0}
    && (0 in s.publishing ==>
          && s.publishing[0].next <= |s.publishing[0].batch|
          && |s.queue.chan| + (|s.publishing[0].batch| - s.publishing[0].next) <= Q.CAPACITY)
  }

  lemma ChannelOnlyShrinks(q: Q.Queue, e: Q.Event)
    requires !e.Enqueuing?
    ensures |Q.Step(q, e).chan| <= |q.chan|
  {
  }

  lemma StepKeepsRoom(s: Relay, e: Event)
    requires RoomForBatch(s)
    requires e.Polling? ==> e.p == 0 && |s.queue.chan| + e.limit <= Q.CAPACITY
    ensures RoomForBatch(Step(s, e))
  {
    match e
    case Queueing(qe) =>
      if !qe.Enqueuing? {
        ChannelOnlyShrinks(s.queue, qe);
      }
    case _ =>
  }

  /** A single publisher that finds a batch's worth of free slots at each poll never sees the queue full. */
  lemma {:induction false} NoRejectionWithRoom(run: seq<Event>)
    requires SinglePublisherWithRoom(run)
    ensures RoomForBatch(After(START, run)) && After(START, run).full == {}
  {
    if run != [] {
      var front := run[..|run| - 1];
      forall i | 0 <= i < |front| && front[i].Polling?
        ensures front[i].p == 0 && |After(START, front[..i]).queue.chan| + front[i].limit <= Q.CAPACITY
      {
        assert run[i] == front[i] && front[..i] == run[..i];
      }
      NoRejectionWithRoom(front);
      assert run[..|run| - 1] == front;
      StepKeepsRoom(After(START, front), run[|run| - 1]);
    }
  }

  // ---------------------------------------------------------------- Process, uninterrupted

  function HandAll(s: Relay, p: nat, n: nat): Relay {
    if n == 0 then s else Hand(HandAll(s, p, n - 1), p, true)
  }

  /** A publisher that has handed over the decodable ones of its first n entries. */
  ghost predicate HandedFirst(s: Relay, t: Relay, p: nat, batch: seq<Row>, n: nat)
    requires n <= |batch|
  {
    var done := Decodable(batch[..n]);
    && t.rows == s.rows && t.handed == s.handed + done
    && t.publishing == s.publishing[p := Publishing(batch, n, Ids(done))]
  }

  lemma HandOneMore(s: Relay, t: Relay, p: nat, batch: seq<Row>, n: nat)
    requires n < |batch| && HandedFirst(s, t, p, batch, n)
    ensures HandedFirst(s, Hand(t, p, true), p, batch, n + 1)
  {
    var done := Decodable(batch[..n]);
    var row := batch[n];
    assert batch[..n + 1][..n] == batch[..n];
    assert Decodable(batch[..n + 1]) == done + if row.payload.Object? then [row] else [];
    CallsGrow(done, row);
    var ids := if row.payload.Object? then Ids(done) + [row.id] else Ids(done);
    assert ids == Ids(Decodable(batch[..n + 1]));
    assert Hand(t, p, true).publishing == t.publishing[p := Publishing(batch, n + 1, ids)];
  }

  lemma {:induction false} HandAllHandsDecodable(s: Relay, p: nat, limit: nat, n: nat)
    requires p !in s.publishing && n <= |Batch(s.rows, limit)|
    ensures HandedFirst(s, HandAll(Poll(s, p, limit), p, n), p, Batch(s.rows, limit), n)
  {
    hide Batch, Hand;
    var batch := Batch(s.rows, limit);
    if n == 0 {
      assert Ids(Decodable(batch[..0])) == [];
    } else {
      HandAllHandsDecodable(s, p, limit, n - 1);
      hide HandedFirst;
      HandOneMore(s, HandAll(Poll(s, p, limit), p, n - 1), p, batch, n - 1);
    }
  }

  /** Without interruption, the steps of one publisher are exactly one call of Process. */
  lemma UninterruptedStepsAreProcess(s: Relay, p: nat, limit: nat)
    requires p !in s.publishing
    ensures var t := Mark(HandAll(Poll(s, p, limit), p, |Batch(s.rows, limit)|), p, true);
            && t.rows == Processed(s.rows, limit) && t.handed == s.handed + HandedOver(s.rows, limit)
            && t.publishing == s.publishing
  {
    var batch := Batch(s.rows, limit);
    HandAllHandsDecodable(s, p, limit, |batch|);
    assert batch[..|batch|] == batch;
  }

  // ---------------------------------------------------------------- what a full queue costs

  /** Of the entries in `done`, handed over from s on, the first `free` went into the channel; the others were
      rejected because it was full. */
  ghost predicate TailRejected(s: Relay, t: Relay, done: nat)
    requires |s.queue.chan| <= Q.CAPACITY
  {
    var free: nat := Q.CAPACITY - |s.queue.chan|;
    var tail := Upto(|t.handed|) - Upto(|s.handed| + free);
    && |t.handed| == |s.handed| + done && |t.queue.chan| == |s.queue.chan| + Min(done, free)
    && t.rejected == s.rejected + tail && t.full == s.full + tail
  }

  lemma PublishRejectsTail(s: Relay, t: Relay, done: nat, row: Row)
    requires |s.queue.chan| <= Q.CAPACITY && TailRejected(s, t, done) && row.payload.Object?
    ensures TailRejected(s, Publish(t, row, true), done + 1)
  {
    var h := |t.handed|;
    assert Upto(h + 1) == Upto(h) + {h};
  }

  lemma {:induction false} HandAllRejectsTail(s: Relay, p: nat, limit: nat, n: nat)
    requires p !in s.publishing && n <= |Batch(s.rows, limit)| && |s.queue.chan| <= Q.CAPACITY
    ensures TailRejected(s, HandAll(Poll(s, p, limit), p, n), |Decodable(Batch(s.rows, limit)[..n])|)
  {
    hide Batch, Publish;
    var batch := Batch(s.rows, limit);
    if n == 0 {
      assert Decodable(batch[..0]) == [];
    } else {
      HandAllRejectsTail(s, p, limit, n - 1);
      HandAllHandsDecodable(s, p, limit, n - 1);
      assert batch[..n][..n - 1] == batch[..n - 1];
      var t := HandAll(Poll(s, p, limit), p, n - 1);
      if batch[n - 1].payload.Object? {
        PublishRejectsTail(s, t, |Decodable(batch[..n - 1])|, batch[n - 1]);
      }
    }
  }

  /** What the outbox does not promise: Process marks every decodable entry of its batch, but only as many as
      there are free slots get into the queue. The rest are rejected, marked all the same and so never handed
      over again; nothing is lost exactly when the decodable entries of the batch fit into the channel. */
  lemma ProcessLosesNothingIffBatchFits(run: seq<Event>, p: nat, limit: nat)
    requires p !in After(START, run).publishing
    ensures var s := After(START, run);
            var t := Mark(HandAll(Poll(s, p, limit), p, |Batch(s.rows, limit)|), p, true);
            var free := Q.CAPACITY - |s.queue.chan|;
            && free >= 0 && TailRejected(s, t, |HandedOver(s.rows, limit)|)
            && t.rows == Processed(s.rows, limit)
            && (t.rejected == s.rejected <==> |HandedOver(s.rows, limit)| <= free)
  {
    hide After, HandAll, Batch, Conserved, TailRejected;
    RunConserves(run);
    var s := After(START, run);
    var batch := Batch(s.rows, limit);
    assert batch[..|batch|] == batch;
    UninterruptedStepsAreProcess(s, p, limit);
    ConservedBounds(s);
    HandAllRejectsTail(s, p, limit, |batch|);
    MarkRejectsNoMore(s, HandAll(Poll(s, p, limit), p, |batch|), p, |HandedOver(s.rows, limit)|);
  }

  lemma ConservedBounds(s: Relay)
    requires Conserved(s)
    ensures |s.queue.chan| <= Q.CAPACITY && forall h <- s.rejected :: h < |s.handed|
  {
    assert forall h <- s.rejected :: h in Upto(|s.handed|);
  }

  lemma MarkRejectsNoMore(s: Relay, done: Relay, p: nat, n: nat)
    requires |s.queue.chan| <= Q.CAPACITY && TailRejected(s, done, n) && forall h <- s.rejected :: h < |s.handed|
    ensures TailRejected(s, Mark(done, p, true), n)
    ensures Mark(done, p, true).rejected == s.rejected <==> n <= Q.CAPACITY - |s.queue.chan|
  {
    var last := |s.handed| + n - 1;
    if n > Q.CAPACITY - |s.queue.chan| {
      assert last in done.rejected;
    }
  }
}
