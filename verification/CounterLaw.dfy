/** Counters kept as decimal text behave as integers (internal/cache/memory.go:169-242). */
module CounterLaw {
  import opened Wrappers
  import opened Decimals
  import opened TimedMaps

  /** The reference counter: increments minus decrements since the key was last absent or expired. */
  datatype Tally = Absent | Counting(net: int, deadline: Option<int>)

  predicate Lives(t: Tally, now: int) { t.Counting? && !(t.deadline.Some? && now > t.deadline.value) }

  function Add(t: Tally, delta: int, now: int): Tally {
    if Lives(t, now) then t.(net := t.net + delta) else Counting(delta, None)
  }

  /** The operation touches the key only as a counter, or not at all. */
  predicate CountsOnly(op: Op, key: string) {
    match op
    case Get(_) => true
    case Exists(_) => true
    case Set(k, _, _) => k != key
    case Delete(k) => k != key
    case DeleteMany(keys) => key !in keys
    case DeleteByPrefix(prefix) => !HasPrefix(key, prefix)
    case Increment(_) => true
    case Decrement(_) => true
    case Expire(_, _) => true
    case Close => false
  }

  function TallyOp(t: Tally, key: string, op: Op, now: int, later: int): Tally {
    if op == Increment(key) then Add(t, 1, now)
    else if op == Decrement(key) then Add(t, -1, now)
    else if op.Expire? && op.key == key && Lives(t, now) then t.(deadline := Deadline(op.ttl, later))
    else t
  }

  ghost predicate CounterRun(run: seq<Event>, key: string) {
    forall e <- run :: e.Operating? ==> CountsOnly(e.op, key)
  }

  /** The reference counter after a run that began at `start` with the key absent. */
  function Tallied(start: Timed, key: string, run: seq<Event>): Tally {
    if run == [] then Absent
    else
      var front, e := run[..|run| - 1], run[|run| - 1];
      var now := After(start, front).clock + e.wait;
      if e.Cleaning? then Tallied(start, key, front)
      else TallyOp(Tallied(start, key, front), key, e.op, now, now + e.skew)
  }

  /** Store and reference agree on the key from `now` on. */
  ghost predicate Agrees(m: Store, t: Tally, key: string, now: int) {
    if Lives(t, now) then key in m && m[key] == Entry(Print(Wrap(t.net)), t.deadline)
    else !Live(m, key, now)
  }

  lemma AgreesLater(m: Store, t: Tally, key: string, now: int, later: int)
    requires Agrees(m, t, key, now) && now <= later
    ensures Agrees(m, t, key, later)
  {
  }

  lemma AddAgrees(m: Store, t: Tally, key: string, delta: int, now: int)
    requires Agrees(m, t, key, now) && -1 <= delta <= 1
    ensures AddTo(m, key, delta, now).1 == Number(Wrap(Add(t, delta, now).net))
    ensures Agrees(AddTo(m, key, delta, now).0, Add(t, delta, now), key, now)
  {
    hide Print, Parse, Wrap;
    WrapSmall(delta);
    if Lives(t, now) {
      RoundTrip(Wrap(t.net));
      WrapAdd(t.net, delta);
    }
  }

  lemma WrapSmall(delta: int)
    requires -1 <= delta <= 1
    ensures Wrap(delta) == delta
  {
  }

  lemma ApplyAgrees(m: Store, t: Tally, key: string, op: Op, now: int, later: int)
    requires Agrees(m, t, key, now) && now <= later && CountsOnly(op, key)
    ensures Agrees(Apply(m, op, now, later).0, TallyOp(t, key, op, now, later), key, later)
  {
    hide Print, Parse, Wrap;
    match op
    case Increment(k) =>
      if k == key {
        AddAgrees(m, t, key, 1, now);
        AgreesLater(AddTo(m, key, 1, now).0, Add(t, 1, now), key, now, later);
      }
    case Decrement(k) =>
      if k == key {
        AddAgrees(m, t, key, -1, now);
        AgreesLater(AddTo(m, key, -1, now).0, Add(t, -1, now), key, now, later);
      }
    case _ =>
  }

  lemma AbsentAgrees(m: Store, key: string, now: int)
    requires key !in m
    ensures Agrees(m, Absent, key, now)
  {
  }

  lemma CleanupAgrees(m: Store, t: Tally, key: string, doomed: set<string>, now: int)
    requires Agrees(m, t, key, now)
    ensures Agrees(Cleanup(m, doomed, now), t, key, now)
  {
  }

  lemma {:induction false} RunAgreesWithTally(start: Timed, key: string, run: seq<Event>)
    requires key !in start.store && CounterRun(run, key)
    ensures Agrees(After(start, run).store, Tallied(start, key, run), key, After(start, run).clock)
  {
    hide Apply, TallyOp, CountsOnly, Cleanup, Agrees, Print, Wrap;
    if run == [] {
      AbsentAgrees(start.store, key, start.clock);
    } else {
      var front, e := run[..|run| - 1], run[|run| - 1];
      RunAgreesWithTally(start, key, front);
      var s, t := After(start, front), Tallied(start, key, front);
      var now := s.clock + e.wait;
      AgreesLater(s.store, t, key, s.clock, now);
      if e.Operating? {
        ApplyAgrees(s.store, t, key, e.op, now, now + e.skew);
      } else {
        CleanupAgrees(s.store, t, key, e.doomed, now);
      }
    }
  }

  /** The counter law: over any run that touches a key only by Increment, Decrement, Expire and cleanup (and
      reads), what Increment and Decrement return is increments minus decrements since the key was last absent
      or expired, wrapped to int64 - and that number itself as long as it is an int64. */
  lemma CounterReturnsNet(start: Timed, key: string, run: seq<Event>, e: Event)
    requires key !in start.store && CounterRun(run, key)
    requires e.Operating? && (e.op == Increment(key) || e.op == Decrement(key))
    ensures var t := Tallied(start, key, run + [e]);
            && t.Counting?
            && After(start, run + [e]).replies == After(start, run).replies + [Number(Wrap(t.net))]
            && (IsInt64(t.net) ==> Wrap(t.net) == t.net)
  {
    hide Print, Parse, Wrap;
    assert (run + [e])[..|run|] == run;
    RunAgreesWithTally(start, key, run);
    var s, t := After(start, run), Tallied(start, key, run);
    AgreesLater(s.store, t, key, s.clock, s.clock + e.wait);
    AddAgrees(s.store, t, key, if e.op.Increment? then 1 else -1, s.clock + e.wait);
  }
}
