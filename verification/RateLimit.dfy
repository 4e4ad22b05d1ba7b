/** The shared request counter of internal/middleware/rate_limit.go:93-107 over the memory cache: Increment, then
    Expire by whoever got 1, with any number of callers and the cleanup in between. */
module RateWindows {
  import opened Wrappers
  import opened Decimals
  import opened TimedMaps
  import opened MemoryCaches

  /** In nanoseconds, as the clock. */
  const SECOND: int := 1_000_000_000

  function KeyFor(ip: string): string { "ratelimit:" + ip }

  /** Different addresses have different counters. */
  lemma KeyForInjective(ip: string, other: string)
    ensures KeyFor(ip) == KeyFor(other) <==> ip == other
    ensures "ratelimit:" <= KeyFor(ip)
  {
    assert KeyFor(ip)[10..] == ip && KeyFor(other)[10..] == other;
  }

  predicate Blocked(count: int, burst: int) { count > burst * 2 }

  /** `log` holds the counts returned so far; a caller is known by its place in it. `unarmed` are the callers that
      got 1 and have not run Expire yet. */
  datatype Window = Window(store: Store, clock: int, log: seq<int>, unarmed: set<nat>)

  datatype Event =
    | Arrive(wait: nat)
    | Arm(caller: nat, wait: nat, skew: nat)
    | Cleaning(doomed: set<string>, wait: nat)
    | Elsewhere(op: Op, wait: nat, skew: nat)

  function Step(s: Window, key: string, e: Event): Window {
    match e
    case Arrive(wait) =>
      var now := s.clock + wait;
      var (m, reply) := Apply(s.store, Increment(key), now, now);
      if reply.Number? then
        Window(m, now, s.log + [reply.number], if reply.number == 1 then s.unarmed + {|s.log|} else s.unarmed)
      else s.(clock := now)
    case Arm(caller, wait, skew) =>
      if caller !in s.unarmed then s
      else
        var now := s.clock + wait;
        s.(store := Apply(s.store, Expire(key, SECOND), now, now + skew).0, clock := now + skew,
           unarmed := s.unarmed - {caller})
    case Cleaning(doomed, wait) => s.(store := Cleanup(s.store, doomed, s.clock + wait), clock := s.clock + wait)
    case Elsewhere(op, wait, skew) =>
      if !LeavesAlone(op, key) then s
      else
        var now := s.clock + wait;
        s.(store := Apply(s.store, op, now, now + skew).0, clock := now + skew)
  }

  function After(s: Window, key: string, run: seq<Event>): Window {
    if run == [] then s else Step(After(s, key, run[..|run| - 1]), key, run[|run| - 1])
  }

  predicate Fresh(s: Window, key: string) { key !in s.store && s.log == [] && s.unarmed == {} }

  // ---------------------------------------------------------------- the invariant

  /** Every count is 1 or one more than the count before it. */
  predicate Consecutive(log: seq<int>) {
    forall i | 0 <= i < |log| :: log[i] == 1 || (i > 0 && log[i] == log[i - 1] + 1)
  }

  function Last(log: seq<int>): int
    requires log != []
  {
    log[|log| - 1]
  }

  /** The place of the latest count of 1. */
  function LatestReset(log: seq<int>): int
    requires log != []
  {
    |log| - Last(log)
  }

  ghost predicate Inv(s: Window, key: string) {
    && Consecutive(s.log)
    && (s.log != [] ==> 1 <= Last(s.log) <= |s.log|)
    && (s.unarmed != {} ==>
          && s.log != [] && s.unarmed == {LatestReset(s.log)}
          && key in s.store && s.store[key] == Entry(Print(Last(s.log)), None))
    && (s.unarmed == {} && key in s.store ==>
          && s.log != [] && s.store[key].value == Print(Last(s.log))
          && s.store[key].deadline.Some? && s.store[key].deadline.value <= s.clock + SECOND)
  }

  lemma ArriveCounts(s: Window, key: string, wait: nat)
    requires Inv(s, key) && |s.log| < MAX_INT64
    ensures var now := s.clock + wait;
            var (m, reply) := Apply(s.store, Increment(key), now, now);
            if Live(s.store, key, now) then
              && s.log != []
              && reply == Number(Last(s.log) + 1)
              && m == s.store[key := s.store[key].(value := Print(Last(s.log) + 1))]
            else m == s.store[key := Entry(Print(1), None)] && reply == Number(1)
  {
    hide Print, Parse;
    if Live(s.store, key, s.clock + wait) {
      RoundTrip(Last(s.log));
    }
  }

  lemma LogGrows(log: seq<int>, count: int)
    requires Consecutive(log) && (count == 1 || (log != [] && count == Last(log) + 1))
    ensures Consecutive(log + [count])
  {
  }

  lemma ArriveKeepsInv(s: Window, key: string, wait: nat)
    requires Inv(s, key) && |s.log| < MAX_INT64
    ensures Inv(Step(s, key, Arrive(wait)), key)
  {
    hide Print, Parse, Wrap, Apply, Consecutive;
    ArriveCounts(s, key, wait);
    LogGrows(s.log, if Live(s.store, key, s.clock + wait) then Last(s.log) + 1 else 1);
  }

  lemma OtherStepsKeepInv(s: Window, key: string, e: Event)
    requires Inv(s, key) && !e.Arrive?
    ensures Inv(Step(s, key, e), key)
  {
    hide Print, Parse, Wrap, Consecutive;
  }

  lemma LogOnlyGrows(s: Window, key: string, e: Event)
    ensures s.log <= Step(s, key, e).log
    ensures s.clock <= Step(s, key, e).clock
  {
    hide Apply;
  }

  lemma {:induction false} RunKeepsInv(s: Window, key: string, run: seq<Event>)
    requires Inv(s, key) && |After(s, key, run).log| <= MAX_INT64
    ensures Inv(After(s, key, run), key) && s.log <= After(s, key, run).log
  {
    hide Inv, Step;
    if run != [] {
      var front, e := run[..|run| - 1], run[|run| - 1];
      var t := After(s, key, front);
      LogOnlyGrows(t, key, e);
      RunKeepsInv(s, key, front);
      if e.Arrive? {
        ArrivalIsLogged(t, key, e.wait);
        ArriveKeepsInv(t, key, e.wait);
      } else {
        OtherStepsKeepInv(t, key, e);
      }
    }
  }

  lemma FreshHasInv(s: Window, key: string)
    requires Fresh(s, key)
    ensures Inv(s, key)
  {
  }

  /** Under the invariant the counter always parses, so every arrival gets a count. */
  lemma ArrivalIsLogged(s: Window, key: string, wait: nat)
    requires Inv(s, key) && |s.log| <= MAX_INT64
    ensures |Step(s, key, Arrive(wait)).log| == |s.log| + 1
  {
    hide Print, Parse, Wrap;
    if Live(s.store, key, s.clock + wait) {
      RoundTrip(Last(s.log));
    }
  }

  /** The window invariant: a live counter has no deadline exactly while one caller that got 1 has not armed it;
      that caller is the latest one that got 1, and there is never a second. */
  lemma NoDeadlineWhileUnarmed(s: Window, key: string, run: seq<Event>)
    requires Fresh(s, key) && |After(s, key, run).log| <= MAX_INT64
    ensures var t := After(s, key, run);
            && (key in t.store ==> t.log != [] && (t.store[key].deadline.None? <==> t.unarmed != {}))
            && (t.unarmed != {} ==> Live(t.store, key, t.clock) && t.log != [] && t.unarmed == {LatestReset(t.log)})
            && (t.log != [] ==> IsReset(t.log, LatestReset(t.log)))
            && (key in t.store && t.unarmed == {} ==> t.store[key].deadline.value <= t.clock + SECOND)
  {
    hide After, Consecutive;
    FreshHasInv(s, key);
    RunKeepsInv(s, key, run);
    var t := After(s, key, run);
    if t.log != [] {
      CountsSinceReset(t.log);
    }
  }

  predicate IsReset(log: seq<int>, i: int) {
    0 <= i < |log| && log[i] == 1 && forall k | i < k < |log| :: log[k] != 1
  }

  lemma {:induction false} CountsSinceReset(log: seq<int>)
    requires Consecutive(log) && log != []
    ensures IsReset(log, LatestReset(log))
    ensures forall k | LatestReset(log) <= k < |log| :: log[k] == k - LatestReset(log) + 1
  {
    if Last(log) != 1 {
      var front := log[..|log| - 1];
      CountsSinceReset(front);
      assert LatestReset(front) == LatestReset(log);
      assert forall k | 0 <= k < |front| :: log[k] == front[k];
    }
  }

  // ---------------------------------------------------------------- how many pass

  function Passing(counts: seq<int>, burst: int): nat {
    if counts == [] then 0
    else Passing(counts[..|counts| - 1], burst) + if Blocked(Last(counts), burst) then 0 else 1
  }

  lemma {:induction false} PassingCounts(counts: seq<int>, burst: int)
    requires forall k | 0 <= k < |counts| :: counts[k] == k + 1
    ensures Passing(counts, burst) == Min(|counts|, Max(0, burst * 2))
  {
    if counts != [] {
      PassingCounts(counts[..|counts| - 1], burst);
    }
  }

  /** From a reset up to the next one the counts are 1, 2, 3, and so on, and of those requests the first 2 * burst
      pass and no more. */
  lemma PassPerWindow(s: Window, key: string, run: seq<Event>, i: nat, j: nat, burst: int)
    requires Fresh(s, key) && |After(s, key, run).log| <= MAX_INT64
    requires i < j <= |After(s, key, run).log|
    requires After(s, key, run).log[i] == 1 && 1 !in After(s, key, run).log[i + 1..j]
    ensures var counts := After(s, key, run).log[i..j];
            && (forall k | 0 <= k < |counts| :: counts[k] == k + 1)
            && Passing(counts, burst) == Min(j - i, Max(0, burst * 2))
  {
    hide After;
    RunKeepsInv(s, key, run);
    ConsecutiveFrom(After(s, key, run).log, i, j);
    PassingCounts(After(s, key, run).log[i..j], burst);
  }

  lemma {:induction false} ConsecutiveFrom(log: seq<int>, i: nat, j: nat)
    requires Consecutive(log) && i < j <= |log| && log[i] == 1 && 1 !in log[i + 1..j]
    ensures forall k | i <= k < j :: log[k] == k - i + 1
  {
    if j > i + 1 {
      assert log[i + 1..j] == log[i + 1..j - 1] + [log[j - 1]];
      ConsecutiveFrom(log, i, j - 1);
      assert log[j - 1] in log[i + 1..j];
      assert log[j - 1] == log[j - 2] + 1;
    }
  }

  // ---------------------------------------------------------------- when a block ends

  /** Nothing since `mark` counted 1, the counter is armed, and its deadline is at most `limit`. */
  ghost predicate Closing(s: Window, key: string, mark: nat, limit: int) {
    && mark <= |s.log| && 1 !in s.log[mark..]
    && s.unarmed == {}
    && (key in s.store ==> s.store[key].deadline.Some? && s.store[key].deadline.value <= limit)
  }

  lemma StepClosing(s: Window, key: string, e: Event, mark: nat, limit: int)
    requires Closing(s, key, mark, limit)
    ensures Closing(Step(s, key, e), key, mark, limit) || 1 in Step(s, key, e).log[mark..]
  {
    hide Print, Parse, Wrap;
    if |Step(s, key, e).log| > |s.log| {
      var n := Last(Step(s, key, e).log);
      assert Step(s, key, e).log[mark..] == s.log[mark..] + [n];
    }
  }

  lemma ResetStays(s: Window, key: string, e: Event, mark: nat)
    requires mark <= |s.log| && 1 in s.log[mark..]
    ensures mark <= |Step(s, key, e).log| && 1 in Step(s, key, e).log[mark..]
  {
    hide Step;
    LogOnlyGrows(s, key, e);
    var i :| 0 <= i < |s.log[mark..]| && s.log[mark..][i] == 1;
    assert Step(s, key, e).log[mark..][i] == 1;
  }

  lemma {:induction false} RunClosing(s: Window, key: string, rest: seq<Event>, mark: nat, limit: int)
    requires Closing(s, key, mark, limit)
    ensures var t := After(s, key, rest);
            mark <= |t.log| && (Closing(t, key, mark, limit) || 1 in t.log[mark..])
  {
    hide Closing, Step;
    if rest != [] {
      var front, e := rest[..|rest| - 1], rest[|rest| - 1];
      RunClosing(s, key, front, mark, limit);
      var t := After(s, key, front);
      LogOnlyGrows(t, key, e);
      if Closing(t, key, mark, limit) {
        StepClosing(t, key, e, mark, limit);
      } else {
        ResetStays(t, key, e, mark);
      }
    } else {
      ClosingMark(s, key, mark, limit);
    }
  }

  lemma ClosingMark(s: Window, key: string, mark: nat, limit: int)
    requires Closing(s, key, mark, limit)
    ensures mark <= |s.log|
  {
  }

  lemma LateArrivalResets(s: Window, key: string, mark: nat, limit: int, wait: nat)
    requires Closing(s, key, mark, limit) && s.clock + wait > limit
    ensures 1 in Step(s, key, Arrive(wait)).log[mark..]
  {
    hide Print, Parse, Wrap;
    var t := Step(s, key, Arrive(wait));
    assert t.log[mark..] == s.log[mark..] + [1];
  }

  /** Once the counter is armed the block lasts at most one second: whatever happens in the meantime, a request
      read more than a second later finds that the count started over since, or starts it over itself. */
  lemma BlockEndsInTime(s: Window, key: string, run: seq<Event>, rest: seq<Event>, wait: nat)
    requires Fresh(s, key) && |After(s, key, run).log| <= MAX_INT64 && After(s, key, run).unarmed == {}
    requires var t := After(s, key, run); After(t, key, rest).clock + wait > t.clock + SECOND
    ensures var t := After(s, key, run);
            var u := Step(After(t, key, rest), key, Arrive(wait));
            |t.log| <= |u.log| && 1 in u.log[|t.log|..]
  {
    hide Closing, Step, After;
    var t := After(s, key, run);
    RunKeepsInv(s, key, run);
    ArmedIsClosing(t, key);
    RunClosing(t, key, rest, |t.log|, t.clock + SECOND);
    var v := After(t, key, rest);
    LogOnlyGrows(v, key, Arrive(wait));
    if Closing(v, key, |t.log|, t.clock + SECOND) {
      LateArrivalResets(v, key, |t.log|, t.clock + SECOND, wait);
    } else {
      ResetStays(v, key, Arrive(wait), |t.log|);
    }
  }

  lemma ArmedIsClosing(s: Window, key: string)
    requires Inv(s, key) && s.unarmed == {}
    ensures Closing(s, key, |s.log|, s.clock + SECOND)
  {
    assert s.log[|s.log|..] == [];
  }

  /** The counter is armed until `deadline`, and the latest reset was by caller `first`. */
  ghost predicate Counting(s: Window, key: string, first: nat, deadline: int) {
    && Inv(s, key) && s.unarmed == {} && s.log != [] && LatestReset(s.log) == first
    && key in s.store && s.store[key].deadline == Some(deadline)
  }

  lemma ArmStartsWindow(s: Window, key: string, first: nat, wait: nat, skew: nat)
    requires Inv(s, key) && first in s.unarmed
    ensures var t := Step(s, key, Arm(first, wait, skew));
            Counting(t, key, first, t.clock + 1_000_000_000) && t.log == s.log
  {
    hide Print, Parse, Wrap, Consecutive;
    OtherStepsKeepInv(s, key, Arm(first, wait, skew));
  }

  lemma StepCounts(s: Window, key: string, e: Event, first: nat, deadline: int)
    requires Counting(s, key, first, deadline)
    requires Step(s, key, e).clock <= deadline && |Step(s, key, e).log| <= MAX_INT64
    ensures Counting(Step(s, key, e), key, first, deadline)
  {
    hide Print, Parse, Wrap, Consecutive;
    if e.Arrive? {
      LogOnlyGrows(s, key, e);
      ArrivalIsLogged(s, key, e.wait);
      ArriveCounts(s, key, e.wait);
      ArriveKeepsInv(s, key, e.wait);
    } else {
      OtherStepsKeepInv(s, key, e);
    }
  }

  lemma {:induction false} RunCounts(s: Window, key: string, rest: seq<Event>, first: nat, deadline: int)
    requires Counting(s, key, first, deadline)
    requires After(s, key, rest).clock <= deadline && |After(s, key, rest).log| <= MAX_INT64
    ensures Counting(After(s, key, rest), key, first, deadline)
  {
    hide Counting, Step;
    if rest != [] {
      var front, e := rest[..|rest| - 1], rest[|rest| - 1];
      LogOnlyGrows(After(s, key, front), key, e);
      RunCounts(s, key, front, first, deadline);
      StepCounts(After(s, key, front), key, e, first, deadline);
    }
  }

  /** Within one second of being armed the count does not restart: the requests after the first keep getting
      2, 3, 4, and so on, and those beyond 2 * burst are blocked. */
  lemma WindowLastsASecond(s: Window, key: string, run: seq<Event>, first: nat, wait: nat, skew: nat,
                           rest: seq<Event>, burst: int)
    requires Fresh(s, key) && first in After(s, key, run).unarmed
    requires var t := Step(After(s, key, run), key, Arm(first, wait, skew));
             && After(t, key, rest).clock <= t.clock + 1_000_000_000
             && |After(t, key, rest).log| <= MAX_INT64
    ensures var log := After(Step(After(s, key, run), key, Arm(first, wait, skew)), key, rest).log;
            first < |log| && forall k | first <= k < |log| ::
                               log[k] == k - first + 1 && (Blocked(log[k], burst) <==> k - first >= burst * 2)
  {
    hide After, Step, Consecutive;
    var u := After(s, key, run);
    var t := Step(u, key, Arm(first, wait, skew));
    LogOnlyGrows(u, key, Arm(first, wait, skew));
    RunLogGrows(t, key, rest);
    FreshHasInv(s, key);
    RunKeepsInv(s, key, run);
    ArmStartsWindow(u, key, first, wait, skew);
    RunCounts(t, key, rest, first, t.clock + 1_000_000_000);
    CountsSinceReset(After(t, key, rest).log);
  }

  // ---------------------------------------------------------------- when the first caller never arms

  /** Caller `first` is unarmed and the counts after its own are consecutive. */
  ghost predicate Stuck(s: Window, key: string, first: nat) {
    && Inv(s, key) && s.unarmed == {first} && s.log != [] && first == LatestReset(s.log)
  }

  lemma StepStuck(s: Window, key: string, e: Event, first: nat)
    requires Stuck(s, key, first) && !(e.Arm? && e.caller == first)
    requires |Step(s, key, e).log| <= MAX_INT64
    ensures Stuck(Step(s, key, e), key, first)
  {
    if e.Arrive? {
      StuckArrival(s, key, e.wait, first);
    } else {
      StuckOtherwise(s, key, e, first);
    }
  }

  lemma StuckArrival(s: Window, key: string, wait: nat, first: nat)
    requires Stuck(s, key, first) && |Step(s, key, Arrive(wait)).log| <= MAX_INT64
    ensures Stuck(Step(s, key, Arrive(wait)), key, first)
  {
    hide Print, Parse, Wrap, Apply, Consecutive;
    LogOnlyGrows(s, key, Arrive(wait));
    ArrivalIsLogged(s, key, wait);
    ArriveCounts(s, key, wait);
    ArriveKeepsInv(s, key, wait);
  }

  lemma StuckOtherwise(s: Window, key: string, e: Event, first: nat)
    requires Stuck(s, key, first) && !e.Arrive? && !(e.Arm? && e.caller == first)
    ensures Stuck(Step(s, key, e), key, first)
  {
    hide Apply, Inv, Cleanup;
    OtherStepsKeepInv(s, key, e);
  }

  lemma {:induction false} RunStuck(s: Window, key: string, rest: seq<Event>, first: nat)
    requires Stuck(s, key, first) && |After(s, key, rest).log| <= MAX_INT64
    requires forall e <- rest :: !(e.Arm? && e.caller == first)
    ensures Stuck(After(s, key, rest), key, first)
  {
    hide Stuck, Step;
    if rest != [] {
      var front, e := rest[..|rest| - 1], rest[|rest| - 1];
      LogOnlyGrows(After(s, key, front), key, e);
      RunStuck(s, key, front, first);
      StepStuck(After(s, key, front), key, e, first);
    }
  }

  /** The premise below is met from the first request on, until that caller reaches Expire. */
  lemma FirstArrivalIsUnarmed(s: Window, key: string)
    requires Fresh(s, key)
    ensures var t := After(s, key, [Arrive(0)]);
            t.unarmed == {0} && t.log == [1] && key in t.store && t.store[key] == Entry(Print(1), None)
  {
    hide Print;
    assert [Arrive(0)][..0] == [];
    assert After(s, key, []) == s;
  }

  /** If the caller that got 1 does not run Expire, the count never starts over: from then on the k-th request
      after it gets k + 1, and everything beyond the first 2 * burst stays blocked, however long one waits. */
  lemma BlockedForGood(s: Window, key: string, run: seq<Event>, rest: seq<Event>, first: nat, burst: int)
    requires Fresh(s, key) && After(s, key, run).unarmed == {first}
    requires forall e <- rest :: !(e.Arm? && e.caller == first)
    requires |After(After(s, key, run), key, rest).log| <= MAX_INT64
    ensures var log := After(After(s, key, run), key, rest).log;
            forall k | first <= k < |log| ::
              log[k] == k - first + 1 && (Blocked(log[k], burst) <==> k - first >= burst * 2)
  {
    hide After, Consecutive;
    var t := After(s, key, run);
    RunLogGrows(t, key, rest);
    FreshHasInv(s, key);
    RunKeepsInv(s, key, run);
    RunStuck(t, key, rest, first);
    CountsSinceReset(After(t, key, rest).log);
  }

  lemma {:induction false} RunLogGrows(s: Window, key: string, run: seq<Event>)
    ensures s.log <= After(s, key, run).log
  {
    hide Step;
    if run != [] {
      RunLogGrows(s, key, run[..|run| - 1]);
      LogOnlyGrows(After(s, key, run[..|run| - 1]), key, run[|run| - 1]);
    }
  }

  // ---------------------------------------------------------------- the method

  /** The check as one caller runs it when nobody interferes: readings `now` in Increment, `mid` and `later` in
      Expire. A counter that does not parse lets the request pass. */
  method CheckCentralizedLimit(cache: MemoryCache, ip: string, burst: int, now: int, mid: int, later: int)
    returns (blocked: bool)
    requires cache.Valid()
    modifies cache, cache.cells
    ensures cache.Valid()
    ensures var (m, reply) := Apply(old(cache.store), Increment(KeyFor(ip)), now, now);
            && blocked == (reply.Number? && Blocked(reply.number, burst))
            && cache.store == if reply == Number(1) then Apply(m, Expire(KeyFor(ip), SECOND), mid, later).0 else m
  {
    hide AddTo, MemoryCache.Valid;
    var key := KeyFor(ip);
    var count := cache.Increment(key, now);
    if count.None? {
      return false;
    }
    if count.value == 1 {
      var _ := cache.Expire(key, SECOND, mid, later);
    }
    return count.value > burst * 2;
  }

  /** Uninterrupted, the two steps of a caller leave the store that CheckCentralizedLimit leaves. */
  lemma UninterruptedCheck(s: Window, key: string, wait: nat, pause: nat, skew: nat)
    requires |s.log| !in s.unarmed
    ensures var now := s.clock + wait;
            var (m, reply) := Apply(s.store, Increment(key), now, now);
            Step(Step(s, key, Arrive(wait)), key, Arm(|s.log|, pause, skew)).store
            == if reply == Number(1) then Apply(m, Expire(key, SECOND), now + pause, now + pause + skew).0 else m
  {
    hide AddTo, Without;
    FailedAddChangesNothing(s.store, key, 1, s.clock + wait);
  }

  lemma FailedAddChangesNothing(m: Store, key: string, delta: int, now: int)
    ensures AddTo(m, key, delta, now).1.Number? || AddTo(m, key, delta, now).0 == m
  {
    hide Print, Parse, Wrap;
  }
}
