/** What a caller of the memory cache sees, from writing an item to reading it back later: over any run in between
    that leaves the item alone, with the cleanup at any moment (internal/cache/memory.go:72-261). */
module CacheLaws {
  import opened Wrappers
  import opened Decimals
  import opened TimedMaps

  /** The run does not write the item under key; cleaning is allowed. */
  ghost predicate Untouched(rest: seq<Event>, key: string) {
    forall e <- rest | e.Operating? :: LeavesAlone(e.op, key)
  }

  /** From `now` on both stores show the same under key. */
  ghost predicate SameItem(m: Store, n: Store, key: string, now: int) {
    && (Live(m, key, now) <==> Live(n, key, now))
    && (Live(m, key, now) ==> m[key] == n[key])
  }

  lemma PrefixIsPrefix(key: string, prefix: string)
    ensures HasPrefix(key, prefix) <==> prefix <= key
  {
  }

  lemma ApplyLeavesAlone(m: Store, op: Op, key: string, now: int, later: int)
    requires LeavesAlone(op, key)
    ensures var n := Apply(m, op, now, later).0; (key in n <==> key in m) && (key in m ==> n[key] == m[key])
  {
    hide Print, Parse, Wrap, HasPrefix;
    if op.DeleteByPrefix? {
      PrefixIsPrefix(key, op.prefix);
    }
  }

  lemma StepLeavesAlone(s: Timed, e: Event, key: string, now: int)
    requires (e.Operating? ==> LeavesAlone(e.op, key)) && Step(s, e).clock <= now
    ensures SameItem(s.store, Step(s, e).store, key, now)
  {
    hide Apply;
    if e.Operating? {
      ApplyLeavesAlone(s.store, e.op, key, s.clock + e.wait, s.clock + e.wait + e.skew);
    }
  }

  lemma {:induction false} RunLeavesAlone(s: Timed, rest: seq<Event>, key: string, now: int)
    requires Untouched(rest, key) && After(s, rest).clock <= now
    ensures SameItem(s.store, After(s, rest).store, key, now)
  {
    hide Step, LeavesAlone, Live;
    if rest != [] {
      var front, e := rest[..|rest| - 1], rest[|rest| - 1];
      ClockAdvances(After(s, front), e);
      RunLeavesAlone(s, front, key, now);
      StepLeavesAlone(After(s, front), e, key, now);
    }
  }

  lemma ClockAdvances(s: Timed, e: Event)
    ensures s.clock <= Step(s, e).clock
  {
    hide Apply;
  }

  /** What the operation would reply now. */
  function ReplyTo(s: Timed, op: Op, wait: int): Reply { Apply(s.store, op, s.clock + wait, s.clock + wait).1 }

  lemma RepliesAreLogged(s: Timed, op: Op, wait: nat)
    ensures Step(s, Operating(op, wait, 0)).replies == s.replies + [ReplyTo(s, op, wait)]
  {
    hide Apply;
  }

  lemma GetTells(m: Store, key: string, now: int)
    ensures Apply(m, Get(key), now, now).1 == if Live(m, key, now) then Bytes(m[key].value) else NotFound
  {
  }

  /** What was set is what is got, for as long as its ttl says and no longer; without a positive ttl, for good. */
  lemma SetThenGet(s: Timed, key: string, value: seq<byte>, ttl: int, wait: nat, skew: nat, rest: seq<Event>,
                   pause: nat)
    requires Untouched(rest, key)
    ensures var t := Step(s, Operating(Set(key, value, ttl), wait, skew));
            var u := After(t, rest);
            ReplyTo(u, Get(key), pause)
            == if ttl <= 0 || u.clock + pause <= t.clock + ttl then Bytes(value) else NotFound
  {
    hide After, Apply;
    var t := Step(s, Operating(Set(key, value, ttl), wait, skew));
    var u := After(t, rest);
    RunLeavesAlone(t, rest, key, u.clock + pause);
    GetTells(u.store, key, u.clock + pause);
    SetStores(s.store, key, value, ttl, s.clock + wait, s.clock + wait + skew);
  }

  lemma SetStores(m: Store, key: string, value: seq<byte>, ttl: int, now: int, later: int)
    ensures var n := Apply(m, Set(key, value, ttl), now, later).0;
            && key in n && n[key].value == value
            && forall at :: Live(n, key, at) <==> ttl <= 0 || at <= later + ttl
  {
  }

  /** Expire gives a live item a new deadline, or none; on anything else it reports NotFound and changes nothing. */
  lemma ExpireThenGet(s: Timed, key: string, ttl: int, wait: nat, skew: nat, rest: seq<Event>, pause: nat)
    requires Untouched(rest, key)
    ensures var before := ReplyTo(s, Get(key), wait);
            var t := Step(s, Operating(Expire(key, ttl), wait, skew));
            var u := After(t, rest);
            && t.replies == s.replies + [if before == NotFound then NotFound else Done]
            && ReplyTo(u, Get(key), pause)
               == if before.Bytes? && (ttl <= 0 || u.clock + pause <= t.clock + ttl) then before else NotFound
  {
    hide After, Apply;
    var now := s.clock + wait;
    var t := Step(s, Operating(Expire(key, ttl), wait, skew));
    var u := After(t, rest);
    RunClock(t, rest);
    RunLeavesAlone(t, rest, key, u.clock + pause);
    GetTells(s.store, key, now);
    GetTells(u.store, key, u.clock + pause);
    ExpireStores(s.store, key, ttl, now, now + skew);
  }

  lemma {:induction false} RunClock(s: Timed, rest: seq<Event>)
    ensures s.clock <= After(s, rest).clock
  {
    hide Step;
    if rest != [] {
      RunClock(s, rest[..|rest| - 1]);
      ClockAdvances(After(s, rest[..|rest| - 1]), rest[|rest| - 1]);
    }
  }

  lemma ExpireStores(m: Store, key: string, ttl: int, now: int, later: int)
    requires now <= later
    ensures var (n, reply) := Apply(m, Expire(key, ttl), now, later);
            && reply == (if Live(m, key, now) then Done else NotFound)
            && (Live(m, key, now) ==> key in n && n[key].value == m[key].value)
            && forall at | later <= at ::
                 Live(n, key, at) <==> Live(m, key, now) && (ttl <= 0 || at <= later + ttl)
  {
  }

  /** What was removed - by its key, in a list, by a prefix or by Close - is not found any more. */
  lemma RemoveThenGet(s: Timed, key: string, op: Op, wait: nat, skew: nat, rest: seq<Event>, pause: nat)
    requires Untouched(rest, key) && Removes(op, key)
    ensures ReplyTo(After(Step(s, Operating(op, wait, skew)), rest), Get(key), pause) == NotFound
  {
    hide After, Apply;
    var t := Step(s, Operating(op, wait, skew));
    var u := After(t, rest);
    RunLeavesAlone(t, rest, key, u.clock + pause);
    GetTells(u.store, key, u.clock + pause);
    RemoveStores(s.store, key, op, s.clock + wait, s.clock + wait + skew);
  }

  lemma RemoveStores(m: Store, key: string, op: Op, now: int, later: int)
    requires Removes(op, key)
    ensures key !in Apply(m, op, now, later).0
  {
    hide HasPrefix;
    if op.DeleteByPrefix? {
      PrefixIsPrefix(key, op.prefix);
    }
  }

  /** What is left alone stays as it was, until it expires. */
  lemma UntouchedThenGet(s: Timed, key: string, rest: seq<Event>, pause: nat)
    requires Untouched(rest, key)
    ensures var u := After(s, rest);
            ReplyTo(u, Get(key), pause) == ReplyTo(s, Get(key), u.clock + pause - s.clock)
  {
    hide After, Apply;
    var u := After(s, rest);
    RunClock(s, rest);
    RunLeavesAlone(s, rest, key, u.clock + pause);
    GetTells(s.store, key, u.clock + pause);
    GetTells(u.store, key, u.clock + pause);
  }

  /** Exists and Get agree. */
  lemma ExistsLikeGet(s: Timed, key: string, wait: nat)
    ensures ReplyTo(s, Exists(key), wait) == Flag(ReplyTo(s, Get(key), wait) != NotFound)
  {
  }

  /** Incrementing a stored text: a number is raised by one and reads back as the new number; anything else is
      refused and stays. Decrement alike. */
  lemma SetThenCount(s: Timed, key: string, value: seq<byte>, wait: nat, rest: seq<Event>, pause: nat, up: bool)
    requires Untouched(rest, key)
    ensures var u := After(Step(s, Operating(Set(key, value, 0), wait, 0)), rest);
            var op := if up then Increment(key) else Decrement(key);
            var t := Step(u, Operating(op, pause, 0));
            if Parse(value).None? then
              ReplyTo(u, op, pause) == ParseError && ReplyTo(t, Get(key), 0) == Bytes(value)
            else
              var n := Wrap(Parse(value).value + if up then 1 else -1);
              && ReplyTo(u, op, pause) == Number(n)
              && ReplyTo(t, Get(key), 0).Bytes? && Parse(ReplyTo(t, Get(key), 0).bytes) == Some(n)
  {
    hide After, Print, Parse, Wrap;
    var written := Step(s, Operating(Set(key, value, 0), wait, 0));
    var u := After(written, rest);
    RunLeavesAlone(written, rest, key, u.clock + pause);
    assert u.store[key] == Entry(value, None);
    if Parse(value).Some? {
      RoundTrip(Wrap(Parse(value).value + if up then 1 else -1));
    }
  }
}
