/** The per-address limiters of internal/middleware/rate_limit.go:31-64, 83-86, 110-126, and the loop that forgets
    those not used for maxAge. golang.org/x/time/rate is taken as a token bucket that starts full. */
module IdleLimiters {
  import opened Wrappers

  /** Time is in nanoseconds; a token is 10^9 parts, so `rps` parts flow in per nanosecond. */
  const TOKEN: int := 1_000_000_000
  const MAX_AGE: int := 600 * 1_000_000_000

  datatype Config = Config(rps: int, burst: int)

  datatype Bucket = Bucket(tokens: int, last: int)

  datatype Limiter = Limiter(bucket: Bucket, lastAccess: int)

  type Table = map<string, Limiter>

  function Capacity(c: Config): int { c.burst * TOKEN }

  function Rate(c: Config): nat { Max(0, c.rps) }

  /** The content of the bucket at `now`. */
  function Level(c: Config, b: Bucket, now: int): int {
    Min(Capacity(c), b.tokens + Max(0, now - b.last) * Rate(c))
  }

  function Spend(c: Config, b: Bucket, now: int): (Bucket, bool) {
    var level := Level(c, b, now);
    if level >= TOKEN then (Bucket(level - TOKEN, now), true) else (b, false)
  }

  function NewLimiter(c: Config, now: int): Limiter { Limiter(Bucket(Capacity(c), now), now) }

  function Lookup(c: Config, table: Table, key: string, now: int): Limiter {
    if key in table then table[key].(lastAccess := now) else NewLimiter(c, now)
  }

  /** Lookup and Spend, at one instant. */
  function Admission(c: Config, table: Table, key: string, now: int): (Table, bool) {
    var l := Lookup(c, table, key, now);
    var (b, ok) := Spend(c, l.bucket, now);
    (table[key := l.(bucket := b)], ok)
  }

  predicate Idle(l: Limiter, now: int) { now - l.lastAccess > MAX_AGE }

  function Forget(table: Table, now: int): Table {
    map k | k in table && !Idle(table[k], now) :: table[k]
  }

  // ---------------------------------------------------------------- runs with and without forgetting

  datatype Event = Request(key: string, wait: nat) | Tick(wait: nat)

  datatype State = State(table: Table, clock: int, log: seq<bool>)

  function Step(c: Config, s: State, e: Event, forgetting: bool): State {
    var now := s.clock + e.wait;
    match e
    case Request(key, _) =>
      var (table, ok) := Admission(c, s.table, key, now);
      State(table, now, s.log + [ok])
    case Tick(_) => s.(table := if forgetting then Forget(s.table, now) else s.table, clock := now)
  }

  function After(c: Config, s: State, run: seq<Event>, forgetting: bool): State {
    if run == [] then s
    else Step(c, After(c, s, run[..|run| - 1], forgetting), run[|run| - 1], forgetting)
  }

  function Start(now: int): State { State(map[], now, []) }

  /** The idle time after which a limiter may be forgotten suffices to fill its bucket. */
  predicate RefillsInTime(c: Config) { c.burst <= 0 || (MAX_AGE + 1) * Rate(c) >= Capacity(c) }

  /** Below a thousand million requests per second that is rps * 600 >= burst. */
  lemma RefillsInTimeInSeconds(c: Config)
    requires 0 <= c.rps < TOKEN && c.burst > 0
    ensures RefillsInTime(c) <==> c.rps * 600 >= c.burst
  {
  }

  // ---------------------------------------------------------------- buckets

  ghost predicate Sound(c: Config, l: Limiter, now: int) {
    0 <= l.bucket.tokens <= Capacity(c) && l.bucket.last <= l.lastAccess <= now
  }

  lemma MulMonotone(x: int, y: int, k: nat)
    requires x <= y
    ensures x * k <= y * k
  {
  }

  lemma LevelRises(c: Config, b: Bucket, now: int, later: int)
    requires now <= later
    ensures Level(c, b, now) <= Level(c, b, later) <= Capacity(c)
  {
    MulMonotone(Max(0, now - b.last), Max(0, later - b.last), Rate(c));
  }

  /** An idle bucket is full. */
  lemma IdleIsFull(c: Config, l: Limiter, now: int)
    requires Sound(c, l, now) && Idle(l, now) && c.burst > 0 && RefillsInTime(c)
    ensures Level(c, l.bucket, now) == Capacity(c)
  {
    MulMonotone(MAX_AGE + 1, now - l.bucket.last, Rate(c));
  }

  lemma LookupSound(c: Config, table: Table, key: string, now: int)
    requires c.burst >= 0 && (key in table ==> Sound(c, table[key], now))
    ensures Sound(c, Lookup(c, table, key, now), now)
  {
  }

  lemma AllowSound(c: Config, l: Limiter, now: int)
    requires Sound(c, l, now) && l.lastAccess == now
    ensures Sound(c, l.(bucket := Spend(c, l.bucket, now).0), now)
  {
    MulMonotone(0, now - l.bucket.last, Rate(c));
  }

  // ---------------------------------------------------------------- forgetting cannot be observed

  /** s forgets and t does not: what s holds t holds, and what only t holds is full. */
  ghost predicate Alike(c: Config, s: State, t: State) {
    && s.clock == t.clock && s.log == t.log
    && (c.burst > 0 ==>
          && (forall k <- s.table :: k in t.table && s.table[k] == t.table[k])
          && (forall k <- t.table :: Sound(c, t.table[k], t.clock))
          && (forall k <- t.table :: k !in s.table ==> Level(c, t.table[k].bucket, t.clock) == Capacity(c)))
  }

  /** Equal levels of at least one token leave equal buckets. */
  lemma FullLikeNew(c: Config, l: Limiter, now: int)
    requires c.burst > 0 && Level(c, l.bucket, now) == Capacity(c)
    ensures Spend(c, l.bucket, now) == Spend(c, NewLimiter(c, now).bucket, now)
  {
  }

  lemma RequestKeepsAlike(c: Config, s: State, t: State, e: Event)
    requires Alike(c, s, t) && e.Request? && c.burst > 0
    ensures Alike(c, Step(c, s, e, true), Step(c, t, e, false))
  {
    hide Spend, Level, Capacity, Sound;
    var now := s.clock + e.wait;
    LaterSound(c, t, now);
    LookupSound(c, t.table, e.key, now);
    AllowSound(c, Lookup(c, t.table, e.key, now), now);
    forall k <- t.table
      ensures Level(c, t.table[k].bucket, t.clock) <= Level(c, t.table[k].bucket, now) <= Capacity(c)
    {
      LevelRises(c, t.table[k].bucket, t.clock, now);
    }
    if e.key !in s.table && e.key in t.table {
      FullLikeNew(c, t.table[e.key], now);
    }
  }

  lemma LaterSound(c: Config, t: State, now: int)
    requires t.clock <= now && forall k <- t.table :: Sound(c, t.table[k], t.clock)
    ensures forall k <- t.table :: Sound(c, t.table[k], now)
  {
  }

  lemma TickKeepsAlike(c: Config, s: State, t: State, e: Event)
    requires Alike(c, s, t) && e.Tick? && c.burst > 0 && RefillsInTime(c)
    ensures Alike(c, Step(c, s, e, true), Step(c, t, e, false))
  {
    hide Level, Capacity, RefillsInTime, Sound, Idle;
    var now := s.clock + e.wait;
    LaterSound(c, t, now);
    forall k <- t.table | k !in Forget(s.table, now) ensures Level(c, t.table[k].bucket, now) == Capacity(c) {
      if k in s.table {
        IdleIsFull(c, t.table[k], now);
      } else {
        LevelRises(c, t.table[k].bucket, t.clock, now);
      }
    }
  }

  lemma StepKeepsAlike(c: Config, s: State, t: State, e: Event)
    requires Alike(c, s, t) && RefillsInTime(c)
    ensures Alike(c, Step(c, s, e, true), Step(c, t, e, false))
  {
    hide Alike;
    if c.burst > 0 {
      if e.Request? { RequestKeepsAlike(c, s, t, e); } else { TickKeepsAlike(c, s, t, e); }
    } else {
      NothingAdmitted(c, s, t, e);
    }
  }

  lemma NothingAdmitted(c: Config, s: State, t: State, e: Event)
    requires Alike(c, s, t) && c.burst <= 0
    ensures Alike(c, Step(c, s, e, true), Step(c, t, e, false))
  {
    hide Forget;
    if e.Request? {
      var now := s.clock + e.wait;
      LevelRises(c, Lookup(c, s.table, e.key, now).bucket, now, now);
      LevelRises(c, Lookup(c, t.table, e.key, now).bucket, now, now);
    }
  }

  lemma {:induction false} RunsAlike(c: Config, now: int, run: seq<Event>)
    requires RefillsInTime(c)
    ensures Alike(c, After(c, Start(now), run, true), After(c, Start(now), run, false))
  {
    hide Step, RefillsInTime, Sound, Level;
    if run != [] {
      RunsAlike(c, now, run[..|run| - 1]);
      hide Alike;
      StepKeepsAlike(c, After(c, Start(now), run[..|run| - 1], true), After(c, Start(now), run[..|run| - 1], false),
                     run[|run| - 1]);
    }
  }

  // ---------------------------------------------------------------- and otherwise it can

  function Volley(key: string, n: nat): seq<Event> { seq(n, _ => Request(key, 0)) }

  function Admitted(log: seq<bool>): nat {
    if log == [] then 0 else Admitted(log[..|log| - 1]) + if log[|log| - 1] then 1 else 0
  }

  function LevelOf(c: Config, s: State, key: string): int {
    Level(c, Lookup(c, s.table, key, s.clock).bucket, s.clock)
  }

  lemma RequestSpends(c: Config, s: State, key: string, forgetting: bool)
    requires c.burst > 0 && LevelOf(c, s, key) >= 0
    ensures var t := Step(c, s, Request(key, 0), forgetting);
            && t.clock == s.clock && key in t.table && t.table[key].lastAccess == s.clock
            && t.table[key].bucket.last in {s.clock, Lookup(c, s.table, key, s.clock).bucket.last}
            && t.log == s.log + [LevelOf(c, s, key) >= TOKEN]
            && LevelOf(c, t, key) == LevelOf(c, s, key) - (if LevelOf(c, s, key) >= TOKEN then TOKEN else 0)
  {
  }

  /** A volley at one instant is admitted token by token. */
  lemma {:induction false} VolleySpends(c: Config, s: State, key: string, n: nat, forgetting: bool)
    requires c.burst > 0 && 0 <= LevelOf(c, s, key) && Lookup(c, s.table, key, s.clock).bucket.last <= s.clock
    ensures var t := After(c, s, Volley(key, n), forgetting);
            && t.clock == s.clock && |t.log| == |s.log| + n && s.log <= t.log
            && (n > 0 ==> key in t.table && t.table[key].lastAccess == s.clock && t.table[key].bucket.last <= s.clock)
            && 0 <= LevelOf(c, t, key) == LevelOf(c, s, key) - TOKEN * Admitted(t.log[|s.log|..])
            && (LevelOf(c, s, key) >= n * TOKEN ==> Admitted(t.log[|s.log|..]) == n)
  {
    hide Step, LevelOf;
    if n == 0 {
      assert s.log[|s.log|..] == [];
    } else {
      VolleySpends(c, s, key, n - 1, forgetting);
      assert Volley(key, n)[..n - 1] == Volley(key, n - 1);
      var t := After(c, s, Volley(key, n - 1), forgetting);
      RequestSpends(c, t, key, forgetting);
      var u := Step(c, t, Request(key, 0), forgetting);
      assert u.log[|s.log|..][..n - 1] == t.log[|s.log|..];
    }
  }

  function Probe(key: string, n: nat): seq<Event> { Volley(key, n) + [Tick(MAX_AGE + 1)] + Volley(key, n) }

  lemma {:induction false} AfterAppend(c: Config, s: State, xs: seq<Event>, ys: seq<Event>, forgetting: bool)
    ensures After(c, s, xs + ys, forgetting) == After(c, After(c, s, xs, forgetting), ys, forgetting)
  {
    if ys == [] {
      assert xs + ys == xs;
    } else {
      AfterAppend(c, s, xs, ys[..|ys| - 1], forgetting);
      assert (xs + ys)[..|xs + ys| - 1] == xs + ys[..|ys| - 1];
    }
  }

  lemma ProbeInParts(c: Config, key: string, now: int, forgetting: bool)
    requires c.burst > 0
    ensures var t := After(c, Start(now), Volley(key, c.burst), forgetting);
            After(c, Start(now), Probe(key, c.burst), forgetting)
            == After(c, Step(c, t, Tick(MAX_AGE + 1), forgetting), Volley(key, c.burst), forgetting)
  {
    hide Step;
    var volley := Volley(key, c.burst);
    AfterAppend(c, Start(now), volley + [Tick(MAX_AGE + 1)], volley, forgetting);
    AfterAppend(c, Start(now), volley, [Tick(MAX_AGE + 1)], forgetting);
    var t := After(c, Start(now), volley, forgetting);
    assert [Tick(MAX_AGE + 1)][..0] == [];
    assert After(c, t, [], forgetting) == t;
  }

  /** Spend a full bucket, wait just over maxAge, spend again. */
  lemma ProbeTells(c: Config, key: string, now: int)
    requires !RefillsInTime(c)
    ensures var n: nat := c.burst;
            After(c, Start(now), Probe(key, n), true).log != After(c, Start(now), Probe(key, n), false).log
  {
    hide Step, After, Volley;
    var n: nat := c.burst;
    var kept := SecondVolley(c, key, now, false);
    var lost := SecondVolley(c, key, now, true);
    ProbeInParts(c, key, now, false);
    ProbeInParts(c, key, now, true);
    VolleySpends(c, kept, key, n, false);
    VolleySpends(c, lost, key, n, true);
  }

  lemma EmptyRefills(c: Config, b: Bucket, now: int, wait: nat)
    requires b.last <= now && Level(c, b, now) == 0 < Capacity(c) && wait * Rate(c) < Capacity(c)
    ensures Level(c, b, now + wait) == wait * Rate(c)
  {
    assert (now + wait - b.last) * Rate(c) == (now - b.last) * Rate(c) + wait * Rate(c);
  }

  /** The state in which the second volley of the probe starts. */
  lemma SecondVolley(c: Config, key: string, now: int, forgetting: bool) returns (s: State)
    requires !RefillsInTime(c)
    ensures s == Step(c, After(c, Start(now), Volley(key, c.burst), forgetting), Tick(MAX_AGE + 1), forgetting)
    ensures |s.log| == c.burst && Lookup(c, s.table, key, s.clock).bucket.last <= s.clock
    ensures LevelOf(c, s, key) == if forgetting then Capacity(c) else (MAX_AGE + 1) * Rate(c)
  {
    hide After, Volley;
    var t := After(c, Start(now), Volley(key, c.burst), forgetting);
    VolleySpends(c, Start(now), key, c.burst, forgetting);
    assert t.log[|Start(now).log|..] == t.log;
    if !forgetting {
      EmptyRefills(c, t.table[key].bucket, t.clock, MAX_AGE + 1);
    }
    s := Step(c, t, Tick(MAX_AGE + 1), forgetting);
  }

  /** Forgetting idle limiters admits exactly the requests admitted without it, in every run, if and only if an
      idle bucket has the time to fill up. */
  lemma ForgettingUnobservableIff(c: Config, now: int)
    ensures (forall run :: After(c, Start(now), run, true).log == After(c, Start(now), run, false).log)
            <==> RefillsInTime(c)
  {
    hide After, RefillsInTime;
    if RefillsInTime(c) {
      forall run ensures After(c, Start(now), run, true).log == After(c, Start(now), run, false).log {
        RunsAlike(c, now, run);
      }
    } else {
      ProbeTells(c, "", now);
    }
  }

  // ---------------------------------------------------------------- what the limiter is for

  ghost predicate AllSound(c: Config, s: State) { forall k <- s.table :: Sound(c, s.table[k], s.clock) }

  lemma StepKeepsSound(c: Config, s: State, e: Event, forgetting: bool)
    requires AllSound(c, s) && c.burst > 0
    ensures AllSound(c, Step(c, s, e, forgetting))
  {
    hide Spend, Level, Capacity, Sound, Idle;
    var now := s.clock + e.wait;
    LaterSound(c, s, now);
    if e.Request? {
      LookupSound(c, s.table, e.key, now);
      AllowSound(c, Lookup(c, s.table, e.key, now), now);
    }
  }

  lemma {:induction false} RunKeepsSound(c: Config, now: int, run: seq<Event>, forgetting: bool)
    requires c.burst > 0
    ensures AllSound(c, After(c, Start(now), run, forgetting))
  {
    hide Step, Sound;
    if run != [] {
      RunKeepsSound(c, now, run[..|run| - 1], forgetting);
      StepKeepsSound(c, After(c, Start(now), run[..|run| - 1], forgetting), run[|run| - 1], forgetting);
    }
  }

  /** How many requests with this key the run admits. */
  function AdmittedFor(c: Config, s: State, run: seq<Event>, key: string, forgetting: bool): nat {
    if run == [] then 0
    else
      var front, e := run[..|run| - 1], run[|run| - 1];
      AdmittedFor(c, s, front, key, forgetting)
      + if e.Request? && e.key == key && Grants(c, After(c, s, front, forgetting), e, forgetting) then 1 else 0
  }

  /** Whether the request is admitted: what the step adds to the log. */
  predicate Grants(c: Config, s: State, e: Event, forgetting: bool)
    requires e.Request?
  {
    Step(c, s, e, forgetting).log == s.log + [true]
  }

  /** While time passes a bucket gains no more than its rate. */
  lemma WaitingGains(c: Config, s: State, key: string, wait: nat)
    requires AllSound(c, s) && c.burst > 0
    ensures 0 <= LevelOf(c, s, key) <= LevelOf(c, s.(clock := s.clock + wait), key)
    ensures LevelOf(c, s.(clock := s.clock + wait), key) <= Capacity(c)
    ensures LevelOf(c, s.(clock := s.clock + wait), key) <= LevelOf(c, s, key) + wait * Rate(c)
    ensures LevelOf(c, s.(clock := s.clock + wait), key) >= Min(Capacity(c), wait * Rate(c))
  {
    var b := Lookup(c, s.table, key, s.clock).bucket;
    MulMonotone(0, wait, Rate(c));
    if key in s.table {
      assert Sound(c, s.table[key], s.clock);
      MulMonotone(0, s.clock - b.last, Rate(c));
      assert (s.clock + wait - b.last) * Rate(c) == (s.clock - b.last) * Rate(c) + wait * Rate(c);
    }
  }

  lemma WaitThenStep(c: Config, s: State, e: Event, forgetting: bool)
    requires e.Request?
    ensures Step(c, s, e, forgetting) == Step(c, s.(clock := s.clock + e.wait), Request(e.key, 0), forgetting)
  {
  }

  lemma OtherKeyKeepsLevel(c: Config, s: State, e: Event, key: string)
    requires !(e.Request? && e.key == key)
    ensures LevelOf(c, Step(c, s, e, false), key) == LevelOf(c, s.(clock := s.clock + e.wait), key)
  {
    hide Level, Spend;
  }

  lemma LastBitTells(log: seq<bool>, bit: bool)
    ensures log + [bit] == log + [true] <==> bit
  {
    assert (log + [bit])[|log|] == bit;
  }

  /** No more than the burst plus what flows in at the rate can be admitted: TOKEN parts make one request. */
  lemma {:induction false} SpendingBound(c: Config, now: int, run: seq<Event>, key: string)
    requires c.burst > 0
    ensures var t := After(c, Start(now), run, false);
            && t.clock >= now
            && LevelOf(c, t, key) + TOKEN * AdmittedFor(c, Start(now), run, key, false)
               <= Capacity(c) + (t.clock - now) * Rate(c)
  {
    hide Step, LevelOf, Rate, Capacity, AllSound, Grants;
    if run == [] {
      FreshLevel(c, now, key);
    } else {
      var front, e := run[..|run| - 1], run[|run| - 1];
      SpendingBound(c, now, front, key);
      RunKeepsSound(c, now, front, false);
      var s := After(c, Start(now), front, false);
      StepSpends(c, s, e, key);
      ClockOfStep(c, s, e);
      RateDistributes(c, s.clock - now, e.wait);
    }
  }

  lemma RateDistributes(c: Config, x: int, wait: nat)
    ensures (x + wait) * Rate(c) == x * Rate(c) + wait * Rate(c)
  {
  }

  /** One step: what it admits for the key, and what is left, comes from what was there and what flowed in. */
  lemma StepSpends(c: Config, s: State, e: Event, key: string)
    requires AllSound(c, s) && c.burst > 0
    ensures var admitted := e.Request? && e.key == key && Grants(c, s, e, false);
            LevelOf(c, Step(c, s, e, false), key) + (if admitted then TOKEN else 0)
            <= LevelOf(c, s, key) + e.wait * Rate(c)
  {
    hide Step, LevelOf, Rate, Capacity, AllSound;
    var later := s.(clock := s.clock + e.wait);
    WaitingGains(c, s, key, e.wait);
    if e.Request? && e.key == key {
      WaitThenStep(c, s, e, false);
      RequestSpends(c, later, key, false);
      LastBitTells(s.log, LevelOf(c, later, key) >= TOKEN);
    } else {
      OtherKeyKeepsLevel(c, s, e, key);
    }
  }

  lemma FreshLevel(c: Config, now: int, key: string)
    requires c.burst > 0
    ensures LevelOf(c, Start(now), key) == Capacity(c)
  {
  }

  lemma ClockOfStep(c: Config, s: State, e: Event)
    ensures Step(c, s, e, false).clock == s.clock + e.wait
  {
    hide Spend;
  }

  /** The limit the middleware promises: in any run one key is admitted at most burst + rps * seconds times - with
      idle limiters forgotten, too, provided buckets refill before they are forgotten. */
  lemma AdmissionsWithinLimit(c: Config, now: int, run: seq<Event>, key: string, forgetting: bool)
    requires c.burst > 0 && (forgetting ==> RefillsInTime(c))
    ensures var t := After(c, Start(now), run, forgetting);
            AdmittedFor(c, Start(now), run, key, forgetting) * TOKEN
            <= c.burst * TOKEN + (t.clock - now) * Max(0, c.rps)
  {
    hide After, LevelOf, AllSound, RefillsInTime, Alike, AdmittedFor;
    SpendingBound(c, now, run, key);
    RunKeepsSound(c, now, run, false);
    WaitingGains(c, After(c, Start(now), run, false), key, 0);
    if forgetting {
      RunsAlike(c, now, run);
      AlikeMeans(c, After(c, Start(now), run, true), After(c, Start(now), run, false));
      SameAdmissions(c, now, run, key);
    }
  }

  lemma AlikeMeans(c: Config, s: State, t: State)
    requires Alike(c, s, t)
    ensures s.clock == t.clock && s.log == t.log
  {
  }

  lemma {:induction false} SameAdmissions(c: Config, now: int, run: seq<Event>, key: string)
    requires RefillsInTime(c)
    ensures AdmittedFor(c, Start(now), run, key, true) == AdmittedFor(c, Start(now), run, key, false)
  {
    hide Step, RefillsInTime, Alike;
    if run != [] {
      var front, e := run[..|run| - 1], run[|run| - 1];
      SameAdmissions(c, now, front, key);
      RunsAlike(c, now, front);
      RunsAlike(c, now, run);
      AlikeMeans(c, After(c, Start(now), front, true), After(c, Start(now), front, false));
      AlikeMeans(c, After(c, Start(now), run, true), After(c, Start(now), run, false));
    }
  }

  /** And what it must admit it admits: in any run, a request that comes after the time one token takes, and the
      first `burst` requests of a key at one instant. */
  lemma PacedRequestAdmitted(c: Config, now: int, run: seq<Event>, key: string, wait: nat, forgetting: bool)
    requires c.burst > 0 && wait * Max(0, c.rps) >= TOKEN
    ensures var s := After(c, Start(now), run, forgetting);
            Step(c, s, Request(key, wait), forgetting).log == s.log + [true]
  {
    hide After, Step, LevelOf, AllSound;
    var s := After(c, Start(now), run, forgetting);
    RunKeepsSound(c, now, run, forgetting);
    WaitingGains(c, s, key, wait);
    WaitThenStep(c, s, Request(key, wait), forgetting);
    RequestSpends(c, s.(clock := s.clock + wait), key, forgetting);
  }

  lemma BurstAdmitted(c: Config, now: int, key: string, n: nat, forgetting: bool)
    requires n <= c.burst
    ensures Admitted(After(c, Start(now), Volley(key, n), forgetting).log) == n
  {
    hide After, Volley, LevelOf;
    if c.burst > 0 {
      FreshLevel(c, now, key);
      VolleySpends(c, Start(now), key, n, forgetting);
      var log := After(c, Start(now), Volley(key, n), forgetting).log;
      assert log[|Start(now).log|..] == log;
    } else {
      EmptyVolley(c, now, key, forgetting);
    }
  }

  lemma EmptyVolley(c: Config, now: int, key: string, forgetting: bool)
    ensures After(c, Start(now), Volley(key, 0), forgetting).log == []
  {
  }

  // ---------------------------------------------------------------- the objects

  class LimiterWithUsage {
    var tokens: int
    var last: int
    var lastAccess: int
    ghost const key: string

    ghost function View(): Limiter
      reads this
    {
      Limiter(Bucket(tokens, last), lastAccess)
    }

    constructor (ghost key: string, c: Config, now: int)
      ensures this.key == key && View() == NewLimiter(c, now)
    {
      this.key, tokens, last, lastAccess := key, Capacity(c), now, now;
    }

    /** rate.Limiter.Allow: the bucket is only written when the request is admitted. */
    method Allow(c: Config, now: int) returns (ok: bool)
      modifies this`tokens, this`last
      ensures (View().bucket, ok) == Spend(c, old(View()).bucket, now)
      ensures View().lastAccess == old(View()).lastAccess
    {
      var level := Level(c, Bucket(tokens, last), now);
      ok := level >= TOKEN;
      if ok {
        tokens, last := level - TOKEN, now;
      }
    }
  }

  class RateLimiter {
    const config: Config
    var limiters: map<string, LimiterWithUsage>
    ghost var table: Table
    ghost var cells: set<LimiterWithUsage>

    ghost predicate Valid()
      reads this, cells
    {
      && limiters.Keys == table.Keys
      && (forall k <- limiters :: limiters[k].key == k && limiters[k] in cells && limiters[k].View() == table[k])
    }

    constructor (rps: int, burst: int)
      ensures Valid() && table == map[] && config == Config(rps, burst)
    {
      config := Config(rps, burst);
      limiters, table, cells := map[], map[], {};
    }

    method GetLimiter(key: string, now: int) returns (l: LimiterWithUsage)
      requires Valid()
      modifies this, cells
      ensures Valid() && key in limiters && l == limiters[key] && fresh(cells - old(cells))
      ensures table == old(table)[key := Lookup(config, old(table), key, now)]
    {
      if key in limiters {
        l := limiters[key];
        l.lastAccess := now;
      } else {
        l := new LimiterWithUsage(key, config, now);
        limiters := limiters[key := l];
        cells := cells + {l};
      }
      table := table[key := Lookup(config, table, key, now)];
    }

    /** Allow on the limiter found. */
    method AllowAt(key: string, now: int) returns (ok: bool)
      requires Valid() && key in limiters
      modifies this`table, limiters[key]
      ensures Valid()
      ensures var (b, admitted) := Spend(config, old(table)[key].bucket, now);
              ok == admitted && table == old(table)[key := old(table)[key].(bucket := b)]
    {
      hide Spend;
      ok := limiters[key].Allow(config, now);
      table := table[key := limiters[key].View()];
    }

    /** What the middleware does for a request that passed the shared limit. */
    method Admit(key: string, now: int) returns (ok: bool)
      requires Valid()
      modifies this, cells
      ensures Valid() && fresh(cells - old(cells))
      ensures (table, ok) == Admission(config, old(table), key, now)
    {
      hide Spend, Lookup, Valid;
      var _ := GetLimiter(key, now);
      ghost var found := table[key];
      ok := AllowAt(key, now);
      assert table == old(table)[key := found.(bucket := table[key].bucket)];
    }

    lemma SameKeys()
      requires Valid()
      ensures limiters.Keys == table.Keys
    {
    }

    lemma LimiterSays(key: string)
      requires Valid() && key in table
      ensures key in limiters && limiters[key].View() == table[key]
    {
    }

    method Delete(ip: string)
      requires Valid()
      modifies this`limiters, this`table
      ensures Valid() && table == old(table) - {ip}
    {
      limiters, table := limiters - {ip}, table - {ip};
    }

    /** One tick of CleanupExpired. */
    method CleanupExpired(now: int)
      requires Valid()
      modifies this`limiters, this`table
      ensures Valid() && table == Forget(old(table), now)
    {
      hide Forget, Valid;
      SameKeys();
      ghost var gone: set<string> := {};
      var todo := limiters.Keys;
      while todo != {}
        invariant Valid() && todo <= table.Keys && table == old(table) - gone
        invariant forall k <- old(table) :: k in gone <==> k !in todo && Idle(old(table)[k], now)
        decreases todo
      {
        var ip :| ip in todo;
        LimiterSays(ip);
        if now - limiters[ip].lastAccess > MAX_AGE {
          Delete(ip);
          gone := gone + {ip};
        }
        todo := todo - {ip};
      }
      RemovedIsForget(old(table), gone, now);
    }
  }

  lemma RemovedIsForget(table: Table, gone: set<string>, now: int)
    requires forall k <- table :: k in gone <==> Idle(table[k], now)
    ensures table - gone == Forget(table, now)
  {
  }
}
