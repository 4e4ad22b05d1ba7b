/** internal/resilience/retry.go: retries with clamped exponential backoff and jitter.

    Durations are integers, multipliers and jitter are reals; time.Duration(float) truncates toward zero. */
module Retries {
  import opened Wrappers

  /** Errors, with the chain that errors.Is follows. */
  datatype Error =
    | Canceled
    | DeadlineExceeded
    | CircuitOpen
    | TooManyRequests
    | Failure(code: int)
    | Wrapped(text: string, inner: Error)
  {
    predicate Is(target: Error) {
      this == target || (Wrapped? && inner.Is(target))
    }
  }

  predicate IsRetryable(err: Option<Error>) {
    && err.Some?
    && !err.value.Is(Canceled) && !err.value.Is(DeadlineExceeded)
    && !err.value.Is(CircuitOpen) && !err.value.Is(TooManyRequests)
  }

  /** `retryIf` is None where the source has nil: every error is retried. */
  datatype Config = Config(maxAttempts: int, initialDelay: int, maxDelay: int, multiplier: real, jitter: real,
                           retryIf: Option<Error -> bool>)

  predicate GivesUp(cfg: Config, err: Error) {
    cfg.retryIf.Some? && !cfg.retryIf.value(err)
  }

  /** What the surroundings decide at attempt k: whether the context is done when it is checked, whether it
      is done while waiting, and the random number drawn. */
  datatype Surroundings = Surroundings(doneBefore: nat -> Option<Error>, doneWhileWaiting: nat -> Option<Error>,
                                       random: nat -> real)

  /** A product of reals, named so that proofs can hide it. */
  function Times(a: real, b: real): real { a * b }

  function Truncate(x: real): int {
    if x >= 0.0 then x.Floor else -((-x).Floor)
  }

  function AddJitter(delay: int, jitter: real, random: real): int {
    if jitter <= 0.0 then delay
    else Truncate(Times(delay as real, 1.0 + Times(random * 2.0 - 1.0, jitter)))
  }

  function NextDelay(cfg: Config, delay: int): int {
    Min(Truncate(Times(delay as real, cfg.multiplier)), cfg.maxDelay)
  }

  /** The end of a Retry: the caller's state, the error returned (None for nil), the results of the calls of
      fn, and the waits requested between them. */
  datatype Outcome<S> = Outcome(state: S, err: Option<Error>, results: seq<Option<Error>>, waits: seq<int>)

  function Extend<S>(results: seq<Option<Error>>, waits: seq<int>, rest: Outcome<S>): Outcome<S> {
    rest.(results := results + rest.results, waits := waits + rest.waits)
  }

  lemma ExtendTwice<S>(results: seq<Option<Error>>, waits: seq<int>, result: Option<Error>, wait: int, rest: Outcome<S>)
    ensures Extend(results, waits, Extend([result], [wait], rest)) == Extend(results + [result], waits + [wait], rest)
  {
    assert results + ([result] + rest.results) == results + [result] + rest.results;
    assert waits + ([wait] + rest.waits) == waits + [wait] + rest.waits;
  }

  /** The loop of Retry from attempt `attempt` on; fn is told the number of the attempt. */
  function RetryFrom<S>(cfg: Config, env: Surroundings, fn: (S, nat) -> (S, Option<Error>), s: S,
                        attempt: nat, delay: int, last: Option<Error>): Outcome<S>
    decreases cfg.maxAttempts - attempt
  {
    if attempt >= cfg.maxAttempts then Outcome(s, last, [], [])
    else if env.doneBefore(attempt).Some? then Outcome(s, env.doneBefore(attempt), [], [])
    else
      var (t, err) := fn(s, attempt);
      if err.None? || GivesUp(cfg, err.value) || attempt == cfg.maxAttempts - 1 then
        Outcome(t, err, [err], [])
      else
        var wait := AddJitter(delay, cfg.jitter, env.random(attempt));
        if env.doneWhileWaiting(attempt).Some? then Outcome(t, env.doneWhileWaiting(attempt), [err], [wait])
        else Extend([err], [wait], RetryFrom(cfg, env, fn, t, attempt + 1, NextDelay(cfg, delay), err))
  }

  lemma ExtendEnds<S>(results: seq<Option<Error>>, waits: seq<int>, o: Outcome<S>)
    ensures Extend(results, waits, o) == Outcome(o.state, o.err, results + o.results, waits + o.waits)
    ensures results == [] && waits == [] ==> Extend(results, waits, o) == o
    ensures o.waits == [] ==> waits + o.waits == waits
    ensures o.results == [] ==> results + o.results == results
  {
  }

  lemma RoundUnfolds<S>(cfg: Config, env: Surroundings, fn: (S, nat) -> (S, Option<Error>), s: S,
                        attempt: nat, delay: int, last: Option<Error>)
    ensures RetryFrom(cfg, env, fn, s, attempt, delay, last)
         == if attempt >= cfg.maxAttempts then Outcome(s, last, [], [])
            else if env.doneBefore(attempt).Some? then Outcome(s, env.doneBefore(attempt), [], [])
            else
              var (t, err) := fn(s, attempt);
              var wait := AddJitter(delay, cfg.jitter, env.random(attempt));
              if err.None? || GivesUp(cfg, err.value) || attempt == cfg.maxAttempts - 1 then Outcome(t, err, [err], [])
              else if env.doneWhileWaiting(attempt).Some?
              then Outcome(t, env.doneWhileWaiting(attempt), [err], [wait])
              else Extend([err], [wait], RetryFrom(cfg, env, fn, t, attempt + 1, NextDelay(cfg, delay), err))
  {
  }

  method Retry<S>(cfg: Config, env: Surroundings, fn: (S, nat) -> (S, Option<Error>), s: S)
    returns (state: S, err: Option<Error>, results: seq<Option<Error>>, waits: seq<int>)
    ensures Outcome(state, err, results, waits) == RetryFrom(cfg, env, fn, s, 0, cfg.initialDelay, None)
  {
    hide AddJitter, NextDelay, RetryFrom, Extend;
    state, results, waits := s, [], [];
    var lastErr: Option<Error> := None;
    var delay := cfg.initialDelay;
    var attempt := 0;
    ghost var whole := RetryFrom(cfg, env, fn, s, 0, delay, None);
    ExtendEnds(results, waits, whole);
    while attempt < cfg.maxAttempts
      invariant 0 <= attempt && (attempt > 0 ==> attempt <= cfg.maxAttempts)
      invariant whole == Extend(results, waits, RetryFrom(cfg, env, fn, state, attempt, delay, lastErr))
    {
      RoundUnfolds(cfg, env, fn, state, attempt, delay, lastErr);
      ExtendEnds(results, waits, RetryFrom(cfg, env, fn, state, attempt, delay, lastErr));
      if env.doneBefore(attempt).Some? {
        err := env.doneBefore(attempt);
        return;
      }
      var (t, result) := fn(state, attempt);
      state, results := t, results + [result];
      if result.None? {
        return t, None, results, waits;
      }
      lastErr := result;
      if cfg.retryIf.Some? && !cfg.retryIf.value(result.value) {
        return t, result, results, waits;
      }
      if attempt == cfg.maxAttempts - 1 {
        return t, lastErr, results, waits;
      }
      var jittered := AddJitter(delay, cfg.jitter, env.random(attempt));
      waits := waits + [jittered];
      if env.doneWhileWaiting(attempt).Some? {
        return t, env.doneWhileWaiting(attempt), results, waits;
      }
      delay := NextDelay(cfg, delay);
      attempt := attempt + 1;
      ExtendTwice(results[..|results| - 1], waits[..|waits| - 1], result, jittered,
                  RetryFrom(cfg, env, fn, state, attempt, delay, lastErr));
    }
    RoundUnfolds(cfg, env, fn, state, attempt, delay, lastErr);
    ExtendEnds(results, waits, RetryFrom(cfg, env, fn, state, attempt, delay, lastErr));
    err := lastErr;
  }

  // ---------------------------------------------------------------- how often, and with what verdict

  /** Retry calls fn at most MaxAttempts times and waits at most MaxAttempts - 1 times. It returns nil
      exactly when the last call succeeded, or when MaxAttempts <= 0 and fn was never called. */
  lemma {:induction false} RetryVerdict<S>(cfg: Config, env: Surroundings, fn: (S, nat) -> (S, Option<Error>),
                                           s: S, attempt: nat, delay: int, last: Option<Error>)
    requires attempt < cfg.maxAttempts || (attempt == 0 && last.None?)
    ensures var o := RetryFrom(cfg, env, fn, s, attempt, delay, last);
            && |o.results| <= Max(0, cfg.maxAttempts - attempt)
            && |o.waits| <= |o.results| && |o.waits| <= Max(0, cfg.maxAttempts - attempt - 1)
            && (o.err.None? <==> cfg.maxAttempts <= 0 || (o.results != [] && o.results[|o.results| - 1].None?))
            && forall i | 0 <= i < |o.results| - 1 :: o.results[i].Some? && !GivesUp(cfg, o.results[i].value)
    decreases cfg.maxAttempts - attempt
  {
    if attempt < cfg.maxAttempts - 1 && env.doneBefore(attempt).None? {
      var (t, err) := fn(s, attempt);
      RetryVerdict(cfg, env, fn, t, attempt + 1, NextDelay(cfg, delay), err);
    }
  }

  /** The state after n calls of fn, the first numbered `first`. */
  function StateAfter<S>(fn: (S, nat) -> (S, Option<Error>), s: S, first: nat, n: nat): S {
    if n == 0 then s else fn(StateAfter(fn, s, first, n - 1), first + n - 1).0
  }

  lemma {:induction false} StateAfterFirst<S>(fn: (S, nat) -> (S, Option<Error>), s: S, first: nat, n: nat)
    ensures StateAfter(fn, fn(s, first).0, first + 1, n) == StateAfter(fn, s, first, n + 1)
    ensures StateAfter(fn, s, first, 0) == s && StateAfter(fn, s, first, 1) == fn(s, first).0
  {
    if n == 0 {
      assert StateAfter(fn, s, first, 0) == s;
    } else {
      StateAfterFirst(fn, s, first, n - 1);
      assert first + 1 + n - 1 == first + (n + 1) - 1;
    }
  }

  /** The first call, and what follows if there is another. */
  lemma FirstCall<S>(cfg: Config, env: Surroundings, fn: (S, nat) -> (S, Option<Error>), s: S, attempt: nat,
                     delay: int, last: Option<Error>)
    ensures var o := RetryFrom(cfg, env, fn, s, attempt, delay, last);
            var (t, err) := fn(s, attempt);
            var rest := RetryFrom(cfg, env, fn, t, attempt + 1, NextDelay(cfg, delay), err);
            || (o.results == [] && o.state == s)
            || (o.results == [err] && o.state == t)
            || (attempt + 1 < cfg.maxAttempts && o.results == [err] + rest.results && o.state == rest.state)
  {
    hide NextDelay, AddJitter;
  }

  /** The results are those of calling fn once per attempt, each call starting where the one before ended. */
  lemma {:induction false} CallsInOrder<S>(cfg: Config, env: Surroundings, fn: (S, nat) -> (S, Option<Error>),
                                           s: S, attempt: nat, delay: int, last: Option<Error>)
    ensures var o := RetryFrom(cfg, env, fn, s, attempt, delay, last);
            && o.state == StateAfter(fn, s, attempt, |o.results|)
            && forall i | 0 <= i < |o.results| :: o.results[i] == fn(StateAfter(fn, s, attempt, i), attempt + i).1
    decreases cfg.maxAttempts - attempt
  {
    hide NextDelay, AddJitter, RetryFrom, StateAfter;
    var o := RetryFrom(cfg, env, fn, s, attempt, delay, last);
    var (t, err) := fn(s, attempt);
    var rest := RetryFrom(cfg, env, fn, t, attempt + 1, NextDelay(cfg, delay), err);
    FirstCall(cfg, env, fn, s, attempt, delay, last);
    StateAfterFirst(fn, s, attempt, 0);
    if o.results != [] && attempt + 1 < cfg.maxAttempts && o.results == [err] + rest.results && o.state == rest.state {
      CallsInOrder(cfg, env, fn, t, attempt + 1, NextDelay(cfg, delay), err);
      StateAfterFirst(fn, s, attempt, |rest.results|);
      forall i | 1 <= i < |o.results| ensures o.results[i] == fn(StateAfter(fn, s, attempt, i), attempt + i).1 {
        StateAfterFirst(fn, s, attempt, i - 1);
        assert o.results[i] == rest.results[i - 1];
      }
    }
  }

  /** One round of the loop: where it ends, or how it goes on. */
  lemma OneRound<S>(cfg: Config, env: Surroundings, fn: (S, nat) -> (S, Option<Error>), s: S, attempt: nat,
                    delay: int, last: Option<Error>)
    requires attempt < cfg.maxAttempts
    ensures var o := RetryFrom(cfg, env, fn, s, attempt, delay, last);
            var (t, err) := fn(s, attempt);
            var rest := RetryFrom(cfg, env, fn, t, attempt + 1, NextDelay(cfg, delay), err);
            if env.doneBefore(attempt).Some?
            then o.results == [] && o.err == env.doneBefore(attempt) && o.waits == []
            else if err.None? || (cfg.retryIf.Some? && !cfg.retryIf.value(err.value)) || attempt + 1 == cfg.maxAttempts
            then o.results == [err] && o.err == err && o.waits == []
            else if env.doneWhileWaiting(attempt).Some?
            then o.results == [err] && o.err == env.doneWhileWaiting(attempt) && |o.waits| == 1
            else o.results == [err] + rest.results && o.err == rest.err && |o.waits| == 1 + |rest.waits|
  {
    hide NextDelay, AddJitter;
  }

  /** Why Retry stops, and with which error: after the k-th call it stops if that call succeeded, if RetryIf
      refuses its error, or if it was the last attempt, and then returns its result; otherwise the context was
      done, while waiting or just after. Without RetryIf no error is refused. */
  lemma {:induction false} WhyRetryStops<S>(cfg: Config, env: Surroundings, fn: (S, nat) -> (S, Option<Error>),
                                            s: S, attempt: nat, delay: int, last: Option<Error>)
    requires attempt < cfg.maxAttempts
    ensures var o := RetryFrom(cfg, env, fn, s, attempt, delay, last);
            var k := |o.results|;
            if k == 0 then env.doneBefore(attempt).Some? && o.err == env.doneBefore(attempt) && o.waits == []
            else
              var final := o.results[k - 1];
              if final.None? || (cfg.retryIf.Some? && !cfg.retryIf.value(final.value))
                 || attempt + k == cfg.maxAttempts
              then o.err == final && |o.waits| == k - 1
              else
                && |o.waits| == k && attempt + k < cfg.maxAttempts && o.err.Some?
                && o.err == if env.doneWhileWaiting(attempt + k - 1).Some? then env.doneWhileWaiting(attempt + k - 1)
                            else env.doneBefore(attempt + k)
    decreases cfg.maxAttempts - attempt
  {
    hide NextDelay, AddJitter, RetryFrom;
    OneRound(cfg, env, fn, s, attempt, delay, last);
    if env.doneBefore(attempt).None? {
      var (t, err) := fn(s, attempt);
      if err.Some? && (cfg.retryIf.None? || cfg.retryIf.value(err.value)) && attempt < cfg.maxAttempts - 1
         && env.doneWhileWaiting(attempt).None? {
        WhyRetryStops(cfg, env, fn, t, attempt + 1, NextDelay(cfg, delay), err);
        assert attempt + 1 + |RetryFrom(cfg, env, fn, t, attempt + 1, NextDelay(cfg, delay), err).results|
            == attempt + |RetryFrom(cfg, env, fn, s, attempt, delay, last).results|;
      }
    }
  }

  /** By default - no RetryIf - and while the context lives, fn is called until it succeeds or MaxAttempts calls
      have failed. */
  lemma DefaultRetriesEveryError<S>(cfg: Config, env: Surroundings, fn: (S, nat) -> (S, Option<Error>), s: S)
    requires cfg.maxAttempts >= 1 && cfg.retryIf.None?
    requires forall k: nat :: env.doneBefore(k).None? && env.doneWhileWaiting(k).None?
    ensures var o := RetryFrom(cfg, env, fn, s, 0, cfg.initialDelay, None);
            o.results != [] && o.err == o.results[|o.results| - 1]
            && (o.err.None? || |o.results| == cfg.maxAttempts)
  {
    hide RetryFrom;
    WhyRetryStops(cfg, env, fn, s, 0, cfg.initialDelay, None);
  }

  // ---------------------------------------------------------------- errors

  /** The errors that errors.Is looks at. */
  function Chain(err: Error): seq<Error> {
    [err] + if err.Wrapped? then Chain(err.inner) else []
  }

  lemma {:induction false} IsLooksAtChain(err: Error, target: Error)
    ensures err.Is(target) <==> target in Chain(err)
  {
    if err.Wrapped? {
      IsLooksAtChain(err.inner, target);
    }
  }

  /** An error is retryable exactly if neither it nor anything it wraps is a context or a breaker error. */
  lemma RetryableIff(err: Error)
    ensures IsRetryable(Some(err))
            <==> forall e <- Chain(err) ::
                   e != Canceled && e != DeadlineExceeded && e != CircuitOpen && e != TooManyRequests
    ensures !IsRetryable(None)
  {
    hide Chain;
    IsLooksAtChain(err, Canceled);
    IsLooksAtChain(err, DeadlineExceeded);
    IsLooksAtChain(err, CircuitOpen);
    IsLooksAtChain(err, TooManyRequests);
  }

  // ---------------------------------------------------------------- jitter

  lemma TruncateMonotone(x: real, y: real)
    requires x <= y
    ensures Truncate(x) <= Truncate(y)
  {
  }

  /** Jitter spreads the delay evenly around itself: the larger the random number the longer the wait, from
      (1 - jitter) times the delay at 0 over the delay itself at 1/2 up to (1 + jitter) times it; without jitter
      the wait is the delay. */
  lemma JitterSpreads(delay: int, jitter: real, random: real, larger: real)
    requires 0 <= delay && 0.0 <= random <= larger <= 1.0
    ensures jitter <= 0.0 ==> AddJitter(delay, jitter, random) == delay
    ensures AddJitter(delay, jitter, 0.5) == delay
    ensures AddJitter(delay, jitter, random) <= AddJitter(delay, jitter, larger)
    ensures jitter > 0.0 ==> AddJitter(delay, jitter, 0.0) == Truncate(Times(delay as real, 1.0 - jitter))
    ensures jitter > 0.0 ==> AddJitter(delay, jitter, 1.0) == Truncate(Times(delay as real, 1.0 + jitter))
  {
    hide Times, Truncate;
    TruncateInteger(delay);
    TimesUnits(delay as real);
    Swings(jitter);
    if jitter > 0.0 {
      JitterEnds(delay, jitter, 0.0);
      JitterEnds(delay, jitter, 1.0);
      var a, b := Times(random * 2.0 - 1.0, jitter), Times(larger * 2.0 - 1.0, jitter);
      MulMonotone(random * 2.0 - 1.0, larger * 2.0 - 1.0, jitter);
      MulMonotone(1.0 + a, 1.0 + b, delay as real);
      TimesCommutes(1.0 + a, delay as real);
      TimesCommutes(1.0 + b, delay as real);
      TruncateMonotone(Times(delay as real, 1.0 + a), Times(delay as real, 1.0 + b));
    }
  }

  lemma Swings(jitter: real)
    ensures Times(0.5 * 2.0 - 1.0, jitter) == 0.0
  {
  }

  lemma JitterEnds(delay: int, jitter: real, random: real)
    requires jitter > 0.0
    ensures random == 0.0 ==> AddJitter(delay, jitter, random) == Truncate(Times(delay as real, 1.0 - jitter))
    ensures random == 1.0 ==> AddJitter(delay, jitter, random) == Truncate(Times(delay as real, 1.0 + jitter))
  {
    hide Truncate, Times;
    UnitSwing(random * 2.0 - 1.0, jitter);
  }

  lemma UnitSwing(swing: real, jitter: real)
    ensures swing == -1.0 ==> Times(swing, jitter) == -jitter
    ensures swing == 1.0 ==> Times(swing, jitter) == jitter
  {
  }

  lemma TimesCommutes(a: real, b: real)
    ensures Times(a, b) == Times(b, a)
  {
  }

  // ---------------------------------------------------------------- backoff arithmetic

  function Pow(x: real, n: nat): real {
    if n == 0 then 1.0 else Times(Pow(x, n - 1), x)
  }

  /** The delay before retry k, without jitter. */
  function DelayAt(cfg: Config, k: nat): int {
    if k == 0 then cfg.initialDelay else NextDelay(cfg, DelayAt(cfg, k - 1))
  }

  function ExponentialBackoff(attempt: nat, initialDelay: int, maxDelay: int, multiplier: real): int {
    Clamp(Times(initialDelay as real, Pow(multiplier, attempt)), maxDelay)
  }

  function Clamp(delay: real, maxDelay: int): int {
    if delay > maxDelay as real then maxDelay else Truncate(delay)
  }

  /** The i-th wait requested from attempt `attempt` on is the jittered i-th delay. */
  lemma {:induction false} WaitIsJitteredDelay<S>(cfg: Config, env: Surroundings,
      fn: (S, nat) -> (S, Option<Error>), s: S, attempt: nat, last: Option<Error>, i: nat)
    requires i < |RetryFrom(cfg, env, fn, s, attempt, DelayAt(cfg, attempt), last).waits|
    ensures RetryFrom(cfg, env, fn, s, attempt, DelayAt(cfg, attempt), last).waits[i]
         == AddJitter(DelayAt(cfg, attempt + i), cfg.jitter, env.random(attempt + i))
    decreases i
  {
    hide AddJitter, NextDelay;
    if i > 0 {
      var (t, err) := fn(s, attempt);
      assert DelayAt(cfg, attempt + 1) == NextDelay(cfg, DelayAt(cfg, attempt));
      WaitIsJitteredDelay(cfg, env, fn, t, attempt + 1, err, i - 1);
      assert attempt + 1 + (i - 1) == attempt + i;
    }
  }

  lemma MulMonotone(a: real, b: real, m: real)
    requires a <= b && m >= 0.0
    ensures Times(a, m) <= Times(b, m)
  {
  }

  lemma FloorMonotone(a: real, b: real)
    requires a <= b
    ensures a.Floor <= b.Floor
  {
  }

  /** InitialDelay * multiplier^k, one factor at a time. */
  function Growth(initialDelay: int, multiplier: real, k: nat): real {
    if k == 0 then initialDelay as real else Times(Growth(initialDelay, multiplier, k - 1), multiplier)
  }

  lemma TimesAssociative(a: real, b: real, c: real)
    ensures Times(Times(a, b), c) == Times(a, Times(b, c))
  {
  }

  lemma TimesUnits(a: real)
    ensures Times(a, 1.0) == Times(1.0, a) == a && Times(0.0, a) == 0.0
  {
  }

  lemma {:induction false} GrowthIsPower(initialDelay: int, multiplier: real, k: nat)
    ensures Growth(initialDelay, multiplier, k) == Times(initialDelay as real, Pow(multiplier, k))
  {
    hide Times;
    TimesUnits(initialDelay as real);
    if k > 0 {
      GrowthIsPower(initialDelay, multiplier, k - 1);
      TimesAssociative(initialDelay as real, Pow(multiplier, k - 1), multiplier);
    }
  }

  /** Truncating and clamping in every round never pushes the delay above the exact product. */
  lemma {:induction false} DelayBounds(cfg: Config, k: nat)
    requires 0 <= cfg.initialDelay && 0 <= cfg.maxDelay && cfg.multiplier >= 0.0
    ensures 0 <= DelayAt(cfg, k) && DelayAt(cfg, k) as real <= Growth(cfg.initialDelay, cfg.multiplier, k)
    ensures k > 0 ==> DelayAt(cfg, k) <= cfg.maxDelay
  {
    hide Times;
    if k > 0 {
      DelayBounds(cfg, k - 1);
      var d := DelayAt(cfg, k - 1) as real;
      TimesUnits(cfg.multiplier);
      MulMonotone(0.0, d, cfg.multiplier);
      MulMonotone(d, Growth(cfg.initialDelay, cfg.multiplier, k - 1), cfg.multiplier);
    }
  }

  lemma ClampAbove(delay: int, exact: real, maxDelay: int)
    requires 0 <= delay && delay as real <= exact && 0 <= maxDelay
    ensures delay <= Clamp(exact, maxDelay) <==> delay <= maxDelay
  {
    FloorMonotone(delay as real, exact);
  }

  /** The loop never waits longer than ExponentialBackoff says, for every multiplier that is not negative,
      except before the first retry when InitialDelay exceeds MaxDelay. */
  lemma DelayNeverExceedsBackoff(cfg: Config, k: nat)
    requires 0 <= cfg.initialDelay && 0 <= cfg.maxDelay && cfg.multiplier >= 0.0
    ensures (DelayAt(cfg, k) <= ExponentialBackoff(k, cfg.initialDelay, cfg.maxDelay, cfg.multiplier))
              <==> (k > 0 || cfg.initialDelay <= cfg.maxDelay)
  {
    hide Times;
    DelayBounds(cfg, k);
    GrowthIsPower(cfg.initialDelay, cfg.multiplier, k);
    ClampAbove(DelayAt(cfg, k), Growth(cfg.initialDelay, cfg.multiplier, k), cfg.maxDelay);
  }

  lemma OnceClampedStays(exact: real, maxDelay: int, multiplier: real)
    requires exact > maxDelay as real && 0 <= maxDelay && multiplier >= 1.0
    ensures Times(exact, multiplier) > maxDelay as real
    ensures Min(Truncate(Times(maxDelay as real, multiplier)), maxDelay) == maxDelay
  {
    assert Times(exact, multiplier) == exact + exact * (multiplier - 1.0);
    assert Times(maxDelay as real, multiplier) == maxDelay as real + maxDelay as real * (multiplier - 1.0);
    FloorMonotone(maxDelay as real, Times(maxDelay as real, multiplier));
  }

  lemma IntegerProduct(d: int, m: int)
    ensures Times(d as real, m as real) == (d * m) as real
  {
  }

  /** With an integer multiplier truncation loses nothing, because every exact product is an integer. */
  lemma {:induction false} IntegerDelays(cfg: Config, m: int, k: nat)
    requires 0 <= cfg.initialDelay && 0 <= cfg.maxDelay && cfg.multiplier == m as real && m >= 1
    requires k > 0 || cfg.initialDelay <= cfg.maxDelay
    ensures var exact := Growth(cfg.initialDelay, cfg.multiplier, k);
            DelayAt(cfg, k) as real == if exact > cfg.maxDelay as real then cfg.maxDelay as real else exact
  {
    hide Times;
    if k > 0 {
      var d, exact := DelayAt(cfg, k - 1), Growth(cfg.initialDelay, cfg.multiplier, k - 1);
      IntegerProduct(d, m);
      if k > 1 || cfg.initialDelay <= cfg.maxDelay {
        IntegerDelays(cfg, m, k - 1);
      }
      if exact > cfg.maxDelay as real {
        OnceClampedStays(exact, cfg.maxDelay, cfg.multiplier);
      }
      TruncateInteger(d * m);
    }
  }

  lemma TruncateInteger(n: int)
    ensures Truncate(n as real) == n
  {
  }

  /** For an integer multiplier the loop's delay is ExponentialBackoff's, at every k, exactly when k > 0 or
      InitialDelay <= MaxDelay: the loop does not clamp its first delay. */
  lemma DelayEqualsBackoff(cfg: Config, m: int, k: nat)
    requires 0 <= cfg.initialDelay && 0 <= cfg.maxDelay && cfg.multiplier == m as real && m >= 1
    ensures (DelayAt(cfg, k) == ExponentialBackoff(k, cfg.initialDelay, cfg.maxDelay, cfg.multiplier))
              <==> (k > 0 || cfg.initialDelay <= cfg.maxDelay)
  {
    hide Times;
    GrowthIsPower(cfg.initialDelay, cfg.multiplier, k);
    if k > 0 || cfg.initialDelay <= cfg.maxDelay {
      IntegerDelays(cfg, m, k);
      TruncateInteger(DelayAt(cfg, k));
    } else {
      DelayNeverExceedsBackoff(cfg, k);
    }
  }

  /** A delay on which a round of the loop leaves no trace: it has reached MaxDelay, or what the multiplier adds
      to it is less than one unit and gets truncated. */
  ghost predicate Stalls(cfg: Config, delay: int) {
    && (delay == 0 || cfg.multiplier >= 1.0)
    && (delay == cfg.maxDelay || (delay < cfg.maxDelay && Times(delay as real, cfg.multiplier - 1.0) < 1.0))
  }

  lemma ProductGrows(delay: int, m: real)
    requires 0 <= delay && 0.0 <= m
    ensures Times(delay as real, m) == delay as real + Times(delay as real, m - 1.0)
    ensures Times(delay as real, m - 1.0) >= 0.0 <==> delay == 0 || m >= 1.0
  {
  }

  lemma NextDelayKeepsIff(cfg: Config, delay: int)
    requires 0 <= delay && 0 <= cfg.maxDelay && cfg.multiplier >= 0.0
    ensures NextDelay(cfg, delay) == delay <==> Stalls(cfg, delay)
  {
    hide Times;
    ProductGrows(delay, cfg.multiplier);
    MulMonotone(0.0, delay as real, cfg.multiplier);
    TimesUnits(cfg.multiplier);
  }

  lemma {:induction false} StallIsForGood(cfg: Config, j: nat, k: nat)
    requires NextDelay(cfg, DelayAt(cfg, j)) == DelayAt(cfg, j) && j <= k
    ensures DelayAt(cfg, k) == DelayAt(cfg, j)
  {
    hide Times, NextDelay;
    if j < k {
      StallIsForGood(cfg, j, k - 1);
    }
  }

  /** The loop's delay stays for good at its j-th value exactly if that value stalls. */
  lemma DelayStaysIff(cfg: Config, j: nat)
    requires 0 <= cfg.initialDelay && 0 <= cfg.maxDelay && cfg.multiplier >= 0.0
    ensures (forall k: nat | j <= k :: DelayAt(cfg, k) == DelayAt(cfg, j)) <==> Stalls(cfg, DelayAt(cfg, j))
  {
    hide Times, NextDelay, Stalls;
    DelayBounds(cfg, j);
    NextDelayKeepsIff(cfg, DelayAt(cfg, j));
    if Stalls(cfg, DelayAt(cfg, j)) {
      forall k: nat | j <= k ensures DelayAt(cfg, k) == DelayAt(cfg, j) {
        StallIsForGood(cfg, j, k);
      }
    } else {
      assert DelayAt(cfg, j + 1) == NextDelay(cfg, DelayAt(cfg, j));
    }
  }

  /** Exactly when the loop never leaves its first delay, read off the configuration. */
  lemma NeverGrowsIff(cfg: Config)
    requires 0 <= cfg.initialDelay && 0 <= cfg.maxDelay && cfg.multiplier >= 1.0
    ensures (forall k: nat :: DelayAt(cfg, k) == cfg.initialDelay)
            <==> cfg.initialDelay == cfg.maxDelay
                 || (cfg.initialDelay < cfg.maxDelay
                     && Times(cfg.initialDelay as real, cfg.multiplier - 1.0) < 1.0)
  {
    hide Times, NextDelay;
    DelayStaysIff(cfg, 0);
    assert DelayAt(cfg, 0) == cfg.initialDelay;
  }

  lemma NextDelayClimbs(cfg: Config, delay: int)
    requires 0 <= cfg.initialDelay <= delay && cfg.multiplier >= 1.0
    requires Times(cfg.initialDelay as real, cfg.multiplier - 1.0) >= 1.0
    ensures NextDelay(cfg, delay) >= Min(delay + 1, cfg.maxDelay)
  {
    hide Times;
    MulMonotone(cfg.initialDelay as real, delay as real, cfg.multiplier - 1.0);
    ProductGrows(delay, cfg.multiplier);
  }

  lemma {:induction false} DelayClimbs(cfg: Config, k: nat)
    requires 0 <= cfg.initialDelay <= cfg.maxDelay && cfg.multiplier >= 1.0
    requires Times(cfg.initialDelay as real, cfg.multiplier - 1.0) >= 1.0
    ensures Min(cfg.initialDelay + k, cfg.maxDelay) <= DelayAt(cfg, k) <= cfg.maxDelay
  {
    hide Times, NextDelay;
    if k > 0 {
      DelayClimbs(cfg, k - 1);
      NextDelayClimbs(cfg, DelayAt(cfg, k - 1));
      DelayBounds(cfg, k);
    }
  }

  /** The loop ever waits MaxDelay exactly if it starts there, or its first step adds at least one unit: for a
      smaller InitialDelay growth never begins. */
  lemma DelayReachesMaximumIff(cfg: Config)
    requires 0 <= cfg.initialDelay && 0 <= cfg.maxDelay && cfg.multiplier >= 1.0
    ensures (exists k: nat :: DelayAt(cfg, k) == cfg.maxDelay)
            <==> cfg.maxDelay <= cfg.initialDelay
                 || Times(cfg.initialDelay as real, cfg.multiplier - 1.0) >= 1.0
  {
    hide Times, NextDelay;
    NeverGrowsIff(cfg);
    if cfg.maxDelay < cfg.initialDelay {
      FirstDelayIsClamped(cfg);
    } else if cfg.maxDelay == cfg.initialDelay {
      assert DelayAt(cfg, 0) == cfg.maxDelay;
    } else if Times(cfg.initialDelay as real, cfg.multiplier - 1.0) >= 1.0 {
      DelayClimbs(cfg, cfg.maxDelay - cfg.initialDelay);
    }
  }

  lemma FirstDelayIsClamped(cfg: Config)
    requires 0 <= cfg.maxDelay < cfg.initialDelay && cfg.multiplier >= 1.0
    ensures DelayAt(cfg, 1) == cfg.maxDelay
  {
    hide Times;
    ProductGrows(cfg.initialDelay, cfg.multiplier);
    assert DelayAt(cfg, 1) == NextDelay(cfg, DelayAt(cfg, 0));
  }

  /** Bernoulli's inequality for the exact product. */
  lemma {:induction false} GrowthAtLeastLinear(initialDelay: int, multiplier: real, k: nat)
    requires 0 <= initialDelay && multiplier >= 1.0
    ensures Growth(initialDelay, multiplier, k)
         >= initialDelay as real + Times(k as real, Times(initialDelay as real, multiplier - 1.0))
  {
    hide Times;
    var step := Times(initialDelay as real, multiplier - 1.0);
    TimesUnits(step);
    ProductGrows(initialDelay, multiplier);
    if k > 0 {
      GrowthAtLeastLinear(initialDelay, multiplier, k - 1);
      var before := Growth(initialDelay, multiplier, k - 1);
      MulMonotone(0.0, (k - 1) as real, step);
      TimesSuccessor(k - 1, step);
      MulMonotone(initialDelay as real, before, multiplier - 1.0);
      OneMoreFactor(before, multiplier);
    }
  }

  lemma OneMoreFactor(x: real, m: real)
    ensures Times(x, m) == x + Times(x, m - 1.0)
  {
  }

  lemma Archimedes(step: real, target: int) returns (n: nat)
    requires step > 0.0
    ensures Times(n as real, step) > target as real
  {
    n := Max(0, (target as real / step).Floor + 1);
    MulMonotone(target as real / step, n as real, step);
    var quotient := target as real / step;
    assert quotient < n as real;
    assert Times(quotient, step) == target as real;
    assert Times(n as real, step) == Times(quotient, step) + (n as real - quotient) * step;
  }

  /** ExponentialBackoff, by contrast, reaches MaxDelay with every multiplier above 1. */
  lemma BackoffReachesMaximum(initialDelay: int, maxDelay: int, multiplier: real) returns (k: nat)
    requires initialDelay >= 1 && multiplier > 1.0
    ensures ExponentialBackoff(k, initialDelay, maxDelay, multiplier) == maxDelay
  {
    hide Times;
    ProductPositive(initialDelay, multiplier);
    k := Archimedes(Times(initialDelay as real, multiplier - 1.0), maxDelay);
    GrowthAtLeastLinear(initialDelay, multiplier, k);
    GrowthIsPower(initialDelay, multiplier, k);
  }

  lemma ProductPositive(initialDelay: int, multiplier: real)
    requires initialDelay >= 1 && multiplier > 1.0
    ensures Times(initialDelay as real, multiplier - 1.0) > 0.0
  {
  }

  /** With a fractional multiplier the repeated truncation can lose all growth: from 1 with factor 1.5 the
      loop stays at 1 where ExponentialBackoff reaches 2. */
  lemma FractionalMultiplierStalls()
    ensures var cfg := Config(10, 1, 100, 1.5, 0.0, None);
            DelayAt(cfg, 2) == 1 && ExponentialBackoff(2, 1, 100, 1.5) == 2
  {
    var cfg := Config(10, 1, 100, 1.5, 0.0, None);
    assert DelayAt(cfg, 1) == 1;
    assert Pow(1.5, 1) == 1.5;
    assert Pow(1.5, 2) == 2.25;
  }

  // ---------------------------------------------------------------- the total wait

  function Sum(xs: seq<int>): int {
    if xs == [] then 0 else xs[0] + Sum(xs[1..])
  }

  lemma TimesSuccessor(n: int, bound: real)
    ensures Times((n + 1) as real, bound) == Times(n as real, bound) + bound
  {
  }

  lemma {:induction false} SumBound(xs: seq<int>, bound: real)
    requires forall i | 0 <= i < |xs| :: xs[i] as real <= bound
    ensures Sum(xs) as real <= Times(|xs| as real, bound)
  {
    hide Times;
    TimesUnits(bound);
    if xs != [] {
      SumBound(xs[1..], bound);
      TimesSuccessor(|xs| - 1, bound);
    }
  }

  lemma {:induction false} DelayCeiling(cfg: Config, k: nat)
    ensures DelayAt(cfg, k) <= Max(cfg.initialDelay, cfg.maxDelay)
  {
    hide Times;
    if k > 0 {
      DelayCeiling(cfg, k - 1);
    }
  }

  lemma TruncateCeiling(x: real, bound: real)
    requires x <= bound && 0.0 <= bound
    ensures Truncate(x) as real <= bound
  {
  }

  lemma TimesMonotone(a: real, b: real, c: real, d: real)
    requires a <= b && 0.0 <= b && 0.0 <= c <= d
    ensures Times(a, c) <= Times(d, b)
  {
    MulMonotone(a, b, c);
    MulMonotone(c, d, b);
  }

  lemma JitterCeiling(delay: int, ceiling: int, jitter: real, random: real)
    requires delay <= ceiling && 0 <= ceiling && 0.0 <= jitter <= 1.0 && 0.0 <= random < 1.0
    ensures AddJitter(delay, jitter, random) as real <= Times(1.0 + jitter, ceiling as real)
  {
    hide Times;
    var swing := random * 2.0 - 1.0;
    TimesUnits(jitter);
    MulMonotone(swing, 1.0, jitter);
    SwingBelow(swing, jitter);
    var factor := 1.0 + Times(swing, jitter);
    TimesMonotone(delay as real, ceiling as real, factor, 1.0 + jitter);
    TimesMonotone(delay as real, ceiling as real, 1.0, 1.0 + jitter);
    TimesMonotone(0.0, ceiling as real, 1.0, 1.0 + jitter);
    TimesUnits(delay as real);
    TimesUnits(1.0);
    TruncateCeiling(Times(delay as real, factor), Times(1.0 + jitter, ceiling as real));
  }

  lemma SwingBelow(swing: real, jitter: real)
    requires -1.0 <= swing && 0.0 <= jitter <= 1.0
    ensures Times(swing, jitter) >= -1.0
  {
    MulMonotone(-1.0, swing, jitter);
  }

  lemma WaitCeiling<S>(cfg: Config, env: Surroundings, fn: (S, nat) -> (S, Option<Error>), s: S, i: nat)
    requires 0.0 <= cfg.jitter <= 1.0 && Max(cfg.initialDelay, cfg.maxDelay) >= 0
    requires forall k: nat :: 0.0 <= env.random(k) < 1.0
    requires i < |RetryFrom(cfg, env, fn, s, 0, cfg.initialDelay, None).waits|
    ensures RetryFrom(cfg, env, fn, s, 0, cfg.initialDelay, None).waits[i] as real
              <= Times(1.0 + cfg.jitter, Max(cfg.initialDelay, cfg.maxDelay) as real)
  {
    hide Times, AddJitter, NextDelay, RetryFrom;
    WaitIsJitteredDelay(cfg, env, fn, s, 0, None, i);
    DelayCeiling(cfg, i);
    JitterCeiling(DelayAt(cfg, i), Max(cfg.initialDelay, cfg.maxDelay), cfg.jitter, env.random(i));
  }

  /** All waits one Retry can request add up to at most
      (MaxAttempts - 1) * ((1 + Jitter) * max(InitialDelay, MaxDelay)), whatever the multiplier. */
  lemma TotalWaitBound<S>(cfg: Config, env: Surroundings, fn: (S, nat) -> (S, Option<Error>), s: S)
    requires cfg.maxAttempts >= 1 && 0.0 <= cfg.jitter <= 1.0 && Max(cfg.initialDelay, cfg.maxDelay) >= 0
    requires forall k: nat :: 0.0 <= env.random(k) < 1.0
    ensures Sum(RetryFrom(cfg, env, fn, s, 0, cfg.initialDelay, None).waits) as real
              <= Times((cfg.maxAttempts - 1) as real,
                       Times(1.0 + cfg.jitter, Max(cfg.initialDelay, cfg.maxDelay) as real))
  {
    hide Times, RetryFrom;
    var waits := RetryFrom(cfg, env, fn, s, 0, cfg.initialDelay, None).waits;
    var ceiling := Max(cfg.initialDelay, cfg.maxDelay);
    var bound := Times(1.0 + cfg.jitter, ceiling as real);
    forall i | 0 <= i < |waits| ensures waits[i] as real <= bound {
      WaitCeiling(cfg, env, fn, s, i);
    }
    SumBound(waits, bound);
    RetryVerdict(cfg, env, fn, s, 0, cfg.initialDelay, None);
    TimesMonotone(0.0, ceiling as real, 1.0, 1.0 + cfg.jitter);
    TimesUnits(1.0);
    MulMonotone(|waits| as real, (cfg.maxAttempts - 1) as real, bound);
  }
}
