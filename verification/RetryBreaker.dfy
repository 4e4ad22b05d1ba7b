/** Retry around a circuit breaker: fn is CircuitBreaker.Execute of some function, and RetryIf is IsRetryable. */
module RetryOverBreaker {
  import opened Wrappers
  import opened Retries
  import B = CircuitBreakers

  /** The clock at attempt k: when admission is decided, when that changes the state, when the result is recorded. */
  datatype Clock = Clock(admit: nat -> int, transition: nat -> int, record: nat -> int)

  /** The breaker, and how often the wrapped function has run. */
  datatype Guarded = Guarded(breaker: B.Breaker, runs: nat)

  /** CircuitBreaker.Execute at attempt k, where the wrapped function would return `result(k)`. */
  function Execute(cfg: B.Config, clock: Clock, result: nat -> Option<Error>, g: Guarded, k: nat)
    : (Guarded, Option<Error>)
  {
    var (b, verdict) := B.BeforeRequest(cfg, g.breaker, clock.admit(k), clock.transition(k));
    match verdict
    case CircuitOpen => (Guarded(b, g.runs), Some(CircuitOpen))
    case TooManyRequests => (Guarded(b, g.runs), Some(TooManyRequests))
    case Admitted =>
      (Guarded(B.AfterRequest(cfg, b, result(k).None?, clock.record(k)), g.runs + 1), result(k))
  }

  function Guard(cfg: B.Config, clock: Clock, result: nat -> Option<Error>)
    : (Guarded, nat) -> (Guarded, Option<Error>)
  {
    (g: Guarded, k: nat) => Execute(cfg, clock, result, g, k)
  }

  function RetryableOnly(): Option<Error -> bool> {
    Some((e: Error) => IsRetryable(Some(e)))
  }

  /** Every wait between recording a result and the next attempt lasts at most Timeout. */
  ghost predicate WaitsWithinTimeout(cfg: B.Config, clock: Clock) {
    forall k: nat :: clock.admit(k + 1) <= clock.record(k) + cfg.timeout
  }

  ghost function Run(rc: Config, env: Surroundings, cfg: B.Config, clock: Clock, result: nat -> Option<Error>,
                     g: Guarded, attempt: nat, delay: int, last: Option<Error>): Outcome<Guarded>
  {
    RetryFrom(rc, env, Guard(cfg, clock, result), g, attempt, delay, last)
  }

  /** As soon as the circuit is open, the next attempt is rejected and Retry ends with that rejection (or with
      the context's error, or with the last error when the attempts are used up); nothing runs any more. */
  lemma OpenEndsRetry(rc: Config, env: Surroundings, cfg: B.Config, clock: Clock, result: nat -> Option<Error>,
                      g: Guarded, attempt: nat, delay: int, last: Option<Error>)
    requires rc.retryIf == RetryableOnly() && g.breaker.phase == B.Open
    requires clock.admit(attempt) <= g.breaker.lastStateChange + cfg.timeout
    ensures var o := Run(rc, env, cfg, clock, result, g, attempt, delay, last);
            && o.state == g && o.waits == []
            && o.err == if attempt >= rc.maxAttempts then last
                        else if env.doneBefore(attempt).Some? then env.doneBefore(attempt)
                        else Some(CircuitOpen)
  {
    assert Guard(cfg, clock, result)(g, attempt) == (g, Some(CircuitOpen));
  }

  /** The same when a half-open circuit has used up its probes: Retry ends with that rejection. */
  lemma ExhaustedProbesEndRetry(rc: Config, env: Surroundings, cfg: B.Config, clock: Clock,
                                result: nat -> Option<Error>, g: Guarded, attempt: nat, delay: int,
                                last: Option<Error>)
    requires rc.retryIf == RetryableOnly() && g.breaker.phase == B.HalfOpen
    requires g.breaker.halfOpenRequests >= cfg.maxHalfOpenRequests
    requires attempt < rc.maxAttempts && env.doneBefore(attempt).None?
    ensures var o := Run(rc, env, cfg, clock, result, g, attempt, delay, last);
            o.state == g && o.waits == [] && o.err == Some(TooManyRequests)
  {
    assert Guard(cfg, clock, result)(g, attempt) == (g, Some(TooManyRequests));
  }

  /** As the only user of a closed breaker with f recorded failures, Retry runs the wrapped function at most
      min(MaxAttempts, MaxFailures - f) times. */
  lemma {:induction false} RunsWithinBudget(rc: Config, env: Surroundings, cfg: B.Config, clock: Clock,
                                            result: nat -> Option<Error>, g: Guarded, attempt: nat, delay: int,
                                            last: Option<Error>)
    requires rc.retryIf == RetryableOnly() && WaitsWithinTimeout(cfg, clock)
    requires g.breaker.phase == B.Closed && 0 <= g.breaker.failures < cfg.maxFailures
    ensures Run(rc, env, cfg, clock, result, g, attempt, delay, last).state.runs - g.runs
              <= Min(Max(0, rc.maxAttempts - attempt), cfg.maxFailures - g.breaker.failures)
    decreases rc.maxAttempts - attempt
  {
    hide AddJitter, NextDelay, IsRetryable;
    if attempt < rc.maxAttempts && env.doneBefore(attempt).None? {
      var (t, err) := Guard(cfg, clock, result)(g, attempt);
      assert (t, err) == Execute(cfg, clock, result, g, attempt);
      if err.Some? && attempt < rc.maxAttempts - 1 {
        if t.breaker.phase == B.Open {
          OpenEndsRetry(rc, env, cfg, clock, result, t, attempt + 1, NextDelay(rc, delay), err);
        } else {
          RunsWithinBudget(rc, env, cfg, clock, result, t, attempt + 1, NextDelay(rc, delay), err);
        }
      }
    }
  }

  /** When every run fails with a retryable error, the context stays alive and attempts remain, the budget is
      used up exactly and the caller sees the rejection, not the last failure. */
  lemma {:induction false} FailuresEndInRejection(rc: Config, env: Surroundings, cfg: B.Config, clock: Clock,
                                                  result: nat -> Option<Error>, g: Guarded, attempt: nat, delay: int,
                                                  last: Option<Error>)
    requires rc.retryIf == RetryableOnly() && WaitsWithinTimeout(cfg, clock)
    requires g.breaker.phase == B.Closed && 0 <= g.breaker.failures < cfg.maxFailures
    requires forall k: nat :: IsRetryable(result(k))
    requires forall k: nat :: env.doneBefore(k).None? && env.doneWhileWaiting(k).None?
    requires rc.maxAttempts - attempt > cfg.maxFailures - g.breaker.failures
    ensures var o := Run(rc, env, cfg, clock, result, g, attempt, delay, last);
            && o.err == Some(CircuitOpen)
            && o.state.runs == g.runs + cfg.maxFailures - g.breaker.failures
            && o.state.breaker.phase == B.Open
    decreases rc.maxAttempts - attempt
  {
    hide AddJitter, NextDelay;
    var (t, err) := Guard(cfg, clock, result)(g, attempt);
    assert (t, err) == Execute(cfg, clock, result, g, attempt);
    assert IsRetryable(result(attempt));
    if t.breaker.phase == B.Open {
      OpenEndsRetry(rc, env, cfg, clock, result, t, attempt + 1, NextDelay(rc, delay), err);
    } else {
      FailuresEndInRejection(rc, env, cfg, clock, result, t, attempt + 1, NextDelay(rc, delay), err);
    }
  }
}
