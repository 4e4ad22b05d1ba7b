/** The circuit breaker of internal/resilience/circuit_breaker.go.

    Each method holds the mutex for its whole body, so it is one atomic step. The clock is read
    twice: `now` at the top of beforeRequest, and `at` by time.Now() inside setState. */
module CircuitBreakers {
  datatype Phase = Closed | Open | HalfOpen

  datatype Config = Config(maxFailures: int, timeout: int, maxHalfOpenRequests: int, successThreshold: int)

  /** The fields guarded by the mutex. */
  datatype Breaker = Breaker(phase: Phase, failures: int, halfOpenRequests: int, consecutiveSuccess: int,
                             lastStateChange: int)

  datatype Verdict = Admitted | CircuitOpen | TooManyRequests

  function Initial(now: int): Breaker { Breaker(Closed, 0, 0, 0, now) }

  function SetState(b: Breaker, phase: Phase, at: int): Breaker {
    if b.phase == phase then b else b.(phase := phase, lastStateChange := at)
  }

  function BeforeRequest(cfg: Config, b: Breaker, now: int, at: int): (Breaker, Verdict) {
    match b.phase
    case Closed => (b, Admitted)
    case Open =>
      if now > b.lastStateChange + cfg.timeout then
        (SetState(b, HalfOpen, at).(halfOpenRequests := 1, consecutiveSuccess := 0), Admitted)
      else
        (b, CircuitOpen)
    case HalfOpen =>
      if b.halfOpenRequests >= cfg.maxHalfOpenRequests then (b, TooManyRequests)
      else (b.(halfOpenRequests := b.halfOpenRequests + 1), Admitted)
  }

  function OnSuccess(cfg: Config, b: Breaker, at: int): Breaker {
    match b.phase
    case Closed => b.(failures := 0)
    case Open => b
    case HalfOpen =>
      var counted := b.(consecutiveSuccess := b.consecutiveSuccess + 1);
      if counted.consecutiveSuccess >= cfg.successThreshold then SetState(counted, Closed, at).(failures := 0)
      else counted
  }

  function OnFailure(cfg: Config, b: Breaker, at: int): Breaker {
    var counted := b.(failures := b.failures + 1);
    match b.phase
    case Closed => if counted.failures >= cfg.maxFailures then SetState(counted, Open, at) else counted
    case Open => counted
    case HalfOpen => SetState(counted, Open, at)
  }

  function AfterRequest(cfg: Config, b: Breaker, ok: bool, at: int): Breaker {
    if ok then OnSuccess(cfg, b, at) else OnFailure(cfg, b, at)
  }

  function Reset(b: Breaker, at: int): Breaker {
    SetState(b, Closed, at).(failures := 0, halfOpenRequests := 0, consecutiveSuccess := 0)
  }

  /** The mutable object; every method is proved to perform the step above that bears its name. */
  class CircuitBreaker {
    const config: Config
    var state: Phase
    var failures: int
    var halfOpenRequests: int
    var lastStateChange: int
    var consecutiveSuccess: int

    ghost function View(): Breaker
      reads this
    {
      Breaker(state, failures, halfOpenRequests, consecutiveSuccess, lastStateChange)
    }

    constructor (config: Config, now: int)
      ensures this.config == config && View() == Initial(now)
    {
      this.config := config;
      state, failures, halfOpenRequests, consecutiveSuccess := Closed, 0, 0, 0;
      lastStateChange := now;
    }

    method SetPhase(phase: Phase, at: int)
      modifies this
      ensures View() == SetState(old(View()), phase, at)
    {
      if state == phase {
        return;
      }
      state := phase;
      lastStateChange := at;
    }

    method Before(now: int, at: int) returns (verdict: Verdict)
      modifies this
      ensures (View(), verdict) == BeforeRequest(config, old(View()), now, at)
    {
      match state
      case Closed => return Admitted;
      case Open =>
        if now > lastStateChange + config.timeout {
          SetPhase(HalfOpen, at);
          halfOpenRequests := 1;
          consecutiveSuccess := 0;
          return Admitted;
        }
        return CircuitOpen;
      case HalfOpen =>
        if halfOpenRequests >= config.maxHalfOpenRequests {
          return TooManyRequests;
        }
        halfOpenRequests := halfOpenRequests + 1;
        return Admitted;
    }

    method After(ok: bool, at: int)
      modifies this
      ensures View() == AfterRequest(config, old(View()), ok, at)
    {
      if ok {
        Succeeded(at);
      } else {
        Failed(at);
      }
    }

    method Succeeded(at: int)
      modifies this
      ensures View() == OnSuccess(config, old(View()), at)
    {
      match state
      case Closed => failures := 0;
      case Open =>
      case HalfOpen =>
        consecutiveSuccess := consecutiveSuccess + 1;
        if consecutiveSuccess >= config.successThreshold {
          SetPhase(Closed, at);
          failures := 0;
        }
    }

    method Failed(at: int)
      modifies this
      ensures View() == OnFailure(config, old(View()), at)
    {
      failures := failures + 1;
      match state
      case Closed =>
        if failures >= config.maxFailures {
          SetPhase(Open, at);
        }
      case Open =>
      case HalfOpen => SetPhase(Open, at);
    }

    method ResetToClosed(at: int)
      modifies this
      ensures View() == Reset(old(View()), at)
    {
      SetPhase(Closed, at);
      failures := 0;
      halfOpenRequests := 0;
      consecutiveSuccess := 0;
    }
  }
}
