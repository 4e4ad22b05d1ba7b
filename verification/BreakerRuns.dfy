/** One breaker shared by any number of callers. Admission and the recording of a result are separate
    critical sections, so a result may be recorded in a later phase than the one that admitted the call.

    A run is any sequence of events from the initial state; an event that cannot happen (the return of a
    call that is not in flight) leaves the state as it is. */
module BreakerRuns {
  import opened Wrappers
  import opened CircuitBreakers

  /** `wait` is the time since the previous step, `skew` the time between the two clock readings. */
  datatype Event =
    | Request(wait: nat, skew: nat)
    | Return(call: nat, ok: bool, wait: nat)
    | Resetting(wait: nat)

  /** What the run recorded: a successful result, a failed one, a fresh start in the closed phase, or the start
      of a half-open episode. */
  datatype Mark = Succeeded | Failed | Fresh | Probing

  /** `origin[c]` tells in which half-open episode call c was admitted (None: while closed);
      `inFlight` are the admitted calls whose result is not yet recorded. */
  datatype System = System(breaker: Breaker, clock: int, episode: nat, origin: seq<Option<nat>>,
                           inFlight: set<nat>, marks: seq<Mark>)

  function Start(now: int): System { System(Initial(now), now, 0, [], {}, []) }

  function Verdict(cfg: Config, s: System, e: Event): Verdict
    requires e.Request?
  {
    BeforeRequest(cfg, s.breaker, s.clock + e.wait, s.clock + e.wait + e.skew).1
  }

  function Admit(cfg: Config, s: System, e: Event): System
    requires e.Request?
  {
    var at := s.clock + e.wait + e.skew;
    var (b, verdict) := BeforeRequest(cfg, s.breaker, s.clock + e.wait, at);
    if verdict != Admitted then s.(breaker := b, clock := at)
    else
      var episode := if s.breaker.phase == Open then s.episode + 1 else s.episode;
      var tag := if b.phase == HalfOpen then Some(episode) else None;
      s.(breaker := b, clock := at, episode := episode, origin := s.origin + [tag],
         inFlight := s.inFlight + {|s.origin|},
         marks := if s.breaker.phase == Open then s.marks + [Probing] else s.marks)
  }

  function Record(cfg: Config, s: System, e: Event): System
    requires e.Return?
  {
    if e.call !in s.inFlight then s
    else
      var b := AfterRequest(cfg, s.breaker, e.ok, s.clock + e.wait);
      var reentered := s.breaker.phase != Closed && b.phase == Closed;
      s.(breaker := b, clock := s.clock + e.wait, inFlight := s.inFlight - {e.call},
         marks := s.marks + [if e.ok then Succeeded else Failed] + if reentered then [Fresh] else [])
  }

  function Step(cfg: Config, s: System, e: Event): System {
    match e
    case Request(_, _) => Admit(cfg, s, e)
    case Return(_, _, _) => Record(cfg, s, e)
    case Resetting(wait) =>
      s.(breaker := Reset(s.breaker, s.clock + wait), clock := s.clock + wait, marks := s.marks + [Fresh])
  }

  function After(cfg: Config, s: System, run: seq<Event>): System {
    if run == [] then s else Step(cfg, After(cfg, s, run[..|run| - 1]), run[|run| - 1])
  }

  lemma {:induction false} AfterConcat(cfg: Config, s: System, front: seq<Event>, back: seq<Event>)
    ensures After(cfg, s, front + back) == After(cfg, After(cfg, s, front), back)
  {
    if back == [] {
      assert front + back == front;
    } else {
      var last := |back| - 1;
      assert (front + back)[..|front + back| - 1] == front + back[..last];
      AfterConcat(cfg, s, front, back[..last]);
    }
  }

  // ---------------------------------------------------------------- the invariant of every run

  /** The calls admitted in half-open episode e. */
  ghost function Probes(s: System, e: nat): set<nat> {
    set c | 0 <= c < |s.origin| && s.origin[c] == Some(e)
  }

  function TrailingFailures(marks: seq<Mark>): nat {
    if marks == [] || marks[|marks| - 1] != Failed then 0 else 1 + TrailingFailures(marks[..|marks| - 1])
  }

  function TrailingSuccesses(marks: seq<Mark>): nat {
    if marks == [] || marks[|marks| - 1] != Succeeded then 0 else 1 + TrailingSuccesses(marks[..|marks| - 1])
  }

  ghost predicate Inv(cfg: Config, s: System) {
    && (forall c <- s.inFlight :: 0 <= c < |s.origin|)
    && (forall c | 0 <= c < |s.origin| && s.origin[c].Some? :: s.origin[c].value <= s.episode)
    && (forall e: nat :: |Probes(s, e)| <= Max(1, cfg.maxHalfOpenRequests))
    && s.breaker.lastStateChange <= s.clock
    && (s.breaker.phase == Closed ==>
          s.breaker.failures == TrailingFailures(s.marks) < Max(1, cfg.maxFailures))
    && (s.breaker.phase == HalfOpen ==>
          && s.breaker.halfOpenRequests == |Probes(s, s.episode)| >= 1
          && |Probes(s, s.episode) - s.inFlight| <= s.breaker.consecutiveSuccess < Max(1, cfg.successThreshold)
          && s.breaker.consecutiveSuccess == TrailingSuccesses(s.marks))
  }

  lemma ProbesGrow(s: System, t: System, tag: Option<nat>)
    requires t.origin == s.origin + [tag]
    ensures forall e: nat :: Probes(t, e) == if tag == Some(e) then Probes(s, e) + {|s.origin|} else Probes(s, e)
    ensures forall e: nat :: |Probes(t, e)| == |Probes(s, e)| + if tag == Some(e) then 1 else 0
    ensures forall e: nat :: |s.origin| !in Probes(s, e)
  {
    forall e: nat
      ensures Probes(t, e) == if tag == Some(e) then Probes(s, e) + {|s.origin|} else Probes(s, e)
      ensures |Probes(t, e)| == |Probes(s, e)| + if tag == Some(e) then 1 else 0
    {
      assert Probes(t, e) == if tag == Some(e) then Probes(s, e) + {|s.origin|} else Probes(s, e);
    }
  }

  lemma SameOriginSameProbes(s: System, t: System)
    requires t.origin == s.origin
    ensures forall n: nat :: Probes(t, n) == Probes(s, n)
  {
  }

  lemma NoProbesYet(s: System, e: nat)
    requires forall c | 0 <= c < |s.origin| && s.origin[c].Some? :: s.origin[c].value < e
    ensures Probes(s, e) == {}
  {
  }

  lemma ClosedAdmissionKeepsInv(cfg: Config, s: System, e: Event)
    requires Inv(cfg, s) && e.Request? && s.breaker.phase == Closed
    ensures Inv(cfg, Admit(cfg, s, e))
  {
    ProbesGrow(s, Admit(cfg, s, e), None);
  }

  lemma OpenAdmissionKeepsInv(cfg: Config, s: System, e: Event)
    requires Inv(cfg, s) && e.Request? && s.breaker.phase == Open && Verdict(cfg, s, e) == Admitted
    ensures Inv(cfg, Admit(cfg, s, e))
  {
    var t := Admit(cfg, s, e);
    hide Probes, TrailingFailures;
    ProbesGrow(s, t, Some(t.episode));
    NoProbesYet(s, t.episode);
    MarksGrow(s.marks, Probing);
    assert Probes(t, t.episode) - t.inFlight == {};
    assert |Probes(t, t.episode)| == 1;
    forall n: nat ensures |Probes(t, n)| <= Max(1, cfg.maxHalfOpenRequests) {
      assert n != t.episode ==> |Probes(t, n)| == |Probes(s, n)|;
    }
  }

  /** One more probe, in flight, of episode n. */
  lemma NewProbe(s: System, t: System, n: nat)
    requires t.origin == s.origin + [Some(n)] && t.inFlight == s.inFlight + {|s.origin|}
    ensures |Probes(t, n)| == |Probes(s, n)| + 1 && Probes(t, n) - t.inFlight == Probes(s, n) - s.inFlight
    ensures forall e: nat | e != n :: Probes(t, e) == Probes(s, e)
  {
    hide Probes;
    ProbesGrow(s, t, Some(n));
  }

  lemma HalfOpenAdmissionKeepsInv(cfg: Config, s: System, e: Event)
    requires Inv(cfg, s) && e.Request? && s.breaker.phase == HalfOpen && Verdict(cfg, s, e) == Admitted
    ensures Inv(cfg, Admit(cfg, s, e))
  {
    hide Probes, TrailingFailures;
    var t := Admit(cfg, s, e);
    NewProbe(s, t, s.episode);
    forall n: nat ensures |Probes(t, n)| <= Max(1, cfg.maxHalfOpenRequests) {
      assert n != t.episode ==> Probes(t, n) == Probes(s, n);
    }
  }

  lemma AdmitKeepsInv(cfg: Config, s: System, e: Event)
    requires Inv(cfg, s) && e.Request?
    ensures Inv(cfg, Admit(cfg, s, e))
  {
    if Verdict(cfg, s, e) == Admitted {
      match s.breaker.phase
      case Closed => ClosedAdmissionKeepsInv(cfg, s, e);
      case Open => OpenAdmissionKeepsInv(cfg, s, e);
      case HalfOpen => HalfOpenAdmissionKeepsInv(cfg, s, e);
    } else {
      assert forall n: nat :: Probes(Admit(cfg, s, e), n) == Probes(s, n);
    }
  }

  /** Marks: a recorded result, and a fresh start when the circuit closes. */
  lemma MarksGrow(marks: seq<Mark>, mark: Mark)
    ensures TrailingFailures(marks + [mark]) == if mark == Failed then TrailingFailures(marks) + 1 else 0
    ensures TrailingSuccesses(marks + [mark]) == if mark == Succeeded then TrailingSuccesses(marks) + 1 else 0
  {
    assert (marks + [mark])[..|marks|] == marks;
  }

  /** How a recorded result leaves the failure count of a closed breaker. */
  lemma ClosedFailures(cfg: Config, b: Breaker, ok: bool, at: int)
    requires b.phase == Closed ==> b.failures < Max(1, cfg.maxFailures)
    ensures var c := AfterRequest(cfg, b, ok, at);
            c.phase == Closed ==>
              c.failures < Max(1, cfg.maxFailures)
              && c.failures == if b.phase == Closed && !ok then b.failures + 1 else 0
  {
  }

  lemma RecordKeepsHistory(cfg: Config, s: System, e: Event)
    requires Inv(cfg, s) && e.Return? && e.call in s.inFlight
    ensures var t := Record(cfg, s, e);
            t.breaker.phase == Closed ==> t.breaker.failures == TrailingFailures(t.marks) < Max(1, cfg.maxFailures)
  {
    hide AfterRequest, TrailingFailures, Probes;
    ClosedFailures(cfg, s.breaker, e.ok, s.clock + e.wait);
    var mark := if e.ok then Succeeded else Failed;
    var t := Record(cfg, s, e);
    MarksGrow(s.marks, mark);
    MarksGrow(s.marks + [mark], Fresh);
    assert t.breaker.phase == Closed ==>
        t.marks == if s.breaker.phase == Closed then s.marks + [mark] else s.marks + [mark] + [Fresh];
  }

  /** A result after which the circuit is half-open was a success in the same episode. */
  lemma StaysHalfOpen(cfg: Config, b: Breaker, ok: bool, at: int)
    ensures var c := AfterRequest(cfg, b, ok, at);
            c.phase == HalfOpen ==>
              && b.phase == HalfOpen && ok && c.halfOpenRequests == b.halfOpenRequests
              && c.consecutiveSuccess == b.consecutiveSuccess + 1 < cfg.successThreshold
  {
  }

  lemma RecordKeepsProbes(cfg: Config, s: System, e: Event)
    requires Inv(cfg, s) && e.Return? && e.call in s.inFlight
    ensures var t := Record(cfg, s, e);
            t.breaker.phase == HalfOpen ==>
              && t.breaker.halfOpenRequests == |Probes(t, t.episode)| >= 1
              && |Probes(t, t.episode) - t.inFlight| <= t.breaker.consecutiveSuccess < Max(1, cfg.successThreshold)
              && t.breaker.consecutiveSuccess == TrailingSuccesses(t.marks)
  {
    hide Probes, TrailingFailures, TrailingSuccesses, AfterRequest;
    var mark := if e.ok then Succeeded else Failed;
    MarksGrow(s.marks, mark);
    StaysHalfOpen(cfg, s.breaker, e.ok, s.clock + e.wait);
    var t := Record(cfg, s, e);
    assert t.breaker.phase != Closed ==> t.marks == s.marks + [mark];
    SameOriginSameProbes(s, t);
    if t.breaker.phase == HalfOpen {
      var before := Probes(s, s.episode) - s.inFlight;
      assert Probes(t, t.episode) - t.inFlight <= before + {e.call};
      SubsetSize(Probes(t, t.episode) - t.inFlight, before + {e.call});
    }
  }

  lemma StateChangeNotLater(cfg: Config, b: Breaker, ok: bool, at: int)
    requires b.lastStateChange <= at
    ensures AfterRequest(cfg, b, ok, at).lastStateChange <= at
  {
  }

  lemma RecordKeepsInv(cfg: Config, s: System, e: Event)
    requires Inv(cfg, s) && e.Return?
    ensures Inv(cfg, Record(cfg, s, e))
  {
    hide Probes, TrailingFailures, AfterRequest;
    if e.call in s.inFlight {
      RecordKeepsHistory(cfg, s, e);
      RecordKeepsProbes(cfg, s, e);
      SameOriginSameProbes(s, Record(cfg, s, e));
      StateChangeNotLater(cfg, s.breaker, e.ok, s.clock + e.wait);
    }
  }

  lemma {:induction false} RunsKeepInv(cfg: Config, now: int, run: seq<Event>)
    ensures Inv(cfg, After(cfg, Start(now), run))
  {
    hide Admit, Record;
    if run == [] {
      assert forall e: nat :: Probes(Start(now), e) == {};
    } else {
      var front, e := run[..|run| - 1], run[|run| - 1];
      RunsKeepInv(cfg, now, front);
      var s := After(cfg, Start(now), front);
      match e
      case Request(_, _) => AdmitKeepsInv(cfg, s, e);
      case Return(_, _, _) => RecordKeepsInv(cfg, s, e);
      case Resetting(_) => assert forall n: nat :: Probes(Step(cfg, s, e), n) == Probes(s, n);
    }
  }

  // ---------------------------------------------------------------- history

  /** In the closed phase the counter is exactly the number of failures recorded since the last success,
      reset or closing, whatever late results arrived in the other phases; and no half-open episode ever
      admits more than max(1, MaxHalfOpenRequests) calls. */
  lemma CountersTellTheHistory(cfg: Config, now: int, run: seq<Event>)
    ensures var s := After(cfg, Start(now), run);
            && (s.breaker.phase == Closed ==>
                  s.breaker.failures == TrailingFailures(s.marks) < Max(1, cfg.maxFailures))
            && forall e: nat :: |Probes(s, e)| <= Max(1, cfg.maxHalfOpenRequests)
  {
    RunsKeepInv(cfg, now, run);
  }

  ghost predicate NoReset(run: seq<Event>) { forall e <- run :: !e.Resetting? }

  /** What the result of a call does, in any phase, in terms of what was recorded before. A closed circuit opens
      exactly at the MaxFailures-th failure in a row; a half-open one opens exactly at a failure and closes exactly
      at the SuccessThreshold-th success of its episode; an open one stays open. */
  lemma ResultDecides(cfg: Config, now: int, run: seq<Event>, e: Event)
    requires e.Return? && e.call in After(cfg, Start(now), run).inFlight
    ensures var s := After(cfg, Start(now), run);
            var t := Step(cfg, s, e);
            var failures, successes := TrailingFailures(s.marks), TrailingSuccesses(s.marks);
            && e.call !in t.inFlight
            && (s.breaker.phase == Open ==>
                  t.breaker.phase == Open && t.breaker.lastStateChange == s.breaker.lastStateChange)
            && (s.breaker.phase == Closed ==>
                  && (t.breaker.phase == Open <==> !e.ok && failures + 1 >= cfg.maxFailures)
                  && (t.breaker.phase == Closed <==> e.ok || failures + 1 < cfg.maxFailures))
            && (s.breaker.phase == HalfOpen ==>
                  && (t.breaker.phase == Open <==> !e.ok)
                  && (t.breaker.phase == Closed <==> e.ok && successes + 1 >= cfg.successThreshold)
                  && (t.breaker.phase == Closed ==> t.breaker.failures == 0))
  {
    hide After, TrailingFailures, TrailingSuccesses, Probes;
    RunsKeepInv(cfg, now, run);
  }

  /** What becomes of a request: closed admits; half-open admits exactly while the episode has probes to spare;
      open admits exactly after Timeout, and then starts an episode with this call as its first probe. */
  lemma AdmissionDecides(cfg: Config, now: int, run: seq<Event>, e: Event)
    requires e.Request?
    ensures var s := After(cfg, Start(now), run);
            var t := Step(cfg, s, e);
            var admitted := Verdict(cfg, s, e) == Admitted;
            && t.inFlight == s.inFlight + (if admitted then {|s.origin|} else {})
            && |t.origin| == |s.origin| + (if admitted then 1 else 0)
            && match s.breaker.phase
               case Closed => admitted && t.breaker == s.breaker
               case HalfOpen =>
                 && (admitted <==> |Probes(s, s.episode)| < cfg.maxHalfOpenRequests)
                 && (!admitted ==> Verdict(cfg, s, e) == TooManyRequests) && t.breaker.phase == HalfOpen
               case Open =>
                 && (admitted <==> s.clock + e.wait > s.breaker.lastStateChange + cfg.timeout)
                 && (!admitted ==> Verdict(cfg, s, e) == CircuitOpen && t.breaker == s.breaker)
                 && (admitted ==> t.breaker.phase == HalfOpen && Probes(t, t.episode) == {|s.origin|})
  {
    hide After, TrailingFailures, TrailingSuccesses, Probes;
    RunsKeepInv(cfg, now, run);
    var s := After(cfg, Start(now), run);
    if s.breaker.phase == Open && Verdict(cfg, s, e) == Admitted {
      ProbesGrow(s, Step(cfg, s, e), Some(s.episode + 1));
      NoProbesYet(s, s.episode + 1);
    }
  }

  lemma ResetDecides(cfg: Config, s: System, wait: nat)
    ensures var t := Step(cfg, s, Resetting(wait));
            t.breaker.phase == Closed && t.breaker.failures == 0 && t.inFlight == s.inFlight && t.origin == s.origin
  {
  }

  /** The step that opens the circuit starts the clock of its Timeout. */
  lemma OpeningIsTimed(cfg: Config, s: System, e: Event)
    requires s.breaker.phase != Open && Step(cfg, s, e).breaker.phase == Open
    ensures Step(cfg, s, e).breaker.lastStateChange == Step(cfg, s, e).clock && e.Return? && !e.ok
  {
  }

  /** From the step that opens the circuit on, and until a request comes more than Timeout later, every run
      without Reset admits nothing, whatever results come in late; that request is admitted. */
  lemma OpenForExactlyTimeout(cfg: Config, s: System, e: Event, run: seq<Event>, wait: nat, skew: nat)
    requires s.breaker.phase != Open && Step(cfg, s, e).breaker.phase == Open && NoReset(run)
    requires var t := Step(cfg, s, e); After(cfg, t, run).clock <= t.clock + cfg.timeout
    ensures var t := Step(cfg, s, e);
            var u := After(cfg, t, run);
            && u.breaker.phase == Open && u.origin == t.origin
            && Verdict(cfg, u, Request(wait, skew))
               == if u.clock + wait > t.clock + cfg.timeout then Admitted else CircuitOpen
  {
    hide After, Step;
    OpeningIsTimed(cfg, s, e);
    OpenRejectsForTimeout(cfg, Step(cfg, s, e), run);
  }

  /** As long as the clock has not passed lastStateChange + Timeout, no run without Reset leaves the open phase or
      admits a call, however many results come in late. */
  lemma {:induction false} OpenRejectsForTimeout(cfg: Config, s: System, run: seq<Event>)
    requires s.breaker.phase == Open && NoReset(run)
    requires After(cfg, s, run).clock <= s.breaker.lastStateChange + cfg.timeout
    ensures var t := After(cfg, s, run);
            t.breaker == s.breaker.(failures := t.breaker.failures) && t.origin == s.origin
  {
    if run != [] {
      var front := run[..|run| - 1];
      assert After(cfg, s, front).clock <= After(cfg, s, run).clock;
      OpenRejectsForTimeout(cfg, s, front);
    }
  }

  // ---------------------------------------------------------------- half-open never wedges

  /** Half-open, none of this episode's probes in flight, and yet the next request would be rejected. */
  ghost predicate Wedged(cfg: Config, s: System) {
    && s.breaker.phase == HalfOpen
    && Probes(s, s.episode) !! s.inFlight
    && Verdict(cfg, s, Request(0, 0)) != Admitted
  }

  lemma NeverWedges(cfg: Config, now: int, run: seq<Event>)
    requires cfg.successThreshold <= Max(1, cfg.maxHalfOpenRequests)
    ensures !Wedged(cfg, After(cfg, Start(now), run))
  {
    RunsKeepInv(cfg, now, run);
    var s := After(cfg, Start(now), run);
    if Probes(s, s.episode) !! s.inFlight {
      assert Probes(s, s.episode) - s.inFlight == Probes(s, s.episode);
    }
  }

  /** n failing calls one after the other, the first numbered `call`. */
  function Failing(call: nat, n: nat): seq<Event> {
    if n == 0 then [] else Failing(call, n - 1) + [Request(0, 0), Return(call + n - 1, false, 0)]
  }

  /** n admissions, and then n successful returns of the calls numbered from `call`. */
  function Requests(n: nat): seq<Event> { seq(n, _ => Request(0, 0)) }

  function Returns(call: nat, n: nat): seq<Event> { seq(n, i requires 0 <= i => Return(call + i, true, 0)) }

  /** The n calls numbered from `call`. */
  function Calls(call: nat, n: nat): set<nat> {
    if n == 0 then {} else Calls(call, n - 1) + {call + n - 1}
  }

  lemma {:induction false} CallsShift(call: nat, n: nat)
    requires n > 0
    ensures Calls(call, n) == {call} + Calls(call + 1, n - 1)
    ensures forall c <- Calls(call, n) :: call <= c < call + n
  {
    if n > 1 {
      CallsShift(call, n - 1);
    }
  }

  lemma AfterTwo(cfg: Config, s: System, e: Event, f: Event)
    ensures After(cfg, s, [e]) == Step(cfg, s, e)
    ensures After(cfg, s, [e, f]) == Step(cfg, Step(cfg, s, e), f)
  {
    assert [e][..0] == [] && [e, f][..1] == [e];
  }

  lemma FailingCall(cfg: Config, s: System, call: nat)
    requires s.breaker.phase == Closed && s.inFlight == {} && |s.origin| == call
    ensures var t := After(cfg, s, [Request(0, 0), Return(call, false, 0)]);
            && t.breaker == OnFailure(cfg, s.breaker, s.clock) && t.inFlight == {}
            && |t.origin| == call + 1 && t.clock == s.clock
  {
    AfterTwo(cfg, s, Request(0, 0), Return(call, false, 0));
    var t := Step(cfg, s, Request(0, 0));
    assert t.inFlight == {call} && t.breaker == s.breaker;
  }

  lemma {:induction false} FailingOpens(cfg: Config, now: int, n: nat)
    requires n <= Max(1, cfg.maxFailures)
    ensures var s := After(cfg, Start(now), Failing(0, n));
            && s.breaker.phase == (if n == Max(1, cfg.maxFailures) then Open else Closed)
            && s.breaker.failures == n && s.inFlight == {} && |s.origin| == n && s.clock == now
            && s.breaker.lastStateChange == now
  {
    if n > 0 {
      FailingOpens(cfg, now, n - 1);
      AfterConcat(cfg, Start(now), Failing(0, n - 1), [Request(0, 0), Return(n - 1, false, 0)]);
      FailingCall(cfg, After(cfg, Start(now), Failing(0, n - 1)), n - 1);
    }
  }

  lemma {:induction false} HalfOpenAdmits(cfg: Config, s: System, n: nat)
    requires s.breaker.phase == HalfOpen && (n == 0 || s.breaker.halfOpenRequests + n <= cfg.maxHalfOpenRequests)
    ensures var t := After(cfg, s, Requests(n));
            && t.breaker == s.breaker.(halfOpenRequests := s.breaker.halfOpenRequests + n)
            && |t.origin| == |s.origin| + n
            && t.inFlight == s.inFlight + Calls(|s.origin|, n)
  {
    hide Step;
    if n > 0 {
      assert Requests(n)[..n - 1] == Requests(n - 1);
      HalfOpenAdmits(cfg, s, n - 1);
      HalfOpenAdmitsOne(cfg, After(cfg, s, Requests(n - 1)));
    }
  }

  lemma HalfOpenAdmitsOne(cfg: Config, s: System)
    requires s.breaker.phase == HalfOpen && s.breaker.halfOpenRequests < cfg.maxHalfOpenRequests
    ensures var t := Step(cfg, s, Request(0, 0));
            && t.breaker == s.breaker.(halfOpenRequests := s.breaker.halfOpenRequests + 1)
            && |t.origin| == |s.origin| + 1 && t.inFlight == s.inFlight + {|s.origin|}
  {
  }

  lemma HalfOpenCountsOne(cfg: Config, s: System, call: nat)
    requires s.breaker.phase == HalfOpen && s.breaker.consecutiveSuccess + 1 < cfg.successThreshold
    requires call in s.inFlight
    ensures var t := Step(cfg, s, Return(call, true, 0));
            && t.breaker == s.breaker.(consecutiveSuccess := s.breaker.consecutiveSuccess + 1)
            && t.inFlight == s.inFlight - {call}
  {
  }

  lemma {:induction false} SuccessesCount(cfg: Config, s: System, call: nat, n: nat)
    requires s.breaker.phase == HalfOpen && s.breaker.consecutiveSuccess + n < cfg.successThreshold
    requires Calls(call, n) <= s.inFlight
    ensures var t := After(cfg, s, Returns(call, n));
            && t.breaker == s.breaker.(consecutiveSuccess := s.breaker.consecutiveSuccess + n)
            && t.inFlight == s.inFlight - Calls(call, n)
  {
    hide Step;
    if n > 0 {
      assert Returns(call, n)[..n - 1] == Returns(call, n - 1);
      SuccessesCount(cfg, s, call, n - 1);
      if n > 1 {
        CallsShift(call, n - 1);
      }
      HalfOpenCountsOne(cfg, After(cfg, s, Returns(call, n - 1)), call + n - 1);
    }
  }

  /** The run that wedges: open the circuit, let Timeout pass, use up the probes, and let all succeed. */
  function WedgingRun(cfg: Config): seq<Event> {
    var fails := Max(1, cfg.maxFailures);
    var probes := Max(1, cfg.maxHalfOpenRequests);
    Failing(0, fails) + [Request(Max(0, cfg.timeout) + 1, 0)] + Requests(probes - 1) + Returns(fails, probes)
  }

  lemma FirstProbe(cfg: Config, s: System, e: Event)
    requires s.breaker.phase == Open && s.inFlight == {} && s.breaker.lastStateChange == s.clock
    requires e == Request(Max(0, cfg.timeout) + 1, 0)
    ensures var t := Step(cfg, s, e);
            && t.breaker.phase == HalfOpen && t.breaker.halfOpenRequests == 1 && t.breaker.consecutiveSuccess == 0
            && t.inFlight == {|s.origin|} && |t.origin| == |s.origin| + 1
  {
  }

  lemma UsedUpIsWedged(cfg: Config, s: System)
    requires s.breaker.phase == HalfOpen && s.inFlight == {}
    requires s.breaker.halfOpenRequests == Max(1, cfg.maxHalfOpenRequests)
    ensures Wedged(cfg, s)
  {
  }

  lemma WedgesAbovePermits(cfg: Config, now: int)
    requires cfg.successThreshold > Max(1, cfg.maxHalfOpenRequests)
    ensures var s := After(cfg, Start(now), WedgingRun(cfg)); Wedged(cfg, s) && s.inFlight == {}
  {
    hide After, Step, Failing, Requests, Returns, Calls, Wedged;
    var fails := Max(1, cfg.maxFailures);
    var probes := Max(1, cfg.maxHalfOpenRequests);
    var first := Request(Max(0, cfg.timeout) + 1, 0);
    FailingOpens(cfg, now, fails);
    var atOpen := After(cfg, Start(now), Failing(0, fails));
    var half := Step(cfg, atOpen, first);
    FirstProbe(cfg, atOpen, first);
    AfterConcat(cfg, Start(now), Failing(0, fails), [first]);
    AfterTwo(cfg, atOpen, first, first);
    AfterConcat(cfg, Start(now), Failing(0, fails) + [first], Requests(probes - 1));
    HalfOpenAdmits(cfg, half, probes - 1);
    var full := After(cfg, half, Requests(probes - 1));
    CallsShift(fails, probes);
    AfterConcat(cfg, Start(now), Failing(0, fails) + [first] + Requests(probes - 1), Returns(fails, probes));
    SuccessesCount(cfg, full, fails, probes);
    UsedUpIsWedged(cfg, After(cfg, full, Returns(fails, probes)));
  }

  /** Exactly when a half-open breaker can get stuck: the success threshold exceeds the number of probes an
      episode may admit. */
  lemma WedgesIffThresholdExceedsProbes(cfg: Config, now: int)
    ensures (exists run :: Wedged(cfg, After(cfg, Start(now), run)))
              <==> cfg.successThreshold > Max(1, cfg.maxHalfOpenRequests)
  {
    if cfg.successThreshold > Max(1, cfg.maxHalfOpenRequests) {
      WedgesAbovePermits(cfg, now);
    } else {
      forall run ensures !Wedged(cfg, After(cfg, Start(now), run)) {
        NeverWedges(cfg, now, run);
      }
    }
  }

  /** The SuccessThreshold-th success closes the circuit. */
  lemma LastSuccessCloses(cfg: Config, s: System, call: nat)
    requires s.breaker.phase == HalfOpen && call in s.inFlight
    requires s.breaker.consecutiveSuccess + 1 == cfg.successThreshold
    ensures var t := Step(cfg, s, Return(call, true, 0));
            t.breaker.phase == Closed && t.breaker.failures == 0 && t.inFlight == s.inFlight - {call}
  {
  }

  /** Timeout passes, SuccessThreshold probes are admitted, and all succeed. */
  function RecoveryRun(cfg: Config, call: nat): seq<Event>
    requires cfg.successThreshold >= 1
  {
    [Request(Max(0, cfg.timeout) + 1, 0)] + Requests(cfg.successThreshold - 1)
    + Returns(call, cfg.successThreshold - 1) + [Return(call + cfg.successThreshold - 1, true, 0)]
  }

  /** From every open state, with any stale calls still out, that run closes the circuit again - provided an
      episode may admit as many probes as successes are needed. */
  lemma Recovers(cfg: Config, s: System)
    requires s.breaker.phase == Open && s.breaker.lastStateChange <= s.clock
    requires 1 <= cfg.successThreshold <= Max(1, cfg.maxHalfOpenRequests)
    ensures var t := After(cfg, s, RecoveryRun(cfg, |s.origin|));
            && t.breaker.phase == Closed && t.breaker.failures == 0
            && t.inFlight == s.inFlight - Calls(|s.origin|, cfg.successThreshold)
  {
    hide After, Step, Requests, Returns, Calls;
    var call, n := |s.origin|, cfg.successThreshold;
    var first, last := Request(Max(0, cfg.timeout) + 1, 0), Return(|s.origin| + cfg.successThreshold - 1, true, 0);
    AfterTwo(cfg, s, first, first);
    TimeoutPassed(cfg, s, first);
    var half := Step(cfg, s, first);
    HalfOpenAdmits(cfg, half, n - 1);
    var full := After(cfg, half, Requests(n - 1));
    CallsFrom(s.inFlight, call, n);
    SuccessesCount(cfg, full, call, n - 1);
    var almost := After(cfg, full, Returns(call, n - 1));
    LastSuccessCloses(cfg, almost, call + n - 1);
    AfterTwo(cfg, almost, last, last);
    AfterConcat(cfg, s, [first], Requests(n - 1));
    AfterConcat(cfg, s, [first] + Requests(n - 1), Returns(call, n - 1));
    AfterConcat(cfg, s, [first] + Requests(n - 1) + Returns(call, n - 1), [last]);
  }

  lemma TimeoutPassed(cfg: Config, s: System, e: Event)
    requires s.breaker.phase == Open && s.breaker.lastStateChange <= s.clock
    requires e == Request(Max(0, cfg.timeout) + 1, 0)
    ensures var t := Step(cfg, s, e);
            && t.breaker.phase == HalfOpen && t.breaker.halfOpenRequests == 1 && t.breaker.consecutiveSuccess == 0
            && t.inFlight == s.inFlight + {|s.origin|} && |t.origin| == |s.origin| + 1
  {
  }

  /** The calls numbered from `call`, split off the first one and off the last one. */
  lemma CallsFrom(inFlight: set<nat>, call: nat, n: nat)
    requires n > 0
    ensures Calls(call, n) == Calls(call, n - 1) + {call + n - 1} && call + n - 1 !in Calls(call, n - 1)
    ensures inFlight + {call} + Calls(call + 1, n - 1) == inFlight + Calls(call, n)
    ensures inFlight + Calls(call, n) - Calls(call, n - 1) - {call + n - 1} == inFlight - Calls(call, n)
  {
    CallsShift(call, n);
    if n > 1 {
      CallsShift(call, n - 1);
    }
    assert inFlight + Calls(call, n) - Calls(call, n - 1) - {call + n - 1} == inFlight - Calls(call, n);
  }

  /** Once wedged with no call in flight, only Reset helps: time, however long, does not. */
  lemma {:induction false} WedgedUntilReset(cfg: Config, s: System, run: seq<Event>)
    requires Wedged(cfg, s) && s.inFlight == {} && NoReset(run)
    ensures var t := After(cfg, s, run); t.breaker == s.breaker && t.origin == s.origin && t.inFlight == {}
    ensures forall e: Event | e.Request? ::
              && Verdict(cfg, After(cfg, s, run), e) == TooManyRequests
              && forall wait: nat :: Verdict(cfg, Step(cfg, After(cfg, s, run), Resetting(wait)), e) == Admitted
  {
    if run != [] {
      WedgedUntilReset(cfg, s, run[..|run| - 1]);
    }
  }
}
