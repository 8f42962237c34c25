/**
 * What turns a request away in a run of the interceptor chain: the breaker by the answers that earlier
 * requests got, the bulkhead by the attempts in flight.
 */
module RequestBreaker {
  import opened Std
  import opened RequestChain
  import opened Text
  import Breaker = CircuitBreaker
  import Retry

  // ----- the breaker -----

  /** What a step tells the breaker: an error of the handler is a failure, its absence a success. */
  function Told(a: Action): seq<Breaker.Event> {
    match a
    case Return(_, now, Some(_)) => [Breaker.Failed(now)]
    case Return(_, now, None) => [Breaker.Succeeded(now)]
    case ResetBreaker => [Breaker.WasReset]
    case _ => []
  }

  function AllTold(actions: seq<Action>): seq<Breaker.Event> {
    if actions == [] then [] else Told(actions[0]) + AllTold(actions[1..])
  }

  /** The log without the starts of calls. */
  function Completed(log: seq<Breaker.Event>): seq<Breaker.Event> {
    if log == [] then []
    else
      var before := Completed(log[..|log| - 1]);
      if log[|log| - 1].Started? then before else before + [log[|log| - 1]]
  }

  /** Starts of calls do not matter to a refusal. */
  lemma {:induction false} CompletedDecides(log: seq<Breaker.Event>)
    ensures Breaker.Failures(log) == Breaker.Failures(Completed(log))
    ensures Breaker.LastFailure(log) == Breaker.LastFailure(Completed(log))
  {
    if log != [] {
      var before, last := log[..|log| - 1], log[|log| - 1];
      CompletedDecides(before);
      assert (Completed(before) + [last])[..|Completed(before)|] == Completed(before);
    }
  }

  lemma CompletedAfter(log: seq<Breaker.Event>, e: Breaker.Event)
    ensures Completed(log + [e]) == Completed(log) + if e.Started? then [] else [e]
  {
    assert (log + [e])[..|log|] == log;
  }

  lemma StepTells(c: Settings, s: State, a: Action)
    requires Apply(c, s, a).Some?
    ensures Completed(Apply(c, s, a).value.log) == Completed(s.log) + Told(a)
  {
    match a
    case EnterBreaker(id, now) => CompletedAfter(s.log, Breaker.Started(now));
    case Return(id, now, Some(_)) => CompletedAfter(s.log, Breaker.Failed(now));
    case Return(id, now, None) => CompletedAfter(s.log, Breaker.Succeeded(now));
    case ResetBreaker => CompletedAfter(s.log, Breaker.WasReset);
    case _ =>
  }

  lemma {:induction false} RunTells(c: Settings, s: State, actions: seq<Action>)
    requires Run(c, s, actions).Some?
    ensures Completed(Run(c, s, actions).value.log) == Completed(s.log) + AllTold(actions)
    decreases |actions|
  {
    if actions != [] {
      StepTells(c, s, actions[0]);
      RunTells(c, Apply(c, s, actions[0]).value, actions[1..]);
    }
  }

  /** By the answers told so far the breaker is open at `now`. */
  ghost predicate OpenBy(threshold: nat, cooldown: nat, told: seq<Breaker.Event>, now: int) {
    && |Breaker.FailedSince(told)| >= threshold
    && exists k :: Breaker.LastFailedAt(told, k) && now - told[k].at <= cooldown
  }

  lemma LogDecides(threshold: nat, cooldown: nat, log: seq<Breaker.Event>, now: int)
    requires threshold > 0
    ensures Breaker.Refuses(threshold, cooldown, log, now) <==> OpenBy(threshold, cooldown, Completed(log), now)
  {
    CompletedDecides(log);
    Breaker.RefusesIff(threshold, cooldown, Completed(log), now);
  }

  lemma EnterOutcome(s: State, id: Id, now: int, refuses: bool, open: bool)
    requires id in s.requests && s.requests[id].phase == Admitted
    ensures var next := EnterStep(s, id, s.requests[id], now, refuses, open);
      && next.Some? && id in next.value.requests
      && next.value.requests[id].phase == if refuses then Leaving(Some(open)) else InHandler
  {
  }

  lemma EnterDecides(c: Settings, s: State, id: Id, now: int)
    requires id in s.requests && s.requests[id].phase == Admitted
    ensures var next := Apply(c, s, EnterBreaker(id, now));
      && next.Some? && id in next.value.requests
      && next.value.requests[id].phase ==
           if Breaker.Refuses(c.threshold, c.cooldown, s.log, now) then Leaving(Some(false)) else InHandler
  {
    Retry.CircuitOpenIsFinal();
    EnterOutcome(s, id, now, Breaker.Refuses(c.threshold, c.cooldown, s.log, now), false);
  }

  /**
   * In every run a request past the bulkhead is turned away for good exactly when, of the answers so far, at
   * least `threshold` failed after the last success or reset and the most recent failure is within the cooldown.
   */
  lemma TurnedAwayIff(c: Settings, s: State, actions: seq<Action>, id: Id, now: int)
    requires c.threshold > 0 && Run(c, Init, actions) == Some(s)
    requires id in s.requests && s.requests[id].phase == Admitted
    ensures var next := Apply(c, s, EnterBreaker(id, now));
      && next.Some? && id in next.value.requests
      && next.value.requests[id].phase ==
           if OpenBy(c.threshold, c.cooldown, AllTold(actions), now) then Leaving(Some(false)) else InHandler
  {
    RunTells(c, Init, actions);
    assert Completed(s.log) == [] + AllTold(actions) == AllTold(actions);
    LogDecides(c.threshold, c.cooldown, s.log, now);
    EnterDecides(c, s, id, now);
  }

  // ----- the bulkhead -----

  /**
   * In every run an attempt gets a permit exactly when its pool has one left, or it has no pool; else it failed
   * with an error that is retried.
   */
  lemma PermitGrantedIff(c: Settings, actions: seq<Action>, id: Id)
    requires Run(c, Init, actions).Some?
    requires var s := Run(c, Init, actions).value; id in s.requests && s.requests[id].phase == Ready
    ensures var s := Run(c, Init, actions).value;
      var domain := s.requests[id].domain;
      var next := Apply(c, s, Acquire(id));
      && next.Some? && id in next.value.requests
      && next.value.requests[id].phase ==
           if domain.None? || |Where(s.requests, InPool(domain.value))| < c.poolSize(domain.value) then Admitted
           else Backoff(true)
  {
    var s := Run(c, Init, actions).value;
    InitHolds(c);
    RunKeeps(c, Init, actions);
    if s.requests[id].domain.Some? { assert PermitsConserved(c, s, s.requests[id].domain.value); }
  }

  // ----- progress -----

  /** The step a request waits for; the answer, the clock and a cancellation are given. */
  function NextStep(id: Id, phase: Phase, now: int, err: Option<Retry.Error>, cancelled: bool): Action
    requires phase != Finished
  {
    match phase
    case Ready => Acquire(id)
    case Admitted => EnterBreaker(id, now)
    case InHandler => Return(id, now, err)
    case Leaving(_) => Release(id)
    case Backoff(_) => Decide(id, cancelled)
  }

  /** A request that has not finished can always make its next step, which leaves its phase. */
  lemma RequestNeverStuck(c: Settings, s: State, id: Id, now: int, err: Option<Retry.Error>, cancelled: bool)
    requires id in s.requests && s.requests[id].phase != Finished
    ensures var next := Apply(c, s, NextStep(id, s.requests[id].phase, now, err, cancelled));
      next.Some? && id in next.value.requests && next.value.requests[id].phase != s.requests[id].phase
  {
    match s.requests[id].phase
    case Ready =>
    case Admitted => EnterDecides(c, s, id, now);
    case InHandler =>
    case Leaving(_) =>
    case Backoff(_) =>
  }

  const QUERY_SERVICES: seq<string> := ["QueryService", "ProjectService", "RegistryService", "LibraryService"]
  const CHAT_SERVICES: seq<string> := ["AgentService", "SkillService", "ToolService", "NLPService"]

  lemma AnyOfFour(procedure: string, names: seq<string>)
    requires |names| == 4
    ensures ContainsAny(procedure, names) <==>
      || Contains(procedure, names[0]) || Contains(procedure, names[1])
      || Contains(procedure, names[2]) || Contains(procedure, names[3])
  {
  }

  /** Which pool a procedure uses, by the services it names; query services win, then ingestion. */
  lemma PoolOfProcedure(procedure: string)
    ensures DomainFor(procedure) == Some(Query) <==> ContainsAny(procedure, QUERY_SERVICES)
    ensures DomainFor(procedure) == Some(Ingestion) <==>
      !ContainsAny(procedure, QUERY_SERVICES) && Contains(procedure, "IngestionService")
    ensures DomainFor(procedure) == Some(Chat) <==>
      && !ContainsAny(procedure, QUERY_SERVICES) && !Contains(procedure, "IngestionService")
      && ContainsAny(procedure, CHAT_SERVICES)
  {
    AnyOfFour(procedure, QUERY_SERVICES);
    AnyOfFour(procedure, CHAT_SERVICES);
  }
}
