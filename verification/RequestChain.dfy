/**
 * Requests through retry, then bulkhead, then circuit breaker (the interceptor order of
 * internal/app/app.go), as the interleaved steps of any number of requests.
 *
 * Each step is one critical section: taking a permit, the breaker's section before or after the call,
 * returning the permit, or the retry loop's decision.  The handler's answers, the clock and
 * cancellations are arbitrary.
 */
module RequestChain {
  import opened Std
  import opened Retry
  import opened Text
  import Breaker = CircuitBreaker

  type Id = nat

  datatype Domain = Query | Ingestion | Chat

  function DomainFor(procedure: string): Option<Domain> {
    if Contains(procedure, "QueryService") || Contains(procedure, "ProjectService")
       || Contains(procedure, "RegistryService") || Contains(procedure, "LibraryService") then Some(Query)
    else if Contains(procedure, "IngestionService") then Some(Ingestion)
    else if Contains(procedure, "AgentService") || Contains(procedure, "SkillService")
            || Contains(procedure, "ToolService") || Contains(procedure, "NLPService") then Some(Chat)
    else None
  }

  datatype Settings = Settings(maxRetries: int, poolSize: Domain -> int, threshold: nat, cooldown: nat)

  /** An attempt's answer: None for success, else the retry loop's verdict on its error. */
  type Verdict = Option<bool>

  function VerdictOn(err: Option<Error>): Verdict {
    if err.None? then None else Some(ShouldRetry(err.value))
  }

  /** Where a request stands in the chain. */
  datatype Phase =
    | Ready                             // the retry loop is about to call the operation
    | Admitted                          // past the bulkhead, permit held if it has a pool
    | InHandler                         // admitted by the breaker
    | Leaving(answer: Verdict)          // the breaker has answered, permit still held
    | Backoff(again: bool)              // the attempt failed, permit returned
    | Finished

  /** `calls` counts handler invocations; `refused` says that the open breaker turned the request away. */
  datatype Request = Request(
    domain: Option<Domain>, streaming: bool, attempts: nat, calls: nat, refused: bool, phase: Phase)

  datatype State = State(held: map<Domain, nat>, requests: map<Id, Request>, log: seq<Breaker.Event>)

  datatype Action =
    | Arrive(id: Id, procedure: string, streaming: bool)
    | Acquire(id: Id)
    | EnterBreaker(id: Id, now: int)
    | Return(id: Id, now: int, err: Option<Error>)
    | Release(id: Id)
    | Decide(id: Id, cancelled: bool)
    | ResetBreaker

  const Init: State := State(map[Query := 0, Ingestion := 0, Chat := 0], map[], [])

  const OVERLOADED: Error :=
    Error(false, false, Some(CODE_UNAVAILABLE), "service overloaded: too many concurrent operations")

  /** Streams are never retried. */
  function Retries(c: Settings, r: Request): int {
    if r.streaming then 0 else c.maxRetries
  }

  function Put(s: State, id: Id, r: Request): State {
    s.(requests := s.requests[id := r])
  }

  function Taken(s: State, d: Domain): nat {
    if d in s.held then s.held[d] else 0
  }

  /** The bulkhead: TryAcquire(1) on the request's pool, if it has one. */
  function AcquireStep(c: Settings, s: State, id: Id, r: Request, overloaded: bool): Option<State> {
    if r.phase != Ready then None
    else
      var r' := r.(attempts := r.attempts + 1);
      if r.domain.None? then Some(Put(s, id, r'.(phase := Admitted)))
      else
        var d := r.domain.value;
        if c.poolSize(d) - Taken(s, d) < 1 then Some(Put(s, id, r'.(phase := Backoff(overloaded))))
        else Some(Put(s.(held := s.held[d := Taken(s, d) + 1]), id, r'.(phase := Admitted)))
  }

  /** The breaker's section before the call. */
  function EnterStep(s: State, id: Id, r: Request, now: int, refuses: bool, open: bool): Option<State> {
    if r.phase != Admitted then None
    else if refuses then Some(Put(s, id, r.(phase := Leaving(Some(open)), refused := true)))
    else Some(Put(s.(log := s.log + [Breaker.Started(now)]), id, r.(phase := InHandler, calls := r.calls + 1)))
  }

  /** The breaker's section after the call. */
  function ReturnStep(s: State, id: Id, r: Request, now: int, answer: Verdict): Option<State> {
    if r.phase != InHandler then None
    else
      var event := if answer.Some? then Breaker.Failed(now) else Breaker.Succeeded(now);
      Some(Put(s.(log := s.log + [event]), id, r.(phase := Leaving(answer))))
  }

  /** The bulkhead's deferred release. */
  function ReleaseStep(s: State, id: Id, r: Request): Option<State> {
    if !r.phase.Leaving? then None
    else
      var r' := r.(phase := if r.phase.answer.Some? then Backoff(r.phase.answer.value) else Finished);
      if r.domain.None? || Taken(s, r.domain.value) == 0 then Some(Put(s, id, r'))
      else Some(Put(s.(held := s.held[r.domain.value := Taken(s, r.domain.value) - 1]), id, r'))
  }

  /** The retry loop after a failed attempt. */
  function DecideStep(c: Settings, s: State, id: Id, r: Request, cancelled: bool): Option<State> {
    if !r.phase.Backoff? then None
    else if !r.phase.again || r.attempts > Retries(c, r) || cancelled then
      Some(Put(s, id, r.(phase := Finished)))
    else Some(Put(s, id, r.(phase := Ready)))
  }

  function ArriveStep(c: Settings, s: State, id: Id, domain: Option<Domain>, streaming: bool): State {
    var r := Request(domain, streaming, 0, 0, false, Ready);
    Put(s, id, if Retries(c, r) < 0 then r.(phase := Finished) else r)
  }

  /** The state after one step; None when the step is not possible there. */
  function Apply(c: Settings, s: State, a: Action): Option<State> {
    match a
    case Arrive(id, procedure, streaming) =>
      if id in s.requests then None else Some(ArriveStep(c, s, id, DomainFor(procedure), streaming))
    case Acquire(id) =>
      if id !in s.requests then None else AcquireStep(c, s, id, s.requests[id], ShouldRetry(OVERLOADED))
    case EnterBreaker(id, now) =>
      var refuses := Breaker.Refuses(c.threshold, c.cooldown, s.log, now);
      if id !in s.requests then None else EnterStep(s, id, s.requests[id], now, refuses, ShouldRetry(CIRCUIT_OPEN))
    case Return(id, now, err) =>
      if id !in s.requests then None else ReturnStep(s, id, s.requests[id], now, VerdictOn(err))
    case Release(id) => if id !in s.requests then None else ReleaseStep(s, id, s.requests[id])
    case Decide(id, cancelled) => if id !in s.requests then None else DecideStep(c, s, id, s.requests[id], cancelled)
    case ResetBreaker => Some(s.(log := s.log + [Breaker.WasReset]))
  }

  function Run(c: Settings, s: State, actions: seq<Action>): Option<State>
    decreases |actions|
  {
    if actions == [] then Some(s)
    else
      var next := Apply(c, s, actions[0]);
      if next.None? then None else Run(c, next.value, actions[1..])
  }

  // ----- counting the requests at a place -----

  datatype Place = InPool(domain: Domain) | AtHandler

  /** The pool whose permit the request holds. */
  function Permit(r: Request): Option<Domain> {
    if r.phase == Admitted || r.phase == InHandler || r.phase.Leaving? then r.domain else None
  }

  predicate At(r: Request, p: Place) {
    match p
    case InPool(d) => Permit(r) == Some(d)
    case AtHandler => r.phase == InHandler
  }

  function Where(requests: map<Id, Request>, p: Place): set<Id> {
    set id | id in requests && At(requests[id], p)
  }

  function One(b: bool): nat {
    if b then 1 else 0
  }

  lemma CountAfterPut(requests: map<Id, Request>, id: Id, r: Request, p: Place)
    ensures |Where(requests[id := r], p)| ==
      |Where(requests, p)| - One(id in requests && At(requests[id], p)) + One(At(r, p))
  {
    var before, after := Where(requests, p), Where(requests[id := r], p);
    var others := before - {id};
    assert before == if id in requests && At(requests[id], p) then others + {id} else others;
    assert after == if At(r, p) then others + {id} else others;
  }

  /** Calls the breaker let in and has not seen the end of. */
  function Pending(log: seq<Breaker.Event>): int {
    if log == [] then 0 else Pending(log[..|log| - 1]) + Change(log[|log| - 1])
  }

  function Change(e: Breaker.Event): int {
    match e
    case Started(_) => 1
    case Failed(_) => -1
    case Succeeded(_) => -1
    case WasReset => 0
  }

  // ----- what every step keeps -----

  /** The permits taken from a pool are held by the attempts in flight there, and never exceed its size. */
  predicate PermitsConserved(c: Settings, s: State, d: Domain) {
    Taken(s, d) == |Where(s.requests, InPool(d))| && (Taken(s, d) > 0 ==> Taken(s, d) <= c.poolSize(d))
  }

  predicate OnTheWayOut(p: Phase) {
    || p == Finished
    || p == Leaving(Some(false))
    || p == Backoff(false)
  }

  predicate Bounded(c: Settings, r: Request) {
    && r.calls <= r.attempts
    && r.attempts <= (if Retries(c, r) < 0 then 0 else Retries(c, r) + 1)
    && (r.phase == Ready ==> r.attempts <= Retries(c, r))
    && (r.phase == Admitted ==> r.calls < r.attempts)
    && (r.refused ==> OnTheWayOut(r.phase))
  }

  ghost predicate Inv(c: Settings, s: State) {
    && (forall d :: PermitsConserved(c, s, d))
    && Pending(s.log) == |Where(s.requests, AtHandler)|
    && (forall id :: id in s.requests ==> Bounded(c, s.requests[id]))
  }

  lemma InitHolds(c: Settings)
    ensures Inv(c, Init)
  {
    forall d ensures PermitsConserved(c, Init, d) {
      assert Where(Init.requests, InPool(d)) == {};
    }
    assert Where(Init.requests, AtHandler) == {};
  }

  /** What one step does to the acting request, to the pools and to the breaker's log. */
  ghost predicate Moves(c: Settings, s: State, s': State, id: Id, r': Request) {
    && s'.requests == s.requests[id := r']
    && Bounded(c, r')
    && (forall d :: PoolMoves(c, s, s', id, r', d))
    && Pending(s'.log) == Pending(s.log) - One(Was(s, id, AtHandler)) + One(At(r', AtHandler))
  }

  predicate Was(s: State, id: Id, p: Place) {
    id in s.requests && At(s.requests[id], p)
  }

  predicate PoolMoves(c: Settings, s: State, s': State, id: Id, r': Request, d: Domain) {
    && Taken(s', d) == Taken(s, d) - One(Was(s, id, InPool(d))) + One(At(r', InPool(d)))
    && (Taken(s', d) <= Taken(s, d) || Taken(s', d) <= c.poolSize(d))
  }

  lemma MoveKeeps(c: Settings, s: State, s': State, id: Id, r': Request)
    requires Inv(c, s) && Moves(c, s, s', id, r')
    ensures Inv(c, s')
  {
    forall d ensures PermitsConserved(c, s', d) {
      assert PermitsConserved(c, s, d) && PoolMoves(c, s, s', id, r', d);
      CountAfterPut(s.requests, id, r', InPool(d));
    }
    CountAfterPut(s.requests, id, r', AtHandler);
  }

  lemma PendingAfter(log: seq<Breaker.Event>, e: Breaker.Event)
    ensures Pending(log + [e]) == Pending(log) + Change(e)
  {
    assert (log + [e])[..|log|] == log;
  }

  /** A permit is there to give back while its holder is in the pool. */
  lemma HolderCounted(c: Settings, s: State, id: Id, d: Domain)
    requires Inv(c, s) && id in s.requests && At(s.requests[id], InPool(d))
    ensures Taken(s, d) > 0
  {
    assert PermitsConserved(c, s, d);
    assert id in Where(s.requests, InPool(d));
  }

  lemma ArriveMoves(c: Settings, s: State, id: Id, domain: Option<Domain>, streaming: bool)
    requires id !in s.requests
    ensures var s' := ArriveStep(c, s, id, domain, streaming); Moves(c, s, s', id, s'.requests[id])
  {
  }

  lemma AcquireMoves(c: Settings, s: State, id: Id, overloaded: bool)
    requires id in s.requests && Bounded(c, s.requests[id])
    requires AcquireStep(c, s, id, s.requests[id], overloaded).Some?
    ensures var s' := AcquireStep(c, s, id, s.requests[id], overloaded).value; Moves(c, s, s', id, s'.requests[id])
  {
  }

  lemma EnterMoves(c: Settings, s: State, id: Id, now: int, refuses: bool, open: bool)
    requires id in s.requests && Bounded(c, s.requests[id]) && !open
    requires EnterStep(s, id, s.requests[id], now, refuses, open).Some?
    ensures var s' := EnterStep(s, id, s.requests[id], now, refuses, open).value; Moves(c, s, s', id, s'.requests[id])
  {
    PendingAfter(s.log, Breaker.Started(now));
  }

  lemma ReturnMoves(c: Settings, s: State, id: Id, now: int, answer: Verdict)
    requires id in s.requests && Bounded(c, s.requests[id])
    requires ReturnStep(s, id, s.requests[id], now, answer).Some?
    ensures var s' := ReturnStep(s, id, s.requests[id], now, answer).value; Moves(c, s, s', id, s'.requests[id])
  {
    PendingAfter(s.log, if answer.Some? then Breaker.Failed(now) else Breaker.Succeeded(now));
  }

  lemma ReleaseMoves(c: Settings, s: State, id: Id)
    requires Inv(c, s) && id in s.requests && ReleaseStep(s, id, s.requests[id]).Some?
    ensures var s' := ReleaseStep(s, id, s.requests[id]).value; Moves(c, s, s', id, s'.requests[id])
  {
    var r := s.requests[id];
    if r.domain.Some? { HolderCounted(c, s, id, r.domain.value); }
  }

  lemma DecideMoves(c: Settings, s: State, id: Id, cancelled: bool)
    requires id in s.requests && Bounded(c, s.requests[id])
    requires DecideStep(c, s, id, s.requests[id], cancelled).Some?
    ensures var s' := DecideStep(c, s, id, s.requests[id], cancelled).value; Moves(c, s, s', id, s'.requests[id])
  {
  }

  lemma ResetKeeps(c: Settings, s: State)
    requires Inv(c, s)
    ensures Inv(c, s.(log := s.log + [Breaker.WasReset]))
  {
    var s' := s.(log := s.log + [Breaker.WasReset]);
    PendingAfter(s.log, Breaker.WasReset);
    assert forall d :: PermitsConserved(c, s, d) ==> PermitsConserved(c, s', d);
  }

  lemma StepMoves(c: Settings, s: State, a: Action)
    requires Inv(c, s) && Apply(c, s, a).Some? && !a.ResetBreaker?
    ensures var s' := Apply(c, s, a).value; a.id in s'.requests && Moves(c, s, s', a.id, s'.requests[a.id])
  {
    match a
    case Arrive(id, procedure, streaming) => ArriveMoves(c, s, id, DomainFor(procedure), streaming);
    case Acquire(id) => AcquireMoves(c, s, id, ShouldRetry(OVERLOADED));
    case EnterBreaker(id, now) =>
      CircuitOpenIsFinal();
      EnterMoves(c, s, id, now, Breaker.Refuses(c.threshold, c.cooldown, s.log, now), ShouldRetry(CIRCUIT_OPEN));
    case Return(id, now, err) => ReturnMoves(c, s, id, now, VerdictOn(err));
    case Release(id) => ReleaseMoves(c, s, id);
    case Decide(id, cancelled) => DecideMoves(c, s, id, cancelled);
  }

  lemma StepKeeps(c: Settings, s: State, a: Action)
    requires Inv(c, s) && Apply(c, s, a).Some?
    ensures Inv(c, Apply(c, s, a).value)
  {
    if a.ResetBreaker? {
      ResetKeeps(c, s);
    } else {
      StepMoves(c, s, a);
      var s' := Apply(c, s, a).value;
      MoveKeeps(c, s, s', a.id, s'.requests[a.id]);
    }
  }

  lemma {:induction false} RunKeeps(c: Settings, s: State, actions: seq<Action>)
    requires Inv(c, s) && Run(c, s, actions).Some?
    ensures Inv(c, Run(c, s, actions).value)
    decreases |actions|
  {
    if actions != [] {
      StepKeeps(c, s, actions[0]);
      RunKeeps(c, Apply(c, s, actions[0]).value, actions[1..]);
    }
  }

  // ----- the main results, over every run from the start -----

  /** Free permits plus attempts in flight are the pool size. */
  lemma PermitsConservedInEveryRun(c: Settings, actions: seq<Action>, d: Domain)
    requires Run(c, Init, actions).Some?
    ensures var s := Run(c, Init, actions).value;
      var free := c.poolSize(d) - Taken(s, d);
      && free + |Where(s.requests, InPool(d))| == c.poolSize(d)
      && (c.poolSize(d) >= 0 ==> free >= 0)
  {
    InitHolds(c);
    RunKeeps(c, Init, actions);
    assert PermitsConserved(c, Run(c, Init, actions).value, d);
  }

  /** No request reaches its handler more than maxRetries + 1 times, and no stream more than once. */
  lemma HandlerCallsBounded(c: Settings, actions: seq<Action>, id: Id)
    requires Run(c, Init, actions).Some? && id in Run(c, Init, actions).value.requests
    ensures var r := Run(c, Init, actions).value.requests[id];
      r.calls <= (if r.streaming then 1 else if c.maxRetries < 0 then 0 else c.maxRetries + 1)
  {
    InitHolds(c);
    RunKeeps(c, Init, actions);
  }

  /** A refused request only walks out: its attempts and calls stay what they are. */
  lemma RefusedStaysOut(c: Settings, s: State, a: Action, id: Id)
    requires Inv(c, s) && Apply(c, s, a).Some? && id in s.requests && s.requests[id].refused
    ensures var s' := Apply(c, s, a).value;
      && id in s'.requests && s'.requests[id].refused
      && s'.requests[id].attempts == s.requests[id].attempts
      && s'.requests[id].calls == s.requests[id].calls
  {
    assert Bounded(c, s.requests[id]);
  }

  /** Once the open breaker has refused a request, nothing that happens later starts it again. */
  lemma {:induction false} OpenRefusalNeverRetried(c: Settings, s: State, actions: seq<Action>, id: Id)
    requires Inv(c, s) && Run(c, s, actions).Some?
    requires id in s.requests && s.requests[id].refused
    ensures var s' := Run(c, s, actions).value;
      && id in s'.requests && s'.requests[id].refused
      && s'.requests[id].attempts == s.requests[id].attempts
      && s'.requests[id].calls == s.requests[id].calls
    decreases |actions|
  {
    if actions != [] {
      StepKeeps(c, s, actions[0]);
      RefusedStaysOut(c, s, actions[0], id);
      OpenRefusalNeverRetried(c, Apply(c, s, actions[0]).value, actions[1..], id);
    }
  }
}
