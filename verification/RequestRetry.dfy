/**
 * A request in the interceptor chain is retried exactly as the retry loop alone would do it
 * (internal/middleware/retry.go under internal/app/app.go).
 *
 * The trace of a request lists, attempt by attempt, the verdict on the answer its retry loop heard and
 * whether the wait after it was cancelled.  Attempts of other requests may come in between.
 */
module RequestRetry {
  import opened Std
  import opened Retry
  import opened RequestChain

  datatype Heard = Heard(answer: Verdict, cancelled: bool)

  // ----- the trace of a request -----

  /** What one step of the chain adds to the trace of a request that goes from `r` to `r'`. */
  function Hear(c: Settings, r: Request, r': Request, trace: seq<Heard>): seq<Heard> {
    if r'.phase.Leaving? && !r.phase.Leaving? then trace + [Heard(r'.phase.answer, false)]
    else if r'.phase.Backoff? && r.phase == Ready then trace + [Heard(Some(r'.phase.again), false)]
    else if r'.phase == Finished && r.phase == Backoff(true) && r.attempts <= Retries(c, r) && trace != [] then
      trace[|trace| - 1 := trace[|trace| - 1].(cancelled := true)]
    else trace
  }

  /** The trace after a run from `s`, given the trace so far. */
  function Trace(c: Settings, s: State, actions: seq<Action>, id: Id, trace: seq<Heard>): seq<Heard>
    decreases |actions|
  {
    if actions == [] then trace
    else
      var next := Apply(c, s, actions[0]);
      if next.None? then trace
      else
        var heard := if id in s.requests && id in next.value.requests
          then Hear(c, s.requests[id], next.value.requests[id], trace) else trace;
        Trace(c, next.value, actions[1..], id, heard)
  }

  // ----- what the trace says about the request -----

  /** After these answers the loop goes on. */
  ghost predicate AllRetried(trace: seq<Heard>, n: int) {
    |trace| <= n && forall i :: 0 <= i < |trace| ==> trace[i] == Heard(Some(true), false)
  }

  /** After these answers the loop ends: all but the last are retried, and the last one is not. */
  ghost predicate Settled(trace: seq<Heard>, n: int) {
    if trace == [] then n < 0
    else
      var last := trace[|trace| - 1];
      && AllRetried(trace[..|trace| - 1], n)
      && (last.answer != Some(true) || last.cancelled || |trace| > n)
  }

  ghost predicate Pending(trace: seq<Heard>, n: int, answer: Verdict) {
    trace != [] && AllRetried(trace[..|trace| - 1], n) && trace[|trace| - 1] == Heard(answer, false)
  }

  ghost predicate Follows(c: Settings, r: Request, trace: seq<Heard>) {
    var n := Retries(c, r);
    match r.phase
    case Ready => |trace| == r.attempts && AllRetried(trace, n)
    case Admitted => |trace| == r.attempts - 1 && AllRetried(trace, n)
    case InHandler => |trace| == r.attempts - 1 && AllRetried(trace, n)
    case Leaving(answer) => |trace| == r.attempts && Pending(trace, n, answer)
    case Backoff(again) => |trace| == r.attempts && Pending(trace, n, Some(again))
    case Finished => |trace| == r.attempts && Settled(trace, n)
  }

  /** How one step may change a request. */
  ghost predicate Moved(c: Settings, r: Request, r': Request) {
    && r'.streaming == r.streaming
    && match r.phase {
      case Ready => r'.attempts == r.attempts + 1 && (r'.phase == Admitted || r'.phase.Backoff?)
      case Admitted => r'.attempts == r.attempts && (r'.phase == InHandler || r'.phase.Leaving?)
      case InHandler => r'.attempts == r.attempts && r'.phase.Leaving?
      case Leaving(answer) =>
        r'.attempts == r.attempts && r'.phase == if answer.Some? then Backoff(answer.value) else Finished
      case Backoff(again) =>
        && r'.attempts == r.attempts && (r'.phase == Ready || r'.phase == Finished)
        && (r'.phase == Ready ==> again && r.attempts <= Retries(c, r))
      case Finished => false
    }
  }

  lemma StepMoves(c: Settings, s: State, a: Action, id: Id)
    requires Apply(c, s, a).Some? && id in s.requests
    ensures var s' := Apply(c, s, a).value;
      id in s'.requests && (s'.requests[id] == s.requests[id] || Moved(c, s.requests[id], s'.requests[id]))
  {
  }

  lemma MoveFollows(c: Settings, r: Request, r': Request, trace: seq<Heard>)
    requires Follows(c, r, trace) && Moved(c, r, r')
    ensures Follows(c, r', Hear(c, r, r', trace))
  {
    var heard := Hear(c, r, r', trace);
    if |heard| > |trace| {
      assert heard[..|trace|] == trace;
    } else if heard != trace {
      assert heard[..|trace| - 1] == trace[..|trace| - 1];
    } else if r'.phase == Ready {
      assert forall i :: 0 <= i < |trace| - 1 ==> trace[..|trace| - 1][i] == trace[i];
    }
  }

  lemma {:induction false} RunFollows(c: Settings, s: State, actions: seq<Action>, id: Id, trace: seq<Heard>)
    requires RequestChain.Run(c, s, actions).Some?
    requires if id in s.requests then Follows(c, s.requests[id], trace) else trace == []
    ensures var s' := RequestChain.Run(c, s, actions).value;
      id in s'.requests ==> Follows(c, s'.requests[id], Trace(c, s, actions, id, trace))
    decreases |actions|
  {
    if actions != [] {
      var s' := Apply(c, s, actions[0]).value;
      if id in s.requests {
        StepMoves(c, s, actions[0], id);
        var r, r' := s.requests[id], s'.requests[id];
        if r' != r { MoveFollows(c, r, r', trace); }
        RunFollows(c, s', actions[1..], id, Hear(c, r, r', trace));
      } else {
        ArrivalFollows(c, s, actions[0], id);
        RunFollows(c, s', actions[1..], id, trace);
      }
    }
  }

  lemma ArrivalFollows(c: Settings, s: State, a: Action, id: Id)
    requires Apply(c, s, a).Some? && id !in s.requests
    ensures var s' := Apply(c, s, a).value; id in s'.requests ==> Follows(c, s'.requests[id], [])
  {
  }

  // ----- against the retry loop -----

  /** A script that gives the loop the answers of the trace. */
  ghost predicate Gives(script: Script, trace: seq<Heard>) {
    forall i: nat :: i < |trace| ==>
      VerdictOn(script(i).err) == trace[i].answer && (script(i).cancelled.Some? <==> trace[i].cancelled)
  }

  lemma {:induction false} LoopFollowsTrace(config: Config, script: Script, trace: seq<Heard>, i: nat, delay: int)
    requires Settled(trace, config.maxRetries) && Gives(script, trace) && i < |trace|
    ensures var o := Attempts(config, script, i, delay);
      o.runs == |trace| - i && (o.answer == Value <==> trace[|trace| - 1].answer == None)
    decreases |trace| - i
  {
    var last := |trace| - 1;
    assert VerdictOn(script(i).err) == trace[i].answer;
    if i < last {
      assert trace[..last][i] == trace[i];
      LoopFollowsTrace(config, script, trace, i + 1, delay * 2);
    }
  }

  /**
   * In every run of the chain a finished request has made exactly the attempts that the retry loop makes on
   * the answers it heard, and it has succeeded exactly when the loop does.
   */
  lemma FinishedLikeTheLoop(
      c: Settings, actions: seq<Action>, id: Id, config: Config, script: Script)
    requires RequestChain.Run(c, Init, actions).Some? && id in RequestChain.Run(c, Init, actions).value.requests
    requires var r := RequestChain.Run(c, Init, actions).value.requests[id];
      r.phase == Finished && config.maxRetries == Retries(c, r)
    requires Gives(script, Trace(c, Init, actions, id, []))
    ensures var r, trace := RequestChain.Run(c, Init, actions).value.requests[id], Trace(c, Init, actions, id, []);
      var o := Attempts(config, script, 0, config.initialDelay);
      && r.attempts == o.runs
      && (o.answer == Value <==> trace != [] && trace[|trace| - 1].answer == None)
  {
    RunFollows(c, Init, actions, id, []);
    var trace := Trace(c, Init, actions, id, []);
    if trace != [] { LoopFollowsTrace(config, script, trace, 0, config.initialDelay); }
  }
}
