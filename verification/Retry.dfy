/**
 * Retry with exponential backoff (internal/middleware/retry.go).
 *
 * What the operation answers, the random number and whether the context is cancelled during the wait
 * are given per attempt by a script.  Durations are unbounded integers.
 */
module Retry {
  import opened Std
  import opened Text

  // ----- which errors are retried -----

  /** What ShouldRetry can see of an error: its wrapped kinds, its Connect code and its text. */
  datatype Error = Error(isContext: bool, isNet: bool, code: Option<nat>, text: string)

  const CODE_INVALID_ARGUMENT: nat := 3
  const CODE_INTERNAL: nat := 13
  const CODE_UNAVAILABLE: nat := 14
  const CODE_DATA_LOSS: nat := 15
  const CODE_UNAUTHENTICATED: nat := 16

  predicate ShouldRetry(e: Error) {
    if e.isContext || e.isNet then true
    else if e.code.Some? && CODE_INTERNAL <= e.code.value <= CODE_DATA_LOSS then true
    else if e.code.Some? && CODE_INVALID_ARGUMENT <= e.code.value <= CODE_UNAUTHENTICATED then false
    else Contains(e.text, "status code 5")
  }

  /**
   * Context and network errors are retried; so are the codes internal, unavailable and data loss (13 to 15).
   * The codes from invalid argument (3) up to unauthenticated (16) are not, and the rest is by its text.
   */
  lemma RetriedExactly(e: Error)
    ensures ShouldRetry(e) <==>
      || e.isContext
      || e.isNet
      || (e.code.Some? && e.code.value in {13, 14, 15})
      || ((e.code.Some? ==> e.code.value < 3 || 16 < e.code.value)
          && exists i :: OccursAt(e.text, "status code 5", i))
  {
    ContainsIff(e.text, "status code 5");
  }

  const CIRCUIT_OPEN: Error := Error(false, false, None, "circuit breaker: open")

  lemma CircuitOpenIsFinal()
    ensures !ShouldRetry(CIRCUIT_OPEN)
  {
    MissingLastCharacter("circuit breaker: open", "status code 5");
  }

  // ----- the retry loop -----

  datatype Config = Config(maxRetries: int, initialDelay: int, maxDelay: int, jitterFactor: real)

  datatype Answer = Value | Failed(err: Error) | NothingRan

  /** One attempt: the operation's error, the random number in [0, 1) and a cancellation during the wait. */
  datatype Attempt = Attempt(err: Option<Error>, random: real, cancelled: Option<Error>)

  type Script = nat -> Attempt

  ghost predicate RandomInRange(script: Script) {
    forall i :: 0.0 <= script(i).random < 1.0
  }

  /** time.Duration of a float: truncation towards zero. */
  function Truncated(x: real): int {
    if x >= 0.0 then x.Floor else -((-x).Floor)
  }

  function Part(x: real, f: real): real {
    x * f
  }

  function Jitter(delay: int, factor: real, random: real): int {
    Truncated(Part(Part(delay as real, factor), random))
  }

  function WaitFor(c: Config, delay: int, random: real): int {
    var jittered := if c.jitterFactor > 0.0 then delay + Jitter(delay, c.jitterFactor, random) else delay;
    if jittered > c.maxDelay then c.maxDelay else jittered
  }

  datatype Outcome = Outcome(answer: Answer, runs: nat, waits: seq<int>)

  /** The loop from attempt `i` with the current backoff delay. */
  function Attempts(c: Config, script: Script, i: nat, delay: int): (r: Outcome)
    decreases c.maxRetries + 1 - i
  {
    if i > c.maxRetries then Outcome(NothingRan, 0, [])
    else
      var a := script(i);
      if a.err.None? then Outcome(Value, 1, [])
      else if !ShouldRetry(a.err.value) || i >= c.maxRetries then Outcome(Failed(a.err.value), 1, [])
      else if a.cancelled.Some? then Outcome(Failed(a.cancelled.value), 1, [])
      else
        var rest := Attempts(c, script, i + 1, delay * 2);
        Outcome(rest.answer, rest.runs + 1, [WaitFor(c, delay, a.random)] + rest.waits)
  }

  /** The operation runs between once and maxRetries + 1 times, with one wait between runs. */
  lemma {:induction false} RunsBounded(c: Config, script: Script, i: nat, delay: int)
    requires i <= c.maxRetries
    ensures var r := Attempts(c, script, i, delay);
      1 <= r.runs <= c.maxRetries + 1 - i && |r.waits| == r.runs - 1 && r.answer != NothingRan
    decreases c.maxRetries - i
  {
    if i < c.maxRetries { RunsBounded(c, script, i + 1, delay * 2); }
  }

  /** Attempt `j` is followed by another one. */
  predicate GoesOn(c: Config, script: Script, j: nat) {
    var a := script(j);
    j < c.maxRetries && a.err.Some? && ShouldRetry(a.err.value) && a.cancelled.None?
  }

  /** The answer after attempt `j` as the last one. */
  function Settled(c: Config, script: Script, j: nat): Answer {
    var a := script(j);
    if a.err.None? then Value
    else if j < c.maxRetries && ShouldRetry(a.err.value) && a.cancelled.Some? then Failed(a.cancelled.value)
    else Failed(a.err.value)
  }

  /** The delay after `k` doublings. */
  function Doubled(delay: int, k: nat): int {
    if k == 0 then delay else 2 * Doubled(delay, k - 1)
  }

  lemma {:induction false} DoubledFirst(delay: int, k: nat)
    ensures Doubled(delay * 2, k) == Doubled(delay, k + 1)
  {
    if k > 0 { DoubledFirst(delay, k - 1); }
  }

  /** The runs end at the first attempt that is not followed by another, which settles the answer. */
  lemma {:induction false} OnlyRetryableRetried(c: Config, script: Script, i: nat, delay: int)
    requires i <= c.maxRetries
    ensures var r := Attempts(c, script, i, delay);
      && r.runs >= 1
      && (forall j: nat :: i <= j < i + r.runs - 1 ==> GoesOn(c, script, j))
      && !GoesOn(c, script, i + r.runs - 1)
      && r.answer == Settled(c, script, i + r.runs - 1)
    decreases c.maxRetries - i
  {
    if GoesOn(c, script, i) {
      OnlyRetryableRetried(c, script, i + 1, delay * 2);
      var rest := Attempts(c, script, i + 1, delay * 2);
      assert i + 1 + rest.runs - 1 == i + (rest.runs + 1) - 1;
    }
  }

  /** The wait after run `k` is for the initial delay doubled `k` times, with the jitter drawn then. */
  lemma {:induction false} WaitsDouble(c: Config, script: Script, i: nat, delay: int, k: nat)
    requires k < |Attempts(c, script, i, delay).waits|
    ensures Attempts(c, script, i, delay).waits[k] == WaitFor(c, Doubled(delay, k), script(i + k).random)
    decreases k
  {
    if k > 0 {
      WaitsDouble(c, script, i + 1, delay * 2, k - 1);
      DoubledFirst(delay, k - 1);
    }
  }

  // ----- the waits -----

  /** With a jitter factor of at most one the wait lies between the delay and twice the delay, capped. */
  lemma WaitBounds(c: Config, delay: int, random: real)
    requires delay >= 0 && c.jitterFactor <= 1.0 && 0.0 <= random < 1.0
    ensures WaitFor(c, delay, random) <= c.maxDelay
    ensures (if delay > c.maxDelay then c.maxDelay else delay) <= WaitFor(c, delay, random)
    ensures WaitFor(c, delay, random) <= if delay * 2 > c.maxDelay then c.maxDelay else delay * 2
  {
    if c.jitterFactor > 0.0 { JitterBounds(delay, c.jitterFactor, random); }
  }

  /** The wait is the delay and its random share, rounded down, unless the cap is below that. */
  lemma WaitExact(c: Config, delay: int, random: real)
    requires delay >= 0 && 0.0 <= c.jitterFactor <= 1.0 && 0.0 <= random < 1.0
    ensures var ideal := delay as real + Part(Part(delay as real, c.jitterFactor), random);
      var w := WaitFor(c, delay, random);
      if ideal >= c.maxDelay as real + 1.0 then w == c.maxDelay
      else w <= c.maxDelay && w as real <= ideal < w as real + 1.0
  {
    Share(delay as real, c.jitterFactor);
    Share(Part(delay as real, c.jitterFactor), random);
  }

  lemma JitterBounds(delay: int, factor: real, random: real)
    requires delay >= 0 && 0.0 <= factor <= 1.0 && 0.0 <= random <= 1.0
    ensures 0 <= Jitter(delay, factor, random) <= delay
  {
    Share(delay as real, factor);
    JitterWithin(delay, Part(delay as real, factor), random);
  }

  lemma JitterWithin(delay: int, range: real, random: real)
    requires 0.0 <= range <= delay as real && 0.0 <= random <= 1.0
    ensures 0 <= Truncated(Part(range, random)) <= delay
  {
    Share(range, random);
  }

  lemma Share(x: real, f: real)
    requires x >= 0.0 && 0.0 <= f <= 1.0
    ensures 0.0 <= Part(x, f) <= x
  {
    assert x * f <= x * 1.0;
  }

  /** Successive waits never decrease and never exceed the cap. */
  predicate Climbs(waits: seq<int>, from: int, cap: int) {
    waits == [] || (from <= waits[0] <= cap && Climbs(waits[1..], waits[0], cap))
  }

  lemma {:induction false} ClimbsFromLower(waits: seq<int>, from: int, lower: int, cap: int)
    requires Climbs(waits, from, cap) && lower <= from
    ensures Climbs(waits, lower, cap)
  {
  }

  lemma {:induction false} WaitsClimb(c: Config, script: Script, i: nat, delay: int)
    requires delay >= 0 && c.jitterFactor <= 1.0 && RandomInRange(script)
    ensures Climbs(Attempts(c, script, i, delay).waits, if delay > c.maxDelay then c.maxDelay else delay, c.maxDelay)
    decreases c.maxRetries + 1 - i
  {
    var r := Attempts(c, script, i, delay);
    if |r.waits| > 0 {
      var a := script(i);
      var rest := Attempts(c, script, i + 1, delay * 2);
      WaitBounds(c, delay, a.random);
      WaitsClimb(c, script, i + 1, delay * 2);
      assert r.waits[1..] == rest.waits;
      ClimbsFromLower(rest.waits, if delay * 2 > c.maxDelay then c.maxDelay else delay * 2, r.waits[0], c.maxDelay);
    }
  }

  /** The waits never decrease and never exceed the cap. */
  predicate Climbing(waits: seq<int>, cap: int) {
    waits == [] || Climbs(waits, waits[0], cap)
  }

  /** Every attempt fails with a retryable error, and no jitter is drawn. */
  function AlwaysFailing(): Script {
    (_: nat) => Attempt(Some(Error(true, false, None, "")), 0.0, None)
  }

  /** With a negative delay doubling makes the second wait shorter than the first. */
  lemma NegativeDelayFalls(c: Config)
    requires c.initialDelay < 0 <= c.maxDelay && c.maxRetries >= 2
    ensures RandomInRange(AlwaysFailing())
    ensures !Climbing(Attempts(c, AlwaysFailing(), 0, c.initialDelay).waits, c.maxDelay)
  {
    var d, script := c.initialDelay, AlwaysFailing();
    var first, second := WaitFor(c, d, 0.0), WaitFor(c, d * 2, 0.0);
    NoJitter(c, d);
    NoJitter(c, d * 2);
    var rest := Attempts(c, script, 1, d * 2);
    assert rest.waits == [second] + Attempts(c, script, 2, d * 2 * 2).waits;
    var waits := Attempts(c, script, 0, d).waits;
    assert waits == [first] + rest.waits;
    assert waits[1..][0] == second < first;
    assert !Climbs(waits[1..], waits[0], c.maxDelay);
  }

  lemma NoJitter(c: Config, delay: int)
    ensures WaitFor(c, delay, 0.0) == if delay > c.maxDelay then c.maxDelay else delay
  {
  }

  /**
   * With a jitter factor of at most 1 and a cap that is not negative, the waits climb to the cap in every run
   * exactly when the initial delay is not negative or there are not two waits.
   */
  lemma WaitsClimbIff(c: Config)
    requires c.jitterFactor <= 1.0 && c.maxDelay >= 0
    ensures (forall script :: RandomInRange(script) ==>
      Climbing(Attempts(c, script, 0, c.initialDelay).waits, c.maxDelay))
       <==> c.initialDelay >= 0 || c.maxRetries <= 1
  {
    if c.initialDelay >= 0 || c.maxRetries <= 1 {
      forall script | RandomInRange(script) ensures Climbing(Attempts(c, script, 0, c.initialDelay).waits, c.maxDelay) {
        if c.initialDelay >= 0 {
          WaitsClimb(c, script, 0, c.initialDelay);
        } else if c.maxRetries >= 0 {
          RunsBounded(c, script, 0, c.initialDelay);
          OneWait(c, script);
        }
      }
    } else {
      NegativeDelayFalls(c);
    }
  }

  /** A single wait is at most the cap. */
  lemma OneWait(c: Config, script: Script)
    requires |Attempts(c, script, 0, c.initialDelay).waits| <= 1
    ensures Climbing(Attempts(c, script, 0, c.initialDelay).waits, c.maxDelay)
  {
    var waits := Attempts(c, script, 0, c.initialDelay).waits;
    if waits != [] {
      assert waits[0] == WaitFor(c, c.initialDelay, script(0).random);
      assert waits[1..] == [];
    }
  }

  // ----- the loop as written -----

  method NextDelay(c: Config, delay: int, random: real) returns (nextDelay: int)
    ensures nextDelay == WaitFor(c, delay, random)
  {
    nextDelay := delay;
    if c.jitterFactor > 0.0 {
      var jitterRange := Part(nextDelay as real, c.jitterFactor);
      nextDelay := nextDelay + Truncated(Part(jitterRange, random));
    }
    if nextDelay > c.maxDelay {
      nextDelay := c.maxDelay;
    }
  }

  method Run(c: Config, script: Script) returns (answer: Answer, runs: nat, waits: seq<int>)
    ensures Outcome(answer, runs, waits) == Attempts(c, script, 0, c.initialDelay)
  {
    var delay := c.initialDelay;
    var attempt := 0;
    runs, waits := 0, [];
    ghost var whole := Attempts(c, script, 0, c.initialDelay);
    while attempt <= c.maxRetries
      invariant 0 <= attempt && runs == attempt
      invariant var rest := Attempts(c, script, attempt, delay);
        whole == Outcome(rest.answer, runs + rest.runs, waits + rest.waits)
      decreases c.maxRetries + 1 - attempt
    {
      var a := script(attempt);
      runs := runs + 1;
      if a.err.None? {
        return Value, runs, waits;
      }
      if !ShouldRetry(a.err.value) || attempt >= c.maxRetries {
        return Failed(a.err.value), runs, waits;
      }
      var nextDelay := NextDelay(c, delay, a.random);
      if a.cancelled.Some? {
        return Failed(a.cancelled.value), runs, waits;
      }
      ghost var rest := Attempts(c, script, attempt + 1, delay * 2);
      assert waits + ([nextDelay] + rest.waits) == (waits + [nextDelay]) + rest.waits;
      waits := waits + [nextDelay];
      delay := delay * 2;
      attempt := attempt + 1;
    }
    return NothingRan, runs, waits;
  }
}
