/**
 * The Act, Observe and Reflect phases of the decision engine (internal/decision/engine.go and
 * internal/decision/reflector.go).
 *
 * Act records every execution in a per-tool history, Observe turns that history into a trust delta, and
 * Reflect classifies the observations and decides how to replan.  What a tool answers is given as an
 * outcome; the human-readable reasons and summaries are not modelled.
 */
module TrustLoop {
  import opened Std
  import opened Plan
  import opened Text

  /** What ExecuteTool returned. */
  datatype Outcome = Outcome(output: string, requiresConfirmation: bool, err: Option<string>)

  datatype ActResult = ActResult(step: PlannedStep, output: string, error: string)

  datatype Observation = Observation(
    step: PlannedStep, result: ActResult, success: bool, trustDelta: real, issues: seq<string>)

  datatype Gap = Expected | Unexpected | Critical

  datatype Replan = ReplanNone | ReplanPartial | ReplanFull

  datatype PlanResult = PlanResult(
    intent: string, steps: seq<PlannedStep>, canProceed: bool, corrections: seq<PlannedStep>, replan: Replan)

  const DEFAULT_TRUNCATION := 1900
  const EMPTY_OUTPUT := "tool returned empty output"
  const TRUNCATED := "output was truncated due to context limits"

  // ----- recorded runs -----

  /** One execution recorded by Act. */
  datatype Run = Run(tool: string, ok: bool)

  function Successes(runs: seq<Run>, tool: string): nat {
    if runs == [] then 0
    else
      var last := runs[|runs| - 1];
      Successes(runs[..|runs| - 1], tool) + if last.tool == tool && last.ok then 1 else 0
  }

  function Total(runs: seq<Run>, tool: string): nat {
    if runs == [] then 0
    else Total(runs[..|runs| - 1], tool) + if runs[|runs| - 1].tool == tool then 1 else 0
  }

  lemma CountsAfter(runs: seq<Run>, r: Run, tool: string)
    ensures Successes(runs + [r], tool) == Successes(runs, tool) + if r.tool == tool && r.ok then 1 else 0
    ensures Total(runs + [r], tool) == Total(runs, tool) + if r.tool == tool then 1 else 0
  {
    assert (runs + [r])[..|runs|] == runs;
  }

  lemma {:induction false} SuccessesWithinTotal(runs: seq<Run>, tool: string)
    ensures Successes(runs, tool) <= Total(runs, tool)
  {
    if runs != [] { SuccessesWithinTotal(runs[..|runs| - 1], tool); }
  }

  /** A tool that has run stays recorded whatever runs later. */
  lemma {:induction false} StaysRecorded(before: seq<Run>, r: Run, after: seq<Run>)
    ensures Total(before + [r] + after, r.tool) > 0
  {
    if after == [] {
      assert before + [r] + after == before + [r];
      CountsAfter(before, r, r.tool);
    } else {
      var init := after[..|after| - 1];
      StaysRecorded(before, r, init);
      assert before + [r] + after == (before + [r] + init) + [after[|after| - 1]];
      CountsAfter(before + [r] + init, after[|after| - 1], r.tool);
    }
  }

  // ----- Act and Observe as functions of the recorded runs -----

  function ResultOf(step: PlannedStep, o: Outcome): ActResult {
    var confirmed := if o.requiresConfirmation then step.(requiresConfirmation := true) else step;
    if o.err.Some? then ActResult(confirmed, "", o.err.value) else ActResult(confirmed, o.output, "")
  }

  function TrustDelta(runs: seq<Run>, step: PlannedStep, result: ActResult): real {
    var total := Total(runs, step.toolName);
    if total > 0 then Successes(runs, step.toolName) as real / total as real - 0.5
    else if result.error == "" then 0.05
    else -0.1
  }

  function IssuesOf(result: ActResult, threshold: int): seq<string> {
    (if result.error != "" then [result.error] else [])
    + (if result.output == "" && result.error == "" then [EMPTY_OUTPUT] else [])
    + (if |result.output| > (if threshold <= 0 then DEFAULT_TRUNCATION else threshold) then [TRUNCATED] else [])
  }

  function ObservationOf(runs: seq<Run>, step: PlannedStep, result: ActResult, threshold: int): Observation {
    Observation(step, result, result.error == "", TrustDelta(runs, step, result), IssuesOf(result, threshold))
  }

  // ----- classification -----

  const BLOCKING: seq<string> :=
    ["not found", "unauthorized", "permission denied", "forbidden", "invalid", "does not exist"]

  predicate Blocking(text: string, lower: char -> char) {
    ContainsAny(Lowered(text, lower), BLOCKING)
  }

  function Classify(o: Observation, lower: char -> char): Gap {
    if o.success then (if |o.issues| > 0 then Unexpected else Expected)
    else if Blocking(Join(o.issues, "; "), lower) || |o.issues| > 2 || o.trustDelta < -0.3 then Critical
    else Unexpected
  }

  lemma FewerThanOneInFive(successes: nat, total: nat)
    requires total > 0
    ensures successes as real / total as real - 0.5 < -0.3 <==> 5 * successes < total
  {
    var s, t := successes as real, total as real;
    QuotientBelow(s, t, s / t);
  }

  lemma QuotientBelow(s: real, t: real, q: real)
    requires t > 0.0 && q * t == s
    ensures q < 0.2 <==> 5.0 * s < t
  {
    if q < 0.2 { assert q * t < 0.2 * t; } else { assert q * t >= 0.2 * t; }
  }

  /**
   * A step that failed with a message, observed at any time after its run was recorded, is critical exactly
   * when its message is blocking or fewer than one in five recorded runs of its tool succeeded.
   */
  lemma FailedStepCriticalIff(
      before: seq<Run>, step: PlannedStep, o: Outcome, after: seq<Run>, threshold: int, lower: char -> char)
    requires o.err.Some? && o.err.value != ""
    ensures var runs := before + [Run(step.toolName, false)] + after;
      Classify(ObservationOf(runs, step, ResultOf(step, o), threshold), lower) == Critical
      <==> Blocking(o.err.value, lower) || 5 * Successes(runs, step.toolName) < Total(runs, step.toolName)
  {
    var runs := before + [Run(step.toolName, false)] + after;
    StaysRecorded(before, Run(step.toolName, false), after);
    FewerThanOneInFive(Successes(runs, step.toolName), Total(runs, step.toolName));
    assert IssuesOf(ResultOf(step, o), threshold) == [o.err.value];
  }

  // ----- a whole cycle -----

  /** One step of a cycle: Act, then Observe. */
  datatype Turn = Turn(step: PlannedStep, outcome: Outcome)

  function Recorded(turns: seq<Turn>): seq<Run> {
    seq(|turns|, k requires 0 <= k < |turns| => Run(turns[k].step.toolName, turns[k].outcome.err.None?))
  }

  /** The recorded runs when turn `k` is observed. */
  function RunsAt(runs: seq<Run>, turns: seq<Turn>, k: nat): seq<Run>
    requires k < |turns|
  {
    runs + Recorded(turns[..k + 1])
  }

  function Observed(runs: seq<Run>, turns: seq<Turn>, threshold: int): seq<Observation> {
    seq(|turns|, k requires 0 <= k < |turns| =>
      ObservationOf(RunsAt(runs, turns, k), turns[k].step, ResultOf(turns[k].step, turns[k].outcome), threshold))
  }

  /** What makes a turn critical, read off its message and the record alone. */
  predicate Fatal(runs: seq<Run>, turns: seq<Turn>, k: nat, lower: char -> char)
    requires k < |turns|
  {
    var tool, err := turns[k].step.toolName, turns[k].outcome.err;
    && err.Some? && err.value != ""
    && (Blocking(err.value, lower)
        || 5 * Successes(RunsAt(runs, turns, k), tool) < Total(RunsAt(runs, turns, k), tool))
  }

  lemma TurnCriticalIff(runs: seq<Run>, turns: seq<Turn>, k: nat, threshold: int, lower: char -> char)
    requires k < |turns|
    ensures Classify(Observed(runs, turns, threshold)[k], lower) == Critical <==> Fatal(runs, turns, k, lower)
  {
    var t := turns[k];
    var now := RunsAt(runs, turns, k);
    ObservedSuccessIff(now, t.step, t.outcome, threshold, lower);
    if t.outcome.err.Some? && t.outcome.err.value != "" {
      var before := runs + Recorded(turns[..k]);
      assert now == before + [Run(t.step.toolName, false)] + [];
      FailedStepCriticalIff(before, t.step, t.outcome, [], threshold, lower);
    }
  }

  /** Over a whole cycle from any record: some observation is critical iff some turn is fatal. */
  lemma CycleCriticalIff(runs: seq<Run>, turns: seq<Turn>, threshold: int, lower: char -> char)
    ensures AnyIs(Observed(runs, turns, threshold), Critical, lower)
      <==> exists k: nat :: k < |turns| && Fatal(runs, turns, k, lower)
  {
    forall k: nat | k < |turns|
      ensures Classify(Observed(runs, turns, threshold)[k], lower) == Critical <==> Fatal(runs, turns, k, lower)
    {
      TurnCriticalIff(runs, turns, k, threshold, lower);
    }
  }

  /** A failure without a message is recorded as a failure but observed as a success. */
  lemma ObservedSuccessIff(runs: seq<Run>, step: PlannedStep, o: Outcome, threshold: int, lower: char -> char)
    ensures var obs := ObservationOf(runs, step, ResultOf(step, o), threshold);
      && (obs.success <==> o.err.None? || o.err.value == "")
      && (obs.success ==> Classify(obs, lower) != Critical)
      && (!obs.success ==> Classify(obs, lower) != Expected)
  {
  }

  // ----- corrections -----

  function Failed(observations: seq<Observation>): seq<Observation> {
    if observations == [] then []
    else
      var last := observations[|observations| - 1];
      Failed(observations[..|observations| - 1]) + if last.success then [] else [last]
  }

  /** How many of the first `i` observations failed. */
  function Rank(observations: seq<Observation>, i: nat): nat
    requires i <= |observations|
  {
    if i == 0 then 0 else Rank(observations, i - 1) + if observations[i - 1].success then 0 else 1
  }

  lemma {:induction false} RankOfPrefix(observations: seq<Observation>, n: nat, i: nat)
    requires i <= n <= |observations|
    ensures Rank(observations[..n], i) == Rank(observations, i)
  {
    if i > 0 { RankOfPrefix(observations, n, i - 1); }
  }

  /** Each failed observation is listed once, at its place among the failed ones. */
  lemma {:induction false} FailedInOrder(observations: seq<Observation>, i: nat)
    requires i < |observations|
    ensures |Failed(observations)| == Rank(observations, |observations|)
    ensures !observations[i].success ==>
      Rank(observations, i) < |Failed(observations)| && Failed(observations)[Rank(observations, i)] == observations[i]
  {
    var n := |observations| - 1;
    var init := observations[..n];
    RankOfPrefix(observations, n, n);
    if n == 0 {
      assert init == [];
    } else if i < n {
      FailedInOrder(init, i);
      RankOfPrefix(observations, n, i);
    } else {
      FailedInOrder(init, 0);
    }
  }

  /** The correction for a failed step: its own fallback, or a diagnostic query. */
  function CorrectionFor(o: Observation): PlannedStep {
    var text := Join(o.issues, "; ");
    var tool := o.step.toolName;
    if o.step.fallback != "" then
      PlannedStep(o.step.fallback, map["original_tool" := tool, "error" := text], "", false, [],
                  "fallback for " + tool + " after failure: " + text, "")
    else
      PlannedStep("query_dispatch", map["query" := "diagnose failure of " + tool + ": " + text], "", false, [],
                  "diagnostic fallback for failed tool " + tool, "")
  }

  function Corrections(observations: seq<Observation>): seq<PlannedStep> {
    var failed := Failed(observations);
    seq(|failed|, k requires 0 <= k < |failed| => CorrectionFor(failed[k]))
  }

  method BuildCorrectionSteps(observations: seq<Observation>) returns (corrections: seq<PlannedStep>)
    ensures corrections == Corrections(observations)
  {
    corrections := [];
    for i := 0 to |observations|
      invariant corrections == Corrections(observations[..i])
    {
      var o := observations[i];
      assert observations[..i + 1][..i] == observations[..i];
      if !o.success {
        corrections := corrections + [CorrectionFor(o)];
      }
    }
    assert observations[..|observations|] == observations;
  }

  /** Nothing fails, nothing to correct. */
  lemma {:induction false} AllSucceeded(observations: seq<Observation>)
    requires forall i :: 0 <= i < |observations| ==> observations[i].success
    ensures Failed(observations) == [] && Corrections(observations) == []
  {
    if observations != [] { AllSucceeded(observations[..|observations| - 1]); }
  }

  /** A turn that failed without a message counts against its tool, but earns no correction and is never critical. */
  lemma MuteFailureUnseen(runs: seq<Run>, turns: seq<Turn>, k: nat, threshold: int, lower: char -> char)
    requires k < |turns| && turns[k].outcome.err == Some("")
    ensures Recorded(turns)[k] == Run(turns[k].step.toolName, false)
    ensures var obs := Observed(runs, turns, threshold);
      Rank(obs, k + 1) == Rank(obs, k) && Classify(obs[k], lower) != Critical
  {
    ObservedSuccessIff(RunsAt(runs, turns, k), turns[k].step, turns[k].outcome, threshold, lower);
  }

  /** A cycle in which every failure is mute has no correction and no critical observation, so no full replan. */
  lemma MuteCycleUnseen(runs: seq<Run>, turns: seq<Turn>, threshold: int, lower: char -> char)
    requires forall k :: 0 <= k < |turns| && turns[k].outcome.err.Some? ==> turns[k].outcome.err == Some("")
    ensures Corrections(Observed(runs, turns, threshold)) == []
    ensures !AnyIs(Observed(runs, turns, threshold), Critical, lower)
  {
    var obs := Observed(runs, turns, threshold);
    forall k | 0 <= k < |turns| ensures obs[k].success && Classify(obs[k], lower) != Critical {
      ObservedSuccessIff(RunsAt(runs, turns, k), turns[k].step, turns[k].outcome, threshold, lower);
    }
    AllSucceeded(obs);
  }

  // ----- Reflect -----

  ghost predicate AnyIs(observations: seq<Observation>, gap: Gap, lower: char -> char) {
    exists i :: 0 <= i < |observations| && Classify(observations[i], lower) == gap
  }

  method Reflect(plan: Option<PlanResult>, observations: seq<Observation>, lower: char -> char)
    returns (r: Result<PlanResult, string>)
    ensures plan.None? <==> r.Err?
    ensures plan.Some? && (!plan.value.canProceed || observations == []) ==> r == Ok(plan.value)
    ensures plan.Some? && plan.value.canProceed && observations != [] ==>
      && r.value.intent == plan.value.intent && r.value.steps == plan.value.steps
      && (r.value.replan == ReplanFull <==> AnyIs(observations, Critical, lower))
      && (r.value.replan == ReplanNone <==>
            forall i :: 0 <= i < |observations| ==> Classify(observations[i], lower) == Expected)
      && r.value.canProceed == (r.value.replan != ReplanFull)
      && r.value.corrections == Corrections(observations)
  {
    if plan.None? {
      return Err("plan is nil");
    }
    if !plan.value.canProceed || |observations| == 0 {
      return Ok(plan.value);
    }
    var critical, unexpected := 0, 0;
    for i := 0 to |observations|
      invariant 0 <= critical && 0 <= unexpected
      invariant critical > 0 <==> AnyIs(observations[..i], Critical, lower)
      invariant unexpected > 0 <==> AnyIs(observations[..i], Unexpected, lower)
    {
      assert forall j :: 0 <= j < i ==> observations[..i + 1][j] == observations[..i][j];
      assert observations[..i + 1][i] == observations[i];
      match Classify(observations[i], lower) {
        case Critical => critical := critical + 1;
        case Unexpected => unexpected := unexpected + 1;
        case Expected =>
      }
    }
    assert observations[..|observations|] == observations;
    var corrections := BuildCorrectionSteps(observations);
    if critical > 0 {
      return Ok(PlanResult(plan.value.intent, plan.value.steps, false, corrections, ReplanFull));
    }
    if unexpected > 0 {
      return Ok(PlanResult(plan.value.intent, plan.value.steps, true, corrections, ReplanPartial));
    }
    NothingFailed(observations, lower);
    return Ok(PlanResult(plan.value.intent, plan.value.steps, true, [], ReplanNone));
  }

  lemma {:induction false} NothingFailed(observations: seq<Observation>, lower: char -> char)
    requires forall i :: 0 <= i < |observations| ==> Classify(observations[i], lower) == Expected
    ensures Failed(observations) == []
  {
    if observations != [] {
      assert Classify(observations[|observations| - 1], lower) == Expected;
      NothingFailed(observations[..|observations| - 1], lower);
    }
  }

  // ----- the engine -----

  datatype History = History(successes: nat, failures: nat)

  class Engine {
    var toolHistory: map<string, History>
    const truncationThreshold: int
    ghost var runs: seq<Run>

    ghost predicate Valid()
      reads this
    {
      Agrees(toolHistory, runs)
    }

    constructor (truncationThreshold: int)
      ensures Valid() && runs == [] && this.truncationThreshold == truncationThreshold
    {
      this.truncationThreshold := truncationThreshold;
      toolHistory, runs := map[], [];
    }

    method Act(step: PlannedStep, o: Outcome) returns (result: ActResult)
      requires Valid()
      modifies this
      ensures Valid()
      ensures runs == old(runs) + [Run(step.toolName, o.err.None?)]
      ensures o.err.None? ==> result.output == o.output && result.error == ""
      ensures o.err.Some? ==> result.output == "" && result.error == o.err.value
      ensures result.step == step.(requiresConfirmation := step.requiresConfirmation || o.requiresConfirmation)
      ensures result == ResultOf(step, o)
    {
      result := ActResult(step, "", "");
      if o.err.Some? {
        result := result.(error := o.err.value);
      } else {
        result := result.(output := o.output);
      }
      var hist := if step.toolName in toolHistory then toolHistory[step.toolName] else History(0, 0);
      if o.err.Some? {
        hist := hist.(failures := hist.failures + 1);
      } else {
        hist := hist.(successes := hist.successes + 1);
      }
      RecordAgrees(toolHistory, runs, Run(step.toolName, o.err.None?));
      toolHistory := toolHistory[step.toolName := hist];
      runs := runs + [Run(step.toolName, o.err.None?)];
      if o.requiresConfirmation {
        result := result.(step := step.(requiresConfirmation := true));
      }
    }

    method Observe(step: PlannedStep, result: ActResult) returns (o: Observation)
      requires Valid()
      ensures o == ObservationOf(runs, step, result, truncationThreshold)
    {
      var trustDelta: real;
      assert AgreesOn(toolHistory, runs, step.toolName);
      if step.toolName in toolHistory &&
        toolHistory[step.toolName].successes + toolHistory[step.toolName].failures > 0 {
        var hist := toolHistory[step.toolName];
        var rate := hist.successes as real / (hist.successes + hist.failures) as real;
        trustDelta := rate - 0.5;
      } else if result.error == "" {
        trustDelta := 0.05;
      } else {
        trustDelta := -0.1;
      }
      var issues: seq<string> := [];
      if result.error != "" {
        issues := issues + [result.error];
      }
      if result.output == "" && result.error == "" {
        issues := issues + [EMPTY_OUTPUT];
      }
      var threshold := truncationThreshold;
      if threshold <= 0 {
        threshold := DEFAULT_TRUNCATION;
      }
      if |result.output| > threshold {
        issues := issues + [TRUNCATED];
      }
      o := Observation(step, result, result.error == "", trustDelta, issues);
    }
  }

  ghost predicate AgreesOn(history: map<string, History>, runs: seq<Run>, tool: string) {
    && (tool in history <==> Total(runs, tool) > 0)
    && (tool in history ==>
          && history[tool].successes == Successes(runs, tool)
          && history[tool].successes + history[tool].failures == Total(runs, tool))
  }

  ghost predicate Agrees(history: map<string, History>, runs: seq<Run>) {
    forall tool: string :: AgreesOn(history, runs, tool)
  }

  lemma RecordAgrees(history: map<string, History>, runs: seq<Run>, r: Run)
    requires Agrees(history, runs)
    ensures
      var h := if r.tool in history then history[r.tool] else History(0, 0);
      var h' := if r.ok then h.(successes := h.successes + 1) else h.(failures := h.failures + 1);
      Agrees(history[r.tool := h'], runs + [r])
  {
    var h := if r.tool in history then history[r.tool] else History(0, 0);
    var h' := if r.ok then h.(successes := h.successes + 1) else h.(failures := h.failures + 1);
    var history', runs' := history[r.tool := h'], runs + [r];
    forall tool: string ensures AgreesOn(history', runs', tool) {
      assert AgreesOn(history, runs, tool);
      CountsAfter(runs, r, tool);
      SuccessesWithinTotal(runs, tool);
    }
  }
}
