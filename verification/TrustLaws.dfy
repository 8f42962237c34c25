/**
 * What a cycle of Act, Observe and Reflect comes to, read off the tools' answers and the record alone
 * (internal/decision/engine.go and internal/decision/reflector.go).
 */
module TrustLaws {
  import opened Plan
  import opened Std
  import opened Text
  import opened TrustLoop

  // ----- the record -----

  predicate IsOf(r: Run, tool: string) {
    r.tool == tool
  }

  /** The recorded runs of a tool, and those of them that succeeded. */
  function RunsOf(runs: seq<Run>, tool: string): set<int> {
    Marked(|runs|, i => 0 <= i < |runs| && IsOf(runs[i], tool))
  }

  function GoodRunsOf(runs: seq<Run>, tool: string): set<int> {
    Marked(|runs|, i => 0 <= i < |runs| && IsOf(runs[i], tool) && runs[i].ok)
  }

  lemma {:induction false} CountsUpTo(runs: seq<Run>, tool: string, n: nat, of: int -> bool, good: int -> bool)
    requires n <= |runs|
    requires forall i :: 0 <= i < |runs| ==> of(i) == IsOf(runs[i], tool) && good(i) == (of(i) && runs[i].ok)
    ensures Total(runs[..n], tool) == |Marked(n, of)| && Successes(runs[..n], tool) == |Marked(n, good)|
  {
    if n == 0 {
      assert Marked(0, of) == {} && Marked(0, good) == {};
    } else {
      CountsUpTo(runs, tool, n - 1, of, good);
      MarkedNext(n - 1, of);
      MarkedNext(n - 1, good);
      assert runs[..n] == runs[..n - 1] + [runs[n - 1]];
      CountsAfter(runs[..n - 1], runs[n - 1], tool);
    }
  }

  lemma CountsAreCardinal(runs: seq<Run>, tool: string)
    ensures Total(runs, tool) == |RunsOf(runs, tool)| && Successes(runs, tool) == |GoodRunsOf(runs, tool)|
  {
    CountsUpTo(runs, tool, |runs|, i => 0 <= i < |runs| && IsOf(runs[i], tool),
               i => 0 <= i < |runs| && IsOf(runs[i], tool) && runs[i].ok);
    assert runs[..|runs|] == runs;
  }

  /** `delta` is the rate of `good` among `total`, minus one half. */
  predicate IsRate(delta: real, good: nat, total: nat) {
    delta * total as real == good as real - 0.5 * total as real && -0.5 <= delta <= 0.5
  }

  lemma Products(q: real, t: real)
    requires t > 0.0
    ensures q < 0.0 ==> q * t < 0.0
    ensures q > 1.0 ==> q * t > t
    ensures (q - 0.5) * t == q * t - 0.5 * t
  {
  }

  lemma RateIsRate(good: nat, total: nat)
    requires good <= total && total > 0
    ensures IsRate(good as real / total as real - 0.5, good, total)
  {
    Products(good as real / total as real, total as real);
  }

  /**
   * The trust delta of a tool that has run is its success rate minus one half, so it lies within one half of
   * zero; without a recorded run it is a twentieth for a success and minus a tenth for a failure.
   */
  lemma TrustDeltaExact(runs: seq<Run>, step: PlannedStep, result: ActResult)
    ensures var total, good := |RunsOf(runs, step.toolName)|, |GoodRunsOf(runs, step.toolName)|;
      var delta := TrustDelta(runs, step, result);
      if total > 0 then IsRate(delta, good, total) else delta == if result.error == "" then 0.05 else -0.1
  {
    CountsAreCardinal(runs, step.toolName);
    SuccessesWithinTotal(runs, step.toolName);
    if Total(runs, step.toolName) > 0 {
      RateIsRate(Successes(runs, step.toolName), Total(runs, step.toolName));
    }
  }

  // ----- classification -----

  const WORDS: set<string> :=
    {"not found", "unauthorized", "permission denied", "forbidden", "invalid", "does not exist"}

  lemma WordsAreBlocking(word: string)
    ensures word in WORDS <==> word in BLOCKING
  {
  }

  ghost predicate HasWord(s: string) {
    exists word, i :: word in WORDS && OccursAt(s, word, i)
  }

  /** A text is blocking exactly when one of the six words stands in it, in whatever case. */
  lemma BlockingIff(text: string, lower: char -> char)
    ensures Blocking(text, lower) <==> HasWord(Lowered(text, lower))
  {
    var s := Lowered(text, lower);
    if Blocking(text, lower) {
      var k :| 0 <= k < |BLOCKING| && Contains(s, BLOCKING[k]);
      WordsAreBlocking(BLOCKING[k]);
      ContainsIff(s, BLOCKING[k]);
      var i :| OccursAt(s, BLOCKING[k], i);
    }
    if word, i :| word in WORDS && OccursAt(s, word, i) {
      WordsAreBlocking(word);
      ContainsIff(s, word);
    }
  }

  // ----- a whole cycle -----

  /** The tool answered without an error, with some output, and not with too much of it. */
  predicate Good(turn: Turn, threshold: int) {
    && turn.outcome.err.None?
    && 1 <= |turn.outcome.output| <= (if threshold <= 0 then 1900 else threshold)
  }

  lemma TurnExpectedIff(runs: seq<Run>, turns: seq<Turn>, k: nat, threshold: int, lower: char -> char)
    requires k < |turns|
    ensures Classify(Observed(runs, turns, threshold)[k], lower) == Expected <==> Good(turns[k], threshold)
  {
    var result := ResultOf(turns[k].step, turns[k].outcome);
    assert result.output == "" <==> |result.output| == 0;
    if turns[k].outcome.err.None? {
      assert IssuesOf(result, threshold) == [] <==> Good(turns[k], threshold);
    }
  }

  /** A turn has at most one issue: its error, or that its output is missing or too long. */
  lemma TurnIssues(runs: seq<Run>, turns: seq<Turn>, k: nat, threshold: int)
    requires k < |turns|
    ensures var o, issues := turns[k].outcome, Observed(runs, turns, threshold)[k].issues;
      issues ==
        if FailsAloud(turns[k]) then [o.err.value]
        else if o.err.Some? || o.output == "" then ["tool returned empty output"]
        else if Good(turns[k], threshold) then []
        else ["output was truncated due to context limits"]
  {
  }

  /** A cycle from any record needs no replan exactly when every tool answered well. */
  lemma NoReplanIff(runs: seq<Run>, turns: seq<Turn>, threshold: int, lower: char -> char)
    ensures (forall k :: 0 <= k < |turns| ==> Classify(Observed(runs, turns, threshold)[k], lower) == Expected)
      <==> forall k :: 0 <= k < |turns| ==> Good(turns[k], threshold)
  {
    forall k | 0 <= k < |turns|
      ensures Classify(Observed(runs, turns, threshold)[k], lower) == Expected <==> Good(turns[k], threshold)
    {
      TurnExpectedIff(runs, turns, k, threshold, lower);
    }
  }

  /** What replaces a step that failed with `text`. */
  predicate Corrects(c: PlannedStep, step: PlannedStep, text: string) {
    && (if step.fallback != "" then
          && c.toolName == step.fallback
          && c.arguments == map["original_tool" := step.toolName, "error" := text]
        else
          && c.toolName == "query_dispatch"
          && c.arguments == map["query" := "diagnose failure of " + step.toolName + ": " + text])
    && c.depends == [] && c.fallback == "" && !c.requiresConfirmation
  }

  predicate FailsAloud(turn: Turn) {
    turn.outcome.err.Some? && turn.outcome.err.value != ""
  }

  /** The turns before turn `k` that failed with a message. */
  function AloudBefore(turns: seq<Turn>, k: nat): set<int> {
    Marked(k, j => 0 <= j < |turns| && FailsAloud(turns[j]))
  }

  lemma {:induction false} RankCounts(observations: seq<Observation>, k: nat, failed: int -> bool)
    requires k <= |observations|
    requires forall j :: 0 <= j < |observations| ==> failed(j) == !observations[j].success
    ensures Rank(observations, k) == |Marked(k, failed)|
  {
    if k == 0 {
      assert Marked(0, failed) == {};
    } else {
      RankCounts(observations, k - 1, failed);
      MarkedNext(k - 1, failed);
    }
  }

  lemma SuccessIsQuiet(runs: seq<Run>, turns: seq<Turn>, k: nat, threshold: int)
    requires k < |turns|
    ensures Observed(runs, turns, threshold)[k].success <==> !FailsAloud(turns[k])
  {
  }

  lemma RankCountsAloud(runs: seq<Run>, turns: seq<Turn>, k: nat, threshold: int)
    requires k <= |turns|
    ensures Rank(Observed(runs, turns, threshold), k) == |AloudBefore(turns, k)|
  {
    forall j | 0 <= j < |turns|
      ensures FailsAloud(turns[j]) == !Observed(runs, turns, threshold)[j].success
    {
      SuccessIsQuiet(runs, turns, j, threshold);
    }
    RankCounts(Observed(runs, turns, threshold), k, j => 0 <= j < |turns| && FailsAloud(turns[j]));
  }

  lemma CorrectionText(runs: seq<Run>, turns: seq<Turn>, k: nat, threshold: int)
    requires k < |turns| && FailsAloud(turns[k])
    ensures var o := Observed(runs, turns, threshold)[k];
      !o.success && Corrects(CorrectionFor(o), turns[k].step, turns[k].outcome.err.value)
  {
    var o := Observed(runs, turns, threshold)[k];
    assert o.issues == [turns[k].outcome.err.value];
  }

  /**
   * A cycle earns one correction for each turn that failed with a message, in the order of the turns: the
   * fallback of the step, or else a query about the failure.
   */
  lemma CorrectionsOfCycle(runs: seq<Run>, turns: seq<Turn>, k: nat, threshold: int)
    requires k < |turns|
    ensures var corrections := Corrections(Observed(runs, turns, threshold));
      && |corrections| == |AloudBefore(turns, |turns|)|
      && (FailsAloud(turns[k]) ==>
            && |AloudBefore(turns, k)| < |corrections|
            && Corrects(corrections[|AloudBefore(turns, k)|], turns[k].step, turns[k].outcome.err.value))
  {
    var obs := Observed(runs, turns, threshold);
    FailedInOrder(obs, k);
    RankCountsAloud(runs, turns, |turns|, threshold);
    RankCountsAloud(runs, turns, k, threshold);
    if FailsAloud(turns[k]) { CorrectionText(runs, turns, k, threshold); }
  }

  /** A failed observation is critical for a blocking text, for three issues or for a very low trust. */
  lemma FailedObservationCriticalIff(o: Observation, lower: char -> char)
    requires !o.success
    ensures Classify(o, lower) == Critical <==>
      || HasWord(Lowered(Join(o.issues, "; "), lower))
      || |o.issues| >= 3
      || o.trustDelta < -0.3
  {
    BlockingIff(Join(o.issues, "; "), lower);
  }
}
