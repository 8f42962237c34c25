/**
 * Ranking tools by semantic similarity and usage (internal/suggestion/ranker.go).
 *
 * Floats are reals and math.Sqrt is any function that returns the non-negative root.
 */
module Ranking {
  type Vector = seq<real>

  ghost predicate IsSqrt(sqrt: real -> real) {
    forall x: real :: x >= 0.0 ==> sqrt(x) >= 0.0 && sqrt(x) * sqrt(x) == x
  }

  // ----- cosine similarity -----

  /** The inner product of the first `n` components. */
  function Dot(a: Vector, b: Vector, n: nat): real
    requires n <= |a| && n <= |b|
  {
    if n == 0 then 0.0 else Dot(a, b, n - 1) + a[n - 1] * b[n - 1]
  }

  lemma {:induction false} NormNonNegative(a: Vector, n: nat)
    requires n <= |a|
    ensures Dot(a, a, n) >= 0.0
  {
    if n > 0 { NormNonNegative(a, n - 1); }
  }

  lemma SquareOrder(u: real, w: real)
    requires u >= 0.0 && w * w <= u * u
    ensures w <= u
  {
    if w > u { SquareGrows(u, w); }
  }

  lemma SquareGrows(u: real, w: real)
    requires 0.0 <= u < w
    ensures u * u < w * w
  {
    var d, s := w - u, w + u;
    PositiveProduct(d, s);
    assert d * s == w * w - u * u;
  }

  lemma PositiveProduct(x: real, y: real)
    requires x > 0.0 && y > 0.0
    ensures x * y > 0.0
  {
  }

  lemma Grows(u: real, w: real, f: real)
    requires u < w && f >= 0.0
    ensures u * f <= w * f && (f > 0.0 ==> u * f < w * f)
  {
  }

  lemma Amgm(p: real, q: real, z: real)
    requires p >= 0.0 && q >= 0.0 && z * z <= p * q
    ensures 2.0 * z <= p + q
  {
    assert (p + q) * (p + q) - 4.0 * (p * q) == (p - q) * (p - q);
    assert (2.0 * z) * (2.0 * z) == 4.0 * (z * z);
    SquareOrder(p + q, 2.0 * z);
  }

  predicate Bounded(d: real, na: real, nb: real) {
    na >= 0.0 && nb >= 0.0 && d * d <= na * nb
  }

  lemma CrossTerm(d: real, na: real, nb: real, x: real, y: real)
    requires Bounded(d, na, nb)
    ensures 2.0 * (d * (x * y)) <= na * (y * y) + nb * (x * x)
  {
    var w := x * y;
    var p, q := na * (y * y), nb * (x * x);
    assert p * q == (na * nb) * (w * w);
    assert (d * w) * (d * w) == (d * d) * (w * w);
    assert (d * d) * (w * w) <= (na * nb) * (w * w);
    Amgm(p, q, d * w);
  }

  /** One more component keeps the inequality. */
  lemma BoundedStep(d: real, na: real, nb: real, x: real, y: real)
    requires Bounded(d, na, nb)
    ensures Bounded(d + x * y, na + x * x, nb + y * y)
  {
    var w := x * y;
    CrossTerm(d, na, nb, x, y);
    assert (d + w) * (d + w) == d * d + 2.0 * (d * w) + w * w;
    assert (na + x * x) * (nb + y * y) == na * nb + (na * (y * y) + nb * (x * x)) + w * w;
  }

  /** Cauchy-Schwarz for vectors of any length. */
  lemma {:induction false} CauchySchwarz(a: Vector, b: Vector, n: nat)
    requires n <= |a| && n <= |b|
    ensures Bounded(Dot(a, b, n), Dot(a, a, n), Dot(b, b, n))
  {
    if n > 0 {
      CauchySchwarz(a, b, n - 1);
      BoundedStep(Dot(a, b, n - 1), Dot(a, a, n - 1), Dot(b, b, n - 1), a[n - 1], b[n - 1]);
    }
  }

  /** The last part of cosineSimilarity: divide and clip. */
  function Similarity(dot: real, normA: real, normB: real, sqrt: real -> real): real
    requires IsSqrt(sqrt) && normA >= 0.0 && normB >= 0.0
  {
    if normA == 0.0 || normB == 0.0 then 0.0
    else
      RootPositive(normA, normB, sqrt);
      var sim := dot / sqrt(normA * normB);
      if sim < 0.0 then 0.0 else sim
  }

  lemma RootPositive(x: real, y: real, sqrt: real -> real)
    requires IsSqrt(sqrt) && x > 0.0 && y > 0.0
    ensures sqrt(x * y) > 0.0 && sqrt(x * y) * sqrt(x * y) == x * y
  {
    PositiveProduct(x, y);
  }

  lemma QuotientAtMostOne(d: real, r: real)
    requires r > 0.0 && d * d <= r * r
    ensures d / r <= 1.0
  {
    SquareOrder(r, d);
    var q := d / r;
    assert q * r == d;
    if q > 1.0 { Grows(1.0, q, r); }
  }

  lemma SimilarityInUnit(dot: real, normA: real, normB: real, sqrt: real -> real)
    requires IsSqrt(sqrt) && Bounded(dot, normA, normB)
    ensures 0.0 <= Similarity(dot, normA, normB, sqrt) <= 1.0
  {
    if normA != 0.0 && normB != 0.0 {
      RootPositive(normA, normB, sqrt);
      QuotientAtMostOne(dot, sqrt(normA * normB));
    }
  }

  lemma SimilarityOfSelf(norm: real, sqrt: real -> real)
    requires IsSqrt(sqrt) && norm > 0.0
    ensures Similarity(norm, norm, norm, sqrt) == 1.0
  {
    RootPositive(norm, norm, sqrt);
    var r := sqrt(norm * norm);
    SquareOrder(r, norm);
    SquareOrder(norm, r);
    SelfQuotient(r);
  }

  lemma SelfQuotient(r: real)
    requires r > 0.0
    ensures r / r == 1.0
  {
  }

  function Cosine(a: Vector, b: Vector, sqrt: real -> real): real
    requires IsSqrt(sqrt)
  {
    if |a| != |b| || |a| == 0 then 0.0
    else
      NormNonNegative(a, |a|);
      NormNonNegative(b, |a|);
      Similarity(Dot(a, b, |a|), Dot(a, a, |a|), Dot(b, b, |a|), sqrt)
  }

  /** Any two vectors have a similarity between 0 and 1. */
  lemma CosineInUnit(a: Vector, b: Vector, sqrt: real -> real)
    requires IsSqrt(sqrt)
    ensures 0.0 <= Cosine(a, b, sqrt) <= 1.0
  {
    if |a| == |b| && |a| > 0 {
      CauchySchwarz(a, b, |a|);
      SimilarityInUnit(Dot(a, b, |a|), Dot(a, a, |a|), Dot(b, b, |a|), sqrt);
    }
  }

  /** A vector other than zero is as similar to itself as can be. */
  lemma CosineOfSelf(a: Vector, sqrt: real -> real)
    requires IsSqrt(sqrt) && Dot(a, a, |a|) != 0.0
    ensures Cosine(a, a, sqrt) == 1.0
  {
    NormNonNegative(a, |a|);
    SimilarityOfSelf(Dot(a, a, |a|), sqrt);
  }

  lemma QuotientSquared(dot: real, r: real, p: real)
    requires r > 0.0 && r * r == p
    ensures (dot / r) * (dot / r) * p == dot * dot
    ensures dot / r >= 0.0 <==> dot >= 0.0
  {
    var q := dot / r;
    assert q * r == dot;
    SquareOfProduct(q, r);
    if q >= 0.0 { assert q * r >= 0.0; } else { PositiveProduct(-q, r); }
  }

  lemma SquareOfProduct(q: real, r: real)
    ensures (q * r) * (q * r) == (q * q) * (r * r)
  {
  }

  lemma SimilaritySquared(dot: real, normA: real, normB: real, sqrt: real -> real)
    requires IsSqrt(sqrt) && normA > 0.0 && normB > 0.0
    ensures var c := Similarity(dot, normA, normB, sqrt);
      if dot < 0.0 then c == 0.0 else c >= 0.0 && c * c * (normA * normB) == dot * dot
  {
    RootPositive(normA, normB, sqrt);
    QuotientSquared(dot, sqrt(normA * normB), normA * normB);
  }

  /** The cosine is the inner product over the product of the lengths, and 0 for an angle above a right one. */
  lemma CosineExact(a: Vector, b: Vector, sqrt: real -> real)
    requires IsSqrt(sqrt) && |a| == |b| && Dot(a, a, |a|) != 0.0 && Dot(b, b, |a|) != 0.0
    ensures var c, dot := Cosine(a, b, sqrt), Dot(a, b, |a|);
      if dot < 0.0 then c == 0.0 else c >= 0.0 && c * c * (Dot(a, a, |a|) * Dot(b, b, |a|)) == dot * dot
  {
    NormNonNegative(a, |a|);
    NormNonNegative(b, |a|);
    SimilaritySquared(Dot(a, b, |a|), Dot(a, a, |a|), Dot(b, b, |a|), sqrt);
  }

  method InnerProducts(a: Vector, b: Vector) returns (dot: real, normA: real, normB: real)
    requires |a| == |b|
    ensures dot == Dot(a, b, |a|) && normA == Dot(a, a, |a|) && normB == Dot(b, b, |a|)
  {
    dot, normA, normB := 0.0, 0.0, 0.0;
    for i := 0 to |a|
      invariant dot == Dot(a, b, i)
      invariant normA == Dot(a, a, i)
      invariant normB == Dot(b, b, i)
    {
      dot := dot + a[i] * b[i];
      normA := normA + a[i] * a[i];
      normB := normB + b[i] * b[i];
    }
  }

  /** The root, the division and the clipping. */
  method Divide(dot: real, normA: real, normB: real, sqrt: real -> real) returns (sim: real)
    requires IsSqrt(sqrt) && normA >= 0.0 && normB >= 0.0
    ensures sim == Similarity(dot, normA, normB, sqrt)
  {
    if normA == 0.0 || normB == 0.0 {
      return 0.0;
    }
    RootPositive(normA, normB, sqrt);
    sim := dot / sqrt(normA * normB);
    if sim < 0.0 {
      return 0.0;
    }
  }

  method CosineSimilarity(a: Vector, b: Vector, sqrt: real -> real) returns (sim: real)
    requires IsSqrt(sqrt)
    ensures sim == Cosine(a, b, sqrt)
  {
    if |a| != |b| || |a| == 0 {
      return 0.0;
    }
    var dot, normA, normB := InnerProducts(a, b);
    NormNonNegative(a, |a|);
    NormNonNegative(b, |a|);
    sim := Divide(dot, normA, normB, sqrt);
  }

  // ----- composite scores -----

  type UsageStats = map<string, int>

  datatype ToolEmbed = ToolEmbed(name: string, category: string, description: string, embedding: Vector)

  datatype Suggestion = Suggestion(
    toolName: string, category: string, description: string,
    score: real, similarity: real, usageScore: real, reason: string)

  /** The greatest usage count, and 0 when there is none above it. */
  ghost predicate IsMaxUsage(stats: UsageStats, m: int) {
    && m >= 0
    && (m > 0 ==> m in stats.Values)
    && (forall k :: k in stats ==> stats[k] <= m)
  }

  method MaxUsage(stats: UsageStats) returns (high: int)
    ensures IsMaxUsage(stats, high)
  {
    high := 0;
    var left := stats.Keys;
    while left != {}
      invariant left <= stats.Keys
      invariant high >= 0 && (high > 0 ==> high in stats.Values)
      invariant forall k :: k in stats && k !in left ==> stats[k] <= high
      decreases |left|
    {
      assert (forall k :: k !in left) ==> left == {};
      var k :| k in left;
      if stats[k] > high {
        high := stats[k];
      }
      left := left - {k};
    }
  }

  function Usage(stats: UsageStats, maxUse: int, key: string): real {
    var count := if key in stats then stats[key] else 0;
    if maxUse > 0 then count as real / maxUse as real else 0.0
  }

  function Composite(similarity: real, usage: real): real {
    0.7 * similarity + 0.3 * usage
  }

  lemma UsageAtMostOne(stats: UsageStats, maxUse: int, key: string)
    requires IsMaxUsage(stats, maxUse)
    ensures Usage(stats, maxUse, key) <= 1.0
    ensures Usage(stats, maxUse, key) >= 0.0 <==> maxUse == 0 || key !in stats || stats[key] >= 0
  {
    if maxUse > 0 {
      var count := if key in stats then stats[key] else 0;
      QuotientBounds(count as real, maxUse as real);
    }
  }

  lemma QuotientBounds(x: real, m: real)
    requires m > 0.0 && x <= m
    ensures x / m <= 1.0 && (x / m >= 0.0 <==> x >= 0.0)
  {
  }

  /** What a ranking is asked for: the request's embedding, the usage counts and how they are keyed. */
  datatype Query = Query(
    user: Vector, stats: UsageStats, toolKey: (string, string) -> string, sqrt: real -> real)

  /** The suggestion for one tool before normalization. */
  function SuggestionFor(q: Query, maxUse: int, td: ToolEmbed): Suggestion
    requires IsSqrt(q.sqrt)
  {
    var sim := Cosine(q.user, td.embedding, q.sqrt);
    var usage := Usage(q.stats, maxUse, q.toolKey(td.category, td.name));
    Suggestion(td.name, td.category, td.description, Composite(sim, usage), sim, usage, BuildReason(sim, usage))
  }

  function BuildReason(similarity: real, usage: real): string {
    if usage > 0.5 && similarity > 0.5 then "Similar to tools you've used before"
    else if similarity > 0.7 then "Strong semantic match with your request"
    else if usage > 0.5 then "Frequently used tool that may help"
    else if similarity > 0.3 then "Partial semantic match with your request"
    else "Available tool that may be relevant"
  }

  lemma UsageTimesMaximum(stats: UsageStats, maxUse: int, key: string)
    requires IsMaxUsage(stats, maxUse)
    ensures Usage(stats, maxUse, key) * maxUse as real == if key in stats && maxUse > 0 then stats[key] as real else 0.0
  {
  }

  /**
   * Every tool is suggested under its own name, with its cosine, its share of the greatest usage, and seven
   * parts of the first to three of the second as its score.
   */
  lemma SuggestionExact(q: Query, maxUse: int, td: ToolEmbed)
    requires IsSqrt(q.sqrt) && IsMaxUsage(q.stats, maxUse)
    ensures var s, key := SuggestionFor(q, maxUse, td), q.toolKey(td.category, td.name);
      && s.toolName == td.name && s.category == td.category && s.description == td.description
      && s.similarity == Cosine(q.user, td.embedding, q.sqrt)
      && s.usageScore * maxUse as real == (if key in q.stats && maxUse > 0 then q.stats[key] as real else 0.0)
      && 10.0 * s.score == 7.0 * s.similarity + 3.0 * s.usageScore
  {
    UsageTimesMaximum(q.stats, maxUse, q.toolKey(td.category, td.name));
  }

  /** Which reason is given when. */
  lemma ReasonIff(similarity: real, usage: real)
    ensures var reason := BuildReason(similarity, usage);
      && (reason == "Similar to tools you've used before" <==> similarity > 0.5 && usage > 0.5)
      && (reason == "Strong semantic match with your request" <==> similarity > 0.7 && usage <= 0.5)
      && (reason == "Frequently used tool that may help" <==> similarity <= 0.5 && usage > 0.5)
      && (reason == "Partial semantic match with your request" <==> 0.3 < similarity <= 0.7 && usage <= 0.5)
      && (reason == "Available tool that may be relevant" <==> similarity <= 0.3 && usage <= 0.5)
  {
    assert |"Similar to tools you've used before"| == 35;
    assert |"Strong semantic match with your request"| == 39;
    assert |"Frequently used tool that may help"| == 34;
    assert |"Partial semantic match with your request"| == 40;
    assert "Available tool that may be relevant"[0] == 'A';
  }

  /** Every composite score is at most 1, and all of them are at least 0 when no usage count is negative. */
  lemma CompositeInUnit(q: Query, maxUse: int, td: ToolEmbed)
    requires IsSqrt(q.sqrt) && IsMaxUsage(q.stats, maxUse)
    ensures SuggestionFor(q, maxUse, td).score <= 1.0
    ensures (forall k :: k in q.stats ==> q.stats[k] >= 0) ==> SuggestionFor(q, maxUse, td).score >= 0.0
  {
    CosineInUnit(q.user, td.embedding, q.sqrt);
    UsageAtMostOne(q.stats, maxUse, q.toolKey(td.category, td.name));
  }

  /** A tool's composite is non-negative for every request exactly when its usage count is, or none is used. */
  lemma CompositeNonNegativeIff(q: Query, maxUse: int, td: ToolEmbed)
    requires IsSqrt(q.sqrt) && IsMaxUsage(q.stats, maxUse)
    ensures (forall user: Vector :: SuggestionFor(q.(user := user), maxUse, td).score >= 0.0)
      <==> var key := q.toolKey(td.category, td.name); maxUse == 0 || key !in q.stats || q.stats[key] >= 0
  {
    var usage := Usage(q.stats, maxUse, q.toolKey(td.category, td.name));
    UsageAtMostOne(q.stats, maxUse, q.toolKey(td.category, td.name));
    forall user: Vector ensures usage >= 0.0 ==> SuggestionFor(q.(user := user), maxUse, td).score >= 0.0 {
      CosineInUnit(user, td.embedding, q.sqrt);
    }
    assert SuggestionFor(q.(user := []), maxUse, td).score == Composite(0.0, usage);
  }

  // ----- min-max normalization -----

  function MinScore(s: seq<Suggestion>): real
    requires s != []
  {
    var last := s[|s| - 1].score;
    if |s| == 1 then last else var m := MinScore(s[..|s| - 1]); if last < m then last else m
  }

  function MaxScore(s: seq<Suggestion>): real
    requires s != []
  {
    var last := s[|s| - 1].score;
    if |s| == 1 then last else var m := MaxScore(s[..|s| - 1]); if last > m then last else m
  }

  lemma {:induction false} ScoreBounds(s: seq<Suggestion>, i: nat)
    requires i < |s|
    ensures MinScore(s) <= s[i].score <= MaxScore(s)
  {
    if |s| > 1 { ScoreBounds(s[..|s| - 1], if i < |s| - 1 then i else 0); }
  }

  function Scaled(score: real, low: real, high: real): real {
    if high - low == 0.0 then 1.0 else (score - low) / (high - low)
  }

  function Normalized(s: seq<Suggestion>): seq<Suggestion> {
    if s == [] then []
    else seq(|s|, i requires 0 <= i < |s| => s[i].(score := Scaled(s[i].score, MinScore(s), MaxScore(s))))
  }

  lemma ScaledOrder(x: real, y: real, low: real, high: real)
    requires low <= x <= high && low <= y <= high
    ensures x < y <==> Scaled(x, low, high) < Scaled(y, low, high)
    ensures 0.0 <= Scaled(x, low, high) <= 1.0
  {
    if low < high {
      DivisionOrder(x - low, y - low, high - low);
      DivisionOrder(y - low, x - low, high - low);
      DivisionOrder(x - low, high - low, high - low);
      DivisionOrder(0.0, x - low, high - low);
    }
  }

  lemma DivisionOrder(x: real, y: real, r: real)
    requires r > 0.0
    ensures x < y <==> x / r < y / r
    ensures r / r == 1.0 && 0.0 / r == 0.0
  {
  }

  /** Normalization keeps the order of any two suggestions, and puts every score in [0, 1]. */
  lemma NormalizedKeepsOrder(s: seq<Suggestion>, i: nat, j: nat)
    requires i < |s| && j < |s|
    ensures s[i].score < s[j].score <==> Normalized(s)[i].score < Normalized(s)[j].score
    ensures 0.0 <= Normalized(s)[i].score <= 1.0
  {
    ScoreBounds(s, i);
    ScoreBounds(s, j);
    ScaledOrder(s[i].score, s[j].score, MinScore(s), MaxScore(s));
  }

  lemma {:induction false} ScoresAttained(s: seq<Suggestion>) returns (low: nat, high: nat)
    requires s != []
    ensures low < |s| && s[low].score == MinScore(s)
    ensures high < |s| && s[high].score == MaxScore(s)
  {
    low, high := |s| - 1, |s| - 1;
    if |s| > 1 {
      var low', high' := ScoresAttained(s[..|s| - 1]);
      if s[low].score >= s[low'].score { low := low'; }
      if s[high].score <= s[high'].score { high := high'; }
    }
  }

  /** The best suggestion gets 1; the worst gets 0 unless all are equal. */
  lemma NormalizedSpans(s: seq<Suggestion>) returns (low: nat, high: nat)
    requires s != []
    ensures low < |s| && high < |s| && s[low].score <= s[high].score
    ensures Normalized(s)[high].score == 1.0
    ensures Normalized(s)[low].score == if s[low].score < s[high].score then 0.0 else 1.0
    ensures forall i :: 0 <= i < |s| ==>
      && Normalized(s)[i] == s[i].(score := Normalized(s)[i].score)
      && (s[low].score < s[high].score ==>
            Normalized(s)[i].score * (s[high].score - s[low].score) == s[i].score - s[low].score)
  {
    low, high := ScoresAttained(s);
    ScoreBounds(s, low);
    if MinScore(s) < MaxScore(s) {
      DivisionOrder(0.0, 0.0, MaxScore(s) - MinScore(s));
      forall i | 0 <= i < |s|
        ensures Normalized(s)[i].score * (s[high].score - s[low].score) == s[i].score - s[low].score
      {
        ScaledBack(s[i].score, MinScore(s), MaxScore(s));
      }
    }
  }

  lemma ScaledBack(x: real, low: real, high: real)
    requires low < high
    ensures Scaled(x, low, high) * (high - low) == x - low
  {
  }

  method ScoreRange(suggestions: array<Suggestion>) returns (minScore: real, maxScore: real)
    requires suggestions.Length > 0
    ensures minScore == MinScore(suggestions[..]) && maxScore == MaxScore(suggestions[..])
  {
    minScore, maxScore := suggestions[0].score, suggestions[0].score;
    for i := 1 to suggestions.Length
      invariant minScore == MinScore(suggestions[..i]) && maxScore == MaxScore(suggestions[..i])
    {
      assert suggestions[..i + 1][..i] == suggestions[..i];
      if suggestions[i].score < minScore {
        minScore := suggestions[i].score;
      }
      if suggestions[i].score > maxScore {
        maxScore := suggestions[i].score;
      }
    }
    assert suggestions[..suggestions.Length] == suggestions[..];
  }

  method NormalizeScores(suggestions: array<Suggestion>)
    modifies suggestions
    ensures suggestions[..] == Normalized(old(suggestions[..]))
  {
    if suggestions.Length == 0 {
      return;
    }
    var minScore, maxScore := ScoreRange(suggestions);
    ghost var before, after := suggestions[..], Normalized(suggestions[..]);
    for i := 0 to suggestions.Length
      invariant forall k :: 0 <= k < i ==> suggestions[k] == after[k]
      invariant forall k :: i <= k < suggestions.Length ==> suggestions[k] == before[k]
    {
      suggestions[i] := suggestions[i].(score := Scaled(suggestions[i].score, minScore, maxScore));
    }
  }

  // ----- the ranking -----

  predicate Descending(s: seq<Suggestion>) {
    forall i, j :: 0 <= i < j < |s| ==> s[i].score >= s[j].score
  }

  method Best(a: array<Suggestion>, from: nat) returns (best: nat)
    requires from < a.Length
    ensures from <= best < a.Length && forall k :: from <= k < a.Length ==> a[best].score >= a[k].score
  {
    best := from;
    for k := from + 1 to a.Length
      invariant from <= best < a.Length
      invariant forall j :: from <= j < k ==> a[best].score >= a[j].score
    {
      if a[k].score > a[best].score {
        best := k;
      }
    }
  }

  /** The first `n` are in descending order and no later score exceeds them. */
  predicate SortedUpTo(s: seq<Suggestion>, n: nat) {
    forall i, j :: 0 <= i < n && i < j < |s| ==> s[i].score >= s[j].score
  }

  lemma SwapBest(s: seq<Suggestion>, n: nat, best: nat, s': seq<Suggestion>)
    requires n <= best < |s| && SortedUpTo(s, n)
    requires forall k :: n <= k < |s| ==> s[best].score >= s[k].score
    requires s' == s[n := s[best]][best := s[n]]
    ensures SortedUpTo(s', n + 1) && multiset(s') == multiset(s)
  {
  }

  /** sort.Slice by descending score; the order of equal scores is not promised. */
  method SortByScore(a: array<Suggestion>)
    modifies a
    ensures Descending(a[..]) && multiset(a[..]) == multiset(old(a[..]))
  {
    for i := 0 to a.Length
      invariant multiset(a[..]) == multiset(old(a[..])) && SortedUpTo(a[..], i)
    {
      var best := Best(a, i);
      ghost var s := a[..];
      a[i], a[best] := a[best], a[i];
      SwapBest(s, i, best, a[..]);
    }
  }

  /** The suggestions of all tools, in the order of the tools, before normalization. */
  function Scored(q: Query, maxUse: int, tools: seq<ToolEmbed>): seq<Suggestion>
    requires IsSqrt(q.sqrt)
  {
    seq(|tools|, i requires 0 <= i < |tools| => SuggestionFor(q, maxUse, tools[i]))
  }

  /** The composite score before normalization. */
  function Raw(s: Suggestion): real {
    Composite(s.similarity, s.usageScore)
  }

  /** Sorting the normalized suggestions sorts them by composite score too. */
  lemma SortedByComposite(raw: seq<Suggestion>, ranked: seq<Suggestion>, i: nat, j: nat)
    requires multiset(ranked) == multiset(Normalized(raw)) && Descending(ranked) && i < j < |ranked|
    requires forall k :: 0 <= k < |raw| ==> raw[k].score == Raw(raw[k])
    ensures Raw(ranked[i]) >= Raw(ranked[j])
  {
    var all := Normalized(raw);
    assert ranked[i] in multiset(all) && ranked[j] in multiset(all);
    var x :| 0 <= x < |all| && all[x] == ranked[i];
    var y :| 0 <= y < |all| && all[y] == ranked[j];
    NormalizedKeepsOrder(raw, x, y);
  }

  method ScoreTools(q: Query, maxUse: int, tools: seq<ToolEmbed>) returns (suggestions: seq<Suggestion>)
    requires IsSqrt(q.sqrt)
    ensures suggestions == Scored(q, maxUse, tools)
  {
    suggestions := [];
    for i := 0 to |tools|
      invariant suggestions == Scored(q, maxUse, tools[..i])
    {
      var td := tools[i];
      var sim := CosineSimilarity(q.user, td.embedding, q.sqrt);
      var usageScore := Usage(q.stats, maxUse, q.toolKey(td.category, td.name));
      var composite := Composite(sim, usageScore);
      suggestions := suggestions +
        [Suggestion(td.name, td.category, td.description, composite, sim, usageScore, BuildReason(sim, usageScore))];
    }
    assert tools[..|tools|] == tools;
  }

  method Rank(q: Query, tools: seq<ToolEmbed>) returns (ranked: seq<Suggestion>, ghost maxUse: int)
    requires IsSqrt(q.sqrt)
    ensures IsMaxUsage(q.stats, maxUse)
    ensures multiset(ranked) == multiset(Normalized(Scored(q, maxUse, tools)))
    ensures Descending(ranked)
    ensures forall i, j :: 0 <= i < j < |ranked| ==>
      7.0 * ranked[i].similarity + 3.0 * ranked[i].usageScore >= 7.0 * ranked[j].similarity + 3.0 * ranked[j].usageScore
  {
    var high := MaxUsage(q.stats);
    maxUse := high;
    if |tools| == 0 {
      return [], maxUse;
    }
    var suggestions := ScoreTools(q, high, tools);
    var slice := new Suggestion[|suggestions|](i requires 0 <= i < |suggestions| => suggestions[i]);
    assert slice[..] == suggestions;
    NormalizeScores(slice);
    SortByScore(slice);
    ranked := slice[..];
    forall i, j | 0 <= i < j < |ranked|
      ensures 7.0 * ranked[i].similarity + 3.0 * ranked[i].usageScore
           >= 7.0 * ranked[j].similarity + 3.0 * ranked[j].usageScore
    {
      SortedByComposite(suggestions, ranked, i, j);
    }
  }
}
