/**
 * Combining the feature scores of each criterion and aggregating them over
 * the catalog into the overall report.
 */
module Aggregation {
  import opened Wrappers
  import opened Text
  import opened Rubric
  import opened FeatureScorers

  // ---------------------------------------------------------------------------
  // Per-criterion blend

  /**
   * Blend of the three feature scores with the fixed weights 0.4 / 0.4 / 0.2,
   * as a fraction in [0.06, 1]; it is full credit only when every feature is,
   * and without a semantic comparison it cannot exceed 0.8.
   */
  function Combined(transcript: string, c: Criterion, model: Option<Similarity>): (r: real)
    ensures 0.06 <= r <= 1.0
    ensures model.None? || c.description == "" ==> 0.26 <= r <= 0.8
    ensures r == 1.0 <==>
      && KeywordScore(transcript, c.keywords).score == 1.0
      && SemanticScore(model, transcript, c.description) == 1.0
      && LengthScore(transcript, c.minWords, c.maxWords).score == 1.0
  {
    var kw := KeywordScore(transcript, c.keywords).score;
    var sem := SemanticScore(model, transcript, c.description);
    var len := LengthScore(transcript, c.minWords, c.maxWords).score;
    0.4 * kw + 0.4 * sem + 0.2 * len
  }

  // ---------------------------------------------------------------------------
  // Weighted mean

  function Sum(xs: seq<real>): real {
    if |xs| == 0 then 0.0 else Sum(xs[..|xs| - 1]) + xs[|xs| - 1]
  }

  /** Σ values[i] · weights[i], accumulated left to right. */
  function WeightedSum(values: seq<real>, weights: seq<real>): real
    requires |values| == |weights|
  {
    if |values| == 0 then 0.0
    else WeightedSum(values[..|values| - 1], weights[..|weights| - 1]) + values[|values| - 1] * weights[|weights| - 1]
  }

  /** With non-negative weights, a weighted sum lies between lo·Σw and hi·Σw. */
  lemma {:induction false} WeightedSumBetween(values: seq<real>, weights: seq<real>, lo: real, hi: real)
    requires |values| == |weights|
    requires forall i :: 0 <= i < |weights| ==> 0.0 <= weights[i]
    requires forall i :: 0 <= i < |values| ==> lo <= values[i] <= hi
    ensures lo * Sum(weights) <= WeightedSum(values, weights) <= hi * Sum(weights)
  {
    if |values| > 0 {
      var n := |values| - 1;
      WeightedSumBetween(values[..n], weights[..n], lo, hi);
      var v, w := values[n], weights[n];
      assert (v - lo) * w >= 0.0;
      assert (hi - v) * w >= 0.0;
    }
  }

  /** Dividing by a positive total keeps the bounds: lo·t <= s <= hi·t gives lo <= s / t <= hi. */
  lemma DivideBetween(s: real, t: real, lo: real, hi: real)
    requires t > 0.0
    requires lo * t <= s <= hi * t
    ensures lo <= s / t <= hi
  {
    assert s / t * t == s;
  }

  /**
   * A weighted mean with non-negative weights and a positive total lies
   * between any lower and upper bound of the values.
   */
  lemma {:induction false} WeightedMeanBetween(values: seq<real>, weights: seq<real>, lo: real, hi: real)
    requires |values| == |weights|
    requires forall i :: 0 <= i < |weights| ==> 0.0 <= weights[i]
    requires Sum(weights) > 0.0
    requires forall i :: 0 <= i < |values| ==> lo <= values[i] <= hi
    ensures lo <= WeightedSum(values, weights) / Sum(weights) <= hi
  {
    var s, t := WeightedSum(values, weights), Sum(weights);
    WeightedSumBetween(values, weights, lo, hi);
    assert lo * t <= s <= hi * t;
    DivideBetween(s, t, lo, hi);
    assert lo <= s / t <= hi;
  }

  /** With one common weight w, the weighted sum is w times the plain sum. */
  lemma {:induction false} WeightedSumUniform(values: seq<real>, weights: seq<real>, w: real)
    requires |values| == |weights|
    requires forall i :: 0 <= i < |weights| ==> weights[i] == w
    ensures WeightedSum(values, weights) == w * Sum(values)
    ensures Sum(weights) == |weights| as real * w
  {
    if |values| > 0 {
      var n := |values| - 1;
      WeightedSumUniform(values[..n], weights[..n], w);
    }
  }

  /** A common positive factor cancels: (w·s) / (n·w) == s / n. */
  lemma CancelCommonFactor(a: real, b: real, s: real, n: real, w: real)
    requires n > 0.0 && w > 0.0
    requires a == w * s && b == n * w
    ensures b > 0.0
    ensures a / b == s / n
  {
    var q := s / n;
    assert q * n == s;
    assert q * b == a;
  }

  /** Equal weights make the weighted mean the arithmetic mean. */
  lemma {:induction false} UniformMeanIsAverage(values: seq<real>, weights: seq<real>, w: real)
    requires |values| == |weights| && |values| > 0
    requires w > 0.0
    requires forall i :: 0 <= i < |weights| ==> weights[i] == w
    ensures Sum(weights) > 0.0
    ensures WeightedSum(values, weights) / Sum(weights) == Sum(values) / |values| as real
  {
    WeightedSumUniform(values, weights, w);
    CancelCommonFactor(WeightedSum(values, weights), Sum(weights), Sum(values), |values| as real, w);
  }

  /** Least element of a non-empty sequence. */
  function MinOf(xs: seq<real>): (m: real)
    requires |xs| > 0
    ensures m in xs
    ensures forall i :: 0 <= i < |xs| ==> m <= xs[i]
  {
    if |xs| == 1 then xs[0]
    else
      var rest := MinOf(xs[1..]);
      assert forall i :: 1 <= i < |xs| ==> xs[i] == xs[1..][i - 1];
      if xs[0] <= rest then xs[0] else rest
  }

  /** Greatest element of a non-empty sequence. */
  function MaxOf(xs: seq<real>): (m: real)
    requires |xs| > 0
    ensures m in xs
    ensures forall i :: 0 <= i < |xs| ==> xs[i] <= m
  {
    if |xs| == 1 then xs[0]
    else
      var rest := MaxOf(xs[1..]);
      assert forall i :: 1 <= i < |xs| ==> xs[i] == xs[1..][i - 1];
      if rest <= xs[0] then xs[0] else rest
  }

  // ---------------------------------------------------------------------------
  // The report

  datatype CriterionResult = CriterionResult(criterionName: string, metric: string, score: real, feedback: string)

  datatype Report = Report(overallScore: real, wordCount: nat, criteria: seq<CriterionResult>)

  /** The weights of the catalog, in catalog order. */
  function Weights(catalog: seq<Criterion>): (ws: seq<real>)
    ensures |ws| == |catalog|
    ensures forall i :: 0 <= i < |catalog| ==> ws[i] == catalog[i].weight
  {
    seq(|catalog|, i requires 0 <= i < |catalog| => catalog[i].weight)
  }

  /** The combined fraction of every criterion, in catalog order. */
  function Scores(transcript: string, catalog: seq<Criterion>, model: Option<Similarity>): (ss: seq<real>)
    ensures |ss| == |catalog|
    ensures forall i :: 0 <= i < |catalog| ==> ss[i] == Combined(transcript, catalog[i], model)
  {
    seq(|catalog|, i requires 0 <= i < |catalog| => Combined(transcript, catalog[i], model))
  }

  /**
   * The overall percentage before rounding: 100 · Σ(combined_i · w_i) / Σ w_i.
   * With non-negative weights it is a percentage, at least 6.
   */
  function OverallScore(transcript: string, catalog: seq<Criterion>, model: Option<Similarity>): (r: real)
    requires Sum(Weights(catalog)) > 0.0
    ensures (forall i :: 0 <= i < |catalog| ==> catalog[i].weight >= 0.0) ==> 6.0 <= r <= 100.0
  {
    var ws := Weights(catalog);
    var ss := Scores(transcript, catalog, model);
    if forall i :: 0 <= i < |catalog| ==> catalog[i].weight >= 0.0 then
      WeightedMeanBetween(ss, ws, 0.06, 1.0);
      WeightedSum(ss, ws) / Sum(ws) * 100.0
    else
      WeightedSum(ss, ws) / Sum(ws) * 100.0
  }

  /**
   * With non-negative weights the overall score lies between the lowest and
   * the highest criterion score.
   */
  lemma {:induction false} OverallBetweenExtremes(transcript: string, catalog: seq<Criterion>, model: Option<Similarity>)
    requires Sum(Weights(catalog)) > 0.0
    requires forall i :: 0 <= i < |catalog| ==> catalog[i].weight >= 0.0
    ensures |catalog| > 0
    ensures 100.0 * MinOf(Scores(transcript, catalog, model)) <= OverallScore(transcript, catalog, model)
    ensures OverallScore(transcript, catalog, model) <= 100.0 * MaxOf(Scores(transcript, catalog, model))
  {
    var ss := Scores(transcript, catalog, model);
    WeightedMeanBetween(ss, Weights(catalog), MinOf(ss), MaxOf(ss));
  }

  /** With equal positive weights the overall score is the plain mean of the criterion scores. */
  lemma {:induction false} EqualWeightsGiveMean(transcript: string, catalog: seq<Criterion>, model: Option<Similarity>)
    requires |catalog| > 0 && catalog[0].weight > 0.0
    requires forall i :: 0 <= i < |catalog| ==> catalog[i].weight == catalog[0].weight
    ensures Sum(Weights(catalog)) > 0.0
    ensures OverallScore(transcript, catalog, model) == Sum(Scores(transcript, catalog, model)) / |catalog| as real * 100.0
  {
    UniformMeanIsAverage(Scores(transcript, catalog, model), Weights(catalog), catalog[0].weight);
  }

  /**
   * The report line for one criterion: name and metric copied from the
   * criterion, the combined fraction as a percentage, and the length
   * scorer's message as the only feedback.
   */
  function Evaluate(transcript: string, c: Criterion, model: Option<Similarity>): (r: CriterionResult)
    ensures r.criterionName == c.name && r.metric == c.metric
    ensures r.feedback == LengthScore(transcript, c.minWords, c.maxWords).message
    ensures r.score == Combined(transcript, c, model) * 100.0
    ensures 6.0 <= r.score <= 100.0
  {
    var combined := Combined(transcript, c, model);
    var length := LengthScore(transcript, c.minWords, c.maxWords);
    CriterionResult(c.name, c.metric, combined * 100.0, length.message)
  }

  /** One more criterion adds its combined fraction times its weight to the running sum. */
  lemma {:induction false} WeightedSumStep(values: seq<real>, weights: seq<real>, i: nat)
    requires |values| == |weights| && i < |values|
    ensures WeightedSum(values[..i + 1], weights[..i + 1]) == WeightedSum(values[..i], weights[..i]) + values[i] * weights[i]
  {
    assert values[..i + 1][..i] == values[..i];
    assert weights[..i + 1][..i] == weights[..i];
  }

  /** Accumulates Σ values[i] · weights[i] from left to right, as the scoring loop does. */
  method AccumulateWeighted(values: seq<real>, weights: seq<real>) returns (total: real)
    requires |values| == |weights|
    ensures total == WeightedSum(values, weights)
  {
    total := 0.0;
    var i := 0;
    while i < |values|
      invariant 0 <= i <= |values|
      invariant total == WeightedSum(values[..i], weights[..i])
    {
      WeightedSumStep(values, weights, i);
      total := total + values[i] * weights[i];
      i := i + 1;
    }
    assert values[..i] == values && weights[..i] == weights;
  }

  /** Evaluates every criterion, in catalog order. */
  method EvaluateAll(transcript: string, catalog: seq<Criterion>, model: Option<Similarity>) returns (results: seq<CriterionResult>)
    ensures |results| == |catalog|
    ensures forall i :: 0 <= i < |catalog| ==> results[i] == Evaluate(transcript, catalog[i], model)
  {
    results := [];
    var i := 0;
    while i < |catalog|
      invariant 0 <= i <= |catalog|
      invariant |results| == i
      invariant forall j :: 0 <= j < i ==> results[j] == Evaluate(transcript, catalog[j], model)
    {
      var line := Evaluate(transcript, catalog[i], model);
      results := results + [line];
      i := i + 1;
    }
  }

  /**
   * Scores the stripped transcript against every criterion in catalog order
   * and aggregates the combined fractions into the weighted overall score.
   */
  method ScoreTranscript(catalog: seq<Criterion>, model: Option<Similarity>, transcript: string) returns (report: Report)
    requires Sum(Weights(catalog)) > 0.0
    ensures |report.criteria| == |catalog|
    ensures forall i :: 0 <= i < |catalog| ==> report.criteria[i] == Evaluate(Strip(transcript), catalog[i], model)
    ensures forall i :: 0 <= i < |catalog| ==> 6.0 <= report.criteria[i].score <= 100.0
    ensures report.wordCount == |Words(transcript)|
    ensures report.overallScore == OverallScore(Strip(transcript), catalog, model)
  {
    var text := Strip(transcript);
    var totalWeight := Sum(Weights(catalog));
    var results := EvaluateAll(text, catalog, model);
    var weightedSum := AccumulateWeighted(Scores(text, catalog, model), Weights(catalog));
    WordsOfStrip(transcript);
    report := Report(weightedSum / totalWeight * 100.0, |Words(text)|, results);
  }
}
