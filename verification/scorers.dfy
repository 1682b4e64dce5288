/**
 * The three feature scorers: keyword coverage, semantic similarity and length
 * conformance. Each maps a transcript and one criterion's data to a score.
 */
module FeatureScorers {
  import opened Wrappers
  import opened Text

  // ---------------------------------------------------------------------------
  // Keyword coverage

  /** A keyword matches when, lower-cased, it occurs in the lower-cased transcript. */
  predicate Matches(transcript: string, keyword: string) {
    Contains(Lower(transcript), Lower(keyword))
  }

  /** The keywords that match, in their original order (duplicates kept). */
  function Found(transcript: string, keywords: seq<string>): (found: seq<string>)
    ensures |found| <= |keywords|
    ensures forall k :: k in found <==> k in keywords && Matches(transcript, k)
    ensures |found| == |keywords| <==> forall i :: 0 <= i < |keywords| ==> Matches(transcript, keywords[i])
    ensures |found| == 0 <==> forall i :: 0 <= i < |keywords| ==> !Matches(transcript, keywords[i])
  {
    if |keywords| == 0 then []
    else
      var rest := Found(transcript, keywords[1..]);
      assert forall i :: 1 <= i < |keywords| ==> keywords[i] == keywords[1..][i - 1];
      if Matches(transcript, keywords[0]) then [keywords[0]] + rest else rest
  }

  /** Order is kept: the matches among `a + b` are the matches among `a`, then those among `b`. */
  lemma {:induction false} FoundAppend(transcript: string, a: seq<string>, b: seq<string>)
    ensures Found(transcript, a + b) == Found(transcript, a) + Found(transcript, b)
  {
    if |a| == 0 {
      assert a + b == b;
    } else {
      assert (a + b)[1..] == a[1..] + b;
      FoundAppend(transcript, a[1..], b);
    }
  }

  datatype Coverage = Coverage(score: real, found: seq<string>)

  /** Facts about the ratio a / n of two counts with a <= n. */
  lemma Ratio(a: nat, n: nat)
    requires 0 < n && a <= n
    ensures 0.0 <= a as real / n as real <= 1.0
    ensures a as real / n as real == 1.0 <==> a == n
    ensures a as real / n as real == 0.0 <==> a == 0
  {
    var q := a as real / n as real;
    assert q * n as real == a as real;
  }

  /** The ratio grows with its numerator. */
  lemma RatioMonotone(a: nat, b: nat, n: nat)
    requires 0 < n && a <= b
    ensures a as real / n as real <= b as real / n as real
  {
    var p, q := a as real / n as real, b as real / n as real;
    assert p * n as real == a as real;
    assert q * n as real == b as real;
    assert (q - p) * n as real == (b - a) as real;
  }

  /**
   * Fraction of the keywords found in the transcript; full credit when the
   * criterion lists no keywords.
   */
  function KeywordScore(transcript: string, keywords: seq<string>): (c: Coverage)
    ensures 0.0 <= c.score <= 1.0
    ensures |keywords| == 0 ==> c.score == 1.0 && c.found == []
    ensures c.found == Found(transcript, keywords)
    ensures |keywords| > 0 ==> c.score == |c.found| as real / |keywords| as real
    ensures forall k :: k in c.found <==> k in keywords && Matches(transcript, k)
    ensures c.score == 1.0 <==> forall i :: 0 <= i < |keywords| ==> Matches(transcript, keywords[i])
    ensures c.score == 0.0 <==> |keywords| > 0 && forall i :: 0 <= i < |keywords| ==> !Matches(transcript, keywords[i])
  {
    var found := Found(transcript, keywords);
    if |keywords| == 0 then Coverage(1.0, [])
    else
      Ratio(|found|, |keywords|);
      Coverage(|found| as real / |keywords| as real, found)
  }

  /** A keyword found in a text is found in every text that contains it. */
  lemma MatchesWiden(t: string, t2: string, k: string)
    requires Occurs(t, t2)
    requires Matches(t, k)
    ensures Matches(t2, k)
  {
    ContainsIffOccurs(Lower(t), Lower(k));
    OccursLower(t, t2);
    OccursTransitive(Lower(k), Lower(t), Lower(t2));
    ContainsIffOccurs(Lower(t2), Lower(k));
  }

  lemma {:induction false} FoundWiden(t: string, t2: string, keywords: seq<string>)
    requires Occurs(t, t2)
    ensures |Found(t, keywords)| <= |Found(t2, keywords)|
  {
    if |keywords| > 0 {
      FoundWiden(t, t2, keywords[1..]);
      if Matches(t, keywords[0]) {
        MatchesWiden(t, t2, keywords[0]);
      }
    }
  }

  /**
   * Saying more never lowers keyword coverage: a transcript that contains
   * another scores at least as high on any keyword list.
   */
  lemma KeywordScoreMonotone(t: string, t2: string, keywords: seq<string>)
    requires Occurs(t, t2)
    ensures KeywordScore(t, keywords).score <= KeywordScore(t2, keywords).score
  {
    FoundWiden(t, t2, keywords);
    if |keywords| > 0 {
      RatioMonotone(|Found(t, keywords)|, |Found(t2, keywords)|, |keywords|);
    }
  }

  // ---------------------------------------------------------------------------
  // Semantic similarity

  /** A similarity capability: compares a transcript with a description. */
  type Similarity = (string, string) -> real

  /** Maps a cosine similarity onto [0, 1] as max(0, min(1, (sim + 1) / 2)). */
  function Normalize(sim: real): (r: real)
    ensures 0.0 <= r <= 1.0
    ensures -1.0 <= sim <= 1.0 ==> r == (sim + 1.0) / 2.0
    ensures sim <= -1.0 ==> r == 0.0
    ensures sim >= 1.0 ==> r == 1.0
  {
    var half := (sim + 1.0) / 2.0;
    var capped := if 1.0 <= half then 1.0 else half;
    if capped <= 0.0 then 0.0 else capped
  }

  /** A higher similarity never gives a lower score. */
  lemma NormalizeMonotone(a: real, b: real)
    requires a <= b
    ensures Normalize(a) <= Normalize(b)
  {
  }

  /**
   * Neutral 0.5 when no model is loaded or the description is empty;
   * otherwise the normalized similarity of transcript and description.
   */
  function SemanticScore(model: Option<Similarity>, transcript: string, description: string): (r: real)
    ensures 0.0 <= r <= 1.0
    ensures model.None? || description == "" ==> r == 0.5
    ensures model.Some? && description != "" ==> r == Normalize(model.value(transcript, description))
  {
    match model
    case None => 0.5
    case Some(similarity) =>
      if description == "" then 0.5
      else Normalize(similarity(transcript, description))
  }

  // ---------------------------------------------------------------------------
  // Length conformance

  /** Python truthiness of an optional bound: absent and 0 both mean "no bound". */
  predicate IsBound(b: Option<nat>) {
    b.Some? && b.value > 0
  }

  /** The word count meets every bound that is set; both bounds are inclusive. */
  predicate WithinBounds(count: nat, minWords: Option<nat>, maxWords: Option<nat>) {
    && (IsBound(minWords) ==> minWords.value <= count)
    && (IsBound(maxWords) ==> count <= maxWords.value)
  }

  const LengthOk: string := "Length OK"

  function TooShortMessage(minWords: nat): string {
    "Too short (needs \U{2265} " + NatToString(minWords) + ")"
  }

  function TooLongMessage(maxWords: nat): string {
    "Too long (limit \U{2264} " + NatToString(maxWords) + ")"
  }

  datatype LengthVerdict = LengthVerdict(score: real, count: nat, message: string)

  /**
   * Fixed penalties: 0.3 when below the minimum (checked first), 0.4 when
   * above the maximum, 1.0 otherwise.
   */
  function LengthScore(transcript: string, minWords: Option<nat>, maxWords: Option<nat>): (v: LengthVerdict)
    ensures v.count == |Words(transcript)|
    ensures v.score == 0.3 || v.score == 0.4 || v.score == 1.0
    ensures v.score == 0.3 <==> IsBound(minWords) && v.count < minWords.value
    ensures v.score == 0.4 <==> !WithinBounds(v.count, minWords, maxWords) && !(IsBound(minWords) && v.count < minWords.value)
    ensures v.score == 1.0 <==> WithinBounds(v.count, minWords, maxWords)
    ensures v.score == 1.0 <==> v.message == LengthOk
    ensures v.score == 0.3 ==> v.message == TooShortMessage(minWords.value)
    ensures v.score == 0.4 ==> v.message == TooLongMessage(maxWords.value)
  {
    var count := |Words(transcript)|;
    if !IsBound(minWords) && !IsBound(maxWords) then LengthVerdict(1.0, count, LengthOk)
    else if IsBound(minWords) && count < minWords.value then
      LengthVerdict(0.3, count, TooShortMessage(minWords.value))
    else if IsBound(maxWords) && count > maxWords.value then
      LengthVerdict(0.4, count, TooLongMessage(maxWords.value))
    else LengthVerdict(1.0, count, LengthOk)
  }

  /** A bound of 0 behaves exactly like no bound at all. */
  lemma ZeroBoundIsNoBound(transcript: string, minWords: Option<nat>, maxWords: Option<nat>)
    ensures LengthScore(transcript, Some(0), maxWords) == LengthScore(transcript, None, maxWords)
    ensures LengthScore(transcript, minWords, Some(0)) == LengthScore(transcript, minWords, None)
  {
  }

  /** The bound a penalty message names can be read back from the digits it ends with. */
  lemma {:induction false} MessagesNameBound(n: nat)
    ensures var m := TooShortMessage(n);
      |m| > 20 && m[..19] == "Too short (needs \U{2265} " && m[|m| - 1] == ')'
      && m[19..|m| - 1] == NatToString(n) && ParseNat(m[19..|m| - 1]) == n
    ensures var m := TooLongMessage(n);
      |m| > 19 && m[..18] == "Too long (limit \U{2264} " && m[|m| - 1] == ')'
      && m[18..|m| - 1] == NatToString(n) && ParseNat(m[18..|m| - 1]) == n
  {
    ParseNatToString(n);
  }
}
