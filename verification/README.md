# Rubric scoring engine — a Dafny model

This project models the rubric scoring engine of the Nirmaan AI scoring service: the
`RubricScorer` class in `backend/scoring.py`. The engine scores a free-text transcript
against a catalog of weighted criteria. For each criterion it computes three feature
scores:

- keyword coverage: the fraction of the criterion's keywords that occur, case-insensitively,
  in the transcript;
- semantic similarity: a cosine similarity remapped onto [0, 1], with a neutral 0.5 fallback;
- length conformance: fixed penalties of 0.3 (too short) or 0.4 (too long), otherwise 1.0.

It blends them as `0.4·kw + 0.4·sem + 0.2·len` and reports each criterion as a percentage.
The overall score is the weight-averaged blend, also as a percentage.

Modules, one per file:

- `Wrappers` (`wrappers.dfy`): `Option`, Python's `None` versus a value.
- `Text` (`text.dfy`): the Python string operations the engine relies on.
  - `str.isspace` uses CPython's whitespace table.
  - `lower()` is restricted to ASCII.
  - Also `strip()`, `split(",")` with its inverse `",".join`, `split()`, the `in` substring
    test, and the decimal rendering of an integer in an f-string.
- `Rubric` (`rubric.dfy`): the `Criterion` record and the parser for the comma-separated
  keywords cell.
- `FeatureScorers` (`scorers.dfy`): the keyword, semantic and length scorers.
- `Aggregation` (`aggregation.dfy`): the blend, the weighted mean and `score_transcript`.

Modelling choices:

- The embedding model is a parameter `model: Option<Similarity>`. `None` means no model
  was loaded. `Some(f)` means `f(transcript, description)` is the cosine similarity.
- Word bounds are `Option<nat>`. As in the source's truthiness tests, `Some(0)` behaves
  exactly like `None`.
- Scores are exact `real`s. Every property is proved before rounding.
- `score_transcript` computes everything in one loop. The model does it in two passes:
  `EvaluateAll` builds the per-criterion lines and `AccumulateWeighted` accumulates the
  weighted sum. The scorers are pure, so the results are the same.
- Keywords are a list: a keyword listed twice counts twice, as in the code
  (`FeatureScorers.KeywordScore` states that the found keywords are the in-order filter
  `Found` of the list, duplicates included).
- The code never checks the weights and divides by their total, so `ScoreTranscript`
  requires a positive total weight. The bounds on the overall score also need every weight
  to be non-negative.

## Model

| member | source | states |
|---|---|---|
| Text.Strip | backend/scoring.py:67 | the result is no longer than the input, neither starts nor ends with whitespace, and is empty exactly when the input is all whitespace |
| Text.StripShape | backend/scoring.py:67 | the input is a whitespace-only prefix, then the stripped text, then a whitespace-only suffix |
| Text.StripLeft | backend/scoring.py:33 | the left half of `strip()` (lines 33 and 67): the result is a suffix of the input, everything dropped is whitespace, and the result does not start with whitespace |
| Text.StripRight | backend/scoring.py:33 | the right half of `strip()` (lines 33 and 67): the result is a prefix of the input, everything dropped is whitespace, and the result does not end with whitespace |
| Text.Fields | backend/scoring.py:33 | `split(",")` yields at least one field, no field holds the separator, and joining the fields with the separator gives the input back |
| Text.FieldsOfJoin | backend/scoring.py:33 | splitting a join of separator-free parts returns exactly those parts |
| Text.FieldsOfConcat | backend/scoring.py:33 | the fields of `a,b` are the fields of `a` followed by the fields of `b` |
| Text.Words | backend/scoring.py:56 | every item of `split()` is a non-empty run of non-whitespace characters |
| Text.WordsAfterSpace | backend/scoring.py:56 | whitespace in front of a text does not change its `split()` words |
| Text.WordsOfWordThen | backend/scoring.py:56 | a word followed by whitespace or by nothing is the first item of `split()`, followed by the words of the rest; with `Text.WordsAfterSpace` and the empty string giving no words, this fixes `split()` on every string, runs of several whitespace characters included |
| Text.WordsOfJoin | backend/scoring.py:56 | splitting words joined by single spaces returns exactly those words |
| Text.WordsOfStrip | backend/scoring.py:67 | stripping a transcript does not change its words, so the word count of the stripped text equals that of the original |
| Text.ContainsIffOccurs | backend/scoring.py:42 | the `in` test answers true exactly when the needle occurs as a contiguous piece of the text |
| Text.NatToString | backend/scoring.py:61 | the bound in a message is rendered as decimal digits with no leading zero |
| Text.ParseNatToString | backend/scoring.py:61 | the rendered digits read back as the same number |
| Rubric.CleanToken | backend/scoring.py:33 | a piece of the cell gives no keyword exactly when it is all whitespace; otherwise it gives a non-empty, trimmed, lower-case keyword |
| Rubric.ParseKeywords | backend/scoring.py:33 | every parsed keyword is non-empty, has no leading or trailing whitespace, and has no upper-case letter |
| Rubric.ParseKeywordsConcat | backend/scoring.py:33 | parsing keeps source order: the keywords of `a,b` are those of `a` followed by those of `b` |
| Rubric.ParseKeywordsSingle | backend/scoring.py:33 | a comma-free cell yields nothing when blank, otherwise its trimmed and lower-cased text |
| Rubric.ParseKeywordsOfJoin | backend/scoring.py:33 | writing clean keywords into a comma-separated cell and parsing it returns the same keywords |
| FeatureScorers.Found | backend/scoring.py:42 | a keyword is among the found ones exactly when it is listed and occurs case-insensitively; all are found exactly when every keyword matches, none exactly when no keyword matches |
| FeatureScorers.FoundAppend | backend/scoring.py:42 | the found keywords keep the order of the keyword list |
| FeatureScorers.KeywordScore | backend/scoring.py:40-45 | the found keywords are exactly the in-order, duplicate-keeping filter `Found` of the list; the score is 1.0 with nothing found for an empty keyword list, otherwise found/listed; it lies in [0, 1], it is 1.0 exactly when every keyword matches, and it is 0 exactly when the list is non-empty and nothing matches |
| FeatureScorers.KeywordScoreMonotone | backend/scoring.py:40-45 | a transcript that contains another scores at least as high on the same keywords |
| FeatureScorers.Normalize | backend/scoring.py:53 | the remapped similarity lies in [0, 1]; it equals (sim+1)/2 for sim in [-1, 1], and it is clamped to 0 or 1 outside that range |
| FeatureScorers.NormalizeMonotone | backend/scoring.py:53 | the remapped similarity never decreases as the similarity grows |
| FeatureScorers.SemanticScore | backend/scoring.py:47-53 | the score is exactly 0.5 without a model or with an empty description, otherwise the remapped similarity, and always in [0, 1] |
| FeatureScorers.LengthScore | backend/scoring.py:55-64 | the count is the number of `split()` words; the score is one of 0.3, 0.4 and 1.0; 0.3 exactly when a minimum is set and not met, whatever the maximum; 0.4 exactly when the minimum is met and a set maximum is exceeded; 1.0 exactly when the count meets every set bound inclusively; "Length OK" exactly when 1.0; the penalty messages name the violated bound |
| FeatureScorers.ZeroBoundIsNoBound | backend/scoring.py:58-62 | a minimum or maximum of 0 gives the same verdict as an absent one |
| FeatureScorers.MessagesNameBound | backend/scoring.py:61-63 | each penalty message has its fixed prefix and ends with the bound's digits and a closing parenthesis, and the bound reads back from those digits |
| Aggregation.Combined | backend/scoring.py:78 | the blend lies in [0.06, 1]; it is 1 exactly when all three feature scores are 1; without a semantic comparison it lies in [0.26, 0.8] |
| Aggregation.Evaluate | backend/scoring.py:73-87 | a result line copies name and metric from the criterion, carries the length scorer's message as its feedback, and reports the blend as a percentage in [6, 100] |
| Aggregation.EvaluateAll | backend/scoring.py:72-87 | there is one result line per criterion, in catalog order |
| Aggregation.AccumulateWeighted | backend/scoring.py:79 | the running sum of score·weight over the loop equals the weighted sum |
| Aggregation.WeightedSumBetween | backend/scoring.py:79 | with non-negative weights, the weighted sum lies between lo·Σw and hi·Σw for any bounds lo, hi of the values |
| Aggregation.WeightedMeanBetween | backend/scoring.py:89 | with non-negative weights and a positive total, weighted sum / total weight lies within any bounds of the values |
| Aggregation.UniformMeanIsAverage | backend/scoring.py:89 | with one common positive weight, the weighted mean is the arithmetic mean |
| Aggregation.OverallScore | backend/scoring.py:69-89 | with non-negative weights the overall percentage lies in [6, 100] |
| Aggregation.OverallBetweenExtremes | backend/scoring.py:89 | with non-negative weights, the overall score lies between the lowest and the highest per-criterion combined value, times 100 |
| Aggregation.EqualWeightsGiveMean | backend/scoring.py:69-89 | with equal positive weights, the overall score is 100 times the plain mean of the combined values |
| Aggregation.ScoreTranscript | backend/scoring.py:66-95 | one result line per criterion in catalog order, each as `Evaluate` describes and in [6, 100]; the word count is that of the unstripped transcript; the overall score is the weighted mean of the combined values as a percentage |

## Left out

- CSV loading through pandas (backend/scoring.py:21-38, except the keywords expression at
  line 33). The engine receives an already-built catalog. This covers reading the file, the
  NaN test for missing bounds, `float()` and `int()` conversions, and a blank keywords cell
  that `str(NaN)` turns into the keyword "nan". That is file I/O and floating point.
- Negative word bounds, which `int()` could produce: bounds are `nat`.
- The SentenceTransformer model and cosine similarity (backend/scoring.py:7-11, 50-52):
  a foreign ML library. It is the `Similarity` function parameter instead.
- The VADER sentiment analyser (backend/scoring.py:13-17): it is loaded but never used in
  scoring.
- `round(..., 2)` (backend/scoring.py:85, 89) and binary floating point: all scores are
  exact reals.
- The `duration_sec` argument (backend/scoring.py:66): it is accepted and has no effect.
- Unicode case mapping: `Text.Lower` maps only A-Z. Python's `lower()` also maps non-ASCII
  letters.
- Aggregation.OverallScore: the [6, 100] bound is stated only for non-negative weights. The
  source does not reject negative weights, and with them only the formula holds.
- backend/app.py (Flask routing, configuration, the HTTP 400 for an empty transcript) and
  static/script.js (browser UI): request and page plumbing around the engine.
