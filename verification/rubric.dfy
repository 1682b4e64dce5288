/**
 * The criterion catalog: one record per rubric row, and the parser for the
 * comma-separated keywords cell.
 */
module Rubric {
  import opened Wrappers
  import opened Text

  /**
   * One rubric row. Word bounds follow the source's truthiness: `None` and
   * `Some(0)` both mean "no bound".
   */
  datatype Criterion = Criterion(
    id: string,
    name: string,
    metric: string,
    description: string,
    keywords: seq<string>,
    weight: real,
    minWords: Option<nat>,
    maxWords: Option<nat>
  )

  /** A token the keyword parser can produce: non-empty, trimmed, lower case. */
  predicate IsKeyword(k: string) {
    && |k| > 0
    && !IsSpace(k[0])
    && !IsSpace(k[|k| - 1])
    && NoUpper(k)
  }

  /** One piece of the cell, trimmed and lower-cased; blank pieces give nothing. */
  function CleanToken(piece: string): (k: Option<string>)
    ensures k.None? <==> AllSpace(piece)
    ensures k.Some? ==> IsKeyword(k.value)
  {
    var t := Strip(piece);
    LowerNormalizes(t);
    if t == "" then None else Some(Lower(t))
  }

  /** Trim, lower-case and drop blank pieces, keeping the order of the pieces. */
  function CleanTokens(pieces: seq<string>): (ks: seq<string>)
    ensures |ks| <= |pieces|
    ensures forall i :: 0 <= i < |ks| ==> IsKeyword(ks[i])
  {
    if |pieces| == 0 then []
    else
      var rest := CleanTokens(pieces[1..]);
      var token := CleanToken(pieces[0]);
      if token.None? then rest else [token.value] + rest
  }

  /** The keywords cell: split on commas, then trim, lower-case and drop blanks. */
  function ParseKeywords(cell: string): (ks: seq<string>)
    ensures forall i :: 0 <= i < |ks| ==> IsKeyword(ks[i])
  {
    CleanTokens(Fields(cell, ','))
  }

  lemma {:induction false} CleanTokensAppend(a: seq<string>, b: seq<string>)
    ensures CleanTokens(a + b) == CleanTokens(a) + CleanTokens(b)
  {
    if |a| == 0 {
      assert a + b == b;
    } else {
      assert (a + b)[1..] == a[1..] + b;
      CleanTokensAppend(a[1..], b);
    }
  }

  /**
   * Order is kept: the keywords of `a,b` are the keywords of `a` followed by
   * the keywords of `b`.
   */
  lemma ParseKeywordsConcat(a: string, b: string)
    ensures ParseKeywords(a + [','] + b) == ParseKeywords(a) + ParseKeywords(b)
  {
    FieldsOfConcat(a, b, ',');
    CleanTokensAppend(Fields(a, ','), Fields(b, ','));
  }

  /** A cell without commas yields its trimmed, lower-cased text, or nothing when blank. */
  lemma ParseKeywordsSingle(cell: string)
    requires ',' !in cell
    ensures AllSpace(cell) ==> ParseKeywords(cell) == []
    ensures !AllSpace(cell) ==> ParseKeywords(cell) == [Lower(Strip(cell))]
  {
    FieldsOfPlain(cell, ',');
  }

  lemma {:induction false} CleanTokensOfKeywords(ks: seq<string>)
    requires forall i :: 0 <= i < |ks| ==> IsKeyword(ks[i])
    ensures CleanTokens(ks) == ks
  {
    if |ks| > 0 {
      StripOfTrimmed(ks[0]);
      LowerNormalizes(ks[0]);
      assert !AllSpace(ks[0]) by { assert !IsSpace(ks[0][0]); }
      CleanTokensOfKeywords(ks[1..]);
    }
  }

  /** Round trip: writing keywords back into a comma-separated cell and parsing it gives them back. */
  lemma ParseKeywordsOfJoin(ks: seq<string>)
    requires forall i :: 0 <= i < |ks| ==> IsKeyword(ks[i]) && ',' !in ks[i]
    ensures ParseKeywords(Join(ks, ',')) == ks
  {
    if |ks| == 0 {
      assert Fields("", ',') == [""];
    } else {
      FieldsOfJoin(ks, ',');
      CleanTokensOfKeywords(ks);
    }
  }
}
