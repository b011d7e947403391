/** Sentiment tone: the share of whitespace-separated tokens that contain a
    negative word, scaled so that one such token in ten gives the maximum. */
module Sentiment {
  import opened Text
  import opened Arith

  datatype SentimentResult = SentimentResult(score: real, positiveCount: nat, negativeCount: nat)

  /** `lex.some(p => token.includes(p))`. */
  predicate ContainsAny(token: string, lex: seq<string>)
  {
    exists k :: 0 <= k < |lex| && Contains(token, lex[k])
  }

  /** The number of tokens that contain at least one entry of `lex`; a token
      counts once however many entries it contains. */
  function TokensMatching(tokens: seq<string>, lex: seq<string>): (n: nat)
    ensures n <= |tokens|
  {
    if tokens == [] then 0
    else
      TokensMatching(tokens[..|tokens| - 1], lex)
      + (if ContainsAny(tokens[|tokens| - 1], lex) then 1 else 0)
  }

  /** The score for `negativeCount` negative tokens out of `tokenCount`:
      ten points per negative token in every hundred, at most 100. */
  function SentimentScore(negativeCount: nat, tokenCount: nat): (score: real)
    requires tokenCount > 0
    ensures 0.0 <= score <= 100.0
  {
    MinReal(100.0, (1000 * negativeCount) as real / tokenCount as real)
  }

  /** What the sentiment extractor computes for `text`. */
  function SentimentOf(text: string, positive: seq<string>, negative: seq<string>): (r: SentimentResult)
    ensures 0.0 <= r.score <= 100.0
    ensures r.positiveCount <= |SplitWhitespace(text)| && r.negativeCount <= |SplitWhitespace(text)|
  {
    var tokens := SplitWhitespace(text);
    var negativeCount := TokensMatching(tokens, negative);
    SentimentResult(SentimentScore(negativeCount, |tokens|),
                    TokensMatching(tokens, positive), negativeCount)
  }

  /** The counting loop of `calculateSentimentFeatures`: one pass over the tokens that
      bumps two counters, then the density formula. */
  method SentimentFeatures(text: string, positive: seq<string>, negative: seq<string>)
    returns (r: SentimentResult)
    ensures r == SentimentOf(text, positive, negative)
    ensures r.positiveCount <= |SplitWhitespace(text)| && r.negativeCount <= |SplitWhitespace(text)|
    ensures 0.0 <= r.score <= 100.0
  {
    var words := SplitWhitespace(text);
    var positiveCount, negativeCount := 0, 0;
    for i := 0 to |words|
      invariant positiveCount == TokensMatching(words[..i], positive)
      invariant negativeCount == TokensMatching(words[..i], negative)
    {
      assert words[..i + 1][..i] == words[..i];
      if ContainsAny(words[i], positive) {
        positiveCount := positiveCount + 1;
      }
      if ContainsAny(words[i], negative) {
        negativeCount := negativeCount + 1;
      }
    }
    assert words[..|words|] == words;
    var score := MinReal(100.0, (negativeCount as real / (|words| as real / 100.0)) * 10.0);
    DensityScale(negativeCount, |words|);
    r := SentimentResult(score, positiveCount, negativeCount);
  }

  /** `(a / (n / 100)) * 10` is `1000 a / n`. */
  lemma DensityScale(a: nat, n: nat)
    requires n > 0
    ensures (a as real / (n as real / 100.0)) * 10.0 == (1000 * a) as real / n as real
  {
    var q := n as real / 100.0;
    assert q * 100.0 == n as real;
    var x := a as real / q;
    assert x * q == a as real;
    assert x * 10.0 * n as real == (1000 * a) as real;
  }

  // ---------------------------------------------------------------------
  // Lemmas

  /** No token is counted exactly when no token contains an entry. */
  lemma {:induction false} TokensMatchingZero(tokens: seq<string>, lex: seq<string>)
    ensures TokensMatching(tokens, lex) == 0
            <==> forall k :: 0 <= k < |tokens| ==> !ContainsAny(tokens[k], lex)
  {
    if tokens != [] {
      var init := tokens[..|tokens| - 1];
      TokensMatchingZero(init, lex);
      assert forall k :: 0 <= k < |init| ==> init[k] == tokens[k];
    }
  }

  /** Every token counts exactly when every token contains an entry. */
  lemma {:induction false} TokensMatchingAll(tokens: seq<string>, lex: seq<string>)
    ensures TokensMatching(tokens, lex) == |tokens|
            <==> forall k :: 0 <= k < |tokens| ==> ContainsAny(tokens[k], lex)
  {
    if tokens != [] {
      var init := tokens[..|tokens| - 1];
      TokensMatchingAll(init, lex);
      assert forall k :: 0 <= k < |init| ==> init[k] == tokens[k];
    }
  }

  /** The score is the maximum exactly when at least one token in ten is
      negative, and zero exactly when none is. */
  lemma SentimentScoreExtremes(negativeCount: nat, tokenCount: nat)
    requires tokenCount > 0
    ensures SentimentScore(negativeCount, tokenCount) == 100.0 <==> 10 * negativeCount >= tokenCount
    ensures SentimentScore(negativeCount, tokenCount) == 0.0 <==> negativeCount == 0
  {
    var x, n := (1000 * negativeCount) as real, tokenCount as real;
    DivAtLeast(x, n, 100.0);
    DivZero(x, n);
  }

  /** A transcript in which no negative entry occurs scores 0, whatever
      positive words it holds. */
  lemma SentimentZeroWithoutNegatives(text: string, positive: seq<string>, negative: seq<string>)
    requires forall k :: 0 <= k < |negative| ==> !Contains(text, negative[k])
    ensures SentimentOf(text, positive, negative).score == 0.0
  {
    var tokens := SplitWhitespace(text);
    forall t | 0 <= t < |tokens|
      ensures !ContainsAny(tokens[t], negative)
    {
      if ContainsAny(tokens[t], negative) {
        var k :| 0 <= k < |negative| && Contains(tokens[t], negative[k]);
        SplitWhitespacePieceContains(text, t, negative[k]);
      }
    }
    TokensMatchingZero(tokens, negative);
    SentimentScoreExtremes(0, |tokens|);
  }

}
