/** The weighted aggregate of the three sub-scores, the risk tier it falls
    in, and one analysis of a transcript from the two raw form inputs. */
module Scoring {
  import opened Text
  import opened Lexicon
  import opened Sentiment
  import opened Engagement
  import opened JobSearch

  /** `Math.round(x)`: the nearest integer, halves rounded up. */
  function Round(x: real): (r: int)
    ensures r as real - 0.5 <= x < r as real + 0.5
  {
    (x + 0.5).Floor
  }

  /** `Math.round(0.6 S + 0.2 E + 0.2 J)`. */
  function FinalScore(sentiment: real, engagement: int, jobSearch: int): (r: int)
    ensures var x := 0.6 * sentiment + 0.2 * engagement as real + 0.2 * jobSearch as real;
            r as real - 0.5 <= x < r as real + 0.5
    ensures 0.0 <= sentiment <= 100.0 && 0 <= engagement <= 100 && 0 <= jobSearch <= 100
            ==> 0 <= r <= 100
  {
    Round(0.6 * sentiment + 0.2 * engagement as real + 0.2 * jobSearch as real)
  }

  /** A higher sub-score never lowers the final score. */
  lemma FinalScoreMonotone(s: real, e: int, j: int, s': real, e': int, j': int)
    requires s <= s' && e <= e' && j <= j'
    ensures FinalScore(s, e, j) <= FinalScore(s', e', j')
  {
  }

  lemma FinalScoreExamples()
    ensures FinalScore(50.0, 50, 50) == 50
    ensures FinalScore(100.0, 0, 0) == 60
  {
  }

  datatype RiskTier = Low | Medium | High

  /** The colour band of the score display. */
  function Tier(finalScore: int): (t: RiskTier)
    ensures t == High <==> finalScore >= 70
    ensures t == Medium <==> 40 <= finalScore < 70
    ensures t == Low <==> finalScore < 40
  {
    if finalScore >= 70 then High
    else if finalScore >= 40 then Medium
    else Low
  }

  function TierRank(t: RiskTier): nat
  {
    match t
    case Low => 0
    case Medium => 1
    case High => 2
  }

  /** A higher score never falls in a lower tier. */
  lemma TierMonotone(a: int, b: int)
    requires a <= b
    ensures TierRank(Tier(a)) <= TierRank(Tier(b))
  {
  }

  // ---------------------------------------------------------------------
  // One analysis

  datatype InputError = MissingEmployeeName | MissingTranscript

  datatype Result<T> = Ok(value: T) | Err(error: InputError)

  datatype Analysis = Analysis(
    finalScore: int,
    sentiment: SentimentResult,
    engagement: EngagementResult,
    jobSearch: JobSearchResult)

  /** What one analysis of a trimmed transcript yields. */
  function AnalysisOf(name: string, text: string, lex: Lexicons): Analysis
    requires Valid(lex)
  {
    var s := SentimentOf(text, lex.positive, lex.negative);
    var e := EngagementOf(text, name, lex.filler);
    var j := JobSearchOf(text, lex.jobSearch);
    Analysis(FinalScore(s.score, e.score, j.score), s, e, j)
  }

  /** Every sub-score and the final score lie in [0, 100]. */
  lemma AnalysisInRange(name: string, text: string, lex: Lexicons)
    requires Valid(lex)
    ensures var a := AnalysisOf(name, text, lex);
            0.0 <= a.sentiment.score <= 100.0 && 0 <= a.engagement.score <= 100
            && 0 <= a.jobSearch.score <= 100 && 0 <= a.finalScore <= 100
  {
  }

  /** The click handler: trim both inputs, reject an empty name and then an
      empty transcript, otherwise run the three extractors and combine them. */
  method Analyze(employeeNameInput: string, transcriptInput: string, lex: Lexicons)
    returns (r: Result<Analysis>)
    requires Valid(lex) && IsRegexLiteral(Trim(employeeNameInput))
    ensures Trim(employeeNameInput) == [] ==> r == Err(MissingEmployeeName)
    ensures Trim(employeeNameInput) != [] && Trim(transcriptInput) == [] ==> r == Err(MissingTranscript)
    ensures r.Ok? <==> Trim(employeeNameInput) != [] && Trim(transcriptInput) != []
    ensures r.Ok? ==> r.value == AnalysisOf(Trim(employeeNameInput), Trim(transcriptInput), lex)
    ensures r.Ok? ==> 0 <= r.value.finalScore <= 100
  {
    var employeeName := Trim(employeeNameInput);
    var text := Trim(transcriptInput);
    if employeeName == [] {
      return Err(MissingEmployeeName);
    }
    if text == [] {
      return Err(MissingTranscript);
    }
    var sentimentResult := SentimentFeatures(text, lex.positive, lex.negative);
    var engagementResult := EngagementFeatures(text, employeeName, lex.filler);
    var jobSearchResult := JobSearchFeatures(text, lex.jobSearch);
    var finalScore := FinalScore(sentimentResult.score, engagementResult.score, jobSearchResult.score);
    r := Ok(Analysis(finalScore, sentimentResult, engagementResult, jobSearchResult));
  }
}
