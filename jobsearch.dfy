/** Job-search intent: how often job-search words occur in the transcript. */
module JobSearch {
  import opened Text

  datatype JobSearchResult = JobSearchResult(score: int, keywordCount: nat)

  /** `Math.min(100, keywordCount * 20)`: twenty points per occurrence. */
  function JobSearchScore(keywordCount: nat): (score: int)
    ensures 0 <= score <= 100 && score % 20 == 0
    ensures score == 100 <==> keywordCount >= 5
    ensures keywordCount < 5 ==> score == 20 * keywordCount
    ensures score == 0 <==> keywordCount == 0
  {
    if 100 <= keywordCount * 20 then 100 else keywordCount * 20
  }

  /** What the job-search extractor computes for `text`. */
  function JobSearchOf(text: string, terms: seq<string>): (r: JobSearchResult)
    requires NonEmptyEntries(terms)
    ensures 0 <= r.score <= 100
    ensures r.score == 0 <==> r.keywordCount == 0
  {
    var keywordCount := SumOccurrences(text, terms);
    JobSearchResult(JobSearchScore(keywordCount), keywordCount)
  }

  /** The accumulation loop of `calculateJobSearchFeatures`: for each term that the text
      includes, add the number of its matches. */
  method JobSearchFeatures(text: string, terms: seq<string>) returns (r: JobSearchResult)
    requires NonEmptyEntries(terms)
    ensures r == JobSearchOf(text, terms)
    ensures r.score == 0 <==> forall k :: 0 <= k < |terms| ==> !Contains(text, terms[k])
  {
    var keywordCount := 0;
    for i := 0 to |terms|
      invariant NonEmptyEntries(terms[..i])
      invariant keywordCount == SumOccurrences(text, terms[..i])
    {
      assert terms[..i + 1][..i] == terms[..i];
      if Contains(text, terms[i]) {
        keywordCount := keywordCount + CountOccurrences(text, terms[i]);
      }
    }
    assert terms[..|terms|] == terms;
    r := JobSearchResult(JobSearchScore(keywordCount), keywordCount);
  }

  /** Adding a term never lowers the score. */
  lemma {:induction false} MoreTermsScoreHigher(text: string, terms: seq<string>, extra: string)
    requires NonEmptyEntries(terms) && extra != []
    ensures NonEmptyEntries(terms + [extra])
    ensures JobSearchOf(text, terms).score <= JobSearchOf(text, terms + [extra]).score
  {
    var all := terms + [extra];
    assert all[..|all| - 1] == terms;
  }
}
