# 1on1checker scoring engine in Dafny

1on1checker scores one manager–employee conversation transcript for the employee's
"flight risk". It scores three things with lexical heuristics, each on a 0–100 scale:

- **sentiment tone**: the share of tokens that contain a negative word;
- **engagement volume**: how much the employee speaks, how long their tokens are, and how
  often they hesitate;
- **job-search intent**: how often job-search words occur.

A weighted sum rounds these to one integer score, and the score then falls into one of
three risk tiers.

This project models that engine in `script.js`:

- tokenising;
- attributing lines to the employee by their name tag;
- the three extractors;
- the aggregator;
- the tier rule;
- the input checks of the click handler.

It proves what each part computes. Each built-in is tied to an independent
statement of what it returns:

- `trim` returns the middle of a string between two runs of white space;
- `split(/\s+/)` rebuilds its input when its pieces are put back with non-empty runs of
  white space between them;
- `filter` keeps each passing element as often as it occurs, in order;
- the global match count is the largest number of disjoint matches.

Modules, one per component:

- `Text` (`text.dfy`) holds the JavaScript string built-ins the engine relies on, with
  their exact semantics:
  - the white-space class `\s` and `trim`, with the full set of characters, including the
    ideographic space U+3000;
  - `split(/\s+/)`, which always returns at least one piece, and keeps an empty first or
    last piece when the string starts or ends with white space;
  - `split('\n')`, `filter` and `join`;
  - `includes`;
  - the number of matches of a global regular expression built from a literal word. These
    matches are found left to right and never overlap.
- `Lexicon` (`lexicons.dfy`) holds the four fixed word lists as injected data. The filler
  and job-search entries are turned into regular expressions, so a lemma proves that they
  are valid: every entry is non-empty and contains no regex syntax character. The positive
  and negative entries only reach `includes`, which takes any string.
- `Arith` (`arith.dfy`) holds facts about exact rational arithmetic. They restate the
  engine's ratio thresholds over integers.
- `Sentiment` (`sentiment.dfy`) is the one-pass counting loop, proved against the
  specification function `SentimentOf`.
- `Engagement` (`engagement.dfy`) covers speaker attribution, the integer form of the
  threshold bonuses, and the extractor proved against `EngagementOf`.
- `JobSearch` (`jobsearch.dfy`) is the accumulation loop, proved against `JobSearchOf`.
- `Scoring` (`scoring.dfy`) covers rounding, the weighted score, the tier rule, and the
  click handler `Analyze`.

Behaviour of the code that the model keeps:

- **The speaker pattern matches letters `s`, not spaces.** The pattern
  `` `^${employeeName}[:：]\s*` `` is a template literal, and in a template literal `\s` is
  just `s`. So the pattern that runs is `^name[:：]s*`. The comment at script.js:77 says it
  matches the colon and the spaces after it, but as written it removes the letters `s`
  after the colon: `Tanaka:sure` becomes `ure` (`LetterSAfterColonIsStripped`).
- **The test and the strip see different strings.** Lines are selected on their trimmed
  form (script.js:80), but the tag is removed from the untrimmed line (script.js:86). So an
  indented employee line keeps its tag in the utterance (`StripKeepsIndentedTag`), and an
  unindented one loses it (`StripRemovesTag`).
- **No division has a zero denominator.** `split(/\s+/)` always returns at least one piece,
  so no explicit zero-token fallback is needed (script.js:63, 93, 97).
- **The filler threshold is a strict `>`.** The comment at script.js:103 says "5% or more",
  but the code tests `fillerRate > 5`, and the model follows the code.
- **Every occurrence count is per entry.** `えーっと` counts once as `えーっと` and once as
  `えー` (`FillerEntriesCountSeparately`).

Numbers are exact. The sentiment score and the three engagement rates are `real`
(rationals). The engagement, job-search and final scores are integers, and `Math.round(x)`
is `(x + 0.5).Floor`. The thresholds are proved equal to these integer forms:

- `speechRatio < 30` ⇔ `10k < 3n`;
- `avgTokenLength < 10` ⇔ `chars < 10w`;
- `fillerRate > 5` ⇔ `20f > w`.

## Model

| member | source | states |
|---|---|---|
| `Text.Trim` | script.js:24-25 | the result has no white space at either end; it is empty exactly when the input is all white space; an already trimmed string is unchanged; a string without leading white space keeps a prefix of itself |
| `Text.TrimIsMiddle` | script.js:24-25 | the input is a run of white space, then the result, then a run of white space |
| `Text.SplitWhitespace` | script.js:53 | `split(/\s+/)` returns at least one piece and no piece contains white space |
| `Text.SplitWhitespaceRebuild` | script.js:53 | putting a non-empty run of white space between each two pieces gives back the string, so the cuts are exactly at the runs |
| `Text.SplitWhitespaceFirst` | script.js:53 | the first piece is empty exactly when the string is empty or starts with white space |
| `Text.SplitWhitespaceLast` | script.js:53 | the last piece is empty exactly when the string is empty or ends with white space |
| `Text.SplitWhitespaceInner` | script.js:53 | every piece other than the first and the last is non-empty |
| `Text.SplitWhitespaceConcat` | script.js:93 | joining the pieces with `''` gives exactly the non-white-space characters of the string |
| `Text.SplitTrimmedPiecesNonEmpty` | script.js:25 | a trimmed non-empty transcript splits into non-empty tokens only |
| `Text.SplitWhitespacePieceContains` | script.js:53-59 | any word contained in a token is contained in the text |
| `Text.SplitOn` | script.js:75 | `split('\n')` returns at least one piece and no piece contains the separator |
| `Text.Join` | script.js:86-93 | `join`: the result starts with the first piece; it is pinned further by `SplitOnJoin` (with `'\n'`) and `SplitWhitespaceConcat` (with `''`) |
| `Text.Contains` | script.js:58-59 | definition of `includes`, an occurrence at some position; it never holds of a word longer than the text, and `SplitWhitespacePieceContains` and `CountOccurrences` tie it to the tokens and the match count |
| `Text.SplitOnJoin` | script.js:75 | joining the pieces of `split('\n')` with `'\n'` gives back the text (round trip) |
| `Text.Filter` | script.js:75 | `filter` keeps only elements that satisfy the test and never lengthens the sequence |
| `Text.FilterCounts` | script.js:75-80 | each element that passes the test is kept exactly as often as it occurs in the input; one that fails is never kept |
| `Text.FilterMembers` | script.js:75-80 | an element is kept exactly when it is in the input and passes the test |
| `Text.FilterAppend` | script.js:75-80 | filtering a concatenation filters each part and keeps their order |
| `Text.CountOccurrences` | script.js:123 | the non-overlapping match count times the word length is at most the text length; the count is zero exactly when the text does not include the word |
| `Text.CountOccurrencesAttained` | script.js:123 | the left-to-right scan finds as many pairwise disjoint matches as its count |
| `Text.CountOccurrencesMaximal` | script.js:123 | no list of pairwise disjoint matches is longer than the count |
| `Text.MatchesDoNotOverlap` | script.js:123 | `aaa` holds one match of `aa`, not two |
| `Text.SumOccurrences` | script.js:96 | the summed per-entry counts are zero exactly when no entry occurs in the text |
| `Lexicon.ListSizes` | script.js:12-19 | the constants `Positive`, `Negative`, `Filler` and `JobSearch` are the four lists entry for entry; the lemma fixes their sizes (15, 17, 21 and 9 words) and shows that no filler or job-search word repeats |
| `Lexicon.DefaultValid` | script.js:16-19 | every entry of the filler and job-search lists is non-empty and free of regex syntax characters |
| `Arith.MinReal` | script.js:63 | `Math.min` returns one of its arguments and is no larger than either |
| `Sentiment.ContainsAny` | script.js:58-59 | definition of `lex.some(p => token.includes(p))`; `TokensMatchingZero` and `TokensMatchingAll` relate it to the counts |
| `Sentiment.SentimentOf` | script.js:52-72 | specification function of the sentiment extractor: a score in [0, 100] and counts of at most one per token; `SentimentFeatures` is proved equal to it, and `SentimentScoreExtremes` and `SentimentZeroWithoutNegatives` pin its score |
| `Sentiment.TokensMatching` | script.js:57-60 | the number of tokens counted for a word list never exceeds the number of tokens |
| `Sentiment.SentimentScore` | script.js:63 | the density score lies in [0, 100] |
| `Sentiment.SentimentFeatures` | script.js:52-72 | the counting loop yields `SentimentOf`: the per-token positive and negative counts (each at most the token count) and the score `min(100, 1000·neg/tokens)` in [0, 100] |
| `Sentiment.DensityScale` | script.js:63 | `(neg / (tokens/100)) * 10` equals `1000·neg/tokens` |
| `Sentiment.TokensMatchingZero` | script.js:57-60 | no token is counted exactly when no token contains an entry |
| `Sentiment.TokensMatchingAll` | script.js:57-60 | every token is counted exactly when every token contains an entry |
| `Sentiment.SentimentScoreExtremes` | script.js:63 | the score is 100 exactly when at least one token in ten is negative, and 0 exactly when none is |
| `Sentiment.SentimentZeroWithoutNegatives` | script.js:53-63 | a transcript in which no negative entry occurs scores 0, whatever positive words it holds |
| `Engagement.HasSpeakerTag` | script.js:78-80 | definition of the test of `^name[:：]s*`: the name, then a colon; pinned by `EmployeeLineIffTagged` |
| `Engagement.IsEmployeeLine` | script.js:80 | definition of the line filter, the tag test on the trimmed line; pinned by `EmployeeLineIffTagged` and `PrefixedNameIsNotTheEmployee` |
| `Engagement.StripSpeakerTag` | script.js:86 | `line.replace(pattern, '').trim()`, with the pattern applied to the untrimmed line: the result is trimmed and no longer than the line; it is pinned further by `StripRemovesTag`, `StripKeepsIndentedTag`, `LetterSAfterColonIsStripped` and `BareTagGivesEmptyToken` |
| `Engagement.Lines` | script.js:75 | the non-blank lines, `split('\n')` filtered by `trim`: at most one per piece, none all white space; it is pinned further by `SplitOnJoin` and the `Filter` lemmas |
| `Engagement.EmployeeLines` | script.js:80 | the employee's lines: at most as many as the lines given, each one tagged with the name; it is pinned further by `EmployeeLinesAreLines` |
| `Engagement.EmployeeText` | script.js:86 | definition of the stripped employee lines joined with `' '`; `BareTagGivesEmptyToken` and `MeasuredBranch` state what its tokens give |
| `Engagement.Measured` | script.js:89-104 | specification function of the measured branch: integer bonuses and exact rates; `ScoreEngagement` is proved equal to it, and `SpeechRatioBounds` bounds its ratio |
| `Engagement.EngagementOf` | script.js:74-115 | specification function of the engagement extractor; `EngagementFeatures` is proved equal to it, and `NotFoundFallback`, `MeasuredBranch` and `ExtractorSpeechRatioBounds` state its two branches |
| `Engagement.LeadingLetterS` | script.js:78 | the `s*` of the pattern covers a maximal run of letters `s` |
| `Engagement.EngagementScore` | script.js:100-104 | the bonus sum is one of 0, 20, 30, 50, 60, 80, so the cap at 100 never changes it |
| `Engagement.EngagementFeatures` | script.js:74-115 | the extractor yields `EngagementOf`; it reports "speaker not found" exactly when no line is the employee's |
| `Engagement.ScoreEngagement` | script.js:89-104 | the rates computed as quotients and the score built by `+=` and `Math.min` equal the integer-threshold bonuses and the exact rates |
| `Engagement.NotFoundFallback` | script.js:82-84 | the result is exactly score 50 with the single "not found" detail if and only if no line is the employee's |
| `Engagement.SpeechRatioBounds` | script.js:90 | with at least one employee line among the lines, the speech ratio lies in (0, 100] |
| `Engagement.ExtractorSpeechRatioBounds` | script.js:89-90 | when the employee speaks, the extractor reports a speech ratio in (0, 100] |
| `Engagement.MeasuredBranch` | script.js:86-97 | when the employee speaks, the result is the measured one for their line count, the line count, their non-white-space character count, their token count (at least one) and their filler count |
| `Engagement.EmployeeLineIffTagged` | script.js:78-80 | a line is the employee's exactly when its trimmed form starts with the name followed by `:` or `：` |
| `Engagement.StripRemovesTag` | script.js:86 | an unindented employee line is matched untrimmed too, and loses its name, colon and following letters `s` |
| `Engagement.StripKeepsIndentedTag` | script.js:80-86 | an indented line is not matched by the anchored pattern, so it is only trimmed and keeps its tag |
| `Engagement.EmployeeLinesAreLines` | script.js:75-80 | a line is among the employee's lines exactly when it is a non-blank line attributed to them, and they are no more numerous than the non-blank lines |
| `Engagement.PrefixedNameIsNotTheEmployee` | script.js:78-80 | `XTanaka: hi` is not attributed to `Tanaka` |
| `Engagement.LetterSAfterColonIsStripped` | script.js:78-86 | `Tanaka:sure` contributes the utterance `ure` |
| `Engagement.BareTagGivesEmptyToken` | script.js:86-87 | a bare `name:` line followed by more lines makes the first token of the employee text empty, and that token counts |
| `Engagement.FillerEntriesCountSeparately` | script.js:96 | `えーっと` brings two filler occurrences, one for `えー` and one for `えーっと` |
| `JobSearch.JobSearchScore` | script.js:128 | the score is a multiple of 20 in [0, 100]; it is 100 exactly when the count is at least 5, and 20 per occurrence below that; it is 0 exactly when the count is 0 |
| `JobSearch.JobSearchOf` | script.js:117-137 | specification function of the job-search extractor: a score in [0, 100] that is 0 exactly when no term matches; `JobSearchFeatures` is proved equal to it, and `MoreTermsScoreHigher` orders it |
| `JobSearch.JobSearchFeatures` | script.js:117-137 | the guarded accumulation loop yields `JobSearchOf`, the un-guarded sum of per-term counts; the score is 0 exactly when no term occurs |
| `JobSearch.MoreTermsScoreHigher` | script.js:121-128 | adding a term to the list never lowers the score |
| `Scoring.Round` | script.js:142 | `Math.round` returns the integer within one half of its argument, rounding halves up |
| `Scoring.FinalScore` | script.js:139-143 | the final score is within one half of `0.6S + 0.2E + 0.2J`, and lies in [0, 100] when every sub-score does |
| `Scoring.FinalScoreMonotone` | script.js:141-142 | raising any sub-score never lowers the final score |
| `Scoring.FinalScoreExamples` | script.js:139-143 | (50, 50, 50) gives 50 and (100, 0, 0) gives 60 |
| `Scoring.Tier` | script.js:150-155 | the score falls in exactly one tier: high from 70, medium from 40 below 70, low below 40 |
| `Scoring.TierMonotone` | script.js:150-155 | a higher score never falls in a lower tier |
| `Scoring.AnalysisOf` | script.js:37-46 | specification function of one analysis: the three extractors and `FinalScore`; `Analyze` is proved equal to it, and `AnalysisInRange` bounds it |
| `Scoring.AnalysisInRange` | script.js:37-46 | every sub-score and the final score of an analysis lie in [0, 100] |
| `Scoring.Analyze` | script.js:23-46 | an empty trimmed name is rejected first, then an empty trimmed transcript; otherwise the analysis of the trimmed inputs is returned, with a final score in [0, 100] |

## Left out

- DOM lookups, the click listener and the `alert` messages (script.js:1-7, 21-34) are I/O.
  The model keeps only the trimming and the two emptiness checks, as the error results of
  `Analyze`.
- Rendering in `displayResults` (script.js:145-175) is presentation. Only the tier
  thresholds of the colour choice are modelled, as `Tier`.
- Feature labels and `toFixed` formatting (script.js:65-69, 83, 106-113, 130-135, 165) are
  display strings. Details are numeric fields, and the "not found" detail carries the name.
- IEEE-754 floating point is replaced by exact rationals. Rounding artefacts of `0.6 * S`
  and the like are not reproduced.
- `EngagementFeatures`, `Analyze`: they require the employee name to contain no regex
  metacharacter. The name is put into `new RegExp` unescaped, and the model treats the
  pattern as a literal prefix.
- String length counts one `char` per UTF-16 code unit. Characters outside the Basic
  Multilingual Plane, which JavaScript counts as two units, are not modelled.
- Filler and job-search entries must be non-empty. An empty entry would make the global
  match count `length + 1`, and no list of the source has one.
- The unused `words` variable of the job-search extractor (script.js:118) is left out.
