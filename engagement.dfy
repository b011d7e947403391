/** Engagement volume: how much of the conversation the employee speaks,
    how long their tokens are and how often they hesitate. Includes speaker
    attribution, which picks the employee's lines by their name tag. */
module Engagement {
  import opened Text
  import opened Arith

  // ---------------------------------------------------------------------
  // Speaker attribution

  /** A half-width or full-width colon. */
  predicate IsColon(c: char)
  {
    c == ':' || c == '：'
  }

  /** The test of the speaker pattern `^name[:：]s*` on `s`: `s` starts with
      `name` and then a colon. The pattern is written in a template literal,
      where `\s` stands for a plain `s`, so the optional tail is a run of
      letters `s`, which never changes whether the pattern matches. */
  predicate HasSpeakerTag(s: string, name: string)
  {
    |s| > |name| && s[..|name|] == name && IsColon(s[|name|])
  }

  /** The number of letters `s` at the front of `t` (the pattern's `s*`). */
  function LeadingLetterS(t: string): (n: nat)
    ensures n <= |t|
    ensures forall k :: 0 <= k < n ==> t[k] == 's'
    ensures n < |t| ==> t[n] != 's'
  {
    if t != [] && t[0] == 's' then 1 + LeadingLetterS(t[1..]) else 0
  }

  /** A line is the employee's when its trimmed form carries their tag. */
  predicate IsEmployeeLine(line: string, name: string)
  {
    HasSpeakerTag(Trim(line), name)
  }

  /** `line.replace(pattern, '').trim()`: the pattern is tried on the line as
      it is, not on its trimmed form, and removes the name, the colon and the
      letters `s` right after it. */
  function StripSpeakerTag(line: string, name: string): (r: string)
    ensures IsTrimmed(r) && |r| <= |line|
  {
    if HasSpeakerTag(line, name) then
      var tail := line[|name| + 1..];
      Trim(tail[LeadingLetterS(tail)..])
    else Trim(line)
  }

  /** `text.split('\n').filter(line => line.trim() !== '')`. */
  function Lines(text: string): (r: seq<string>)
    ensures |r| <= |SplitOn(text, '\n')|
    ensures forall k :: 0 <= k < |r| ==> !AllWhitespace(r[k])
  {
    Filter(SplitOn(text, '\n'), line => Trim(line) != [])
  }

  function EmployeeLines(lines: seq<string>, name: string): (r: seq<string>)
    ensures |r| <= |lines|
    ensures forall k :: 0 <= k < |r| ==> IsEmployeeLine(r[k], name)
  {
    Filter(lines, line => IsEmployeeLine(line, name))
  }

  /** The employee's lines without their tags, joined by single spaces. */
  function EmployeeText(employeeLines: seq<string>, name: string): string
  {
    Join(seq(|employeeLines|, k requires 0 <= k < |employeeLines| => StripSpeakerTag(employeeLines[k], name)), " ")
  }

  // ---------------------------------------------------------------------
  // The extractor

  datatype EngagementDetails =
    | SpeakerNotFound(name: string)
    | Metrics(speechRatio: real, avgTokenLength: real, fillerRate: real)

  datatype EngagementResult = EngagementResult(score: int, details: EngagementDetails)

  /** The threshold bonuses over integers: 30 when the employee has fewer than
      30 lines in 100, 20 when their tokens average under ten characters, 30
      when they use more than five fillers per 100 tokens. */
  function EngagementScore(employeeLines: nat, lines: nat, chars: nat, words: nat, fillers: nat): (score: int)
    ensures score in {0, 20, 30, 50, 60, 80}
    ensures 0 <= score <= 100
  {
    (if 10 * employeeLines < 3 * lines then 30 else 0)
    + (if chars < 10 * words then 20 else 0)
    + (if 20 * fillers > words then 30 else 0)
  }

  /** The result for `employeeLines` of `lines` lines, `words` tokens
      holding `chars` characters and `fillers` filler occurrences: the
      bonuses over integers and the three rates exactly. */
  function Measured(employeeLines: nat, lines: nat, chars: nat, words: nat, fillers: nat): EngagementResult
    requires lines > 0 && words > 0
  {
    EngagementResult(
      EngagementScore(employeeLines, lines, chars, words, fillers),
      Metrics((100 * employeeLines) as real / lines as real,
              chars as real / words as real,
              (100 * fillers) as real / words as real))
  }

  /** What the engagement extractor computes for `text` and `name`. */
  function EngagementOf(text: string, name: string, fillers: seq<string>): EngagementResult
    requires NonEmptyEntries(fillers)
  {
    var lines := Lines(text);
    var mine := EmployeeLines(lines, name);
    if mine == [] then EngagementResult(50, SpeakerNotFound(name))
    else
      var utterance := EmployeeText(mine, name);
      var tokens := SplitWhitespace(utterance);
      Measured(|mine|, |lines|, |Join(tokens, [])|, |tokens|, SumOccurrences(utterance, fillers))
  }

  /** `calculateEngagementFeatures`: selects the employee's lines, strips their
      tags, and hands the counts to the scoring step. */
  method EngagementFeatures(text: string, name: string, fillers: seq<string>)
    returns (r: EngagementResult)
    requires NonEmptyEntries(fillers) && IsRegexLiteral(name)
    ensures r == EngagementOf(text, name, fillers)
    ensures r.details.SpeakerNotFound? <==> EmployeeLines(Lines(text), name) == []
  {
    var lines := Lines(text);
    var employeeLines := EmployeeLines(lines, name);
    if |employeeLines| == 0 {
      return EngagementResult(50, SpeakerNotFound(name));
    }
    var employeeText := EmployeeText(employeeLines, name);
    var employeeWords := SplitWhitespace(employeeText);
    var fillerCount := SumOccurrences(employeeText, fillers);
    r := ScoreEngagement(|employeeLines|, |lines|, |Join(employeeWords, [])|, |employeeWords|, fillerCount);
  }

  /** The scoring step of the extractor: the three rates in exact arithmetic,
      a score built up by successive additions, then capped at 100. */
  method ScoreEngagement(employeeLines: nat, lines: nat, chars: nat, words: nat, fillerCount: nat)
    returns (r: EngagementResult)
    requires lines > 0 && words > 0
    ensures r == Measured(employeeLines, lines, chars, words, fillerCount)
  {
    var k, n, w := employeeLines as real, lines as real, words as real;
    var speechRatio := (k / n) * 100.0;
    var avgTokenLength := chars as real / w;
    var fillerRate := (fillerCount as real / w) * 100.0;

    var score := 0;
    if speechRatio < 30.0 {
      score := score + 30;
    }
    if avgTokenLength < 10.0 {
      score := score + 20;
    }
    if fillerRate > 5.0 {
      score := score + 30;
    }
    score := if 100 < score then 100 else score;

    ScaleDiv(k, n, 100.0);
    DivAtLeast(k * 100.0, n, 30.0);
    DivAtLeast(chars as real, w, 10.0);
    ScaleDiv(fillerCount as real, w, 100.0);
    DivAbove(fillerCount as real * 100.0, w, 5.0);
    r := EngagementResult(score, Metrics(speechRatio, avgTokenLength, fillerRate));
  }

  // ---------------------------------------------------------------------
  // Lemmas

  /** The extractor falls back to a score of 50 and a single "not found"
      detail exactly when none of the lines is the employee's. */
  lemma NotFoundFallback(text: string, name: string, fillers: seq<string>)
    requires NonEmptyEntries(fillers)
    ensures EmployeeLines(Lines(text), name) == []
            <==> EngagementOf(text, name, fillers) == EngagementResult(50, SpeakerNotFound(name))
  {
  }

  /** When the employee speaks, their share of the lines lies in (0, 100]. */
  lemma SpeechRatioBounds(employeeLines: nat, lines: nat, chars: nat, words: nat, fillers: nat)
    requires 0 < employeeLines <= lines && words > 0
    ensures 0.0 < Measured(employeeLines, lines, chars, words, fillers).details.speechRatio <= 100.0
  {
    var x, n := (100 * employeeLines) as real, lines as real;
    DivAbove(x, n, 0.0);
    DivAbove(x, n, 100.0);
  }

  /** When the employee speaks, the extractor reports a speech ratio in (0, 100]. */
  lemma ExtractorSpeechRatioBounds(text: string, name: string, fillers: seq<string>)
    requires NonEmptyEntries(fillers)
    requires EmployeeLines(Lines(text), name) != []
    ensures EngagementOf(text, name, fillers).details.Metrics?
    ensures 0.0 < EngagementOf(text, name, fillers).details.speechRatio <= 100.0
  {
    MeasuredBranch(text, name, fillers);
    var mine := EmployeeLines(Lines(text), name);
    var utterance := EmployeeText(mine, name);
    SpeechRatioBounds(|mine|, |Lines(text)|, |RemoveWhitespace(utterance)|, |SplitWhitespace(utterance)|,
                      SumOccurrences(utterance, fillers));
  }

  /** The measured branch is taken with at least one employee line, no more
      employee lines than lines, and at least one token. */
  lemma MeasuredBranch(text: string, name: string, fillers: seq<string>)
    requires NonEmptyEntries(fillers)
    requires EmployeeLines(Lines(text), name) != []
    ensures var mine := EmployeeLines(Lines(text), name);
            var utterance := EmployeeText(mine, name);
            var tokens := SplitWhitespace(utterance);
            0 < |mine| <= |Lines(text)| && |tokens| > 0
            && EngagementOf(text, name, fillers)
               == Measured(|mine|, |Lines(text)|, |RemoveWhitespace(utterance)|, |tokens|,
                           SumOccurrences(utterance, fillers))
  {
    SplitWhitespaceConcat(EmployeeText(EmployeeLines(Lines(text), name), name));
  }

  /** A line is the employee's exactly when its trimmed form starts with
      their name followed by a half-width or a full-width colon. */
  lemma EmployeeLineIffTagged(line: string, name: string)
    ensures IsEmployeeLine(line, name)
            <==> IsPrefix(name + [':'], Trim(line)) || IsPrefix(name + ['：'], Trim(line))
  {
    var t := Trim(line);
    if |t| > |name| {
      assert t[..|name| + 1] == t[..|name|] + [t[|name|]];
      forall c: char | IsPrefix(name + [c], t)
        ensures t[..|name|] == name && t[|name|] == c
      {
        assert t[..|name|] == t[..|name| + 1][..|name|];
        assert t[|name|] == t[..|name| + 1][|name|];
      }
    }
  }

  /** A line without leading white space that is the employee's has its tag
      removed: what remains is the text after the colon and the letters `s`. */
  lemma {:induction false} StripRemovesTag(line: string, name: string)
    requires IsEmployeeLine(line, name)
    requires !IsWhitespace(line[0])
    ensures HasSpeakerTag(line, name)
    ensures var tail := line[|name| + 1..];
            StripSpeakerTag(line, name) == Trim(tail[LeadingLetterS(tail)..])
  {
    var t := Trim(line);
    assert t == line[..|t|];
    assert line[..|name|] == t[..|name|];
    assert line[|name|] == t[|name|];
  }

  /** A line indented by white space keeps its tag: the pattern is anchored
      at the start of the untrimmed line and cannot match there. */
  lemma StripKeepsIndentedTag(line: string, name: string)
    requires name != [] && !IsWhitespace(name[0])
    requires line != [] && IsWhitespace(line[0])
    ensures StripSpeakerTag(line, name) == Trim(line)
  {
  }

  /** The employee's lines are among the non-blank lines. */
  lemma EmployeeLinesAreLines(text: string, name: string)
    ensures |EmployeeLines(Lines(text), name)| <= |Lines(text)|
    ensures forall line :: line in EmployeeLines(Lines(text), name)
                           <==> line in Lines(text) && IsEmployeeLine(line, name)
  {
    FilterMembers(Lines(text), line => IsEmployeeLine(line, name));
  }

  /** The name must open the trimmed line: a longer word ending in it does not count. */
  lemma PrefixedNameIsNotTheEmployee()
    ensures !IsEmployeeLine("XTanaka: hi", "Tanaka")
  {
    var line := "XTanaka: hi";
    assert IsTrimmed(line) && Trim(line) == line;
    assert line[..6][0] == 'X';
  }

  /** The letters `s` right after the colon are removed with the tag. */
  lemma LetterSAfterColonIsStripped()
    ensures StripSpeakerTag("Tanaka:sure", "Tanaka") == "ure"
  {
    var line := "Tanaka:sure";
    assert line[..6] == "Tanaka" && IsColon(line[6]);
    var tail := line[7..];
    assert tail == "sure";
    assert LeadingLetterS(tail) == 1;
    assert tail[1..] == "ure";
    assert IsTrimmed("ure");
  }

  /** A bare tag line contributes an empty utterance. When it comes first and
      more lines follow, the employee text starts with the joining space, so
      its first token is empty and counts in the token total. */
  lemma BareTagGivesEmptyToken(name: string, rest: seq<string>)
    requires rest != []
    ensures SplitWhitespace(EmployeeText([name + [':']] + rest, name))[0] == []
  {
    var lines := [name + [':']] + rest;
    var utterances := seq(|lines|, k requires 0 <= k < |lines| => StripSpeakerTag(lines[k], name));
    assert EmployeeText(lines, name) == Join(utterances, " ");
    BareTagStripsToEmpty(name);
    assert utterances == [[]] + utterances[1..];
    JoinCons([], utterances[1..], " ");
    SplitWhitespaceFirst(Join(utterances, " "));
  }

  /** The bare tag `name:` leaves an empty utterance. */
  lemma BareTagStripsToEmpty(name: string)
    ensures StripSpeakerTag(name + [':'], name) == []
  {
    var line := name + [':'];
    assert line[..|name|] == name && line[|name|] == ':';
    assert line[|name| + 1..] == [];
  }

  /** Filler entries are counted separately: one `えーっと` is also an `えー`,
      so a single token can bring two filler occurrences. */
  lemma FillerEntriesCountSeparately()
    ensures SumOccurrences("えーっと", ["えー", "えーっと"]) == 2
  {
    var s := "えーっと";
    assert s[..2] == "えー" && s[..4] == "えーっと";
    assert s[2..] == "っと" && "っと"[0] != "えー"[0] && "っと"[1..] == "と";
    assert CountOccurrences(s[2..], "えー") == 0;
    assert CountOccurrences(s[4..], "えーっと") == 0;
    var entries := ["えー", "えーっと"];
    assert entries[..1] == ["えー"] && entries[..1][..0] == [];
  }
}
