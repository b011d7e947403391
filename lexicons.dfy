/** The four fixed word lists the scorer matches against the transcript.
    They are immutable data passed to every extractor, so the scoring
    functions and their lemmas hold for any lists of the same shape. */
module Lexicon {
  import opened Text

  datatype Lexicons = Lexicons(
    positive: seq<string>,
    negative: seq<string>,
    filler: seq<string>,
    jobSearch: seq<string>)

  /** Every entry is non-empty and is read literally by `new RegExp`. */
  predicate ValidEntries(entries: seq<string>)
  {
    forall k :: 0 <= k < |entries| ==> entries[k] != [] && IsRegexLiteral(entries[k])
  }

  /** The filler and job-search entries are counted through `new RegExp`, so
      they must be literal patterns; the positive and negative entries only
      reach `includes`, which takes any string. */
  predicate Valid(lex: Lexicons)
  {
    ValidEntries(lex.filler) && ValidEntries(lex.jobSearch)
  }

  /** Words of thanks, satisfaction and growth. */
  const Positive: seq<string> := [
    "ありがとうございます", "感謝", "嬉しい", "楽しい", "満足", "やりがい", "成長", "学び",
    "貢献", "改善", "積極的", "面白い", "なるほど", "よくわかりました", "承知しました"]

  /** Words of objection, difficulty, anxiety and leaving. */
  const Negative: seq<string> := [
    "しかし", "でも", "不満", "問題", "難しい", "厳しい", "懸念", "不安", "大変", "辛い",
    "辞めたい", "退職", "異動", "無理", "ちょっと", "わからない", "検討します"]

  /** Hesitation words. */
  const Filler: seq<string> := [
    "えーっと", "あのー", "えー", "あー", "まあ", "そのー", "えっと", "あの", "なんか", "こう",
    "なんていうか", "えっとですね", "そうですね", "うーん", "はい", "えーと", "まー", "なんかー",
    "こうー", "なんというか", "えーとですね"]

  /** Words that hint at a job search. */
  const JobSearch: seq<string> := [
    "転職", "キャリア", "エージェント", "面接", "他社", "市場価値", "次のステップ", "将来",
    "環境を変えたい"]

  const Default: Lexicons := Lexicons(Positive, Negative, Filler, JobSearch)

  /** The lists hold 15 positive, 17 negative, 21 filler and 9 job-search
      words. No filler or job-search word appears twice, so no match is
      counted twice for one word. */
  lemma ListSizes()
    ensures |Positive| == 15 && |Negative| == 17 && |Filler| == 21 && |JobSearch| == 9
    ensures forall j, k :: 0 <= j < k < |Filler| ==> Filler[j] != Filler[k]
    ensures forall j, k :: 0 <= j < k < |JobSearch| ==> JobSearch[j] != JobSearch[k]
  {
  }

  /** No regular-expression metacharacter lies outside ASCII. */
  lemma {:induction false} WideEntriesValid(entries: seq<string>)
    requires forall k :: 0 <= k < |entries| ==> entries[k] != [] && IsWide(entries[k])
    ensures ValidEntries(entries)
  {
  }

  predicate IsWide(s: string)
  {
    forall k :: 0 <= k < |s| ==> s[k] >= '\U{0080}'
  }

  lemma FillerWide()
    ensures forall k :: 0 <= k < |Filler| ==> Filler[k] != [] && IsWide(Filler[k])
  {
  }

  lemma JobSearchWide()
    ensures forall k :: 0 <= k < |JobSearch| ==> JobSearch[k] != [] && IsWide(JobSearch[k])
  {
  }

  lemma DefaultValid()
    ensures Valid(Default)
  {
    FillerWide();
    JobSearchWide();
    WideEntriesValid(Filler);
    WideEntriesValid(JobSearch);
  }
}
