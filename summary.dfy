/**
 * `generate_summary_id` (main.py:586-657): an extractive Indonesian summary.
 * The first twenty pieces of the text between sentence-ending punctuation are
 * stripped and scored, the seven best are joined with ". ", and the result is
 * bounded to at most two hundred words, a short one being prefixed with a
 * fixed sentence about the document first.
 *
 * Sentence scores are kept in halves of a point: a keyword is 2, a digit 1
 * and a mention of Indonesia 2, so every score is an exact natural number.
 */
module Summary {
  import opened Text
  import opened Sorting

  const SummaryKeywords: seq<string> := [
    "vokasi", "kejuruan", "digital", "pendidikan", "akses", "kesenjangan",
    "teknologi", "keterampilan", "SMK", "politeknik", "pelatihan",
    "kompetensi", "industri", "transformasi", "pembelajaran", "platform"
  ]

  const SentencePool: nat := 20
  const MinSentenceLength: nat := 20
  const TopSentences: nat := 7
  const FallbackSentences: nat := 3
  const MaxWords: nat := 200
  const MinWords: nat := 50

  /** A sentence that made the cut, with its score in halves of a point. */
  datatype ScoredSentence = ScoredSentence(text: string, score: nat)

  function ScoreOf(s: ScoredSentence): int { s.score }

  /**
   * Score of a stripped sentence: one point per summary keyword in its
   * lower-cased text, half a point if it holds a digit, one point if it
   * mentions Indonesia.
   */
  function SentenceScore(sentence: string): nat {
    var lowered := Lower(sentence);
    2 * CountContained(SummaryKeywords, lowered)
    + (if HasDigit(sentence) then 1 else 0)
    + (if Contains(lowered, "indonesia") then 2 else 0)
  }

  /**
   * A sentence scores nothing exactly when it has no summary keyword, no
   * digit and no mention of Indonesia.
   */
  lemma SentenceScoreZero(sentence: string)
    ensures SentenceScore(sentence) == 0 <==>
              && (forall j :: 0 <= j < |SummaryKeywords| ==> !Contains(Lower(sentence), SummaryKeywords[j]))
              && !HasDigit(sentence)
              && !Contains(Lower(sentence), "indonesia")
  {
  }

  /**
   * "SMK" is in the keyword list but is looked for in the lower-cased
   * sentence, so it never counts: a sentence scores at most 15 + 0.5 + 1
   * points, not 16 + 0.5 + 1.
   */
  lemma SentenceSmkNeverMatches(sentence: string)
    ensures SummaryKeywords[8] == "SMK"
    ensures !Contains(Lower(sentence), SummaryKeywords[8])
    ensures SentenceScore(sentence) <= 2 * (|SummaryKeywords| - 1) + 1 + 2
  {
    var t := Lower(sentence);
    LoweredNeverContainsUpper(sentence, "SMK", 0);
    assert SummaryKeywords == SummaryKeywords[..8] + [SummaryKeywords[8]] + SummaryKeywords[9..];
    CountContainedAppend(SummaryKeywords[..8] + [SummaryKeywords[8]], SummaryKeywords[9..], t);
    CountContainedAppend(SummaryKeywords[..8], [SummaryKeywords[8]], t);
  }

  /** Whether a piece of the pool, once stripped, is long enough and scores. */
  predicate Qualifies(piece: string) {
    |Strip(piece)| >= MinSentenceLength && SentenceScore(Strip(piece)) > 0
  }

  /** The entry a piece of the pool adds to `sentence_scores`: its stripped text and that text's score. */
  function Scored(piece: string): ScoredSentence {
    ScoredSentence(Strip(piece), SentenceScore(Strip(piece)))
  }

  /**
   * `sentence_scores` after the loop over `sentences`: each piece stripped,
   * kept when it has at least twenty characters and a positive score.
   */
  function ScoredSentences(sentences: seq<string>): (r: seq<ScoredSentence>)
    ensures |r| <= |sentences|
    ensures forall x :: x in r ==>
              && |x.text| >= MinSentenceLength
              && x.score > 0
              && x.score == SentenceScore(x.text)
  {
    if sentences == [] then []
    else
      var rest := ScoredSentences(sentences[..|sentences| - 1]);
      var s := Strip(sentences[|sentences| - 1]);
      if Qualifies(sentences[|sentences| - 1]) then
        rest + [ScoredSentence(s, SentenceScore(s))]
      else rest
  }

  /** The images under `f` of the elements of `xs` that pass `keep`, in order. */
  function Picked<T, U>(xs: seq<T>, keep: T -> bool, f: T -> U): seq<U> {
    if xs == [] then []
    else
      var rest := Picked(xs[..|xs| - 1], keep, f);
      if keep(xs[|xs| - 1]) then rest + [f(xs[|xs| - 1])] else rest
  }

  /** Where in `xs` each picked element comes from. */
  ghost function PickedPositions<T, U>(xs: seq<T>, keep: T -> bool, f: T -> U): (pos: seq<nat>)
    ensures |pos| == |Picked(xs, keep, f)|
    ensures forall k :: 0 <= k < |pos| ==> pos[k] < |xs| && keep(xs[pos[k]]) && Picked(xs, keep, f)[k] == f(xs[pos[k]])
  {
    if xs == [] then []
    else
      var n := |xs| - 1;
      var init := xs[..n];
      var rest := PickedPositions(init, keep, f);
      assert forall k :: 0 <= k < |rest| ==> xs[rest[k]] == init[rest[k]];
      if keep(xs[n]) then rest + [n] else rest
  }

  /** The positions rise, so the picked elements keep the order of `xs`. */
  lemma {:induction false} PickedPositionsRise<T, U>(xs: seq<T>, keep: T -> bool, f: T -> U)
    ensures forall k, l :: 0 <= k < l < |PickedPositions(xs, keep, f)| ==>
              PickedPositions(xs, keep, f)[k] < PickedPositions(xs, keep, f)[l]
  {
    if xs != [] {
      var n := |xs| - 1;
      var pos := PickedPositions(xs, keep, f);
      var rest := PickedPositions(xs[..n], keep, f);
      PickedPositionsRise(xs[..n], keep, f);
      if keep(xs[n]) {
        forall k, l | 0 <= k < l < |pos| ensures pos[k] < pos[l] {
          assert pos[k] == rest[k] && rest[k] < n;
          if l < |rest| { assert pos[l] == rest[l]; }
        }
      }
    }
  }

  /** Every element that passes `keep` is picked. */
  lemma {:induction false} PickedComplete<T, U>(xs: seq<T>, keep: T -> bool, f: T -> U)
    ensures forall j :: 0 <= j < |xs| && keep(xs[j]) ==> j in PickedPositions(xs, keep, f)
  {
    if xs != [] {
      var n := |xs| - 1;
      var init := xs[..n];
      PickedComplete(init, keep, f);
      forall j | 0 <= j < n && keep(xs[j]) ensures j in PickedPositions(xs, keep, f) {
        assert init[j] == xs[j];
      }
    }
  }

  /** `sentence_scores` is the scored entries of the qualifying pieces, in pool order. */
  lemma {:induction false} ScoredSentencesArePicked(sentences: seq<string>)
    ensures ScoredSentences(sentences) == Picked(sentences, Qualifies, Scored)
  {
    if sentences != [] {
      ScoredSentencesArePicked(sentences[..|sentences| - 1]);
    }
  }

  /**
   * Where in the pool each scored sentence comes from: the positions rise,
   * each holds a qualifying piece whose entry is the scored sentence, and
   * every qualifying piece is among them.
   */
  ghost function ScoredPositions(sentences: seq<string>): (pos: seq<nat>)
    ensures |pos| == |ScoredSentences(sentences)|
    ensures forall k :: 0 <= k < |pos| ==>
              && pos[k] < |sentences| && Qualifies(sentences[pos[k]])
              && ScoredSentences(sentences)[k] == Scored(sentences[pos[k]])
    ensures forall k, l :: 0 <= k < l < |pos| ==> pos[k] < pos[l]
    ensures forall j :: 0 <= j < |sentences| && Qualifies(sentences[j]) ==> j in pos
  {
    ScoredSentencesArePicked(sentences);
    PickedPositionsRise(sentences, Qualifies, Scored);
    PickedComplete(sentences, Qualifies, Scored);
    PickedPositions(sentences, Qualifies, Scored)
  }

  /** Every piece of the pool that qualifies is scored: no qualifying piece is skipped. */
  lemma ScoredSentencesComplete(sentences: seq<string>)
    ensures forall j :: 0 <= j < |sentences| && Qualifies(sentences[j]) ==> Scored(sentences[j]) in ScoredSentences(sentences)
  {
    var pos := ScoredPositions(sentences);
    forall j | 0 <= j < |sentences| && Qualifies(sentences[j]) ensures Scored(sentences[j]) in ScoredSentences(sentences) {
      var k :| 0 <= k < |pos| && pos[k] == j;
      assert ScoredSentences(sentences)[k] == Scored(sentences[j]);
    }
  }

  /** Only an empty pool or one where no piece qualifies leaves nothing scored. */
  lemma {:induction false} ScoredSentencesEmpty(sentences: seq<string>)
    ensures ScoredSentences(sentences) == [] <==>
              forall j :: 0 <= j < |sentences| ==> !Qualifies(sentences[j])
  {
    if sentences != [] {
      var n := |sentences| - 1;
      var init := sentences[..n];
      ScoredSentencesEmpty(init);
      if Qualifies(sentences[n]) {
        ScoredSentencesGrow(sentences);
      } else {
        ScoredSentencesSkip(sentences);
        assert forall j :: 0 <= j < n ==> init[j] == sentences[j];
      }
    }
  }

  /** A last piece that qualifies adds its scored sentence at the end. */
  lemma ScoredSentencesGrow(sentences: seq<string>)
    requires sentences != [] && Qualifies(sentences[|sentences| - 1])
    ensures ScoredSentences(sentences) != []
  {
  }

  /** A last piece that does not qualify adds nothing. */
  lemma ScoredSentencesSkip(sentences: seq<string>)
    requires sentences != [] && !Qualifies(sentences[|sentences| - 1])
    ensures ScoredSentences(sentences) == ScoredSentences(sentences[..|sentences| - 1])
  {
  }

  /** Every scored sentence is a stripped piece of the pool. */
  lemma {:induction false} ScoredSentencesFromPool(sentences: seq<string>)
    ensures forall x :: x in ScoredSentences(sentences) ==>
              exists j :: 0 <= j < |sentences| && x.text == Strip(sentences[j])
  {
    if sentences != [] {
      var init := sentences[..|sentences| - 1];
      ScoredSentencesFromPool(init);
      forall x | x in ScoredSentences(sentences)
        ensures exists j :: 0 <= j < |sentences| && x.text == Strip(sentences[j])
      {
        if x in ScoredSentences(init) {
          var j :| 0 <= j < |init| && x.text == Strip(init[j]);
          assert init[j] == sentences[j];
        } else {
          assert x.text == Strip(sentences[|sentences| - 1]);
        }
      }
    }
  }

  /** The texts of scored sentences, in order. */
  function Texts(s: seq<ScoredSentence>): (r: seq<string>)
    ensures |r| == |s|
    ensures forall k :: 0 <= k < |s| ==> r[k] == s[k].text
  {
    if s == [] then [] else [s[0].text] + Texts(s[1..])
  }

  /**
   * `selected_sentences`: the texts of the seven best-scored sentences of the
   * first twenty pieces (ties in their original order), or the first three
   * raw pieces when no sentence scored.
   */
  function Selection(content: string): seq<string> {
    var pool := Take(SplitSentences(content), SentencePool);
    var scored := ScoredSentences(pool);
    if scored == [] then Take(pool, FallbackSentences)
    else Texts(Take(SortDesc(scored, ScoreOf), TopSentences))
  }

  /**
   * The selection keeps the best: the seven chosen and the rest together are
   * exactly the scored sentences, and no chosen sentence scores lower than
   * one left out.
   */
  lemma TopSentencesAreBest(scored: seq<ScoredSentence>)
    ensures var ranked := SortDesc(scored, ScoreOf);
            var top := Take(ranked, TopSentences);
            var rest := ranked[|top|..];
            && |top| == (if |scored| < TopSentences then |scored| else TopSentences)
            && multiset(top) + multiset(rest) == multiset(scored)
            && forall i, j :: 0 <= i < |top| && 0 <= j < |rest| ==> top[i].score >= rest[j].score
  {
    var ranked := SortDesc(scored, ScoreOf);
    var top := Take(ranked, TopSentences);
    var rest := ranked[|top|..];
    forall i, j | 0 <= i < |top| && 0 <= j < |rest| ensures top[i].score >= rest[j].score {
      assert top[i] == ranked[i];
      assert rest[j] == ranked[|top| + j];
      assert ScoreOf(ranked[i]) >= ScoreOf(ranked[|top| + j]);
    }
    assert ranked == top + rest;
  }

  /** What the selection promises about every sentence it picks. */
  lemma SelectionBounds(content: string)
    ensures |Selection(content)| <= TopSentences
    ensures ScoredSentences(Take(SplitSentences(content), SentencePool)) != [] ==>
              forall k :: 0 <= k < |Selection(content)| ==>
                && |Selection(content)[k]| >= MinSentenceLength
                && SentenceScore(Selection(content)[k]) > 0
  {
    var scored := ScoredSentences(Take(SplitSentences(content), SentencePool));
    if scored != [] {
      TopTextsQualify(scored);
    }
  }

  /** The texts of the best seven of sentences that all qualify qualify as well. */
  lemma TopTextsQualify(scored: seq<ScoredSentence>)
    requires forall x :: x in scored ==> |x.text| >= MinSentenceLength && x.score == SentenceScore(x.text) > 0
    ensures var top := Texts(Take(SortDesc(scored, ScoreOf), TopSentences));
            && |top| <= TopSentences
            && forall k :: 0 <= k < |top| ==> |top[k]| >= MinSentenceLength && SentenceScore(top[k]) > 0
  {
    var ranked := SortDesc(scored, ScoreOf);
    var top := Take(ranked, TopSentences);
    forall k | 0 <= k < |top| ensures |top[k].text| >= MinSentenceLength && SentenceScore(top[k].text) > 0 {
      assert top[k] == ranked[k];
      assert ranked[k] in multiset(ranked);
      assert ranked[k] in scored;
    }
  }

  /** The sentence-ranking loop of the source, proved to compute `Selection`. */
  method SelectSentences(content: string) returns (selected: seq<string>)
    ensures selected == Selection(content)
  {
    var sentences := Take(SplitSentences(content), SentencePool);
    var sentenceScores := ScoreSentences(sentences);
    var ranked := SortDesc(sentenceScores, ScoreOf);
    selected := Texts(Take(ranked, TopSentences));
    if selected == [] {
      selected := Take(sentences, FallbackSentences);
    }
  }

  /** The scoring loop of `_select_important_sentences`, over the pool of sentences. */
  method ScoreSentences(sentences: seq<string>) returns (sentenceScores: seq<ScoredSentence>)
    ensures sentenceScores == ScoredSentences(sentences)
  {
    sentenceScores := [];
    var i := 0;
    while i < |sentences|
      invariant 0 <= i <= |sentences|
      invariant sentenceScores == ScoredSentences(sentences[..i])
    {
      assert sentences[..i + 1][..i] == sentences[..i];
      var sentence := Strip(sentences[i]);
      if |sentence| >= MinSentenceLength {
        var score := SentenceScore(sentence);
        if score > 0 {
          sentenceScores := sentenceScores + [ScoredSentence(sentence, score)];
        }
      }
      i := i + 1;
    }
    assert sentences[..i] == sentences;
  }

  /** The sentence put in front of a summary of fewer than fifty words. */
  function ContextIntro(title: string): string {
    "Dokumen '" + title + "' membahas aspek-aspek penting pendidikan vokasi dan teknologi digital di Indonesia. "
  }

  /**
   * A text of more than two hundred words becomes its first two hundred
   * words joined by single spaces, with "..." glued to the last one.
   */
  function CapWords(summary: string): (r: string)
    ensures |Words(r)| <= MaxWords
    ensures |Words(summary)| <= MaxWords ==> r == summary
    ensures |Words(summary)| > MaxWords ==>
              && |Words(r)| == MaxWords
              && Words(r)[..MaxWords - 1] == Words(summary)[..MaxWords - 1]
              && Words(r)[MaxWords - 1] == Words(summary)[MaxWords - 1] + "..."
  {
    var words := Words(summary);
    if |words| > MaxWords then
      var kept := words[..MaxWords];
      WordsOfJoinWithSuffix(kept, "...");
      Join(" ", kept) + "..."
    else summary
  }

  /** The word-count adjustment at the end of `generate_summary_id`. */
  function FitSummary(summary: string, title: string): (r: string)
    ensures |Words(r)| <= MaxWords
    ensures |Words(summary)| > MaxWords ==> r == CapWords(summary)
    ensures MinWords <= |Words(summary)| <= MaxWords ==> r == summary
    ensures |Words(summary)| < MinWords ==>
              && |Words(ContextIntro(title) + summary)| == |Words(ContextIntro(title))| + |Words(summary)|
              && r == CapWords(ContextIntro(title) + summary)
  {
    var n := |Words(summary)|;
    if n > MaxWords then CapWords(summary)
    else if n < MinWords then
      var intro := ContextIntro(title);
      assert IsSpace(intro[|intro| - 1]);
      WordsOfConcat(intro, summary);
      CapWords(intro + summary)
    else summary
  }

  /** `generate_summary_id(content, title)`. */
  method GenerateSummaryId(content: string, title: string) returns (summary: string)
    ensures summary == FitSummary(Join(". ", Selection(content)), title)
    ensures |Words(summary)| <= MaxWords
  {
    var selected := SelectSentences(content);
    summary := Join(". ", selected);
    var words := Words(summary);
    if |words| > MaxWords {
      summary := Join(" ", words[..MaxWords]) + "...";
    } else if |words| < MinWords {
      summary := ContextIntro(title) + summary;
      words := Words(summary);
      if |words| > MaxWords {
        summary := Join(" ", words[..MaxWords]) + "...";
      }
    }
  }
}
