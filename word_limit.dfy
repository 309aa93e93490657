/** `checkWordLimitAdherence`: 240 words per question, and a penalty by how far over. */
module WordLimit {
  import opened Text
  import opened Words

  const MAX_WORDS_PER_QUESTION: nat := 240

  /** `Question\s+\d+` under /i at p: where the match ends, if there is one */
  function QuestionMatchEnd(s: string, p: nat): (r: Option<nat>)
    requires p <= |s|
    ensures r.Some? ==> p + 10 <= r.value <= |s|
  {
    if !CaselessAt(s, p, "question") then None
    else
      var f := SpaceRunEnd(s, p + 8);
      var d := DigitRunEnd(s, f);
      if f > p + 8 && d > f then Some(d) else None
  }

  /** `preg_match_all('/Question\s+\d+/i', $s)` from p */
  function QuestionsFrom(s: string, p: nat): nat
    requires p <= |s|
    decreases |s| - p
  {
    if p == |s| then 0
    else match QuestionMatchEnd(s, p)
      case Some(e) => 1 + QuestionsFrom(s, e)
      case None => QuestionsFrom(s, p + 1)
  }

  /** `preg_match_all(...) ?: 1`: a text that names no question counts as one question */
  function QuestionCount(text: string): (q: nat)
    ensures q >= 1
  {
    var n := QuestionsFrom(text, 0);
    if n == 0 then 1 else n
  }

  /** Each mention takes at least ten characters, so the limit grows with the text's length. */
  lemma {:induction false} QuestionsBound(s: string, p: nat)
    requires p <= |s|
    ensures 10 * QuestionsFrom(s, p) <= |s| - p
    decreases |s| - p
  {
    if p < |s| {
      match QuestionMatchEnd(s, p)
      case Some(e) => QuestionsBound(s, e);
      case None => QuestionsBound(s, p + 1);
    }
  }

  /** Text shorter than a question heading is allowed 240 words. */
  lemma {:induction false} ShortTextOneQuestion(text: string)
    requires |text| < 10
    ensures QuestionCount(text) == 1
  {
    QuestionsBound(text, 0);
  }

  datatype WordLimitCheck = WordLimitCheck(
    wordCount: nat,
    expectedMaxWords: nat,
    adherence: nat,
    penaltyPercent: nat,       // the source's `penalty` times 100
    overageRatio: real)

  /** how far over the limit, as a fraction of the limit */
  function OverageRatio(wordCount: nat, limit: nat): (r: real)
    requires limit > 0
    ensures wordCount <= limit ==> r == 0.0
    ensures wordCount > limit ==> r > 0.0
  {
    if wordCount <= limit then 0.0 else (wordCount - limit) as real / limit as real
  }

  /** the penalty band, in percent: 5 up to 10% over, 10 up to 25%, 20 up to 50%, else 30 */
  function PenaltyPercent(wordCount: nat, limit: nat): (p: nat)
    requires limit > 0
    ensures p == 0 <==> wordCount <= limit
    ensures p <= 30
  {
    if wordCount <= limit then 0
    else
      var ratio := OverageRatio(wordCount, limit);
      if ratio <= 0.1 then 5 else if ratio <= 0.25 then 10 else if ratio <= 0.5 then 20 else 30
  }

  /** the array `checkWordLimitAdherence($text)` returns */
  function WordLimitOf(text: string): (r: WordLimitCheck)
    ensures r.wordCount == StrWordCount(text)
    ensures r.expectedMaxWords == MAX_WORDS_PER_QUESTION * QuestionCount(text)
    ensures r.adherence == 1 <==> r.wordCount <= r.expectedMaxWords
    ensures r.adherence == 0 <==> r.wordCount > r.expectedMaxWords
    ensures r.adherence == 1 <==> r.penaltyPercent == 0
    ensures r.adherence == 1 <==> r.overageRatio == 0.0
    ensures r.expectedMaxWords > 0 && r.penaltyPercent == PenaltyPercent(r.wordCount, r.expectedMaxWords)
    ensures r.expectedMaxWords > 0 && r.overageRatio == OverageRatio(r.wordCount, r.expectedMaxWords)
  {
    var wc := StrWordCount(text);
    var limit := MAX_WORDS_PER_QUESTION * QuestionCount(text);
    WordLimitCheck(wc, limit, if wc <= limit then 1 else 0, PenaltyPercent(wc, limit), OverageRatio(wc, limit))
  }

  /** More words never give a smaller penalty. */
  lemma {:induction false} PenaltyMonotone(w1: nat, w2: nat, limit: nat)
    requires limit > 0 && w1 <= w2
    ensures PenaltyPercent(w1, limit) <= PenaltyPercent(w2, limit)
  {
    if w1 > limit {
      assert (w1 - limit) as real <= (w2 - limit) as real;
      DivMonotone((w1 - limit) as real, (w2 - limit) as real, limit as real);
    }
  }

  lemma {:induction false} DivMonotone(a: real, b: real, d: real)
    requires a <= b && d > 0.0
    ensures a / d <= b / d
  {
  }

  lemma {:induction false} RatioAtMost(x: nat, l: nat, c: real)
    requires l > 0 && x as real <= c * l as real
    ensures x as real / l as real <= c
  {
  }

  lemma {:induction false} RatioAbove(x: nat, l: nat, c: real)
    requires l > 0 && x as real > c * l as real
    ensures x as real / l as real > c
  {
  }

  /** For q questions the band edges fall on 24q, 60q and 120q words over the limit. */
  lemma {:induction false} PenaltyBandEdges(q: nat)
    requires q >= 1
    ensures PenaltyPercent(240 * q + 1, 240 * q) == 5
    ensures PenaltyPercent(264 * q, 240 * q) == 5
    ensures PenaltyPercent(264 * q + 1, 240 * q) == 10
    ensures PenaltyPercent(300 * q, 240 * q) == 10
    ensures PenaltyPercent(300 * q + 1, 240 * q) == 20
    ensures PenaltyPercent(360 * q, 240 * q) == 20
    ensures PenaltyPercent(360 * q + 1, 240 * q) == 30
  {
    var l := 240 * q;
    RatioAtMost(1, l, 0.1);
    RatioAtMost(24 * q, l, 0.1);
    RatioAbove(24 * q + 1, l, 0.1);
    RatioAtMost(60 * q, l, 0.25);
    RatioAbove(60 * q + 1, l, 0.25);
    RatioAtMost(120 * q, l, 0.5);
    RatioAbove(120 * q + 1, l, 0.5);
  }
}
