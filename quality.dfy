/** `analyzeWritingQuality`: grammar heuristics, sentence count, a simplified
    Flesch reading ease and the rating table.

    Each grammar check is one PCRE pattern matched with `/i`; `preg_match_all`
    is modelled as the engine's scan: try a match at each position from the
    left, count it and resume at its end, or move one position on. */
module Quality {
  import opened Text
  import opened Words
  import opened Syllables

  // ----------------------------------------------------------- grammar checks

  datatype GrammarCheck =
    | DoubleSpaces        // '  '
    | MissingPeriod       // '([a-z])\n([A-Z])' under /i: any letter, newline, any letter
    | RepeatedWords       // '\b(\w+)\s+\1\b'
    | IncompleteSentence  // '\b(however|therefore|thus|hence|consequently)\s*$'

  /** the checks in the order the source's array lists them */
  const GRAMMAR_CHECKS: seq<GrammarCheck> := [DoubleSpaces, MissingPeriod, RepeatedWords, IncompleteSentence]

  const DANGLING_TRANSITIONS: seq<string> := ["however", "therefore", "thus", "hence", "consequently"]

  /** the end of the run of `\w` characters that starts at q */
  function WordRunEnd(s: string, q: nat): (e: nat)
    requires q <= |s|
    ensures q <= e <= |s|
    ensures forall k :: q <= k < e ==> IsWordChar(s[k])
    ensures e == |s| || !IsWordChar(s[e])
    decreases |s| - q
  {
    if q < |s| && IsWordChar(s[q]) then WordRunEnd(s, q + 1) else q
  }

  /** `\b(\w+)\s+\1\b` at p: the whole word, all the whitespace after it, the same word again
      ignoring case, and no word character after the copy. */
  function RepeatedWordEnd(s: string, p: nat): (r: Option<nat>)
    requires p < |s|
    ensures r.Some? ==> p < r.value <= |s|
  {
    if !(Boundary(s, p) && IsWordChar(s[p])) then None
    else
      var e := WordRunEnd(s, p);
      var f := SpaceRunEnd(s, e);
      var n := e - p;
      if f > e && CaselessAt(s, f, s[p..e]) && (f + n == |s| || !IsWordChar(s[f + n])) then Some(f + n)
      else None
  }

  /** `(however|…)\s*$` at p: one of the transitions, then only whitespace to the end. */
  predicate DanglingAt(s: string, p: nat)
  {
    exists j :: 0 <= j < |DANGLING_TRANSITIONS| &&
      CaselessAt(s, p, DANGLING_TRANSITIONS[j]) &&
      SpaceRunEnd(s, p + |DANGLING_TRANSITIONS[j]|) == |s|
  }

  /** where the match of a check that starts at p ends, if there is one */
  function MatchEnd(c: GrammarCheck, s: string, p: nat): (r: Option<nat>)
    requires p < |s|
    ensures r.Some? ==> p < r.value <= |s|
    ensures c == IncompleteSentence && r.Some? ==> r.value == |s|
  {
    match c
    case DoubleSpaces =>
      if p + 1 < |s| && s[p] == ' ' && s[p + 1] == ' ' then Some(p + 2) else None
    case MissingPeriod =>
      if p + 2 < |s| && IsLetter(s[p]) && s[p + 1] == '\n' && IsLetter(s[p + 2]) then Some(p + 3) else None
    case RepeatedWords =>
      RepeatedWordEnd(s, p)
    case IncompleteSentence =>
      if Boundary(s, p) && DanglingAt(s, p) then Some(|s|) else None
  }

  /** `preg_match_all('/…/i', $s)` from position p */
  function CountFrom(c: GrammarCheck, s: string, p: nat): nat
    requires p <= |s|
    decreases |s| - p
  {
    if p == |s| then 0
    else match MatchEnd(c, s, p)
      case Some(e) => 1 + CountFrom(c, s, e)
      case None => CountFrom(c, s, p + 1)
  }

  /** the number of matches of one check in s, at most one per character */
  function CountMatches(c: GrammarCheck, s: string): (n: nat)
    ensures n <= |s|
  {
    CountFromBound(c, s, 0);
    CountFrom(c, s, 0)
  }

  /** A check counts nothing exactly when it matches at no position. */
  lemma {:induction false} CountFromZero(c: GrammarCheck, s: string, p: nat)
    requires p <= |s|
    ensures CountFrom(c, s, p) == 0 <==> forall q :: p <= q < |s| ==> MatchEnd(c, s, q).None?
    decreases |s| - p
  {
    if p < |s| {
      if MatchEnd(c, s, p).None? {
        CountFromZero(c, s, p + 1);
      }
    }
  }

  /** Matches do not overlap and each is at least one character long. */
  lemma {:induction false} CountFromBound(c: GrammarCheck, s: string, p: nat)
    requires p <= |s|
    ensures CountFrom(c, s, p) <= |s| - p
    decreases |s| - p
  {
    if p < |s| {
      match MatchEnd(c, s, p)
      case Some(e) => CountFromBound(c, s, e);
      case None => CountFromBound(c, s, p + 1);
    }
  }

  /** The dangling-transition check runs to the end of the text, so it counts at most once. */
  lemma {:induction false} IncompleteAtMostOnce(s: string, p: nat)
    requires p <= |s|
    ensures CountFrom(IncompleteSentence, s, p) <= 1
    decreases |s| - p
  {
    if p < |s| && MatchEnd(IncompleteSentence, s, p).None? {
      IncompleteAtMostOnce(s, p + 1);
    }
  }

  /** Two spaces anywhere are counted. */
  lemma {:induction false} DoubleSpaceCounted(s: string, q: nat)
    requires q + 1 < |s| && s[q] == ' ' && s[q + 1] == ' '
    ensures CountMatches(DoubleSpaces, s) >= 1
  {
    assert MatchEnd(DoubleSpaces, s, q) == Some(q + 2);
    CountFromZero(DoubleSpaces, s, 0);
  }

  /** A whole word, a whitespace run and the same word again in any case, not followed by a
      word character, is counted. */
  lemma {:induction false} RepeatedWordCounted(s: string, p: nat, e: nat, f: nat)
    requires p < e < f && f + (e - p) <= |s|
    requires p == 0 || !IsWordChar(s[p - 1])
    requires forall k :: p <= k < e ==> IsWordChar(s[k])
    requires forall k :: e <= k < f ==> IsSpace(s[k])
    requires CaselessEq(s[f..f + (e - p)], s[p..e])
    requires f + (e - p) == |s| || !IsWordChar(s[f + (e - p)])
    ensures CountMatches(RepeatedWords, s) >= 1
  {
    WordRunEndUnique(s, p, e);
    assert IsWordChar(s[f]) by {
      assert s[f..f + (e - p)][0] == s[f] && s[p..e][0] == s[p];
      assert ToLower(s[f]) == ToLower(s[p]);
    }
    SpaceRunEndUnique(s, e, f);
    assert RepeatedWordEnd(s, p) == Some(f + (e - p));
    assert MatchEnd(RepeatedWords, s, p).Some?;
    CountFromZero(RepeatedWords, s, 0);
  }

  lemma {:induction false} WordRunEndUnique(s: string, q: nat, e: nat)
    requires q <= e <= |s|
    requires forall k :: q <= k < e ==> IsWordChar(s[k])
    requires e == |s| || !IsWordChar(s[e])
    ensures WordRunEnd(s, q) == e
    decreases e - q
  {
    if q < e {
      WordRunEndUnique(s, q + 1, e);
    }
  }

  /** the total of all four checks */
  function SumChecks(checks: seq<GrammarCheck>, s: string): nat
    decreases |checks|
  {
    if checks == [] then 0 else SumChecks(checks[..|checks| - 1], s) + CountMatches(checks[|checks| - 1], s)
  }

  /** `$errorCount`: the matches of the four checks, added up */
  function GrammarErrors(text: string): (n: nat)
    ensures n == CountMatches(DoubleSpaces, text) + CountMatches(MissingPeriod, text)
               + CountMatches(RepeatedWords, text) + CountMatches(IncompleteSentence, text)
    ensures n == 0 <==> forall c, q :: c in GRAMMAR_CHECKS && 0 <= q < |text| ==> MatchEnd(c, text, q).None?
    ensures n <= 4 * |text|
  {
    SumChecksBound(GRAMMAR_CHECKS, text);
    FourChecks(text);
    NoErrorsNoMatch(text);
    SumChecks(GRAMMAR_CHECKS, text)
  }

  lemma {:induction false} FourChecks(text: string)
    ensures SumChecks(GRAMMAR_CHECKS, text) == CountMatches(DoubleSpaces, text) + CountMatches(MissingPeriod, text)
                                              + CountMatches(RepeatedWords, text) + CountMatches(IncompleteSentence, text)
  {
    var c3 := [DoubleSpaces, MissingPeriod, RepeatedWords];
    var c2 := [DoubleSpaces, MissingPeriod];
    assert GRAMMAR_CHECKS[..3] == c3 && c3[..2] == c2 && c2[..1] == [DoubleSpaces] && [DoubleSpaces][..0] == [];
    assert SumChecks([DoubleSpaces], text) == CountMatches(DoubleSpaces, text);
    assert SumChecks(c2, text) == SumChecks([DoubleSpaces], text) + CountMatches(MissingPeriod, text);
    assert SumChecks(c3, text) == SumChecks(c2, text) + CountMatches(RepeatedWords, text);
  }

  /** The sum is zero exactly when no check matches anywhere. */
  lemma {:induction false} NoErrorsNoMatch(text: string)
    ensures SumChecks(GRAMMAR_CHECKS, text) == 0 <==>
      forall c, q :: c in GRAMMAR_CHECKS && 0 <= q < |text| ==> MatchEnd(c, text, q).None?
  {
    FourChecks(text);
    CountFromZero(DoubleSpaces, text, 0);
    CountFromZero(MissingPeriod, text, 0);
    CountFromZero(RepeatedWords, text, 0);
    CountFromZero(IncompleteSentence, text, 0);
  }

  /** No check finds more than one match per character. */
  lemma {:induction false} SumChecksBound(checks: seq<GrammarCheck>, s: string)
    ensures SumChecks(checks, s) <= |checks| * |s|
    decreases |checks|
  {
    if checks != [] {
      SumChecksBound(checks[..|checks| - 1], s);
      CountFromBound(checks[|checks| - 1], s, 0);
      assert (|checks| - 1) * |s| + |s| == |checks| * |s|;
    }
  }

  /** `foreach ($commonErrors as $error => $regex) $errorCount += preg_match_all(…)` */
  method CountGrammarErrors(text: string) returns (errorCount: nat)
    ensures errorCount == GrammarErrors(text)
  {
    errorCount := 0;
    var i := 0;
    while i < |GRAMMAR_CHECKS|
      invariant 0 <= i <= |GRAMMAR_CHECKS|
      invariant errorCount == SumChecks(GRAMMAR_CHECKS[..i], text)
    {
      assert GRAMMAR_CHECKS[..i + 1][..i] == GRAMMAR_CHECKS[..i];
      errorCount := errorCount + CountMatches(GRAMMAR_CHECKS[i], text);
      i := i + 1;
    }
    assert GRAMMAR_CHECKS[..i] == GRAMMAR_CHECKS;
  }

  // -------------------------------------------------------------- sentences

  predicate IsTerminator(c: char) { c == '.' || c == '!' || c == '?' }

  /** `(?<=[.!?])\s+` matches at p */
  predicate BreakAt(s: string, p: nat)
  {
    0 < p < |s| && IsTerminator(s[p - 1]) && IsSpace(s[p])
  }

  /** the matches of `(?<=[.!?])\s+` from p: each one takes the whole whitespace run */
  function BreaksFrom(s: string, p: nat): nat
    requires p <= |s|
    decreases |s| - p
  {
    if p == |s| then 0
    else if BreakAt(s, p) then 1 + BreaksFrom(s, SpaceRunEnd(s, p))
    else BreaksFrom(s, p + 1)
  }

  /** `count(preg_split('/(?<=[.!?])\s+/', $text))`: one more piece than there are breaks */
  function SentenceCount(text: string): (n: nat)
    ensures n >= 1
  {
    1 + BreaksFrom(text, 0)
  }

  /** the number of positions right after a terminator where whitespace starts */
  function BreakPositions(s: string, p: nat): nat
    requires p <= |s|
    decreases |s| - p
  {
    if p == |s| then 0 else (if BreakAt(s, p) then 1 else 0) + BreakPositions(s, p + 1)
  }

  /** Inside a whitespace run there is no break, since a break needs a terminator before it. */
  lemma {:induction false} NoBreakInSpaces(s: string, p: nat, e: nat)
    requires p < e <= |s| && forall k :: p <= k < e ==> IsSpace(s[k])
    ensures BreakPositions(s, p + 1) == BreakPositions(s, e)
    decreases e - p
  {
    if p + 1 < e {
      assert !BreakAt(s, p + 1);
      NoBreakInSpaces(s, p + 1, e);
    }
  }

  /** The splitting scan counts every break position exactly once. */
  lemma {:induction false} BreaksAreBreakPositions(s: string, p: nat)
    requires p <= |s|
    ensures BreaksFrom(s, p) == BreakPositions(s, p)
    decreases |s| - p
  {
    if p < |s| {
      if BreakAt(s, p) {
        var e := SpaceRunEnd(s, p);
        NoBreakInSpaces(s, p, e);
        BreaksAreBreakPositions(s, e);
      } else {
        BreaksAreBreakPositions(s, p + 1);
      }
    }
  }

  /** Text without `.`, `!` or `?` followed by whitespace is one sentence. */
  lemma {:induction false} OneSentenceWithoutBreaks(s: string, p: nat)
    requires p <= |s|
    requires forall q :: p <= q < |s| ==> !BreakAt(s, q)
    ensures BreakPositions(s, p) == 0
    decreases |s| - p
  {
    if p < |s| {
      OneSentenceWithoutBreaks(s, p + 1);
    }
  }

  // ----------------------------------------------------------------- rating

  datatype Rating = Excellent | Good | Fair | Poor

  /** the rank of a rating, best first */
  function Rank(r: Rating): nat
  {
    match r
    case Excellent => 0
    case Good => 1
    case Fair => 2
    case Poor => 3
  }

  function RatingScore(r: Rating): (score: real)
    ensures score == 5.0 - Rank(r) as real
  {
    match r
    case Excellent => 5.0
    case Good => 4.0
    case Fair => 3.0
    case Poor => 2.0
  }

  /** the table of thresholds, first row that fits */
  function RateWriting(errorRatio: real, readability: real, avgSentenceLength: real): (r: Rating)
    ensures r == Excellent <==>
      errorRatio <= 0.5 && readability >= 60.0 && 15.0 <= avgSentenceLength <= 25.0
    ensures Rank(r) <= 1 <==>
      errorRatio <= 1.5 && readability >= 50.0 && 12.0 <= avgSentenceLength <= 30.0
    ensures r != Poor <==>
      errorRatio <= 3.0 && readability >= 40.0 && 8.0 <= avgSentenceLength <= 35.0
  {
    if errorRatio <= 0.5 && readability >= 60.0 && 15.0 <= avgSentenceLength <= 25.0 then Excellent
    else if errorRatio <= 1.5 && readability >= 50.0 && 12.0 <= avgSentenceLength <= 30.0 then Good
    else if errorRatio <= 3.0 && readability >= 40.0 && 8.0 <= avgSentenceLength <= 35.0 then Fair
    else Poor
  }

  /** More grammar errors or lower readability never improve the rating. */
  lemma {:induction false} RatingMonotone(ratio1: real, ratio2: real, read1: real, read2: real, avg: real)
    requires ratio1 <= ratio2 && read2 <= read1
    ensures Rank(RateWriting(ratio1, read1, avg)) <= Rank(RateWriting(ratio2, read2, avg))
  {
  }

  /** Every bound of the table is inclusive, and a little past it the rating drops a row. */
  lemma {:induction false} RatingBoundsInclusive()
    ensures RateWriting(0.5, 60.0, 15.0) == Excellent && RateWriting(0.5, 60.0, 25.0) == Excellent
    ensures RateWriting(1.5, 50.0, 12.0) == Good && RateWriting(1.5, 50.0, 30.0) == Good
    ensures RateWriting(3.0, 40.0, 8.0) == Fair && RateWriting(3.0, 40.0, 35.0) == Fair
    ensures RateWriting(0.6, 60.0, 15.0) == Good && RateWriting(3.1, 40.0, 35.0) == Poor
  {
  }

  /** Sentences of more than 35 words on average are always rated poor. */
  lemma {:induction false} LongSentencesArePoor(ratio: real, read: real, avg: real)
    requires avg > 35.0
    ensures RateWriting(ratio, read, avg) == Poor
  {
  }

  datatype WritingQuality = WritingQuality(
    score: real,
    rating: Rating,
    grammarErrors: nat,
    readabilityScore: real,
    sentenceCount: nat,
    avgSentenceLength: real)

  /** what `analyzeWritingQuality` returns for empty text */
  const DEFAULT_QUALITY: WritingQuality := WritingQuality(0.0, Fair, 0, 0.0, 0, 0.0)

  /** the simplified Flesch reading ease, clamped to [0, 100] */
  function Readability(wordCount: nat, sentenceCount: nat, syllableCount: nat): (r: real)
    requires sentenceCount >= 1
    ensures 0.0 <= r <= 100.0
  {
    var avgWords := wordCount as real / sentenceCount as real;
    var avgSyllables := if wordCount > 0 then syllableCount as real / wordCount as real else 0.0;
    ClampReal(206.835 - 1.015 * avgWords - 84.6 * avgSyllables, 0.0, 100.0)
  }

  /** grammar errors per hundred words */
  function ErrorRatio(errors: nat, wordCount: nat): (r: real)
    ensures r >= 0.0
    ensures errors == 0 ==> r == 0.0
  {
    if wordCount > 0 then errors as real / wordCount as real * 100.0 else 0.0
  }

  /** `analyzeWritingQuality($text)` */
  function WritingQualityOf(text: string): (q: WritingQuality)
    ensures PhpEmpty(text) ==> q == DEFAULT_QUALITY
    ensures !PhpEmpty(text) ==> q.score == RatingScore(q.rating) && q.sentenceCount >= 1
    ensures !PhpEmpty(text) ==>
      && q.grammarErrors == GrammarErrors(text)
      && q.sentenceCount == SentenceCount(text)
      && q.avgSentenceLength == StrWordCount(text) as real / q.sentenceCount as real
      && q.readabilityScore == Readability(StrWordCount(text), q.sentenceCount, TextSyllables(text))
      && q.rating == RateWriting(ErrorRatio(q.grammarErrors, StrWordCount(text)), q.readabilityScore, q.avgSentenceLength)
    ensures 0.0 <= q.readabilityScore <= 100.0
  {
    if PhpEmpty(text) then DEFAULT_QUALITY
    else
      var errors := GrammarErrors(text);
      var sentences := SentenceCount(text);
      var words := StrWordCount(text);
      var avgLength := words as real / sentences as real;
      var readability := Readability(words, sentences, TextSyllables(text));
      var rating := RateWriting(ErrorRatio(errors, words), readability, avgLength);
      WritingQuality(RatingScore(rating), rating, errors, readability, sentences, avgLength)
  }

  /** Non-empty text without words has average sentence length 0, so it is rated poor. */
  lemma {:induction false} NoWordsIsPoor(text: string)
    requires !PhpEmpty(text) && StrWordCount(text) == 0
    ensures WritingQualityOf(text).rating == Poor
  {
  }

  /** `analyzeWritingQuality($text)`, with the loop over the grammar checks */
  method AnalyzeWritingQuality(text: string) returns (q: WritingQuality)
    ensures q == WritingQualityOf(text)
  {
    if text == "" || text == "0" {
      return DEFAULT_QUALITY;
    }
    var errorCount := CountGrammarErrors(text);
    var sentenceCount := SentenceCount(text);
    var wordCount := StrWordCount(text);
    var syllableCount := EstimateSyllableCount(text);
    var avgSentenceLength := wordCount as real / sentenceCount as real;
    var readabilityScore := Readability(wordCount, sentenceCount, syllableCount);
    var rating := RateWriting(ErrorRatio(errorCount, wordCount), readabilityScore, avgSentenceLength);
    q := WritingQuality(RatingScore(rating), rating, errorCount, readabilityScore, sentenceCount, avgSentenceLength);
  }
}
