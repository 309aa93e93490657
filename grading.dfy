/** `gradeSubmission`: grade one extracted text, either from the model's answer
    or, when the text is too short or the remote call does not give a usable
    answer, from the local analyses and random draws.

    The request itself is not modelled: what came back is the parameter
    `outcome`, and every `mt_rand` value is a field of `draws`. */
module Grading {
  import opened Text
  import opened Words
  import opened Paragraphs
  import opened Quality
  import opened WordLimit
  import opened Dimensions
  import opened Html
  import opened HeuristicReport
  import opened FeedbackFormat

  /** what the chat-completion request produced */
  datatype RemoteOutcome =
    | TransportFailure(curlError: string)     // `curl_exec` returned false; `curl_error($ch)`
    | HttpError(errorMessage: Option<string>) // a status other than 200; `error.message` of the body, if set
    | Answered(content: Option<string>)       // status 200; `choices[0].message.content`, if set

  /** the `writingQuality` entry: measured, or the fixed stand-in of the short-text branch */
  datatype QualityEntry =
    | Measured(quality: WritingQuality)
    | ShortTextPlaceholder            // `['rating' => 'poor', 'score' => 2.0]`

  /** the array `gradeSubmission` returns; `error` is the optional `error` key */
  datatype Grade = Grade(
    error: Option<string>,
    score: int,
    confidence: int,
    feedback: string,
    dimensionalScores: DimensionalScores,
    writingQuality: QualityEntry,
    wordCount: nat,
    wordCountDetails: WordCountAnalysis)

  /** every random value one call may use */
  datatype GradeDraws = GradeDraws(
    score: int,               // mt_rand(60, 95)
    confidence: int,          // mt_rand(60, 95)
    baseValue: int,           // the random-mode base, mt_rand(60, 90)
    randomOffsets: Offsets,   // the random-mode offsets
    anchoredOffsets: Offsets, // the offsets around the model's score
    report: ReportDraws)      // the draws of `simulateAIFeedback`

  predicate ValidGradeDraws(d: GradeDraws)
  {
    InRange(d.score, 60, 95) && InRange(d.confidence, 60, 95) &&
    ValidDraws(RandomBase(d.baseValue), d.randomOffsets) &&
    ValidDraws(Anchored(0), d.anchoredOffsets) &&
    ValidReportDraws(d.report)
  }

  /** the bytes of one character in UTF-8 */
  function Utf8Width(c: char): (n: nat)
    ensures 1 <= n <= 4
  {
    if c as int < 0x80 then 1 else if c as int < 0x800 then 2 else if c as int < 0x10000 then 3 else 4
  }

  /** `strlen($text)`: the length of the UTF-8 encoding */
  function Utf8Length(s: string): (n: nat)
    ensures |s| <= n <= 4 * |s|
  {
    if s == [] then 0 else Utf8Width(s[0]) + Utf8Length(s[1..])
  }

  const SHORT_TEXT_BYTES: nat := 50

  const SHORT_TEXT_FEEDBACK: string :=
    "<p>This appears to be a " + "very short document. " + "Please ensure the full " + "text was properly " + "extracted. " +
    "Based on the limited " + "content provided, " + "here's a provisional " + "assessment:</p>" +
    "<p><strong>" + "Score:</strong> 75<br>" + "<strong>" + "Confidence:</strong> " + "70</p>" +
    "<p><strong>" + "Feedback:</strong> The " + "document provides " + "minimal content to " + "evaluate. " +
    "For a complete " + "assessment, please " + "provide a more detailed " + "submission covering " + "strategies, " +
    "initiatives, goals, and " + "metrics.</p>"

  const API_ERROR_OPEN: string := "<p><strong>API Error " + "occurred:</strong> "
  const API_ERROR_CLOSE: string := "</p><p>Here's a " + "provisional assessment " + "based on document " + "analysis:</p>"
  const UNKNOWN_API_ERROR: string := "Unknown API error"
  const INVALID_FORMAT_NOTE: string :=
    "<p><strong>" + "Error:</strong> Invalid " + "API response format. " + "Here's a provisional " + "assessment:</p>"

  // ---------------------------------------------------------------- reading the model's answer

  /** `lit:?\s*(\d+)` under /i at p: the digits, if the pattern matches there.
      With a `:` after the label the match needs the digits after it: without
      the `:` the next character would be the `:`, which is no digit. */
  function LabelledNumberAt(s: string, p: nat, lit: string): (r: Option<string>)
    requires p <= |s|
    ensures r.Some? ==> |r.value| > 0 && AllDigits(r.value)
    ensures r.Some? <==> CaselessAt(s, p, lit) && exists f: nat :: GapThenDigit(s, p, lit, f)
    ensures r.Some? ==> exists f: nat :: GapThenDigit(s, p, lit, f) && r.value == s[f..DigitRunEnd(s, f)]
  {
    if !CaselessAt(s, p, lit) then None
    else
      var q := p + |lit|;
      var f := SpaceRunEnd(s, if q < |s| && s[q] == ':' then q + 1 else q);
      var d := DigitRunEnd(s, f);
      GapEndsAtDigits(s, p, lit);
      if d > f then
        assert GapThenDigit(s, p, lit, f);
        Some(s[f..d])
      else None
  }

  /** `:?\s*` from the end of the label at p to f, where a digit follows:
      an optional colon, then whitespace */
  predicate GapThenDigit(s: string, p: nat, lit: string, f: nat)
  {
    var q := p + |lit|;
    q <= f < |s| && IsDigit(s[f]) && forall k :: q <= k < f ==> IsSpace(s[k]) || (k == q && s[k] == ':')
  }

  /** Whatever way `:?\s*` reaches a digit, it is where the colon and the whitespace end. */
  lemma {:induction false} GapEndsAtDigits(s: string, p: nat, lit: string)
    requires p + |lit| <= |s|
    ensures forall f: nat :: GapThenDigit(s, p, lit, f) ==>
      var q := p + |lit|;
      f == SpaceRunEnd(s, if q < |s| && s[q] == ':' then q + 1 else q)
  {
    var q := p + |lit|;
    forall f: nat | GapThenDigit(s, p, lit, f)
      ensures f == SpaceRunEnd(s, if q < |s| && s[q] == ':' then q + 1 else q)
    {
      if s[q] == ':' {
        assert f != q;
        SpaceRunEndUnique(s, q + 1, f);
      } else {
        SpaceRunEndUnique(s, q, f);
      }
    }
  }

  /** `preg_match('/lit:?\s*(\d+)/i', $s, $m)` from p: the group of the leftmost match */
  function FirstLabelledNumber(s: string, lit: string, p: nat): (r: Option<string>)
    requires p <= |s|
    ensures r.Some? ==> |r.value| > 0 && AllDigits(r.value)
    ensures r.Some? <==> exists j :: p <= j <= |s| && LabelledNumberAt(s, j, lit).Some?
    ensures r.Some? ==> exists j :: p <= j <= |s| && LabelledNumberAt(s, j, lit) == r
                                    && forall i :: p <= i < j ==> LabelledNumberAt(s, i, lit).None?
    decreases |s| - p
  {
    var here := LabelledNumberAt(s, p, lit);
    if here.Some? then here
    else if p == |s| then None
    else FirstLabelledNumber(s, lit, p + 1)
  }

  /** `preg_match(...) ? intval($m[1]) : <draw>` */
  function NumberOrDraw(s: string, lit: string, draw: int): (v: int)
    ensures FirstLabelledNumber(s, lit, 0).Some? ==> v == PhpIntval(FirstLabelledNumber(s, lit, 0).value)
    ensures FirstLabelledNumber(s, lit, 0).Some? ==> 0 <= v <= PHP_INT_MAX
    ensures FirstLabelledNumber(s, lit, 0).None? ==> v == draw
  {
    match FirstLabelledNumber(s, lit, 0)
    case Some(g) => PhpIntval(g)
    case None => draw
  }

  /** An answer that opens with the label, a colon, some whitespace and a number
      gives back that number. */
  lemma {:induction false} LabelledNumberRoundTrip(lit: string, shown: string, gap: string, n: nat, rest: string)
    requires |lit| > 0 && CaselessEq(shown, lit)
    requires forall k :: 0 <= k < |gap| ==> IsSpace(gap[k])
    requires rest == [] || !IsDigit(rest[0])
    requires n <= PHP_INT_MAX
    ensures FirstLabelledNumber(shown + ":" + gap + NatToString(n) + rest, lit, 0) == Some(NatToString(n))
    ensures NumberOrDraw(shown + ":" + gap + NatToString(n) + rest, lit, 0) == n
  {
    LabelledNumberAtFront(lit, shown, gap, NatToString(n), rest);
    DigitsRoundTrip(n);
  }

  /** the match at the front of such an answer, for any digits */
  lemma {:induction false} LabelledNumberAtFront(lit: string, shown: string, gap: string, digits: string, rest: string)
    requires |lit| > 0 && CaselessEq(shown, lit)
    requires forall k :: 0 <= k < |gap| ==> IsSpace(gap[k])
    requires |digits| > 0 && AllDigits(digits)
    requires rest == [] || !IsDigit(rest[0])
    ensures LabelledNumberAt(shown + ":" + gap + digits + rest, 0, lit) == Some(digits)
  {
    var s := shown + ":" + gap + digits + rest;
    var q := |lit|;
    var f := q + 1 + |gap|;
    var d := f + |digits|;
    assert s[..|lit|] == shown;
    assert CaselessAt(s, 0, lit);
    assert s[q] == ':';
    assert forall k :: q + 1 <= k < f ==> s[k] == gap[k - q - 1];
    assert f < |s| && s[f] == digits[0];
    SpaceRunEndUnique(s, q + 1, f);
    assert forall k :: f <= k < d ==> s[k] == digits[k - f];
    assert d == |s| || s[d] == rest[0];
    DigitRunEndUnique(s, f, d);
    assert s[f..d] == digits;
  }

  // ---------------------------------------------------------------- the grade

  /** the sub-scores of the branches that do not use the model's answer */
  function RandomScores(w: WordLimitCheck, d: GradeDraws): (r: DimensionalScores)
    requires ValidGradeDraws(d)
    ensures AllInPercent(r)
  {
    GenerateDimensionalScores(RandomBase(d.baseValue), w.penaltyPercent, d.randomOffsets)
  }

  /** the explanation put before the locally generated report in each fallback branch */
  function FallbackNote(outcome: RemoteOutcome): (note: string)
    ensures note == "" <==> outcome.TransportFailure?
  {
    match outcome
    case TransportFailure(_) => ""
    case HttpError(m) => API_ERROR_OPEN + Escape(if m.Some? then m.value else UNKNOWN_API_ERROR) + API_ERROR_CLOSE
    case Answered(_) => INVALID_FORMAT_NOTE
  }

  /** the `error` key: set only when the request itself failed */
  function ErrorEntry(outcome: RemoteOutcome): (e: Option<string>)
    ensures e.Some? <==> outcome.TransportFailure?
  {
    match outcome
    case TransportFailure(msg) => Some("cURL Error: " + msg)
    case _ => None
  }

  predicate IsShortText(text: string) { Utf8Length(text) < SHORT_TEXT_BYTES }

  /** the model answered with content that can be formatted */
  predicate HasAnswer(outcome: RemoteOutcome) { outcome.Answered? && outcome.content.Some? }

  /** `gradeSubmission($text, $apiKey)` */
  function GradeSubmission(text: string, outcome: RemoteOutcome, d: GradeDraws): (g: Grade)
    requires ValidGradeDraws(d)
    ensures g.wordCount == CountWordsAccurately(text)
    ensures g.wordCountDetails == ParagraphStats(text)
    ensures AllInPercent(g.dimensionalScores)
    ensures g.error.Some? <==> !IsShortText(text) && outcome.TransportFailure?
    ensures IsShortText(text) ==>
      g.feedback == SHORT_TEXT_FEEDBACK && g.dimensionalScores == DEFAULT_SCORES &&
      g.writingQuality == ShortTextPlaceholder
    ensures !IsShortText(text) ==> g.writingQuality == Measured(WritingQualityOf(text))
    ensures !HasAnswer(outcome) ==> g.score == d.score && g.confidence == d.confidence
  {
    var wc := CountWordsAccurately(text);
    var details := ParagraphStats(text);
    if IsShortText(text) then
      Grade(None, d.score, d.confidence, SHORT_TEXT_FEEDBACK, GenerateDimensionalScores(Fixed, 0, d.anchoredOffsets),
        ShortTextPlaceholder, wc, details)
    else
      var q := WritingQualityOf(text);
      var w := WordLimitOf(text);
      if HasAnswer(outcome) then
        var answer := outcome.content.value;
        var score := NumberOrDraw(answer, "score", d.score);
        Grade(None, score, NumberOrDraw(answer, "confidence", d.confidence), FormatFeedbackAsHtml(answer),
          GenerateDimensionalScores(Anchored(score), w.penaltyPercent, d.anchoredOffsets), Measured(q), wc, details)
      else
        Grade(ErrorEntry(outcome), d.score, d.confidence, FallbackNote(outcome) + SimulateFeedback(text, q, w, d.report),
          RandomScores(w, d), Measured(q), wc, details)
  }

  // ---------------------------------------------------------------- properties

  /** A text under 50 bytes is graded without looking at the remote outcome. */
  lemma {:induction false} ShortTextIgnoresOutcome(text: string, o1: RemoteOutcome, o2: RemoteOutcome, d: GradeDraws)
    requires ValidGradeDraws(d) && IsShortText(text)
    ensures GradeSubmission(text, o1, d) == GradeSubmission(text, o2, d)
  {
  }

  /** Fewer than 50 characters is always a short text; 50 or more may still be one
      only when some character takes more than one byte. */
  lemma {:induction false} ShortTextByLength(text: string)
    ensures |text| >= SHORT_TEXT_BYTES ==> !IsShortText(text)
    ensures 4 * |text| < SHORT_TEXT_BYTES ==> IsShortText(text)
  {
  }

  /** In every fallback branch the feedback ends with the locally generated report, the
      sub-scores are drawn in random mode and score and confidence are the draws. */
  lemma {:induction false} FallbackUsesLocalReport(text: string, outcome: RemoteOutcome, d: GradeDraws)
    requires ValidGradeDraws(d) && !IsShortText(text) && !HasAnswer(outcome)
    ensures var g := GradeSubmission(text, outcome, d);
      var report := SimulateFeedback(text, WritingQualityOf(text), WordLimitOf(text), d.report);
      |g.feedback| >= |report| && g.feedback[|g.feedback| - |report|..] == report &&
      g.dimensionalScores == RandomScores(WordLimitOf(text), d) &&
      60 <= g.score <= 95 && 60 <= g.confidence <= 95
  {
    var report := SimulateFeedback(text, WritingQualityOf(text), WordLimitOf(text), d.report);
    var note := FallbackNote(outcome);
    var g := GradeSubmission(text, outcome, d);
    assert g.feedback == note + report && g.dimensionalScores == RandomScores(WordLimitOf(text), d);
    EndsWith(note, report);
  }

  lemma {:induction false} EndsWith(a: string, b: string)
    ensures |a + b| >= |b| && (a + b)[|a + b| - |b|..] == b
  {
    assert |a + b| - |b| == |a|;
  }

  /** A failed request reports the transport error text after `cURL Error: `. */
  lemma {:induction false} TransportErrorReported(text: string, msg: string, d: GradeDraws)
    requires ValidGradeDraws(d) && !IsShortText(text)
    ensures GradeSubmission(text, TransportFailure(msg), d).error == Some("cURL Error: " + msg)
  {
  }

  /** An error message from the service is shown escaped: it adds no markup of its own
      and decodes back to the message. */
  lemma {:induction false} HttpErrorEscaped(msg: string)
    ensures FallbackNote(HttpError(Some(msg))) == API_ERROR_OPEN + Escape(msg) + API_ERROR_CLOSE
    ensures NoMarkup(Escape(msg)) && Unescape(Escape(msg)) == msg
  {
    EscapeHasNoMarkup(msg);
    UnescapeEscape(msg);
  }

  /** With an answer, the score is the model's own number, unclamped: an answer that
      opens with `Score:` (in any case) and a number n gets n, and the sub-scores are
      anchored on it. */
  lemma {:induction false} AnswerScoreTaken(text: string, shown: string, gap: string, n: nat, rest: string, d: GradeDraws)
    requires ValidGradeDraws(d) && !IsShortText(text) && CaselessEq(shown, "score")
    requires forall k :: 0 <= k < |gap| ==> IsSpace(gap[k])
    requires rest == [] || !IsDigit(rest[0])
    requires n <= PHP_INT_MAX
    ensures var answer := shown + ":" + gap + NatToString(n) + rest;
      var g := GradeSubmission(text, Answered(Some(answer)), d);
      g.score == n && g.error == None && g.feedback == FormatFeedbackAsHtml(answer) &&
      g.dimensionalScores == GenerateDimensionalScores(Anchored(n), WordLimitOf(text).penaltyPercent, d.anchoredOffsets)
  {
    var answer := shown + ":" + gap + NatToString(n) + rest;
    LabelledNumberRoundTrip("score", shown, gap, n, rest);
    AnswerGrade(text, answer, d);
  }

  /** With an answer, the grade takes its score from the answer's label and formats the answer. */
  lemma {:induction false} AnswerGrade(text: string, answer: string, d: GradeDraws)
    requires ValidGradeDraws(d) && !IsShortText(text)
    ensures var g := GradeSubmission(text, Answered(Some(answer)), d);
      var score := NumberOrDraw(answer, "score", d.score);
      g.score == score && g.error == None && g.feedback == FormatFeedbackAsHtml(answer) &&
      g.dimensionalScores == GenerateDimensionalScores(Anchored(score), WordLimitOf(text).penaltyPercent, d.anchoredOffsets)
  {
    assert HasAnswer(Answered(Some(answer)));
  }

  /** An answer without a labelled score falls back to the drawn score. */
  lemma {:induction false} AnswerWithoutScore(text: string, answer: string, d: GradeDraws)
    requires ValidGradeDraws(d) && !IsShortText(text)
    requires forall j :: 0 <= j <= |answer| ==> !CaselessAt(answer, j, "score")
    ensures GradeSubmission(text, Answered(Some(answer)), d).score == d.score
  {
    assert forall j :: 0 <= j <= |answer| ==> LabelledNumberAt(answer, j, "score").None?;
    AnswerGrade(text, answer, d);
  }
}
