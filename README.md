# Parks and Recreation submission grader — a Dafny model

`process_files.php` receives uploaded assessment submissions and checks each one:
an upload error, a size limit, an allowed extension, and a successful move.
For each file that passes, the handler extracts its text and grades it. When the
OpenAI chat-completion endpoint answers with content, the grade comes from that
answer. In every other case the handler builds a locally generated report
(`simulateAIFeedback`) from random draws and its own text heuristics. Every
grade carries the same analyses of the text:
- an accurate word count (`countWordsAccurately`);
- paragraph pacing (`analyzeWordCount`);
- writing quality (`analyzeWritingQuality`), which uses grammar heuristics, a
  sentence count, syllables and a simplified Flesch score;
- adherence to a 240-words-per-question limit (`checkWordLimitAdherence`);
- four dimensional sub-scores (`generateDimensionalScores`).

The model answer is escaped and turned into HTML (`formatFeedbackAsHtml`).
Grades without an error are stored as rows, and the response reports success
when some submission has an empty error.

The model has one Dafny module per concern:

| module | file | models |
|---|---|---|
| `Text` | text.dfy | PCRE character classes, ASCII case folding, `empty()`, `strpos`, `intval`, `round`, `min`/`max` clamps, `implode`, `trim` |
| `Words` | words.dfy | `countWordsAccurately` as the regex engine runs it, with a run-based reference; `str_word_count` |
| `Paragraphs` | paragraphs.dfy | `analyzeWordCount` |
| `Syllables` | syllables.dfy | `estimateSyllableCount` |
| `Quality` | quality.dfy | `analyzeWritingQuality` |
| `WordLimit` | word_limit.dfy | `checkWordLimitAdherence` |
| `Dimensions` | dimensions.dfy | `generateDimensionalScores` |
| `Html` | html.dfy | `htmlspecialchars`, its decoding, `nl2br`, and the report's fixed tags |
| `HeuristicReport` | heuristic_report.dfy | `simulateAIFeedback` |
| `FeedbackFormat` | feedback_format.dfy | `formatFeedbackAsHtml` |
| `Grading` | grading.dfy | `gradeSubmission` |
| `ApiKey` | api_key.dfy | the lookup of `OPENAI_API_KEY` in the environment and the `.env` file |
| `Uploads` | uploads.dfy | `reArrayFiles`, `getUploadErrorMessage`, the per-file loop and the success flag |

The source's loops are methods: the `.env` scan, `reArrayFiles`, the per-file
loop, the paragraph loop, the syllable loop, the grammar-check loop and the
random-issue loop. Each one is proved equal to the function that specifies it.
The rest of the source is expressions, so the rest of the model is functions.
Every random value (`mt_rand`, `array_rand`) is a parameter, and a predicate
states the range it is drawn from. The outcome of the HTTP request is also a
parameter: a transport failure, an HTTP error, or an answer.

Where the code and its description disagree, the model follows the code:
- In the three fallback branches, the grade's `score` is a fresh
  `mt_rand(60, 95)`. It is not the heuristic score printed inside the
  generated report (`Grading.FallbackUsesLocalReport`).
- The score read from the model's answer is `intval` of the digits. It is not
  clamped to 0..100 (`Grading.AnswerScoreTaken`).
- The short-text test is `strlen`, a byte count. It is modelled as the length
  of the UTF-8 encoding (`Grading.Utf8Length`).
- With a single strength drawn, the code renders an empty strengths list, and so
  does the model's report (`HeuristicReport.OneStrengthBodyListsNone`). The
  intended rendering is modelled beside it (see Findings).

## Model

| member | source | states |
|---|---|---|
| Text.ToLower | process_files.php:953 | lower-cases exactly the ASCII letters and keeps every character's `\w` class |
| Text.IndexOfFrom | process_files.php:695 | `strpos`: the first occurrence at or after the start, or none when nothing occurs there |
| Text.NoOccurrenceWithoutFirstChar | process_files.php:695-704 | a pattern cannot occur in text that lacks its first character |
| Text.DigitsRoundTrip | process_files.php:573 | reading back the decimal digits PHP prints for n gives n |
| Text.PhpIntval | process_files.php:573 | `intval` of a digit string is its value, saturated at PHP_INT_MAX |
| Text.RoundHalfUp | process_files.php:729 | `round` of a non-negative value lies within one half of it |
| Text.Clamp | process_files.php:729 | `min(hi, max(lo, x))` lies in [lo, hi] and is x when x already does |
| Text.TrimLeft | process_files.php:723 | `trim` removes from the front only characters it strips (space, tab, newline, return, NUL, vertical tab), and stops at the first other character |
| Text.TrimRight | process_files.php:723 | `trim` removes from the end only characters it strips, and stops at the last other character |
| Text.Trim | process_files.php:723 | `trim` keeps one contiguous slice, every character around it is a stripped one, and the slice neither starts nor ends with one |
| Words.LastBoundary | process_files.php:297 | backtracking `[\w'-]+` stops at the last `\b` before the run ends |
| Words.CountWordsAccurately | process_files.php:284-301 | the regex count equals the number of maximal `[\w'-]` runs that hold a `\w` character |
| Words.MatchCountIsWordRuns | process_files.php:289-297 | counting the matches in the collapsed text gives that number of runs |
| Words.MatchesFrom | process_files.php:297 | the `preg_match_all` scan finds at most one match per remaining character |
| Words.CollapseSpaces | process_files.php:289 | collapsing never lengthens the text, and a leading whitespace run becomes one space |
| Words.CollapsedSpacing | process_files.php:289 | after collapsing, the only whitespace left is single spaces, never two in a row |
| Words.CollapsePreservesWordRuns | process_files.php:289 | collapsing whitespace changes no word count |
| Words.CountWordsJoin | process_files.php:284-301 | two texts joined by whitespace have the sum of their counts |
| Words.CountWordsMonotone | process_files.php:284-301 | appending text never lowers the count |
| Words.WordRunsSplit | process_files.php:297 | a character outside `[\w'-]` splits the count into the counts of both sides |
| Words.LetterRunsSplit | process_files.php:903 | a non-letter splits the `str_word_count` word list into the lists of both sides |
| Words.LetterRunsNone | process_files.php:903 | text without letters, `'` or `-` holds no `str_word_count` words |
| Words.StrWords | process_files.php:903 | `str_word_count($text, 1)`: at most one word per character, and every word is non-empty and made of letters, `'` and `-` |
| Words.StrWordCount | process_files.php:903 | `str_word_count` counts at most one word per character |
| Words.CountersDisagreeOnNumbers | process_files.php:297 | a word and a number are one word for `str_word_count` and two for `countWordsAccurately` |
| Paragraphs.LastNewlineIn | process_files.php:630 | the last newline in a range, or none when the range has no newline; the greedy `\s*` of a separator backtracks to it |
| Paragraphs.SeparatorEnd | process_files.php:630 | a separator is a blank-line run from one newline to another |
| Paragraphs.SplitParagraphs | process_files.php:627-630 | the split gives at least one paragraph, and the paragraphs' word counts add up to the whole text's count |
| Paragraphs.SplitFrom | process_files.php:630 | the `preg_split` scan always yields at least one piece |
| Paragraphs.SplitFromKeepsWords | process_files.php:630 | the pieces of the rest of the text hold exactly the words of that rest |
| Paragraphs.NoNewlineFrom | process_files.php:630 | text without a newline is a single paragraph |
| Paragraphs.ShortLongDisjoint | process_files.php:638-646 | no paragraph counts as both short and long |
| Paragraphs.RoundToTenth | process_files.php:659 | `round(x, 1)` lies within 0.05 of x |
| Paragraphs.ParagraphStats | process_files.php:626-664 | the word count is the paragraphs' total; at least one paragraph; words per paragraph within 0.05 of the exact average; the short and long counts never exceed the paragraph count together; the pacing is choppy exactly when more than 70% of the paragraphs are short, and dense exactly when it is not choppy and more than 70% are long |
| Paragraphs.ParagraphCounts | process_files.php:638-646 | the analysis counts exactly the paragraphs under 30 words and exactly those over 100 |
| Paragraphs.CountWhereIsCard | process_files.php:638-646 | the counting recursion gives the number of positions whose paragraph passes the test |
| Paragraphs.PacingOf | process_files.php:649-654 | choppy exactly when short paragraphs exceed 70% of the count; dense exactly when they do not and long ones do; balanced exactly when neither does |
| Paragraphs.FewWordsIsChoppy | process_files.php:649-651 | a text under 30 words has only short paragraphs and is choppy |
| Paragraphs.OneLongParagraphIsDense | process_files.php:649-654 | one paragraph of more than 100 words is dense |
| Paragraphs.CountParagraphSizes | process_files.php:638-646 | the loop over the paragraphs counts exactly the short and the long ones |
| Paragraphs.AnalyzeWordCount | process_files.php:626-664 | the method computes exactly the analysis |
| Syllables.LowerLetters | process_files.php:953-954 | only lower-case letters remain, and never more than there were characters |
| Syllables.VowelGroupsPositive | process_files.php:957 | a word has a vowel group exactly when it has a vowel |
| Syllables.ZeroGroupAdjustmentRedundant | process_files.php:960-970 | the "at least one" adjustment never matters: a word gets max(1, groups minus a silent e) |
| Syllables.WordSyllables | process_files.php:956-970 | a word gets at least one syllable and no more than its length |
| Syllables.TextSyllables | process_files.php:947-974 | a text has at least as many syllables as `str_word_count` words |
| Syllables.SumSyllablesAppend | process_files.php:952-971 | the estimate adds up over the words |
| Syllables.CountWordSyllables | process_files.php:953-970 | the loop body computes exactly one word's syllables |
| Syllables.EstimateSyllableCount | process_files.php:947-974 | the loop over the words computes exactly the estimate |
| Quality.MatchEnd | process_files.php:886-895 | every match is non-empty, and a dangling transition only matches up to the end of the text |
| Quality.CountFromZero | process_files.php:895 | a check counts nothing exactly when it matches at no position |
| Quality.CountFromBound | process_files.php:895 | matches do not overlap: at most one per character |
| Quality.CountMatches | process_files.php:895 | one check counts at most one match per character of the text (its zero case is `CountFromZero`) |
| Quality.IncompleteAtMostOnce | process_files.php:890 | the dangling-transition check counts at most one match |
| Quality.DoubleSpaceCounted | process_files.php:887 | two spaces anywhere count as an error |
| Quality.RepeatedWordCounted | process_files.php:889 | a word repeated after whitespace counts as an error |
| Quality.SumChecksBound | process_files.php:893-896 | the error count is at most four per character |
| Quality.GrammarErrors | process_files.php:886-896 | the error count is the sum of the four checks' match counts, at most four per character, and zero exactly when no check matches at any position |
| Quality.NoErrorsNoMatch | process_files.php:886-896 | no errors means no check matches anywhere, and the converse |
| Quality.CountGrammarErrors | process_files.php:893-896 | the loop over the four checks computes exactly their sum |
| Quality.SentenceCount | process_files.php:899-900 | a text always has at least one sentence |
| Quality.BreaksAreBreakPositions | process_files.php:899 | the split counts each whitespace run after `.`, `!` or `?` once |
| Quality.OneSentenceWithoutBreaks | process_files.php:899 | text with no terminator before whitespace is one sentence |
| Quality.RatingScore | process_files.php:920-932 | the scores 5, 4, 3 and 2 go with excellent, good, fair and poor |
| Quality.RateWriting | process_files.php:920-932 | excellent exactly when the first row of the table holds; good or better exactly when the second does; anything but poor exactly when the third does |
| Quality.RatingBoundsInclusive | process_files.php:920-932 | every bound of the table is inclusive: values on a bound get that row's rating, values just past it the next one down |
| Quality.RatingMonotone | process_files.php:920-932 | more grammar errors or lower readability never improve the rating |
| Quality.LongSentencesArePoor | process_files.php:920-932 | sentences of more than 35 words on average are always rated poor |
| Quality.Readability | process_files.php:913-914 | the reading-ease score is clamped to [0, 100] |
| Quality.ErrorRatio | process_files.php:917 | the ratio of errors per hundred words is non-negative, and zero without errors |
| Quality.WritingQualityOf | process_files.php:868-942 | empty text gets the defaults; other text gets its grammar error count, its sentence count, the average sentence length, the clamped readability score, the rating those give, and that rating's score |
| Quality.NoWordsIsPoor | process_files.php:904-932 | non-empty text without words is rated poor |
| Quality.AnalyzeWritingQuality | process_files.php:868-942 | the method computes exactly the analysis |
| WordLimit.QuestionMatchEnd | process_files.php:986 | a `Question\s+\d+` match takes at least ten characters |
| WordLimit.QuestionCount | process_files.php:986 | `?: 1` makes the question count at least one |
| WordLimit.QuestionsBound | process_files.php:986 | each question mention takes at least ten characters |
| WordLimit.ShortTextOneQuestion | process_files.php:986 | text too short to name a question is allowed 240 words |
| WordLimit.OverageRatio | process_files.php:997 | the overage is zero within the limit and positive above it |
| WordLimit.PenaltyPercent | process_files.php:995-1008 | the penalty is zero exactly within the limit, and never above 30% |
| WordLimit.WordLimitOf | process_files.php:979-1016 | the limit is 240 per question; adherence, a zero penalty and a zero overage each hold exactly within the limit; the returned penalty and overage are the band and ratio of the counted words against that limit |
| WordLimit.PenaltyMonotone | process_files.php:995-1008 | more words never give a smaller penalty |
| WordLimit.PenaltyBandEdges | process_files.php:999-1007 | the 5/10/20/30% bands change at 10%, 25% and 50% over the limit |
| Dimensions.Dimension | process_files.php:599 | each sub-score is clamped to [0, 100] and is exact when already inside |
| Dimensions.GenerateDimensionalScores | process_files.php:593-621 | all four sub-scores lie in [0, 100]; the fixed mode gives 75, 70, 65, 60 |
| Dimensions.PenaltyLowersScores | process_files.php:599-610 | a larger penalty never raises a sub-score |
| Dimensions.RandomScoresRange | process_files.php:594-603 | for any penalty, each random sub-score lies within its offset range of the drawn base less the penalty, as far as the clamp allows; without a penalty, each stays above its lowest possible value |
| Dimensions.AnchoredScoresNearBase | process_files.php:604-611 | anchored sub-scores stay within their offset ranges of the given score |
| Html.Escape | process_files.php:671 | escaping never shortens text |
| Html.EscapeHasNoMarkup | process_files.php:671 | escaped text holds no `<`, `>` or quote |
| Html.EscapeIdentity | process_files.php:671 | text without special characters is left unchanged |
| Html.EscapeAppend | process_files.php:671 | escaping distributes over concatenation |
| Html.UnescapeEscape | process_files.php:528 | decoding the escaped text gives back the original |
| Html.Unescape | process_files.php:528 | the decoding partner of the `htmlspecialchars` call, which the source itself never decodes: it is what `UnescapeEscape` and `Grading.HttpErrorEscaped` use to show escaping loses nothing; decoding never lengthens text |
| Html.Nl2brOnlyInserts | process_files.php:692 | `nl2br` only inserts `<br />` tags; taking them out gives back the text |
| Html.Nl2brNoBreaks | process_files.php:692 | text without line breaks is unchanged |
| Html.Nl2br | process_files.php:692 | `nl2br` never shortens text and keeps a first character that is not a line break |
| HeuristicReport.LastPhrase | process_files.php:722 | backtracking the name class stops at the last position followed by the phrase |
| HeuristicReport.ParkGroupFrom | process_files.php:722 | the group found is the leftmost one at or after the start, with the last end its greedy class can back off to; none is found exactly when no group starts there |
| HeuristicReport.ParkName | process_files.php:722-724 | the park name holds only letters, whitespace and dashes |
| HeuristicReport.ParkNameFromText | process_files.php:722-723 | for the leftmost group of name characters right before the phrase, taken to its last end, the name is that group trimmed |
| HeuristicReport.NoPhraseNoName | process_files.php:719-724 | text that never mentions the phrase has no park name |
| HeuristicReport.ParkLabel | process_files.php:800 | the heading shows "the" or the park name, escaped |
| HeuristicReport.HeuristicScore | process_files.php:729-748 | the report's score always lies in [40, 95] |
| HeuristicReport.HeuristicScoreMonotone | process_files.php:729-748 | more words never lower the score; a worse rating or a larger penalty never raises it |
| HeuristicReport.HeuristicScoreUnpenalised | process_files.php:729-748 | without deductions the score is at least 65, and 945 words or more reach the cap of 95 |
| HeuristicReport.DataPoints | process_files.php:731 | the number of data points mentioned lies in [1, 5] |
| HeuristicReport.DataSentence | process_files.php:819-823 | over 300 words the sentence cites the data-point count as one digit from 1 to 5 at its fixed place; otherwise it cites no number |
| HeuristicReport.DrawIssues | process_files.php:781-789 | one issue per draw |
| HeuristicReport.DrawIssuesDistinct | process_files.php:781-789 | the drawn issues come from the pool, and none is drawn twice |
| HeuristicReport.PickRandomIssues | process_files.php:781-789 | the loop with `unset` and `array_values` draws exactly these issues |
| HeuristicReport.IssuePoolDistinct | process_files.php:767-778 | the ten pool issues are pairwise different |
| HeuristicReport.IssuePoolHeads | process_files.php:767-778 | no pool issue starts with `P` or `E` |
| HeuristicReport.DrawnIssuesApart | process_files.php:781-789 | the drawn issues repeat nothing, and none starts with `P` or `E` |
| HeuristicReport.WritingIssue | process_files.php:757 | the writing issue starts with `P`, so it differs from every pool issue |
| HeuristicReport.LimitIssue | process_files.php:762-763 | the word-limit issue starts with `E`, so it differs from every pool issue and from the writing issue |
| HeuristicReport.CriticalIssues | process_files.php:753-789 | the list length is the draws, plus one for a poor or fair rating, plus one when over the limit |
| HeuristicReport.CriticalIssuesContents | process_files.php:753-789 | the writing issue comes first when rated poor or fair, then the limit issue when over the limit, then the drawn issues |
| HeuristicReport.CriticalIssuesDistinct | process_files.php:753-789 | the critical-issues list never names the same issue twice |
| HeuristicReport.SelectedStrengths | process_files.php:845-849 | as intended: one or two strengths, exactly those drawn, in order |
| HeuristicReport.OneStrengthIsLost | process_files.php:845-850 | as written: a single drawn strength renders an empty strengths list, where the intended rendering lists that strength |
| HeuristicReport.StrengthsAsWritten | process_files.php:845-849 | as written: two draws give the intended list, one draw gives none |
| HeuristicReport.ReportScore | process_files.php:729-748 | the printed score lies in [40, 95] |
| HeuristicReport.IssueCountBounds | process_files.php:753-798 | a report always names two to five issues, so its summary box is always shown |
| HeuristicReport.SummaryBox | process_files.php:792-798 | the summary box is empty exactly when there are no issues |
| HeuristicReport.SummaryRepeatsSection | process_files.php:792-860 | the summary box lists exactly the items of the critical-issues section, between their own openers and closers |
| HeuristicReport.CriticalSectionCloses | process_files.php:853-860 | the critical-issues section ends by closing the report container |
| HeuristicReport.Report | process_files.php:750-862 | whatever its issues and body, the report opens with the assessment-report container and ends with `</div>`; with some issue, the summary box comes right after the opening tag |
| HeuristicReport.ReportBody | process_files.php:800-850 | the body opens with the assessment heading and ends with the strengths section as the code renders it: both strengths on a two-strength draw, none on a one-strength draw |
| HeuristicReport.OneStrengthBodyListsNone | process_files.php:845-850 | a one-strength draw makes the report body end with an empty strengths list |
| HeuristicReport.GeneratedReportFramed | process_files.php:718-863 | the report `simulateAIFeedback` (`SimulateFeedback`) returns always opens with the container and the summary box, and closes the container at the end |
| FeedbackFormat.LineEnd | process_files.php:689 | the bullet item runs to the next newline or to the end |
| FeedbackFormat.NumberAfter | process_files.php:674-677 | a labelled number is a non-empty run of digits after the label |
| FeedbackFormat.RuleMatch | process_files.php:674-689 | every match of a pass is non-empty |
| FeedbackFormat.NoMarksNoMatch | process_files.php:674-689 | no pass matches in text that has neither `:` nor `-` |
| FeedbackFormat.RewriteAll | process_files.php:674-689 | the six passes leave text without `:` and `-` unchanged |
| FeedbackFormat.RewriteFromIdentity | process_files.php:674-689 | one `preg_replace` pass over text without `:` or `-` returns the text unchanged |
| FeedbackFormat.CopiedWhereNothingMatches | process_files.php:674-689 | one pass copies every stretch where its pattern matches at no position |
| FeedbackFormat.MidLineNoMatch | process_files.php:674-689 | no pass matches away from the start of a line |
| FeedbackFormat.ScoreLineRewritten | process_files.php:674 | a `Score:` line (any case), whitespace and a number become the score markup around that number |
| FeedbackFormat.ConfidenceLineRewritten | process_files.php:677 | a `Confidence:` line and its number become the confidence markup |
| FeedbackFormat.BulletLineRewritten | process_files.php:689 | a `- item` line becomes `<li>item</li>`, where the item is the rest of the line |
| FeedbackFormat.EmptyBulletKept | process_files.php:689 | a dash and a space with nothing after them are left as they are |
| FeedbackFormat.EscapeKeepsAbsent | process_files.php:671 | escaping brings in no character outside the entities |
| FeedbackFormat.PlainBody | process_files.php:671-701 | text without labels, dashes or line breaks is only escaped |
| FeedbackFormat.PlainFeedback | process_files.php:669-713 | such an answer becomes the escaped text inside the report container |
| FeedbackFormat.WrapWithoutList | process_files.php:707-710 | without a critical-issues list the text is only wrapped |
| FeedbackFormat.IndexOfFromAppend | process_files.php:695-701 | appending a closing tag keeps the first occurrence of a tag where it was |
| FeedbackFormat.CloseAfterOpener | process_files.php:695-704 | a `</ul>` at or after the list opener also lies after its end |
| FeedbackFormat.CloseList | process_files.php:695-697 | only appends `</ul>`; the first list opener stays where it was, and afterwards a `</ul>` follows it |
| FeedbackFormat.CloseSection | process_files.php:699-701 | only appends `</div>`; the first feedback-section opener stays where it was, and afterwards a `</div>` follows it |
| FeedbackFormat.ListAlwaysSummarised | process_files.php:695-706 | once a missing `</ul>` is appended, a critical-issues list always yields the summary box |
| FeedbackFormat.FormattedBody | process_files.php:671-701 | an answer whose rewritten text holds a critical-issues list always yields a summary group |
| FeedbackFormat.SummaryGroup | process_files.php:704 | `(.*?)`: none exactly when no list opener is followed by a `</ul>`; otherwise the text between the leftmost opener and the first `</ul>` after it |
| FeedbackFormat.Wrap | process_files.php:703-710 | the result opens with the assessment-report container and ends with `</div>` |
| FeedbackFormat.FormatFeedbackAsHtml | process_files.php:669-713 | the formatted answer opens with the assessment-report container and ends with `</div>` |
| FeedbackFormat.CriticalListGetsSummary | process_files.php:704-706 | an answer with a critical-issues list starts with the summary box right inside the container |
| Grading.Utf8Length | process_files.php:374 | `strlen` counts one to four bytes per character |
| Grading.LabelledNumberAt | process_files.php:563-564 | the pattern matches at a position exactly when the label (any case), an optional colon and whitespace are followed by a digit there; it captures the whole digit run |
| Grading.GapEndsAtDigits | process_files.php:563-564 | the digits can only start right after the whole whitespace run that follows the label and its optional colon |
| Grading.FirstLabelledNumber | process_files.php:563-564 | the leftmost match at or after the start; none exactly when no position matches |
| Grading.NumberOrDraw | process_files.php:573 | a found number is `intval` of the captured digits, in [0, PHP_INT_MAX]; without one the draw is used |
| Grading.LabelledNumberAtFront | process_files.php:563-564 | at the start of an answer that opens with the label, a colon, whitespace and digits, the pattern captures those digits |
| Grading.LabelledNumberRoundTrip | process_files.php:563-573 | an answer that opens with the label, a colon, whitespace and n reads back n |
| Grading.RandomScores | process_files.php:492 | the fallback sub-scores lie in [0, 100] |
| Grading.ErrorEntry | process_files.php:495 | the `error` key is set exactly for a transport failure |
| Grading.FallbackNote | process_files.php:482-551 | the note before the local report is empty exactly for a transport failure |
| Grading.GradeSubmission | process_files.php:366-588 | word count and details are always computed; sub-scores lie in [0, 100]; an error exactly on a transport failure of a long text; fixed feedback for short text; measured quality otherwise; drawn scores without an answer |
| Grading.ShortTextIgnoresOutcome | process_files.php:374-385 | a text under 50 bytes is graded without the API |
| Grading.ShortTextByLength | process_files.php:374 | 50 characters or more is never short; under 13 characters always is |
| Grading.FallbackUsesLocalReport | process_files.php:482-558 | every fallback ends with the local report, uses random sub-scores, and draws score and confidence in [60, 95] |
| Grading.TransportErrorReported | process_files.php:495 | a failed request reports `cURL Error: ` and the message |
| Grading.HttpErrorEscaped | process_files.php:509-528 | the service's error message is shown escaped: it adds no markup and decodes back to itself |
| Grading.AnswerScoreTaken | process_files.php:563-587 | an answer opening with `Score:` and n is scored n, unclamped, with no error, formatted feedback and sub-scores anchored on n |
| Grading.AnswerGrade | process_files.php:563-587 | with an answer, the score is the labelled number or the draw, there is no error, the feedback is the formatted answer and the sub-scores are anchored on the score |
| Grading.AnswerWithoutScore | process_files.php:563-573 | an answer without a score label gets the drawn score |
| ApiKey.SplitAtEquals | process_files.php:67-68 | the line splits at its first `=`, and joining the parts with `=` gives the line back |
| ApiKey.SplitJoin | process_files.php:68 | splitting `name=value` gives back the name and the value |
| ApiKey.KeyOfLine | process_files.php:67-69 | a usable line is exactly `OPENAI_API_KEY=` and a value that is neither empty nor the placeholder |
| ApiKey.KeyLine | process_files.php:69 | `OPENAI_API_KEY=v` sets v exactly when v is usable |
| ApiKey.KeyFromLines | process_files.php:66-74 | the key found comes from some line; when none is found, no line sets one |
| ApiKey.FirstKeyWins | process_files.php:69-71 | lines after the first usable one do not change the key |
| ApiKey.ScanEnvLines | process_files.php:65-74 | the loop that stops at the first usable line computes exactly the key of the lines |
| ApiKey.LookUpApiKey | process_files.php:59-76 | the key is exactly the resolved one: the usable environment variable, else the first usable `.env` key, else the environment value |
| ApiKey.ResolvedKey | process_files.php:59-76 | a usable environment variable is never overridden; otherwise the first usable `.env` key wins, and without one the (empty or missing) environment value stays |
| Uploads.ReArrayFiles | process_files.php:203-220 | one upload stays as it is; several become one map per upload, with upload i's value of each field |
| Uploads.UploadErrorMessage | process_files.php:225-244 | the generic message comes exactly for codes other than 1, 2, 3, 4, 6, 7 and 8 |
| Uploads.LastIndexOf | process_files.php:116 | the last position of a character, or none when it does not occur |
| Uploads.Extension | process_files.php:116 | the extension has no dot and no slash |
| Uploads.ExtensionAfterLastDot | process_files.php:116 | a name's extension is what follows its last dot |
| Uploads.RejectionOf | process_files.php:101-132 | a file passes exactly when all four checks hold; an upload error is reported first, then the size |
| Uploads.HandleFile | process_files.php:92-169 | the submission keeps the file's name; a rejected file carries only the message of the first failing check |
| Uploads.CleanRows | process_files.php:144-164 | there are never more rows than submissions |
| Uploads.AppendRow | process_files.php:144-164 | each submission adds a row exactly when it has no error |
| Uploads.CountSucceeded | process_files.php:176-178 | the count is positive exactly when some submission has an empty error |
| Uploads.GradedFileKept | process_files.php:136-164 | a file that passes and is graded without error gets the grade's fields |
| Uploads.OnlyTransportFailureUnstored | process_files.php:142-164 | of all grading outcomes, only a failed request of a long text leaves an error and no row |
| Uploads.HandleUpload | process_files.php:92-169 | one pass of the loop gives the file's submission, and a row exactly when it has no error |
| Uploads.ProcessUploads | process_files.php:91-178 | one submission per file, in order; the rows of the error-free ones; success exactly when some error is empty |

## Left out

- `strip_tags` in `countWordsAccurately` is not modelled: the text is taken as already free of tags.
- PCRE's `/u` mode and Unicode properties are not modelled. `\w`, `\s`, `\b` and case folding use their ASCII meanings.
- Paragraphs.PacingOf: the 70% threshold is exact rational arithmetic. PHP computes `$count * 0.7` in doubles, which differs at some counts: `90 * 0.7` is `62.99999999999999`, so 63 short paragraphs out of 90 are choppy in PHP and balanced here (also at 170, 180, 330 and others).
- Floating-point arithmetic is modelled on real numbers: the readability score, the averages, the ratios and `round`. Rounding errors of IEEE doubles are not captured.
- The word-limit penalty is kept as a whole percentage (0, 5, 10, 20 or 30). This is the value `penalty * 100` has everywhere it is used.
- The composition of the HTTP request is not modelled: the JSON body, the headers, the key and the timeout (lines 421-480). The response is a `RemoteOutcome` parameter: a transport failure with its message, a non-200 status with an optional message, or an answer with optional content. JSON decoding is not modelled.
- `Grading.ErrorEntry`: the message of `curl_error` is read after `curl_close`. It is taken as the parameter's message, because PHP 8 keeps the handle's error.
- The debug branch (lines 388-419) is not modelled: `$debugMode` is the constant `false`, so it never runs.
- Reading the upload's text is not modelled: `extractTextFromFile` and `generateSimulatedParkContent` (lines 249-361). Each file gets an `Extraction` parameter, holding either the text or the message of the exception.
- `move_uploaded_file`, `uniqid` naming, the upload directory and file permissions are not modelled. Whether the move succeeded is a parameter.
- The database connection and the SQL `INSERT` are not modelled. A stored row is a value in the returned sequence; statement errors and the database `try`/`catch` are not modelled.
- The request-method check, the outer `try`/`catch`, the JSON response encoding, the headers and logging are not modelled.
- `getenv` and the reading of `.env` into lines are parameters: `file()` with dropped newlines and empty lines. The key is found, but nothing in the model uses it, because the request itself is a parameter.
- `Uploads.ReArrayFiles`: the several-uploads case requires every field list to have as many entries as `name`, as PHP builds them. Ragged input is not modelled.
- `Uploads.Extension`: `pathinfo`'s special cases for a trailing `/` and for names made only of dots are not modelled.
- `HeuristicReport.CriticalIssuesContents` states the list's contents as implications per case. The exact text of the two computed issues is in `WritingIssue` and `LimitIssue`.
- `HeuristicReport.Report`: it states the opening tag and the final `</div>`. It does not prove that the container is closed exactly once.
- `FeedbackFormat.Wrap`: the same holds for the formatted answer's container.
- Header lines in answers are not proved to keep their following bullet: `\s*` after a header also consumes the newline, so the first `- item` line after such a header is not rewritten into `<li>`. The model does what the code does here, but no lemma states it.

## Findings

| source | as written | input that shows it | evidently intended | confidence | as-written member | corrected member |
|---|---|---|---|---|---|---|
| process_files.php:846-849 | `array_rand($keys, mt_rand(1, 2))` returns a single key, not an array, when asked for one, so the `foreach` over it lists no strength | the draw `mt_rand(1, 2) == 1`, with any strength picked | one or two strengths listed, as the comment says | not executed | HeuristicReport.OneStrengthIsLost | HeuristicReport.SelectedStrengths |
