/** `simulateAIFeedback`: the locally generated assessment report used when
    the remote model cannot be reached or answers badly.

    Every `mt_rand` and `array_rand` result is a parameter (`ReportDraws`);
    a draw is valid when it lies in the range the source asks for. */
module HeuristicReport {
  import opened Text
  import opened Words
  import opened Html
  import opened Quality
  import opened WordLimit

  // ---------------------------------------------------------------- park name

  /** the class `[A-Za-z\s-]` */
  predicate ParkChar(c: char) { IsLetter(c) || IsSpace(c) || c == '-' }

  const PARK_PHRASE: string := " Parks and Recreation"

  function ParkRunEnd(s: string, q: nat): (e: nat)
    requires q <= |s|
    ensures q <= e <= |s|
    ensures forall k :: q <= k < e ==> ParkChar(s[k])
    ensures e == |s| || !ParkChar(s[e])
    decreases |s| - q
  {
    if q < |s| && ParkChar(s[q]) then ParkRunEnd(s, q + 1) else q
  }

  /** Backtracking the greedy `[A-Za-z\s-]+` from e: the last q in (p, e] where the phrase follows. */
  function LastPhrase(s: string, p: nat, e: nat): (r: Option<nat>)
    requires p <= e <= |s|
    ensures r.Some? ==> p < r.value <= e && CaselessAt(s, r.value, PARK_PHRASE)
    ensures r.Some? ==> forall q :: r.value < q <= e ==> !CaselessAt(s, q, PARK_PHRASE)
    ensures r.None? ==> forall q :: p < q <= e ==> !CaselessAt(s, q, PARK_PHRASE)
    decreases e - p
  {
    if e == p then None
    else if CaselessAt(s, e, PARK_PHRASE) then Some(e)
    else LastPhrase(s, p, e - 1)
  }

  /** `([A-Za-z\s-]+) Parks and Recreation` can match with its group at s[a..b] */
  predicate GroupAt(s: string, a: nat, b: nat)
  {
    a < b <= |s| && (forall k :: a <= k < b ==> ParkChar(s[k])) && CaselessAt(s, b, PARK_PHRASE)
  }

  /** the first group of `/([A-Za-z\s-]+) Parks and Recreation/i`, searching runs from p:
      the leftmost start that can match, with the last end the greedy class backs off to */
  function ParkGroupFrom(s: string, p: nat): (r: Option<(nat, nat)>)
    requires p <= |s|
    ensures r.Some? ==> p <= r.value.0 && GroupAt(s, r.value.0, r.value.1)
    ensures r.Some? ==> forall a: nat, b: nat :: p <= a < r.value.0 ==> !GroupAt(s, a, b)
    ensures r.Some? ==> forall b: nat :: r.value.1 < b ==> !GroupAt(s, r.value.0, b)
    ensures r.None? ==> forall a: nat, b: nat :: p <= a ==> !GroupAt(s, a, b)
    decreases |s| - p
  {
    if p == |s| then None
    else if !ParkChar(s[p]) then ParkGroupFrom(s, p + 1)
    else
      var e := ParkRunEnd(s, p);
      GroupsInRun(s, p, e);
      match LastPhrase(s, p, e)
      case Some(q) => Some((p, q))
      case None => ParkGroupFrom(s, e)
  }

  /** A group that starts inside the run s[p..e] ends inside it too, after a phrase found there. */
  lemma {:induction false} GroupsInRun(s: string, p: nat, e: nat)
    requires p < |s| && ParkChar(s[p]) && e == ParkRunEnd(s, p)
    ensures forall a: nat, b: nat :: p <= a < e && GroupAt(s, a, b) ==> b <= e
  {
  }

  /** `trim($matches[1])`, or "" when the pattern does not match */
  function ParkName(text: string): (name: string)
    ensures forall k :: 0 <= k < |name| ==> ParkChar(name[k])
  {
    match ParkGroupFrom(text, 0)
    case Some((a, b)) => TrimKeeps(text[a..b]); Trim(text[a..b])
    case None => ""
  }

  lemma {:induction false} TrimKeeps(g: string)
    requires forall k :: 0 <= k < |g| ==> ParkChar(g[k])
    ensures forall k :: 0 <= k < |Trim(g)| ==> ParkChar(Trim(g)[k])
  {
    var l := TrimLeft(g);
    var r := TrimRight(l);
    assert l == g[|g| - |l|..] && r == l[..|r|];
    forall k | 0 <= k < |r|
      ensures ParkChar(r[k])
    {
      assert r[k] == l[k] == g[|g| - |l| + k];
    }
  }

  /** The park name is the trimmed group of the regex's own match: the leftmost start at which
      the pattern can match, with the last end the greedy class can back off to. */
  lemma {:induction false} ParkNameFromText(text: string, a: nat, b: nat)
    requires GroupAt(text, a, b)
    requires forall a': nat, b': nat :: a' < a ==> !GroupAt(text, a', b')
    requires forall b': nat :: b < b' ==> !GroupAt(text, a, b')
    ensures ParkName(text) == Trim(text[a..b])
  {
    var r := ParkGroupFrom(text, 0);
    assert r.Some?;
    assert r.value.0 == a;
    assert r.value.1 == b;
  }

  /** Text that never mentions the phrase gets the generic name. */
  lemma {:induction false} NoPhraseNoName(text: string)
    requires forall q :: 0 <= q <= |text| ==> !CaselessAt(text, q, PARK_PHRASE)
    ensures ParkName(text) == ""
  {
  }

  lemma {:induction false} ParkCharsAreNotSpecial(name: string)
    requires forall k :: 0 <= k < |name| ==> ParkChar(name[k])
    ensures NoSpecials(name)
  {
    forall k | 0 <= k < |name|
      ensures !IsSpecial(name[k])
    {
      assert ParkChar(name[k]);
    }
  }

  /** `$parkName ? htmlspecialchars($parkName) : "the"`: "" and "0" are false in PHP */
  function ParkLabel(text: string): (shown: string)
    ensures shown == "the" || shown == ParkName(text)
  {
    var name := ParkName(text);
    if PhpEmpty(name) then "the"
    else
      ParkCharsAreNotSpecial(name);
      EscapeIdentity(name);
      Escape(name)
  }

  // ------------------------------------------------------------------- score

  /** the rating deduction: 15 for poor, 7 for fair */
  function RatingDeduction(r: Rating): nat
  {
    match r
    case Poor => 15
    case Fair => 7
    case _ => 0
  }

  /** `round($wordCount / 10)` clamped to [65, 95], less the deductions, clamped to [40, 95] */
  function HeuristicScore(wordCount: nat, rating: Rating, penaltyPercent: nat): (score: int)
    ensures 40 <= score <= 95
  {
    var base := Clamp((wordCount + 5) / 10, 65, 95);
    Clamp(base - RatingDeduction(rating) - penaltyPercent, 40, 95)
  }

  /** The score never falls with more words and never rises with a worse rating or a larger penalty. */
  lemma {:induction false} HeuristicScoreMonotone(w1: nat, w2: nat, r1: Rating, r2: Rating, p1: nat, p2: nat)
    requires w1 <= w2 && RatingDeduction(r2) <= RatingDeduction(r1) && p2 <= p1
    ensures HeuristicScore(w1, r1, p1) <= HeuristicScore(w2, r2, p2)
  {
    assert (w1 + 5) / 10 <= (w2 + 5) / 10;
  }

  /** A well-rated text within its limit scores at least 65; 945 words or more reach the cap. */
  lemma {:induction false} HeuristicScoreUnpenalised(wordCount: nat, rating: Rating)
    requires rating == Excellent || rating == Good
    ensures 65 <= HeuristicScore(wordCount, rating, 0)
    ensures wordCount >= 945 ==> HeuristicScore(wordCount, rating, 0) == 95
  {
  }

  /** `min(5, max(1, round($wordCount / 100)))` */
  function DataPoints(wordCount: nat): (n: int)
    ensures 1 <= n <= 5
  {
    Clamp((wordCount + 50) / 100, 1, 5)
  }

  // ------------------------------------------------------------------ issues

  const ISSUE_POOL: seq<string> := [
    "Lack of specific, " + "measurable outcomes",
    "Insufficient data to " + "support key claims",
    "No clear implementation " + "timeline",
    "Budget allocations lack " + "necessary detail",
    "Failure to address " + "accessibility " + "requirements",
    "Limited innovation in " + "proposed solutions",
    "Inadequate community " + "engagement strategies",
    "No sustainability " + "measures outlined",
    "Weak evidence of best " + "practices application",
    "Missing demographic " + "analysis"
  ]

  /** the pool sizes, apart from the texts, for the bounds on the draws */
  const ISSUE_COUNT: nat := 10

  /** `array_rand` on a pool that shrinks by one each time: pick i is below the pool's size then */
  predicate ValidPicks(poolSize: nat, picks: seq<nat>)
  {
    |picks| <= poolSize && forall i :: 0 <= i < |picks| ==> picks[i] < poolSize - i
  }

  function Remove(pool: seq<string>, k: nat): (r: seq<string>)
    requires k < |pool|
    ensures |r| == |pool| - 1
  {
    pool[..k] + pool[k + 1..]
  }

  /** the issues drawn one by one, each removed from the pool once drawn */
  function DrawIssues(pool: seq<string>, picks: seq<nat>): (r: seq<string>)
    requires ValidPicks(|pool|, picks)
    ensures |r| == |picks|
    decreases |picks|
  {
    if picks == [] then []
    else [pool[picks[0]]] + DrawIssues(Remove(pool, picks[0]), picks[1..])
  }

  predicate Distinct(xs: seq<string>)
  {
    forall i, j :: 0 <= i < j < |xs| ==> xs[i] != xs[j]
  }

  lemma {:induction false} RemoveKeepsDistinct(pool: seq<string>, k: nat)
    requires k < |pool| && Distinct(pool)
    ensures Distinct(Remove(pool, k))
    ensures pool[k] !in Remove(pool, k)
    ensures forall x :: x in Remove(pool, k) ==> x in pool
  {
    var r := Remove(pool, k);
    assert forall i :: 0 <= i < |r| ==> r[i] == (if i < k then pool[i] else pool[i + 1]);
  }

  /** The drawn issues come from the pool and none is drawn twice. */
  lemma {:induction false} DrawIssuesDistinct(pool: seq<string>, picks: seq<nat>)
    requires ValidPicks(|pool|, picks) && Distinct(pool)
    ensures Distinct(DrawIssues(pool, picks))
    ensures forall x :: x in DrawIssues(pool, picks) ==> x in pool
    decreases |picks|
  {
    if picks != [] {
      var k := picks[0];
      var rest := Remove(pool, k);
      RemoveKeepsDistinct(pool, k);
      assert ValidPicks(|rest|, picks[1..]);
      DrawIssuesDistinct(rest, picks[1..]);
      var tail := DrawIssues(rest, picks[1..]);
      assert DrawIssues(pool, picks) == [pool[k]] + tail;
    }
  }

  /** The pool's first and fourth characters already tell its issues apart. */
  lemma {:induction false} IssuePoolDistinct()
    ensures Distinct(ISSUE_POOL)
  {
    var p := ISSUE_POOL;
    assert p[0][0] == 'L' && p[0][3] == 'k';
    assert p[1][0] == 'I' && p[1][3] == 'u';
    assert p[2][0] == 'N' && p[2][3] == 'c';
    assert p[3][0] == 'B' && p[3][3] == 'g';
    assert p[4][0] == 'F' && p[4][3] == 'l';
    assert p[5][0] == 'L' && p[5][3] == 'i';
    assert p[6][0] == 'I' && p[6][3] == 'd';
    assert p[7][0] == 'N' && p[7][3] == 's';
    assert p[8][0] == 'W' && p[8][3] == 'k';
    assert p[9][0] == 'M' && p[9][3] == 's';
  }

  /** No pool issue starts like the writing issue (`P`) or the word-limit issue (`E`). */
  lemma {:induction false} IssuePoolHeads()
    ensures forall x :: x in ISSUE_POOL ==> |x| > 0 && x[0] != 'P' && x[0] != 'E'
  {
  }

  /** The drawn issues are distinct pool issues. */
  lemma {:induction false} DrawnIssuesApart(picks: seq<nat>)
    requires ValidPicks(ISSUE_COUNT, picks)
    ensures Distinct(DrawIssues(ISSUE_POOL, picks))
    ensures forall x :: x in DrawIssues(ISSUE_POOL, picks) ==> |x| > 0 && x[0] != 'P' && x[0] != 'E'
  {
    IssuePoolDistinct();
    IssuePoolHeads();
    DrawIssuesDistinct(ISSUE_POOL, picks);
  }

  /** No issue is listed twice: the drawn ones are distinct, and the writing and
      word-limit issues are none of them. */
  lemma {:induction false} CriticalIssuesDistinct(q: WritingQuality, w: WordLimitCheck, picks: seq<nat>)
    requires ValidPicks(ISSUE_COUNT, picks) && w.overageRatio >= 0.0
    ensures Distinct(CriticalIssues(q, w, picks))
  {
    DrawnIssuesApart(picks);
    DistinctAfterFixed(q.rating == Poor || q.rating == Fair, WritingIssue(q.grammarErrors),
      w.adherence == 0, LimitIssue(w.overageRatio), DrawIssues(ISSUE_POOL, picks));
  }

  /** up to two issues starting with `P` and `E`, put before distinct issues starting otherwise */
  lemma {:induction false} DistinctAfterFixed(hasA: bool, a: string, hasB: bool, b: string, d: seq<string>)
    requires |a| > 0 && a[0] == 'P' && |b| > 0 && b[0] == 'E'
    requires Distinct(d) && forall x :: x in d ==> |x| > 0 && x[0] != 'P' && x[0] != 'E'
    ensures Distinct((if hasA then [a] else []) + (if hasB then [b] else []) + d)
  {
    var front := (if hasA then [a] else []) + (if hasB then [b] else []);
    assert forall x :: x in front ==> x[0] == 'P' || x[0] == 'E';
    DistinctJoin(front, d);
  }

  /** Two lists without repeats and without a common element join into one without repeats. */
  lemma {:induction false} DistinctJoin(xs: seq<string>, ys: seq<string>)
    requires Distinct(xs) && Distinct(ys)
    requires forall x :: x in xs ==> x !in ys
    ensures Distinct(xs + ys)
  {
    var r := xs + ys;
    forall i, j | 0 <= i < j < |r|
      ensures r[i] != r[j]
    {
      if j < |xs| {
        assert r[i] == xs[i] && r[j] == xs[j];
      } else if i < |xs| {
        assert r[i] in xs && r[j] == ys[j - |xs|];
      } else {
        assert r[i] == ys[i - |xs|] && r[j] == ys[j - |xs|];
      }
    }
  }

  /** the loop `for ($i = 0; $i < $randomIssueCount; $i++)` with `unset` and `array_values` */
  method PickRandomIssues(picks: seq<nat>) returns (chosen: seq<string>)
    requires ValidPicks(ISSUE_COUNT, picks)
    ensures chosen == DrawIssues(ISSUE_POOL, picks)
  {
    var potentialIssues := ISSUE_POOL;
    chosen := [];
    var i := 0;
    while i < |picks|
      invariant 0 <= i <= |picks|
      invariant |potentialIssues| == |ISSUE_POOL| - i
      invariant ValidPicks(|potentialIssues|, picks[i..])
      invariant chosen + DrawIssues(potentialIssues, picks[i..]) == DrawIssues(ISSUE_POOL, picks)
    {
      if |potentialIssues| > 0 {
        var randomIndex := picks[i];
        assert picks[i..][1..] == picks[i + 1..];
        chosen := chosen + [potentialIssues[randomIndex]];
        potentialIssues := potentialIssues[..randomIndex] + potentialIssues[randomIndex + 1..];
      }
      i := i + 1;
    }
  }

  /** the writing issue; its first letter sets it apart from every pool issue */
  function WritingIssue(errors: nat): (r: string)
    ensures |r| > 0 && r[0] == 'P'
  {
    "Poor writing quality " + "with approximately " + NatToString(errors) + " grammar/style issues"
  }

  /** the word-limit issue; its first letter sets it apart from every pool issue */
  function LimitIssue(overageRatio: real): (r: string)
    requires overageRatio >= 0.0
    ensures |r| > 0 && r[0] == 'E'
  {
    "Exceeds word limit by " + NatToString(RoundHalfUp(overageRatio * 100.0)) + "%"
  }

  /** `$criticalIssues`: the writing issue, the word-limit issue, then the random issues */
  function CriticalIssues(q: WritingQuality, w: WordLimitCheck, picks: seq<nat>): (r: seq<string>)
    requires ValidPicks(ISSUE_COUNT, picks) && w.overageRatio >= 0.0
    ensures |r| == |picks| + (if q.rating == Poor || q.rating == Fair then 1 else 0) + (if w.adherence == 0 then 1 else 0)
  {
    (if q.rating == Poor || q.rating == Fair then [WritingIssue(q.grammarErrors)] else []) +
    (if w.adherence == 0 then [LimitIssue(w.overageRatio)] else []) +
    DrawIssues(ISSUE_POOL, picks)
  }

  /** The issue list names the writing problem exactly when the rating is poor or fair, and the
      word-limit problem exactly when the text is over the limit. */
  lemma {:induction false} CriticalIssuesContents(q: WritingQuality, w: WordLimitCheck, picks: seq<nat>)
    requires ValidPicks(ISSUE_COUNT, picks) && w.overageRatio >= 0.0
    ensures var r := CriticalIssues(q, w, picks);
      var n := if q.rating == Poor || q.rating == Fair then 1 else 0;
      (n == 1 ==> r[0] == WritingIssue(q.grammarErrors)) &&
      (w.adherence == 0 ==> r[n] == LimitIssue(w.overageRatio) && r[n + 1..] == DrawIssues(ISSUE_POOL, picks)) &&
      (w.adherence != 0 ==> r[n..] == DrawIssues(ISSUE_POOL, picks))
  {
    var r := CriticalIssues(q, w, picks);
    var n := if q.rating == Poor || q.rating == Fair then 1 else 0;
    var a := if q.rating == Poor || q.rating == Fair then [WritingIssue(q.grammarErrors)] else [];
    var b := if w.adherence == 0 then [LimitIssue(w.overageRatio)] else [];
    var d := DrawIssues(ISSUE_POOL, picks);
    assert r == a + b + d;
    assert (a + b + d)[n..] == b + d;
  }

  /** `<li>…</li>` for each item, in order */
  function ListItems(items: seq<string>): string
    decreases |items|
  {
    if items == [] then "" else "<li>" + items[0] + "</li>" + ListItems(items[1..])
  }

  // --------------------------------------------------------------- strengths

  const STRENGTHS: seq<string> := [
    "Basic presentation of " + "departmental mission",
    "Some attempt at budget " + "allocation",
    "Recognition of " + "community engagement " + "importance",
    "Identification of " + "several strategic " + "priorities",
    "Inclusion of " + "demographic data",
    "Acknowledgment of " + "sustainability needs",
    "Maintenance plan " + "outlined"
  ]

  const STRENGTH_COUNT: nat := 7

  /** `array_rand($keys, n)` returns n distinct keys in the array's own order */
  predicate ValidStrengthPicks(picks: seq<nat>)
  {
    1 <= |picks| <= 2 &&
    (forall i :: 0 <= i < |picks| ==> picks[i] < STRENGTH_COUNT) &&
    (forall i, j :: 0 <= i < j < |picks| ==> picks[i] < picks[j])
  }

  /** The strengths as the code is written: with one key, `array_rand` returns the key itself,
      not an array, so `foreach` has nothing to visit and the list stays empty. */
  function StrengthsAsWritten(picks: seq<nat>): (r: seq<string>)
    requires ValidStrengthPicks(picks)
    ensures |picks| == 2 ==> r == SelectedStrengths(picks)
    ensures |picks| == 1 ==> r == []
  {
    if |picks| == 2 then [STRENGTHS[picks[0]], STRENGTHS[picks[1]]] else []
  }

  /** The strengths as intended: one or two, as drawn. */
  function SelectedStrengths(picks: seq<nat>): (r: seq<string>)
    requires ValidStrengthPicks(picks)
    ensures |r| == |picks| && 1 <= |r| <= 2
    ensures forall i :: 0 <= i < |r| ==> r[i] == STRENGTHS[picks[i]]
  {
    seq(|picks|, i requires 0 <= i < |picks| => STRENGTHS[picks[i]])
  }

  const STRENGTHS_OPEN: string := "<h3>Strengths</h3>" + "<ul class=" + "\"strengths-list\">"

  /** the strengths heading and its list */
  function StrengthsSection(items: seq<string>): string
  {
    STRENGTHS_OPEN + ListItems(items) + "</ul>"
  }

  /** When one strength is drawn, the code as written lists none: its report shows an empty
      strengths list where the intended one shows the drawn strength. */
  lemma {:induction false} OneStrengthIsLost(k: nat)
    requires k < STRENGTH_COUNT
    ensures StrengthsAsWritten([k]) == []
    ensures |SelectedStrengths([k])| == 1
    ensures StrengthsSection(StrengthsAsWritten([k])) == STRENGTHS_OPEN + "</ul>"
    ensures StrengthsSection(SelectedStrengths([k])) == STRENGTHS_OPEN + "<li>" + STRENGTHS[k] + "</li>" + "</ul>"
  {
    assert SelectedStrengths([k]) == [STRENGTHS[k]];
    assert ListItems([STRENGTHS[k]]) == "<li>" + STRENGTHS[k] + "</li>" + ListItems([]);
  }

  // ------------------------------------------------------------------ report

  const QUALITIES: seq<string> := [
    "provides a basic " + "overview of current " + "programs but lacks depth",
    "outlines several " + "strategies but fails to " + "demonstrate " + "effectiveness",
    "presents an inadequate " + "framework for " + "recreational services",
    "proposes facility " + "improvements without " + "sufficient ROI analysis",
    "offers a limited " + "foundation for " + "departmental operations"
  ]

  const GOAL_QUALITY: seq<string> := ["poorly articulated", "inadequately defined", "inconsistently " + "structured", "insufficiently developed"]

  const INNOVATION_LEVELS: seq<string> := [
    "showing few innovative " + "approaches",
    "relying excessively on " + "outdated practices",
    "featuring minimal " + "forward-thinking " + "concepts",
    "failing to incorporate " + "modern methodologies"
  ]

  const QUALITY_COUNT: nat := 5
  const GOAL_COUNT: nat := 4
  const INNOVATION_COUNT: nat := 4

  datatype ReportDraws = ReportDraws(
    confidence: int,           // mt_rand(60, 95)
    issuePicks: seq<nat>,      // mt_rand(2, 3) draws of array_rand
    quality: nat,              // array_rand($qualities)
    goal: nat,                 // array_rand($goalQuality)
    innovation: nat,           // array_rand($innovationLevels)
    strengthPicks: seq<nat>)   // array_rand(array_flip($strengths), mt_rand(1, 2))

  predicate ValidReportDraws(d: ReportDraws)
  {
    60 <= d.confidence <= 95 &&
    2 <= |d.issuePicks| <= 3 && ValidPicks(ISSUE_COUNT, d.issuePicks) &&
    d.quality < QUALITY_COUNT && d.goal < GOAL_COUNT && d.innovation < INNOVATION_COUNT &&
    ValidStrengthPicks(d.strengthPicks)
  }


  /** the summary box at the top of the report, shown only when there are issues */
  function SummaryBox(issues: seq<string>): (r: string)
    ensures r == "" <==> issues == []
  {
    if issues == [] then "" else SUMMARY_OPEN + "<ul>" + ListItems(issues) + "</ul></div>"
  }

  /** the critical-issues section at the end of the report */
  function CriticalSection(issues: seq<string>): string
  {
    CRITICAL_HEADER + CRITICAL_LIST_OPEN + ListItems(issues) + "</ul></div>"
  }

  /** The summary box repeats the items of the critical-issues section: what lies between the
      box's `<ul>` and its closers is what lies between the section's list opener and its closers. */
  lemma {:induction false} SummaryRepeatsSection(issues: seq<string>)
    requires issues != []
    ensures var box := SummaryBox(issues);
      var sec := CriticalSection(issues);
      var m := |CRITICAL_HEADER| + |CRITICAL_LIST_OPEN|;
      |box| >= |SUMMARY_OPEN| + 15 && |sec| >= m + 11 &&
      box[..|SUMMARY_OPEN| + 4] == SUMMARY_OPEN + "<ul>" && sec[..m] == CRITICAL_HEADER + CRITICAL_LIST_OPEN &&
      box[|SUMMARY_OPEN| + 4..|box| - 11] == sec[m..|sec| - 11]
  {
    Between(SUMMARY_OPEN + "<ul>", ListItems(issues), "</ul></div>");
    Between(CRITICAL_HEADER + CRITICAL_LIST_OPEN, ListItems(issues), "</ul></div>");
  }

  lemma {:induction false} Between(a: string, x: string, z: string)
    ensures (a + x + z)[..|a|] == a
    ensures (a + x + z)[|a|..|a + x + z| - |z|] == x
  {
  }

  /** the sentence about data: it cites a single-digit count of data points exactly when
      the text has more than 300 words */
  function DataSentence(wordCount: nat): (r: string)
    ensures wordCount > 300 ==> |r| > 40 && r[40] == DigitChar(DataPoints(wordCount) as nat) && '1' <= r[40] <= '5'
    ensures wordCount <= 300 ==> forall k :: 0 <= k < |r| ==> !IsDigit(r[k])
  {
    if wordCount > 300 then
      "The document " + "incorporates " + "approximately " + NatToString(DataPoints(wordCount) as nat) +
      " data points, but fails " + "to effectively connect " + "this data to proposed " + "actions. "
    else "The document is " + "severely lacking in " + "statistical support and " + "concrete examples. "
  }

  /** everything between the summary box and the critical-issues section */
  function ReportBody(text: string, score: nat, d: ReportDraws): (r: string)
    requires ValidReportDraws(d)
    ensures |r| >= 18 && r[..18] == "<h2>Assessment of "
    ensures var strengths := StrengthsSection(StrengthsAsWritten(d.strengthPicks));
      |r| >= |strengths| && r[|r| - |strengths|..] == strengths
  {
    var parts := [
      "<h2>Assessment of ", ParkLabel(text), " Parks and Recreation " + "Submission</h2>",
      "<p><strong>Score:</strong> " + "<span class=\"score-value\">", NatToString(score), "</span><br>",
      "<strong>Confidence:" + "</strong> <span class=" + "\"confidence-value\">", NatToString(d.confidence as nat), "</span></p>",
      "<h3>Feedback</h3>" + "<div class=" + "\"feedback-section\">",
      "<p>The submission ", QUALITIES[d.quality], ". ",
      DataSentence(CountWordsAccurately(text)),
      "Goals are ", GOAL_QUALITY[d.goal], ", ",
      INNOVATION_LEVELS[d.innovation], ".</p></div>",
      StrengthsSection(StrengthsAsWritten(d.strengthPicks))];
    ConcatEnds(parts);
    Concat(parts)
  }

  /** A report drawn with one strength ends with an empty strengths list, as the code prints it. */
  lemma {:induction false} OneStrengthBodyListsNone(text: string, score: nat, d: ReportDraws)
    requires ValidReportDraws(d) && |d.strengthPicks| == 1
    ensures var r := ReportBody(text, score, d);
      |r| >= |STRENGTHS_OPEN| + 5 && r[|r| - |STRENGTHS_OPEN| - 5..] == STRENGTHS_OPEN + "</ul>"
  {
    OneStrengthIsLost(d.strengthPicks[0]);
    assert d.strengthPicks == [d.strengthPicks[0]];
  }

  /** the score the report prints */
  function ReportScore(text: string, q: WritingQuality, w: WordLimitCheck): (score: nat)
    ensures 40 <= score <= 95
  {
    HeuristicScore(CountWordsAccurately(text), q.rating, w.penaltyPercent)
  }

  /** the report's layout: the summary box, the body and the critical-issues section, in one container */
  function Report(issues: seq<string>, body: string): (r: string)
    ensures |r| >= |REPORT_OPEN| + 6 && r[..|REPORT_OPEN|] == REPORT_OPEN && r[|r| - 6..] == "</div>"
    ensures issues != [] ==> |r| >= |REPORT_OPEN| + |SUMMARY_OPEN| + 6 && r[|REPORT_OPEN|..|REPORT_OPEN| + |SUMMARY_OPEN|] == SUMMARY_OPEN
  {
    CriticalSectionCloses(issues);
    Framed(REPORT_OPEN, SummaryBox(issues), body, CriticalSection(issues), "</div>");
    SummaryBoxOpensReport(issues, body);
    REPORT_OPEN + SummaryBox(issues) + body + CriticalSection(issues)
  }

  /** A non-empty issue list puts the summary box right after the container's opening tag. */
  lemma {:induction false} SummaryBoxOpensReport(issues: seq<string>, body: string)
    ensures var r := REPORT_OPEN + SummaryBox(issues) + body + CriticalSection(issues);
      issues != [] ==> |r| >= |REPORT_OPEN| + |SUMMARY_OPEN| && r[|REPORT_OPEN|..|REPORT_OPEN| + |SUMMARY_OPEN|] == SUMMARY_OPEN
  {
    if issues != [] {
      Framed(SUMMARY_OPEN, "<ul>", ListItems(issues), "</ul></div>", "");
      OpensWith(REPORT_OPEN, SummaryBox(issues), body, CriticalSection(issues), SUMMARY_OPEN);
    }
  }

  /** `simulateAIFeedback($text, $writingQuality, $wordLimitData)` */
  function SimulateFeedback(text: string, q: WritingQuality, w: WordLimitCheck, d: ReportDraws): string
    requires ValidReportDraws(d) && w.overageRatio >= 0.0
  {
    Report(CriticalIssues(q, w, d.issuePicks), ReportBody(text, ReportScore(text, q, w), d))
  }

  /** The generated report always opens its container with the summary box, since it always
      names at least two issues, and it closes the container at the end. */
  lemma {:induction false} GeneratedReportFramed(text: string, q: WritingQuality, w: WordLimitCheck, d: ReportDraws)
    requires ValidReportDraws(d) && w.overageRatio >= 0.0
    ensures var r := SimulateFeedback(text, q, w, d);
      |r| >= |REPORT_OPEN| + |SUMMARY_OPEN| + 6 && r[..|REPORT_OPEN|] == REPORT_OPEN &&
      r[|REPORT_OPEN|..|REPORT_OPEN| + |SUMMARY_OPEN|] == SUMMARY_OPEN && r[|r| - 6..] == "</div>"
  {
    var issues := CriticalIssues(q, w, d.issuePicks);
    assert |issues| >= 2;
    var r := Report(issues, ReportBody(text, ReportScore(text, q, w), d));
    assert r == SimulateFeedback(text, q, w, d);
  }

  /** A report always names two to five issues, so its summary box is never left out. */
  lemma {:induction false} IssueCountBounds(q: WritingQuality, w: WordLimitCheck, d: ReportDraws)
    requires ValidReportDraws(d) && w.overageRatio >= 0.0
    ensures var issues := CriticalIssues(q, w, d.issuePicks);
      2 <= |issues| <= 5 && SummaryBox(issues) != ""
  {
  }

  lemma {:induction false} Framed(a: string, b: string, c: string, z: string, tail: string)
    requires |z| >= |tail| && z[|z| - |tail|..] == tail
    ensures |a + b + c + z| >= |a| + |tail|
    ensures (a + b + c + z)[..|a|] == a
    ensures (a + b + c + z)[|a + b + c + z| - |tail|..] == tail
  {
    var r := a + b + c + z;
    assert r[|r| - |z|..] == z;
    assert r[|r| - |tail|..] == z[|z| - |tail|..];
  }

  /** A critical-issues section ends by closing the report container. */
  lemma {:induction false} CriticalSectionCloses(issues: seq<string>)
    ensures |CriticalSection(issues)| >= 6
    ensures CriticalSection(issues)[|CriticalSection(issues)| - 6..] == "</div>"
  {
    var z: string := "</ul></div>";
    assert z[|z| - 6..] == "</div>";
    Framed(CRITICAL_HEADER, CRITICAL_LIST_OPEN, ListItems(issues), z, "</div>");
  }

  /** A part that starts with `head` keeps `head` right after the text before it. */
  lemma {:induction false} OpensWith(a: string, b: string, c: string, z: string, head: string)
    requires |b| >= |head| && b[..|head|] == head
    ensures |a + b + c + z| >= |a| + |head|
    ensures (a + b + c + z)[|a|..|a| + |head|] == head
  {
    var r := a + b + c + z;
    assert r[|a|..|a| + |b|] == b;
  }

}
