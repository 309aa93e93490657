/** `formatFeedbackAsHtml`: escape the model's answer, turn its labelled lines
    into markup with six multi-line (`/im`) `preg_replace` passes, convert line
    breaks, close a list or section left open, and put a summary of the
    critical issues on top.

    Each pass matches against the text the previous pass produced. `^` holds
    at the start of that text and after each `\n` in it; a match is tried at
    each position from left to right and, when it succeeds, the search resumes
    where it ended. */
module FeedbackFormat {
  import opened Text
  import opened Html

  /** the six labelled-line passes, in the order they run */
  datatype Rule =
    | ScoreLine        // `^Score:\s*(\d+)`
    | ConfidenceLine   // `^Confidence:\s*(\d+)`
    | FeedbackHeader   // `^Feedback:\s*`
    | StrengthsHeader  // `^Strengths:\s*`
    | CriticalHeader   // `^(CRITICAL ISSUES|Areas for Improvement):\s*`
    | Bullet           // `^- (.+)$`

  const RULES: seq<Rule> := [ScoreLine, ConfidenceLine, FeedbackHeader, StrengthsHeader, CriticalHeader, Bullet]

  const FEEDBACK_HEADER_HTML: string := "<h3>Feedback</h3>" + FEEDBACK_SECTION_OPEN
  const STRENGTHS_HEADER_HTML: string := "</div><h3>Strengths</h3>" + "<ul class=" + "\"strengths-list\">"
  const CRITICAL_HEADER_HTML: string := "</ul>" + CRITICAL_HEADER + CRITICAL_LIST_OPEN
  const SCORE_HTML: string := "<strong>Score:</strong> " + "<span class=" + "\"score-value\">"
  const CONFIDENCE_HTML: string := "<strong>Confidence:" + "</strong> <span class=" + "\"confidence-value\">"

  /** `^` under /m */
  predicate LineStart(s: string, p: nat)
    requires p <= |s|
  {
    p == 0 || s[p - 1] == '\n'
  }

  /** the end of the line that contains q: the next `\n`, or the end of the text */
  function LineEnd(s: string, q: nat): (e: nat)
    requires q <= |s|
    ensures q <= e <= |s|
    ensures forall k :: q <= k < e ==> s[k] != '\n'
    ensures e == |s| || s[e] == '\n'
    decreases |s| - q
  {
    if q < |s| && s[q] != '\n' then LineEnd(s, q + 1) else q
  }

  /** `label\s*`, caseless, at p: where the whitespace after the label ends */
  function HeaderEnd(s: string, p: nat, lit: string): (r: Option<nat>)
    requires p <= |s|
    ensures r.Some? ==> p + |lit| <= r.value <= |s|
  {
    if CaselessAt(s, p, lit) then Some(SpaceRunEnd(s, p + |lit|)) else None
  }

  /** `label\s*(\d+)`, caseless, at p: the end of the digits and the digits themselves */
  function NumberAfter(s: string, p: nat, lit: string): (r: Option<(nat, string)>)
    requires p <= |s|
    ensures r.Some? ==> p + |lit| < r.value.0 <= |s| && |r.value.1| > 0 && AllDigits(r.value.1)
  {
    match HeaderEnd(s, p, lit)
    case None => None
    case Some(f) =>
      var d := DigitRunEnd(s, f);
      if d > f then Some((d, s[f..d])) else None
  }

  /** the match of one pass at p: where it ends and what replaces it */
  function RuleMatch(rule: Rule, s: string, p: nat): (m: Option<(nat, string)>)
    requires p <= |s|
    ensures m.Some? ==> p < m.value.0 <= |s|
  {
    if !LineStart(s, p) then None
    else match rule
      case ScoreLine =>
        (match NumberAfter(s, p, "score:")
         case None => None
         case Some((e, g)) => Some((e, SCORE_HTML + g + "</span>")))
      case ConfidenceLine =>
        (match NumberAfter(s, p, "confidence:")
         case None => None
         case Some((e, g)) => Some((e, CONFIDENCE_HTML + g + "</span>")))
      case FeedbackHeader =>
        (match HeaderEnd(s, p, "feedback:")
         case None => None
         case Some(e) => Some((e, FEEDBACK_HEADER_HTML)))
      case StrengthsHeader =>
        (match HeaderEnd(s, p, "strengths:")
         case None => None
         case Some(e) => Some((e, STRENGTHS_HEADER_HTML)))
      case CriticalHeader =>
        // the first alternative is tried first; the two cannot both match at p
        (match HeaderEnd(s, p, "critical issues:")
         case Some(e) => Some((e, CRITICAL_HEADER_HTML))
         case None =>
           match HeaderEnd(s, p, "areas for improvement:")
           case None => None
           case Some(e) => Some((e, CRITICAL_HEADER_HTML)))
      case Bullet =>
        if p + 2 <= |s| && s[p] == '-' && s[p + 1] == ' ' then
          var e := LineEnd(s, p + 2);
          if e > p + 2 then Some((e, "<li>" + s[p + 2..e] + "</li>")) else None
        else None
  }

  /** `preg_replace` of one pass over s, from position p on */
  function RewriteFrom(rule: Rule, s: string, p: nat): string
    requires p <= |s|
    decreases |s| - p
  {
    if p == |s| then []
    else match RuleMatch(rule, s, p)
      case Some((e, rep)) => rep + RewriteFrom(rule, s, e)
      case None => [s[p]] + RewriteFrom(rule, s, p + 1)
  }

  /** the passes one after the other, each over the previous one's result */
  function RewriteAll(rules: seq<Rule>, s: string): (r: string)
    ensures NoLabelMarks(s) ==> r == s
    decreases |rules|
  {
    if rules == [] then s
    else
      var next := RewriteFrom(rules[0], s, 0);
      assert NoLabelMarks(s) ==> next == s by {
        if NoLabelMarks(s) {
          RewriteFromIdentity(rules[0], s, 0);
          assert s[0..] == s;
        }
      }
      RewriteAll(rules[1..], next)
  }

  /** `strpos($t, '<ul class="critical-issues-list">') !== false && strpos($t, '</ul>', <that position>) === false`
      appends `</ul>` */
  function CloseList(t: string): (r: string)
    ensures r == t || r == t + "</ul>"
    ensures IndexOfFrom(t, CRITICAL_LIST_OPEN, 0).None? ==> r == t
    ensures IndexOfFrom(t, CRITICAL_LIST_OPEN, 0).Some? ==>
      IndexOfFrom(r, CRITICAL_LIST_OPEN, 0) == IndexOfFrom(t, CRITICAL_LIST_OPEN, 0) &&
      IndexOfFrom(r, "</ul>", IndexOfFrom(t, CRITICAL_LIST_OPEN, 0).value).Some?
  {
    match IndexOfFrom(t, CRITICAL_LIST_OPEN, 0)
    case Some(i) =>
      if IndexOfFrom(t, "</ul>", i).None? then
        IndexOfFromAppend(t, CRITICAL_LIST_OPEN, 0, "</ul>");
        IndexOfFromAppendAt(t, "</ul>", i);
        t + "</ul>"
      else t
    case None => t
  }

  /** the same for the feedback section and `</div>` */
  function CloseSection(t: string): (r: string)
    ensures r == t || r == t + "</div>"
    ensures IndexOfFrom(t, FEEDBACK_SECTION_OPEN, 0).None? ==> r == t
    ensures IndexOfFrom(t, FEEDBACK_SECTION_OPEN, 0).Some? ==>
      IndexOfFrom(r, FEEDBACK_SECTION_OPEN, 0) == IndexOfFrom(t, FEEDBACK_SECTION_OPEN, 0) &&
      IndexOfFrom(r, "</div>", IndexOfFrom(t, FEEDBACK_SECTION_OPEN, 0).value).Some?
  {
    match IndexOfFrom(t, FEEDBACK_SECTION_OPEN, 0)
    case Some(i) =>
      if IndexOfFrom(t, "</div>", i).None? then
        IndexOfFromAppend(t, FEEDBACK_SECTION_OPEN, 0, "</div>");
        IndexOfFromAppendAt(t, "</div>", i);
        t + "</div>"
      else t
    case None => t
  }

  /** `preg_match('/<ul class="critical-issues-list">(.*?)<\/ul>/s', $t)`: the group.
      The leftmost opener with a `</ul>` after it is the first opener, because a
      later opener has no `</ul>` after it when the first has none. */
  function SummaryGroup(t: string): (g: Option<string>)
    ensures g.None? <==> forall i: nat, k: nat :: !ListMatchAt(t, i, k)
    ensures g.Some? ==> exists i: nat, k: nat ::
      && ListMatchAt(t, i, k) && g.value == t[i + |CRITICAL_LIST_OPEN|..k]
      && (forall j: nat, m: nat :: j < i ==> !ListMatchAt(t, j, m))
      && (forall m: nat :: m < k ==> !ListMatchAt(t, i, m))
  {
    match IndexOfFrom(t, CRITICAL_LIST_OPEN, 0)
    case None => None
    case Some(i) =>
      match IndexOfFrom(t, "</ul>", i + |CRITICAL_LIST_OPEN|)
      case None => None
      case Some(k) =>
        assert ListMatchAt(t, i, k);
        Some(t[i + |CRITICAL_LIST_OPEN|..k])
  }

  /** `<ul class="critical-issues-list">(.*?)<\/ul>` can match from i with its `</ul>` at k */
  predicate ListMatchAt(t: string, i: nat, k: nat)
  {
    OccursAt(t, CRITICAL_LIST_OPEN, i) && i + |CRITICAL_LIST_OPEN| <= k && OccursAt(t, "</ul>", k)
  }

  /** everything `formatFeedbackAsHtml` does before the final wrapping */
  function FormattedBody(feedback: string): (t: string)
    ensures IndexOfFrom(Nl2br(RewriteAll(RULES, Escape(feedback))), CRITICAL_LIST_OPEN, 0).Some? ==> SummaryGroup(t).Some?
  {
    var u := Nl2br(RewriteAll(RULES, Escape(feedback)));
    ListAlwaysSummarised(u);
    CloseSection(CloseList(u))
  }

  /** the outer container, with the summary box first when the text has a critical-issues list */
  function Wrap(t: string): (r: string)
    ensures |r| >= |REPORT_OPEN| + 6
    ensures r[..|REPORT_OPEN|] == REPORT_OPEN
    ensures r[|r| - 6..] == "</div>"
  {
    var body := match SummaryGroup(t)
      case Some(g) => SUMMARY_OPEN + g + "</div>" + t
      case None => t;
    REPORT_OPEN + body + "</div>"
  }

  /** `formatFeedbackAsHtml($feedbackText)` */
  function FormatFeedbackAsHtml(feedback: string): (r: string)
    ensures |r| >= |REPORT_OPEN| + 6 && r[..|REPORT_OPEN|] == REPORT_OPEN && r[|r| - 6..] == "</div>"
  {
    Wrap(FormattedBody(feedback))
  }

  // ---------------------------------------------------------------- properties

  /** Neither a `:` nor a `-`: every pass needs one of the two. */
  predicate NoLabelMarks(s: string)
  {
    forall k :: 0 <= k < |s| ==> s[k] != ':' && s[k] != '-'
  }

  /** A caseless label that ends in `:` matches only a real `:`. */
  lemma {:induction false} ColonEndsLabel(s: string, p: nat, lit: string)
    requires |lit| > 0 && lit[|lit| - 1] == ':'
    requires CaselessAt(s, p, lit)
    ensures s[p + |lit| - 1] == ':'
  {
    var n := |lit| - 1;
    assert ToLower(s[p..p + |lit|][n]) == ToLower(lit[n]);
  }

  /** No pass matches in text that holds neither `:` nor `-`. */
  lemma {:induction false} NoMarksNoMatch(rule: Rule, s: string, p: nat)
    requires p <= |s| && NoLabelMarks(s)
    ensures RuleMatch(rule, s, p) == None
  {
    if CaselessAt(s, p, "score:") { ColonEndsLabel(s, p, "score:"); }
    if CaselessAt(s, p, "confidence:") { ColonEndsLabel(s, p, "confidence:"); }
    if CaselessAt(s, p, "feedback:") { ColonEndsLabel(s, p, "feedback:"); }
    if CaselessAt(s, p, "strengths:") { ColonEndsLabel(s, p, "strengths:"); }
    if CaselessAt(s, p, "critical issues:") { ColonEndsLabel(s, p, "critical issues:"); }
    if CaselessAt(s, p, "areas for improvement:") { ColonEndsLabel(s, p, "areas for improvement:"); }
  }

  /** A pass leaves text without `:` and `-` as it is. */
  lemma {:induction false} RewriteFromIdentity(rule: Rule, s: string, p: nat)
    requires p <= |s| && NoLabelMarks(s)
    ensures RewriteFrom(rule, s, p) == s[p..]
  {
    forall q | p <= q < |s|
      ensures RuleMatch(rule, s, q).None?
    {
      NoMarksNoMatch(rule, s, q);
    }
    CopiedWhereNothingMatches(rule, s, p);
  }

  /** Where no match starts anywhere from p on, a pass copies the rest. */
  lemma {:induction false} CopiedWhereNothingMatches(rule: Rule, s: string, p: nat)
    requires p <= |s|
    requires forall q | p <= q < |s| :: RuleMatch(rule, s, q).None?
    ensures RewriteFrom(rule, s, p) == s[p..]
    decreases |s| - p
  {
    if p < |s| {
      assert RuleMatch(rule, s, p).None?;
      CopiedWhereNothingMatches(rule, s, p + 1);
      assert s[p..] == [s[p]] + s[p + 1..];
    }
  }

  /** `label\s*(\d+)` at the start of a line reads the whole whitespace run and the whole number. */
  lemma {:induction false} NumberAfterLabel(pre: string, shown: string, gap: string, digits: string, rest: string, lit: string)
    requires CaselessEq(shown, lit)
    requires forall k :: 0 <= k < |gap| ==> IsSpace(gap[k])
    requires |digits| > 0 && AllDigits(digits)
    requires rest == [] || !IsDigit(rest[0])
    ensures var s := pre + shown + gap + digits + rest;
      NumberAfter(s, |pre|, lit) == Some((|pre| + |shown| + |gap| + |digits|, digits))
  {
    var s := pre + shown + gap + digits + rest;
    var q := |pre| + |shown|;
    var f := q + |gap|;
    var d := f + |digits|;
    assert s[|pre|..q] == shown;
    assert CaselessAt(s, |pre|, lit);
    assert forall k :: q <= k < f ==> s[k] == gap[k - q];
    assert s[f] == digits[0];
    SpaceRunEndUnique(s, q, f);
    assert forall k :: f <= k < d ==> s[k] == digits[k - f];
    assert d == |s| || s[d] == rest[0];
    DigitRunEndUnique(s, f, d);
    assert s[f..d] == digits;
  }

  /** A line that starts with `Score:` in any case, optional whitespace and a number is
      replaced, up to the end of the number, by the score markup around that number. */
  lemma {:induction false} ScoreLineRewritten(pre: string, shown: string, gap: string, digits: string, rest: string)
    requires pre == [] || pre[|pre| - 1] == '\n'
    requires CaselessEq(shown, "score:")
    requires forall k :: 0 <= k < |gap| ==> IsSpace(gap[k])
    requires |digits| > 0 && AllDigits(digits)
    requires rest == [] || !IsDigit(rest[0])
    ensures var s := pre + shown + gap + digits + rest;
      RuleMatch(ScoreLine, s, |pre|) == Some((|pre| + |shown| + |gap| + |digits|, SCORE_HTML + digits + "</span>"))
  {
    var s := pre + shown + gap + digits + rest;
    assert |pre| > 0 ==> s[|pre| - 1] == pre[|pre| - 1];
    NumberAfterLabel(pre, shown, gap, digits, rest, "score:");
  }

  /** The same for `Confidence:` and the confidence markup. */
  lemma {:induction false} ConfidenceLineRewritten(pre: string, shown: string, gap: string, digits: string, rest: string)
    requires pre == [] || pre[|pre| - 1] == '\n'
    requires CaselessEq(shown, "confidence:")
    requires forall k :: 0 <= k < |gap| ==> IsSpace(gap[k])
    requires |digits| > 0 && AllDigits(digits)
    requires rest == [] || !IsDigit(rest[0])
    ensures var s := pre + shown + gap + digits + rest;
      RuleMatch(ConfidenceLine, s, |pre|) == Some((|pre| + |shown| + |gap| + |digits|, CONFIDENCE_HTML + digits + "</span>"))
  {
    var s := pre + shown + gap + digits + rest;
    assert |pre| > 0 ==> s[|pre| - 1] == pre[|pre| - 1];
    NumberAfterLabel(pre, shown, gap, digits, rest, "confidence:");
  }

  /** Away from the start of a line no pass matches. */
  lemma {:induction false} MidLineNoMatch(rule: Rule, s: string, p: nat)
    requires 0 < p <= |s| && s[p - 1] != '\n'
    ensures RuleMatch(rule, s, p) == None
  {
  }

  lemma {:induction false} LineEndUnique(s: string, q: nat, e: nat)
    requires q <= e <= |s|
    requires forall k :: q <= k < e ==> s[k] != '\n'
    requires e == |s| || s[e] == '\n'
    ensures LineEnd(s, q) == e
    decreases e - q
  {
    if q < e {
      LineEndUnique(s, q + 1, e);
    }
  }

  /** A line `- item` becomes `<li>item</li>`; the item runs to the end of its line. */
  lemma {:induction false} BulletLineRewritten(pre: string, item: string, rest: string)
    requires pre == [] || pre[|pre| - 1] == '\n'
    requires item != [] && forall k :: 0 <= k < |item| ==> item[k] != '\n'
    requires rest == [] || rest[0] == '\n'
    ensures var s := pre + "- " + item + rest;
      RuleMatch(Bullet, s, |pre|) == Some((|pre| + 2 + |item|, "<li>" + item + "</li>"))
  {
    var s := pre + "- " + item + rest;
    var p := |pre|;
    var e := p + 2 + |item|;
    assert p > 0 ==> s[p - 1] == pre[p - 1];
    assert s[p] == '-' && s[p + 1] == ' ';
    assert forall k :: p + 2 <= k < e ==> s[k] == item[k - p - 2];
    assert e == |s| || s[e] == rest[0];
    LineEndUnique(s, p + 2, e);
    assert s[p + 2..e] == item;
  }

  /** A bullet with nothing after the dash and the space is left as it is. */
  lemma {:induction false} EmptyBulletKept(pre: string, rest: string)
    requires pre == [] || pre[|pre| - 1] == '\n'
    requires rest == [] || rest[0] == '\n'
    ensures RuleMatch(Bullet, pre + "- " + rest, |pre|) == None
  {
    var s := pre + "- " + rest;
    var p := |pre|;
    assert p + 2 == |s| || s[p + 2] == rest[0];
  }

  /** characters `htmlspecialchars` may write into an entity */
  predicate EntityChar(c: char)
  {
    c == '&' || c == ';' || c == '#' || IsLetter(c) || IsDigit(c)
  }

  /** Escaping does not introduce a character that is no part of an entity. */
  lemma {:induction false} EscapeKeepsAbsent(s: string, c: char)
    requires !EntityChar(c)
    requires forall k :: 0 <= k < |s| ==> s[k] != c
    ensures forall k :: 0 <= k < |Escape(s)| ==> Escape(s)[k] != c
    decreases |s|
  {
    if s != [] {
      EscapeKeepsAbsent(s[1..], c);
      var e := EscapeChar(s[0]);
      assert forall k :: 0 <= k < |e| ==> e[k] != c;
      assert Escape(s) == e + Escape(s[1..]);
    }
  }

  /** Escaping text with no label, bullet or line break gives text that no step after it changes. */
  lemma {:induction false} PlainBody(feedback: string)
    requires forall k :: 0 <= k < |feedback| ==>
      feedback[k] != ':' && feedback[k] != '-' && feedback[k] != '\n' && feedback[k] != '\r'
    ensures FormattedBody(feedback) == Escape(feedback)
    ensures forall k :: 0 <= k < |Escape(feedback)| ==> Escape(feedback)[k] != '<'
  {
    var e := Escape(feedback);
    EscapeKeepsAbsent(feedback, ':');
    EscapeKeepsAbsent(feedback, '-');
    EscapeKeepsAbsent(feedback, '\n');
    EscapeKeepsAbsent(feedback, '\r');
    EscapeHasNoMarkup(feedback);
    assert NoLabelMarks(e);
    Nl2brNoBreaks(e);
    NoOccurrenceWithoutFirstChar(e, CRITICAL_LIST_OPEN, 0);
    NoOccurrenceWithoutFirstChar(e, FEEDBACK_SECTION_OPEN, 0);
  }

  /** An answer with no label, no bullet and no line break is only escaped and wrapped. */
  lemma {:induction false} PlainFeedback(feedback: string)
    requires forall k :: 0 <= k < |feedback| ==>
      feedback[k] != ':' && feedback[k] != '-' && feedback[k] != '\n' && feedback[k] != '\r'
    ensures FormatFeedbackAsHtml(feedback) == REPORT_OPEN + Escape(feedback) + "</div>"
  {
    PlainBody(feedback);
    WrapWithoutList(Escape(feedback));
  }

  lemma {:induction false} WrapWithoutList(t: string)
    requires forall k :: 0 <= k < |t| ==> t[k] != '<'
    ensures Wrap(t) == REPORT_OPEN + t + "</div>"
  {
    NoOccurrenceWithoutFirstChar(t, CRITICAL_LIST_OPEN, 0);
  }

  /** The first occurrence of a pattern stays the first when text is appended. */
  lemma {:induction false} IndexOfFromAppend(s: string, pat: string, from: nat, x: string)
    requires |pat| > 0 && IndexOfFrom(s, pat, from).Some?
    ensures IndexOfFrom(s + x, pat, from) == IndexOfFrom(s, pat, from)
  {
    var i := IndexOfFrom(s, pat, from).value;
    assert OccursAt(s, pat, i);
    assert (s + x)[i..i + |pat|] == s[i..i + |pat|];
    assert OccursAt(s + x, pat, i);
    forall j: nat | from <= j < i
      ensures !OccursAt(s + x, pat, j)
    {
      assert !OccursAt(s, pat, j);
      assert (s + x)[j..j + |pat|] == s[j..j + |pat|];
    }
    var r := IndexOfFrom(s + x, pat, from);
    assert r.Some?;
    assert r.value == i;
  }

  /** Appending can only add occurrences after the old end. */
  lemma {:induction false} IndexOfFromAppendAt(s: string, pat: string, from: nat)
    requires |pat| > 0 && from <= |s|
    ensures IndexOfFrom(s + pat, pat, from).Some?
  {
    var t := s + pat;
    assert t[|s|..|s| + |pat|] == pat;
    assert OccursAt(t, pat, |s|);
  }

  /** The list opener starts `<u` and has no other `<`. */
  lemma {:induction false} ListOpenBrackets()
    ensures |CRITICAL_LIST_OPEN| > 1 && CRITICAL_LIST_OPEN[1] == 'u'
    ensures forall m :: 1 <= m < |CRITICAL_LIST_OPEN| ==> CRITICAL_LIST_OPEN[m] != '<'
  {
    var a: string := "<ul class=";
    var b: string := "\"critical-issues-list\">";
    assert CRITICAL_LIST_OPEN == a + b;
    forall m | 1 <= m < |CRITICAL_LIST_OPEN|
      ensures CRITICAL_LIST_OPEN[m] != '<'
    {
      if m < |a| {
        assert CRITICAL_LIST_OPEN[m] == a[m];
      } else {
        assert CRITICAL_LIST_OPEN[m] == b[m - |a|];
      }
    }
  }

  /** No `</ul>` starts inside the list opener. */
  lemma {:induction false} CloseTagNotInOpener(t: string, i: nat, k: nat)
    requires OccursAt(t, CRITICAL_LIST_OPEN, i)
    requires i <= k < i + |CRITICAL_LIST_OPEN|
    ensures !OccursAt(t, "</ul>", k)
  {
    var o := CRITICAL_LIST_OPEN;
    ListOpenBrackets();
    assert t[i..i + |o|] == o;
    if k == i {
      assert t[k + 1] == t[i..i + |o|][1] == 'u';
      assert t[k..k + 5][1] == 'u';
    } else if k + 5 <= |t| {
      assert t[k] == t[i..i + |o|][k - i] != '<';
      assert t[k..k + 5][0] != '<';
    }
  }

  /** a `</ul>` at or after the opener is one after its end */
  lemma {:induction false} CloseAfterOpener(t: string, i: nat)
    requires OccursAt(t, CRITICAL_LIST_OPEN, i)
    requires IndexOfFrom(t, "</ul>", i).Some?
    ensures IndexOfFrom(t, "</ul>", i + |CRITICAL_LIST_OPEN|).Some?
  {
    var k := IndexOfFrom(t, "</ul>", i).value;
    if k < i + |CRITICAL_LIST_OPEN| {
      CloseTagNotInOpener(t, i, k);
    }
  }

  /** Once the closers have run, a critical-issues list always yields a summary box. */
  lemma {:induction false} ListAlwaysSummarised(u: string)
    ensures IndexOfFrom(u, CRITICAL_LIST_OPEN, 0).Some? ==> SummaryGroup(CloseSection(CloseList(u))).Some?
  {
    if IndexOfFrom(u, CRITICAL_LIST_OPEN, 0).Some? {
      var i := IndexOfFrom(u, CRITICAL_LIST_OPEN, 0).value;
      var t1 := CloseList(u);
      CloseAfterOpener(t1, i);
      var t2 := CloseSection(t1);
      if t2 != t1 {
        IndexOfFromAppend(t1, CRITICAL_LIST_OPEN, 0, "</div>");
        IndexOfFromAppend(t1, "</ul>", i + |CRITICAL_LIST_OPEN|, "</div>");
      }
    }
  }

  /** the summary box sits right after the report's opening tag */
  lemma {:induction false} SummaryBoxFirst(a: string, b: string, g: string, d: string, t: string, z: string)
    ensures |(a + (b + g + d + t)) + z| >= |a| + |b|
    ensures ((a + (b + g + d + t)) + z)[|a|..|a| + |b|] == b
  {
  }

  /** A formatted answer with a critical-issues list opens with the summary box. */
  lemma {:induction false} CriticalListGetsSummary(feedback: string)
    requires IndexOfFrom(Nl2br(RewriteAll(RULES, Escape(feedback))), CRITICAL_LIST_OPEN, 0).Some?
    ensures var r := FormatFeedbackAsHtml(feedback);
      |r| >= |REPORT_OPEN| + |SUMMARY_OPEN| &&
      r[|REPORT_OPEN|..|REPORT_OPEN| + |SUMMARY_OPEN|] == SUMMARY_OPEN
    ensures var t := FormattedBody(feedback);
      SummaryGroup(t).Some? &&
      FormatFeedbackAsHtml(feedback) == REPORT_OPEN + (SUMMARY_OPEN + SummaryGroup(t).value + "</div>" + t) + "</div>"
  {
    var t := FormattedBody(feedback);
    ListAlwaysSummarised(Nl2br(RewriteAll(RULES, Escape(feedback))));
    var g := SummaryGroup(t).value;
    SummaryBoxFirst(REPORT_OPEN, SUMMARY_OPEN, g, "</div>", t, "</div>");
  }
}
