/** `htmlspecialchars` (PHP 8.1 defaults: ENT_QUOTES, so both quote kinds) and `nl2br`. */
module Html {
  import opened Text

  // markup shared by the generated report and the formatted model answer;
  // long texts are written as joins of short literals throughout, which keeps
  // the proofs about the strings that contain them small
  const REPORT_OPEN: string := "<div class=" + "\"assessment-report\">"
  const SUMMARY_OPEN: string := "<div class=" + "\"critical-issues-summary\">" + "<h4>\U{26A0}\U{FE0F} Key " + "Issues Identified:</h4>"
  const CRITICAL_HEADER: string := "<h3 class=" + "\"critical-issues-header\">" + "CRITICAL ISSUES</h3>"
  const CRITICAL_LIST_OPEN: string := "<ul class=" + "\"critical-issues-list\">"
  const FEEDBACK_SECTION_OPEN: string := "<div class=" + "\"feedback-section\">"

  predicate IsSpecial(c: char) { c == '&' || c == '"' || c == '\'' || c == '<' || c == '>' }

  function EscapeChar(c: char): string
  {
    if c == '&' then "&amp;"
    else if c == '"' then "&quot;"
    else if c == '\'' then "&#039;"
    else if c == '<' then "&lt;"
    else if c == '>' then "&gt;"
    else [c]
  }

  /** `htmlspecialchars($s)` */
  function Escape(s: string): (r: string)
    ensures |r| >= |s|
    decreases |s|
  {
    if s == [] then [] else EscapeChar(s[0]) + Escape(s[1..])
  }

  /** Text holding no character htmlspecialchars rewrites */
  predicate NoSpecials(s: string)
  {
    forall k :: 0 <= k < |s| ==> !IsSpecial(s[k])
  }

  /** Text with no markup characters: nothing that could open a tag or end an attribute */
  predicate NoMarkup(s: string)
  {
    forall k :: 0 <= k < |s| ==> s[k] != '<' && s[k] != '>' && s[k] != '"' && s[k] != '\''
  }

  /** Escaped text never contains `<`, `>` or a quote. */
  lemma {:induction false} EscapeHasNoMarkup(s: string)
    ensures NoMarkup(Escape(s))
    decreases |s|
  {
    if s != [] {
      EscapeHasNoMarkup(s[1..]);
      var e := EscapeChar(s[0]);
      assert Escape(s) == e + Escape(s[1..]);
      assert NoMarkup(e);
    }
  }

  /** Escaping leaves text without special characters unchanged. */
  lemma {:induction false} EscapeIdentity(s: string)
    requires NoSpecials(s)
    ensures Escape(s) == s
    decreases |s|
  {
    if s != [] {
      EscapeIdentity(s[1..]);
      assert s == [s[0]] + s[1..];
    }
  }

  /** Escaping distributes over concatenation. */
  lemma {:induction false} EscapeAppend(a: string, b: string)
    ensures Escape(a + b) == Escape(a) + Escape(b)
    decreases |a|
  {
    if a == [] {
      assert a + b == b;
    } else {
      assert (a + b)[0] == a[0];
      assert (a + b)[1..] == a[1..] + b;
      EscapeAppend(a[1..], b);
    }
  }

  /** `html_entity_decode` for the five entities `htmlspecialchars` produces */
  function Unescape(t: string): (r: string)
    ensures |r| <= |t|
    decreases |t|
  {
    if t == [] then []
    else if |t| >= 5 && t[..5] == "&amp;" then "&" + Unescape(t[5..])
    else if |t| >= 6 && t[..6] == "&quot;" then "\"" + Unescape(t[6..])
    else if |t| >= 6 && t[..6] == "&#039;" then "'" + Unescape(t[6..])
    else if |t| >= 4 && t[..4] == "&lt;" then "<" + Unescape(t[4..])
    else if |t| >= 4 && t[..4] == "&gt;" then ">" + Unescape(t[4..])
    else [t[0]] + Unescape(t[1..])
  }

  /** Decoding undoes the escape of one character. */
  lemma {:induction false} UnescapeEscapeChar(c: char, rest: string)
    ensures Unescape(EscapeChar(c) + rest) == [c] + Unescape(rest)
  {
    var t := EscapeChar(c) + rest;
    if c == '&' {
      assert t[..5] == "&amp;" && t[5..] == rest;
    } else if c == '"' {
      assert t[..5] != "&amp;" by { assert t[1] == 'q'; }
      assert t[..6] == "&quot;" && t[6..] == rest;
    } else if c == '\'' {
      assert t[..5] != "&amp;" by { assert t[1] == '#'; }
      assert t[..6] != "&quot;" by { assert t[1] == '#'; }
      assert t[..6] == "&#039;" && t[6..] == rest;
    } else if c == '<' {
      assert t[..4] == "&lt;" && t[4..] == rest;
      assert |t| >= 5 ==> t[..5] != "&amp;" by { assert t[1] == 'l'; }
      assert |t| >= 6 ==> t[..6] != "&quot;" && t[..6] != "&#039;" by { assert t[1] == 'l'; }
    } else if c == '>' {
      assert t[..4] == "&gt;" && t[4..] == rest;
      assert |t| >= 5 ==> t[..5] != "&amp;" by { assert t[1] == 'g'; }
      assert |t| >= 6 ==> t[..6] != "&quot;" && t[..6] != "&#039;" by { assert t[1] == 'g'; }
      assert t[..4] != "&lt;" by { assert t[1] == 'g'; }
    } else {
      assert t[0] == c && t[1..] == rest;
      assert |t| >= 4 ==> t[..4][0] == c;
      assert |t| >= 5 ==> t[..5][0] == c;
      assert |t| >= 6 ==> t[..6][0] == c;
    }
  }

  /** Decoding the escaped text gives back the original. */
  lemma {:induction false} UnescapeEscape(s: string)
    ensures Unescape(Escape(s)) == s
    decreases |s|
  {
    if s != [] {
      UnescapeEscapeChar(s[0], Escape(s[1..]));
      UnescapeEscape(s[1..]);
      assert s == [s[0]] + s[1..];
    }
  }

  const BR: string := "<br />"

  /** `nl2br($s)`: `<br />` before each line break; `\r\n` and `\n\r` count as one break */
  function Nl2br(s: string): (r: string)
    ensures |r| >= |s|
    ensures s != [] && s[0] != '\n' && s[0] != '\r' ==> r != [] && r[0] == s[0]
    decreases |s|
  {
    if s == [] then []
    else if |s| >= 2 && ((s[0] == '\r' && s[1] == '\n') || (s[0] == '\n' && s[1] == '\r')) then
      BR + s[..2] + Nl2br(s[2..])
    else if s[0] == '\n' || s[0] == '\r' then BR + [s[0]] + Nl2br(s[1..])
    else [s[0]] + Nl2br(s[1..])
  }

  /** the text with every `<br />` taken out */
  function StripBr(t: string): string
    decreases |t|
  {
    if t == [] then []
    else if |t| >= 6 && t[..6] == BR then StripBr(t[6..])
    else [t[0]] + StripBr(t[1..])
  }

  lemma {:induction false} StripBrKeeps(c: char, rest: string)
    requires c != '<'
    ensures StripBr([c] + rest) == [c] + StripBr(rest)
  {
    var t := [c] + rest;
    assert t[0] == c && t[1..] == rest;
    assert |t| >= 6 ==> t[..6][0] == c;
  }

  lemma {:induction false} StripBrDrops(rest: string)
    ensures StripBr(BR + rest) == StripBr(rest)
  {
    var t := BR + rest;
    assert t[..6] == BR && t[6..] == rest;
  }

  /** `nl2br` only inserts: taking its tags out again gives back text that has no `<`. */
  lemma {:induction false} Nl2brOnlyInserts(s: string)
    requires forall k :: 0 <= k < |s| ==> s[k] != '<'
    ensures StripBr(Nl2br(s)) == s
    decreases |s|
  {
    if s == [] {
    } else if |s| >= 2 && ((s[0] == '\r' && s[1] == '\n') || (s[0] == '\n' && s[1] == '\r')) {
      var n := Nl2br(s[2..]);
      assert BR + s[..2] + n == BR + ([s[0]] + ([s[1]] + n));
      Nl2brOnlyInserts(s[2..]);
      StripBrDrops([s[0]] + ([s[1]] + n));
      StripBrKeeps(s[0], [s[1]] + n);
      StripBrKeeps(s[1], n);
      assert s == [s[0]] + ([s[1]] + s[2..]);
    } else if s[0] == '\n' || s[0] == '\r' {
      var n := Nl2br(s[1..]);
      assert BR + [s[0]] + n == BR + ([s[0]] + n);
      Nl2brOnlyInserts(s[1..]);
      StripBrDrops([s[0]] + n);
      StripBrKeeps(s[0], n);
      assert s == [s[0]] + s[1..];
    } else {
      Nl2brOnlyInserts(s[1..]);
      StripBrKeeps(s[0], Nl2br(s[1..]));
      assert s == [s[0]] + s[1..];
    }
  }

  /** Text without line breaks passes through `nl2br` unchanged. */
  lemma {:induction false} Nl2brNoBreaks(s: string)
    requires forall k :: 0 <= k < |s| ==> s[k] != '\n' && s[k] != '\r'
    ensures Nl2br(s) == s
    decreases |s|
  {
    if s != [] {
      Nl2brNoBreaks(s[1..]);
      assert s == [s[0]] + s[1..];
    }
  }
}
