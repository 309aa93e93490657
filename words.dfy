/** The two word counters of process_files.php.

    `countWordsAccurately` collapses whitespace and counts the matches of
    `\b[\w'-]+\b`; it is modelled as the regex engine's left-to-right scan
    (leftmost start, greedy run, backtracking to the last word boundary) and
    proved equal to a run-based reference: the number of maximal runs of
    `[\w'-]` characters that contain at least one `\w` character.

    PHP's `str_word_count` is a different counter (letters, `'` and `-`, no
    digits), modelled after its C implementation. */
module Words {
  import opened Text

  // ------------------------------------------------------------ the classes

  /** the character class `[\w'-]` */
  predicate InClass(c: char) { IsWordChar(c) || c == '\'' || c == '-' }

  predicate WordBefore(s: string, i: nat) { 0 < i <= |s| && IsWordChar(s[i - 1]) }
  predicate WordAt(s: string, i: nat) { i < |s| && IsWordChar(s[i]) }

  /** PCRE `\b` at position i (between s[i-1] and s[i]) */
  predicate Boundary(s: string, i: nat) { WordBefore(s, i) != WordAt(s, i) }

  // ------------------------------------------------------ the regex engine

  /** the end of the run of class characters that starts at q */
  function ClassRunEnd(s: string, q: nat): (e: nat)
    requires q <= |s|
    ensures q <= e <= |s|
    ensures forall k :: q <= k < e ==> InClass(s[k])
    ensures e == |s| || !InClass(s[e])
    decreases |s| - q
  {
    if q < |s| && InClass(s[q]) then ClassRunEnd(s, q + 1) else q
  }

  /** Backtracking from e down to q + 1: the first (so the greatest) position with a boundary. */
  function LastBoundary(s: string, q: nat, e: nat): (r: Option<nat>)
    requires q <= e <= |s|
    ensures r.Some? ==> q < r.value <= e && Boundary(s, r.value)
    ensures r.Some? ==> forall k :: r.value < k <= e ==> !Boundary(s, k)
    ensures r.None? ==> forall k :: q < k <= e ==> !Boundary(s, k)
    decreases e - q
  {
    if e == q then None else if Boundary(s, e) then Some(e) else LastBoundary(s, q, e - 1)
  }

  /** The end of the match of `\b[\w'-]+\b` that the engine finds starting at p, if any. */
  function MatchAt(s: string, p: nat): (r: Option<nat>)
    requires p < |s|
    ensures r.Some? ==> p < r.value <= |s|
  {
    if Boundary(s, p) && InClass(s[p]) then LastBoundary(s, p, ClassRunEnd(s, p)) else None
  }

  /** `preg_match_all('/\b[\w'-]+\b/', ...)` scanning from position p */
  function MatchesFrom(s: string, p: nat): (n: nat)
    requires p <= |s|
    ensures n <= |s| - p
    decreases |s| - p
  {
    if p == |s| then 0
    else match MatchAt(s, p)
      case Some(e) => 1 + MatchesFrom(s, e)
      case None => MatchesFrom(s, p + 1)
  }

  /** the length of the run of whitespace at the start of s */
  function SpaceRunLength(s: string): (n: nat)
    ensures n <= |s|
    ensures forall k :: 0 <= k < n ==> IsSpace(s[k])
    ensures n == |s| || !IsSpace(s[n])
    decreases |s|
  {
    if s != [] && IsSpace(s[0]) then 1 + SpaceRunLength(s[1..]) else 0
  }

  /** `preg_replace('/\s+/', ' ', $s)`: each whitespace run becomes one space */
  function CollapseSpaces(s: string): (r: string)
    ensures |r| <= |s|
    ensures s != [] ==> r != [] && r[0] == (if IsSpace(s[0]) then ' ' else s[0])
    decreases |s|
  {
    if s == [] then []
    else if IsSpace(s[0]) then [' '] + CollapseSpaces(s[SpaceRunLength(s)..])
    else [s[0]] + CollapseSpaces(s[1..])
  }

  /** the only whitespace is single spaces */
  predicate SingleSpaced(r: string)
  {
    (forall k :: 0 <= k < |r| && IsSpace(r[k]) ==> r[k] == ' ') &&
    (forall k :: 0 <= k < |r| - 1 ==> !(IsSpace(r[k]) && IsSpace(r[k + 1])))
  }

  /** After collapsing, the only whitespace left is single spaces. */
  lemma {:induction false} CollapsedSpacing(s: string)
    ensures SingleSpaced(CollapseSpaces(s))
    decreases |s|
  {
    if s != [] {
      var rest := if IsSpace(s[0]) then s[SpaceRunLength(s)..] else s[1..];
      CollapsedSpacing(rest);
      var c := CollapseSpaces(rest);
      var r := CollapseSpaces(s);
      assert r == [if IsSpace(s[0]) then ' ' else s[0]] + c;
      if IsSpace(s[0]) && rest != [] {
        assert !IsSpace(rest[0]);
        assert !IsSpace(r[1]);
      }
      forall k | 0 <= k < |r| - 1
        ensures !(IsSpace(r[k]) && IsSpace(r[k + 1]))
      {
        if k > 0 {
          assert r[k] == c[k - 1] && r[k + 1] == c[k];
        }
      }
      forall k | 0 < k < |r|
        ensures IsSpace(r[k]) ==> r[k] == ' '
      {
        assert r[k] == c[k - 1];
      }
    }
  }

  /** `countWordsAccurately($text)`, with `strip_tags` taken as already applied:
      the number of maximal `[\w'-]` runs that hold a `\w` character */
  function CountWordsAccurately(text: string): (n: nat)
    ensures n == WordRuns(text)
  {
    MatchCountIsWordRuns(text);
    MatchesFrom(CollapseSpaces(text), 0)
  }

  // -------------------------------------------------- the run-based reference

  predicate HasWordChar(s: string)
  {
    exists i :: 0 <= i < |s| && IsWordChar(s[i])
  }

  /** the length of the run of class characters at the start of s */
  function RunLength(s: string): (n: nat)
    ensures n <= |s|
    ensures forall k :: 0 <= k < n ==> InClass(s[k])
    ensures n == |s| || !InClass(s[n])
    ensures s != [] && InClass(s[0]) ==> n > 0
    decreases |s|
  {
    if s != [] && InClass(s[0]) then 1 + RunLength(s[1..]) else 0
  }

  /** The number of maximal runs of `[\w'-]` that contain a `\w` character. */
  function WordRuns(s: string): nat
    decreases |s|
  {
    if s == [] then 0
    else if !InClass(s[0]) then WordRuns(s[1..])
    else
      var n := RunLength(s);
      (if HasWordChar(s[..n]) then 1 else 0) + WordRuns(s[n..])
  }

  lemma {:induction false} RunLengthUnique(s: string, n: nat)
    requires n <= |s|
    requires forall k :: 0 <= k < n ==> InClass(s[k])
    requires n == |s| || !InClass(s[n])
    ensures RunLength(s) == n
  {
  }

  lemma {:induction false} RunLengthAtLeast(s: string, n: nat)
    requires n <= |s|
    requires forall k :: 0 <= k < n ==> InClass(s[k])
    ensures RunLength(s) >= n
  {
  }

  lemma {:induction false} ClassRunEndIsRunLength(s: string, p: nat)
    requires p <= |s|
    ensures ClassRunEnd(s, p) - p == RunLength(s[p..])
  {
    var e := ClassRunEnd(s, p);
    var t := s[p..];
    assert forall k :: 0 <= k < e - p ==> t[k] == s[p + k];
    RunLengthUnique(t, e - p);
  }

  lemma {:induction false} ClassRunEndInside(s: string, p: nat, q: nat)
    requires p <= |s| && p <= q <= ClassRunEnd(s, p)
    ensures ClassRunEnd(s, q) == ClassRunEnd(s, p)
    decreases q - p
  {
    if q > p {
      ClassRunEndInside(s, p + 1, q);
    }
  }

  /** Without a boundary, a word character is followed by word characters. */
  lemma {:induction false} NoBoundaryStaysWord(s: string, w: nat, k: nat)
    requires w < k <= |s| && IsWordChar(s[w])
    requires forall j :: w < j <= k ==> !Boundary(s, j)
    ensures k < |s| && IsWordChar(s[k])
    decreases k - w
  {
    assert !Boundary(s, k);
    if k > w + 1 {
      NoBoundaryStaysWord(s, w, k - 1);
    }
  }

  lemma {:induction false} FirstWordChar(s: string, p: nat, r: nat) returns (w: nat)
    requires p <= r <= |s|
    requires exists i :: p <= i < r && IsWordChar(s[i])
    ensures p <= w < r && IsWordChar(s[w])
    ensures forall j :: p <= j < w ==> !IsWordChar(s[j])
    decreases r - p
  {
    if IsWordChar(s[p]) {
      w := p;
    } else {
      var i :| p <= i < r && IsWordChar(s[i]);
      assert i != p;
      w := FirstWordChar(s, p + 1, r);
    }
  }

  /** Positions where no match starts are skipped one by one. */
  lemma {:induction false} SkipNoMatch(s: string, q: nat, r: nat)
    requires q <= r <= |s|
    requires forall k :: q <= k < r ==> MatchAt(s, k).None?
    ensures MatchesFrom(s, q) == MatchesFrom(s, r)
    decreases r - q
  {
    if q < r {
      SkipNoMatch(s, q + 1, r);
    }
  }

  /** p is the first character of a maximal run of class characters. */
  predicate RunStart(s: string, p: nat)
  {
    p < |s| && InClass(s[p]) && (p == 0 || !InClass(s[p - 1]))
  }

  /** A run made only of `'` and `-` holds no boundary, so no match starts in it. */
  lemma {:induction false} RunWithoutWordChar(s: string, p: nat)
    requires RunStart(s, p)
    requires forall k :: p <= k < ClassRunEnd(s, p) ==> !IsWordChar(s[k])
    ensures MatchesFrom(s, p) == MatchesFrom(s, ClassRunEnd(s, p))
  {
    var r := ClassRunEnd(s, p);
    forall k | p <= k < r
      ensures MatchAt(s, k).None?
    {
      assert !Boundary(s, k);
    }
    SkipNoMatch(s, p, r);
  }

  /** A run holding a word character gives exactly one match, which ends inside the run. */
  lemma {:induction false} RunWithWordChar(s: string, p: nat, i: nat)
    requires RunStart(s, p)
    requires p <= i < ClassRunEnd(s, p) && IsWordChar(s[i])
    ensures MatchesFrom(s, p) == 1 + MatchesFrom(s, ClassRunEnd(s, p))
  {
    var r := ClassRunEnd(s, p);
    var w := FirstWordChar(s, p, r);
    forall k | p <= k < w
      ensures MatchAt(s, k).None?
    {
      assert !Boundary(s, k);
    }
    SkipNoMatch(s, p, w);
    ClassRunEndInside(s, p, w);
    assert Boundary(s, w);
    var m := LastBoundary(s, w, r);
    if m.None? {
      NoBoundaryStaysWord(s, w, r);
      assert false;
    }
    var e := m.value;
    assert MatchAt(s, w) == Some(e);
    forall k | e <= k < r
      ensures MatchAt(s, k).None?
    {
      ClassRunEndInside(s, p, k);
    }
    SkipNoMatch(s, e, r);
  }

  /** One maximal run contributes one match if it holds a word character, none otherwise. */
  lemma {:induction false} RunContribution(s: string, p: nat)
    requires RunStart(s, p)
    ensures MatchesFrom(s, p)
      == (if HasWordChar(s[p..ClassRunEnd(s, p)]) then 1 else 0) + MatchesFrom(s, ClassRunEnd(s, p))
  {
    var r := ClassRunEnd(s, p);
    if HasWordChar(s[p..r]) {
      var i :| 0 <= i < r - p && IsWordChar(s[p..r][i]);
      assert s[p + i] == s[p..r][i];
      RunWithWordChar(s, p, p + i);
    } else {
      forall k | p <= k < r
        ensures !IsWordChar(s[k])
      {
        assert s[p..r][k - p] == s[k];
      }
      RunWithoutWordChar(s, p);
    }
  }

  /** WordRuns on a text that starts with a class character, one run at a time. */
  lemma {:induction false} WordRunsAtRun(t: string)
    requires t != [] && InClass(t[0])
    ensures WordRuns(t) == (if HasWordChar(t[..RunLength(t)]) then 1 else 0) + WordRuns(t[RunLength(t)..])
  {
  }

  /** From a position at the edge of a run, the engine counts the word runs of the rest. */
  lemma {:induction false} MatchesFromRunEdge(s: string, p: nat)
    requires p <= |s|
    requires p == |s| || !InClass(s[p]) || p == 0 || !InClass(s[p - 1])
    ensures MatchesFrom(s, p) == WordRuns(s[p..])
    decreases |s| - p
  {
    if p == |s| {
    } else if !InClass(s[p]) {
      assert s[p..][1..] == s[p + 1..];
      MatchesFromRunEdge(s, p + 1);
    } else {
      WordRunsOfRunAt(s, p);
      RunContribution(s, p);
      MatchesFromRunEdge(s, ClassRunEnd(s, p));
    }
  }

  /** WordRuns of the text from a run start, with the run split off. */
  lemma {:induction false} WordRunsOfRunAt(s: string, p: nat)
    requires RunStart(s, p)
    ensures WordRuns(s[p..])
      == (if HasWordChar(s[p..ClassRunEnd(s, p)]) then 1 else 0) + WordRuns(s[ClassRunEnd(s, p)..])
  {
    var r := ClassRunEnd(s, p);
    ClassRunEndIsRunLength(s, p);
    var t := s[p..];
    assert t[..r - p] == s[p..r];
    assert t[r - p..] == s[r..];
    WordRunsAtRun(t);
  }

  lemma {:induction false} CollapseKeepsRun(run: string, rest: string)
    requires forall k :: 0 <= k < |run| ==> !IsSpace(run[k])
    ensures CollapseSpaces(run + rest) == run + CollapseSpaces(rest)
    decreases |run|
  {
    if run != [] {
      assert (run + rest)[0] == run[0];
      assert (run + rest)[1..] == run[1..] + rest;
      CollapseKeepsRun(run[1..], rest);
    } else {
      assert run + rest == rest;
    }
  }

  lemma {:induction false} CollapseHead(s: string)
    requires s != [] && !InClass(s[0])
    ensures CollapseSpaces(s) != [] && !InClass(CollapseSpaces(s)[0])
  {
  }

  /** Characters outside the class in front of a text do not change its word runs. */
  lemma {:induction false} WordRunsSkipPrefix(x: string, b: string)
    requires forall k :: 0 <= k < |x| ==> !InClass(x[k])
    ensures WordRuns(x + b) == WordRuns(b)
    decreases |x|
  {
    if x != [] {
      assert (x + b)[0] == x[0];
      assert (x + b)[1..] == x[1..] + b;
      WordRunsSkipPrefix(x[1..], b);
    } else {
      assert x + b == b;
    }
  }

  /** A word run followed by a character outside the class (or nothing). */
  lemma {:induction false} WordRunsOfRun(run: string, rest: string)
    requires run != [] && forall k :: 0 <= k < |run| ==> InClass(run[k])
    requires rest == [] || !InClass(rest[0])
    ensures WordRuns(run + rest) == (if HasWordChar(run) then 1 else 0) + WordRuns(rest)
  {
    var s := run + rest;
    RunLengthUnique(s, |run|);
    assert s[..|run|] == run;
    assert s[|run|..] == rest;
  }

  /** Whitespace normalisation does not change the count. */
  lemma {:induction false} CollapsePreservesWordRuns(s: string)
    ensures WordRuns(CollapseSpaces(s)) == WordRuns(s)
    decreases |s|
  {
    if s == [] {
    } else if IsSpace(s[0]) {
      CollapsePreservesWordRuns(s[SpaceRunLength(s)..]);
      CollapseSpaceRun(s);
    } else if !InClass(s[0]) {
      CollapsePreservesWordRuns(s[1..]);
      WordRunsSkipPrefix([s[0]], CollapseSpaces(s[1..]));
      WordRunsSkipPrefix([s[0]], s[1..]);
      assert s == [s[0]] + s[1..];
    } else {
      CollapsePreservesWordRuns(s[RunLength(s)..]);
      CollapseClassRun(s);
    }
  }

  /** the step of that induction at a whitespace run */
  lemma {:induction false} CollapseSpaceRun(s: string)
    requires s != [] && IsSpace(s[0])
    requires WordRuns(CollapseSpaces(s[SpaceRunLength(s)..])) == WordRuns(s[SpaceRunLength(s)..])
    ensures WordRuns(CollapseSpaces(s)) == WordRuns(s)
  {
    var n := SpaceRunLength(s);
    assert s == s[..n] + s[n..];
    WordRunsSkipPrefix(s[..n], s[n..]);
    WordRunsSkipPrefix([' '], CollapseSpaces(s[n..]));
  }

  /** the step of that induction at a run of class characters */
  lemma {:induction false} CollapseClassRun(s: string)
    requires s != [] && !IsSpace(s[0]) && InClass(s[0])
    requires WordRuns(CollapseSpaces(s[RunLength(s)..])) == WordRuns(s[RunLength(s)..])
    ensures WordRuns(CollapseSpaces(s)) == WordRuns(s)
  {
    var n := RunLength(s);
    var run, rest := s[..n], s[n..];
    assert s == run + rest;
    assert forall k :: 0 <= k < |run| ==> InClass(run[k]) && !IsSpace(run[k]);
    CollapseKeepsRun(run, rest);
    var c := CollapseSpaces(rest);
    if rest != [] {
      assert rest[0] == s[n];
      CollapseHead(rest);
    }
    WordRunsOfRun(run, rest);
    WordRunsOfRun(run, c);
  }

  /** `countWordsAccurately` counts the word runs of its input. */
  lemma {:induction false} MatchCountIsWordRuns(text: string)
    ensures MatchesFrom(CollapseSpaces(text), 0) == WordRuns(text)
  {
    var c := CollapseSpaces(text);
    MatchesFromRunEdge(c, 0);
    assert c[0..] == c;
    CollapsePreservesWordRuns(text);
  }

  // ----------------------------------------------------- algebra of word runs

  /** A character outside the class separates two texts' word counts. */
  lemma {:induction false} WordRunsSplit(a: string, c: char, b: string)
    requires !InClass(c)
    ensures WordRuns(a + [c] + b) == WordRuns(a) + WordRuns(b)
    decreases |a|
  {
    var s := a + [c] + b;
    if a == [] {
      assert s[1..] == b;
    } else if !InClass(a[0]) {
      assert s[1..] == a[1..] + [c] + b;
      WordRunsSplit(a[1..], c, b);
    } else {
      var n := RunLength(a);
      RunLengthUnique(s, n);
      assert s[..n] == a[..n];
      assert s[n..] == a[n..] + [c] + b;
      WordRunsSplit(a[n..], c, b);
    }
  }

  /** Texts joined by a non-empty separator of non-word characters add their counts. */
  lemma {:induction false} WordRunsSeparated(a: string, sep: string, b: string)
    requires |sep| > 0 && forall k :: 0 <= k < |sep| ==> !InClass(sep[k])
    ensures WordRuns(a + sep + b) == WordRuns(a) + WordRuns(b)
  {
    assert a + sep + b == a + [sep[0]] + (sep[1..] + b);
    WordRunsSplit(a, sep[0], sep[1..] + b);
    WordRunsSkipPrefix(sep[1..], b);
  }

  /** Appending text never lowers the count. */
  lemma {:induction false} WordRunsAppend(a: string, b: string)
    ensures WordRuns(a + b) >= WordRuns(a)
    decreases |a|
  {
    var s := a + b;
    if a == [] {
    } else if !InClass(a[0]) {
      assert s[1..] == a[1..] + b;
      WordRunsAppend(a[1..], b);
    } else {
      var n := RunLength(a);
      if n < |a| {
        RunLengthUnique(s, n);
        assert s[..n] == a[..n];
        assert s[n..] == a[n..] + b;
        WordRunsAppend(a[n..], b);
      } else {
        RunLengthAtLeast(s, n);
        var m := RunLength(s);
        if HasWordChar(a[..n]) {
          var i :| 0 <= i < n && IsWordChar(a[..n][i]);
          assert s[..m][i] == a[..n][i];
        }
      }
    }
  }

  /** The accurate count of two texts joined by whitespace is the sum of their counts. */
  lemma {:induction false} CountWordsJoin(a: string, sep: string, b: string)
    requires |sep| > 0 && forall k :: 0 <= k < |sep| ==> IsSpace(sep[k])
    ensures CountWordsAccurately(a + sep + b) == CountWordsAccurately(a) + CountWordsAccurately(b)
  {
    WordRunsSeparated(a, sep, b);
  }

  /** Appending text never lowers the accurate count. */
  lemma {:induction false} CountWordsMonotone(a: string, b: string)
    ensures CountWordsAccurately(a + b) >= CountWordsAccurately(a)
  {
    WordRunsAppend(a, b);
  }

  // ------------------------------------------------------- str_word_count

  /** the characters `str_word_count` accepts in a word: letters, `'` and `-` */
  predicate InLetterClass(c: char) { IsLetter(c) || c == '\'' || c == '-' }

  function LetterRunLength(s: string): (n: nat)
    ensures n <= |s|
    ensures forall k :: 0 <= k < n ==> InLetterClass(s[k])
    ensures n == |s| || !InLetterClass(s[n])
    ensures s != [] && InLetterClass(s[0]) ==> n > 0
    decreases |s|
  {
    if s != [] && InLetterClass(s[0]) then 1 + LetterRunLength(s[1..]) else 0
  }

  /** the maximal runs of letter-class characters, in order */
  function LetterRuns(t: string): (ws: seq<string>)
    ensures |ws| <= |t|
    ensures forall i :: 0 <= i < |ws| ==> ws[i] != []
    ensures forall i, k :: 0 <= i < |ws| && 0 <= k < |ws[i]| ==> InLetterClass(ws[i][k])
    decreases |t|
  {
    if t == [] then []
    else if !InLetterClass(t[0]) then LetterRuns(t[1..])
    else
      var n := LetterRunLength(t);
      [t[..n]] + LetterRuns(t[n..])
  }

  /** The C implementation first skips a leading `'` or `-` and drops a trailing `-`. */
  function StrWordCountSpan(s: string): string
  {
    var a := if s != [] && (s[0] == '\'' || s[0] == '-') then s[1..] else s;
    if a != [] && a[|a| - 1] == '-' then a[..|a| - 1] else a
  }

  /** `str_word_count($s, 1)`: the words, each a non-empty run of letters, `'` and `-` */
  function StrWords(s: string): (ws: seq<string>)
    ensures |ws| <= |s|
    ensures forall i :: 0 <= i < |ws| ==> ws[i] != []
    ensures forall i, k :: 0 <= i < |ws| && 0 <= k < |ws[i]| ==> InLetterClass(ws[i][k])
  {
    LetterRuns(StrWordCountSpan(s))
  }

  /** `str_word_count($s)`: the number of words, never more than the characters */
  function StrWordCount(s: string): (n: nat)
    ensures n <= |s|
  {
    |StrWords(s)|
  }

  lemma {:induction false} LetterRunLengthUnique(s: string, n: nat)
    requires n <= |s|
    requires forall k :: 0 <= k < n ==> InLetterClass(s[k])
    requires n == |s| || !InLetterClass(s[n])
    ensures LetterRunLength(s) == n
  {
  }

  /** A non-letter character splits the word list into the lists of both sides. */
  lemma {:induction false} LetterRunsSplit(a: string, c: char, b: string)
    requires !InLetterClass(c)
    ensures LetterRuns(a + [c] + b) == LetterRuns(a) + LetterRuns(b)
    decreases |a|
  {
    var s := a + [c] + b;
    if a == [] {
      assert s[1..] == b;
    } else if !InLetterClass(a[0]) {
      assert s[1..] == a[1..] + [c] + b;
      LetterRunsSplit(a[1..], c, b);
    } else {
      var n := LetterRunLength(a);
      LetterRunLengthUnique(s, n);
      assert s[..n] == a[..n];
      assert s[n..] == a[n..] + [c] + b;
      LetterRunsSplit(a[n..], c, b);
    }
  }

  /** Text without letters, `'` or `-` holds no `str_word_count` words. */
  lemma {:induction false} LetterRunsNone(t: string)
    requires forall k :: 0 <= k < |t| ==> !InLetterClass(t[k])
    ensures LetterRuns(t) == []
    decreases |t|
  {
    if t != [] {
      LetterRunsNone(t[1..]);
    }
  }

  /** A run of class characters holding a word character is one word run. */
  lemma {:induction false} WordRunsOfOneRun(a: string, i: nat)
    requires i < |a| && IsWordChar(a[i])
    requires forall k :: 0 <= k < |a| ==> InClass(a[k])
    ensures WordRuns(a) == 1
  {
    RunLengthUnique(a, |a|);
    assert a[..|a|] == a && a[|a|..] == [];
  }

  /** A word followed by a number: `str_word_count` sees one word, `countWordsAccurately` two. */
  lemma {:induction false} CountersDisagreeOnNumbers(word: string, number: string)
    requires word != [] && forall k :: 0 <= k < |word| ==> IsLetter(word[k])
    requires number != [] && forall k :: 0 <= k < |number| ==> IsDigit(number[k])
    ensures StrWordCount(word + " " + number) == 1
    ensures CountWordsAccurately(word + " " + number) == 2
  {
    LetterCountOfWordAndNumber(word, number);
    RegexCountOfWordAndNumber(word, number);
  }

  lemma {:induction false} LetterCountOfWordAndNumber(word: string, number: string)
    requires word != [] && forall k :: 0 <= k < |word| ==> IsLetter(word[k])
    requires number != [] && forall k :: 0 <= k < |number| ==> IsDigit(number[k])
    ensures StrWordCount(word + " " + number) == 1
  {
    var s := word + " " + number;
    assert s == word + [' '] + number;
    assert s[0] == word[0] && s[|s| - 1] == number[|number| - 1];
    assert StrWordCountSpan(s) == s;
    LetterRunsSplit(word, ' ', number);
    LetterRunLengthUnique(word, |word|);
    assert word[..|word|] == word && word[|word|..] == [];
    LetterRunsNone(number);
  }

  lemma {:induction false} RegexCountOfWordAndNumber(word: string, number: string)
    requires word != [] && forall k :: 0 <= k < |word| ==> IsLetter(word[k])
    requires number != [] && forall k :: 0 <= k < |number| ==> IsDigit(number[k])
    ensures CountWordsAccurately(word + " " + number) == 2
  {
    var s := word + " " + number;
    assert s == word + [' '] + number;
    WordRunsSplit(word, ' ', number);
    WordRunsOfOneRun(word, 0);
    WordRunsOfOneRun(number, 0);
  }
}
