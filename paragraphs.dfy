/** `analyzeWordCount`: paragraph split, per-paragraph word counts and pacing.

    Paragraphs are separated by `preg_split('/\n\s*\n/', $text)`: a newline,
    then any whitespace, then a newline.  The regex engine starts at the
    leftmost newline, lets `\s*` take the whole whitespace run after it, and
    backs off to the last newline of that run, so one separator swallows a
    whole blank-line gap. */
module Paragraphs {
  import opened Text
  import opened Words

  // ------------------------------------------------------------------ split

  /** the last newline in s[lo..hi], if any */
  function LastNewlineIn(s: string, lo: nat, hi: nat): (r: Option<nat>)
    requires lo <= hi <= |s|
    ensures r.Some? ==> lo <= r.value < hi && s[r.value] == '\n'
    ensures r.Some? ==> forall k :: r.value < k < hi ==> s[k] != '\n'
    ensures r.None? ==> forall k :: lo <= k < hi ==> s[k] != '\n'
    decreases hi - lo
  {
    if hi == lo then None
    else if s[hi - 1] == '\n' then Some(hi - 1)
    else LastNewlineIn(s, lo, hi - 1)
  }

  /** The end of the match of `\n\s*\n` that starts at i, if there is one. */
  function SeparatorEnd(s: string, i: nat): (r: Option<nat>)
    requires i < |s|
    ensures r.Some? ==> i + 2 <= r.value <= |s| && s[i] == '\n' && s[r.value - 1] == '\n'
    ensures r.Some? ==> forall k :: i <= k < r.value ==> IsSpace(s[k])
  {
    if s[i] != '\n' then None
    else match LastNewlineIn(s, i + 1, SpaceRunEnd(s, i + 1))
      case Some(k) => Some(k + 1)
      case None => None
  }

  /** the pieces of s[start..], with the scan for the next separator at i */
  function SplitFrom(s: string, start: nat, i: nat): (ps: seq<string>)
    requires start <= i <= |s|
    ensures |ps| >= 1
    decreases |s| - i
  {
    if i == |s| then [s[start..]]
    else match SeparatorEnd(s, i)
      case Some(e) => [s[start..i]] + SplitFrom(s, e, e)
      case None => SplitFrom(s, start, i + 1)
  }

  /** `preg_split('/\n\s*\n/', $text)`: at least one piece, and no word lost or invented */
  function SplitParagraphs(text: string): (ps: seq<string>)
    ensures |ps| >= 1
    ensures SumWords(ps) == CountWordsAccurately(text)
  {
    SplitFromKeepsWords(text, 0, 0);
    assert text[0..] == text;
    SplitFrom(text, 0, 0)
  }

  /** the number of words of all the given paragraphs together */
  function SumWords(ps: seq<string>): nat
    decreases |ps|
  {
    if ps == [] then 0 else CountWordsAccurately(ps[0]) + SumWords(ps[1..])
  }

  /** Splitting at blank lines loses no word and invents none. */
  lemma {:induction false} SplitFromKeepsWords(s: string, start: nat, i: nat)
    requires start <= i <= |s|
    ensures SumWords(SplitFrom(s, start, i)) == CountWordsAccurately(s[start..])
    decreases |s| - i
  {
    if i == |s| {
      assert SplitFrom(s, start, i)[1..] == [];
    } else {
      match SeparatorEnd(s, i)
      case Some(e) =>
        SplitFromKeepsWords(s, e, e);
        SplitAtSeparator(s, start, i, e);
      case None =>
        SplitFromKeepsWords(s, start, i + 1);
    }
  }

  /** the step of that induction at a separator */
  lemma {:induction false} SplitAtSeparator(s: string, start: nat, i: nat, e: nat)
    requires start <= i < |s| && SeparatorEnd(s, i) == Some(e)
    requires SumWords(SplitFrom(s, e, e)) == CountWordsAccurately(s[e..])
    ensures SumWords(SplitFrom(s, start, i)) == CountWordsAccurately(s[start..])
  {
    var ps := SplitFrom(s, start, i);
    assert ps[0] == s[start..i] && ps[1..] == SplitFrom(s, e, e);
    SlicesJoin(s, start, i, e);
    CountWordsJoin(s[start..i], s[i..e], s[e..]);
  }

  lemma {:induction false} SlicesJoin(s: string, a: nat, b: nat, c: nat)
    requires a <= b <= c <= |s|
    ensures s[a..] == s[a..b] + s[b..c] + s[c..]
  {
    assert s[a..b] + s[b..c] == s[a..c];
    assert s[a..c] + s[c..] == s[a..];
  }

  lemma {:induction false} SumWordsBound(ps: seq<string>, j: nat)
    requires j < |ps|
    ensures CountWordsAccurately(ps[j]) <= SumWords(ps)
    decreases |ps|
  {
    if j > 0 {
      SumWordsBound(ps[1..], j - 1);
    }
  }

  /** Text without a newline is one paragraph. */
  lemma {:induction false} NoNewlineFrom(s: string, i: nat)
    requires i <= |s|
    requires forall k :: 0 <= k < |s| ==> s[k] != '\n'
    ensures SplitFrom(s, 0, i) == [s]
    decreases |s| - i
  {
    if i == |s| {
      assert s[0..] == s;
    } else {
      NoNewlineFrom(s, i + 1);
    }
  }

  // --------------------------------------------------------------- analysis

  datatype Pacing = Balanced | Choppy | Dense

  datatype WordCountAnalysis = WordCountAnalysis(
    wordCount: nat,
    paragraphCount: nat,
    wordsPerParagraph: real,
    shortParagraphCount: nat,
    longParagraphCount: nat,
    pacing: Pacing)

  const SHORT_PARAGRAPH_WORDS: nat := 30
  const LONG_PARAGRAPH_WORDS: nat := 100

  predicate IsShort(p: string) { CountWordsAccurately(p) < SHORT_PARAGRAPH_WORDS }
  predicate IsLong(p: string) { CountWordsAccurately(p) > LONG_PARAGRAPH_WORDS }

  /** how many of the paragraphs satisfy keep */
  function CountWhere(ps: seq<string>, keep: string -> bool): (n: nat)
    ensures n <= |ps|
    decreases |ps|
  {
    if ps == [] then 0 else CountWhere(ps[..|ps| - 1], keep) + (if keep(ps[|ps| - 1]) then 1 else 0)
  }

  /** the positions of the paragraphs that satisfy keep */
  function Where(ps: seq<string>, keep: string -> bool): set<nat>
  {
    set j: nat | j < |ps| && keep(ps[j])
  }

  /** The counting recursion counts exactly the paragraphs that satisfy keep. */
  lemma {:induction false} CountWhereIsCard(ps: seq<string>, keep: string -> bool)
    ensures CountWhere(ps, keep) == |Where(ps, keep)|
    decreases |ps|
  {
    if ps != [] {
      var n := |ps| - 1;
      var front := ps[..n];
      CountWhereIsCard(front, keep);
      assert n !in Where(front, keep);
      if keep(ps[n]) {
        assert Where(ps, keep) == Where(front, keep) + {n};
      } else {
        assert Where(ps, keep) == Where(front, keep);
      }
    }
  }

  /** `round($x, 1)` for a non-negative value */
  function RoundToTenth(x: real): (r: real)
    requires x >= 0.0
    ensures r >= 0.0
    ensures -0.05 < r - x <= 0.05
  {
    var n := RoundHalfUp(x * 10.0);
    assert n as real - 0.5 <= x * 10.0 < n as real + 0.5;
    n as real / 10.0
  }

  /** The pacing rule: more than 70% short is choppy, else more than 70% long is dense. */
  function PacingOf(count: nat, short: nat, long: nat): (r: Pacing)
    ensures r == Choppy <==> short as real > count as real * 0.7
    ensures r == Dense <==> short as real <= count as real * 0.7 && long as real > count as real * 0.7
    ensures r == Balanced <==> short as real <= count as real * 0.7 && long as real <= count as real * 0.7
  {
    if 10 * short > 7 * count then Choppy
    else if 10 * long > 7 * count then Dense
    else Balanced
  }

  /** the array `analyzeWordCount($text)` returns */
  function ParagraphStats(text: string): (r: WordCountAnalysis)
    ensures r.wordCount == SumWords(SplitParagraphs(text))
    ensures r.paragraphCount == |SplitParagraphs(text)| >= 1
    ensures -0.05 < r.wordsPerParagraph - r.wordCount as real / r.paragraphCount as real <= 0.05
    ensures r.shortParagraphCount == CountWhere(SplitParagraphs(text), IsShort)
    ensures r.longParagraphCount == CountWhere(SplitParagraphs(text), IsLong)
    ensures r.shortParagraphCount + r.longParagraphCount <= r.paragraphCount
    ensures r.pacing == Choppy <==> r.shortParagraphCount as real > r.paragraphCount as real * 0.7
    ensures r.pacing == Dense <==> r.shortParagraphCount as real <= r.paragraphCount as real * 0.7
                                   && r.longParagraphCount as real > r.paragraphCount as real * 0.7
  {
    var ps := SplitParagraphs(text);
    var wc := CountWordsAccurately(text);
    var short := CountWhere(ps, IsShort);
    var long := CountWhere(ps, IsLong);
    ShortLongDisjoint(ps);
    WordCountAnalysis(wc, |ps|, RoundToTenth(wc as real / |ps| as real), short, long, PacingOf(|ps|, short, long))
  }

  /** The analysis counts exactly the paragraphs under 30 words and those over 100. */
  lemma {:induction false} ParagraphCounts(text: string)
    ensures ParagraphStats(text).shortParagraphCount == |Where(SplitParagraphs(text), IsShort)|
    ensures ParagraphStats(text).longParagraphCount == |Where(SplitParagraphs(text), IsLong)|
  {
    CountWhereIsCard(SplitParagraphs(text), IsShort);
    CountWhereIsCard(SplitParagraphs(text), IsLong);
  }

  /** No paragraph is both short and long. */
  lemma {:induction false} ShortLongDisjoint(ps: seq<string>)
    ensures CountWhere(ps, IsShort) + CountWhere(ps, IsLong) <= |ps|
    decreases |ps|
  {
    if ps != [] {
      ShortLongDisjoint(ps[..|ps| - 1]);
    }
  }

  lemma {:induction false} AllShort(ps: seq<string>)
    requires forall j :: 0 <= j < |ps| ==> IsShort(ps[j])
    ensures CountWhere(ps, IsShort) == |ps|
    decreases |ps|
  {
    if ps != [] {
      AllShort(ps[..|ps| - 1]);
    }
  }

  /** A text of fewer than 30 words is choppy however it is split. */
  lemma {:induction false} FewWordsIsChoppy(text: string)
    requires CountWordsAccurately(text) < SHORT_PARAGRAPH_WORDS
    ensures ParagraphStats(text).pacing == Choppy
    ensures ParagraphStats(text).shortParagraphCount == ParagraphStats(text).paragraphCount
  {
    var ps := SplitParagraphs(text);
    forall j | 0 <= j < |ps|
      ensures IsShort(ps[j])
    {
      SumWordsBound(ps, j);
    }
    AllShort(ps);
  }

  /** One long paragraph without newlines is dense. */
  lemma {:induction false} OneLongParagraphIsDense(text: string)
    requires forall k :: 0 <= k < |text| ==> text[k] != '\n'
    requires CountWordsAccurately(text) > LONG_PARAGRAPH_WORDS
    ensures ParagraphStats(text).paragraphCount == 1
    ensures ParagraphStats(text).pacing == Dense
  {
    NoNewlineFrom(text, 0);
    var ps := [text];
    assert ps[..0] == [];
  }

  /** the loop of `analyzeWordCount` over the paragraphs: the short and the long ones */
  method CountParagraphSizes(paragraphs: seq<string>) returns (shortCount: nat, longCount: nat)
    ensures shortCount == CountWhere(paragraphs, IsShort) && longCount == CountWhere(paragraphs, IsLong)
  {
    shortCount, longCount := 0, 0;
    var i := 0;
    while i < |paragraphs|
      invariant 0 <= i <= |paragraphs|
      invariant shortCount == CountWhere(paragraphs[..i], IsShort)
      invariant longCount == CountWhere(paragraphs[..i], IsLong)
    {
      assert paragraphs[..i + 1][..i] == paragraphs[..i];
      var paragraphWordCount := CountWordsAccurately(paragraphs[i]);
      if paragraphWordCount < SHORT_PARAGRAPH_WORDS {
        shortCount := shortCount + 1;
      }
      if paragraphWordCount > LONG_PARAGRAPH_WORDS {
        longCount := longCount + 1;
      }
      i := i + 1;
    }
    assert paragraphs[..|paragraphs|] == paragraphs;
  }

  /** `analyzeWordCount($text)` */
  method AnalyzeWordCount(text: string) returns (r: WordCountAnalysis)
    ensures r == ParagraphStats(text)
  {
    var wordCount := CountWordsAccurately(text);
    var paragraphs := SplitParagraphs(text);
    var paragraphCount := |paragraphs|;
    var wordsPerParagraph := RoundToTenth(wordCount as real / paragraphCount as real);
    var shortCount, longCount := CountParagraphSizes(paragraphs);
    var pacing := Balanced;
    if 10 * shortCount > 7 * paragraphCount {
      pacing := Choppy;
    } else if 10 * longCount > 7 * paragraphCount {
      pacing := Dense;
    }
    r := WordCountAnalysis(wordCount, paragraphCount, wordsPerParagraph, shortCount, longCount, pacing);
  }
}
