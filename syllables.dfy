/** `estimateSyllableCount`: vowel groups per word, with the silent-e rule. */
module Syllables {
  import opened Text
  import opened Words

  predicate IsVowel(c: char)
  {
    c == 'a' || c == 'e' || c == 'i' || c == 'o' || c == 'u' || c == 'y'
  }

  /** `preg_replace('/[^a-z]/', '', strtolower($word))` */
  function LowerLetters(w: string): (r: string)
    ensures |r| <= |w|
    ensures forall k :: 0 <= k < |r| ==> IsLower(r[k])
    decreases |w|
  {
    if w == [] then []
    else LowerLetters(w[..|w| - 1]) + (if IsLetter(w[|w| - 1]) then [ToLower(w[|w| - 1])] else [])
  }

  /** `preg_match_all('/[aeiouy]+/', $w)`: the number of maximal runs of vowels */
  function VowelGroups(w: string): (n: nat)
    ensures n <= |w|
    decreases |w|
  {
    if w == [] then 0
    else
      var starts := IsVowel(w[|w| - 1]) && (|w| == 1 || !IsVowel(w[|w| - 2]));
      VowelGroups(w[..|w| - 1]) + (if starts then 1 else 0)
  }

  predicate HasVowel(w: string)
  {
    exists k :: 0 <= k < |w| && IsVowel(w[k])
  }

  /** A word has a vowel group exactly when it has a vowel. */
  lemma {:induction false} VowelGroupsPositive(w: string)
    ensures VowelGroups(w) > 0 <==> HasVowel(w)
    decreases |w|
  {
    if w != [] {
      var u := w[..|w| - 1];
      VowelGroupsPositive(u);
      if HasVowel(u) {
        var k :| 0 <= k < |u| && IsVowel(u[k]);
        assert w[k] == u[k];
      }
      if HasVowel(w) && !IsVowel(w[|w| - 1]) {
        var k :| 0 <= k < |w| && IsVowel(w[k]);
        assert u[k] == w[k];
      }
    }
  }

  /** the silent-e rule: longer than two letters, ends in `e` after a consonant */
  predicate SilentE(w: string)
  {
    |w| > 2 && w[|w| - 1] == 'e' && !IsVowel(w[|w| - 2])
  }

  /** the syllables the loop body adds for one word of `str_word_count($text, 1)` */
  function WordSyllables(word: string): (n: nat)
    ensures 1 <= n <= (if |word| == 0 then 1 else |word|)
  {
    var w := LowerLetters(word);
    var groups := VowelGroups(w);
    var adjusted := if groups == 0 && |w| > 0 then 1 else groups;
    var afterE := adjusted - (if SilentE(w) then 1 else 0);
    if afterE < 1 then 1 else afterE
  }

  /** The "at least one syllable" adjustment never changes the result: it is max(1, groups - silent e). */
  lemma {:induction false} ZeroGroupAdjustmentRedundant(word: string)
    ensures var w := LowerLetters(word);
      WordSyllables(word) == (var g := VowelGroups(w) - (if SilentE(w) then 1 else 0); if g < 1 then 1 else g)
  {
    var w := LowerLetters(word);
    if SilentE(w) {
      assert HasVowel(w) by { assert IsVowel(w[|w| - 1]); }
      VowelGroupsPositive(w);
    }
  }

  /** the syllable estimate for the words `ws` */
  function SumSyllables(ws: seq<string>): (n: nat)
    ensures n >= |ws|
    decreases |ws|
  {
    if ws == [] then 0 else SumSyllables(ws[..|ws| - 1]) + WordSyllables(ws[|ws| - 1])
  }

  /** `estimateSyllableCount($text)` as a value: every word has at least one syllable,
      so a text has at least as many syllables as `str_word_count` words */
  function TextSyllables(text: string): (n: nat)
    ensures n >= StrWordCount(text)
  {
    SumSyllables(StrWords(text))
  }

  /** The estimate adds up over the words. */
  lemma {:induction false} SumSyllablesAppend(a: seq<string>, b: seq<string>)
    ensures SumSyllables(a + b) == SumSyllables(a) + SumSyllables(b)
    decreases |b|
  {
    if b == [] {
      assert a + b == a;
    } else {
      assert (a + b)[..|a + b| - 1] == a + b[..|b| - 1];
      SumSyllablesAppend(a, b[..|b| - 1]);
    }
  }

  /** the body of the loop in `estimateSyllableCount`: the syllables of one word */
  method CountWordSyllables(rawWord: string) returns (syllables: nat)
    ensures syllables == WordSyllables(rawWord)
  {
    var word := LowerLetters(rawWord);
    var groups := VowelGroups(word);
    if groups == 0 && |word| > 0 {
      groups := 1;
    }
    var adjusted: int := groups;
    if |word| > 2 && word[|word| - 1] == 'e' && !IsVowel(word[|word| - 2]) {
      adjusted := adjusted - 1;
    }
    syllables := if adjusted < 1 then 1 else adjusted;
  }

  /** `estimateSyllableCount($text)`, with its loop over the words */
  method EstimateSyllableCount(text: string) returns (syllableCount: nat)
    ensures syllableCount == TextSyllables(text)
  {
    var words := StrWords(text);
    syllableCount := 0;
    var i := 0;
    while i < |words|
      invariant 0 <= i <= |words|
      invariant syllableCount == SumSyllables(words[..i])
    {
      assert words[..i + 1][..i] == words[..i];
      var syllables := CountWordSyllables(words[i]);
      syllableCount := syllableCount + syllables;
      i := i + 1;
    }
    assert words[..|words|] == words;
  }
}
