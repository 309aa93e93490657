/** Character classes and small string utilities shared by the grading engine.

    PHP strings are byte strings; the model treats text as one character per
    byte (ASCII), so `strlen` is `|s|`.  The PCRE classes are their ASCII
    versions: `\w` is `[A-Za-z0-9_]` and `\s` is space, tab, newline,
    vertical tab, form feed and carriage return. */
module Text {

  datatype Option<T> = None | Some(value: T)

  predicate IsUpper(c: char) { 'A' <= c <= 'Z' }
  predicate IsLower(c: char) { 'a' <= c <= 'z' }
  predicate IsLetter(c: char) { IsUpper(c) || IsLower(c) }
  predicate IsDigit(c: char) { '0' <= c <= '9' }

  /** PCRE `\w` */
  predicate IsWordChar(c: char) { IsLetter(c) || IsDigit(c) || c == '_' }

  /** PCRE `\s` */
  predicate IsSpace(c: char)
  {
    c == ' ' || c == '\t' || c == '\n' || c == '\U{000B}' || c == '\U{000C}' || c == '\r'
  }

  /** ASCII lower-casing, as `strtolower` and PCRE caseless matching do it */
  function ToLower(c: char): (r: char)
    ensures IsLetter(c) ==> IsLower(r)
    ensures !IsUpper(c) ==> r == c
    ensures IsWordChar(r) == IsWordChar(c)
  {
    if IsUpper(c) then (c as int + 32) as char else c
  }

  /** `strtolower($s)` */
  function LowerString(s: string): (r: string)
    ensures |r| == |s|
    ensures forall i :: 0 <= i < |s| ==> r[i] == ToLower(s[i])
  {
    seq(|s|, i requires 0 <= i < |s| => ToLower(s[i]))
  }

  /** Two pieces of text that a caseless PCRE match considers equal. */
  predicate CaselessEq(a: string, b: string)
  {
    |a| == |b| && forall i :: 0 <= i < |a| ==> ToLower(a[i]) == ToLower(b[i])
  }

  /** The literal `lit` occurs at position `i` of `s`, ignoring case. */
  predicate CaselessAt(s: string, i: nat, lit: string)
  {
    i + |lit| <= |s| && CaselessEq(s[i..i + |lit|], lit)
  }

  /** PHP's `empty()` on a string: true for "" and for "0". */
  predicate PhpEmpty(s: string)
  {
    s == "" || s == "0"
  }

  /** `pat` occurs at position `i` of `s`. */
  predicate OccursAt(s: string, pat: string, i: nat)
  {
    i + |pat| <= |s| && s[i..i + |pat|] == pat
  }

  /** `strpos($s, $pat, $from)`: the first occurrence of `pat` at or after `from`. */
  function IndexOfFrom(s: string, pat: string, from: nat): (r: Option<nat>)
    requires |pat| > 0
    ensures r.Some? ==> from <= r.value && OccursAt(s, pat, r.value)
    ensures r.Some? ==> forall j :: from <= j < r.value ==> !OccursAt(s, pat, j)
    ensures r.None? ==> forall j :: from <= j ==> !OccursAt(s, pat, j)
    decreases |s| - from
  {
    if from + |pat| > |s| then None
    else if OccursAt(s, pat, from) then Some(from)
    else IndexOfFrom(s, pat, from + 1)
  }

  /** A string none of whose characters is `c` contains no pattern that starts with `c`. */
  lemma {:induction false} NoOccurrenceWithoutFirstChar(s: string, pat: string, from: nat)
    requires |pat| > 0
    requires forall k :: 0 <= k < |s| ==> s[k] != pat[0]
    ensures IndexOfFrom(s, pat, from) == None
  {
    forall j: nat | j + |pat| <= |s|
      ensures !OccursAt(s, pat, j)
    {
      assert s[j..j + |pat|][0] == s[j];
    }
  }

  /** the end of the run of whitespace that starts at q */
  function SpaceRunEnd(s: string, q: nat): (e: nat)
    requires q <= |s|
    ensures q <= e <= |s|
    ensures forall k :: q <= k < e ==> IsSpace(s[k])
    ensures e == |s| || !IsSpace(s[e])
    decreases |s| - q
  {
    if q < |s| && IsSpace(s[q]) then SpaceRunEnd(s, q + 1) else q
  }

  /** the end of the run of digits that starts at q */
  function DigitRunEnd(s: string, q: nat): (e: nat)
    requires q <= |s|
    ensures q <= e <= |s|
    ensures forall k :: q <= k < e ==> IsDigit(s[k])
    ensures e == |s| || !IsDigit(s[e])
    decreases |s| - q
  {
    if q < |s| && IsDigit(s[q]) then DigitRunEnd(s, q + 1) else q
  }

  /** A run of whitespace ends where the first non-space character is. */
  lemma {:induction false} SpaceRunEndUnique(s: string, q: nat, e: nat)
    requires q <= e <= |s|
    requires forall k :: q <= k < e ==> IsSpace(s[k])
    requires e == |s| || !IsSpace(s[e])
    ensures SpaceRunEnd(s, q) == e
    decreases e - q
  {
    if q < e {
      SpaceRunEndUnique(s, q + 1, e);
    }
  }

  /** A run of digits ends where the first non-digit is. */
  lemma {:induction false} DigitRunEndUnique(s: string, q: nat, e: nat)
    requires q <= e <= |s|
    requires forall k :: q <= k < e ==> IsDigit(s[k])
    requires e == |s| || !IsDigit(s[e])
    ensures DigitRunEnd(s, q) == e
    decreases e - q
  {
    if q < e {
      DigitRunEndUnique(s, q + 1, e);
    }
  }

  // ---------------------------------------------------------------- numbers

  const PHP_INT_MAX: int := 9223372036854775807

  function DigitChar(d: nat): (c: char)
    requires d < 10
    ensures IsDigit(c)
  {
    ('0' as int + d) as char
  }

  function DigitValue(c: char): (d: nat)
    requires IsDigit(c)
    ensures d < 10
  {
    c as int - '0' as int
  }

  predicate AllDigits(s: string)
  {
    forall i :: 0 <= i < |s| ==> IsDigit(s[i])
  }

  /** The decimal text PHP prints for a non-negative integer. */
  function NatToString(n: nat): (r: string)
    ensures |r| > 0 && AllDigits(r)
    decreases n
  {
    if n < 10 then [DigitChar(n)] else NatToString(n / 10) + [DigitChar(n % 10)]
  }

  /** The value of a run of decimal digits. */
  function DigitsValue(s: string): nat
    requires AllDigits(s)
    decreases |s|
  {
    if s == [] then 0 else 10 * DigitsValue(s[..|s| - 1]) + DigitValue(s[|s| - 1])
  }

  /** Printing a number and reading its digits back gives the number. */
  lemma {:induction false} DigitsRoundTrip(n: nat)
    ensures DigitsValue(NatToString(n)) == n
    decreases n
  {
    if n >= 10 {
      var a := NatToString(n / 10);
      var s := a + [DigitChar(n % 10)];
      assert s[..|s| - 1] == a;
      DigitsRoundTrip(n / 10);
    }
  }

  /** `intval()` of a digit string: 64-bit PHP saturates at PHP_INT_MAX. */
  function PhpIntval(digits: string): (v: int)
    requires AllDigits(digits)
    ensures 0 <= v <= PHP_INT_MAX
    ensures DigitsValue(digits) <= PHP_INT_MAX ==> v == DigitsValue(digits)
  {
    if DigitsValue(digits) > PHP_INT_MAX then PHP_INT_MAX else DigitsValue(digits)
  }

  /** PHP `round()` of a non-negative value: halves go away from zero. */
  function RoundHalfUp(x: real): (r: int)
    requires x >= 0.0
    ensures r >= 0
    ensures r as real - 0.5 <= x < r as real + 0.5
  {
    (x + 0.5).Floor
  }

  /** `min($hi, max($lo, $x))` */
  function Clamp(x: int, lo: int, hi: int): (r: int)
    requires lo <= hi
    ensures lo <= r <= hi
    ensures lo <= x <= hi ==> r == x
    ensures x < lo ==> r == lo
    ensures x > hi ==> r == hi
  {
    var m := if lo > x then lo else x;
    if hi < m then hi else m
  }

  /** `min($hi, max($lo, $x))` on floating point values, modelled on reals */
  function ClampReal(x: real, lo: real, hi: real): (r: real)
    requires lo <= hi
    ensures lo <= r <= hi
    ensures lo <= x <= hi ==> r == x
  {
    var m := if lo > x then lo else x;
    if hi < m then hi else m
  }

  // ---------------------------------------------------------------- joining

  /** `implode($sep, $xs)` */
  function Join(sep: string, xs: seq<string>): string
    decreases |xs|
  {
    if xs == [] then "" else if |xs| == 1 then xs[0] else xs[0] + sep + Join(sep, xs[1..])
  }

  /** `implode('', $parts)`: the parts one after the other */
  function Concat(parts: seq<string>): string
    decreases |parts|
  {
    if parts == [] then "" else parts[0] + Concat(parts[1..])
  }

  /** A concatenation starts with its first part and ends with its last. */
  lemma {:induction false} ConcatEnds(parts: seq<string>)
    requires parts != []
    ensures |Concat(parts)| >= |parts[0]| && Concat(parts)[..|parts[0]|] == parts[0]
    ensures var last := parts[|parts| - 1];
      |Concat(parts)| >= |last| && Concat(parts)[|Concat(parts)| - |last|..] == last
  {
    var c := Concat(parts);
    assert c == parts[0] + Concat(parts[1..]);
    assert c[..|parts[0]|] == parts[0];
    if |parts| > 1 {
      ConcatEnds(parts[1..]);
      var t := Concat(parts[1..]);
      assert c[|c| - |t|..] == t;
    }
  }

  /** The characters PHP's `trim()` removes by default. */
  predicate IsTrimChar(c: char)
  {
    c == ' ' || c == '\t' || c == '\n' || c == '\r' || c == '\0' || c == '\U{000B}'
  }

  function TrimLeft(s: string): (r: string)
    ensures |r| <= |s| && r == s[|s| - |r|..]
    ensures forall k :: 0 <= k < |s| - |r| ==> IsTrimChar(s[k])
    ensures r == [] || !IsTrimChar(r[0])
    decreases |s|
  {
    if s != [] && IsTrimChar(s[0]) then TrimLeft(s[1..]) else s
  }

  function TrimRight(s: string): (r: string)
    ensures |r| <= |s| && r == s[..|r|]
    ensures forall k :: |r| <= k < |s| ==> IsTrimChar(s[k])
    ensures r == [] || !IsTrimChar(r[|r| - 1])
    decreases |s|
  {
    if s != [] && IsTrimChar(s[|s| - 1]) then TrimRight(s[..|s| - 1]) else s
  }

  /** `trim($s)` */
  /** r is s[a..a + |r|], and everything around it is a `trim` character */
  predicate TrimmedAt(s: string, r: string, a: nat)
  {
    a + |r| <= |s| && r == s[a..a + |r|]
    && (forall k :: 0 <= k < a ==> IsTrimChar(s[k]))
    && (forall k :: a + |r| <= k < |s| ==> IsTrimChar(s[k]))
  }

  function Trim(s: string): (r: string)
    ensures r == [] || (!IsTrimChar(r[0]) && !IsTrimChar(r[|r| - 1]))
    ensures exists a: nat :: TrimmedAt(s, r, a)
  {
    var l := TrimLeft(s);
    var a := |s| - |l|;
    var r := TrimRight(l);
    assert TrimmedAt(s, r, a);
    r
  }
}
