/**
  The three JavaScript string operations the core relies on: `String.prototype.trim`,
  `String.prototype.toLowerCase` (restricted to the characters that matter here) and
  `String.prototype.includes`. Strings are sequences of Unicode scalar values (`char`); lone
  UTF-16 surrogates are not modelled.
 */
module Text {

  /** The characters `trim` removes: ECMAScript WhiteSpace (including every Zs character)
      and LineTerminator. */
  predicate IsWhitespace(c: char)
  {
    var n := c as int;
    n == 0x09 || n == 0x0A || n == 0x0B || n == 0x0C || n == 0x0D || n == 0x20
    || n == 0xA0 || n == 0x1680 || (0x2000 <= n <= 0x200A) || n == 0x2028 || n == 0x2029
    || n == 0x202F || n == 0x205F || n == 0x3000 || n == 0xFEFF
  }

  /** Number of whitespace characters at the start of `s`. */
  function LeadingSpace(s: string): (n: nat)
    ensures n <= |s|
    ensures forall k | 0 <= k < n :: IsWhitespace(s[k])
    ensures n < |s| ==> !IsWhitespace(s[n])
  {
    if s != [] && IsWhitespace(s[0]) then 1 + LeadingSpace(s[1..]) else 0
  }

  /** Number of whitespace characters at the end of `s`. */
  function TrailingSpace(s: string): (n: nat)
    ensures n <= |s|
    ensures forall k | |s| - n <= k < |s| :: IsWhitespace(s[k])
    ensures n < |s| ==> !IsWhitespace(s[|s| - n - 1])
  {
    if s != [] && IsWhitespace(s[|s| - 1]) then 1 + TrailingSpace(s[..|s| - 1]) else 0
  }

  /** `s.trim()`: the slice of `s` left after removing leading and trailing whitespace. */
  function Trim(s: string): (r: string)
    ensures LeadingSpace(s) + |r| <= |s|
    ensures r == s[LeadingSpace(s)..LeadingSpace(s) + |r|]
    ensures r == [] <==> forall k | 0 <= k < |s| :: IsWhitespace(s[k])
    ensures r != [] ==> !IsWhitespace(r[0]) && !IsWhitespace(r[|r| - 1])
    ensures forall k | LeadingSpace(s) + |r| <= k < |s| :: IsWhitespace(s[k])
  {
    var a := LeadingSpace(s);
    var rest := s[a..];
    rest[..|rest| - TrailingSpace(rest)]
  }

  /** Trimming is idempotent. */
  lemma TrimIdempotent(s: string)
    ensures Trim(Trim(s)) == Trim(s)
  {
    var r := Trim(s);
    if r != [] {
      assert LeadingSpace(r) == 0;
      assert TrailingSpace(r) == 0;
    }
  }

  /** `c` is the letter `x` itself, its capital, or (for `k`) the Kelvin sign U+212A. */
  predicate LowersTo(c: char, x: char)
  {
    c == x || c as int == x as int - 32 || (x == 'k' && c as int == 0x212A)
  }

  /** Lower-casing of one character, for the characters whose lower-case form is an
      ASCII letter: `A`-`Z` and the Kelvin sign U+212A (which lower-cases to `k`). */
  function LowerChar(c: char): (l: char)
    ensures IsWhitespace(l) <==> IsWhitespace(c)
    ensures 'a' <= l <= 'z' <==> ('a' <= c <= 'z' || 'A' <= c <= 'Z' || c as int == 0x212A)
    ensures forall x | 'a' <= x <= 'z' :: l == x <==> LowersTo(c, x)
  {
    if 'A' <= c <= 'Z' then (c as int + 32) as char
    else if c as int == 0x212A then 'k'
    else c
  }

  /** `s.toLowerCase()`, as far as the letters of an ASCII needle are concerned. */
  function Lower(s: string): (r: string)
    ensures |r| == |s|
    ensures forall k | 0 <= k < |s| :: r[k] == LowerChar(s[k])
    ensures forall k | 0 <= k < |r| :: !('A' <= r[k] <= 'Z')
  {
    seq(|s|, k requires 0 <= k < |s| => LowerChar(s[k]))
  }

  /** Lower-casing a second time changes nothing. */
  lemma LowerIdempotent(s: string)
    ensures Lower(Lower(s)) == Lower(s)
  {
  }

  /** `needle` occurs in `s` starting at index `i`. */
  predicate OccursAt(s: string, needle: string, i: int)
  {
    0 <= i && i + |needle| <= |s| && forall k | 0 <= k < |needle| :: s[i + k] == needle[k]
  }

  /** `s.includes(needle)`, scanning the start positions from `from` on. */
  function IncludesFrom(s: string, needle: string, from: nat): (b: bool)
    decreases |s| - from
    ensures b <==> exists i | from <= i :: OccursAt(s, needle, i)
  {
    if from + |needle| > |s| then
      assert forall i | from <= i :: !OccursAt(s, needle, i);
      false
    else if OccursAt(s, needle, from) then
      true
    else
      var b := IncludesFrom(s, needle, from + 1);
      assert forall i | from <= i :: OccursAt(s, needle, i) ==> i == from || from + 1 <= i;
      b
  }

  /** `s.includes(needle)`. */
  function Includes(s: string, needle: string): (b: bool)
    ensures b <==> exists i :: OccursAt(s, needle, i)
  {
    IncludesFrom(s, needle, 0)
  }

  /** Lower-casing the trimmed text gives the matching slice of the lower-cased text. */
  lemma LowerOfTrim(s: string)
    ensures var a, r := LeadingSpace(s), Trim(s);
      forall k | 0 <= k < |r| :: Lower(r)[k] == Lower(s)[a + k]
  {
  }

  /** An occurrence of a needle without whitespace lies inside the trimmed part. */
  lemma OccurrenceInTrim(s: string, needle: string, i: int)
    requires needle != [] && forall k | 0 <= k < |needle| :: !IsWhitespace(needle[k])
    requires OccursAt(Lower(s), needle, i)
    ensures OccursAt(Lower(Trim(s)), needle, i - LeadingSpace(s))
  {
    var a, r := LeadingSpace(s), Trim(s);
    var lower := Lower(s);
    var n := |needle|;
    assert lower[i + 0] == needle[0] && lower[i + (n - 1)] == needle[n - 1];
    assert !IsWhitespace(s[i]) && !IsWhitespace(s[i + n - 1]);
    assert a <= i && i + n <= a + |r|;
    LowerOfTrim(s);
  }

  /** An occurrence in the trimmed part is one in the whole text. */
  lemma OccurrenceFromTrim(s: string, needle: string, i: int)
    requires OccursAt(Lower(Trim(s)), needle, i)
    ensures OccursAt(Lower(s), needle, i + LeadingSpace(s))
  {
    LowerOfTrim(s);
  }

  /** A needle without whitespace occurs in the lower-cased text exactly when it occurs in
      the lower-cased trimmed text. */
  lemma IncludesSurvivesTrim(s: string, needle: string)
    requires needle != [] && forall k | 0 <= k < |needle| :: !IsWhitespace(needle[k])
    ensures Includes(Lower(Trim(s)), needle) <==> Includes(Lower(s), needle)
  {
    if Includes(Lower(s), needle) {
      var i :| OccursAt(Lower(s), needle, i);
      OccurrenceInTrim(s, needle, i);
    }
    if Includes(Lower(Trim(s)), needle) {
      var i :| OccursAt(Lower(Trim(s)), needle, i);
      OccurrenceFromTrim(s, needle, i);
    }
  }
}
