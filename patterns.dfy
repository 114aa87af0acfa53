/**
  The two regular expressions of app/utils/Utility.ts, written out as string predicates.
  Each has a reference definition that says what the regex matches (an existential over
  the places where its parts begin) and an executable check proved equal to it.
 */
module Patterns {

  predicate IsAsciiLetter(c: char) { 'a' <= c <= 'z' || 'A' <= c <= 'Z' }

  /** `\d` in a JavaScript regex without the `u` flag: ASCII digits only. */
  predicate IsDigit(c: char) { '0' <= c <= '9' }

  /** `[a-zA-Z0-9._%+-]`, the characters of the part before `@`. */
  predicate IsLocalChar(c: char)
  {
    IsAsciiLetter(c) || IsDigit(c) || c == '.' || c == '_' || c == '%' || c == '+' || c == '-'
  }

  /** `[a-zA-Z0-9.-]`, the characters of the domain before the last dot. */
  predicate IsDomainChar(c: char)
  {
    IsAsciiLetter(c) || IsDigit(c) || c == '.' || c == '-'
  }

  // ---------------------------------------------------------------------------------------
  // Email: /^[a-zA-Z0-9._%+-]+@[a-zA-Z0-9.-]+\.[a-zA-Z]{2,}$/
  // ---------------------------------------------------------------------------------------

  /** The whole of `s` splits as local `@` domain `.` tld with the character classes of the
      email regex; `at` and `dot` are the positions of the `@` and of the final `.`. */
  predicate EmailSplit(s: string, at: int, dot: int)
  {
    && 0 < at && at + 1 < dot && dot + 3 <= |s|
    && s[at] == '@' && s[dot] == '.'
    && (forall k | 0 <= k < at :: IsLocalChar(s[k]))
    && (forall k | at < k < dot :: IsDomainChar(s[k]))
    && (forall k | dot < k < |s| :: IsAsciiLetter(s[k]))
  }

  /** What the anchored email regex matches. */
  ghost predicate EmailPattern(s: string)
  {
    exists at, dot :: EmailSplit(s, at, dot)
  }

  /** Index of the first `c` in `s`, or -1. */
  function IndexOf(s: string, c: char): (i: int)
    ensures -1 <= i < |s|
    ensures 0 <= i ==> s[i] == c
    ensures forall k | 0 <= k < |s| && (i < 0 || k < i) :: s[k] != c
  {
    if s == [] then -1
    else if s[0] == c then 0
    else
      var j := IndexOf(s[1..], c);
      if j < 0 then -1 else j + 1
  }

  /** Index of the last `c` in `s`, or -1. */
  function LastIndexOf(s: string, c: char): (i: int)
    ensures -1 <= i < |s|
    ensures 0 <= i ==> s[i] == c
    ensures forall k | 0 <= k < |s| && i < k :: s[k] != c
  {
    if s == [] then -1
    else if s[|s| - 1] == c then |s| - 1
    else LastIndexOf(s[..|s| - 1], c)
  }

  /** `validEmail`: the `@` is the first one and the separating dot is the last one, since
      neither the local part nor the top-level domain may contain them. */
  predicate ValidEmail(s: string)
    ensures ValidEmail(s) ==> EmailPattern(s)
  {
    EmailSplit(s, IndexOf(s, '@'), LastIndexOf(s, '.'))
  }

  lemma ValidEmailMatchesPattern(s: string)
    ensures ValidEmail(s) <==> EmailPattern(s)
  {
    if EmailPattern(s) {
      var at, dot :| EmailSplit(s, at, dot);
      assert IndexOf(s, '@') == at by {
        assert !IsLocalChar('@');
      }
      assert LastIndexOf(s, '.') == dot;
    }
  }

  // ---------------------------------------------------------------------------------------
  // Phone: /(\(\d{3}\)\d{3}-\d{4}|\+\d{11})/ -- unanchored, so a substring match
  // ---------------------------------------------------------------------------------------

  /** `(ddd)ddd-dddd` starts at index `k` of `s`. */
  predicate ParenPhoneAt(s: string, k: int)
  {
    && 0 <= k && k + 13 <= |s|
    && s[k] == '(' && s[k + 4] == ')' && s[k + 8] == '-'
    && (forall j | k + 1 <= j < k + 4 :: IsDigit(s[j]))
    && (forall j | k + 5 <= j < k + 8 :: IsDigit(s[j]))
    && (forall j | k + 9 <= j < k + 13 :: IsDigit(s[j]))
  }

  /** `+` followed by eleven digits starts at index `k` of `s`. */
  predicate PlusPhoneAt(s: string, k: int)
  {
    && 0 <= k && k + 12 <= |s|
    && s[k] == '+'
    && (forall j | k + 1 <= j < k + 12 :: IsDigit(s[j]))
  }

  /** What the unanchored phone regex matches: some position where either form begins. */
  ghost predicate PhonePattern(s: string)
  {
    exists k :: ParenPhoneAt(s, k) || PlusPhoneAt(s, k)
  }

  /** The regex engine's scan: try every start position from `k` on. */
  predicate PhoneFrom(s: string, k: nat)
    decreases |s| - k
  {
    k < |s| && (ParenPhoneAt(s, k) || PlusPhoneAt(s, k) || PhoneFrom(s, k + 1))
  }

  /** `validPhoneNumber`: an accepted text holds one of the two forms somewhere. */
  predicate ValidPhoneNumber(s: string)
    ensures ValidPhoneNumber(s) ==> PhonePattern(s)
  {
    PhoneFromMatches(s, 0);
    PhoneFrom(s, 0)
  }

  lemma {:induction false} PhoneFromMatches(s: string, k: nat)
    decreases |s| - k
    ensures PhoneFrom(s, k) <==> exists j | k <= j :: ParenPhoneAt(s, j) || PlusPhoneAt(s, j)
  {
    if k < |s| {
      PhoneFromMatches(s, k + 1);
    } else {
      assert forall j | k <= j :: !ParenPhoneAt(s, j) && !PlusPhoneAt(s, j);
    }
  }

  lemma ValidPhoneNumberMatchesPattern(s: string)
    ensures ValidPhoneNumber(s) <==> PhonePattern(s)
  {
    PhoneFromMatches(s, 0);
  }

  /** The phone check is a substring match: whatever surrounds a valid number, the whole
      still passes. */
  lemma PhoneMatchIsUnanchored(prefix: string, s: string, suffix: string)
    requires ValidPhoneNumber(s)
    ensures ValidPhoneNumber(prefix + s + suffix)
  {
    ValidPhoneNumberMatchesPattern(s);
    var k :| ParenPhoneAt(s, k) || PlusPhoneAt(s, k);
    var t := prefix + s + suffix;
    assert forall j | 0 <= j < |s| :: t[|prefix| + j] == s[j];
    assert ParenPhoneAt(t, |prefix| + k) || PlusPhoneAt(t, |prefix| + k);
    ValidPhoneNumberMatchesPattern(t);
  }

  /** The email check is anchored at both ends: a text ending in anything but an ASCII
      letter, or starting with a character the local part does not allow, is rejected. */
  lemma EmailMatchIsAnchored(s: string, c: char)
    ensures !IsAsciiLetter(c) ==> !ValidEmail(s + [c])
    ensures !IsLocalChar(c) ==> !ValidEmail([c] + s)
  {
    if ValidEmail([c] + s) {
      assert 0 < IndexOf([c] + s, '@');
    }
  }

  lemma EmailExamples()
    ensures ValidEmail("a@b.com")
  {
    var e := "a@b.com";
    assert EmailSplit(e, 1, 3) by {
      assert e[1] == '@' && e[3] == '.';
    }
    ValidEmailMatchesPattern(e);
  }

  lemma EmailCounterExample()
    ensures !ValidEmail("not-an-email")
  {
    var e := "not-an-email";
    forall k | 0 <= k < |e| ensures e[k] != '@' {}
  }

  lemma PhoneExamples()
    ensures ValidPhoneNumber("(555)123-4567")
    ensures ValidPhoneNumber("call +12345678901 now")
  {
    assert ParenPhoneAt("(555)123-4567", 0);
    ValidPhoneNumberMatchesPattern("(555)123-4567");
    assert PlusPhoneAt("call +12345678901 now", 5);
    ValidPhoneNumberMatchesPattern("call +12345678901 now");
  }

  /** Dashes alone do not make a phone number. */
  lemma PhoneCounterExample()
    ensures !ValidPhoneNumber("555-123-4567")
  {
    var n := "555-123-4567";
    ValidPhoneNumberMatchesPattern(n);
    forall k ensures !ParenPhoneAt(n, k) && !PlusPhoneAt(n, k) {
      if 0 <= k < |n| {
        assert n[k] != '(' && n[k] != '+';
      }
    }
  }
}
