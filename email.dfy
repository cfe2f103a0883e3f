/**
 The email shape rule `^[^\s@]+@[^\s@]+\.[^\s@]+$` that both the waitlist endpoint
 (app/api/waitlist/route.ts) and the signup form's `validateEmail` (app/page.tsx) apply,
 and the lower-casing the endpoint applies before lookup and insert.
 */
module Email {

  /** JavaScript's `\s`: the ECMAScript WhiteSpace and LineTerminator code points. */
  predicate IsWhitespace(c: char) {
    var n := c as int;
    n == 0x09 || n == 0x0A || n == 0x0B || n == 0x0C || n == 0x0D || n == 0x20
    || n == 0xA0 || n == 0x1680 || (0x2000 <= n <= 0x200A) || n == 0x2028 || n == 0x2029
    || n == 0x202F || n == 0x205F || n == 0x3000 || n == 0xFEFF
  }

  /** The character class `[^\s@]` of the pattern. */
  predicate IsPatternChar(c: char) {
    c != '@' && !IsWhitespace(c)
  }

  /** Every character of `s[lo..hi]` is in `[^\s@]`. */
  ghost predicate Run(s: string, lo: int, hi: int)
    requires 0 <= lo <= hi <= |s|
  {
    forall k | lo <= k < hi :: IsPatternChar(s[k])
  }

  /** `s` is `A @ B . C` with the `@` at `i`, the `.` at `j`, and `A`, `B`, `C` non-empty runs of `[^\s@]`. */
  ghost predicate SplitsAt(s: string, i: int, j: int) {
    0 < i && i + 1 < j && j + 1 < |s| &&
    s[i] == '@' && s[j] == '.' && Run(s, 0, i) && Run(s, i + 1, j) && Run(s, j + 1, |s|)
  }

  /** What the regular expression means: some split of `s` fits the pattern. */
  ghost predicate MatchesEmailPattern(s: string) {
    exists i, j :: SplitsAt(s, i, j)
  }

  /** Position of the first `c` in `s`, or `|s|` when there is none. */
  function IndexOf(s: string, c: char): (i: nat)
    ensures i <= |s|
    ensures i < |s| ==> s[i] == c
    ensures forall k | 0 <= k < i :: s[k] != c
  {
    if s == [] || s[0] == c then 0 else 1 + IndexOf(s[1..], c)
  }

  predicate NoWhitespace(s: string) {
    forall k | 0 <= k < |s| :: !IsWhitespace(s[k])
  }

  /** The domain has a `.` that is neither its first nor its last character. */
  predicate HasInnerDot(domain: string) {
    exists k | 0 < k < |domain| - 1 :: domain[k] == '.'
  }

  /**
   The shape rule as a check: no whitespace, exactly one `@`, a non-empty local part
   before it, and a domain after it with an inner `.`.
   */
  predicate ValidEmail(s: string)
    ensures ValidEmail(s) ==> '@' in s && '.' in s && 5 <= |s|
  {
    var at := IndexOf(s, '@');
    NoWhitespace(s) && 0 < at < |s| && '@' !in s[at + 1..] && HasInnerDot(s[at + 1..])
  }

  lemma ValidEmailSplits(s: string)
    requires ValidEmail(s)
    ensures MatchesEmailPattern(s)
  {
    var at := IndexOf(s, '@');
    var domain := s[at + 1..];
    var k :| 0 < k < |domain| - 1 && domain[k] == '.';
    var j := at + 1 + k;
    assert forall m | at + 1 <= m < |s| :: s[m] == domain[m - at - 1];
    assert SplitsAt(s, at, j);
  }

  lemma SplitIsValidEmail(s: string, i: int, j: int)
    requires SplitsAt(s, i, j)
    ensures ValidEmail(s)
  {
    var at := IndexOf(s, '@');
    assert at == i;
    var domain := s[i + 1..];
    assert forall m | 0 <= m < |domain| :: domain[m] == s[i + 1 + m];
    assert forall m | 0 <= m < |domain| :: domain[m] != '@' by {
      forall m | 0 <= m < |domain| ensures domain[m] != '@' {
        if i + 1 + m != j { assert IsPatternChar(s[i + 1 + m]); }
      }
    }
    assert domain[j - i - 1] == '.';
    forall m | 0 <= m < |s| ensures !IsWhitespace(s[m]) {
      if m != i && m != j { assert IsPatternChar(s[m]); }
    }
  }

  /** The check accepts exactly the strings the regular expression matches. */
  lemma ValidEmailMatchesPattern(s: string)
    ensures ValidEmail(s) <==> MatchesEmailPattern(s)
  {
    if ValidEmail(s) {
      ValidEmailSplits(s);
    }
    if MatchesEmailPattern(s) {
      var i, j :| SplitsAt(s, i, j);
      SplitIsValidEmail(s, i, j);
    }
  }

  /** A string with no `@`, or with no `.` anywhere after its first `@`, is rejected. */
  lemma MissingAtOrDotRejected(s: string)
    ensures '@' !in s ==> !ValidEmail(s)
    ensures '@' in s && '.' !in s[IndexOf(s, '@') + 1..] ==> !ValidEmail(s)
  {
    var at := IndexOf(s, '@');
    if at < |s| {
      assert s[at] in s;
      if ValidEmail(s) {
        var domain := s[at + 1..];
        var k :| 0 < k < |domain| - 1 && domain[k] == '.';
        assert domain[k] in domain;
      }
    }
  }

  /** ASCII `toLowerCase` of one character. */
  function LowerChar(c: char): char {
    if 'A' <= c <= 'Z' then (c as int + 32) as char else c
  }

  predicate IsLower(s: string) {
    forall k | 0 <= k < |s| :: !('A' <= s[k] <= 'Z')
  }

  /** `String.prototype.toLowerCase`, restricted to ASCII letters. */
  function Lower(s: string): (r: string)
    ensures |r| == |s|
    ensures forall k | 0 <= k < |s| :: r[k] == LowerChar(s[k])
    ensures IsLower(r)
  {
    if s == [] then [] else [LowerChar(s[0])] + Lower(s[1..])
  }

  /** A string with no upper-case ASCII letter is its own lower-cased form, so a stored key is its own lookup key. */
  lemma LowerOfLower(s: string)
    requires IsLower(s)
    ensures Lower(s) == s
  {
    assert forall k | 0 <= k < |s| :: Lower(s)[k] == s[k];
  }

  lemma LowerCharKeepsClass(c: char)
    ensures IsPatternChar(LowerChar(c)) == IsPatternChar(c)
    ensures (LowerChar(c) == '@') == (c == '@') && (LowerChar(c) == '.') == (c == '.')
  {
  }

  lemma LowerKeepsRun(s: string, lo: int, hi: int)
    requires 0 <= lo <= hi <= |s|
    ensures Run(Lower(s), lo, hi) <==> Run(s, lo, hi)
  {
    forall k | lo <= k < hi
      ensures IsPatternChar(Lower(s)[k]) == IsPatternChar(s[k])
    {
      LowerCharKeepsClass(s[k]);
    }
  }

  lemma LowerSplitsAt(s: string, i: int, j: int)
    ensures SplitsAt(Lower(s), i, j) <==> SplitsAt(s, i, j)
  {
    if 0 < i && i + 1 < j && j + 1 < |s| {
      LowerCharKeepsClass(s[i]);
      LowerCharKeepsClass(s[j]);
      LowerKeepsRun(s, 0, i);
      LowerKeepsRun(s, i + 1, j);
      LowerKeepsRun(s, j + 1, |s|);
    }
  }

  /**
   Lower-casing keeps `@`, `.` and whitespace where they are and introduces none,
   so a string passes the shape rule exactly when its lower-cased form does.
   */
  lemma LowerKeepsShape(s: string)
    ensures ValidEmail(Lower(s)) <==> ValidEmail(s)
  {
    var t := Lower(s);
    ValidEmailMatchesPattern(s);
    ValidEmailMatchesPattern(t);
    if MatchesEmailPattern(s) {
      var i, j :| SplitsAt(s, i, j);
      LowerSplitsAt(s, i, j);
    }
    if MatchesEmailPattern(t) {
      var i, j :| SplitsAt(t, i, j);
      LowerSplitsAt(s, i, j);
    }
  }
}
