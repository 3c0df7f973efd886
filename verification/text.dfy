/**
 * The character classes and `str` operations the engine relies on:
 * `isspace`/`strip`, `isalnum`, decimal digit runs, the `in` substring
 * test and `replace`.
 */
module Text {

  /** Python's `str.isspace()`: what `strip()` removes and what `\s` matches. */
  predicate IsSpace(c: char) {
    || ('\t' <= c <= '\r')
    || ('\U{1C}' <= c <= ' ')
    || c == '\U{85}' || c == '\U{A0}' || c == '\U{1680}'
    || ('\U{2000}' <= c <= '\U{200A}')
    || c == '\U{2028}' || c == '\U{2029}' || c == '\U{202F}'
    || c == '\U{205F}' || c == '\U{3000}'
  }

  predicate IsDigit(c: char) {
    '0' <= c <= '9'
  }

  /** `str.isalnum()` restricted to ASCII letters and digits. */
  predicate IsAlnum(c: char) {
    IsDigit(c) || 'a' <= c <= 'z' || 'A' <= c <= 'Z'
  }

  /** ASCII lower-casing, the case folding a literal sees under `re.IGNORECASE`. */
  function Lower(c: char): char {
    if 'A' <= c <= 'Z' then (c as int + 32) as char else c
  }

  predicate AllSpace(s: string) {
    forall i | 0 <= i < |s| :: IsSpace(s[i])
  }

  predicate AllDigits(s: string) {
    forall i | 0 <= i < |s| :: IsDigit(s[i])
  }

  /** Neither starts nor ends with whitespace: what `strip()` leaves. */
  predicate Trimmed(s: string) {
    s == [] || (!IsSpace(s[0]) && !IsSpace(s[|s| - 1]))
  }

  function DigitValue(c: char): (d: nat)
    requires IsDigit(c)
    ensures d <= 9
  {
    c as int - '0' as int
  }

  function DigitChar(d: nat): (c: char)
    requires d <= 9
    ensures IsDigit(c) && DigitValue(c) == d
  {
    ('0' as int + d) as char
  }

  /** The number a run of decimal digits denotes, most significant first. */
  function DigitsValue(s: string): nat
    requires AllDigits(s)
    decreases |s|
  {
    if s == [] then 0 else 10 * DigitsValue(s[..|s| - 1]) + DigitValue(s[|s| - 1])
  }

  /** Length of the longest all-digit prefix of `s`. */
  function LeadingDigits(s: string): (n: nat)
    ensures n <= |s|
    ensures AllDigits(s[..n])
    ensures n < |s| ==> !IsDigit(s[n])
  {
    if s != [] && IsDigit(s[0]) then
      var m := LeadingDigits(s[1..]);
      assert s[..1 + m] == [s[0]] + s[1..][..m];
      1 + m
    else 0
  }

  /** Length of the longest all-whitespace prefix of `s`. */
  function LeadingSpaces(s: string): (n: nat)
    ensures n <= |s|
    ensures AllSpace(s[..n])
    ensures n < |s| ==> !IsSpace(s[n])
  {
    if s != [] && IsSpace(s[0]) then
      var m := LeadingSpaces(s[1..]);
      assert s[..1 + m] == [s[0]] + s[1..][..m];
      1 + m
    else 0
  }

  /** `s.strip()`: whitespace removed from both ends. */
  function Strip(s: string): (r: string)
    ensures Trimmed(r)
    ensures r == [] <==> AllSpace(s)
    ensures |r| <= |s|
    decreases |s|
  {
    if s != [] && IsSpace(s[0]) then
      assert AllSpace(s) <==> AllSpace(s[1..]) by {
        assert forall i | 1 <= i < |s| :: s[i] == s[1..][i - 1];
      }
      Strip(s[1..])
    else if s != [] && IsSpace(s[|s| - 1]) then
      assert AllSpace(s) <==> AllSpace(s[..|s| - 1]) by {
        assert forall i | 0 <= i < |s| - 1 :: s[i] == s[..|s| - 1][i];
      }
      Strip(s[..|s| - 1])
    else s
  }

  /** Python's `sub in s` on strings. */
  predicate HasSubstring(s: string, sub: string)
    decreases |s|
  {
    sub <= s || (s != [] && HasSubstring(s[1..], sub))
  }

  /** Python's `s.replace(pat, rep)`: every non-overlapping occurrence, scanning left to right. */
  function Replace(s: string, pat: string, rep: string): string
    decreases |s|
  {
    if pat == [] then
      if s == [] then rep else rep + [s[0]] + Replace(s[1..], pat, rep)
    else if pat <= s then rep + Replace(s[|pat|..], pat, rep)
    else if s == [] then []
    else [s[0]] + Replace(s[1..], pat, rep)
  }

  // ---------------------------------------------------------------------
  // Facts about strip

  lemma StripTrimmed(s: string)
    requires Trimmed(s)
    ensures Strip(s) == s
  {
  }

  /**
   * `strip()` removes only outer whitespace: its result is a slice of the
   * input with nothing but whitespace before and after it.
   */
  lemma StripMeaning(s: string)
    ensures exists i, j | 0 <= i <= j <= |s| ::
      Strip(s) == s[i..j] && AllSpace(s[..i]) && AllSpace(s[j..])
  {
    var i, j := StripBounds(s);
  }

  /** Where `Strip(s)` starts and ends in `s`. */
  lemma {:induction false} StripBounds(s: string) returns (i: nat, j: nat)
    ensures i <= j <= |s| && Strip(s) == s[i..j] && AllSpace(s[..i]) && AllSpace(s[j..])
    decreases |s|
  {
    if s != [] && IsSpace(s[0]) {
      var u := s[1..];
      var i', j' := StripBounds(u);
      i, j := i' + 1, j' + 1;
      assert u[i'..j'] == s[i..j];
      assert u[j'..] == s[j..];
      SpacePrefixCons(s, i');
    } else if s != [] && IsSpace(s[|s| - 1]) {
      var u := s[..|s| - 1];
      i, j := StripBounds(u);
      assert u[i..j] == s[i..j];
      assert u[..i] == s[..i];
      SpaceSuffixSnoc(s, j);
    } else {
      i, j := 0, |s|;
      assert s[0..|s|] == s;
    }
  }

  lemma SpacePrefixCons(s: string, i: nat)
    requires i < |s| && IsSpace(s[0]) && AllSpace(s[1..][..i])
    ensures AllSpace(s[..i + 1])
  {
    var p, q := s[..i + 1], s[1..][..i];
    assert forall k | 1 <= k < i + 1 :: p[k] == q[k - 1];
  }

  lemma SpaceSuffixSnoc(s: string, j: nat)
    requires j < |s| && IsSpace(s[|s| - 1]) && AllSpace(s[..|s| - 1][j..])
    ensures AllSpace(s[j..])
  {
    var p, q := s[j..], s[..|s| - 1][j..];
    assert forall k | 0 <= k < |q| :: p[k] == q[k];
  }

  /** `strip()` is idempotent. */
  lemma StripIdempotent(s: string)
    ensures Strip(Strip(s)) == Strip(s)
  {
    StripTrimmed(Strip(s));
  }

  // ---------------------------------------------------------------------
  // Facts about the substring test

  lemma {:induction false} NoSubstringShort(s: string, sub: string)
    requires |s| < |sub|
    ensures !HasSubstring(s, sub)
    decreases |s|
  {
    if s != [] {
      NoSubstringShort(s[1..], sub);
    }
  }

  /** An occurrence in a prefix is an occurrence in the whole. */
  lemma {:induction false} SubstringOfPrefix(s: string, n: nat, sub: string)
    requires n <= |s|
    requires HasSubstring(s[..n], sub)
    ensures HasSubstring(s, sub)
    decreases n
  {
    if sub <= s[..n] {
      assert sub <= s;
    } else {
      assert s[..n] != [];
      assert s[..n][1..] == s[1..][..n - 1];
      SubstringOfPrefix(s[1..], n - 1, sub);
    }
  }

  /** Stripping cannot create an occurrence that was not there. */
  lemma {:induction false} StripKeepsAbsence(s: string, sub: string)
    requires !HasSubstring(s, sub)
    ensures !HasSubstring(Strip(s), sub)
    decreases |s|
  {
    if s != [] && IsSpace(s[0]) {
      StripKeepsAbsence(s[1..], sub);
    } else if s != [] && IsSpace(s[|s| - 1]) {
      if HasSubstring(s[..|s| - 1], sub) {
        SubstringOfPrefix(s, |s| - 1, sub);
      }
      StripKeepsAbsence(s[..|s| - 1], sub);
    }
  }

  // ---------------------------------------------------------------------
  // Facts about replace

  /** Replacing a pattern that never occurs changes nothing. */
  lemma {:induction false} ReplaceAbsent(s: string, pat: string, rep: string)
    requires pat != []
    requires !HasSubstring(s, pat)
    ensures Replace(s, pat, rep) == s
    decreases |s|
  {
    if s != [] {
      ReplaceAbsent(s[1..], pat, rep);
    }
  }

  /** Replacing one character by one character is a pointwise substitution. */
  lemma {:induction false} ReplaceChar(s: string, c: char, d: char)
    ensures |Replace(s, [c], [d])| == |s|
    ensures forall i | 0 <= i < |s| :: Replace(s, [c], [d])[i] == if s[i] == c then d else s[i]
    decreases |s|
  {
    if s != [] {
      ReplaceChar(s[1..], c, d);
      if [c] <= s {
        assert s[|[c]|..] == s[1..];
      }
    }
  }

  /** A string that does not begin with the pattern keeps its first character. */
  lemma ReplaceKeepsHead(s: string, pat: string, rep: string)
    requires pat != [] && s != [] && !(pat <= s)
    ensures Replace(s, pat, rep) != [] && Replace(s, pat, rep)[0] == s[0]
  {
  }

  /**
   * Deleting every "```" leaves no "```": a run of n backticks keeps
   * n % 3 of them, and runs stay separated by the other characters.
   */
  lemma {:induction false} DeleteFencesLeavesNone(s: string)
    ensures !HasSubstring(Replace(s, "```", ""), "```")
    decreases |s|
  {
    var fence := "```";
    var r := Replace(s, fence, "");
    if |s| < 3 {
      ReplaceAbsentShort(s, fence);
      NoSubstringShort(s, fence);
    } else if fence <= s {
      assert s[|fence|..] == s[3..];
      assert r == [] + Replace(s[3..], fence, "") == Replace(s[3..], fence, "");
      DeleteFencesLeavesNone(s[3..]);
    } else {
      var t := Replace(s[1..], fence, "");
      DeleteFencesLeavesNone(s[1..]);
      assert r == [s[0]] + t;
      assert r[1..] == t;
      if s[0] == '`' {
        if s[1] != '`' {
          ReplaceKeepsHead(s[1..], fence, "");
        } else {
          assert s[2] != '`';
          ReplaceKeepsHead(s[1..], fence, "");
          assert t == ['`'] + Replace(s[2..], fence, "");
          ReplaceKeepsHead(s[2..], fence, "");
          assert t[1] == s[2];
        }
      }
      assert !(fence <= r);
    }
  }

  /** A pattern cannot occur where its first character does not, nor where it does not fit. */
  lemma {:induction false} NoSubstringBefore(s: string, k: nat, pat: string)
    requires pat != [] && k <= |s|
    requires pat[0] !in s[..k]
    requires |s| - k < |pat|
    ensures !HasSubstring(s, pat)
    decreases k
  {
    if k == 0 {
      NoSubstringShort(s, pat);
    } else {
      assert s[0] == s[..k][0];
      assert s[1..][..k - 1] == s[..k][1..];
      NoSubstringBefore(s[1..], k - 1, pat);
    }
  }

  /** A prefix free of the pattern's first character passes through `replace` unchanged. */
  lemma {:induction false} ReplaceFreePrefix(a: string, t: string, pat: string, rep: string)
    requires pat != [] && pat[0] !in a
    ensures Replace(a + t, pat, rep) == a + Replace(t, pat, rep)
    decreases |a|
  {
    if a == [] {
      assert a + t == t;
    } else {
      assert pat[0] !in a[1..] by {
        assert forall i | 0 <= i < |a[1..]| :: a[1..][i] == a[i + 1];
      }
      var r := Replace(t, pat, rep);
      calc {
        Replace(a + t, pat, rep);
        { assert a + t == [a[0]] + (a[1..] + t); }
        Replace([a[0]] + (a[1..] + t), pat, rep);
        { ReplaceCons(a[0], a[1..] + t, pat, rep); }
        [a[0]] + Replace(a[1..] + t, pat, rep);
        { ReplaceFreePrefix(a[1..], t, pat, rep); }
        [a[0]] + (a[1..] + r);
        { assert [a[0]] + a[1..] == a; }
        a + r;
      }
    }
  }

  /** A character that cannot start the pattern is copied through. */
  lemma ReplaceCons(c: char, s: string, pat: string, rep: string)
    requires pat != [] && c != pat[0]
    ensures Replace([c] + s, pat, rep) == [c] + Replace(s, pat, rep)
  {
    var cs := [c] + s;
    assert cs[0] == c && cs[1..] == s;
  }


  lemma ReplaceAbsentShort(s: string, pat: string)
    requires pat != [] && |s| < |pat|
    ensures Replace(s, pat, []) == s
  {
    NoSubstringShort(s, pat);
    ReplaceAbsent(s, pat, []);
  }

  /** A digit run followed by a non-digit is exactly the leading digit run. */
  lemma {:induction false} LeadingDigitsOfRun(digits: string, tail: string)
    requires AllDigits(digits)
    requires tail == [] || !IsDigit(tail[0])
    ensures LeadingDigits(digits + tail) == |digits|
    decreases |digits|
  {
    if digits != [] {
      assert (digits + tail)[1..] == digits[1..] + tail;
      LeadingDigitsOfRun(digits[1..], tail);
    } else {
      assert digits + tail == tail;
    }
  }
}
