/** `sanitize_filename`: the character filter applied to every name that becomes
    part of a library path. */
module Sanitize {
  import opened Text

  /** `c.isalnum()`, on ASCII letters and digits. */
  predicate IsAlnum(c: char) {
    ('a' <= c <= 'z') || ('A' <= c <= 'Z') || IsDigit(c)
  }

  /** The characters the filter lets through. */
  predicate Kept(c: char) {
    IsAlnum(c) || c == ' ' || c == '.' || c == '_' || c == '-'
  }

  predicate AllKept(s: string) {
    forall i | 0 <= i < |s| :: Kept(s[i])
  }

  /** `"".join(c for c in s if <kept>)` */
  function KeepAllowed(s: string): string {
    if s == [] then [] else (if Kept(s[0]) then [s[0]] else []) + KeepAllowed(s[1..])
  }

  /** `sanitize_filename(s)`: the allowed characters of `s`, in order, with
      trailing whitespace removed. */
  function SanitizeFilename(s: string): string {
    RStrip(KeepAllowed(s))
  }

  /** `a` can be obtained from `b` by deleting characters. */
  predicate IsSubsequence(a: string, b: string)
    decreases |b|
  {
    if a == [] then true
    else if b == [] then false
    else if a[0] == b[0] then IsSubsequence(a[1..], b[1..])
    else IsSubsequence(a, b[1..])
  }

  lemma {:induction false} KeepAllowedOnlyKept(s: string)
    ensures AllKept(KeepAllowed(s))
  {
    if s != [] {
      KeepAllowedOnlyKept(s[1..]);
    }
  }

  lemma {:induction false} KeepAllowedSubsequence(s: string)
    ensures IsSubsequence(KeepAllowed(s), s)
  {
    if s != [] {
      KeepAllowedSubsequence(s[1..]);
      var r := KeepAllowed(s[1..]);
      if Kept(s[0]) {
        var a := [s[0]] + r;
        assert a[0] == s[0] && a[1..] == r;
        assert KeepAllowed(s) == a;
      } else {
        assert KeepAllowed(s) == r;
        SubsequenceDropFront(r, s);
      }
    }
  }

  /** A subsequence of the tail of `b` is a subsequence of `b`. */
  lemma {:induction false} SubsequenceDropFront(a: string, b: string)
    requires b != [] && IsSubsequence(a, b[1..])
    ensures IsSubsequence(a, b)
    decreases |b|, 0
  {
    if a != [] && a[0] == b[0] {
      SubsequenceOfTail(a, b[1..]);
    }
  }

  /** If `a` is a subsequence of `c`, so is the tail of `a`. */
  lemma {:induction false} SubsequenceOfTail(a: string, c: string)
    requires a != [] && IsSubsequence(a, c)
    ensures IsSubsequence(a[1..], c)
    decreases |c|, 1
  {
    if a[0] == c[0] {
      SubsequenceDropFront(a[1..], c);
    } else {
      SubsequenceOfTail(a, c[1..]);
      SubsequenceDropFront(a[1..], c);
    }
  }

  lemma {:induction false} PrefixSubsequence(a: string, n: nat, b: string)
    requires n <= |a| && IsSubsequence(a, b)
    ensures IsSubsequence(a[..n], b)
    decreases |b|
  {
    if n > 0 {
      if a[0] == b[0] {
        PrefixSubsequence(a[1..], n - 1, b[1..]);
        assert a[1..][..n - 1] == a[..n][1..];
      } else {
        PrefixSubsequence(a, n, b[1..]);
      }
    }
  }

  lemma {:induction false} KeepAllowedOfKept(s: string)
    requires AllKept(s)
    ensures KeepAllowed(s) == s
  {
    if s != [] {
      KeepAllowedOfKept(s[1..]);
    }
  }

  /** The sanitized name holds only letters, digits, space, `.`, `_` and `-`. */
  lemma SanitizeOnlyAllowed(s: string)
    ensures AllKept(SanitizeFilename(s))
  {
    KeepAllowedOnlyKept(s);
  }

  /** The sanitized name does not end in whitespace. */
  lemma SanitizeNoTrailingSpace(s: string)
    ensures var r := SanitizeFilename(s); r == [] || !IsSpace(r[|r| - 1])
  {
  }

  /** The sanitized name is obtained from the input by deleting characters. */
  lemma SanitizeSubsequence(s: string)
    ensures IsSubsequence(SanitizeFilename(s), s)
  {
    var k := KeepAllowed(s);
    KeepAllowedSubsequence(s);
    PrefixSubsequence(k, |RStrip(k)|, s);
  }

  /** Sanitizing an already sanitized name changes nothing. */
  lemma SanitizeIdempotent(s: string)
    ensures SanitizeFilename(SanitizeFilename(s)) == SanitizeFilename(s)
  {
    var r := SanitizeFilename(s);
    SanitizeOnlyAllowed(s);
    KeepAllowedOfKept(r);
  }
}
