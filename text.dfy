/** Python string operations the core relies on, restated over Dafny strings:
    whitespace stripping, substring tests and decimal formatting of integers. */
module Text {

  /** Python's `str.isspace` on the ASCII range: tab, newline, vertical tab,
      form feed, carriage return, the four information separators and space. */
  predicate IsSpace(c: char) {
    c == ' ' || (9 <= c as int <= 13) || (28 <= c as int <= 31)
  }

  predicate IsDigit(c: char) {
    '0' <= c <= '9'
  }

  predicate AllDigits(s: string) {
    forall i | 0 <= i < |s| :: IsDigit(s[i])
  }

  /** A string made of decimal digits only, as a `\d+` capture group is. */
  type DigitString = s: string | AllDigits(s)

  /** `s.rstrip()` */
  function RStrip(s: string): (r: string)
    ensures |r| <= |s| && r == s[..|r|]
    ensures r == [] || !IsSpace(r[|r| - 1])
  {
    if s != [] && IsSpace(s[|s| - 1]) then RStrip(s[..|s| - 1]) else s
  }

  /** `s.lstrip()` */
  function LStrip(s: string): (r: string)
    ensures |r| <= |s| && r == s[|s| - |r|..]
    ensures r == [] || !IsSpace(r[0])
  {
    if s != [] && IsSpace(s[0]) then LStrip(s[1..]) else s
  }

  /** `s.strip()` */
  function Strip(s: string): string {
    LStrip(RStrip(s))
  }

  /** A string with no whitespace at either end. */
  predicate Trimmed(s: string) {
    s == [] || (!IsSpace(s[0]) && !IsSpace(s[|s| - 1]))
  }

  lemma {:induction false} LStripKeepsTrailing(s: string)
    requires s == [] || !IsSpace(s[|s| - 1])
    ensures LStrip(s) == [] || !IsSpace(LStrip(s)[|LStrip(s)| - 1])
  {
    if s != [] && IsSpace(s[0]) {
      LStripKeepsTrailing(s[1..]);
    }
  }

  /** `strip()` leaves no whitespace at either end and returns a contiguous
      piece of its argument. */
  lemma StripTrimmed(s: string)
    ensures Trimmed(Strip(s))
    ensures exists i, j | 0 <= i <= j <= |s| :: Strip(s) == s[i..j]
  {
    LStripKeepsTrailing(RStrip(s));
    StripIsSlice(s);
  }

  /** Where the stripped string sits in its argument. */
  lemma StripIsSlice(s: string)
    ensures |RStrip(s)| <= |s| && |Strip(s)| <= |RStrip(s)|
    ensures Strip(s) == s[|RStrip(s)| - |Strip(s)|..|RStrip(s)|]
  {
    var r := RStrip(s);
    var l := LStrip(r);
    SliceOfPrefix(s, |r|, |r| - |l|);
  }

  lemma SliceOfPrefix(s: string, n: nat, k: nat)
    requires k <= n <= |s|
    ensures s[..n][k..] == s[k..n]
  {
  }

  lemma {:induction false} RStripOfTrimmed(s: string)
    requires s == [] || !IsSpace(s[|s| - 1])
    ensures RStrip(s) == s
  {
  }

  lemma {:induction false} LStripOfTrimmed(s: string)
    requires s == [] || !IsSpace(s[0])
    ensures LStrip(s) == s
  {
  }

  /** Stripping twice is stripping once. */
  lemma StripIdempotent(s: string)
    ensures Strip(Strip(s)) == Strip(s)
  {
    StripTrimmed(s);
    var t := Strip(s);
    RStripOfTrimmed(t);
    LStripOfTrimmed(t);
  }

  /** `sub in s` for strings: `sub` occurs at some position of `s`. */
  predicate Contains(s: string, sub: string)
    decreases |s|
  {
    StartsWith(s, sub) || (s != [] && Contains(s[1..], sub))
  }

  /** `s.endswith(suffix)` */
  predicate EndsWith(s: string, suffix: string) {
    |suffix| <= |s| && s[|s| - |suffix|..] == suffix
  }

  /** `s.startswith(prefix)` */
  predicate StartsWith(s: string, prefix: string) {
    |prefix| <= |s| && s[..|prefix|] == prefix
  }

  function DigitChar(d: nat): (c: char)
    requires d < 10
    ensures IsDigit(c)
  {
    ['0', '1', '2', '3', '4', '5', '6', '7', '8', '9'][d]
  }

  function DigitValue(c: char): nat
    requires IsDigit(c)
  {
    c as int - '0' as int
  }

  /** `int(s)` for a string of decimal digits. */
  function DecimalValue(s: string): nat
    requires AllDigits(s)
  {
    if s == [] then 0 else 10 * DecimalValue(s[..|s| - 1]) + DigitValue(s[|s| - 1])
  }

  /** `str(n)` for a non-negative integer. */
  function Decimal(n: nat): (r: string)
    ensures AllDigits(r) && r != []
  {
    if n < 10 then [DigitChar(n)] else Decimal(n / 10) + [DigitChar(n % 10)]
  }

  /** Parsing the decimal text of `n` gives back `n`. */
  lemma {:induction false} DecimalRoundTrip(n: nat)
    ensures DecimalValue(Decimal(n)) == n
  {
    var r := Decimal(n);
    if n < 10 {
      assert r[..0] == [];
    } else {
      DecimalRoundTrip(n / 10);
      assert r[..|r| - 1] == Decimal(n / 10);
    }
  }

  /** `f"{n:02d}"`: the decimal text of `n`, zero-padded to at least two characters. */
  function Pad2(n: nat): (r: string)
    ensures AllDigits(r)
  {
    if n < 10 then "0" + Decimal(n) else Decimal(n)
  }

  lemma {:induction false} DecimalLength(n: nat)
    ensures n < 10 ==> |Decimal(n)| == 1
    ensures 10 <= n < 100 ==> |Decimal(n)| == 2
  {
    if n >= 10 {
      DecimalLength(n / 10);
    }
  }

  /** Below one hundred the padded text is exactly two digits and reads back as `n`. */
  lemma Pad2RoundTrip(n: nat)
    requires n < 100
    ensures |Pad2(n)| == 2 && DecimalValue(Pad2(n)) == n
  {
    DecimalLength(n);
    DecimalRoundTrip(n);
    if n < 10 {
      var r := Pad2(n);
      assert r[..1] == "0";
      assert r[..0] == [];
    }
  }
}
