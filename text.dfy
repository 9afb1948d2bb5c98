/**
 * Characters and strings as the server's Ruby code sees them: the character
 * classes its regular expressions use, the two scans a backtracking match of
 * those expressions reduces to, `Integer#to_s` and `String#bytesize`.
 */
module Text {

  datatype Option<+T> = None | Some(value: T)

  /** `[A-Z]` */
  predicate IsUpper(c: char) {
    'A' <= c <= 'Z'
  }

  /** Ruby's `\s`: space, tab, line feed, vertical tab, form feed, carriage return. */
  predicate IsSpace(c: char) {
    c == ' ' || c == '\t' || c == '\n' || c == '\U{000B}' || c == '\U{000C}' || c == '\r'
  }

  predicate IsDigit(c: char) {
    '0' <= c <= '9'
  }

  predicate AllSpace(s: string) {
    forall i :: 0 <= i < |s| ==> IsSpace(s[i])
  }

  predicate AllDigits(s: string) {
    forall i :: 0 <= i < |s| ==> IsDigit(s[i])
  }

  /** Position of the first `c` in `s[lo..hi]`, or `hi` when there is none. */
  function Find(s: string, c: char, lo: nat, hi: nat): (k: nat)
    requires lo <= hi <= |s|
    ensures lo <= k <= hi
    decreases hi - lo
  {
    if lo == hi || s[lo] == c then lo else Find(s, c, lo + 1, hi)
  }

  /** No `c` comes before the position found, and one stands there unless it is `hi`. */
  lemma {:induction false} FindSpec(s: string, c: char, lo: nat, hi: nat)
    requires lo <= hi <= |s|
    ensures forall j :: lo <= j < Find(s, c, lo, hi) ==> s[j] != c
    ensures Find(s, c, lo, hi) < hi ==> s[Find(s, c, lo, hi)] == c
    decreases hi - lo
  {
    if lo < hi && s[lo] != c {
      FindSpec(s, c, lo + 1, hi);
    }
  }

  /** The first `c` in `s[lo..hi]` is at `k` when nothing before it is a `c` and `s[k]` is one (or `k` is `hi`). */
  lemma FindIs(s: string, c: char, lo: nat, hi: nat, k: nat)
    requires lo <= k <= hi <= |s|
    requires k < hi ==> s[k] == c
    requires forall j :: lo <= j < k ==> s[j] != c
    ensures Find(s, c, lo, hi) == k
  {
    FindSpec(s, c, lo, hi);
  }

  /** End of the longest run of `\s` characters starting at `lo` and stopping by `hi`. */
  function SkipSpace(s: string, lo: nat, hi: nat): (k: nat)
    requires lo <= hi <= |s|
    ensures lo <= k <= hi
    decreases hi - lo
  {
    if lo == hi || !IsSpace(s[lo]) then lo else SkipSpace(s, lo + 1, hi)
  }

  /** The run is blank and stops at the first character that is not. */
  lemma {:induction false} SkipSpaceSpec(s: string, lo: nat, hi: nat)
    requires lo <= hi <= |s|
    ensures forall j :: lo <= j < SkipSpace(s, lo, hi) ==> IsSpace(s[j])
    ensures SkipSpace(s, lo, hi) < hi ==> !IsSpace(s[SkipSpace(s, lo, hi)])
    decreases hi - lo
  {
    if lo < hi && IsSpace(s[lo]) {
      SkipSpaceSpec(s, lo + 1, hi);
    }
  }

  /** A blank stretch from `lo` to `m` bounds the run from below. */
  lemma SkipSpaceAtLeast(s: string, lo: nat, hi: nat, m: nat)
    requires lo <= m <= hi <= |s|
    requires forall j :: lo <= j < m ==> IsSpace(s[j])
    ensures SkipSpace(s, lo, hi) >= m
  {
    SkipSpaceSpec(s, lo, hi);
  }

  function DigitValue(c: char): (d: nat)
    requires IsDigit(c)
    ensures d < 10
  {
    c as int - '0' as int
  }

  function DigitChar(d: nat): (c: char)
    requires d < 10
    ensures IsDigit(c) && DigitValue(c) == d
  {
    ('0' as int + d) as char
  }

  /** `Integer#to_s` of a non-negative integer: decimal digits, no leading zero. */
  function Decimal(n: nat): (s: string)
    ensures |s| > 0 && AllDigits(s)
    ensures s[0] == '0' ==> n == 0
    decreases n
  {
    if n < 10 then [DigitChar(n)] else Decimal(n / 10) + [DigitChar(n % 10)]
  }

  /** The number a string of decimal digits denotes. */
  function DecimalValue(s: string): nat
    requires AllDigits(s)
  {
    if s == [] then 0 else 10 * DecimalValue(s[..|s| - 1]) + DigitValue(s[|s| - 1])
  }

  /** A reader of the decimal text gets back the number that was written. */
  lemma {:induction false} DecimalRoundTrip(n: nat)
    ensures DecimalValue(Decimal(n)) == n
    decreases n
  {
    if n >= 10 {
      DecimalRoundTrip(n / 10);
      var s := Decimal(n);
      assert s[..|s| - 1] == Decimal(n / 10);
    }
  }

  /** Bytes in the UTF-8 encoding of `c`. */
  function Utf8Width(c: char): nat {
    if c as int < 0x80 then 1
    else if c as int < 0x800 then 2
    else if c as int < 0x1_0000 then 3
    else 4
  }

  /** `String#bytesize` of a UTF-8 string. */
  function ByteSize(s: string): (n: nat)
    ensures |s| <= n <= 4 * |s|
  {
    if s == [] then 0 else Utf8Width(s[0]) + ByteSize(s[1..])
  }

  predicate IsAscii(s: string) {
    forall i :: 0 <= i < |s| ==> s[i] as int < 0x80
  }

  /** For ASCII text the byte count is the character count. */
  lemma {:induction false} AsciiByteSize(s: string)
    requires IsAscii(s)
    ensures ByteSize(s) == |s|
  {
    if s != [] {
      AsciiByteSize(s[1..]);
    }
  }
}
