/** Python `str` operations on text held as `seq<char>`. */
module Text {

  /**
   * `str.isspace()` for one character: the ASCII whitespace and separator
   * controls, and the Unicode characters Python's `strip()` also removes.
   */
  predicate IsSpace(c: char) {
    c == ' ' || ('\t' <= c <= '\r') || ('\U{1C}' <= c <= '\U{1F}')
    || c == '\U{85}' || c == '\U{A0}' || c == '\U{1680}'
    || ('\U{2000}' <= c <= '\U{200A}') || c == '\U{2028}' || c == '\U{2029}'
    || c == '\U{202F}' || c == '\U{205F}' || c == '\U{3000}'
  }

  predicate AllSpace(s: string) {
    forall k :: 0 <= k < |s| ==> IsSpace(s[k])
  }

  /** Neither end of `s` is whitespace: `s.strip() == s`. */
  predicate IsStripped(s: string) {
    |s| == 0 || (!IsSpace(s[0]) && !IsSpace(s[|s| - 1]))
  }

  /** Where `s.lstrip()` starts, searching from `i`: the first index that is not whitespace, or `|s|`. */
  function LeadingEnd(s: string, i: nat): (j: nat)
    requires i <= |s|
    ensures i <= j <= |s|
    ensures forall k :: i <= k < j ==> IsSpace(s[k])
    ensures j < |s| ==> !IsSpace(s[j])
    decreases |s| - i
  {
    if i < |s| && IsSpace(s[i]) then LeadingEnd(s, i + 1) else i
  }

  /** Where `s[lo..hi].rstrip()` ends: just past the last index below `hi` that is not whitespace, or `lo`. */
  function TrailingStart(s: string, lo: nat, hi: nat): (j: nat)
    requires lo <= hi <= |s|
    ensures lo <= j <= hi
    ensures forall k :: j <= k < hi ==> IsSpace(s[k])
    ensures j > lo ==> !IsSpace(s[j - 1])
    decreases hi - lo
  {
    if lo < hi && IsSpace(s[hi - 1]) then TrailingStart(s, lo, hi - 1) else hi
  }

  /**
   * `s.strip()`: `s` without its leading and trailing whitespace. The result
   * is a slice of `s` with only whitespace cut off either end, is stripped,
   * is `s` itself when `s` is stripped, is empty exactly when `s` is all
   * whitespace, and lacks every character `s` lacks.
   */
  function Strip(s: string): (r: string)
    ensures exists i, j :: 0 <= i <= j <= |s| && r == s[i..j] && AllSpace(s[..i]) && AllSpace(s[j..])
    ensures IsStripped(r)
    ensures IsStripped(s) ==> r == s
    ensures r == [] <==> AllSpace(s)
    ensures forall c :: c !in s ==> c !in r
  {
    var i := LeadingEnd(s, 0);
    var j := TrailingStart(s, i, |s|);
    assert |s| > 0 && !IsSpace(s[0]) ==> i == 0;
    assert |s| > 0 && !IsSpace(s[|s| - 1]) ==> j == |s|;
    assert AllSpace(s[..i]) && AllSpace(s[j..]);
    s[i..j]
  }

  /** Stripping `" " + t` for a stripped, non-empty `t` gives `t`. */
  lemma StripLeadingBlank(t: string)
    requires IsStripped(t) && |t| > 0
    ensures Strip(" " + t) == t
  {
    var s := " " + t;
    var i := LeadingEnd(s, 0);
    assert s[1] == t[0];
    assert i == 1;
    assert s[|s| - 1] == t[|t| - 1];
    assert TrailingStart(s, 1, |s|) == |s|;
    assert s[1..] == t;
  }

  function DigitChar(d: nat): (c: char)
    requires d < 10
  {
    ('0' as int + d) as char
  }

  predicate IsDigit(c: char) { '0' <= c <= '9' }

  /** `str(n)` for a non-negative integer: its decimal digits, no leading zero. */
  function Decimal(n: nat): (r: string)
    ensures |r| > 0
    ensures forall k :: 0 <= k < |r| ==> IsDigit(r[k])
    decreases n
  {
    if n < 10 then [DigitChar(n)] else Decimal(n / 10) + [DigitChar(n % 10)]
  }

  /** `int(s)` for a string of decimal digits. */
  function ParseDecimal(s: string): nat
    requires forall k :: 0 <= k < |s| ==> IsDigit(s[k])
    decreases |s|
  {
    if |s| == 0 then 0
    else
      var d := s[|s| - 1] as int - '0' as int;
      assert IsDigit(s[|s| - 1]);
      ParseDecimal(s[..|s| - 1]) * 10 + d
  }

  /** `int(str(n)) == n`, so distinct numbers have distinct decimal strings. */
  lemma {:induction false} DecimalRoundTrip(n: nat)
    ensures ParseDecimal(Decimal(n)) == n
    decreases n
  {
    if n >= 10 {
      var s := Decimal(n);
      DecimalRoundTrip(n / 10);
      assert s[..|s| - 1] == Decimal(n / 10);
    }
  }
}
