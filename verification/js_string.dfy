/**
 The parts of JavaScript string semantics the forms rely on: the white-space
 class shared by `\s` and `String.prototype.trim`, and `trim` itself.
 Strings are sequences of code points; UTF-16 surrogate pairs are not modelled.
 */
module JsString {

  /** ECMAScript WhiteSpace and LineTerminator code points: the characters
      `\s` matches and `trim()` removes. */
  predicate IsSpace(c: char)
  {
    || c == '\t' || c == '\n' || c == '\U{000B}' || c == '\U{000C}' || c == '\r'
    || c == ' ' || c == '\U{00A0}' || c == '\U{1680}'
    || ('\U{2000}' <= c <= '\U{200A}')
    || c == '\U{2028}' || c == '\U{2029}' || c == '\U{202F}' || c == '\U{205F}'
    || c == '\U{3000}' || c == '\U{FEFF}'
  }

  /** Every character of `s` is white space (vacuously true of ""). */
  predicate IsBlank(s: string)
  {
    forall k | 0 <= k < |s| :: IsSpace(s[k])
  }

  /** `s[lo..hi]` is all white space, read position by position. */
  predicate BlankRange(s: string, lo: int, hi: int)
    requires 0 <= lo <= hi <= |s|
  {
    forall k | lo <= k < hi :: IsSpace(s[k])
  }

  /** `BlankRange` is `IsBlank` of the slice. */
  lemma BlankRangeSlice(s: string, lo: int, hi: int)
    requires 0 <= lo <= hi <= |s|
    ensures BlankRange(s, lo, hi) <==> IsBlank(s[lo..hi])
  {
    if BlankRange(s, lo, hi) {
      forall k | 0 <= k < hi - lo
        ensures IsSpace(s[lo..hi][k])
      {
        assert s[lo..hi][k] == s[lo + k];
      }
    }
    if IsBlank(s[lo..hi]) {
      forall k | lo <= k < hi
        ensures IsSpace(s[k])
      {
        assert s[k] == s[lo..hi][k - lo];
      }
    }
  }

  /** Where leading white space ends, scanning forward from `from`: the
      first non-space position, or `|s|` when there is none. */
  function LeadingSpaces(s: string, from: nat): (n: nat)
    requires from <= |s|
    ensures from <= n <= |s|
    ensures BlankRange(s, from, n)
    ensures n == |s| || !IsSpace(s[n])
    decreases |s| - from
  {
    if from < |s| && IsSpace(s[from]) then LeadingSpaces(s, from + 1) else from
  }

  /** Where trailing white space starts, scanning backward from `hi` but not
      past `lo`: one past the last non-space position, or `lo` when there is none. */
  function TrailingSpaces(s: string, lo: nat, hi: nat): (n: nat)
    requires lo <= hi <= |s|
    ensures lo <= n <= hi
    ensures BlankRange(s, n, hi)
    ensures n == lo || !IsSpace(s[n - 1])
    decreases hi
  {
    if hi > lo && IsSpace(s[hi - 1]) then TrailingSpaces(s, lo, hi - 1) else hi
  }

  /** `s.trim()`: the infix of `s` left after removing blank ends; it neither
      starts nor ends with white space. */
  function Trim(s: string): (r: string)
    ensures exists i | 0 <= i <= |s| - |r| :: r == s[i..i + |r|] && IsBlank(s[..i]) && IsBlank(s[i + |r|..])
    ensures |r| == 0 || (!IsSpace(r[0]) && !IsSpace(r[|r| - 1]))
  {
    var a := LeadingSpaces(s, 0);
    var b := TrailingSpaces(s, a, |s|);
    BlankRangeSlice(s, 0, a);
    BlankRangeSlice(s, b, |s|);
    assert s[..a] == s[0..a] && s[b..] == s[b..|s|];
    var r := s[a..b];
    assert r == s[a..a + |r|];
    r
  }

  /** JavaScript's `!s.trim()`: the trimmed string is the falsy "". */
  predicate TrimIsEmpty(s: string)
  {
    |Trim(s)| == 0
  }

  /** A string trims to "" exactly when it consists of white space only. */
  lemma TrimIsEmptyIffBlank(s: string)
    ensures TrimIsEmpty(s) <==> IsBlank(s)
  {
    var a := LeadingSpaces(s, 0);
    var b := TrailingSpaces(s, a, |s|);
    assert Trim(s) == s[a..b];
    if IsBlank(s) {
      assert a == |s|;
    }
  }
}
