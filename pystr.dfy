/**
 * The Python `str` operations the request handlers rely on, modelled on
 * `string` (`seq<char>`): `isspace`, `strip`, one-character `replace`,
 * `upper` on ASCII letters, and `str(n)` for a natural number together with
 * its inverse `int(s)`.
 */
module PyStr {

  /** `c.isspace()` in Python 3: general category Zs, or bidirectional class WS, B or S. */
  predicate IsSpace(c: char)
    ensures c == ' ' || c == '\t' || c == '\n' || c == '\r' || c == '\U{A0}' || c == '\U{3000}' ==> IsSpace(c)
    ensures IsSpace(c) ==> !('0' <= c <= '9') && !('A' <= c <= 'Z') && !('a' <= c <= 'z') && c != '_' && c != '-'
  {
    var n := c as int;
    || 0x09 <= n <= 0x0D
    || 0x1C <= n <= 0x20
    || n == 0x85
    || n == 0xA0
    || n == 0x1680
    || 0x2000 <= n <= 0x200A
    || n == 0x2028
    || n == 0x2029
    || n == 0x202F
    || n == 0x205F
    || n == 0x3000
  }

  /** Every character of `s` is whitespace (vacuously so for ""). */
  predicate AllSpace(s: string) {
    AllSpaceIn(s, 0, |s|)
  }

  /** Every character of `s` from index `lo` up to (not including) `hi` is whitespace. */
  predicate AllSpaceIn(s: string, lo: int, hi: int)
    requires 0 <= lo && hi <= |s|
  {
    forall k | lo <= k < hi :: IsSpace(s[k])
  }

  /** The forward scan of `strip`: the first index from `i` on that holds no whitespace (|s| if none). */
  function SkipSpaces(s: string, i: nat): (j: nat)
    requires i <= |s|
    ensures i <= j <= |s|
    ensures AllSpaceIn(s, i, j)
    ensures j < |s| ==> !IsSpace(s[j])
    decreases |s| - i
  {
    if i < |s| && IsSpace(s[i]) then SkipSpaces(s, i + 1) else i
  }

  /** The backward scan of `strip`: the end of `s[lo..hi]` once its trailing whitespace is dropped. */
  function BackSpaces(s: string, lo: nat, hi: nat): (j: nat)
    requires lo <= hi <= |s|
    ensures lo <= j <= hi
    ensures AllSpaceIn(s, j, hi)
    ensures lo < j ==> !IsSpace(s[j - 1])
    decreases hi
  {
    if lo < hi && IsSpace(s[hi - 1]) then BackSpaces(s, lo, hi - 1) else hi
  }

  /** `r` sits at offset `i` of `s`, with only whitespace before and after it. */
  predicate StrippedAt(s: string, i: nat, r: string) {
    && i + |r| <= |s|
    && r == s[i..i + |r|]
    && AllSpaceIn(s, 0, i)
    && AllSpaceIn(s, i + |r|, |s|)
  }

  /**
   * `s.strip()`: CPython scans forward past leading whitespace, then back
   * past trailing whitespace, and returns the slice between. The result is
   * empty exactly when `s` is all whitespace.
   */
  function Strip(s: string): (r: string)
    ensures exists i :: StrippedAt(s, i, r)
    ensures r != [] ==> !IsSpace(r[0]) && !IsSpace(r[|r| - 1])
    ensures r == [] <==> AllSpace(s)
  {
    var i := SkipSpaces(s, 0);
    var j := BackSpaces(s, i, |s|);
    assert StrippedAt(s, i, s[i..j]);
    assert i < j ==> s[i..j][0] == s[i];
    s[i..j]
  }

  /** Applies `f` to every character of `s`, as the C loops behind `str.replace` and `str.upper` do. */
  function MapChars(f: char -> char, s: string): (r: string)
    ensures |r| == |s|
    ensures forall i | 0 <= i < |s| :: r[i] == f(s[i])
  {
    if s == [] then [] else [f(s[0])] + MapChars(f, s[1..])
  }

  /** `s.replace(target, replacement)` where both are single characters. */
  function ReplaceChar(s: string, target: char, replacement: char): (r: string)
    ensures |r| == |s|
    ensures forall i | 0 <= i < |s| :: r[i] == (if s[i] == target then replacement else s[i])
    ensures target != replacement ==> target !in r
  {
    MapChars(c => if c == target then replacement else c, s)
  }

  /** `c.upper()` for ASCII: lower-case Latin letters move to upper case, everything else is kept. */
  function UpperChar(c: char): char {
    if 'a' <= c <= 'z' then (c as int - 32) as char else c
  }

  /** `s.upper()` on ASCII text. */
  function Upper(s: string): (r: string)
    ensures |r| == |s|
    ensures forall i | 0 <= i < |s| :: r[i] == UpperChar(s[i])
  {
    MapChars(UpperChar, s)
  }

  predicate IsDigit(c: char) {
    '0' <= c <= '9'
  }

  function DigitChar(d: nat): (c: char)
    requires d < 10
    ensures IsDigit(c) && c as int - '0' as int == d
  {
    ('0' as int + d) as char
  }

  /** `int(s)` for a string of ASCII decimal digits. */
  function DecimalValue(s: string): nat
    requires forall i | 0 <= i < |s| :: IsDigit(s[i])
  {
    if s == [] then 0
    else
      assert IsDigit(s[|s| - 1]);
      DecimalValue(s[..|s| - 1]) * 10 + (s[|s| - 1] as int - '0' as int)
  }

  /** `str(n)`: the decimal digits of `n`, without leading zeros. */
  function Decimal(n: nat): (r: string)
    ensures r != []
    ensures forall i | 0 <= i < |r| :: IsDigit(r[i])
    ensures r[0] == '0' ==> n == 0 && r == "0"
  {
    if n < 10 then [DigitChar(n)] else Decimal(n / 10) + [DigitChar(n % 10)]
  }

  /** `int(str(n)) == n`. */
  lemma {:induction false} DecimalRoundTrip(n: nat)
    ensures DecimalValue(Decimal(n)) == n
  {
    if n >= 10 {
      var r := Decimal(n);
      assert r[..|r| - 1] == Decimal(n / 10);
      DecimalRoundTrip(n / 10);
    }
  }

  /** Text with no whitespace at either end is left as it is by `strip`. */
  lemma StripTrimmed(s: string)
    requires s == [] || (!IsSpace(s[0]) && !IsSpace(s[|s| - 1]))
    ensures Strip(s) == s
  {
    assert SkipSpaces(s, 0) == 0;
    assert BackSpaces(s, 0, |s|) == |s|;
  }

  /** Stripping text that is already stripped changes nothing. */
  lemma StripIdempotent(s: string)
    ensures Strip(Strip(s)) == Strip(s)
  {
    StripTrimmed(Strip(s));
  }

  /** A leading whitespace character makes no difference to `strip`. */
  lemma StripLeadingSpace(c: char, s: string)
    requires IsSpace(c)
    ensures Strip([c] + s) == Strip(s)
  {
    var t := [c] + s;
    var i := SkipSpaces(s, 0);
    var j := BackSpaces(s, i, |s|);
    ShiftedSkip(c, s, 0);
    ShiftedBack(c, s, i, |s|);
    StripBetween(t, i + 1, j + 1);
    StripBetween(s, i, j);
    SliceShift(c, s, i, j);
  }

  lemma StripBetween(s: string, i: nat, j: nat)
    requires i == SkipSpaces(s, 0) && i <= |s| && j == BackSpaces(s, i, |s|)
    ensures Strip(s) == s[i..j]
  {
  }

  lemma SliceShift(c: char, s: string, i: nat, j: nat)
    requires i <= j <= |s|
    ensures ([c] + s)[i + 1..j + 1] == s[i..j]
  {
    assert ([c] + s)[1..] == s;
    assert ([c] + s)[i + 1..j + 1] == ([c] + s)[1..][i..j];
  }

  lemma {:induction false} ShiftedSkip(c: char, s: string, i: nat)
    requires IsSpace(c) && i <= |s|
    ensures SkipSpaces([c] + s, i + 1) == SkipSpaces(s, i) + 1
    ensures SkipSpaces([c] + s, 0) == SkipSpaces([c] + s, 1)
    decreases |s| - i
  {
    var t := [c] + s;
    assert t[0] == c;
    if i < |s| {
      assert t[i + 1] == s[i];
      if IsSpace(s[i]) { ShiftedSkip(c, s, i + 1); }
    }
  }

  lemma {:induction false} ShiftedBack(c: char, s: string, lo: nat, hi: nat)
    requires lo <= hi <= |s|
    ensures BackSpaces([c] + s, lo + 1, hi + 1) == BackSpaces(s, lo, hi) + 1
    decreases hi
  {
    var t := [c] + s;
    if lo < hi {
      assert t[hi] == s[hi - 1];
      if IsSpace(s[hi - 1]) { ShiftedBack(c, s, lo, hi - 1); }
    }
  }
}
