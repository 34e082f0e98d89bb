/** The .NET string operations the editor code relies on: decimal rendering of
    integers (`Int32.ToString()`, `ToString("00")`), `String.Replace(old, "")`,
    `StartsWith`, `EndsWith`, `PadRight` and concatenation of pieces. */
module Text {

  /** The character of one decimal digit. */
  function Digit(d: nat): (c: char)
    requires d < 10
    ensures '0' <= c <= '9'
  {
    (48 + d) as char
  }

  /** `n.ToString()` for a non-negative 32-bit integer: decimal digits, no
      sign, no leading zero. */
  function NatToString(n: nat): (s: string)
    ensures 1 <= |s|
    ensures forall i :: 0 <= i < |s| ==> '0' <= s[i] <= '9'
    ensures (|s| == 1) == (n < 10)
    decreases n
  {
    if n < 10 then [Digit(n)] else NatToString(n / 10) + [Digit(n % 10)]
  }

  /** Distinct numbers have distinct renderings. */
  lemma {:induction false} NatToStringInjective(a: nat, b: nat)
    ensures NatToString(a) == NatToString(b) ==> a == b
    decreases a
  {
    var sa, sb := NatToString(a), NatToString(b);
    if sa == sb && a >= 10 {
      assert b >= 10;
      assert sa[..|sa| - 1] == NatToString(a / 10);
      assert sb[..|sb| - 1] == NatToString(b / 10);
      NatToStringInjective(a / 10, b / 10);
      assert sa[|sa| - 1] == Digit(a % 10);
      assert sb[|sb| - 1] == Digit(b % 10);
    }
  }

  /** The value of one character read as a decimal digit (0 for any other
      character). */
  function DigitValue(c: char): nat {
    if '0' <= c <= '9' then c as int - 48 else 0
  }

  /** The number a string of decimal digits denotes, as `Int32.Parse` reads
      it. */
  function DecimalValue(s: string): nat {
    if s == [] then 0 else DecimalValue(s[..|s| - 1]) * 10 + DigitValue(s[|s| - 1])
  }

  /** `NatToString` is read back by `DecimalValue`. */
  lemma {:induction false} NatToStringValue(n: nat)
    ensures DecimalValue(NatToString(n)) == n
    decreases n
  {
    if n >= 10 {
      var s := NatToString(n);
      assert s[..|s| - 1] == NatToString(n / 10);
      NatToStringValue(n / 10);
    }
  }

  /** `10` to the power `k`. */
  function Pow10(k: nat): (p: nat)
    ensures p >= 1
  {
    if k == 0 then 1 else 10 * Pow10(k - 1)
  }

  /** A number below `10^k` has at most `k` digits. */
  lemma {:induction false} NatToStringLength(n: nat, k: nat)
    requires 1 <= k && n < Pow10(k)
    ensures |NatToString(n)| <= k
    decreases n
  {
    if n >= 10 {
      NatToStringLength(n / 10, k - 1);
    }
  }

  /** Leading zeros do not change the value. */
  lemma {:induction false} LeadingZerosValue(zeros: nat, s: string)
    ensures DecimalValue(Repeat('0', zeros) + s) == DecimalValue(s)
    decreases |s|, zeros
  {
    var z := Repeat('0', zeros);
    if s == [] {
      assert z + s == z;
      if zeros > 0 {
        assert z[..|z| - 1] == Repeat('0', zeros - 1);
        LeadingZerosValue(zeros - 1, []);
        assert Repeat('0', zeros - 1) + [] == Repeat('0', zeros - 1);
      }
    } else {
      assert (z + s)[..|z + s| - 1] == z + s[..|s| - 1];
      LeadingZerosValue(zeros, s[..|s| - 1]);
    }
  }

  /** A zero-padded number below `10^width` takes exactly `width` characters
      and reads back as itself. */
  lemma ZeroPaddedValue(n: nat, width: nat)
    requires 1 <= width && n < Pow10(width)
    ensures |ZeroPadded(n, width)| == width
    ensures DecimalValue(ZeroPadded(n, width)) == n
  {
    NatToStringLength(n, width);
    var digits := NatToString(n);
    LeadingZerosValue(width - |digits|, digits);
    NatToStringValue(n);
  }

  /** `i.ToString()` for any integer: a leading '-' for negative values. */
  function IntToString(i: int): (s: string)
    ensures (|s| > 0 && s[0] == '-') <==> i < 0
    ensures forall k :: 0 <= k < |s| ==> s[k] == '-' || '0' <= s[k] <= '9'
  {
    if i < 0 then "-" + NatToString(-i) else NatToString(i)
  }

  /** Distinct integers have distinct renderings. */
  lemma IntToStringInjective(a: int, b: int)
    ensures IntToString(a) == IntToString(b) ==> a == b
  {
    if IntToString(a) == IntToString(b) {
      if a < 0 {
        assert b < 0;
        assert NatToString(-a) == IntToString(a)[1..];
        assert NatToString(-b) == IntToString(b)[1..];
        NatToStringInjective(-a, -b);
      } else {
        NatToStringInjective(a, b);
      }
    }
  }

  /** `count` copies of `c` (also `"".PadRight(count, c)`). */
  function Repeat(c: char, count: nat): (s: string)
    ensures |s| == count
    ensures forall i :: 0 <= i < |s| ==> s[i] == c
  {
    seq(count, _ => c)
  }

  /** `n.ToString("0...0")` with `width` zeros in the format: the decimal
      rendering, left-padded with '0' up to `width` characters. */
  function ZeroPadded(n: nat, width: nat): (s: string)
    ensures |s| == if |NatToString(n)| < width then width else |NatToString(n)|
    ensures forall i :: 0 <= i < |s| ==> '0' <= s[i] <= '9'
  {
    var digits := NatToString(n);
    Repeat('0', if |digits| < width then width - |digits| else 0) + digits
  }

  predicate StartsWith(s: string, prefix: string) {
    |prefix| <= |s| && s[..|prefix|] == prefix
  }

  predicate EndsWith(s: string, suffix: string) {
    |suffix| <= |s| && s[|s| - |suffix|..] == suffix
  }

  /** `pat` occurs in `s` at index `i`. */
  predicate OccursAt(s: string, pat: string, i: int) {
    0 <= i && i + |pat| <= |s| && s[i..i + |pat|] == pat
  }

  /** `pat` occurs somewhere in `s`. */
  predicate Contains(s: string, pat: string) {
    exists i | 0 <= i <= |s| :: OccursAt(s, pat, i)
  }

  /** `s.Replace(pat, "")`: ordinal, non-overlapping occurrences of `pat` are
      removed while scanning from left to right. */
  function RemoveAll(s: string, pat: string): (r: string)
    requires pat != []
    ensures |r| <= |s|
    decreases |s|
  {
    if |s| < |pat| then s
    else if s[..|pat|] == pat then RemoveAll(s[|pat|..], pat)
    else [s[0]] + RemoveAll(s[1..], pat)
  }

  /** A string without an occurrence of `pat` is left unchanged. */
  lemma {:induction false} RemoveAllWithoutMatch(s: string, pat: string)
    requires pat != []
    requires !Contains(s, pat)
    ensures RemoveAll(s, pat) == s
    decreases |s|
  {
    if |s| >= |pat| {
      assert s[0..0 + |pat|] == s[..|pat|];
      assert !OccursAt(s, pat, 0);
      if Contains(s[1..], pat) {
        var i :| 0 <= i <= |s[1..]| && OccursAt(s[1..], pat, i);
        assert s[i + 1..i + 1 + |pat|] == s[1..][i..i + |pat|];
        assert OccursAt(s, pat, i + 1);
        assert false;
      }
      RemoveAllWithoutMatch(s[1..], pat);
      assert [s[0]] + s[1..] == s;
    }
  }

  /** A leading occurrence is removed. */
  lemma RemoveAllLeading(pat: string, s: string)
    requires pat != []
    ensures RemoveAll(pat + s, pat) == RemoveAll(s, pat)
  {
    assert (pat + s)[..|pat|] == pat;
    assert (pat + s)[|pat|..] == s;
  }

  /** A character that occurs in neither left part marks the same split on
      both sides: the text before its first occurrence, and the rest. */
  lemma {:induction false} SplitAtFirst(a: string, m: char, b: string, c: string, d: string)
    requires m !in a && m !in c
    requires a + [m] + b == c + [m] + d
    ensures a == c && b == d
  {
    var t := a + [m] + b;
    assert t[|a|] == m && t[|c|] == m;
    assert forall k :: 0 <= k < |a| ==> t[k] == a[k];
    assert forall k :: 0 <= k < |c| ==> t[k] == c[k];
    assert |a| == |c|;
    assert a == t[..|a|] && c == t[..|c|];
    assert b == t[|a| + 1..] && d == t[|c| + 1..];
  }

  /** A character that occurs in neither right part marks the same split
      on both sides: the text after its last occurrence, and what precedes. */
  lemma {:induction false} SplitAtLast(a: string, m: char, b: string, c: string, d: string)
    requires m !in b && m !in d
    requires a + [m] + b == c + [m] + d
    ensures a == c && b == d
  {
    var t := a + [m] + b;
    assert t[|t| - |b| - 1] == m && t[|t| - |d| - 1] == m;
    assert forall k :: |t| - |b| <= k < |t| ==> t[k] == b[k - (|t| - |b|)];
    assert forall k :: |t| - |d| <= k < |t| ==> t[k] == d[k - (|t| - |d|)];
    assert |b| == |d|;
    assert a == t[..|a|] && c == t[..|c|];
    assert b == t[|a| + 1..] && d == t[|c| + 1..];
  }

  /** The pieces written one after the other. */
  function Concat(pieces: seq<string>): string {
    if pieces == [] then "" else pieces[0] + Concat(pieces[1..])
  }
}
