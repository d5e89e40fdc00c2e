/**
 * Character and string helpers used throughout the model: decimal digits,
 * the number-to-string conversion of template literals, ASCII case folding,
 * regular-expression line terminators, and global replacement of a literal
 * token (what `String.prototype.replace` with a `g` regex of plain
 * characters does, with the replacement inserted verbatim).
 */
module Text {

  predicate IsDigit(c: char) {
    '0' <= c <= '9'
  }

  predicate AllDigits(s: string) {
    forall i :: 0 <= i < |s| ==> IsDigit(s[i])
  }

  function DigitChar(d: nat): (c: char)
    requires d < 10
    ensures IsDigit(c)
  {
    (('0' as int) + d) as char
  }

  function DigitValue(c: char): (d: nat)
    requires IsDigit(c)
    ensures d < 10
  {
    (c as int) - ('0' as int)
  }

  /** The number a string of decimal digits denotes (most significant first). */
  function DigitsValue(s: string): nat
    requires AllDigits(s)
  {
    if |s| == 0 then 0 else DigitsValue(s[..|s| - 1]) * 10 + DigitValue(s[|s| - 1])
  }

  /** Decimal rendering of a natural number, without leading zeros. */
  function NatToString(n: nat): (r: string)
    ensures |r| > 0 && AllDigits(r)
    ensures DigitsValue(r) == n
    ensures |r| == 1 <==> n < 10
    ensures |r| > 1 ==> r[0] != '0'
  {
    if n < 10 then [DigitChar(n)]
    else
      var r := NatToString(n / 10) + [DigitChar(n % 10)];
      assert r[..|r| - 1] == NatToString(n / 10);
      r
  }

  /** Decimal rendering of an integer, as JavaScript's `String(n)` for integers of moderate size. */
  function IntToString(n: int): (r: string)
    ensures |r| > 0
    ensures n >= 0 ==> AllDigits(r) && DigitsValue(r) == n
    ensures n < 0 ==> r[0] == '-' && AllDigits(r[1..]) && DigitsValue(r[1..]) == -n
  {
    if n < 0 then "-" + NatToString(-n) else NatToString(n)
  }

  /** A number with exactly `k` decimal digits renders as exactly `k` characters. */
  lemma {:induction false} NatToStringLength(n: nat, k: nat)
    requires k >= 1 && Pow10(k - 1) <= n < Pow10(k)
    ensures |NatToString(n)| == k
  {
    if n >= 10 {
      assert Pow10(k - 1) == 10 * Pow10(k - 2);
      assert Pow10(k) == 10 * Pow10(k - 1);
      NatToStringLength(n / 10, k - 1);
    }
  }

  /** A four-digit year renders as four characters. */
  lemma FourDigitYear(y: int)
    requires 1000 <= y <= 9999
    ensures |IntToString(y)| == 4
  {
    assert Pow10(3) == 1000 && Pow10(4) == 10000;
    NatToStringLength(y, 4);
  }

  function Pow10(n: nat): (r: nat)
    ensures r >= 1
  {
    if n == 0 then 1 else 10 * Pow10(n - 1)
  }

  /** ASCII lower-casing; every other character is left as it is. */
  function Lower(c: char): char {
    if 'A' <= c <= 'Z' then ((c as int) + 32) as char else c
  }

  /** Equality up to ASCII case. */
  predicate FoldEq(a: char, b: char) {
    Lower(a) == Lower(b)
  }

  /** The characters a regular-expression `.` refuses to match without the `s` flag. */
  predicate IsLineTerminator(c: char) {
    c == '\n' || c == '\r' || c == ' ' || c == ' '
  }

  /**
   * Replaces every occurrence of `tok` in `s`, scanning left to right and
   * resuming after each replaced occurrence, so occurrences never overlap.
   */
  function ReplaceAll(s: string, tok: string, r: string): string
    requires |tok| > 0
    decreases |s|
  {
    if |s| == 0 then []
    else if |tok| <= |s| && s[..|tok|] == tok then r + ReplaceAll(s[|tok|..], tok, r)
    else [s[0]] + ReplaceAll(s[1..], tok, r)
  }

  /** A string in which the token's first character never appears is left unchanged. */
  lemma {:induction false} ReplaceAllAbsent(s: string, tok: string, r: string)
    requires |tok| > 0 && tok[0] !in s
    ensures ReplaceAll(s, tok, r) == s
  {
    if |s| > 0 {
      assert s[0] != tok[0];
      ReplaceAllAbsent(s[1..], tok, r);
    }
  }

  /**
   * Replacement distributes over concatenation when no occurrence of the
   * token can straddle the seam: always for a one-character token, and for a
   * two-character token when the seam does not spell it.
   */
  lemma {:induction false} ReplaceAllConcat(a: string, b: string, tok: string, r: string)
    requires |tok| == 1 || (|tok| == 2 && (|a| == 0 || |b| == 0 || a[|a| - 1] != tok[0] || b[0] != tok[1]))
    ensures ReplaceAll(a + b, tok, r) == ReplaceAll(a, tok, r) + ReplaceAll(b, tok, r)
    decreases |a|
  {
    if |a| == 0 {
      assert a + b == b;
    } else if |tok| <= |a| && a[..|tok|] == tok {
      ReplaceAllConcat(a[|tok|..], b, tok, r);
      ConcatMatchStep(a, b, tok, r);
    } else {
      ReplaceAllConcat(a[1..], b, tok, r);
      ConcatSkipStep(a, b, tok, r);
    }
  }

  /** The step of `ReplaceAllConcat` where `a` starts with the token. */
  lemma ConcatMatchStep(a: string, b: string, tok: string, r: string)
    requires 0 < |tok| <= |a| && a[..|tok|] == tok
    requires ReplaceAll(a[|tok|..] + b, tok, r) == ReplaceAll(a[|tok|..], tok, r) + ReplaceAll(b, tok, r)
    ensures ReplaceAll(a + b, tok, r) == ReplaceAll(a, tok, r) + ReplaceAll(b, tok, r)
  {
    var ab := a + b;
    SlicesOfConcat(a, b, |tok|);
    UnfoldMatch(ab, tok, r);
    UnfoldMatch(a, tok, r);
    Regroup(r, ReplaceAll(a[|tok|..], tok, r), ReplaceAll(b, tok, r));
  }

  /** The step of `ReplaceAllConcat` where `a` does not start with the token and the seam does not spell it. */
  lemma ConcatSkipStep(a: string, b: string, tok: string, r: string)
    requires |a| > 0 && (|tok| == 1 || (|tok| == 2 && (|b| == 0 || a[|a| - 1] != tok[0] || b[0] != tok[1])))
    requires !(|tok| <= |a| && a[..|tok|] == tok)
    requires ReplaceAll(a[1..] + b, tok, r) == ReplaceAll(a[1..], tok, r) + ReplaceAll(b, tok, r)
    ensures ReplaceAll(a + b, tok, r) == ReplaceAll(a, tok, r) + ReplaceAll(b, tok, r)
  {
    var ab := a + b;
    assert !(|tok| <= |ab| && ab[..|tok|] == tok) by {
      if |tok| <= |a| {
        assert a[..|tok|] == ab[..|tok|];
      } else if |tok| <= |ab| {
        assert ab[..|tok|] == [a[|a| - 1], b[0]];
      }
    }
    SlicesOfConcat(a, b, 1);
    UnfoldSkip(ab, tok, r);
    UnfoldSkip(a, tok, r);
    Regroup([a[0]], ReplaceAll(a[1..], tok, r), ReplaceAll(b, tok, r));
  }

  lemma SlicesOfConcat(a: string, b: string, n: nat)
    requires n <= |a|
    ensures (a + b)[..n] == a[..n] && (a + b)[n..] == a[n..] + b
  {
  }

  lemma Regroup(p: string, x: string, y: string)
    ensures p + (x + y) == (p + x) + y
  {
  }

  lemma UnfoldMatch(s: string, tok: string, r: string)
    requires 0 < |tok| <= |s| && s[..|tok|] == tok
    ensures ReplaceAll(s, tok, r) == r + ReplaceAll(s[|tok|..], tok, r)
  {
  }

  lemma UnfoldSkip(s: string, tok: string, r: string)
    requires 0 < |tok| && |s| > 0 && !(|tok| <= |s| && s[..|tok|] == tok)
    ensures ReplaceAll(s, tok, r) == [s[0]] + ReplaceAll(s[1..], tok, r)
  {
  }
}
