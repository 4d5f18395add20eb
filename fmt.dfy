/**
 * Decimal formatting of integers, as Rust's `Display` for `i32` writes
 * them ("-12", "0", "345"), with a reader for the digits it produces so
 * that the formatting can be shown to lose no information.
 */
module Fmt {

  predicate IsDigit(c: char) {
    '0' <= c <= '9'
  }

  function DigitChar(d: nat): (c: char)
    requires d < 10
    ensures IsDigit(c)
  {
    "0123456789"[d]
  }

  function DigitValue(c: char): (d: nat)
    requires IsDigit(c)
    ensures d < 10
  {
    (c as int - '0' as int) as nat
  }

  /** The decimal digits of `n`, most significant first, without leading zeros. */
  function NatToString(n: nat): (s: string)
    ensures |s| >= 1
    ensures forall i :: 0 <= i < |s| ==> IsDigit(s[i])
    ensures |s| > 1 ==> s[0] != '0'
  {
    if n < 10 then [DigitChar(n)] else NatToString(n / 10) + [DigitChar(n % 10)]
  }

  /** The decimal rendering of a signed integer: a '-' before the digits of a negative value. */
  function IntToString(i: int): (s: string)
    ensures |s| >= 1
    ensures s[0] == '-' <==> i < 0
    ensures forall k :: 0 <= k < |s| ==> IsDigit(s[k]) || s[k] == '-'
  {
    if i < 0 then "-" + NatToString(-i) else NatToString(i)
  }

  /** The value of a string of decimal digits, most significant first. */
  function ParseDigits(s: string): nat
    requires forall i :: 0 <= i < |s| ==> IsDigit(s[i])
  {
    if s == [] then 0 else 10 * ParseDigits(s[..|s| - 1]) + DigitValue(s[|s| - 1])
  }

  /** The value of a string produced by IntToString. */
  function ParseInt(s: string): int
    requires |s| >= 1
    requires forall k :: 0 <= k < |s| ==> IsDigit(s[k]) || s[k] == '-'
    requires forall k :: 1 <= k < |s| ==> s[k] != '-'
  {
    if s[0] == '-' then -(ParseDigits(s[1..]) as int) else ParseDigits(s)
  }

  lemma {:induction false} ParseNatToString(n: nat)
    ensures ParseDigits(NatToString(n)) == n
  {
    if n >= 10 {
      var s := NatToString(n);
      assert s[..|s| - 1] == NatToString(n / 10);
      ParseNatToString(n / 10);
    }
  }

  /** Reading back what IntToString wrote gives the integer again. */
  lemma ParseIntToString(i: int)
    ensures forall k :: 1 <= k < |IntToString(i)| ==> IntToString(i)[k] != '-'
    ensures ParseInt(IntToString(i)) == i
  {
    var s := IntToString(i);
    if i < 0 {
      var t := NatToString(-i);
      assert s[1..] == t;
      forall k | 1 <= k < |s|
        ensures s[k] != '-'
      {
        assert s[k] == t[k - 1];
      }
      ParseNatToString(-i);
    } else {
      ParseNatToString(i);
    }
  }

  /** Distinct integers are written differently. */
  lemma IntToStringInjective(i: int, j: int)
    ensures IntToString(i) == IntToString(j) ==> i == j
  {
    ParseIntToString(i);
    ParseIntToString(j);
  }

  /** The index of the first occurrence of `d` in `s`. */
  function FirstIndex(s: string, d: char): (k: nat)
    requires d in s
    ensures k < |s| && s[k] == d
  {
    if s[0] == d then 0 else 1 + FirstIndex(s[1..], d)
  }

  /** When `x` holds `d` only at its end, the first `d` of `x + y` is that one. */
  lemma {:induction false} FirstDelimiter(x: string, y: string, d: char)
    requires |x| >= 1 && x[|x| - 1] == d && forall k :: 0 <= k < |x| - 1 ==> x[k] != d
    ensures d in x + y && FirstIndex(x + y, d) == |x| - 1
  {
    assert (x + y)[|x| - 1] == d;
    if |x| > 1 {
      assert (x + y)[1..] == x[1..] + y;
      FirstDelimiter(x[1..], y, d);
    }
  }

  /**
   * When `x` and `x'` each hold the delimiter `d` exactly once, at their
   * end, a concatenation `x + y == x' + y'` splits only one way.
   */
  lemma SplitAtDelimiter(x: string, y: string, x': string, y': string, d: char)
    requires |x| >= 1 && x[|x| - 1] == d && forall k :: 0 <= k < |x| - 1 ==> x[k] != d
    requires |x'| >= 1 && x'[|x'| - 1] == d && forall k :: 0 <= k < |x'| - 1 ==> x'[k] != d
    requires x + y == x' + y'
    ensures x == x' && y == y'
  {
    FirstDelimiter(x, y, d);
    FirstDelimiter(x', y', d);
    assert x == (x + y)[..|x|] == (x' + y')[..|x'|] == x';
    assert y == (x + y)[|x|..] == (x' + y')[|x'|..] == y';
  }

  /** An integer's rendering followed by a delimiter that is neither a digit nor '-' holds that delimiter only at its end. */
  lemma DelimitedInt(i: int, d: char)
    requires !IsDigit(d) && d != '-'
    ensures var x := IntToString(i) + [d];
      |x| >= 1 && x[|x| - 1] == d && forall k :: 0 <= k < |x| - 1 ==> x[k] != d
  {
  }
}
