/** Decimal text of integers: Python's `str(n)` for the baud rate and the
    flash size put on the command line, and `int(digits)` for the
    percentage captured from tool output. */
module Decimal {
  import opened Wrappers
  import opened Text

  function DigitChar(d: nat): (c: char)
    requires d < 10
    ensures IsDigit(c)
  {
    ('0' as int + d) as char
  }

  function DigitValue(c: char): (d: nat)
    requires IsDigit(c)
    ensures d < 10
  {
    c as int - '0' as int
  }

  predicate AllDigits(s: string) {
    forall k :: 0 <= k < |s| ==> IsDigit(s[k])
  }

  /** `int(s)` for a run of ASCII digits (leading zeros allowed). */
  function ParseDigits(s: string): nat
    requires AllDigits(s)
  {
    if s == [] then 0
    else ParseDigits(s[..|s| - 1]) * 10 + DigitValue(s[|s| - 1])
  }

  /** `str(n)` for a natural number: digits, most significant first. */
  function NatToDec(n: nat): (r: string)
    ensures |r| > 0 && AllDigits(r)
    ensures |r| > 1 ==> r[0] != '0'
  {
    if n < 10 then [DigitChar(n)]
    else NatToDec(n / 10) + [DigitChar(n % 10)]
  }

  /** `str(n)` for any integer: a minus sign before the magnitude. */
  function IntToDec(n: int): (r: string)
    ensures |r| > 0
    ensures n >= 0 <==> IsDigit(r[0])
    ensures n < 0 <==> r[0] == '-'
  {
    if n < 0 then "-" + NatToDec(-n) else NatToDec(n)
  }

  /** Reading the digits back gives the number: the decimal text of a baud
      rate or a size names exactly that value. */
  lemma {:induction false} ParseNatToDec(n: nat)
    ensures ParseDigits(NatToDec(n)) == n
  {
    if n >= 10 {
      var s := NatToDec(n);
      assert s[..|s| - 1] == NatToDec(n / 10);
      ParseNatToDec(n / 10);
    }
  }

  /** Different numbers have different decimal texts. */
  lemma IntToDecInjective(a: int, b: int)
    requires IntToDec(a) == IntToDec(b)
    ensures a == b
  {
    if a < 0 {
      assert IntToDec(a)[1..] == NatToDec(-a);
      assert IntToDec(b)[1..] == NatToDec(-b);
      ParseNatToDec(-a);
      ParseNatToDec(-b);
    } else {
      ParseNatToDec(a);
      ParseNatToDec(b);
    }
  }

  /** `int(s)` for an optional minus sign followed by ASCII digits; None for
      anything else. */
  function ParseInt(s: string): (r: Option<int>)
    ensures r.Some? ==> |s| > 0
  {
    if |s| > 1 && s[0] == '-' && AllDigits(s[1..]) then Some(-(ParseDigits(s[1..]) as int))
    else if |s| > 0 && AllDigits(s) then Some(ParseDigits(s))
    else None
  }

  /** `int(str(n)) == n`. */
  lemma ParseIntToDec(n: int)
    ensures ParseInt(IntToDec(n)) == Some(n)
  {
    if n < 0 {
      var s := IntToDec(n);
      assert s[1..] == NatToDec(-n);
      ParseNatToDec(-n);
    } else {
      ParseNatToDec(n);
    }
  }
}
