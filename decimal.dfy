/** Decimal text of integers, as Java's string concatenation and
    `Integer.toString` print them, and the inverse reading. */
module Decimal {
  import opened Wrappers

  predicate IsDigit(c: char) { '0' <= c <= '9' }

  function Digit(d: nat): (c: char)
    requires d < 10
    ensures IsDigit(c) && c as int - '0' as int == d
  {
    (d + '0' as int) as char
  }

  /** The digits of `n`, most significant first, without leading zeros. */
  function NatText(n: nat): (r: string)
    ensures |r| > 0 && forall i :: 0 <= i < |r| ==> IsDigit(r[i])
    ensures n > 0 ==> r[0] != '0'
    ensures n < 10 ==> |r| == 1
    decreases n
  {
    if n < 10 then [Digit(n)] else NatText(n / 10) + [Digit(n % 10)]
  }

  /** A leading '-' for negative values. */
  function IntText(v: int): (r: string)
    ensures |r| > 0 && (r[0] == '-' <==> v < 0)
  {
    if v < 0 then "-" + NatText(-v) else NatText(v)
  }

  /** Only digits, after an optional leading '-'. */
  lemma IntTextChars(v: int)
    ensures forall i :: 0 <= i < |IntText(v)| ==> IsDigit(IntText(v)[i]) || (i == 0 && IntText(v)[i] == '-')
  {
  }

  /** The value of a string of digits. */
  function ParseNat(s: string): (r: int)
    requires forall i :: 0 <= i < |s| ==> IsDigit(s[i])
    ensures r >= 0
  {
    if s == [] then 0
    else
      assert IsDigit(s[|s| - 1]);
      ParseNat(s[..|s| - 1]) * 10 + (s[|s| - 1] as int - '0' as int)
  }

  predicate AllDigits(s: string) {
    |s| > 0 && forall i :: 0 <= i < |s| ==> IsDigit(s[i])
  }

  /** Reading an optional '-' and at least one digit. */
  function ParseInt(s: string): Option<int> {
    if |s| > 0 && s[0] == '-' then
      if AllDigits(s[1..]) then Some(-ParseNat(s[1..])) else None
    else if AllDigits(s) then Some(ParseNat(s))
    else None
  }

  lemma {:induction false} ParseNatText(n: nat)
    ensures ParseNat(NatText(n)) == n
    decreases n
  {
    if n >= 10 {
      var s := NatText(n);
      assert s[..|s| - 1] == NatText(n / 10);
      ParseNatText(n / 10);
    }
  }

  /** Reading the text of a value gives the value back. */
  lemma IntTextRoundTrip(v: int)
    ensures ParseInt(IntText(v)) == Some(v)
  {
    var s := IntText(v);
    if v < 0 {
      var t := NatText(-v);
      assert s == "-" + t && s[1..] == t && AllDigits(t);
      ParseNatText(-v);
    } else {
      assert s == NatText(v) && AllDigits(s) && s[0] != '-';
      ParseNatText(v);
    }
  }

  /** So two different values never print the same. */
  lemma IntTextInjective(a: int, b: int)
    requires IntText(a) == IntText(b)
    ensures a == b
  {
    IntTextRoundTrip(a);
    IntTextRoundTrip(b);
  }
}
