/**
 * Decimal rendering of integers: int.ToString(), the "D2" format used for
 * month labels, and the reading back of a digit string.
 */
module Text {

  predicate IsDigit(c: char) {
    '0' <= c <= '9'
  }

  predicate AllDigits(s: string) {
    forall i :: 0 <= i < |s| ==> IsDigit(s[i])
  }

  function DigitChar(d: int): (c: char)
    requires 0 <= d < 10
    ensures IsDigit(c) && c as int - '0' as int == d
  {
    (('0' as int) + d) as char
  }

  /** Decimal digits of n, most significant first, no leading zeros. */
  function NatToString(n: nat): (s: string)
    ensures 1 <= |s|
    ensures AllDigits(s)
    ensures n < 10 <==> |s| == 1
  {
    if n < 10 then [DigitChar(n)] else NatToString(n / 10) + [DigitChar(n % 10)]
  }

  /** int.ToString() / Number.prototype.toString() on an integer. */
  function IntToString(n: int): string {
    if n < 0 then "-" + NatToString(-n) else NatToString(n)
  }

  /** The value of a digit string. */
  function ParseNat(s: string): nat
    requires AllDigits(s)
  {
    if s == [] then 0
    else ParseNat(s[..|s| - 1]) * 10 + (s[|s| - 1] as int - '0' as int)
  }

  lemma {:induction false} ParseNatToString(n: nat)
    ensures ParseNat(NatToString(n)) == n
  {
    if n >= 10 {
      var s := NatToString(n);
      assert s[..|s| - 1] == NatToString(n / 10);
      ParseNatToString(n / 10);
    }
  }

  /** int.ToString("D2"): at least two digits, zero-padded, sign in front. */
  function FormatD2(n: int): string {
    var digits := NatToString(if n < 0 then -n else n);
    var padded := if |digits| < 2 then "0" + digits else digits;
    if n < 0 then "-" + padded else padded
  }

  /** A month number becomes exactly two digits that read back as the month. */
  lemma FormatD2OfMonth(m: int)
    requires 1 <= m <= 12
    ensures |FormatD2(m)| == 2 && AllDigits(FormatD2(m))
    ensures ParseNat(FormatD2(m)) == m
  {
    ParseNatToString(m);
    var digits := NatToString(m);
    if m < 10 {
      assert FormatD2(m) == ['0'] + digits;
      assert FormatD2(m)[..1] == "0";
    } else {
      assert NatToString(m / 10) == [DigitChar(1)];
    }
  }

  lemma FormatD2Examples()
    ensures FormatD2(3) == "03"
    ensures FormatD2(12) == "12"
  {
  }
}
