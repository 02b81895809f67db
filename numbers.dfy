/**
 * Exact decimal arithmetic. Amounts are decimal(10,2) columns, so the model
 * keeps them as whole cents; an average is kept as the exact quotient
 * (`Ratio`) of two integers, a quotient that is rounded is a `real`, and a
 * value rounded to two decimals is an integer number of hundredths.
 */
module Numbers {

  /** A decimal(10,2) amount, in hundredths. */
  type Cents = int

  /**
   * The exact value of a decimal division num / den before any rounding,
   * kept as the pair of operands.
   */
  datatype Ratio = Ratio(num: int, den: int) {
    function Value(): real
      requires den != 0
    {
      num as real / den as real
    }
  }

  /** Math.Round(x) with .NET's default MidpointRounding.ToEven. */
  function RoundHalfEven(x: real): (r: int)
    ensures x - 0.5 <= r as real <= x + 0.5
    ensures (r as real == x - 0.5 || r as real == x + 0.5) ==> r % 2 == 0
  {
    var f := x.Floor;
    var frac := x - f as real;
    if frac < 0.5 then f
    else if frac > 0.5 then f + 1
    else if f % 2 == 0 then f
    else f + 1
  }

  /** The two properties of RoundHalfEven's contract single out one integer. */
  lemma RoundHalfEvenUnique(x: real, n: int)
    requires x - 0.5 <= n as real <= x + 0.5
    requires (n as real == x - 0.5 || n as real == x + 0.5) ==> n % 2 == 0
    ensures RoundHalfEven(x) == n
  {
  }

  lemma RoundHalfEvenOfInteger(n: int)
    ensures RoundHalfEven(n as real) == n
  {
    RoundHalfEvenUnique(n as real, n);
  }

  lemma RoundHalfEvenMonotone(x: real, y: real)
    requires x <= y
    ensures RoundHalfEven(x) <= RoundHalfEven(y)
  {
  }

  /** Math.Round(x, 2): the result is in hundredths. */
  function Round2(x: real): int {
    RoundHalfEven(x * 100.0)
  }

  /** JavaScript Math.round: the nearest integer, halves rounded up. */
  function JsRound(x: real): (r: int)
    ensures x - 0.5 < r as real <= x + 0.5
  {
    (x + 0.5).Floor
  }

  /** Math.round of an amount given in cents, as whole currency units. */
  lemma JsRoundOfCents(c: Cents)
    ensures JsRound(c as real / 100.0) == (c + 50) / 100
  {
    var q := (c + 50) / 100;
    assert 100 * q <= c + 50 < 100 * q + 100;
    assert q as real <= c as real / 100.0 + 0.5 < q as real + 1.0;
  }

  function Max(a: int, b: int): int { if a >= b then a else b }

  function Min(a: int, b: int): int { if a <= b then a else b }
}
