/**
 * The JavaScript library behaviour the chart components rely on:
 * Array.prototype.slice with its index clamping, and Math.round of an amount.
 */
module JsArrays {
  import opened Numbers

  /** A slice bound as Array.prototype.slice normalises it: negative counts from the end, then clamped. */
  function SliceBound(len: nat, k: int): (b: nat)
    ensures b <= len
  {
    if k < 0 then Max(len + k, 0) else Min(k, len)
  }

  /** xs.slice(start, end); for bounds already inside the array, the subsequence [start, end). */
  function JsSlice<T>(xs: seq<T>, start: int, end: int): (r: seq<T>)
    ensures |r| <= |xs|
    ensures 0 <= start <= end <= |xs| ==> r == xs[start..end]
  {
    var s, e := SliceBound(|xs|, start), SliceBound(|xs|, end);
    if s < e then xs[s..e] else []
  }

  /** A bound past the end is clamped to the length. */
  lemma JsSliceFrom<T>(xs: seq<T>, start: int)
    requires 0 <= start
    ensures JsSlice(xs, start, |xs|) == xs[Min(start, |xs|)..]
  {
  }

  /** Math.round(amount) for an amount held in cents: whole units, halves up. */
  function RoundAmount(c: Cents): int {
    JsRound(c as real / 100.0)
  }

  lemma RoundAmountOfCents(c: Cents)
    ensures RoundAmount(c) == (c + 50) / 100
    ensures 100 * RoundAmount(c) - 50 <= c < 100 * RoundAmount(c) + 50
  {
    JsRoundOfCents(c);
  }
}
