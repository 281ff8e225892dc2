/** The `Math` functions the screens apply to numbers, on exact reals. */
module JsMath {
  /** `Math.round`: the nearest integer, with halves rounded up. */
  function Round(x: real): (r: int)
    ensures r as real - 0.5 <= x < r as real + 0.5
  {
    (x + 0.5).Floor
  }

  /** Rounding never leaves an interval with integer ends. */
  lemma RoundWithin(x: real, lo: int, hi: int)
    requires lo as real <= x <= hi as real
    ensures lo <= Round(x) <= hi
  {
  }
}
