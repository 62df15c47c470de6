/**
 * The value type produced by every adjustment source (promotions and tax rates),
 * and the rounding both of them apply to money amounts.
 */
module Adjustments {

  /** Discriminator of the origin of an adjustment. */
  datatype AdjustmentType = Promotion | Tax

  /**
   * An immutable adjustment: a signed amount in minor currency units, its kind,
   * a human-readable description and a reference back to the source that made it.
   */
  datatype Adjustment = Adjustment(
    amount: int,
    kind: AdjustmentType,
    description: string,
    adjustmentSource: string)

  /**
   * JavaScript's `Math.round` on exact reals: the nearest integer, with halves
   * rounded towards positive infinity (so -2.5 rounds to -2). The interval in
   * the postcondition has length one, so it determines the result uniquely.
   */
  function Round(x: real): (r: int)
    ensures x - 0.5 < r as real <= x + 0.5
  {
    (x + 0.5).Floor
  }

  /** Two amounts at most half a unit apart round to integers at most one unit apart. */
  lemma RoundClose(x: real, y: real)
    requires -0.5 <= x - y <= 0.5
    ensures -1 <= Round(x) - Round(y) <= 1
  {
  }

  /** Halves go up, also for negative amounts: `Math.round(-2.5) == -2`, `Math.round(2.5) == 3`. */
  lemma RoundHalvesUp()
    ensures Round(-2.5) == -2 && Round(2.5) == 3 && Round(199.8) == 200 && Round(-0.5) == 0
  {
  }
}
