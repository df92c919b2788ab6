/** Conversion of an order subtotal into earned points. */
module PointsCalculator {
  import opened LoyaltyTypes

  /** JavaScript's `Math.round`: the nearest integer, halves rounded up
      (towards positive infinity). The result is the unique integer within
      one half of `x`, the lower half-point included. */
  function RoundHalfUp(x: real): (n: int)
    ensures n as real - 0.5 <= x < n as real + 0.5
  {
    (x + 0.5).Floor
  }

  /** Points earned on `orderSubtotal` at `brand` by a member of
      `currentTier`: the subtotal times the brand rate times the tier
      multiplier, rounded; a negative subtotal earns nothing. */
  function CalculatePoints(orderSubtotal: real, brand: Brand, currentTier: Tier): (points: int)
    ensures orderSubtotal < 0.0 ==> points == 0
    ensures orderSubtotal >= 0.0 ==>
      var exact := orderSubtotal * brand.earningRateOverride * currentTier.multiplier;
      points as real - 0.5 <= exact < points as real + 0.5
  {
    if orderSubtotal < 0.0 then 0
    else
      var basePoints := orderSubtotal * brand.earningRateOverride;
      var finalPoints := basePoints * currentTier.multiplier;
      RoundHalfUp(finalPoints)
  }

  /** Rounding preserves order. */
  lemma RoundHalfUpMonotone(x: real, y: real)
    requires x <= y
    ensures RoundHalfUp(x) <= RoundHalfUp(y)
  {
  }

  /** With a non-negative rate and multiplier no order earns negative points. */
  lemma CalculatePointsNonNegative(orderSubtotal: real, brand: Brand, currentTier: Tier)
    requires brand.earningRateOverride >= 0.0 && currentTier.multiplier >= 0.0
    ensures CalculatePoints(orderSubtotal, brand, currentTier) >= 0
  {
  }

  /** With a non-negative rate and multiplier a larger subtotal never earns
      fewer points. */
  lemma CalculatePointsMonotone(s1: real, s2: real, brand: Brand, currentTier: Tier)
    requires s1 <= s2
    requires brand.earningRateOverride >= 0.0 && currentTier.multiplier >= 0.0
    ensures CalculatePoints(s1, brand, currentTier) <= CalculatePoints(s2, brand, currentTier)
  {
    if s1 >= 0.0 {
      RoundHalfUpMonotone(s1 * brand.earningRateOverride * currentTier.multiplier,
                          s2 * brand.earningRateOverride * currentTier.multiplier);
    }
  }
}
