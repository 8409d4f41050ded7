/**
  The rating change after a finished game,
  `KFactorRatingAlgorithm.calculateDelta` in
  `src/main/java/com/coderacer/algo/KFactorRatingAlgorithm.java`.

  The source computes `Math.round(perfScore / 500.0 * k)` on doubles.
  Here the quotient is the exact rational `perfScore * k / 500`, and
  `Numeric.RoundDiv` rounds it as `Math.round` does, halves going up.
*/
module Rating {
  import opened Numeric

  const KLow: int := 20
  const KMedium: int := 10
  const KHigh: int := 5

  /** The K factor: 20 below a rating of 200, 10 below 400, else 5. */
  function KFactor(currentRating: int): (k: int)
    ensures k == KLow || k == KMedium || k == KHigh
  {
    if currentRating < 200 then KLow
    else if currentRating < 400 then KMedium
    else KHigh
  }

  /** `calculateDelta(currentRating, perfScore)`: the rounded share of K
      that the performance earns, capped at K. The result is small enough
      for the cast to `int` to be exact. */
  function CalculateDelta(currentRating: int, perfScore: int): (delta: int)
    ensures delta <= KFactor(currentRating)
    ensures delta < KFactor(currentRating) ==> IsRounded(delta, perfScore * KFactor(currentRating), 500)
    ensures delta == KFactor(currentRating)
        <==> RoundDiv(perfScore * KFactor(currentRating), 500) >= KFactor(currentRating)
  {
    var k := KFactor(currentRating);
    var rawDelta := RoundDiv(perfScore * k, 500);
    if rawDelta < k then rawDelta else k
  }

  /** Higher ratings never get a larger K. */
  lemma KFactorNonIncreasing(r1: int, r2: int)
    requires r1 <= r2
    ensures KFactor(r2) <= KFactor(r1)
  {
  }

  /** For a fixed rating, a better performance never earns a smaller delta. */
  lemma DeltaMonotone(currentRating: int, p1: int, p2: int)
    requires p1 <= p2
    ensures CalculateDelta(currentRating, p1) <= CalculateDelta(currentRating, p2)
  {
    var k := KFactor(currentRating);
    assert p1 * k <= p2 * k by {
      MulNonNegative(p2 - p1, k);
      assert p2 * k - p1 * k == (p2 - p1) * k;
    }
    RoundDivMonotone(p1 * k, p2 * k, 500);
  }

  /** A performance score of 0 changes nothing. */
  lemma DeltaOfZero(currentRating: int)
    ensures CalculateDelta(currentRating, 0) == 0
  {
    RoundDivUnique(0, 500, 0);
  }

  /** The full K is earned exactly from `perfScore * k / 500 >= k - 1/2` on,
      that is, when `2 * perfScore * k + 500 >= 1000 * k`. */
  lemma DeltaFullIff(currentRating: int, perfScore: int)
    ensures var k := KFactor(currentRating);
      CalculateDelta(currentRating, perfScore) == k <==> 2 * perfScore * k + 500 >= 1000 * k
  {
    var k := KFactor(currentRating);
    var p := perfScore * k;
    var r := RoundDiv(p, 500);
    assert 2 * perfScore * k == 2 * p;
  }

  /** Every score of 500 or more, 1000 among them, earns exactly K. */
  lemma DeltaSaturates(currentRating: int, perfScore: int)
    requires perfScore >= 500
    ensures CalculateDelta(currentRating, perfScore) == KFactor(currentRating)
  {
    var k := KFactor(currentRating);
    assert 2 * perfScore * k >= 1000 * k by {
      MulNonNegative(perfScore - 500, k);
      assert 2 * perfScore * k - 1000 * k == 2 * ((perfScore - 500) * k);
    }
    DeltaFullIff(currentRating, perfScore);
  }

  /** A non-negative score never lowers the rating, and a negative one never raises it. */
  lemma DeltaSign(currentRating: int, perfScore: int)
    ensures perfScore >= 0 ==> CalculateDelta(currentRating, perfScore) >= 0
    ensures perfScore <= 0 ==> CalculateDelta(currentRating, perfScore) <= 0
  {
    DeltaOfZero(currentRating);
    if perfScore >= 0 {
      DeltaMonotone(currentRating, 0, perfScore);
    } else {
      DeltaMonotone(currentRating, perfScore, 0);
    }
  }

  /** At ratings below 200, a score of 488 already earns the full 20 points and 487 earns 19. */
  lemma LowRatingThreshold()
    ensures CalculateDelta(0, 488) == 20 && CalculateDelta(0, 487) == 19
  {
    DeltaFullIff(0, 488);
    DeltaFullIff(0, 487);
    RoundDivUnique(487 * 20, 500, 19);
  }
}
