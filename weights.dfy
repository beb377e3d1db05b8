/**
 * The score fusion of `hybrid_rerank` (scripts/ask_api.py, line 121): a weighted
 * sum of a candidate's normalised vector and keyword scores.
 */
module Weights {
  /** Line 121: `alpha * v + (1 - alpha) * k`. */
  function FusedScore(alpha: real, v: real, k: real): real {
    alpha * v + (1.0 - alpha) * k
  }

  /**
   * With `alpha` in [0, 1] the fused score is a convex combination: it lies
   * between the two scores it mixes, whichever of them is the larger.
   */
  lemma Between(alpha: real, v: real, k: real)
    requires 0.0 <= alpha <= 1.0
    ensures v >= k ==> k <= FusedScore(alpha, v, k) <= v
    ensures v < k ==> v <= FusedScore(alpha, v, k) <= k
  {
    var d := v - k;
    assert d - alpha * d == (1.0 - alpha) * d;
    assert FusedScore(alpha, v, k) == k + alpha * d;
  }

  /** A fused score of two scores in [0, 1) with `alpha` in [0, 1] lies in [0, 1). */
  lemma FusedScoreInUnit(alpha: real, v: real, k: real)
    requires 0.0 <= alpha <= 1.0 && 0.0 <= v < 1.0 && 0.0 <= k < 1.0
    ensures 0.0 <= FusedScore(alpha, v, k) < 1.0
  {
    Between(alpha, v, k);
  }
}
