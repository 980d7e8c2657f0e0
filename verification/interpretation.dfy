/**
 * The automatic conclusion both scripts report from the p-value of the
 * log-budget coefficient: the null hypothesis (budget has no effect on
 * IGC) is rejected exactly when the p-value is below 5%. The regression
 * that produces the p-value is not part of this model; it is an input.
 */
module Interpretation {
  import opened Wrappers

  datatype Conclusion = RejectNull | KeepNull

  const Significance: real := 0.05

  /**
   * `p_val < 0.05`. A p-value that is not a number (`None`) compares false,
   * so it keeps the null hypothesis.
   */
  function Verdict(p: Option<real>): (c: Conclusion)
    ensures c == RejectNull <==> p.Some? && p.value < Significance
    ensures c == KeepNull <==> p.None? || p.value >= Significance
  {
    if p.Some? && p.value < Significance then RejectNull else KeepNull
  }

  /** A smaller p-value never weakens the conclusion. */
  lemma VerdictMonotone(p: real, q: real)
    requires p <= q && Verdict(Some(q)) == RejectNull
    ensures Verdict(Some(p)) == RejectNull
  {
  }

  /** The threshold itself is not significant: the comparison is strict. */
  lemma VerdictAtThreshold()
    ensures Verdict(Some(Significance)) == KeepNull
    ensures Verdict(None) == KeepNull
  {
  }
}
