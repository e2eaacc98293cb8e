/** Score values and the two comparison directions shared by the analyzer and the evaluator. */
module Scores {

  /** Whether a larger score is better (similarities) or worse (error rates, latency, RTF). */
  datatype Polarity = HigherIsBetter | LowerIsBetter

  /** A score that may be positive infinity: the evaluator reads a missing
      latency or real-time factor as `float("inf")`. */
  datatype ExtReal = Finite(value: real) | PosInf

  /** Whether a score passes a finite threshold in the given direction; the
      threshold itself passes. */
  function Meets(p: Polarity, x: ExtReal, threshold: real): bool
  {
    match p
    case LowerIsBetter => x.Finite? && x.value <= threshold
    case HigherIsBetter => x.PosInf? || x.value >= threshold
  }

  /** `y` is at least as good as `x` in direction `p`. */
  predicate AtLeastAsGood(p: Polarity, y: ExtReal, x: ExtReal)
  {
    match p
    case LowerIsBetter => x.PosInf? || (y.Finite? && y.value <= x.value)
    case HigherIsBetter => y.PosInf? || (x.Finite? && y.value >= x.value)
  }

  /** Passing is closed under improvement: a score at least as good as a passing one passes. */
  lemma MeetsMonotone(p: Polarity, x: ExtReal, y: ExtReal, threshold: real)
    requires Meets(p, x, threshold) && AtLeastAsGood(p, y, x)
    ensures Meets(p, y, threshold)
  {
  }
}
