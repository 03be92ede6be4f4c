/** What the hypothesis testers take from scipy, and the decision rule they apply to it.
    The statistical routines are not modelled: a tester is given them as functions, and
    every property proved here holds whatever they return. */
module ScipyStats {
  import opened Values
  import opened Frames

  /** `(statistic, p_value)` as `f_oneway` and `ttest_ind` return them. */
  datatype TestStatistic = TestStatistic(statistic: real, pValue: real)

  /** `(chi2, p_value, dof, expected)` from `chi2_contingency`; the expected table is not
      used. */
  datatype ChiSquare = ChiSquare(statistic: real, pValue: real, dof: int)

  /** `stats.f_oneway(*samples)`, `stats.ttest_ind(a, b, equal_var=False)` and
      `stats.chi2_contingency(table)`. */
  datatype Statistics = Statistics(
    fOneway: seq<seq<Cell>> -> TestStatistic,
    ttestInd: (seq<Cell>, seq<Cell>) -> TestStatistic,
    chi2Contingency: seq<seq<nat>> -> ChiSquare)

  /** The exceptions a test can raise: a missing DataFrame column or table label, and
      scipy's refusal of an ANOVA over fewer than two samples. */
  datatype Error = KeyError(key: Value) | TooFewSamples(given: nat)

  /** The reject/conclusion part of a result. */
  datatype Decision = Decision(pValue: real, alpha: real, rejectNull: bool, conclusion: string)

  /** `p_value < alpha` and `'REJECT' if p_value < alpha else 'FAIL TO REJECT'`: the null
      hypothesis is rejected exactly when the p-value is strictly below the level, and the
      conclusion says REJECT exactly then. */
  function Decide(pValue: real, alpha: real): (d: Decision)
    ensures d.pValue == pValue && d.alpha == alpha
    ensures d.rejectNull <==> pValue < alpha
    ensures d.conclusion == "REJECT" <==> d.rejectNull
    ensures d.conclusion == "REJECT" || d.conclusion == "FAIL TO REJECT"
  {
    Decision(pValue, alpha, pValue < alpha, if pValue < alpha then "REJECT" else "FAIL TO REJECT")
  }

  /** A decision taken by the rule above. */
  predicate Decided(d: Decision)
  {
    && (d.rejectNull <==> d.pValue < d.alpha)
    && d.conclusion == (if d.rejectNull then "REJECT" else "FAIL TO REJECT")
  }
}
