/** The premium optimiser: a risk multiplier built from lookup factors, a capped claim
    probability, a loaded premium and an increase/decrease recommendation against the
    current premium. The claim-severity model's prediction is an input. */
module PremiumOptimizer {
  import opened Wrappers

  /** The policyholder fields the optimiser reads; `None` is a key the record lacks. */
  datatype Policy = Policy(province: Option<string>, vehicleType: Option<string>,
                           previousClaims: Option<real>)

  datatype Recommendation = Increase | Decrease

  datatype Optimization = Optimization(
    currentPremium: real,
    optimizedPremium: real,
    predictedSeverity: real,
    estimatedProbability: real,
    recommendation: Recommendation,
    adjustmentPercentage: real)

  /** The adjustment percentage divided by a current premium of 0: numpy's infinity or NaN,
      which the model, working on reals, reports as an error instead. */
  datatype PremiumError = ZeroDivision

  const BaseProbability: real := 0.7
  const ProbabilityCap: real := 0.95
  const ExpenseLoading: real := 0.3
  const ProfitMargin: real := 0.15

  /** `policy.get(key, default)` */
  function OrElse<T>(o: Option<T>, default: T): T
  {
    if o.Some? then o.value else default
  }

  function ProvinceFactor(province: string): (r: real)
    ensures r > 0.0
  {
    if province == "Gauteng" then 1.3
    else if province == "Western Cape" then 0.9
    else if province == "Free State" then 0.8
    else 1.0
  }

  function VehicleFactor(vehicleType: string): (r: real)
    ensures r > 0.0
  {
    if vehicleType in ["SUV", "Bakkie"] then 1.2
    else if vehicleType == "Sedan" then 0.9
    else 1.0
  }

  function ClaimsFactor(previousClaims: real): real
  {
    1.0 + previousClaims * 0.3
  }

  /** The product of the province, vehicle and previous-claims factors; a missing field
      counts as "Unknown" (factor 1) or as no previous claims (factor 1). */
  function RiskMultiplier(policy: Policy): (r: real)
    ensures policy.province.None? && policy.vehicleType.None? && policy.previousClaims.None? ==> r == 1.0
    ensures var claims := ClaimsFactor(OrElse(policy.previousClaims, 0.0));
            claims >= 0.0 ==> 0.8 * 0.9 * claims <= r <= 1.3 * 1.2 * claims
  {
    ProvinceFactor(OrElse(policy.province, "Unknown"))
      * VehicleFactor(OrElse(policy.vehicleType, "Unknown"))
      * ClaimsFactor(OrElse(policy.previousClaims, 0.0))
  }

  /** `min(0.7 * risk_multiplier, 0.95)`: the base probability scaled by the multiplier,
      never above the cap, and equal to one of the two. */
  function EstimatedProbability(policy: Policy): (p: real)
    ensures p <= ProbabilityCap && p <= BaseProbability * RiskMultiplier(policy)
    ensures p == ProbabilityCap || p == BaseProbability * RiskMultiplier(policy)
  {
    var scaled := BaseProbability * RiskMultiplier(policy);
    if scaled < ProbabilityCap then scaled else ProbabilityCap
  }

  /** optimize_premium with the predicted severity given: the result echoes the current
      premium and the severity, the optimised premium is the probability times the severity
      with 30% expenses and 15% profit loaded, INCREASE is recommended exactly when it
      exceeds the current premium, and the adjustment is the relative change in percent; a
      current premium of 0 fails with a division by zero. */
  function OptimizePremium(policy: Policy, severity: real, current: real): (r: Result<Optimization, PremiumError>)
    ensures r.Failure? <==> current == 0.0
    ensures r.Success? ==>
              && r.value.currentPremium == current
              && r.value.predictedSeverity == severity
              && r.value.estimatedProbability == EstimatedProbability(policy)
              && r.value.optimizedPremium == EstimatedProbability(policy) * severity * 1.45
              && (r.value.recommendation == Increase <==> r.value.optimizedPremium > current)
              && r.value.adjustmentPercentage * current == (r.value.optimizedPremium - current) * 100.0
  {
    var probability := EstimatedProbability(policy);
    var riskComponent := probability * severity;
    var optimized := riskComponent * (1.0 + ExpenseLoading + ProfitMargin);
    if current == 0.0 then Failure(ZeroDivision)
    else
      Success(Optimization(
        current, optimized, severity, probability,
        if optimized > current then Increase else Decrease,
        ((optimized - current) / current) * 100.0))
  }

  /** For a positive current premium the adjustment is positive exactly when an increase is
      recommended, and zero exactly when the optimised premium equals the current one. */
  lemma AdjustmentSign(policy: Policy, severity: real, current: real)
    requires current > 0.0
    ensures var o := OptimizePremium(policy, severity, current).value;
            && (o.adjustmentPercentage > 0.0 <==> o.recommendation == Increase)
            && (o.adjustmentPercentage == 0.0 <==> o.optimizedPremium == current)
  {
    var o := OptimizePremium(policy, severity, current).value;
    var diff := o.optimizedPremium - current;
    assert o.adjustmentPercentage * current == diff * 100.0;
    if o.adjustmentPercentage > 0.0 {
      assert diff * 100.0 > 0.0;
    } else if diff > 0.0 {
      assert o.adjustmentPercentage * current <= 0.0;
    }
    if o.adjustmentPercentage == 0.0 {
      assert diff * 100.0 == 0.0;
    }
  }

  /** For a negative current premium the sign flips: a positive adjustment means the
      optimised premium is below it. */
  lemma AdjustmentSignNegative(policy: Policy, severity: real, current: real)
    requires current < 0.0
    ensures var o := OptimizePremium(policy, severity, current).value;
            o.adjustmentPercentage > 0.0 <==> o.optimizedPremium < current
  {
    var o := OptimizePremium(policy, severity, current).value;
    var diff := o.optimizedPremium - current;
    assert o.adjustmentPercentage * current == diff * 100.0;
    if o.adjustmentPercentage > 0.0 {
      assert o.adjustmentPercentage * current < 0.0;
    }
  }

  /** With no negative count of previous claims the probability is positive. */
  lemma ProbabilityPositive(policy: Policy)
    requires OrElse(policy.previousClaims, 0.0) >= 0.0
    ensures 0.0 < EstimatedProbability(policy) <= ProbabilityCap
  {
    var a := ProvinceFactor(OrElse(policy.province, "Unknown"));
    var b := VehicleFactor(OrElse(policy.vehicleType, "Unknown"));
    var c := ClaimsFactor(OrElse(policy.previousClaims, 0.0));
    assert a * b > 0.0;
    assert a * b * c > 0.0;
  }

  /** More previous claims never lower the probability, all else equal. */
  lemma ProbabilityMonotone(policy: Policy, more: real)
    requires OrElse(policy.previousClaims, 0.0) <= more
    ensures EstimatedProbability(policy) <= EstimatedProbability(policy.(previousClaims := Some(more)))
  {
    var a := ProvinceFactor(OrElse(policy.province, "Unknown"));
    var b := VehicleFactor(OrElse(policy.vehicleType, "Unknown"));
    var c := ClaimsFactor(OrElse(policy.previousClaims, 0.0));
    var c' := ClaimsFactor(more);
    assert c <= c';
    assert a * b > 0.0;
    assert a * b * c <= a * b * c';
  }

  /** With a non-negative severity the optimised premium lies between 0 and the capped
      probability's premium, 0.95 × 1.45 × severity. */
  lemma OptimizedBounds(policy: Policy, severity: real, current: real)
    requires current != 0.0 && severity >= 0.0
    requires OrElse(policy.previousClaims, 0.0) >= 0.0
    ensures var o := OptimizePremium(policy, severity, current).value;
            0.0 <= o.optimizedPremium <= ProbabilityCap * severity * 1.45
  {
    ProbabilityPositive(policy);
    var p := EstimatedProbability(policy);
    NonNegativeProduct(p, severity);
    NonNegativeProduct(ProbabilityCap - p, severity);
    assert (ProbabilityCap - p) * severity == ProbabilityCap * severity - p * severity;
  }

  lemma NonNegativeProduct(a: real, b: real)
    requires a >= 0.0 && b >= 0.0
    ensures a * b >= 0.0
  {
  }

  /** A Gauteng SUV with one previous claim hits the cap: 0.7 × 1.3 × 1.2 × 1.3 > 0.95. */
  lemma HighRiskIsCapped()
    ensures EstimatedProbability(Policy(Some("Gauteng"), Some("SUV"), Some(1.0))) == ProbabilityCap
  {
    assert "SUV" in ["SUV", "Bakkie"];
  }
}
