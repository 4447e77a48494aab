/** `risk_level_from_probability`: three bands over the retention percentage. */
module Risk {
  const LowRisk := "Low Risk"
  const ModerateRisk := "Moderate Risk"
  const HighRisk := "High Risk"

  /** The band for a retention percentage. */
  function RiskLevel(percent: real): (r: string)
    ensures r == LowRisk <==> percent >= 80.0
    ensures r == ModerateRisk <==> 60.0 <= percent < 80.0
    ensures r == HighRisk <==> percent < 60.0
  {
    if percent >= 80.0 then LowRisk
    else if percent >= 60.0 then ModerateRisk
    else HighRisk
  }

  /** How risky a band is: higher means more at risk. */
  function Severity(level: string): nat {
    if level == LowRisk then 0 else if level == ModerateRisk then 1 else 2
  }

  /** A higher retention percentage never lands in a riskier band. */
  lemma RiskLevelMonotone(p: real, q: real)
    requires p <= q
    ensures Severity(RiskLevel(q)) <= Severity(RiskLevel(p))
  {}
}
