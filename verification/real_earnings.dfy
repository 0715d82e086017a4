/** The real-earnings adjuster: the calculator's net result less a flat
    one-period inflation erosion of the gross gain. */
module RealEarnings {
  import opened Transactions

  /** The per-jurisdiction inflation constant. */
  function InflationRate(country: Country): (rate: real)
    ensures 0.0 <= rate < 1.0
  {
    match country
    case IN => 0.05
    case US => 0.03
    case UK => 0.028
  }

  function Abs(x: real): real
  {
    if x < 0.0 then -x else x
  }

  /** The two figures the adjuster adds to a calculation. */
  datatype Adjustment = Adjustment(realEarnings: real, inflationAdjustedReturn: real)

  /** Real earnings are the net profit minus the inflation impact on the
      absolute gross gain; the return is that figure as a percentage of the
      absolute gross gain, and 0 when there is no gain to divide by. */
  function CalculateRealEarnings(c: TaxCalculation, country: Country): (r: Adjustment)
    ensures r.realEarnings == (TotalGains(c) - c.totalTax) - Abs(TotalGains(c)) * InflationRate(country)
    ensures r.realEarnings <= TotalGains(c) - c.totalTax
    ensures TotalGains(c) == 0.0 ==> r.inflationAdjustedReturn == 0.0
    ensures TotalGains(c) != 0.0 ==> r.inflationAdjustedReturn * Abs(TotalGains(c)) == r.realEarnings * 100.0
  {
    var inflationRate := InflationRate(country);
    var totalGains := c.shortTermGains + c.longTermGains;
    var netProfit := totalGains - c.totalTax;
    var inflationImpact := Abs(totalGains) * inflationRate;
    var realEarnings := netProfit - inflationImpact;
    var inflationAdjustedReturn := if Abs(totalGains) > 0.0 then (realEarnings / Abs(totalGains)) * 100.0 else 0.0;
    Adjustment(realEarnings, inflationAdjustedReturn)
  }

  /** With no tax and a positive gain, the return is exactly what inflation
      leaves of 100%. */
  lemma UntaxedGainReturn(c: TaxCalculation, country: Country)
    requires c.totalTax == 0.0 && TotalGains(c) > 0.0
    ensures CalculateRealEarnings(c, country).inflationAdjustedReturn == (1.0 - InflationRate(country)) * 100.0
  {
    var g := TotalGains(c);
    var r := CalculateRealEarnings(c, country);
    assert r.realEarnings == g * (1.0 - InflationRate(country));
    assert r.inflationAdjustedReturn * g == r.realEarnings * 100.0;
  }

  /** A non-negative tax can only lower the return below the untaxed one. */
  lemma TaxLowersReturn(c: TaxCalculation, country: Country)
    requires c.totalTax >= 0.0 && TotalGains(c) > 0.0
    ensures CalculateRealEarnings(c, country).inflationAdjustedReturn <= (1.0 - InflationRate(country)) * 100.0
  {
    var g := TotalGains(c);
    var r := CalculateRealEarnings(c, country);
    var untaxed := (1.0 - InflationRate(country)) * 100.0;
    assert r.realEarnings <= g * (1.0 - InflationRate(country));
    assert r.inflationAdjustedReturn * g == r.realEarnings * 100.0;
    assert r.inflationAdjustedReturn * g <= untaxed * g;
  }

  /** The combined figures the dashboard shows: the calculation with the
      adjuster's two fields written over its zeros. */
  function WithRealEarnings(c: TaxCalculation, country: Country): (r: TaxCalculation)
    ensures r.shortTermGains == c.shortTermGains && r.longTermGains == c.longTermGains && r.totalTax == c.totalTax
    ensures Adjustment(r.realEarnings, r.inflationAdjustedReturn) == CalculateRealEarnings(c, country)
  {
    var a := CalculateRealEarnings(c, country);
    c.(realEarnings := a.realEarnings, inflationAdjustedReturn := a.inflationAdjustedReturn)
  }
}
