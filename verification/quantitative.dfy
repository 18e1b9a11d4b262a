/** The quantitative risk assessor (Agents/quantitative_assessor.py): parametric Value at Risk,
    a one-factor stress test, a Monte Carlo placeholder, and the dispatch between them.
    The normal quantile function and the square root are supplied by the caller, as are the
    two uniform draws of the Monte Carlo placeholder. */
module Quantitative {
  import opened Optional
  import Text
  import Decimal

  /** A numeric dictionary in insertion order; a key's value is its first binding. */
  type Table = seq<(string, real)>

  /** `table.get(key, default)` */
  function Lookup(table: Table, key: string, default: real): (v: real)
    ensures (forall k :: 0 <= k < |table| ==> table[k].0 != key) ==> v == default
    ensures |table| > 0 && table[0].0 == key ==> v == table[0].1
    decreases |table|
  {
    if table == [] then default
    else if table[0].0 == key then table[0].1
    else Lookup(table[1..], key, default)
  }

  /** A present key's value is its first binding. */
  lemma {:induction false} LookupFirst(table: Table, key: string, default: real, k: nat)
    requires k < |table| && table[k].0 == key
    requires forall j :: 0 <= j < k ==> table[j].0 != key
    ensures Lookup(table, key, default) == table[k].1
    decreases k
  {
    if k > 0 {
      LookupFirst(table[1..], key, default, k - 1);
    }
  }

  /** The keys of a table, in order. */
  function Keys(table: Table): (ks: seq<string>)
    ensures |ks| == |table| && forall k :: 0 <= k < |table| ==> ks[k] == table[k].0
  {
    seq(|table|, k requires 0 <= k < |table| => table[k].0)
  }

  /** The parameters a request may carry; each may be missing. */
  datatype Params = Params(
    confidenceLevel: Option<real>,
    horizonDays: Option<int>,
    scenarioName: Option<string>,
    scenarioDetails: Option<Table>,
    numSimulations: Option<int>)

  const NoParams := Params(None, None, None, None, None)

  /** The numerical functions and random draws the calculations use; `showFloat` is Python's
      text of a float, as an f-string prints it. */
  datatype Numerics = Numerics(quantile: real -> real, sqrt: real -> real, meanDraw: real, spreadDraw: real,
                               showFloat: real -> string)

  datatype Results =
    | VarResult(key: string, value: real, technique: string, assumptions: seq<string>)
    | StressResult(scenario: string, estimatedImpact: real, details: Table)
    | MonteCarloResult(technique: string, numSimulations: int, meanOutcome: real, stdDev: real)
    | ResultError(error: string)

  const PortfolioValue := "portfolio_value"
  const Volatility := "volatility"
  const MarketShock := "market_shock"
  const DefaultConfidence := 0.95
  const DefaultHorizon := 1
  const TradingDays := 252.0
  const InsufficientData := "Insufficient data for Parametric VaR"

  /** Python's `int(x)`: truncation toward zero. */
  function Trunc(x: real): (i: int)
    ensures x >= 0.0 ==> i == x.Floor
    ensures x < 0.0 ==> i == -((-x).Floor)
    ensures (i as real) <= x < (i as real) + 1.0 || (i as real) - 1.0 < x <= (i as real)
  {
    if x >= 0.0 then x.Floor else -((-x).Floor)
  }

  /** The result key `VaR_<percent>_<days>day`. */
  function VarKey(percent: int, days: int): string {
    "VaR_" + Decimal.IntToString(percent) + "_" + Decimal.IntToString(days) + "day"
  }

  lemma NoUnderscore(i: int)
    ensures '_' !in Decimal.IntToString(i)
  {
  }

  /** The key splits on '_' into its three fields. */
  lemma VarKeyFields(percent: int, days: int)
    ensures Text.Split(VarKey(percent, days), '_') == ["VaR", Decimal.IntToString(percent), Decimal.IntToString(days) + "day"]
  {
    var p, d := Decimal.IntToString(percent), Decimal.IntToString(days);
    NoUnderscore(percent);
    NoUnderscore(days);
    assert VarKey(percent, days) == "VaR" + ['_'] + (p + ['_'] + (d + "day"));
    Text.SplitAppend("VaR", '_', p + ['_'] + (d + "day"));
    Text.SplitAppend(p, '_', d + "day");
    assert '_' !in d + "day";
    Text.SplitPlain(d + "day", '_');
  }

  /** Different confidence percentages or horizons never share a result key. */
  lemma VarKeyInjective(percent: int, days: int, percent': int, days': int)
    requires VarKey(percent, days) == VarKey(percent', days')
    ensures percent == percent' && days == days'
  {
    VarKeyFields(percent, days);
    VarKeyFields(percent', days');
    var d, d' := Decimal.IntToString(days), Decimal.IntToString(days');
    assert d + "day" == d' + "day";
    assert |d| == |d'|;
    assert d == (d + "day")[..|d|];
    assert d' == (d' + "day")[..|d'|];
    Decimal.IntToStringInjective(percent, percent');
    Decimal.IntToStringInjective(days, days');
  }

  const NormalReturns := "Normal distribution of returns"
  const HorizonSuffix := " day horizon"
  const ConfidenceSuffix := "% confidence"

  /** The three assumptions a VaR result lists: normal returns, the horizon in days, and the
      confidence level as a percentage. */
  function VarAssumptions(days: int, cl: real, num: Numerics): (a: seq<string>)
    ensures |a| == 3 && a[0] == NormalReturns
    ensures a[1] == Decimal.IntToString(days) + HorizonSuffix
    ensures a[2] == num.showFloat(cl * 100.0) + ConfidenceSuffix
  {
    [NormalReturns, Decimal.IntToString(days) + HorizonSuffix, num.showFloat(cl * 100.0) + ConfidenceSuffix]
  }

  /** The horizon assumption names the horizon: different horizons give different texts. */
  lemma HorizonAssumptionInjective(days: int, days': int, cl: real, cl': real, num: Numerics)
    requires VarAssumptions(days, cl, num)[1] == VarAssumptions(days', cl', num)[1]
    ensures days == days'
  {
    var d, d' := Decimal.IntToString(days), Decimal.IntToString(days');
    assert d + HorizonSuffix == d' + HorizonSuffix;
    assert |d| == |d'|;
    assert d == (d + HorizonSuffix)[..|d|];
    assert d' == (d' + HorizonSuffix)[..|d'|];
    Decimal.IntToStringInjective(days, days');
  }

  /** With no parameters the assumptions read "1 day horizon" and, with Python's text of 95.0,
      "95.0% confidence". */
  lemma DefaultVarAssumptions(num: Numerics)
    requires num.showFloat(95.0) == "95.0"
    ensures VarAssumptions(DefaultHorizon, DefaultConfidence, num) ==
      ["Normal distribution of returns", "1 day horizon", "95.0% confidence"]
  {
    assert DefaultConfidence * 100.0 == 95.0;
    assert Decimal.NatToString(1) == "1";
    assert Decimal.IntToString(DefaultHorizon) + HorizonSuffix == "1 day horizon";
    assert num.showFloat(DefaultConfidence * 100.0) + ConfidenceSuffix == "95.0% confidence";
  }

  /** The parametric VaR formula: value x volatility x z x root. */
  function ParametricVar(value: real, vol: real, z: real, root: real): real {
    value * vol * z * root
  }

  /** `_calculate_var`: parametric VaR, value x volatility x z x sqrt(days / 252), under the
      key naming the truncated confidence percentage and the horizon; without a positive
      portfolio value and a positive volatility there is no result. */
  function CalculateVar(data: Table, params: Params, num: Numerics): (r: Results)
    ensures var value, vol := Lookup(data, PortfolioValue, 0.0), Lookup(data, Volatility, 0.0);
      r.ResultError? <==> !(value > 0.0 && vol > 0.0)
    ensures r.ResultError? ==> r.error == InsufficientData
    ensures r.VarResult? ==>
      var cl, days := params.confidenceLevel.GetOr(DefaultConfidence), params.horizonDays.GetOr(DefaultHorizon);
      && r.key == VarKey(Trunc(cl * 100.0), days)
      && r.value == ParametricVar(Lookup(data, PortfolioValue, 0.0), Lookup(data, Volatility, 0.0), num.quantile(cl), num.sqrt(days as real / TradingDays))
      && r.technique == "Parametric VaR"
      && r.assumptions == VarAssumptions(days, cl, num)
  {
    var value, vol := Lookup(data, PortfolioValue, 0.0), Lookup(data, Volatility, 0.0);
    var cl, days := params.confidenceLevel.GetOr(DefaultConfidence), params.horizonDays.GetOr(DefaultHorizon);
    if value > 0.0 && vol > 0.0 then
      VarResult(VarKey(Trunc(cl * 100.0), days),
        ParametricVar(value, vol, num.quantile(cl), num.sqrt(days as real / TradingDays)),
        "Parametric VaR",
        VarAssumptions(days, cl, num))
    else ResultError(InsufficientData)
  }

  /** With no parameters the key is `VaR_95_1day`. */
  lemma DefaultVarKey()
    ensures VarKey(Trunc(DefaultConfidence * 100.0), DefaultHorizon) == "VaR_95_1day"
  {
    assert Trunc(DefaultConfidence * 100.0) == 95;
    assert Decimal.NatToString(9) == "9" && Decimal.NatToString(5) == "5";
    assert Decimal.NatToString(95) == "95";
    assert Decimal.NatToString(1) == "1";
  }

  /** The VaR is positive when the quantile and the root are. */
  lemma VarSign(data: Table, params: Params, num: Numerics)
    requires CalculateVar(data, params, num).VarResult?
    requires num.quantile(params.confidenceLevel.GetOr(DefaultConfidence)) > 0.0
    requires num.sqrt(params.horizonDays.GetOr(DefaultHorizon) as real / TradingDays) > 0.0
    ensures CalculateVar(data, params, num).value > 0.0
  {
    var value, vol := Lookup(data, PortfolioValue, 0.0), Lookup(data, Volatility, 0.0);
    var z := num.quantile(params.confidenceLevel.GetOr(DefaultConfidence));
    var root := num.sqrt(params.horizonDays.GetOr(DefaultHorizon) as real / TradingDays);
    assert value * vol > 0.0;
    assert value * vol * z > 0.0;
  }

  /** The VaR scales with the portfolio: multiplying the value by a positive factor multiplies
      the VaR by it and keeps the key. */
  lemma VarScales(value: real, vol: real, rest: Table, params: Params, num: Numerics, factor: real)
    requires value > 0.0 && vol > 0.0 && factor > 0.0
    ensures var a := CalculateVar([(PortfolioValue, value), (Volatility, vol)] + rest, params, num);
      var b := CalculateVar([(PortfolioValue, factor * value), (Volatility, vol)] + rest, params, num);
      a.VarResult? && b.VarResult? && a.key == b.key && b.value == factor * a.value
  {
    var d := [(PortfolioValue, value), (Volatility, vol)] + rest;
    var e := [(PortfolioValue, factor * value), (Volatility, vol)] + rest;
    assert Lookup(d, PortfolioValue, 0.0) == value;
    assert Lookup(e, PortfolioValue, 0.0) == factor * value;
    assert d[1..] == [(Volatility, vol)] + rest;
    assert e[1..] == [(Volatility, vol)] + rest;
    assert Lookup(d, Volatility, 0.0) == vol;
    assert Lookup(e, Volatility, 0.0) == vol;
    var cl, days := params.confidenceLevel.GetOr(DefaultConfidence), params.horizonDays.GetOr(DefaultHorizon);
    ScaleValue(value, vol, num.quantile(cl), num.sqrt(days as real / TradingDays), factor);
  }

  lemma ScaleValue(value: real, vol: real, z: real, root: real, factor: real)
    ensures ParametricVar(factor * value, vol, z, root) == factor * ParametricVar(value, vol, z, root)
  {
  }

  const GenericScenario := "Generic Stress"
  const DefaultDetails: Table := [(MarketShock, -0.1)]

  /** `_perform_stress_test`: the portfolio value times the scenario's market shock, 0 when
      the scenario gives none; without a scenario, a generic 10% market drop. */
  function StressTest(data: Table, params: Params): (r: Results)
    ensures r.StressResult?
    ensures r.scenario == params.scenarioName.GetOr(GenericScenario)
    ensures r.details == params.scenarioDetails.GetOr(DefaultDetails)
    ensures r.estimatedImpact == Lookup(data, PortfolioValue, 0.0) * Lookup(r.details, MarketShock, 0.0)
  {
    var details := params.scenarioDetails.GetOr(DefaultDetails);
    StressResult(params.scenarioName.GetOr(GenericScenario),
      Lookup(data, PortfolioValue, 0.0) * Lookup(details, MarketShock, 0.0), details)
  }

  /** The default scenario loses a tenth of the portfolio; a scenario without a market shock
      loses nothing. */
  lemma DefaultStressLosesTenth(data: Table, name: Option<string>)
    ensures StressTest(data, Params(None, None, name, None, None)).estimatedImpact == -0.1 * Lookup(data, PortfolioValue, 0.0)
  {
  }

  lemma NoShockNoImpact(data: Table, details: Table)
    requires forall k :: 0 <= k < |details| ==> details[k].0 != MarketShock
    ensures StressTest(data, Params(None, None, None, Some(details), None)).estimatedImpact == 0.0
  {
  }

  const DefaultSimulations := 10000

  /** `_perform_monte_carlo`: a mean and a spread made from the portfolio value and the two
      uniform draws; the simulation count is only echoed. */
  function MonteCarlo(data: Table, params: Params, num: Numerics): (r: Results)
    ensures r.MonteCarloResult? && r.technique == "Monte Carlo Simulation"
    ensures r.numSimulations == params.numSimulations.GetOr(DefaultSimulations)
    ensures r.meanOutcome - Lookup(data, PortfolioValue, 0.0) == Lookup(data, PortfolioValue, 0.0) * num.meanDraw
    ensures r.stdDev == Lookup(data, PortfolioValue, 0.0) * num.spreadDraw
  {
    var value := Lookup(data, PortfolioValue, 0.0);
    MonteCarloResult("Monte Carlo Simulation", params.numSimulations.GetOr(DefaultSimulations),
      value * (1.0 + num.meanDraw), value * num.spreadDraw)
  }

  /** With draws in the ranges `random.uniform` gives, the mean stays within 5% of a positive
      portfolio value and the spread between 1% and 10% of it. */
  lemma MonteCarloBounds(data: Table, params: Params, num: Numerics)
    requires -0.05 <= num.meanDraw <= 0.05 && 0.01 <= num.spreadDraw <= 0.1
    requires Lookup(data, PortfolioValue, 0.0) > 0.0
    ensures var r := MonteCarlo(data, params, num);
      var v := Lookup(data, PortfolioValue, 0.0);
      0.95 * v <= r.meanOutcome <= 1.05 * v && 0.01 * v <= r.stdDev <= 0.1 * v
  {
    var r := MonteCarlo(data, params, num);
    DrawBounds(Lookup(data, PortfolioValue, 0.0), num.meanDraw, num.spreadDraw, r.meanOutcome, r.stdDev);
  }

  lemma DrawBounds(v: real, m: real, s: real, mean: real, std: real)
    requires v > 0.0 && -0.05 <= m <= 0.05 && 0.01 <= s <= 0.1
    requires mean - v == v * m && std == v * s
    ensures 0.95 * v <= mean <= 1.05 * v && 0.01 * v <= std <= 0.1 * v
  {
    assert v * -0.05 <= v * m <= v * 0.05;
    assert v * 0.01 <= v * s <= v * 0.1;
  }

  datatype QuantitativeReport = QuantitativeReport(
    kind: string,
    performed: string,
    results: Results,
    riskDescription: string,
    dataKeys: seq<string>,
    params: Params)

  /** `perform_quantitative_assessment`: the type is matched case-insensitively and reported
      as given; an unknown type is reported as `Unsupported` with an error naming it. */
  function Perform(riskDescription: string, data: Table, assessmentType: string, params: Option<Params>,
                   num: Numerics): (r: QuantitativeReport)
    ensures r.kind == "QuantitativeAssessment" && r.riskDescription == riskDescription
    ensures r.dataKeys == Keys(data) && r.params == params.GetOr(NoParams)
    ensures var kind := Text.Upper(assessmentType);
      && (kind == "VAR" ==> r.results == CalculateVar(data, params.GetOr(NoParams), num))
      && (kind == "STRESSTEST" ==> r.results == StressTest(data, params.GetOr(NoParams)))
      && (kind == "MONTECARLO" ==> r.results == MonteCarlo(data, params.GetOr(NoParams), num))
    ensures r.performed == "Unsupported" <==> Text.Upper(assessmentType) !in {"VAR", "STRESSTEST", "MONTECARLO"}
    ensures r.performed == "Unsupported" ==> r.results == ResultError("Unsupported assessment type: " + assessmentType)
    ensures r.performed != "Unsupported" ==> r.performed == assessmentType
  {
    var p := params.GetOr(NoParams);
    var kind := Text.Upper(assessmentType);
    var (results, performed) :=
      if kind == "VAR" then (CalculateVar(data, p, num), assessmentType)
      else if kind == "STRESSTEST" then (StressTest(data, p), assessmentType)
      else if kind == "MONTECARLO" then (MonteCarlo(data, p, num), assessmentType)
      else (ResultError("Unsupported assessment type: " + assessmentType), "Unsupported");
    QuantitativeReport("QuantitativeAssessment", performed, results, riskDescription, Keys(data), p)
  }

  /** Types that differ only in letter case give the same results. */
  lemma TypeCaseInsensitive(riskDescription: string, data: Table, a: string, b: string, params: Option<Params>, num: Numerics)
    requires Text.Upper(a) == Text.Upper(b)
    requires Text.Upper(a) in {"VAR", "STRESSTEST", "MONTECARLO"}
    ensures Perform(riskDescription, data, a, params, num).results == Perform(riskDescription, data, b, params, num).results
  {
  }
}
