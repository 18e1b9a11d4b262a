/** The example configuration main.py hands to the agents, and what the agents make of it. */
module MainConfig {
  import opened Optional
  import MonitorState
  import MonitorCycle
  import Strategy
  import Qualitative
  import Collections

  /** main.py's risk appetite. Its `Default` category is never used as a fallback. */
  const Appetite: Strategy.Appetite := map[
    "Operational" := map["Low" := "Accept", "Medium" := "Mitigate", "High" := "Mitigate/Transfer", "Critical" := "Avoid/Transfer", "Default" := "Accept"],
    "Financial" := map["Low" := "Accept", "Medium" := "Mitigate", "High" := "Transfer/Mitigate", "Critical" := "Transfer/Avoid", "Default" := "Accept"],
    "Reputational" := map["Low" := "Accept", "Medium" := "Mitigate", "High" := "Mitigate", "Critical" := "Mitigate/Avoid", "Default" := "Accept"],
    "Compliance" := map["Low" := "Mitigate", "Medium" := "Mitigate", "High" := "Mitigate", "Critical" := "Mitigate", "Default" := "Mitigate"],
    "Default" := map["Low" := "Accept", "Medium" := "Accept", "High" := "Mitigate", "Critical" := "Avoid/Transfer", "Default" := "Accept"]
  ]

  function Control(id: string, name: string, effectiveness: string): Strategy.LibraryControl {
    Strategy.LibraryControl(Some(id), Some(name), Some(effectiveness))
  }

  /** main.py's control library (the cost field is not read by the agent). */
  const Library: Strategy.Library := map[
    "Operational" := [
      Control("CTRL-OP-01", "Implement Redundant Server", "High"),
      Control("CTRL-OP-02", "Regular Data Backups", "High"),
      Control("CTRL-OP-03", "Hardware Maintenance Schedule", "Medium")],
    "Financial" := [
      Control("CTRL-FIN-01", "Hedging Instruments (e.g., Futures, Options)", "Medium-High"),
      Control("CTRL-FIN-02", "Diversification of Investments", "Medium")],
    "Compliance" := [
      Control("CTRL-CMP-01", "Mandatory Compliance Training", "Medium"),
      Control("CTRL-CMP-02", "Automated Compliance Checks", "High")]
  ]

  const StrategyConfig := Strategy.Config(Appetite, Library)

  /** main.py's 25-cell level map. */
  const LevelMap: map<(int, int), string> := map[
    (0, 0) := "Low", (0, 1) := "Low", (0, 2) := "Low", (0, 3) := "Medium", (0, 4) := "Medium",
    (1, 0) := "Low", (1, 1) := "Low", (1, 2) := "Medium", (1, 3) := "Medium", (1, 4) := "High",
    (2, 0) := "Low", (2, 1) := "Medium", (2, 2) := "Medium", (2, 3) := "High", (2, 4) := "High",
    (3, 0) := "Medium", (3, 1) := "Medium", (3, 2) := "High", (3, 3) := "High", (3, 4) := "Critical",
    (4, 0) := "Medium", (4, 1) := "High", (4, 2) := "High", (4, 3) := "Critical", (4, 4) := "Critical"
  ]

  const Matrix := Qualitative.MatrixConfig(Qualitative.LikelihoodScale, Qualitative.ImpactScale, LevelMap)

  const MonitoredFields := {"data_source", "frequency", "min_val", "max_val"}

  /** main.py's KRI definitions. */
  const KriDefinitions: map<MonitorState.KriId, MonitorState.KriDef> := map[
    "KRI_CPU" := MonitorState.KriDef(Some(90.0), Some(">"), MonitoredFields),
    "KRI_ERR" := MonitorState.KriDef(Some(5.0), Some(">"), MonitoredFields),
    "KRI_VAR" := MonitorState.KriDef(Some(100000.0), Some(">"), MonitoredFields),
    "KRI_NPS" := MonitorState.KriDef(Some(30.0), Some("<"), MonitoredFields)
  ]

  /** main.py's map is not the generated default: the cell (4, 0) is Medium here but High in
      the generated 5x5 map. */
  lemma LevelMapDiffersFromDefault()
    ensures LevelMap[(4, 0)] == "Medium"
    ensures Qualitative.DefaultMatrix().levelMap[(4, 0)] == "High"
  {
    Qualitative.DefaultMatrixBands(4, 0);
    assert Qualitative.Min((4 + 0) / 2, 3) == 2;
  }

  /** With main.py's matrix, a draw of the top likelihood and the top impact is Critical. */
  lemma TopCellIsCritical(info: Qualitative.RiskInfo)
    ensures Qualitative.ApplyMatrix(Matrix, info, 4, 4).Success?
    ensures Qualitative.ApplyMatrix(Matrix, info, 4, 4).value.riskLevel == "Critical"
  {
    assert Collections.Distinct(Qualitative.LikelihoodScale);
    assert Collections.Distinct(Qualitative.ImpactScale);
    Qualitative.MatrixCellIsDrawn(Matrix, info, 4, 4);
  }

  /** A category the appetite does not name gets Accept, although the `Default` category
      would say Avoid/Transfer for a Critical risk. */
  lemma UnnamedCategoryAccepts()
    ensures Strategy.Guidance(Appetite, "Strategic", "Critical") == "Accept"
    ensures Appetite["Default"]["Critical"] == "Avoid/Transfer"
  {
  }

  /** Compliance has an explicit `Low` entry, so a Low compliance risk is mitigated. */
  lemma LowComplianceMitigated(draw: nat)
    ensures Strategy.PrimaryStrategy(Appetite, "Compliance", "Low", draw) == "Mitigate"
  {
    ExplicitLowEntry(Appetite, "Compliance", "Mitigate", draw);
  }

  /** Operational's `Low` entry is Accept, so a Low operational risk is accepted. */
  lemma LowOperationalAccepted(draw: nat)
    ensures Strategy.PrimaryStrategy(Appetite, "Operational", "Low", draw) == "Accept"
  {
    ExplicitLowEntry(Appetite, "Operational", "Accept", draw);
  }

  /** A Low risk of a category whose `Low` entry is a single option gets that option. */
  lemma ExplicitLowEntry(appetite: Strategy.Appetite, category: string, entry: string, draw: nat)
    requires category in appetite && Strategy.LowLevel in appetite[category]
    requires appetite[category][Strategy.LowLevel] == entry && '/' !in entry
    ensures Strategy.PrimaryStrategy(appetite, category, Strategy.LowLevel, draw) == entry
  {
    Strategy.SingleOption(entry);
  }

  /** Financial mitigation suggests only the diversification control, as
      "Diversification of Investments (CTRL-FIN-02)": the hedging control's effectiveness is
      `Medium-High`, which the filter does not accept. */
  lemma FinancialSuggestions(description: Option<string>)
    ensures Strategy.SuggestControls(Library, "Financial", description) == [Strategy.Label(Library["Financial"][1])]
  {
    var controls := Strategy.LibraryFor(Library, "Financial");
    assert controls == Library["Financial"];
    OnlySecondRelevant(controls);
    Strategy.SuggestionsInOrder(Library, "Financial", description);
  }

  lemma OnlySecondRelevant(controls: seq<Strategy.LibraryControl>)
    requires |controls| == 2 && !Strategy.IsRelevant(controls[0]) && Strategy.IsRelevant(controls[1])
    ensures Strategy.Relevant(controls) == [controls[1]]
  {
    assert controls[1..][1..] == [];
  }

  /** Operational mitigation suggests the first two of its three qualifying controls, as
      "Implement Redundant Server (CTRL-OP-01)" and "Regular Data Backups (CTRL-OP-02)". */
  lemma OperationalSuggestions(description: Option<string>)
    ensures Strategy.SuggestControls(Library, "Operational", description) ==
      [Strategy.Label(Library["Operational"][0]), Strategy.Label(Library["Operational"][1])]
  {
    var controls := Library["Operational"];
    assert Strategy.LibraryFor(Library, "Operational") == [controls[0], controls[1], controls[2]];
    TopTwoOfThree(Library, "Operational", description, controls[0], controls[1], controls[2]);
  }

  /** A category of three relevant controls is answered with the first two. */
  lemma TopTwoOfThree(library: Strategy.Library, category: string, description: Option<string>,
                      a: Strategy.LibraryControl, b: Strategy.LibraryControl, c: Strategy.LibraryControl)
    requires Strategy.LibraryFor(library, category) == [a, b, c]
    requires Strategy.IsRelevant(a) && Strategy.IsRelevant(b) && Strategy.IsRelevant(c)
    ensures Strategy.SuggestControls(library, category, description) == [Strategy.Label(a), Strategy.Label(b)]
  {
    ThreeRelevant(a, b, c);
    assert Strategy.Relevant(Strategy.LibraryFor(library, category)) == [a, b, c];
    Strategy.SuggestionsInOrder(library, category, description);
    var r := Strategy.SuggestControls(library, category, description);
    assert |r| == 2 && r[0] == Strategy.Label(a) && r[1] == Strategy.Label(b);
  }

  lemma ThreeRelevant(a: Strategy.LibraryControl, b: Strategy.LibraryControl, c: Strategy.LibraryControl)
    requires Strategy.IsRelevant(a) && Strategy.IsRelevant(b) && Strategy.IsRelevant(c)
    ensures Strategy.Relevant([a, b, c]) == [a, b, c]
  {
    AllRelevant([a, b, c]);
  }

  /** A library part whose controls are all relevant is kept whole. */
  lemma {:induction false} AllRelevant(controls: seq<Strategy.LibraryControl>)
    requires forall k :: 0 <= k < |controls| ==> Strategy.IsRelevant(controls[k])
    ensures Strategy.Relevant(controls) == controls
    decreases |controls|
  {
    if controls != [] {
      AllRelevant(controls[1..]);
      assert [controls[0]] + controls[1..] == controls;
    }
  }

  /** KRI_CPU alerts above 90 and not at 85; KRI_NPS alerts below 30. */
  lemma KriExamples()
    ensures MonitorCycle.Flags(MonitorCycle.Value(95.0), KriDefinitions["KRI_CPU"])
    ensures !MonitorCycle.Flags(MonitorCycle.Value(85.0), KriDefinitions["KRI_CPU"])
    ensures !MonitorCycle.Flags(MonitorCycle.Value(90.0), KriDefinitions["KRI_CPU"])
    ensures MonitorCycle.Flags(MonitorCycle.Value(25.0), KriDefinitions["KRI_NPS"])
    ensures !MonitorCycle.Flags(MonitorCycle.Value(30.0), KriDefinitions["KRI_NPS"])
  {
  }
}
