/** The qualitative risk assessor (Agents/qualitative_assessor.py): a likelihood/impact risk
    matrix, a small rule base, and the dispatch between them. The matrix's two `random.choice`
    calls are oracles: the caller supplies one draw for each scale. */
module Qualitative {
  import opened Optional
  import opened Collections
  import Text

  /** The four levels, least severe first. */
  const Levels := ["Low", "Medium", "High", "Critical"]

  /** A level's severity: its position in `Levels`. */
  function Rank(level: string): (r: int)
    ensures 0 <= r < |Levels| ==> Levels[r] == level
    ensures r == -1 <==> level !in Levels
  {
    if level == "Low" then 0
    else if level == "Medium" then 1
    else if level == "High" then 2
    else if level == "Critical" then 3
    else -1
  }

  /** The cells of a matrix with `nl` likelihood and `ni` impact values. */
  ghost function Grid(nl: int, ni: int): set<(int, int)> {
    set l, i | 0 <= l < nl && 0 <= i < ni :: (l, i)
  }

  /** Whether `_default_level_map` divides by zero: the scales are non-empty and the sum of
      the two largest indices is 1 or 2, so the step `span // 3` is 0. */
  predicate DividesByZero(nl: int, ni: int) {
    nl >= 1 && ni >= 1 && 1 <= nl + ni - 2 <= 2
  }

  /** The level index of cell (l, i) for a given step: the index sum divided by the step,
      capped at the top level; with no span every cell is Low. */
  function CellIndex(l: nat, i: nat, span: int, step: int): (k: nat)
    requires span > 0 ==> step > 0
    ensures k < |Levels|
  {
    if span > 0 then Min((l + i) / step, |Levels| - 1) else 0
  }

  function Min(a: int, b: nat): (r: nat)
    requires a >= 0
    ensures r <= a && r <= b && (r == a || r == b)
  {
    if a <= b then a else b
  }

  /** `_default_level_map(nl, ni)` as written: every cell of the grid mapped to the level its
      index sum reaches in steps of `(nl + ni - 2) // 3`; None where that step is 0 and a cell
      is visited, which raises ZeroDivisionError. */
  function DefaultLevelMap(nl: int, ni: int): (r: Option<map<(int, int), string>>)
    ensures r.None? <==> DividesByZero(nl, ni)
    ensures r.Some? ==> forall l, i :: 0 <= l < nl && 0 <= i < ni ==> (l, i) in r.value && r.value[(l, i)] in Levels
    ensures r.Some? ==> forall p :: p in r.value ==> 0 <= p.0 < nl && 0 <= p.1 < ni
  {
    var span := nl + ni - 2;
    if DividesByZero(nl, ni) then None
    else Some(LevelGrid(nl, ni, span, span / 3))
  }

  /** The grid map for a given step. */
  function LevelGrid(nl: int, ni: int, span: int, step: int): (r: map<(int, int), string>)
    requires nl >= 1 && ni >= 1 && span > 0 ==> step > 0
    ensures forall l, i :: 0 <= l < nl && 0 <= i < ni ==> (l, i) in r && r[(l, i)] == Levels[CellIndex(l, i, span, step)]
    ensures forall p :: p in r ==> 0 <= p.0 < nl && 0 <= p.1 < ni
  {
    map l: nat, i: nat | l < nl && i < ni :: (l, i) := Levels[CellIndex(l, i, span, step)]
  }

  /** A two-by-two matrix is one of the sizes whose default map cannot be built. */
  lemma TwoByTwoDividesByZero()
    ensures DefaultLevelMap(2, 2).None?
    ensures DefaultLevelMap(1, 2).None? && DefaultLevelMap(3, 1).None?
  {
  }

  /** The step the default map evidently intends: at least 1, so every size yields a map. */
  function SafeStep(nl: int, ni: int): (step: int)
    ensures nl + ni - 2 > 0 ==> step > 0
    ensures nl >= 1 && ni >= 1 && nl + ni - 2 > 0 && !DividesByZero(nl, ni) ==> step == (nl + ni - 2) / 3
  {
    var span := nl + ni - 2;
    if span / 3 >= 1 then span / 3 else 1
  }

  /** The default level map with the step kept at 1 or more: defined for every size, and
      equal to the as-written map wherever that one is defined. */
  function DefaultLevelMapTotal(nl: int, ni: int): (r: map<(int, int), string>)
    ensures forall l, i :: 0 <= l < nl && 0 <= i < ni ==> (l, i) in r && r[(l, i)] in Levels
    ensures forall p :: p in r ==> 0 <= p.0 < nl && 0 <= p.1 < ni
    ensures !DividesByZero(nl, ni) ==> DefaultLevelMap(nl, ni) == Some(r)
  {
    GridStepIrrelevant(nl, ni, nl + ni - 2, (nl + ni - 2) / 3, SafeStep(nl, ni));
    LevelGrid(nl, ni, nl + ni - 2, SafeStep(nl, ni))
  }

  /** The step matters only for cells that exist when the span is positive. */
  lemma GridStepIrrelevant(nl: int, ni: int, span: int, step: int, step': int)
    requires nl >= 1 && ni >= 1 && span > 0 ==> step' > 0
    requires !DividesByZero(nl, ni) && nl >= 1 && ni >= 1 && span > 0 ==> step == step'
    ensures !DividesByZero(nl, ni) && span == nl + ni - 2 && step == span / 3 ==>
      LevelGrid(nl, ni, span, step) == LevelGrid(nl, ni, span, step')
  {
    if !DividesByZero(nl, ni) && span == nl + ni - 2 && step == span / 3 {
      var g, g' := LevelGrid(nl, ni, span, step), LevelGrid(nl, ni, span, step');
      assert g.Keys == g'.Keys;
    }
  }

  lemma MulMonotone(d: int, x: int, y: int)
    requires d > 0 && x <= y
    ensures d * x <= d * y
  {
  }

  /** Floor division by a positive step is monotone. */
  lemma DivMonotone(a: nat, b: nat, d: int)
    requires a <= b && d > 0
    ensures a / d <= b / d
  {
    var qa, qb := a / d, b / d;
    assert d * qa <= a;
    assert b < d * qb + d;
    if qb + 1 <= qa {
      MulMonotone(d, qb + 1, qa);
      assert false;
    }
  }

  /** The default map never lowers the level when likelihood or impact rises. */
  lemma {:induction false} DefaultMapMonotone(nl: int, ni: int, l: nat, i: nat, l': nat, i': nat)
    requires l <= l' < nl && i <= i' < ni
    ensures var m := DefaultLevelMapTotal(nl, ni);
      Rank(m[(l, i)]) <= Rank(m[(l', i')])
  {
    var span, step := nl + ni - 2, SafeStep(nl, ni);
    var k, k' := CellIndex(l, i, span, step), CellIndex(l', i', span, step);
    if span > 0 {
      DivMonotone(l + i, l' + i', step);
    }
    assert k <= k';
    RankOfLevel(k);
    RankOfLevel(k');
  }

  /** A level's rank is its position. */
  lemma RankOfLevel(k: nat)
    requires k < |Levels|
    ensures Rank(Levels[k]) == k
  {
  }

  /** The corners of the default map: the lowest cell is Low and, once the scales are long
      enough, the highest is Critical. */
  lemma DefaultMapCorners(nl: int, ni: int)
    requires nl >= 1 && ni >= 1
    ensures DefaultLevelMapTotal(nl, ni)[(0, 0)] == "Low"
    ensures nl + ni - 2 >= 3 ==> DefaultLevelMapTotal(nl, ni)[(nl - 1, ni - 1)] == "Critical"
  {
    CornerIndices(nl - 1, ni - 1, SafeStep(nl, ni));
    DefaultMapCorner(nl, ni, 0, 0);
    if nl + ni - 2 >= 3 {
      DefaultMapCorner(nl, ni, nl - 1, ni - 1);
    }
  }

  /** The level of a cell of the default map, through its index. */
  lemma DefaultMapCorner(nl: int, ni: int, l: nat, i: nat)
    requires l < nl && i < ni
    ensures DefaultLevelMapTotal(nl, ni)[(l, i)] == Levels[CellIndex(l, i, nl + ni - 2, SafeStep(nl, ni))]
  {
    assert DefaultLevelMapTotal(nl, ni) == LevelGrid(nl, ni, nl + ni - 2, SafeStep(nl, ni));
  }

  /** The index of the origin is 0, and the far corner reaches the top level. */
  lemma CornerIndices(a: nat, b: nat, step: int)
    requires a + b > 0 ==> step > 0
    requires a + b >= 3 ==> step == (a + b) / 3
    ensures CellIndex(0, 0, a + b, step) == 0
    ensures a + b >= 3 ==> CellIndex(a, b, a + b, step) == |Levels| - 1
  {
    if a + b >= 3 {
      DivAtLeast(a + b, step);
    }
  }

  lemma DivAtLeast(span: nat, step: int)
    requires step > 0 && step * 3 <= span
    ensures span / step >= 3
  {
    var q := span / step;
    assert span < step * q + step;
    if q <= 2 {
      MulMonotone(step, q, 2);
      assert false;
    }
  }

  /** The agent's default matrix: five likelihood and five impact values. */
  const LikelihoodScale := ["Very Low", "Low", "Medium", "High", "Very High"]
  const ImpactScale := ["Insignificant", "Minor", "Moderate", "Major", "Catastrophic"]

  datatype MatrixConfig = MatrixConfig(likelihoodScale: seq<string>, impactScale: seq<string>, levelMap: map<(int, int), string>)

  /** The configuration the agent uses when none is given. */
  function DefaultMatrix(): (c: MatrixConfig)
    ensures Some(c.levelMap) == DefaultLevelMap(5, 5)
    ensures |c.likelihoodScale| == 5 && |c.impactScale| == 5
  {
    MatrixConfig(LikelihoodScale, ImpactScale, DefaultLevelMapTotal(5, 5))
  }

  /** In the default 5x5 map a cell is Low, Medium or High for index sums 0-1, 2-3 and 4-5,
      and Critical from 6 on. */
  lemma DefaultMatrixBands(l: nat, i: nat)
    requires l < 5 && i < 5
    ensures DefaultMatrix().levelMap[(l, i)] == Levels[Min((l + i) / 2, 3)]
  {
  }

  /** What a risk description carries that the assessor reads. */
  datatype RiskInfo = RiskInfo(
    category: Option<string>,
    description: Option<string>,
    contributingFactors: Option<seq<string>>,
    impactDescription: Option<string>)

  datatype Assessment =
    | MatrixAssessment(likelihood: string, impact: string, riskLevel: string, justification: string)
    | RuleAssessment(triggeredRules: seq<string>, riskLevel: string, justification: string)
    | AssessmentError(error: string)

  const EmptyChoice := "Cannot choose from an empty sequence"
  const UndefinedLevel := "Undefined"

  /** The base sentence of a matrix justification. */
  function MatrixBase(likelihood: string, impact: string): (b: string)
    ensures Text.IsPrefix("Assessed based on general understanding. Likelihood estimated as " + likelihood, b)
    ensures Text.IsSuffix(", Impact as " + impact + ".", b)
  {
    var b := "Assessed based on general understanding. Likelihood estimated as " + likelihood + ", Impact as " + impact + ".";
    ThreeParts("Assessed based on general understanding. Likelihood estimated as " + likelihood, ", Impact as ", impact + ".");
    assert b == "Assessed based on general understanding. Likelihood estimated as " + likelihood + ", Impact as " + (impact + ".");
    b
  }

  /** The note on contributing factors: empty exactly when the risk names none. */
  function FactorsNote(info: RiskInfo): (n: string)
    ensures n == "" <==> info.contributingFactors.None?
    ensures info.contributingFactors.Some? ==> n == " Factors considered: " + Text.Join(info.contributingFactors.value, ", ") + "."
  {
    if info.contributingFactors.Some? then " Factors considered: " + Text.Join(info.contributingFactors.value, ", ") + "." else ""
  }

  /** The note on the potential impact: empty exactly when the risk describes none. */
  function ImpactNote(info: RiskInfo): (n: string)
    ensures n == "" <==> info.impactDescription.None?
    ensures info.impactDescription.Some? ==> n == " Potential Impact: " + info.impactDescription.value + "."
  {
    if info.impactDescription.Some? then " Potential Impact: " + info.impactDescription.value + "." else ""
  }

  /** The matrix justification: the base sentence, then the factors note, then the impact note,
      each note present exactly when its field is. */
  function MatrixJustification(likelihood: string, impact: string, info: RiskInfo): (j: string)
    ensures j == MatrixBase(likelihood, impact) + FactorsNote(info) + ImpactNote(info)
    ensures Text.IsPrefix(MatrixBase(likelihood, impact) + FactorsNote(info), j)
    ensures Text.IsSuffix(ImpactNote(info), j)
    ensures info.contributingFactors.Some? ==>
      Text.Contains(j, " Factors considered: " + Text.Join(info.contributingFactors.value, ", ") + ".")
    ensures info.contributingFactors.None? ==> j == MatrixBase(likelihood, impact) + ImpactNote(info)
    ensures info.impactDescription.None? ==> j == MatrixBase(likelihood, impact) + FactorsNote(info)
    ensures info.contributingFactors.None? && info.impactDescription.None? ==> j == MatrixBase(likelihood, impact)
  {
    var base, factors, impactNote := MatrixBase(likelihood, impact), FactorsNote(info), ImpactNote(info);
    ThreeParts(base, factors, impactNote);
    assert base + factors + impactNote == (base + factors) + impactNote;
    base + factors + impactNote
  }

  lemma ThreeParts(a: string, b: string, c: string)
    ensures Text.IsPrefix(a, a + b + c) && Text.Contains(a + b + c, b) && Text.IsSuffix(c, a + b + c)
    ensures b == [] && c == [] ==> a + b + c == a
  {
    Text.ContainsMiddle(a, b, c);
    assert (a + b + c)[..|a|] == a;
  }

  /** `_apply_risk_matrix`: a likelihood and an impact picked by the draws, the level of the
      cell at their first positions (`Undefined` when the map lacks it); an empty scale makes
      the pick fail. */
  function ApplyMatrix(config: MatrixConfig, info: RiskInfo, likelihoodDraw: nat, impactDraw: nat): (r: Result<Assessment>)
    ensures r.Failure? <==> config.likelihoodScale == [] || config.impactScale == []
    ensures r.Failure? ==> r.error == EmptyChoice
    ensures r.Success? ==> r.value.MatrixAssessment?
    ensures r.Success? ==>
      var a := r.value;
      && a.likelihood in config.likelihoodScale && a.impact in config.impactScale
      && (var cell := (IndexOf(config.likelihoodScale, a.likelihood), IndexOf(config.impactScale, a.impact));
          a.riskLevel == (if cell in config.levelMap then config.levelMap[cell] else UndefinedLevel))
      && a.justification == MatrixJustification(a.likelihood, a.impact, info)
  {
    if config.likelihoodScale == [] || config.impactScale == [] then Failure(EmptyChoice)
    else
      var likelihood := Choice(config.likelihoodScale, likelihoodDraw);
      var impact := Choice(config.impactScale, impactDraw);
      var cell := (IndexOf(config.likelihoodScale, likelihood), IndexOf(config.impactScale, impact));
      var level := if cell in config.levelMap then config.levelMap[cell] else UndefinedLevel;
      Success(MatrixAssessment(likelihood, impact, level, MatrixJustification(likelihood, impact, info)))
  }

  /** With scales free of repeats the cell looked up is the pair of drawn positions, so every
      cell of the map can be reached. */
  lemma {:induction false} MatrixCellIsDrawn(config: MatrixConfig, info: RiskInfo, l: nat, i: nat)
    requires l < |config.likelihoodScale| && i < |config.impactScale|
    requires Distinct(config.likelihoodScale) && Distinct(config.impactScale)
    requires (l, i) in config.levelMap
    ensures ApplyMatrix(config, info, l, i).Success?
    ensures ApplyMatrix(config, info, l, i).value.riskLevel == config.levelMap[(l, i)]
  {
    ChoiceReachable(config.likelihoodScale, l);
    ChoiceReachable(config.impactScale, i);
    FirstIndexOfDistinct(config.likelihoodScale, l);
    FirstIndexOfDistinct(config.impactScale, i);
  }

  /** The default matrix always assesses, at a level of the four. */
  lemma DefaultMatrixAlwaysLevels(info: RiskInfo, likelihoodDraw: nat, impactDraw: nat)
    ensures var r := ApplyMatrix(DefaultMatrix(), info, likelihoodDraw, impactDraw);
      r.Success? && r.value.riskLevel in Levels
  {
    var c := DefaultMatrix();
    var r := ApplyMatrix(c, info, likelihoodDraw, impactDraw);
    var l := IndexOf(c.likelihoodScale, r.value.likelihood);
    var i := IndexOf(c.impactScale, r.value.impact);
    assert (l, i) in c.levelMap;
  }

  const OutageRule := "Rule_OperationalOutage"
  const ComplianceRule := "Rule_ComplianceMention"
  const NoRuleNote := "No specific rules triggered."
  const OutageNote := "Rule triggered for potential operational outage."
  const ComplianceNote := "Rule triggered due to compliance keyword or category."

  /** The outage rule: an Operational risk whose description mentions an outage, in any case. */
  predicate OutageFires(info: RiskInfo) {
    info.category == Some("Operational") && Text.Contains(Text.Lower(info.description.GetOr("")), "outage")
  }

  /** The compliance rule: the description mentions compliance, or the category is Compliance. */
  predicate ComplianceFires(info: RiskInfo) {
    Text.Contains(Text.Lower(info.description.GetOr("")), "compliance") || info.category == Some("Compliance")
  }

  /** `_apply_rule_based_reasoning`: Low unless a rule fires; the compliance rule, checked
      second, decides the level and the note when both fire. */
  function ApplyRules(info: RiskInfo): (r: Assessment)
    ensures r.RuleAssessment?
    ensures r.triggeredRules == (if OutageFires(info) then [OutageRule] else []) + (if ComplianceFires(info) then [ComplianceRule] else [])
    ensures r.riskLevel in Levels
    ensures r.triggeredRules == [] <==> r.riskLevel == "Low"
    ensures r.justification == (if ComplianceFires(info) then ComplianceNote else if OutageFires(info) then OutageNote else NoRuleNote)
  {
    var afterOutage :=
      if OutageFires(info) then RuleAssessment([OutageRule], "Medium", OutageNote)
      else RuleAssessment([], "Low", NoRuleNote);
    if ComplianceFires(info) then
      RuleAssessment(afterOutage.triggeredRules + [ComplianceRule], "High", ComplianceNote)
    else afterOutage
  }

  /** The rule level of a fired rule. */
  function RuleLevel(rule: string): string {
    if rule == ComplianceRule then "High" else if rule == OutageRule then "Medium" else "Low"
  }

  /** The level the rules give is the most severe level among the rules that fired. */
  lemma RulesTakeMostSevere(info: RiskInfo)
    ensures var r := ApplyRules(info);
      (forall k :: 0 <= k < |r.triggeredRules| ==> Rank(RuleLevel(r.triggeredRules[k])) <= Rank(r.riskLevel)) &&
      (r.triggeredRules != [] ==> exists k :: 0 <= k < |r.triggeredRules| && RuleLevel(r.triggeredRules[k]) == r.riskLevel)
  {
    var r := ApplyRules(info);
    if r.triggeredRules != [] {
      var last := |r.triggeredRules| - 1;
      assert RuleLevel(r.triggeredRules[last]) == r.riskLevel;
    }
  }

  /** A compliance mention is found whatever its case. */
  lemma ComplianceMentionAnyCase(category: Option<string>, before: string, mention: string, after: string,
                                 factors: Option<seq<string>>, impact: Option<string>)
    requires Text.Lower(mention) == "compliance"
    ensures ComplianceFires(RiskInfo(category, Some(before + mention + after), factors, impact))
    ensures ApplyRules(RiskInfo(category, Some(before + mention + after), factors, impact)).riskLevel == "High"
  {
    var d := before + mention + after;
    assert Text.Lower(d) == Text.Lower(before) + "compliance" + Text.Lower(after);
    Text.ContainsMiddle(Text.Lower(before), "compliance", Text.Lower(after));
  }

  datatype QualitativeReport = QualitativeReport(kind: string, riskId: string, methodUsed: string, assessment: Assessment)

  const MatrixMethod := "RISKMATRIX"
  const RulesMethod := "RULEBASED"

  /** `perform_qualitative_assessment`: the method is matched case-insensitively; an unknown
      method falls back to the matrix and is reported as defaulted; a failure is reported under
      the requested method's name with `_Failed` appended. */
  function Perform(config: MatrixConfig, riskId: string, info: RiskInfo, requested: string,
                   likelihoodDraw: nat, impactDraw: nat): (r: QualitativeReport)
    ensures r.kind == "QualitativeAssessment" && r.riskId == riskId
    ensures Text.Upper(requested) == RulesMethod ==> r.assessment == ApplyRules(info) && r.methodUsed == requested
    ensures Text.Upper(requested) != RulesMethod ==>
      var m := ApplyMatrix(config, info, likelihoodDraw, impactDraw);
      && (m.Success? ==> r.assessment == m.value)
      && (m.Success? && Text.Upper(requested) == MatrixMethod ==> r.methodUsed == requested)
      && (m.Success? && Text.Upper(requested) != MatrixMethod ==> r.methodUsed == "RiskMatrix (Defaulted)")
      && (m.Failure? ==> r.assessment == AssessmentError("An error occurred during assessment: " + m.error)
                         && r.methodUsed == requested + "_Failed")
    ensures r.assessment.AssessmentError? <==> Text.Upper(requested) != RulesMethod && (config.likelihoodScale == [] || config.impactScale == [])
  {
    var upper := Text.Upper(requested);
    if upper == RulesMethod then
      QualitativeReport("QualitativeAssessment", riskId, requested, ApplyRules(info))
    else
      match ApplyMatrix(config, info, likelihoodDraw, impactDraw)
      case Success(a) =>
        QualitativeReport("QualitativeAssessment", riskId,
          if upper == MatrixMethod then requested else "RiskMatrix (Defaulted)", a)
      case Failure(e) =>
        QualitativeReport("QualitativeAssessment", riskId, requested + "_Failed",
          AssessmentError("An error occurred during assessment: " + e))
  }

  /** Methods that differ only in letter case give the same assessment. */
  lemma MethodCaseInsensitive(config: MatrixConfig, riskId: string, info: RiskInfo, a: string, b: string,
                              likelihoodDraw: nat, impactDraw: nat)
    requires Text.Upper(a) == Text.Upper(b)
    ensures Perform(config, riskId, info, a, likelihoodDraw, impactDraw).assessment ==
            Perform(config, riskId, info, b, likelihoodDraw, impactDraw).assessment
  {
  }

  /** With the default matrix every method yields an assessment, never an error. */
  lemma DefaultConfigNeverFails(riskId: string, info: RiskInfo, requested: string, likelihoodDraw: nat, impactDraw: nat)
    ensures !Perform(DefaultMatrix(), riskId, info, requested, likelihoodDraw, impactDraw).assessment.AssessmentError?
  {
  }
}
