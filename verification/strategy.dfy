/** The response-strategy agent (Agents/response_strategist.py): a primary strategy per assessed
    risk from the company's risk appetite, the actions that go with it, and a rationale.
    `random.choice` is an oracle: the caller supplies a draw for each risk, and the choice is the
    guidance option at that draw modulo the number of options. */
module Strategy {
  import opened Optional
  import opened Collections
  import Text

  /** Risk appetite: category, then risk level (or `Default`), to a guidance string such as
      `Mitigate` or `Avoid/Transfer`. */
  type Appetite = map<string, map<string, string>>

  /** One control of the library; each field may be missing. */
  datatype LibraryControl = LibraryControl(id: Option<string>, name: Option<string>, effectiveness: Option<string>)

  /** Control library: category to its controls, in library order. */
  type Library = map<string, seq<LibraryControl>>

  datatype Assessment = Assessment(riskLevel: Option<string>)

  /** One entry of the prioritised risk list; each field may be missing. */
  datatype RiskItem = RiskItem(
    riskId: Option<string>,
    category: Option<string>,
    description: Option<string>,
    assessment: Option<Assessment>)

  datatype StrategyEntry = StrategyEntry(strategy: string, suggestions: seq<string>, rationale: string)

  datatype Config = Config(appetite: Appetite, library: Library)

  const DefaultKey := "Default"
  const Accept := "Accept"
  const Mitigate := "Mitigate"
  const Transfer := "Transfer"
  const Avoid := "Avoid"
  const LowLevel := "Low"
  const DefaultLevel := "Medium"
  const DefaultCategory := "General"

  /** `risk_appetite.get(category, {})` */
  function CategoryAppetite(appetite: Appetite, category: string): map<string, string> {
    if category in appetite then appetite[category] else map[]
  }

  /** `_get_appetite_guidance`: the category's entry for the level, else the category's
      `Default` entry, else `Accept`. A top-level `Default` category is never consulted for
      another category. */
  function Guidance(appetite: Appetite, category: string, level: string): (g: string)
    ensures category in appetite && level in appetite[category] ==> g == appetite[category][level]
    ensures category in appetite && level !in appetite[category] && DefaultKey in appetite[category] ==>
      g == appetite[category][DefaultKey]
    ensures category !in appetite || (level !in appetite[category] && DefaultKey !in appetite[category]) ==>
      g == Accept
  {
    var entries := CategoryAppetite(appetite, category);
    if level in entries then entries[level]
    else if DefaultKey in entries then entries[DefaultKey]
    else Accept
  }

  /** Guidance for a category depends on that category's entries only; in particular a
      top-level `Default` category is never a fallback for another category. */
  lemma GuidanceIsPerCategory(a: Appetite, b: Appetite, category: string, level: string)
    requires category in a <==> category in b
    requires category in a ==> a[category] == b[category]
    ensures Guidance(a, category, level) == Guidance(b, category, level)
  {
  }

  lemma TopLevelDefaultIgnored(a: Appetite, category: string, level: string)
    requires category != DefaultKey
    ensures Guidance(a, category, level) == Guidance(a - {DefaultKey}, category, level)
  {
    GuidanceIsPerCategory(a, a - {DefaultKey}, category, level);
  }

  /** `random.choice(guidance.split('/'))`, the draw picking the option. */
  function ChooseOption(guidance: string, draw: nat): (s: string)
    ensures s in Text.Split(guidance, '/')
    ensures '/' !in s
    ensures '/' !in guidance ==> s == guidance
  {
    SingleOption(guidance);
    Choice(Text.Split(guidance, '/'), draw)
  }

  lemma SingleOption(guidance: string)
    ensures '/' !in guidance ==> Text.Split(guidance, '/') == [guidance]
  {
    if '/' !in guidance {
      Text.SplitPlain(guidance, '/');
    }
  }

  /** Every option of the guidance can be chosen by some draw. */
  lemma EveryOptionReachable(guidance: string, i: nat)
    requires i < |Text.Split(guidance, '/')|
    ensures ChooseOption(guidance, i) == Text.Split(guidance, '/')[i]
  {
    ChoiceReachable(Text.Split(guidance, '/'), i);
  }

  /** The primary strategy: the chosen guidance option, overridden to `Accept` for a Low risk
      whose category's appetite has no explicit `Low` entry. */
  function PrimaryStrategy(appetite: Appetite, category: string, level: string, draw: nat): (s: string)
    ensures level == LowLevel && LowLevel !in CategoryAppetite(appetite, category) ==> s == Accept
    ensures s == Accept || s in Text.Split(Guidance(appetite, category, level), '/')
    ensures !(level == LowLevel && LowLevel !in CategoryAppetite(appetite, category)) ==>
      s == ChooseOption(Guidance(appetite, category, level), draw)
  {
    var chosen := ChooseOption(Guidance(appetite, category, level), draw);
    if level == LowLevel && chosen != Accept && LowLevel !in CategoryAppetite(appetite, category) then Accept
    else chosen
  }

  /** An explicit `Low` entry is followed: with one, a Low risk gets an option of that entry. */
  lemma ExplicitLowFollowed(appetite: Appetite, category: string, draw: nat)
    requires LowLevel in CategoryAppetite(appetite, category)
    ensures PrimaryStrategy(appetite, category, LowLevel, draw) in Text.Split(appetite[category][LowLevel], '/')
  {
  }

  /** The library filter: High or Medium effectiveness. */
  predicate IsRelevant(c: LibraryControl) {
    c.effectiveness == Some("High") || c.effectiveness == Some("Medium")
  }

  /** The relevant controls, in library order: every relevant control is kept as often as the
      library lists it, and no other is kept. */
  function Relevant(controls: seq<LibraryControl>): (r: seq<LibraryControl>)
    ensures forall i :: 0 <= i < |r| ==> IsRelevant(r[i])
    ensures forall c :: c in r <==> c in controls && IsRelevant(c)
    ensures forall c :: multiset(r)[c] == if IsRelevant(c) then multiset(controls)[c] else 0
    ensures Subsequence(r, controls)
  {
    if controls == [] then []
    else
      assert controls == [controls[0]] + controls[1..];
      if IsRelevant(controls[0]) then
        var rest := Relevant(controls[1..]);
        assert Subsequence([controls[0]] + rest, controls) by {
          assert ([controls[0]] + rest)[1..] == rest;
        }
        [controls[0]] + rest
      else
        var rest := Relevant(controls[1..]);
        SubsequenceSkip(rest, controls);
        rest
  }

  /** The filter distributes over concatenation: the relevant controls of two library parts are
      those of the first part followed by those of the second. */
  lemma {:induction false} RelevantAppend(a: seq<LibraryControl>, b: seq<LibraryControl>)
    ensures Relevant(a + b) == Relevant(a) + Relevant(b)
    decreases |a|
  {
    if a == [] {
      assert a + b == b;
    } else {
      assert (a + b)[0] == a[0] && (a + b)[1..] == a[1..] + b;
      RelevantAppend(a[1..], b);
    }
  }

  /** A library control as a suggestion: its name and id, with placeholders for missing ones. */
  function Label(c: LibraryControl): string {
    c.name.GetOr("Unnamed Control") + " (" + c.id.GetOr("N/A") + ")"
  }

  function MonitoringAdvice(category: string): string {
    "Implement enhanced monitoring for " + category + " risks"
  }

  function ContingencyAdvice(description: Option<string>): string {
    "Develop contingency plan for " + description.GetOr("this risk")
  }

  /** `library.get(category, [])` */
  function LibraryFor(library: Library, category: string): seq<LibraryControl> {
    if category in library then library[category] else []
  }

  /** `_suggest_controls`: the first two relevant controls of the category, or two generic
      suggestions when it has none. */
  function SuggestControls(library: Library, category: string, description: Option<string>): (r: seq<string>)
    ensures 1 <= |r| <= 2
    ensures var controls := LibraryFor(library, category);
      (exists c :: c in controls && IsRelevant(c)) ==>
        forall j :: 0 <= j < |r| ==> exists c :: c in controls && IsRelevant(c) && r[j] == Label(c)
    ensures var controls := LibraryFor(library, category);
      (forall c :: c in controls ==> !IsRelevant(c)) ==>
        r == [MonitoringAdvice(category), ContingencyAdvice(description)]
  {
    var relevant := Relevant(LibraryFor(library, category));
    if relevant == [] then [MonitoringAdvice(category), ContingencyAdvice(description)]
    else
      var top := if |relevant| <= 2 then relevant else relevant[..2];
      assert forall j :: 0 <= j < |top| ==> top[j] in relevant;
      seq(|top|, j requires 0 <= j < |top| => Label(top[j]))
  }

  /** The first relevant control of the category leads the suggestions. */
  lemma FirstRelevantLeads(library: Library, category: string, description: Option<string>, i: nat)
    requires i < |LibraryFor(library, category)| && IsRelevant(LibraryFor(library, category)[i])
    requires forall j :: 0 <= j < i ==> !IsRelevant(LibraryFor(library, category)[j])
    ensures SuggestControls(library, category, description)[0] == Label(LibraryFor(library, category)[i])
  {
    FirstRelevant(LibraryFor(library, category), i);
  }

  lemma {:induction false} FirstRelevant(controls: seq<LibraryControl>, i: nat)
    requires i < |controls| && IsRelevant(controls[i])
    requires forall j :: 0 <= j < i ==> !IsRelevant(controls[j])
    ensures |Relevant(controls)| > 0 && Relevant(controls)[0] == controls[i]
    decreases i
  {
    if i > 0 {
      FirstRelevant(controls[1..], i - 1);
    }
  }

  /** With a relevant control in the category, the suggestions are the labels of its first two
      relevant controls, in library order. */
  lemma SuggestionsInOrder(library: Library, category: string, description: Option<string>)
    ensures var relevant := Relevant(LibraryFor(library, category));
      var r := SuggestControls(library, category, description);
      relevant != [] ==>
        |r| == (if |relevant| < 2 then |relevant| else 2) &&
        forall j :: 0 <= j < |r| ==> r[j] == Label(relevant[j])
  {
  }

  const TransferActions := ["Explore relevant insurance options", "Assess outsourcing possibilities", "Review contractual risk transfer clauses"]
  const AvoidActions := ["Evaluate ceasing the associated activity", "Re-scope project/process to eliminate risk source", "Reject the proposed initiative"]
  const AcceptActions := ["Acknowledge risk and monitor", "Allocate contingency budget if applicable"]

  /** The actions that go with a strategy; a strategy outside the four gets none. */
  function Actions(strategy: string, library: Library, category: string, description: Option<string>): (r: seq<string>)
    ensures strategy in {Mitigate, Transfer, Avoid, Accept} <==> r != []
    ensures strategy == Mitigate ==> r == SuggestControls(library, category, description)
    ensures strategy == Transfer ==> r == TransferActions
    ensures strategy == Avoid ==> r == AvoidActions
    ensures strategy == Accept ==> r == AcceptActions
    ensures strategy !in {Mitigate, Transfer, Avoid, Accept} ==> r == []
  {
    if strategy == Mitigate then SuggestControls(library, category, description)
    else if strategy == Transfer then TransferActions
    else if strategy == Avoid then AvoidActions
    else if strategy == Accept then AcceptActions
    else []
  }

  /** The sentences of the rationale, in the order it writes them. */
  function LevelSentence(level: string, category: string): string {
    "Risk level assessed as '" + level + "' for '" + category + "' category. "
  }

  function AppetiteSentence(guidance: string): string {
    "Company risk appetite suggests '" + guidance + "'. "
  }

  function ChosenSentence(strategy: string): string {
    "Primary strategy chosen: " + strategy + "."
  }

  /** The focus note: the lower-cased strategy with `ing` appended, as written. */
  function FocusNote(strategy: string): string {
    " Suggested actions focus on " + Text.Lower(strategy) + "ing the risk."
  }

  const AcceptNote := " Risk accepted based on level and appetite."

  /** The closing note the rationale ends with. */
  function ClosingNote(strategy: string, actions: seq<string>): string {
    if actions != [] && strategy != Accept then FocusNote(strategy)
    else if strategy == Accept then AcceptNote
    else ""
  }

  /** The rationale: the level sentence, the appetite sentence and the chosen strategy, then
      the focus note for a strategy with actions other than Accept, the acceptance note for
      Accept, and nothing else. */
  function Rationale(level: string, category: string, guidance: string, strategy: string, actions: seq<string>): (r: string)
    ensures r == LevelSentence(level, category) + AppetiteSentence(guidance) + ChosenSentence(strategy) + ClosingNote(strategy, actions)
    ensures Text.IsPrefix(LevelSentence(level, category) + AppetiteSentence(guidance), r)
    ensures Text.Contains(r, ChosenSentence(strategy))
    ensures strategy == Accept ==> Text.IsSuffix(AcceptNote, r)
    ensures strategy != Accept && actions != [] ==> Text.IsSuffix(FocusNote(strategy), r)
    ensures strategy != Accept && actions == [] ==> Text.IsSuffix(ChosenSentence(strategy), r)
  {
    var opening := LevelSentence(level, category) + AppetiteSentence(guidance);
    var chosen := ChosenSentence(strategy);
    var note := ClosingNote(strategy, actions);
    RationaleShape(opening, chosen, note);
    opening + chosen + note
  }

  lemma RationaleShape(opening: string, chosen: string, note: string)
    ensures Text.IsPrefix(opening, opening + chosen + note)
    ensures Text.Contains(opening + chosen + note, chosen)
    ensures Text.IsSuffix(note, opening + chosen + note)
    ensures note == "" ==> Text.IsSuffix(chosen, opening + chosen + note)
  {
    Text.ContainsMiddle(opening, chosen, note);
    assert (opening + chosen + note)[..|opening|] == opening;
    if note == "" {
      assert opening + chosen + note == opening + chosen;
    }
  }

  /** The level a risk is assessed at, `Medium` when missing. */
  function LevelOf(risk: RiskItem): string {
    if risk.assessment.Some? then risk.assessment.value.riskLevel.GetOr(DefaultLevel) else DefaultLevel
  }

  /** `_generate_strategy_for_risk` under a configuration, with the draw for its choice: the
      strategy comes from the appetite's guidance, Mitigate is backed by the library's
      controls, and the rationale names the strategy. */
  function StrategyFor(config: Config, risk: RiskItem, draw: nat): (e: StrategyEntry)
    ensures var guidance := Guidance(config.appetite, risk.category.GetOr(DefaultCategory), LevelOf(risk));
      e.strategy == Accept || e.strategy in Text.Split(guidance, '/')
    ensures e.strategy == Mitigate ==>
      e.suggestions == SuggestControls(config.library, risk.category.GetOr(DefaultCategory), risk.description)
    ensures e.suggestions != [] <==> e.strategy in {Mitigate, Transfer, Avoid, Accept}
    ensures Text.Contains(e.rationale, ChosenSentence(e.strategy))
    ensures e.strategy == PrimaryStrategy(config.appetite, risk.category.GetOr(DefaultCategory), LevelOf(risk), draw)
    ensures e.suggestions == Actions(e.strategy, config.library, risk.category.GetOr(DefaultCategory), risk.description)
    ensures e.rationale == Rationale(LevelOf(risk), risk.category.GetOr(DefaultCategory),
      Guidance(config.appetite, risk.category.GetOr(DefaultCategory), LevelOf(risk)), e.strategy, e.suggestions)
  {
    var category := risk.category.GetOr(DefaultCategory);
    var level := LevelOf(risk);
    var guidance := Guidance(config.appetite, category, level);
    var strategy := PrimaryStrategy(config.appetite, category, level, draw);
    var actions := Actions(strategy, config.library, category, risk.description);
    StrategyEntry(strategy, actions, Rationale(level, category, guidance, strategy, actions))
  }

  /** A Low risk whose category's appetite has no `Low` entry is accepted, with the accept
      actions and the acceptance note, whatever the guidance and the draw. */
  lemma LowRiskAccepted(config: Config, risk: RiskItem, draw: nat)
    requires LevelOf(risk) == LowLevel
    requires LowLevel !in CategoryAppetite(config.appetite, risk.category.GetOr(DefaultCategory))
    ensures var e := StrategyFor(config, risk, draw);
      e.strategy == Accept && e.suggestions == AcceptActions && Text.IsSuffix(AcceptNote, e.rationale)
  {
  }

  /** Two risks with the same category, level and description get the same entry for the same
      draw: nothing else about a risk matters. */
  lemma StrategyDependsOnLevelAndCategory(config: Config, a: RiskItem, b: RiskItem, draw: nat)
    requires a.category == b.category && a.description == b.description && LevelOf(a) == LevelOf(b)
    ensures StrategyFor(config, a, draw) == StrategyFor(config, b, draw)
  {
  }

  /** Python's `override or stored` on a dictionary: a missing or empty override uses the stored one. */
  function Pick<K, V>(override: Option<map<K, V>>, stored: map<K, V>): (r: map<K, V>)
    ensures override.Some? && override.value != map[] ==> r == override.value
    ensures override.None? || override.value == map[] ==> r == stored
  {
    if override.Some? && override.value != map[] then override.value else stored
  }

  /** A risk is processed only with a non-empty id and an assessment carrying a level. */
  predicate Eligible(risk: RiskItem) {
    risk.riskId.Some? && risk.riskId.value != "" &&
    risk.assessment.Some? && risk.assessment.value.riskLevel.Some?
  }

  /** The strategy table after the first `n` risks, later entries for an id overwriting earlier ones. */
  function Strategies(config: Config, risks: seq<RiskItem>, draw: nat -> nat, n: nat): (r: map<string, StrategyEntry>)
    requires n <= |risks|
    ensures r.Keys == set i | 0 <= i < n && Eligible(risks[i]) :: risks[i].riskId.value
  {
    if n == 0 then map[]
    else
      var prev := Strategies(config, risks, draw, n - 1);
      var risk := risks[n - 1];
      EligibleIdsStep(risks, n);
      if Eligible(risk) then prev[risk.riskId.value := StrategyFor(config, risk, draw(n - 1))]
      else prev
  }

  /** The ids of the eligible risks among the first `n` grow by the `n`-th risk's id when it is eligible. */
  lemma EligibleIdsStep(risks: seq<RiskItem>, n: nat)
    requires 0 < n <= |risks|
    ensures (set i | 0 <= i < n && Eligible(risks[i]) :: risks[i].riskId.value) ==
      (set i | 0 <= i < n - 1 && Eligible(risks[i]) :: risks[i].riskId.value) +
      (if Eligible(risks[n - 1]) then {risks[n - 1].riskId.value} else {})
  {
  }

  /** The entry for an id is the one generated for its last eligible occurrence. */
  lemma {:induction false} StrategiesLastWins(config: Config, risks: seq<RiskItem>, draw: nat -> nat, n: nat, i: nat)
    requires i < n <= |risks| && Eligible(risks[i])
    requires forall j :: i < j < n && Eligible(risks[j]) ==> risks[j].riskId != risks[i].riskId
    ensures Strategies(config, risks, draw, n)[risks[i].riskId.value] == StrategyFor(config, risks[i], draw(i))
    decreases n
  {
    if i < n - 1 {
      StrategiesLastWins(config, risks, draw, n - 1, i);
    }
  }

  datatype StrategyReport = StrategyReport(strategies: map<string, StrategyEntry>)

  /** `develop_response_strategies`: the call-time appetite and library replace the agent's
      only when given and non-empty; ineligible risks are skipped. The agent's own
      configuration is an input and is returned to as it was. */
  function Develop(stored: Config, risks: seq<RiskItem>, appetite: Option<Appetite>, library: Option<Library>,
                   draw: nat -> nat): (r: StrategyReport)
    ensures r.strategies.Keys == set i | 0 <= i < |risks| && Eligible(risks[i]) :: risks[i].riskId.value
    ensures forall i :: (0 <= i < |risks| && Eligible(risks[i]) &&
      (forall j :: i < j < |risks| && Eligible(risks[j]) ==> risks[j].riskId != risks[i].riskId)) ==>
        r.strategies[risks[i].riskId.value] ==
          StrategyFor(Config(Pick(appetite, stored.appetite), Pick(library, stored.library)), risks[i], draw(i))
  {
    var config := Config(Pick(appetite, stored.appetite), Pick(library, stored.library));
    var table := Strategies(config, risks, draw, |risks|);
    forall i | 0 <= i < |risks| && Eligible(risks[i]) &&
      (forall j :: i < j < |risks| && Eligible(risks[j]) ==> risks[j].riskId != risks[i].riskId)
      ensures table[risks[i].riskId.value] == StrategyFor(config, risks[i], draw(i))
    {
      StrategiesLastWins(config, risks, draw, |risks|, i);
    }
    StrategyReport(table)
  }

  /** Skipped risks do not matter: dropping the ineligible entries leaves the table alone. */
  lemma {:induction false} IneligibleIgnored(config: Config, risks: seq<RiskItem>, draw: nat -> nat, n: nat, extra: RiskItem)
    requires n <= |risks| && !Eligible(extra)
    ensures Strategies(config, risks[..n] + [extra], draw, n + 1) == Strategies(config, risks, draw, n)
  {
    SamePrefix(config, risks[..n] + [extra], risks, draw, n);
  }

  lemma {:induction false} SamePrefix(config: Config, a: seq<RiskItem>, b: seq<RiskItem>, draw: nat -> nat, n: nat)
    requires n <= |a| && n <= |b| && a[..n] == b[..n]
    ensures Strategies(config, a, draw, n) == Strategies(config, b, draw, n)
    decreases n
  {
    if n > 0 {
      assert a[n - 1] == a[..n][n - 1] == b[..n][n - 1] == b[n - 1];
      assert a[..n - 1] == a[..n][..n - 1];
      assert b[..n - 1] == b[..n][..n - 1];
      SamePrefix(config, a, b, draw, n - 1);
    }
  }
}
