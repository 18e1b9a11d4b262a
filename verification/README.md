# AutoFRM agents in Dafny

AutoFRM is a risk-management system built from conversational agents. This project models the four agents that hold its deterministic logic, with their inputs made explicit, and proves properties of the model:

- **Monitoring & reporting agent** (`Agents/monitoring_reporter.py`). Modules `MonitorState`, `MonitorCycle` and `MonitorReport`.
  - `setup_monitoring` registers a risk with its KRIs (key risk indicators) and controls. It merges supplied KRI definitions and starts tracking new controls as `Unknown`.
  - `run_monitoring_cycle` checks every KRI of every `Active` risk that has a non-empty definition against its threshold and checks each control once. It updates control statuses and appends the alerts to a 50-entry buffer.
  - `generate_report` counts risks, KRI definitions and control statuses, and returns the ten latest alerts.
- **Response strategy agent** (`Agents/response_strategist.py`). Module `Strategy`.
  - Looks up the risk appetite guidance for a category and level.
  - Chooses one of the guidance's `/`-separated options, and accepts Low risks unless the category has its own `Low` entry.
  - Attaches actions: the first two relevant library controls for Mitigate, or a fixed catalogue otherwise.
  - Writes a rationale.
  - `develop_response_strategies` does this for every eligible risk, under optional overrides of the configuration.
- **Qualitative assessor** (`Agents/qualitative_assessor.py`). Module `Qualitative`.
  - Builds the default level map from the index sum of a cell.
  - Applies the likelihood/impact matrix, or the two rule-based rules.
  - `perform_qualitative_assessment` dispatches on the method case-insensitively, with the matrix as the default and a `_Failed` report when the matrix cannot draw.
- **Quantitative assessor** (`Agents/quantitative_assessor.py`). Module `Quantitative`.
  - Parametric VaR with its `VaR_<percent>_<days>day` key and its data guard.
  - The stress test with its default scenario.
  - The Monte Carlo summary.
  - The case-insensitive dispatch with an `Unsupported` result.

Supporting modules:

- `Optional`: the `Option` and `Result` types.
- `Collections`: distinct sequences, subsequences, `LastN` for Python's `[-n:]`, and `Choice` for `random.choice`.
- `Text`: ASCII case mapping, `split`, `join` and substring tests.
- `Decimal`: `str()` of integers.
- `MainConfig`: the example configuration of `main.py`, and facts about what the agents do with it.

What the source leaves to chance or to the outside world is an explicit input of the model:

- **KRI readings:** a function from (risk, KRI) to a value or a fetch failure.
- **Control checks:** a function from control to Effective, Ineffective or a failed check.
- **The clock:** a timestamp string.
- **Each `random.choice`:** a natural-number draw, taken modulo the number of options.
- **The normal quantile and the square root:** functions carried in a `Numerics` record.
- **The two Monte Carlo uniforms:** also carried in the `Numerics` record.

Python dictionaries are modelled in two ways:

- As Dafny maps, with a separate insertion-order sequence where iteration order matters (the monitored risks).
- As sequences of pairs with first-match lookup (the quantitative data tables).

Points of behaviour the model keeps as the code has them:

- Only `>`, `<` and `==` can breach; any other operator never alerts (`MonitorCycle.Breached`).
- The stress test uses the `Generic Stress` scenario only when no scenario name is passed. An unknown name is reported under that name, with the passed details or the default shock.
- A strategy option is chosen by a random draw. Relevant controls keep library order.
- The report counts Active risks, and tracked controls by exact status.
- A supplied definition for a KRI newly added to a risk replaces any stored definition of that KRI.
- For a few small scale sizes, building the default level map divides by zero (see Findings).

## Model

| member | source | states |
|---|---|---|
| MonitorState.NewMonitor | Agents/monitoring_reporter.py:81-84 | A new agent holds exactly the supplied KRI definitions: no risks, no tracked controls, an empty alert buffer, and a consistent risk order. |
| MonitorState.AppendNew | Agents/monitoring_reporter.py:121-126 | The ids added to a risk's list are exactly the requested ids not yet listed, each once, in the order of their first request. This fixes the result even when a request repeats an id. |
| MonitorState.FirstRequestOrderUnique | Agents/monitoring_reporter.py:121-126 | Two repeat-free lists of the same ids, both in first-request order, are equal. So `AppendNew`'s contract determines its result. |
| MonitorState.AppendNewKeepsDistinct | Agents/monitoring_reporter.py:134-139 | Appending only unlisted ids keeps a risk's KRI and control lists free of repeats. |
| MonitorState.StoreDefinitions | Agents/monitoring_reporter.py:127-130 | A definition is stored only for a newly added KRI that has a supplied definition, and replaces the old one. Every other definition is kept. |
| MonitorState.TrackControls | Agents/monitoring_reporter.py:140-142 | A newly listed control not yet tracked starts as Unknown with no check time. Tracked controls are untouched. |
| MonitorState.Setup | Agents/monitoring_reporter.py:96-150 | After setup the risk is monitored: Active if it was new, otherwise with its status kept. Other risks, the alert buffer and existing control statuses are unchanged. The confirmation lists exactly the KRIs and controls added, which are what `AppendNew` computes for each list: the new ids, once each, in first-request order. |
| MonitorState.SetupKeepsInvariants | Agents/monitoring_reporter.py:118-139 | Setup keeps the risk order listing each monitored risk once, and keeps each risk's KRI and control lists free of repeats. |
| MonitorState.SetupIdempotent | Agents/monitoring_reporter.py:118-142 | Repeating a setup call with the same arguments changes nothing and reports nothing added. |
| MonitorState.SetupOfPresent | Agents/monitoring_reporter.py:118-142 | Setting up a monitored risk with KRIs and controls it already lists leaves the agent as it was. |
| MonitorCycle.KriOutcome | Agents/monitoring_reporter.py:167-196 | One KRI check gives at most one alert. It alerts exactly when the fetch failed or the reading breaches the definition's operator and threshold (defaults `>` and 100), and the alert carries that reading. |
| MonitorCycle.RiskKriAlerts | Agents/monitoring_reporter.py:160-196 | A risk's alerts concern only its listed KRIs that have a definition, each explained by that KRI's reading. There are no more alerts than defined KRI listings. |
| MonitorCycle.RiskKriAlertsOncePerKri | Agents/monitoring_reporter.py:160-196 | A risk whose KRI list has no repeats gets at most one alert per KRI. |
| MonitorCycle.MonitorKris | Agents/monitoring_reporter.py:152-198 | Every KRI alert comes from a defined KRI of an Active risk whose reading flags. There are no more alerts than (Active risk, defined KRI) listings. |
| MonitorCycle.MonitorKrisOncePerPair | Agents/monitoring_reporter.py:158-196 | In a state whose risk order lists each risk once and whose risks list no KRI twice, a cycle raises at most one KRI alert per (risk, KRI) pair. |
| MonitorCycle.MonitorKrisComplete | Agents/monitoring_reporter.py:158-176 | Conversely, every flagging reading of a defined KRI of an Active risk produces an alert for that risk and KRI. |
| MonitorCycle.CheckControls | Agents/monitoring_reporter.py:200-236 | Each control of an Active risk is checked exactly once per cycle, even when shared. The issues are exactly the failed or ineffective checks, in check order. An Ineffective verdict gives a control issue with the ineffectiveness message, and a failed check gives a failure carrying its error. Each issue is attributed to the first Active risk in order that lists the control. Statuses are stamped for checks that returned and unchanged otherwise. |
| MonitorCycle.SummaryDeterminesCounts | Agents/monitoring_reporter.py:258 | The summary sentence determines both the alert count and the issue count. |
| MonitorCycle.RunCycle | Agents/monitoring_reporter.py:238-268 | A cycle reports its start time `now` as its timestamp, and every control it checks successfully carries that same time. It reports the KRI alerts of `MonitorKris` and the issues of `CheckControls`, and takes its new control table from `CheckControls`. It leaves risks, order and definitions unchanged and never drops a tracked control. The buffer becomes the last 50 entries of the old buffer followed by the KRI alerts and then the control issues. |
| MonitorCycle.RecentAlertsAreLatest | Agents/monitoring_reporter.py:253-256 | Over any sequence of cycles the buffer holds the 50 latest alerts ever emitted, oldest evicted first. |
| MonitorReport.GenerateReport | Agents/monitoring_reporter.py:270-311 | The report type tag is the capitalized type plus `RiskReport`. The counts are those of risks, of Active risks, of KRI definitions, of tracked controls and of controls with each exact status. Active ≤ total, and the three status counts sum to at most the tracked controls. The recent alerts are the buffer's last min(10, size) entries. |
| MonitorReport.NewMonitorReport | Agents/monitoring_reporter.py:284-302 | A new agent reports zero risks, zero controls and no alerts, and as many KRI definitions as it was given. |
| MonitorReport.SetupReport | Agents/monitoring_reporter.py:118-119 | Setting up an unmonitored risk raises the total and the active count by one. Setting up a monitored one changes neither. The recent alerts stay the same. |
| MonitorReport.SetupKeepsControlCounts | Agents/monitoring_reporter.py:140-142 | Setup leaves the Effective and Ineffective counts alone. The Unknown count grows by the number of newly tracked controls. |
| MonitorReport.CycleReportWindow | Agents/monitoring_reporter.py:254-256 | After a cycle the report's risk and KRI counts are unchanged, tracked controls do not shrink, and the recent alerts are the last ten of the old buffer plus the cycle's alerts. |
| Strategy.Guidance | Agents/response_strategist.py:90-95 | Guidance is the category's entry for the level, else the category's `Default` entry, else `Accept`. |
| Strategy.GuidanceIsPerCategory | Agents/response_strategist.py:92-94 | Guidance depends on the asked category's entries only. |
| Strategy.TopLevelDefaultIgnored | Agents/response_strategist.py:92-94 | A top-level `Default` category never serves as a fallback for another category. |
| Strategy.ChooseOption | Agents/response_strategist.py:135-136 | The chosen strategy is one of the guidance's `/`-separated options. A guidance without `/` is chosen as is. |
| Strategy.EveryOptionReachable | Agents/response_strategist.py:135-136 | Every option of the guidance is chosen by some draw. |
| Strategy.PrimaryStrategy | Agents/response_strategist.py:135-141 | A Low risk whose category has no `Low` entry gets Accept. Otherwise, including a Low risk whose category has its own `Low` entry, the strategy is the option chosen by the draw. |
| Strategy.ExplicitLowFollowed | Agents/response_strategist.py:139-141 | With an explicit `Low` entry, a Low risk gets an option of that entry. |
| Strategy.Relevant | Agents/response_strategist.py:109 | The filtered controls are the High- or Medium-effectiveness controls, each as often as the library lists it, in library order. |
| Strategy.RelevantAppend | Agents/response_strategist.py:109 | The filter distributes over concatenation, so it works element by element. |
| Strategy.SuggestControls | Agents/response_strategist.py:97-117 | There are one or two suggestions. They are labels of relevant controls when any exist, otherwise the monitoring and contingency suggestions. |
| Strategy.SuggestionsInOrder | Agents/response_strategist.py:109-110 | With relevant controls, the suggestions are the labels of the first two, in order. |
| Strategy.FirstRelevantLeads | Agents/response_strategist.py:109-110 | The first relevant control of the category is the first suggestion. |
| Strategy.Actions | Agents/response_strategist.py:143-152 | There are actions exactly for Mitigate, Transfer, Avoid and Accept. Mitigate gets the control suggestions. Transfer, Avoid and Accept each get their own fixed catalogue. Any other strategy gets none. |
| Strategy.Rationale | Agents/response_strategist.py:154-161 | The rationale is the level sentence, the appetite sentence quoting the guidance, the chosen-strategy sentence, and a closing note. The note is the acceptance note for Accept and the focus note for another strategy with actions. Otherwise there is no note, so the rationale ends with the chosen strategy. |
| Strategy.StrategyFor | Agents/response_strategist.py:119-167 | A risk's strategy is `PrimaryStrategy` of its category (default `General`) and level (default `Medium`), so it is Accept or an option of its appetite guidance. Its actions are `Actions` of that strategy, and its rationale is `Rationale` of its level, category, guidance, strategy and actions. |
| Strategy.LowRiskAccepted | Agents/response_strategist.py:139-161 | A Low risk without a category `Low` entry is accepted with the accept actions and the acceptance note, for any draw. |
| Strategy.StrategyDependsOnLevelAndCategory | Agents/response_strategist.py:119-167 | Risks that share category, level and description get the same entry for the same draw. |
| Strategy.Pick | Agents/response_strategist.py:192-193 | A missing or empty override falls back to the stored configuration; otherwise the override is used. |
| Strategy.Strategies | Agents/response_strategist.py:200-211 | The result is keyed by exactly the ids of the eligible risks: those with an id and an assessed level. |
| Strategy.StrategiesLastWins | Agents/response_strategist.py:202-211 | An id's entry comes from the last eligible risk with that id. |
| Strategy.Develop | Agents/response_strategist.py:169-230 | The report covers exactly the eligible risks, each under the effective configuration (override or stored). |
| Strategy.IneligibleIgnored | Agents/response_strategist.py:203-209 | A risk without an id or without an assessed level changes nothing. |
| Strategy.SamePrefix | Agents/response_strategist.py:202-211 | The entries built so far depend only on the risks seen so far. |
| Qualitative.DefaultLevelMap | Agents/qualitative_assessor.py:94-104 | As written: the map fails exactly for the sizes where the step `(nl+ni-2)//3` is 0 but a cell is visited. Otherwise it maps exactly the grid cells to levels. |
| Qualitative.TwoByTwoDividesByZero | Agents/qualitative_assessor.py:102 | The 2×2, 1×2 and 3×1 default maps cannot be built. |
| Qualitative.DefaultLevelMapTotal | Agents/qualitative_assessor.py:95-104 | The corrected map is defined for every size, maps exactly the grid cells to levels, and equals the as-written map wherever that exists. |
| Qualitative.DefaultMapMonotone | Agents/qualitative_assessor.py:102 | The default map never lowers the level when likelihood or impact rises. |
| Qualitative.DefaultMapCorners | Agents/qualitative_assessor.py:102 | The lowest cell is Low; the highest is Critical once the index span is at least 3. |
| Qualitative.DefaultMatrix | Agents/qualitative_assessor.py:86-90 | The default configuration has five-label scales and the as-written 5×5 map, which exists. |
| Qualitative.DefaultMatrixBands | Agents/qualitative_assessor.py:95-104 | In the default 5×5 map, cell (l, i) has level number min((l+i)//2, 3). |
| Collections.IndexOf | Agents/qualitative_assessor.py:119-120 | `list.index` gives the first position of the label. |
| Qualitative.MatrixBase | Agents/qualitative_assessor.py:124 | The base sentence names the likelihood and then the impact. |
| Qualitative.FactorsNote | Agents/qualitative_assessor.py:125-126 | The factors note is empty exactly when the risk gives no contributing factors; otherwise it lists them joined by ", ". |
| Qualitative.ImpactNote | Agents/qualitative_assessor.py:127-128 | The impact note is empty exactly when the risk gives no impact description; otherwise it quotes it. |
| Qualitative.MatrixJustification | Agents/qualitative_assessor.py:123-128 | The justification is the base sentence, then the factors note, then the impact note. So the factors are quoted right after the base sentence exactly when present, and the impact description ends the text exactly when present. |
| Qualitative.ApplyMatrix | Agents/qualitative_assessor.py:107-136 | The matrix fails exactly when a scale is empty. Otherwise the picks come from their scales and the level is the map's entry at their first positions, or `Undefined`. |
| Qualitative.MatrixCellIsDrawn | Agents/qualitative_assessor.py:114-121 | With repeat-free scales, every cell of the map is reached by some pair of draws. |
| Qualitative.DefaultMatrixAlwaysLevels | Agents/qualitative_assessor.py:114-121 | With the default configuration the matrix always succeeds with one of the four levels. |
| Qualitative.ApplyRules | Agents/qualitative_assessor.py:138-164 | The rules fire in order: outage, then compliance. The level is Low exactly when none fires, and the justification is the last fired rule's. |
| Qualitative.RulesTakeMostSevere | Agents/qualitative_assessor.py:149-157 | The resulting level is the most severe level of the fired rules. |
| Qualitative.ComplianceMentionAnyCase | Agents/qualitative_assessor.py:154-157 | A description mentioning compliance in any letter case makes the risk High. |
| Qualitative.Perform | Agents/qualitative_assessor.py:166-213 | Dispatch is case-insensitive. An unknown method uses the matrix and is marked `RiskMatrix (Defaulted)`. A failure is reported as `<method>_Failed` with the error text. An error occurs exactly when a non-rule method meets an empty scale. |
| Qualitative.MethodCaseInsensitive | Agents/qualitative_assessor.py:190-198 | Methods that differ only in case give the same assessment. |
| Qualitative.DefaultConfigNeverFails | Agents/qualitative_assessor.py:189-203 | With the default configuration no method yields an error. |
| Quantitative.Lookup | Agents/quantitative_assessor.py:90-91 | `dict.get` gives the default for a missing key, and the value of a binding at the head of the table. |
| Quantitative.LookupFirst | Agents/quantitative_assessor.py:90-91 | A present key's value is that of its first binding. |
| Quantitative.Trunc | Agents/quantitative_assessor.py:99 | `int()` truncates toward zero. |
| Quantitative.VarKeyFields | Agents/quantitative_assessor.py:99 | The VaR key splits on `_` into `VaR`, the percent, and the days with `day`. |
| Quantitative.VarKeyInjective | Agents/quantitative_assessor.py:99 | Different (percent, days) pairs never share a VaR key. |
| Quantitative.CalculateVar | Agents/quantitative_assessor.py:85-105 | VaR fails with the insufficient-data error exactly when value or volatility is not positive. Otherwise it reports the key, the parametric formula, the method name and the three assumption texts of `VarAssumptions`. |
| Quantitative.VarAssumptions | Agents/quantitative_assessor.py:101 | The assumptions are three texts: normal returns, `<days> day horizon` and `<confidence × 100>% confidence`. |
| Quantitative.HorizonAssumptionInjective | Agents/quantitative_assessor.py:101 | The horizon text determines the horizon. |
| Quantitative.DefaultVarAssumptions | Agents/quantitative_assessor.py:92-101 | With no parameters the assumptions read `1 day horizon` and `95.0% confidence`. |
| Quantitative.DefaultVarKey | Agents/quantitative_assessor.py:92-99 | Without parameters the key is `VaR_95_1day`. |
| Quantitative.VarSign | Agents/quantitative_assessor.py:95-97 | With a positive quantile and square root, a computed VaR is positive. |
| Quantitative.VarScales | Agents/quantitative_assessor.py:97 | Scaling the portfolio value scales the VaR by the same factor and keeps its key. |
| Quantitative.StressTest | Agents/quantitative_assessor.py:108-124 | The scenario and details default to `Generic Stress` and a −10% market shock. The impact is value times shock. |
| Quantitative.DefaultStressLosesTenth | Agents/quantitative_assessor.py:112-118 | Without scenario details the impact is a tenth of the portfolio value, lost. |
| Quantitative.NoShockNoImpact | Agents/quantitative_assessor.py:117-118 | Details without a market shock give zero impact. |
| Quantitative.MonteCarlo | Agents/quantitative_assessor.py:126-142 | The simulation count defaults to 10000. The mean is the value moved by the mean draw, and the spread is the value times the spread draw. |
| Quantitative.MonteCarloBounds | Agents/quantitative_assessor.py:132-133 | For draws in their uniform ranges and a positive value, the mean is within 5% of the value and the spread is 1–10% of it. |
| Quantitative.Perform | Agents/quantitative_assessor.py:144-200 | Dispatch is case-insensitive over VAR, STRESSTEST and MONTECARLO. Anything else is `Unsupported` with its error text. The report echoes the parameters (empty when absent) and the data keys. |
| Quantitative.TypeCaseInsensitive | Agents/quantitative_assessor.py:172-177 | Types that differ only in case give the same results. |
| Text.Upper | Agents/qualitative_assessor.py:190 | `str.upper` maps each character to its upper case. |
| Text.Lower | Agents/response_strategist.py:159 | `str.lower` maps each character to its lower case. |
| Text.Capitalize | Agents/monitoring_reporter.py:308 | `str.capitalize` upper-cases the first character and lower-cases the rest. |
| Text.CapitalizeIdempotent | Agents/monitoring_reporter.py:308 | Capitalizing twice is capitalizing once. |
| Text.UpperForgetsCase | Agents/quantitative_assessor.py:172-176 | Upper-casing erases earlier case changes. |
| Text.Split | Agents/response_strategist.py:135 | `str.split` gives at least one part, and no part contains the separator. |
| Text.JoinSplit | Agents/response_strategist.py:135 | Joining the parts of a split restores the string. |
| Text.SplitJoin | Agents/response_strategist.py:135 | Splitting a join of separator-free parts restores the parts. |
| Decimal.IntToString | Agents/quantitative_assessor.py:99 | `str()` of an integer is a non-empty string of digits and a sign. |
| Decimal.ParseNatToString | Agents/quantitative_assessor.py:99 | Reading back the decimal form of a natural number gives the number. |
| Decimal.IntToStringInjective | Agents/quantitative_assessor.py:99 | Different integers have different decimal forms. |
| Collections.LastN | Agents/monitoring_reporter.py:256 | For n > 0, `[-n:]` keeps the last min(n, size) elements. |
| Collections.LastNOfLastN | Agents/monitoring_reporter.py:254-256 | Trimming after each extension equals trimming once at the end. |
| Collections.Choice | Agents/response_strategist.py:136 | `random.choice` returns an element of the options. |
| Collections.ChoiceReachable | Agents/response_strategist.py:136 | Every option is returned by some draw. |
| MainConfig.LevelMapDiffersFromDefault | main.py:58-64 | The example map is not the generated default: cell (4, 0) is Medium there and High in the default. |
| MainConfig.TopCellIsCritical | main.py:54-65 | With the example matrix, the top likelihood and top impact give Critical. |
| MainConfig.UnnamedCategoryAccepts | main.py:46-52 | A category the example appetite does not name gets Accept, although its `Default` category says Avoid/Transfer for Critical. |
| MainConfig.LowComplianceMitigated | main.py:50 | A Low Compliance risk is mitigated, because Compliance has its own `Low` entry. |
| MainConfig.LowOperationalAccepted | main.py:47 | A Low Operational risk is accepted. |
| MainConfig.ExplicitLowEntry | Agents/response_strategist.py:135-141 | A Low risk of a category whose `Low` entry is a single option gets exactly that option. |
| MainConfig.FinancialSuggestions | main.py:67-82 | Financial mitigation suggests only the diversification control. The hedging control's `Medium-High` effectiveness is filtered out. |
| MainConfig.OperationalSuggestions | main.py:67-82 | Operational mitigation suggests the first two of its three relevant controls. |
| MainConfig.KriExamples | main.py:84-89 | KRI_CPU alerts at 95 but not at 85 or 90. KRI_NPS alerts at 25 but not at 30. |

## Left out

- MonitorState.NewMonitor: only the initial KRI definitions are a parameter. The agent also accepts initial risk and control tables, which `main.py` never passes; here they start empty.
- Logging, the autogen agent classes, function registration and the LLM configuration: they do not affect results.
- `main.py`'s group chat and its prompt-driven workflow: the workflow is prose in a prompt, not code.
- The scanner and analyst agents (`Agents/internal_scanner.py`, `Agents/external_monitor.py`, `Agents/market_analyst.py`) are not part of this model.
- Randomness, the clock and the KRI and control data sources: they are inputs of the model (see above), not computed.
- MonitorCycle.KriOutcome: the agent draws a reading between a definition's `min_val` (default 0) and `max_val` (default 200). The model accepts any reading.
- Strategy.Develop: the `except` branch that reports an error and restores the configuration is not modelled, because no step of the model can fail.
- `round(x, 2)` on VaR, stress impact and Monte Carlo figures, and on the KRI reading in an alert: values are exact reals.
- Floating point in general. `int(confidence_level*100)` is exact truncation of a real here, whereas in floats `int(0.29*100)` is 28.
- Quantitative.MonteCarlo: the two uniform draws are inputs. Their ranges (−0.05 to 0.05 and 0.01 to 0.1) are a hypothesis of `Quantitative.MonteCarloBounds`, not a property of `Quantitative.MonteCarlo`.
- Quantitative.Perform: the generic `except` branch (`<type>_Failed`) is not modelled. Every call of the model returns, and the inputs are typed: data values are reals, so no comparison can raise.
- The `message` text of a KRI-breach alert and the message of the setup confirmation are not modelled. A breach alert carries its structured fields: risk, KRI, threshold, operator and reading. The control-issue message and the error texts of failures are modelled.
- MonitorCycle.RunCycle: the constant `source` (the agent's name) and `type` (`MonitoringCycleResults`) fields of the result are not modelled. The `timestamp` is `now`, the one clock value of the cycle, taken as its start time.
- Quantitative.CalculateVar: the confidence assumption prints `confidence_level*100` as a Python float. The model takes that float text as a caller-supplied function, `showFloat`, applied to the exact real product.
- MonitorCycle.CheckControls: the agent reads the clock once per checked control. The model stamps every control checked in a cycle with one clock value, `now`.
- Quantitative.Perform: a data table is a sequence of pairs, so it may repeat a key, which a dictionary cannot. Lookup takes the first binding, and the echoed data keys may then repeat.
- Quantitative.Perform: the parameters are the five the assessments read. The echoed parameters therefore omit any other key a caller passes.
- Python value types beyond those modelled. A `risk_level` key holding `None`, non-string categories and non-numeric thresholds are outside the model.
- The key order of the returned dictionaries. `Strategy.Develop` returns a map.
- `Text.Upper`, `Text.Lower` and `Text.Capitalize` map ASCII letters only. Unicode case mapping is not modelled.
- `suggestions[:3]` in `_suggest_controls` is not modelled separately: there are never more than two suggestions.
- `generate_report`'s report time and the agent name in reports are not modelled.
- The example map in `main.py`: only the facts listed under `MainConfig` are proved about it. Its totality and monotonicity are not.

## Findings

| source | as written | input that shows it | evidently intended | confidence | as-written member | corrected member |
|---|---|---|---|---|---|---|
| Agents/qualitative_assessor.py:102 | The step `(nl + ni - 2) // 3` is 0 when the index span is 1 or 2, and `(l + i) // 0` raises ZeroDivisionError. | `_default_level_map(2, 2)`; also (1, 2) and (3, 1) | A map for every size, with the step at least 1 (as it already is for 5×5). | not executed | Qualitative.DefaultLevelMap, Qualitative.TwoByTwoDividesByZero | Qualitative.DefaultLevelMapTotal, Qualitative.DefaultMapMonotone |

Also modelled as written: the rationale's focus note appends `ing` to the lower-cased strategy, which gives `mitigateing` and `transfering` (`Strategy.Rationale`).
