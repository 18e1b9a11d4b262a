/** The monitoring agent's report over its current state (Agents/monitoring_reporter.py). */
module MonitorReport {
  import opened Optional
  import opened Collections
  import opened MonitorState
  import MonitorCycle
  import Text

  const ReportWindow := 10
  const EffectiveStatus := "Effective"
  const IneffectiveStatus := "Ineffective"

  /** What `generate_report()` returns, without its clock reading and agent name. */
  datatype RiskReport = RiskReport(
    kind: string,
    reportType: string,
    totalRisks: nat,
    activeRisks: nat,
    kriDefined: nat,
    controlsTracked: nat,
    effective: nat,
    ineffective: nat,
    unknown: nat,
    recent: seq<Alert>)

  /** The risks whose status is exactly `Active`. */
  function ActiveRisks(risks: map<RiskId, MonitoredRisk>): set<RiskId> {
    set r | r in risks && risks[r].status == ActiveStatus
  }

  /** The tracked controls whose status is exactly `status`. */
  function ControlsWith(m: Monitor, status: string): set<ControlId> {
    set c | c in m.controls && m.controls[c].status == status
  }

  /** `generate_report(report_type)`: the number of risks, of Active risks, of KRI definitions,
      of tracked controls and of controls with each exact status, and the ten latest alerts.
      The status counts compare whole status strings, so they never exceed what is tracked. */
  function GenerateReport(m: Monitor, reportType: string): (r: RiskReport)
    ensures r.kind == Text.Capitalize(reportType) + "RiskReport" && r.reportType == reportType
    ensures r.totalRisks == |m.risks| && r.kriDefined == |m.kriDefs| && r.controlsTracked == |m.controls|
    ensures r.activeRisks == |ActiveRisks(m.risks)| && r.activeRisks <= r.totalRisks
    ensures r.effective == |ControlsWith(m, EffectiveStatus)| && r.ineffective == |ControlsWith(m, IneffectiveStatus)|
    ensures r.unknown == |ControlsWith(m, UnknownStatus)|
    ensures r.effective + r.ineffective + r.unknown <= r.controlsTracked
    ensures |r.recent| == if |m.recentAlerts| <= ReportWindow then |m.recentAlerts| else ReportWindow
    ensures IsSuffixOf(r.recent, m.recentAlerts)
  {
    var eff, ineff, unk := ControlsWith(m, EffectiveStatus), ControlsWith(m, IneffectiveStatus), ControlsWith(m, UnknownStatus);
    StatusCountsBounded(m, eff, ineff, unk);
    SubsetCard(ActiveRisks(m.risks), m.risks.Keys);
    RiskReport(
      Text.Capitalize(reportType) + "RiskReport", reportType,
      |m.risks|, |ActiveRisks(m.risks)|, |m.kriDefs|, |m.controls|,
      |eff|, |ineff|, |unk|,
      LastN(m.recentAlerts, ReportWindow))
  }

  predicate IsSuffixOf(a: seq<Alert>, b: seq<Alert>) {
    |a| <= |b| && b[|b| - |a|..] == a
  }

  lemma StatusCountsBounded(m: Monitor, eff: set<ControlId>, ineff: set<ControlId>, unk: set<ControlId>)
    requires eff == ControlsWith(m, EffectiveStatus)
    requires ineff == ControlsWith(m, IneffectiveStatus)
    requires unk == ControlsWith(m, UnknownStatus)
    ensures |eff| + |ineff| + |unk| <= |m.controls|
  {
    assert eff !! ineff && eff !! unk && ineff !! unk;
    SubsetCard(eff + ineff + unk, m.controls.Keys);
  }

  /** A fresh agent reports nothing. */
  lemma NewMonitorReport(defs: map<KriId, KriDef>, reportType: string)
    ensures var r := GenerateReport(NewMonitor(defs), reportType);
      r.totalRisks == 0 && r.activeRisks == 0 && r.controlsTracked == 0 &&
      r.effective == 0 && r.ineffective == 0 && r.unknown == 0 && r.recent == [] &&
      r.kriDefined == |defs|
  {
  }

  /** Setting up a risk that is not yet monitored adds one risk and one active risk to the
      report; setting up a monitored one changes neither count. */
  lemma SetupReport(m: Monitor, riskId: RiskId, kris: seq<KriId>, controls: seq<ControlId>,
                    supplied: map<KriId, KriDef>, reportType: string)
    ensures var before := GenerateReport(m, reportType);
      var after := GenerateReport(Setup(m, riskId, kris, controls, supplied).monitor, reportType);
      after.totalRisks == before.totalRisks + (if riskId in m.risks then 0 else 1) &&
      after.activeRisks == before.activeRisks + (if riskId in m.risks then 0 else 1) &&
      after.recent == before.recent
  {
    var m' := Setup(m, riskId, kris, controls, supplied).monitor;
    KeysGrowByOne(m.risks, m'.risks, riskId);
    ActiveGrows(m.risks, m'.risks, riskId);
  }

  lemma ActiveGrows(before: map<RiskId, MonitoredRisk>, after: map<RiskId, MonitoredRisk>, riskId: RiskId)
    requires after.Keys == before.Keys + {riskId}
    requires forall k :: k in before && k != riskId ==> after[k] == before[k]
    requires after[riskId].status == (if riskId in before then before[riskId].status else ActiveStatus)
    ensures |ActiveRisks(after)| == |ActiveRisks(before)| + (if riskId in before then 0 else 1)
  {
    var grown := if riskId in before then ActiveRisks(before) else ActiveRisks(before) + {riskId};
    forall r | r in after
      ensures r in ActiveRisks(after) <==> r in grown
    {
      if r != riskId {
        assert after[r] == before[r];
      }
    }
    assert ActiveRisks(after) == grown;
  }

  lemma KeysGrowByOne<K, V>(before: map<K, V>, after: map<K, V>, k: K)
    requires after.Keys == before.Keys + {k}
    ensures |after| == |before| + (if k in before then 0 else 1)
  {
    if k in before {
      assert after.Keys == before.Keys;
    } else {
      assert |before.Keys + {k}| == |before.Keys| + 1;
    }
  }

  /** Setting up a risk leaves the effective and ineffective counts alone; every control it
      starts tracking is counted as unknown. */
  lemma SetupKeepsControlCounts(m: Monitor, riskId: RiskId, kris: seq<KriId>, controls: seq<ControlId>,
                                supplied: map<KriId, KriDef>, reportType: string)
    ensures var before := GenerateReport(m, reportType);
      var after := GenerateReport(Setup(m, riskId, kris, controls, supplied).monitor, reportType);
      after.effective == before.effective && after.ineffective == before.ineffective &&
      after.unknown == before.unknown + (after.controlsTracked - before.controlsTracked)
  {
    var m' := Setup(m, riskId, kris, controls, supplied).monitor;
    ControlCounts(m, m');
  }

  lemma ControlCounts(m: Monitor, m': Monitor)
    requires m'.controls.Keys >= m.controls.Keys
    requires forall c :: c in m.controls ==> m'.controls[c] == m.controls[c]
    requires forall c :: c in m'.controls && c !in m.controls ==> m'.controls[c] == ControlStatus(UnknownStatus, None)
    ensures |ControlsWith(m', EffectiveStatus)| == |ControlsWith(m, EffectiveStatus)|
    ensures |ControlsWith(m', IneffectiveStatus)| == |ControlsWith(m, IneffectiveStatus)|
    ensures |ControlsWith(m', UnknownStatus)| == |ControlsWith(m, UnknownStatus)| + (|m'.controls| - |m.controls|)
  {
    KnownStatusKept(m, m', EffectiveStatus);
    KnownStatusKept(m, m', IneffectiveStatus);
    UnknownGrows(m, m');
  }

  /** Controls that start being tracked are Unknown, so a known status keeps its controls. */
  lemma KnownStatusKept(m: Monitor, m': Monitor, status: string)
    requires status != UnknownStatus
    requires m'.controls.Keys >= m.controls.Keys
    requires forall c :: c in m.controls ==> m'.controls[c] == m.controls[c]
    requires forall c :: c in m'.controls && c !in m.controls ==> m'.controls[c] == ControlStatus(UnknownStatus, None)
    ensures ControlsWith(m', status) == ControlsWith(m, status)
  {
  }

  lemma UnknownGrows(m: Monitor, m': Monitor)
    requires m'.controls.Keys >= m.controls.Keys
    requires forall c :: c in m.controls ==> m'.controls[c] == m.controls[c]
    requires forall c :: c in m'.controls && c !in m.controls ==> m'.controls[c] == ControlStatus(UnknownStatus, None)
    ensures |ControlsWith(m', UnknownStatus)| == |ControlsWith(m, UnknownStatus)| + (|m'.controls| - |m.controls|)
  {
    var added := m'.controls.Keys - m.controls.Keys;
    var before, after := ControlsWith(m, UnknownStatus), ControlsWith(m', UnknownStatus);
    assert after == before + added by {
      forall c | c in m'.controls
        ensures c in after <==> c in before + added
      {
        if c in m.controls {
          assert m'.controls[c] == m.controls[c];
        }
      }
    }
    GrowByAdded(before, after, m.controls.Keys, m'.controls.Keys, added);
  }

  /** A subset of a set that gains `added` gains exactly as much as the set does. */
  lemma GrowByAdded<T>(before: set<T>, after: set<T>, keys: set<T>, keys': set<T>, added: set<T>)
    requires added == keys' - keys && keys <= keys'
    requires before <= keys && after == before + added
    ensures |after| == |before| + (|keys'| - |keys|)
  {
    assert before !! added;
    assert keys' == keys + added;
    assert keys !! added;
  }

  /** A monitoring cycle leaves the risk and KRI counts alone, and the report's recent alerts
      are the last ten of the old buffer followed by what the cycle reported. */
  lemma CycleReportWindow(m: Monitor, read: (RiskId, KriId) -> MonitorCycle.Reading,
                          check: ControlId -> MonitorCycle.Verdict, now: string, reportType: string)
    ensures var c := MonitorCycle.RunCycle(m, read, check, now);
      var before := GenerateReport(m, reportType);
      var after := GenerateReport(c.monitor, reportType);
      after.totalRisks == before.totalRisks && after.activeRisks == before.activeRisks &&
      after.kriDefined == before.kriDefined && after.controlsTracked >= before.controlsTracked &&
      after.recent == LastN(m.recentAlerts + c.report.kriAlerts + c.report.controlIssues, ReportWindow)
  {
    var c := MonitorCycle.RunCycle(m, read, check, now);
    var all := m.recentAlerts + c.report.kriAlerts + c.report.controlIssues;
    assert c.monitor.recentAlerts == LastN(all, MonitorCycle.AlertCapacity);
    LastNWithin(all, MonitorCycle.AlertCapacity, ReportWindow);
    assert ActiveRisks(c.monitor.risks) == ActiveRisks(m.risks);
    SubsetCard(m.controls.Keys, c.monitor.controls.Keys);
  }

  /** Keeping the last `n` and then the last `k <= n` keeps the last `k`. */
  lemma LastNWithin<T>(s: seq<T>, n: nat, k: nat)
    requires 0 < k <= n
    ensures LastN(LastN(s, n), k) == LastN(s, k)
  {
  }
}
