/** State of the monitoring agent (Agents/monitoring_reporter.py) and its setup operation. */
module MonitorState {
  import opened Optional
  import opened Collections

  type RiskId = string
  type KriId = string
  type ControlId = string

  const ActiveStatus := "Active"
  const UnknownStatus := "Unknown"

  /** A KRI definition. A cycle reads `threshold` and `operator`; `otherFields` names the
      remaining keys (data source, frequency, value range), whose values the model does not use
      but whose presence makes the definition non-empty. */
  datatype KriDef = KriDef(threshold: Option<real>, operator: Option<string>, otherFields: set<string>) {

    /** An empty definition is falsy in the agent, so a cycle skips it like a missing one. */
    predicate IsEmpty() {
      threshold.None? && operator.None? && otherFields == {}
    }
  }

  /** One entry of the monitored-risk table. */
  datatype MonitoredRisk = MonitoredRisk(kris: seq<KriId>, controls: seq<ControlId>, status: string)

  /** One entry of the control-effectiveness table; `lastChecked` is None until a cycle checks it. */
  datatype ControlStatus = ControlStatus(status: string, lastChecked: Option<string>)

  /** What a cycle reports: a breached KRI, a KRI whose reading failed, an ineffective control,
      or a control whose check failed. */
  datatype Alert =
    | KriBreach(kriId: KriId, riskId: RiskId, threshold: real, operator: string, currentValue: real)
    | KriFailure(kriId: KriId, riskId: RiskId, error: string)
    | ControlIssue(controlId: ControlId, riskId: RiskId, status: string, message: string)
    | ControlFailure(controlId: ControlId, riskId: RiskId, error: string)

  /** The agent's state. The risk table is an insertion-ordered dictionary: `order` lists its
      keys in insertion order, which is the order a cycle visits them. */
  datatype Monitor = Monitor(
    order: seq<RiskId>,
    risks: map<RiskId, MonitoredRisk>,
    kriDefs: map<KriId, KriDef>,
    controls: map<ControlId, ControlStatus>,
    recentAlerts: seq<Alert>)

  /** `order` lists every key of the risk table exactly once. */
  ghost predicate Valid(m: Monitor) {
    Distinct(m.order) && forall r :: r in m.order <==> r in m.risks
  }

  /** No risk lists a KRI or a control twice. */
  predicate ListsDistinct(m: Monitor) {
    forall r :: r in m.risks ==> Distinct(m.risks[r].kris) && Distinct(m.risks[r].controls)
  }

  /** A new agent, optionally preloaded with KRI definitions as main.py does. */
  function NewMonitor(kriDefs: map<KriId, KriDef>): (m: Monitor)
    ensures Valid(m) && ListsDistinct(m)
    ensures m.risks == map[] && m.controls == map[] && m.recentAlerts == [] && m.kriDefs == kriDefs
  {
    Monitor([], map[], kriDefs, map[], [])
  }

  /** `x` is first requested in `items` before `y` is. */
  predicate FirstRequestedBefore(items: seq<string>, x: string, y: string) {
    x in items && y in items && IndexOf(items, x) < IndexOf(items, y)
  }

  /** `added` lists its ids in the order of their first request in `items`. */
  predicate InFirstRequestOrder(added: seq<string>, items: seq<string>) {
    forall i, j :: 0 <= i < j < |added| ==> FirstRequestedBefore(items, added[i], added[j])
  }

  /** The setup loop over a requested id list: the ids not already in `list`, each once,
      in the order they were first requested. */
  function AppendNew(list: seq<string>, items: seq<string>): (added: seq<string>)
    ensures Distinct(added)
    ensures forall x :: x in added <==> x in items && x !in list
    ensures Subsequence(added, items)
    ensures InFirstRequestOrder(added, items)
    decreases |items|
  {
    if items == [] then []
    else if items[0] in list then SkipFirst(list, items)
    else
      var rest := AppendNew(list + [items[0]], items[1..]);
      assert items[0] !in rest;
      assert ([items[0]] + rest)[1..] == rest;
      OrderAfterHead([items[0]] + rest, items);
      [items[0]] + rest
  }

  function SkipFirst(list: seq<string>, items: seq<string>): (added: seq<string>)
    requires |items| > 0 && items[0] in list
    ensures Distinct(added)
    ensures forall x :: x in added <==> x in items && x !in list
    ensures Subsequence(added, items)
    ensures InFirstRequestOrder(added, items)
    decreases |items|, 0
  {
    var rest := AppendNew(list, items[1..]);
    SubsequenceSkip(rest, items);
    OrderAfterSkip(rest, items);
    rest
  }

  /** Positions in the tail of the request list are one less than in the whole list, for ids
      other than its head. */
  lemma IndexInTail(items: seq<string>, x: string)
    requires |items| > 0 && x in items[1..] && x != items[0]
    ensures IndexOf(items, x) == 1 + IndexOf(items[1..], x)
  {
  }

  lemma OrderAt(added: seq<string>, items: seq<string>, i: int, j: int)
    requires InFirstRequestOrder(added, items) && 0 <= i < j < |added|
    ensures FirstRequestedBefore(items, added[i], added[j])
  {
  }

  /** Ids in first-request order of the tail, none of them the head, keep that order in the
      whole list. */
  lemma OrderAfterSkip(added: seq<string>, items: seq<string>)
    requires |items| > 0 && InFirstRequestOrder(added, items[1..])
    requires forall x :: x in added ==> x != items[0]
    ensures InFirstRequestOrder(added, items)
  {
    forall i, j | 0 <= i < j < |added|
      ensures FirstRequestedBefore(items, added[i], added[j])
    {
      OrderAt(added, items[1..], i, j);
      assert added[i] in added && added[j] in added;
      IndexInTail(items, added[i]);
      IndexInTail(items, added[j]);
    }
  }

  /** The head request followed by later ids in first-request order of the tail is in
      first-request order. */
  lemma OrderAfterHead(added: seq<string>, items: seq<string>)
    requires |items| > 0 && |added| > 0 && added[0] == items[0]
    requires InFirstRequestOrder(added[1..], items[1..])
    requires forall x :: x in added[1..] ==> x != items[0] && x in items[1..]
    ensures InFirstRequestOrder(added, items)
  {
    OrderAfterSkip(added[1..], items);
    forall j | 0 < j < |added|
      ensures FirstRequestedBefore(items, added[0], added[j])
    {
      assert added[j] == added[1..][j - 1] && added[j] in added[1..];
      IndexInTail(items, added[j]);
    }
    forall i, j | 0 <= i < j < |added|
      ensures FirstRequestedBefore(items, added[i], added[j])
    {
      if i > 0 {
        assert added[i] == added[1..][i - 1] && added[j] == added[1..][j - 1];
      }
    }
  }

  /** First-request order fixes a list: two repeat-free lists of the same ids, both in
      first-request order, are equal. So the ids `AppendNew` adds are determined by its
      contract, also when a request repeats an id. */
  lemma {:induction false} FirstRequestOrderUnique(a: seq<string>, b: seq<string>, items: seq<string>)
    requires Distinct(a) && Distinct(b)
    requires forall x :: x in a <==> x in b
    requires InFirstRequestOrder(a, items) && InFirstRequestOrder(b, items)
    ensures a == b
    decreases |a|
  {
    assert a != [] ==> a[0] in a && a[0] in b;
    assert b != [] ==> b[0] in b && b[0] in a;
    if a != [] {
      HeadFirst(a, items);
      HeadFirst(b, items);
      assert a[0] == b[0];
      TailKeepsOrder(a, items);
      TailKeepsOrder(b, items);
      forall x
        ensures x in a[1..] <==> x in b[1..]
      {
        TailMembers(a, x);
        TailMembers(b, x);
      }
      FirstRequestOrderUnique(a[1..], b[1..], items);
      assert a == [a[0]] + a[1..] && b == [b[0]] + b[1..];
    }
  }

  /** The head of a list in first-request order was requested before every other id in it. */
  lemma HeadFirst(a: seq<string>, items: seq<string>)
    requires |a| > 0 && InFirstRequestOrder(a, items)
    ensures forall x :: x in a && x != a[0] ==> FirstRequestedBefore(items, a[0], x)
  {
    forall x | x in a && x != a[0]
      ensures FirstRequestedBefore(items, a[0], x)
    {
      var k :| 0 <= k < |a| && a[k] == x;
      OrderAt(a, items, 0, k);
    }
  }

  lemma TailKeepsOrder(a: seq<string>, items: seq<string>)
    requires |a| > 0 && Distinct(a) && InFirstRequestOrder(a, items)
    ensures Distinct(a[1..]) && InFirstRequestOrder(a[1..], items)
  {
    forall i, j | 0 <= i < j < |a[1..]|
      ensures a[1..][i] != a[1..][j] && FirstRequestedBefore(items, a[1..][i], a[1..][j])
    {
      OrderAt(a, items, i + 1, j + 1);
    }
  }

  lemma TailMembers(a: seq<string>, x: string)
    requires |a| > 0 && Distinct(a)
    ensures x in a[1..] <==> x in a && x != a[0]
  {
    if x in a[1..] {
      var k :| 0 <= k < |a[1..]| && a[1..][k] == x;
      assert a[k + 1] == x;
    }
    if x in a && x != a[0] {
      var k :| 0 <= k < |a| && a[k] == x;
      assert a[1..][k - 1] == x;
    }
  }

  lemma AppendNewKeepsDistinct(list: seq<string>, items: seq<string>)
    ensures Distinct(list) ==> Distinct(list + AppendNew(list, items))
  {
    if Distinct(list) {
      DistinctAppend(list, AppendNew(list, items));
    }
  }

  /** Stores the supplied definition of each newly attached KRI, overwriting any earlier one. */
  function StoreDefinitions(defs: map<KriId, KriDef>, added: seq<KriId>, supplied: map<KriId, KriDef>): (r: map<KriId, KriDef>)
    ensures r.Keys == defs.Keys + (set k | k in added && k in supplied)
    ensures forall k :: k in r ==> r[k] == if k in added && k in supplied then supplied[k] else defs[k]
  {
    defs + map k | k in added && k in supplied :: supplied[k]
  }

  /** Starts tracking each newly attached control that is not tracked yet, as Unknown and never checked. */
  function TrackControls(statuses: map<ControlId, ControlStatus>, added: seq<ControlId>): (r: map<ControlId, ControlStatus>)
    ensures r.Keys == statuses.Keys + (set c | c in added)
    ensures forall c :: c in statuses ==> r[c] == statuses[c]
    ensures forall c :: c in r && c !in statuses ==> r[c] == ControlStatus(UnknownStatus, None)
  {
    statuses + map c | c in added && c !in statuses :: ControlStatus(UnknownStatus, None)
  }

  datatype SetupConfirmation = SetupConfirmation(riskId: RiskId, status: string, addedKris: seq<KriId>, addedControls: seq<ControlId>)

  datatype SetupResult = SetupResult(monitor: Monitor, confirmation: SetupConfirmation)

  /** The risk's entry before setup, or the empty entry setup creates. */
  function EntryBefore(m: Monitor, riskId: RiskId): MonitoredRisk {
    if riskId in m.risks then m.risks[riskId] else MonitoredRisk([], [], ActiveStatus)
  }

  /** `setup_monitoring(risk_id, kris, controls, kri_definitions)`; an absent list or map
      argument is passed as empty, which the agent treats the same way. */
  function Setup(m: Monitor, riskId: RiskId, kris: seq<KriId>, controls: seq<ControlId>, supplied: map<KriId, KriDef>): (r: SetupResult)
    // the entry is created Active only when missing, and an existing status is kept
    ensures riskId in r.monitor.risks
    ensures r.monitor.risks[riskId].status == (if riskId in m.risks then m.risks[riskId].status else ActiveStatus)
    ensures r.monitor.order == (if riskId in m.risks then m.order else m.order + [riskId])
    // other risks are untouched
    ensures r.monitor.risks.Keys == m.risks.Keys + {riskId}
    ensures forall k :: k in m.risks && k != riskId ==> r.monitor.risks[k] == m.risks[k]
    // the lists keep their prefix and gain exactly the ids not yet present, once each, in argument order
    ensures r.monitor.risks[riskId].kris == EntryBefore(m, riskId).kris + r.confirmation.addedKris
    ensures r.monitor.risks[riskId].controls == EntryBefore(m, riskId).controls + r.confirmation.addedControls
    ensures forall k :: k in r.confirmation.addedKris <==> k in kris && k !in EntryBefore(m, riskId).kris
    ensures forall c :: c in r.confirmation.addedControls <==> c in controls && c !in EntryBefore(m, riskId).controls
    ensures Subsequence(r.confirmation.addedKris, kris) && Subsequence(r.confirmation.addedControls, controls)
    ensures r.confirmation.addedKris == AppendNew(EntryBefore(m, riskId).kris, kris)
    ensures r.confirmation.addedControls == AppendNew(EntryBefore(m, riskId).controls, controls)
    // a supplied definition is stored exactly when its KRI is newly attached to this risk; none is deleted
    ensures r.monitor.kriDefs.Keys == m.kriDefs.Keys + (set k | k in r.confirmation.addedKris && k in supplied)
    ensures forall k :: k in r.monitor.kriDefs ==>
      r.monitor.kriDefs[k] == if k in r.confirmation.addedKris && k in supplied then supplied[k] else m.kriDefs[k]
    // a newly attached control gets an Unknown record only if it is not tracked yet
    ensures r.monitor.controls.Keys == m.controls.Keys + (set c | c in r.confirmation.addedControls)
    ensures forall c :: c in m.controls ==> r.monitor.controls[c] == m.controls[c]
    ensures forall c :: c in r.monitor.controls && c !in m.controls ==> r.monitor.controls[c] == ControlStatus(UnknownStatus, None)
    ensures r.monitor.recentAlerts == m.recentAlerts
    ensures r.confirmation.riskId == riskId && r.confirmation.status == "Success"
  {
    var entry := EntryBefore(m, riskId);
    var order := if riskId in m.risks then m.order else m.order + [riskId];
    var newKris := AppendNew(entry.kris, kris);
    var newControls := AppendNew(entry.controls, controls);
    var defs := StoreDefinitions(m.kriDefs, newKris, supplied);
    var statuses := TrackControls(m.controls, newControls);
    var entry' := entry.(kris := entry.kris + newKris, controls := entry.controls + newControls);
    SetupResult(
      Monitor(order, m.risks[riskId := entry'], defs, statuses, m.recentAlerts),
      SetupConfirmation(riskId, "Success", newKris, newControls))
  }

  /** Setup keeps the risk order consistent with the risk table and keeps every risk's lists
      free of repeats. */
  lemma SetupKeepsInvariants(m: Monitor, riskId: RiskId, kris: seq<KriId>, controls: seq<ControlId>, supplied: map<KriId, KriDef>)
    ensures var r := Setup(m, riskId, kris, controls, supplied).monitor;
      (Valid(m) ==> Valid(r)) && (ListsDistinct(m) ==> ListsDistinct(r))
  {
    var r := Setup(m, riskId, kris, controls, supplied).monitor;
    if Valid(m) {
      if riskId !in m.risks {
        DistinctAppend(m.order, [riskId]);
      }
      assert Distinct(r.order);
    }
    if ListsDistinct(m) {
      EntryListsDistinct(m, riskId, kris, controls, supplied);
    }
  }

  /** Setup keeps the set-up risk's own lists free of repeats. */
  lemma EntryListsDistinct(m: Monitor, riskId: RiskId, kris: seq<KriId>, controls: seq<ControlId>, supplied: map<KriId, KriDef>)
    requires ListsDistinct(m)
    ensures var e := Setup(m, riskId, kris, controls, supplied).monitor.risks[riskId];
      Distinct(e.kris) && Distinct(e.controls)
  {
    var entry := EntryBefore(m, riskId);
    AppendNewKeepsDistinct(entry.kris, kris);
    AppendNewKeepsDistinct(entry.controls, controls);
  }

  /** Calling setup twice with the same arguments leaves the state of a single call. */
  lemma SetupIdempotent(m: Monitor, riskId: RiskId, kris: seq<KriId>, controls: seq<ControlId>, supplied: map<KriId, KriDef>)
    ensures var once := Setup(m, riskId, kris, controls, supplied);
            var twice := Setup(once.monitor, riskId, kris, controls, supplied);
            twice.monitor == once.monitor && twice.confirmation.addedKris == [] && twice.confirmation.addedControls == []
  {
    var once := Setup(m, riskId, kris, controls, supplied).monitor;
    SetupOfPresent(once, riskId, kris, controls, supplied);
  }

  /** Setup changes nothing when the risk already lists every requested KRI and control. */
  lemma SetupOfPresent(m: Monitor, riskId: RiskId, kris: seq<KriId>, controls: seq<ControlId>, supplied: map<KriId, KriDef>)
    requires riskId in m.risks
    requires forall k :: k in kris ==> k in m.risks[riskId].kris
    requires forall c :: c in controls ==> c in m.risks[riskId].controls
    ensures var r := Setup(m, riskId, kris, controls, supplied);
            r.monitor == m && r.confirmation.addedKris == [] && r.confirmation.addedControls == []
  {
    var e := m.risks[riskId];
    NothingNew(e.kris, kris);
    NothingNew(e.controls, controls);
    assert StoreDefinitions(m.kriDefs, [], supplied) == m.kriDefs;
    assert TrackControls(m.controls, []) == m.controls;
    assert e.(kris := e.kris + [], controls := e.controls + []) == e;
    assert m.risks[riskId := e] == m.risks;
  }

  lemma {:induction false} NothingNew(list: seq<string>, items: seq<string>)
    requires forall x :: x in items ==> x in list
    ensures AppendNew(list, items) == []
    decreases |items|
  {
    if items != [] {
      NothingNew(list, items[1..]);
    }
  }
}
