/** One monitoring cycle of Agents/monitoring_reporter.py: KRI threshold checks, control
    effectiveness checks, and the bounded buffer of recent alerts. The KRI reading and the
    control check are random placeholders in the agent; here they are oracle parameters. */
module MonitorCycle {
  import opened Optional
  import opened Collections
  import opened MonitorState
  import Decimal

  /** The current value of a KRI, or the error its fetch raised. */
  datatype Reading = Value(value: real) | FetchFailed(error: string)

  /** The outcome of checking a control, or the error the check raised. */
  datatype Verdict = Effective | Ineffective | CheckFailed(error: string)

  const DefaultThreshold: real := 100.0
  const DefaultOperator := ">"
  /** Capacity of the recent-alerts buffer. */
  const AlertCapacity: nat := 50

  function ThresholdOf(d: KriDef): real {
    d.threshold.GetOr(DefaultThreshold)
  }

  function OperatorOf(d: KriDef): string {
    d.operator.GetOr(DefaultOperator)
  }

  /** The breach rule; an operator other than `>`, `<` and `==` never breaches. */
  predicate Breached(op: string, value: real, threshold: real) {
    if op == ">" then value > threshold
    else if op == "<" then value < threshold
    else if op == "==" then value == threshold
    else false
  }

  /** A definition a cycle uses: present and non-empty. */
  predicate Defined(defs: map<KriId, KriDef>, k: KriId) {
    k in defs && !defs[k].IsEmpty()
  }

  /** Whether a reading of a KRI with definition `d` produces an alert. */
  predicate Flags(reading: Reading, d: KriDef) {
    match reading
    case FetchFailed(_) => true
    case Value(v) => Breached(OperatorOf(d), v, ThresholdOf(d))
  }

  /** `a` is the alert a reading of a KRI with definition `d` produces. */
  predicate ExplainsKriAlert(reading: Reading, d: KriDef, a: Alert) {
    match a
    case KriBreach(_, _, t, op, v) =>
      reading == Value(v) && t == ThresholdOf(d) && op == OperatorOf(d) && Breached(op, v, t)
    case KriFailure(_, _, e) =>
      reading.FetchFailed? && e == "Failed to monitor KRI: " + reading.error
    case _ => false
  }

  /** The alerts one KRI of one risk produces: none, a breach, or a failure. */
  function KriOutcome(riskId: RiskId, k: KriId, d: KriDef, reading: Reading): (alerts: seq<Alert>)
    ensures |alerts| <= 1
    ensures |alerts| == 1 <==> Flags(reading, d)
    ensures forall a | a in alerts :: a.riskId == riskId && (a.KriBreach? || a.KriFailure?) && a.kriId == k && ExplainsKriAlert(reading, d, a)
  {
    match reading
    case FetchFailed(e) => [KriFailure(k, riskId, "Failed to monitor KRI: " + e)]
    case Value(v) =>
      if Breached(OperatorOf(d), v, ThresholdOf(d)) then [KriBreach(k, riskId, ThresholdOf(d), OperatorOf(d), v)] else []
  }

  /** How many entries of `kris` have a usable definition. */
  function CountDefined(kris: seq<KriId>, defs: map<KriId, KriDef>): nat
    decreases |kris|
  {
    if kris == [] then 0 else (if Defined(defs, kris[0]) then 1 else 0) + CountDefined(kris[1..], defs)
  }

  /** The KRI alerts of one risk, in the order its KRIs are listed. */
  function RiskKriAlerts(riskId: RiskId, kris: seq<KriId>, defs: map<KriId, KriDef>, read: (RiskId, KriId) -> Reading): (alerts: seq<Alert>)
    ensures |alerts| <= CountDefined(kris, defs)
    ensures forall a | a in alerts ::
      a.riskId == riskId && (a.KriBreach? || a.KriFailure?) && a.kriId in kris && Defined(defs, a.kriId)
      && ExplainsKriAlert(read(riskId, a.kriId), defs[a.kriId], a)
    decreases |kris|
  {
    if kris == [] then []
    else
      var k := kris[0];
      var rest := RiskKriAlerts(riskId, kris[1..], defs, read);
      if Defined(defs, k) then KriOutcome(riskId, k, defs[k], read(riskId, k)) + rest else rest
  }

  predicate IsActive(m: Monitor, r: RiskId) {
    r in m.risks && m.risks[r].status == ActiveStatus
  }

  /** The number of (active risk, defined KRI) pairs among the risks in `order`. */
  function ActivePairs(m: Monitor, order: seq<RiskId>): nat
    decreases |order|
  {
    if order == [] then 0
    else (if IsActive(m, order[0]) then CountDefined(m.risks[order[0]].kris, m.kriDefs) else 0) + ActivePairs(m, order[1..])
  }

  /** A KRI alert the state and the readings account for. */
  ghost predicate KriAlertJustified(m: Monitor, read: (RiskId, KriId) -> Reading, a: Alert) {
    && (a.KriBreach? || a.KriFailure?)
    && IsActive(m, a.riskId)
    && a.kriId in m.risks[a.riskId].kris
    && Defined(m.kriDefs, a.kriId)
    && ExplainsKriAlert(read(a.riskId, a.kriId), m.kriDefs[a.kriId], a)
  }

  /** `_monitor_kris` over the risks in `order`: inactive risks and undefined KRIs are skipped. */
  function KriAlertsFrom(m: Monitor, order: seq<RiskId>, read: (RiskId, KriId) -> Reading): (alerts: seq<Alert>)
    ensures |alerts| <= ActivePairs(m, order)
    ensures forall a | a in alerts :: a.riskId in order && KriAlertJustified(m, read, a)
    decreases |order|
  {
    if order == [] then []
    else
      var r := order[0];
      var rest := KriAlertsFrom(m, order[1..], read);
      if IsActive(m, r) then RiskKriAlerts(r, m.risks[r].kris, m.kriDefs, read) + rest else rest
  }

  /** `_monitor_kris`: every alert comes from an active risk, one of its KRIs with a
      definition, and a reading that breaches that definition (or failed); there are at most as
      many alerts as (active risk, defined KRI) pairs. */
  function MonitorKris(m: Monitor, read: (RiskId, KriId) -> Reading): (alerts: seq<Alert>)
    ensures |alerts| <= ActivePairs(m, m.order)
    ensures forall a | a in alerts :: KriAlertJustified(m, read, a)
  {
    KriAlertsFrom(m, m.order, read)
  }

  /** No two alerts concern the same risk and the same KRI or control. */
  predicate OncePerPair(alerts: seq<Alert>) {
    forall i, j :: 0 <= i < j < |alerts| ==>
      alerts[i].riskId != alerts[j].riskId || Subject(alerts[i]) != Subject(alerts[j])
  }

  lemma OncePerPairAppend(a: seq<Alert>, b: seq<Alert>)
    requires OncePerPair(a) && OncePerPair(b)
    requires forall x, y :: x in a && y in b ==> x.riskId != y.riskId || Subject(x) != Subject(y)
    ensures OncePerPair(a + b)
  {
    forall i, j | 0 <= i < j < |a + b|
      ensures (a + b)[i].riskId != (a + b)[j].riskId || Subject((a + b)[i]) != Subject((a + b)[j])
    {
      if j < |a| {
        assert (a + b)[i] == a[i] && (a + b)[j] == a[j];
      } else if i >= |a| {
        assert (a + b)[i] == b[i - |a|] && (a + b)[j] == b[j - |a|];
      } else {
        assert (a + b)[i] in a && (a + b)[j] in b;
      }
    }
  }

  /** A risk whose KRI list has no repeats gets at most one alert per KRI. */
  lemma {:induction false} RiskKriAlertsOncePerKri(riskId: RiskId, kris: seq<KriId>, defs: map<KriId, KriDef>, read: (RiskId, KriId) -> Reading)
    requires Distinct(kris)
    ensures OncePerPair(RiskKriAlerts(riskId, kris, defs, read))
    decreases |kris|
  {
    if kris != [] {
      var k := kris[0];
      var rest := RiskKriAlerts(riskId, kris[1..], defs, read);
      RiskKriAlertsOncePerKri(riskId, kris[1..], defs, read);
      if Defined(defs, k) {
        var out := KriOutcome(riskId, k, defs[k], read(riskId, k));
        forall x, y | x in out && y in rest
          ensures x.riskId != y.riskId || Subject(x) != Subject(y)
        {
          assert Subject(x) == k && Subject(y) == y.kriId && y.kriId in kris[1..];
        }
        OncePerPairAppend(out, rest);
      }
    }
  }

  /** In a consistent state whose risks list no KRI twice, a cycle raises at most one KRI alert
      per (risk, KRI) pair. */
  lemma MonitorKrisOncePerPair(m: Monitor, read: (RiskId, KriId) -> Reading)
    requires Valid(m) && ListsDistinct(m)
    ensures OncePerPair(MonitorKris(m, read))
  {
    KriAlertsFromOncePerPair(m, m.order, read);
  }

  lemma {:induction false} KriAlertsFromOncePerPair(m: Monitor, order: seq<RiskId>, read: (RiskId, KriId) -> Reading)
    requires Distinct(order) && ListsDistinct(m)
    ensures OncePerPair(KriAlertsFrom(m, order, read))
    decreases |order|
  {
    if order != [] {
      var r := order[0];
      var rest := KriAlertsFrom(m, order[1..], read);
      assert Distinct(order[1..]) by {
        forall i, j | 0 <= i < j < |order[1..]| ensures order[1..][i] != order[1..][j] {
          assert order[1..][i] == order[i + 1] && order[1..][j] == order[j + 1];
        }
      }
      KriAlertsFromOncePerPair(m, order[1..], read);
      if IsActive(m, r) {
        var own := RiskKriAlerts(r, m.risks[r].kris, m.kriDefs, read);
        RiskKriAlertsOncePerKri(r, m.risks[r].kris, m.kriDefs, read);
        forall x, y | x in own && y in rest
          ensures x.riskId != y.riskId || Subject(x) != Subject(y)
        {
          assert x.riskId == r && y.riskId in order[1..];
        }
        OncePerPairAppend(own, rest);
      }
    }
  }

  /** Conversely, every active risk's defined KRI whose reading breaches (or fails) is reported. */
  lemma {:induction false} MonitorKrisComplete(m: Monitor, read: (RiskId, KriId) -> Reading, r: RiskId, k: KriId)
    requires r in m.order && IsActive(m, r) && k in m.risks[r].kris && Defined(m.kriDefs, k)
    requires Flags(read(r, k), m.kriDefs[k])
    ensures exists a :: a in MonitorKris(m, read) && (a.KriBreach? || a.KriFailure?) && a.riskId == r && a.kriId == k
  {
    var a := KriFromOrder(m, m.order, read, r, k);
  }

  lemma {:induction false} KriFromOrder(m: Monitor, order: seq<RiskId>, read: (RiskId, KriId) -> Reading, r: RiskId, k: KriId) returns (a: Alert)
    requires r in order && IsActive(m, r) && k in m.risks[r].kris && Defined(m.kriDefs, k)
    requires Flags(read(r, k), m.kriDefs[k])
    ensures a in KriAlertsFrom(m, order, read) && (a.KriBreach? || a.KriFailure?) && a.riskId == r && a.kriId == k
    decreases |order|
  {
    if order[0] == r {
      a := KriFromList(r, m.risks[r].kris, m.kriDefs, read, k);
    } else {
      a := KriFromOrder(m, order[1..], read, r, k);
    }
  }

  lemma {:induction false} KriFromList(r: RiskId, kris: seq<KriId>, defs: map<KriId, KriDef>, read: (RiskId, KriId) -> Reading, k: KriId) returns (a: Alert)
    requires k in kris && Defined(defs, k) && Flags(read(r, k), defs[k])
    ensures a in RiskKriAlerts(r, kris, defs, read) && (a.KriBreach? || a.KriFailure?) && a.riskId == r && a.kriId == k
    decreases |kris|
  {
    if kris[0] == k {
      a := KriOutcome(r, k, defs[k], read(r, k))[0];
    } else {
      a := KriFromList(r, kris[1..], defs, read, k);
    }
  }

  /** The effectiveness record a successful check writes. */
  function Stamp(v: Verdict, now: string): ControlStatus
    requires !v.CheckFailed?
  {
    ControlStatus(if v.Effective? then "Effective" else "Ineffective", Some(now))
  }

  function IneffectiveMessage(c: ControlId, r: RiskId): string {
    "Control '" + c + "' for Risk '" + r + "' assessed as ineffective."
  }

  /** `a` is the issue the verdict of its control produces: an Ineffective verdict gives a
      control issue with the ineffectiveness message, a failed check a failure carrying the
      check's error; an effective control gives none. */
  predicate ExplainsControlIssue(check: ControlId -> Verdict, a: Alert) {
    match a
    case ControlIssue(c, rid, status, message) =>
      check(c) == Ineffective && status == "Ineffective" && message == IneffectiveMessage(c, rid)
    case ControlFailure(c, _, e) =>
      check(c).CheckFailed? && e == "Failed to check control: " + check(c).error
    case _ => false
  }

  /** The first Active risk in `order` that lists control `c`: the risk a cycle checks it for. */
  function Owner(m: Monitor, order: seq<RiskId>, c: ControlId): Option<RiskId>
    decreases |order|
  {
    if order == [] then None
    else if IsActive(m, order[0]) && c in m.risks[order[0]].controls then Some(order[0])
    else Owner(m, order[1..], c)
  }

  /** The KRI or control an alert is about. */
  function Subject(a: Alert): string {
    match a
    case KriBreach(k, _, _, _, _) => k
    case KriFailure(k, _, _) => k
    case ControlIssue(c, _, _, _) => c
    case ControlFailure(c, _, _) => c
  }

  function Subjects(alerts: seq<Alert>): (ids: seq<string>)
    ensures |ids| == |alerts|
    decreases |alerts|
  {
    if alerts == [] then [] else [Subject(alerts[0])] + Subjects(alerts[1..])
  }

  lemma {:induction false} SubjectsAppend(a: seq<Alert>, b: seq<Alert>)
    ensures Subjects(a + b) == Subjects(a) + Subjects(b)
    decreases |a|
  {
    if a == [] {
      assert a + b == b;
    } else {
      assert (a + b)[1..] == a[1..] + b;
      SubjectsAppend(a[1..], b);
    }
  }

  /** The checked controls whose check did not find them effective, in check order. */
  function Failing(checked: seq<ControlId>, check: ControlId -> Verdict): (r: seq<ControlId>)
    ensures |r| <= |checked|
    decreases |checked|
  {
    if checked == [] then []
    else (if check(checked[0]).Effective? then [] else [checked[0]]) + Failing(checked[1..], check)
  }

  lemma {:induction false} FailingAppend(a: seq<ControlId>, b: seq<ControlId>, check: ControlId -> Verdict)
    ensures Failing(a + b, check) == Failing(a, check) + Failing(b, check)
    decreases |a|
  {
    if a == [] {
      assert a + b == b;
    } else {
      assert (a + b)[1..] == a[1..] + b;
      FailingAppend(a[1..], b, check);
    }
  }

  /** The progress of `_check_control_effectiveness`: the controls checked so far, in order
      (the agent's `checked_controls`), the effectiveness table, and the issues found. */
  datatype ControlPass = ControlPass(checked: seq<ControlId>, statuses: map<ControlId, ControlStatus>, issues: seq<Alert>)

  /** Checks control `c` on behalf of risk `riskId`. */
  function CheckOne(riskId: RiskId, c: ControlId, acc: ControlPass, v: Verdict, now: string): ControlPass {
    match v
    case Effective =>
      ControlPass(acc.checked + [c], acc.statuses[c := Stamp(v, now)], acc.issues)
    case Ineffective =>
      ControlPass(acc.checked + [c], acc.statuses[c := Stamp(v, now)],
                  acc.issues + [ControlIssue(c, riskId, "Ineffective", IneffectiveMessage(c, riskId))])
    case CheckFailed(e) =>
      ControlPass(acc.checked + [c], acc.statuses, acc.issues + [ControlFailure(c, riskId, "Failed to check control: " + e)])
  }

  /** `r` continues `acc`: it checked a run of controls not checked before, each once, wrote the
      verdict of each successful check into the table, and reported exactly the checked controls
      that were not found effective, in check order. */
  ghost predicate Continues(acc: ControlPass, r: ControlPass, check: ControlId -> Verdict, now: string) {
    && |acc.checked| <= |r.checked| && r.checked[..|acc.checked|] == acc.checked
    && |acc.issues| <= |r.issues| && r.issues[..|acc.issues|] == acc.issues
    && (var newly := r.checked[|acc.checked|..];
        && Distinct(newly)
        && (forall c :: c in newly ==> c !in acc.checked)
        && Subjects(r.issues[|acc.issues|..]) == Failing(newly, check)
        && (forall c :: c in r.statuses <==> c in acc.statuses || (c in newly && !check(c).CheckFailed?))
        && (forall c :: c in r.statuses ==>
              r.statuses[c] == if c in newly && !check(c).CheckFailed? then Stamp(check(c), now) else acc.statuses[c]))
  }

  lemma ContinuesRefl(acc: ControlPass, check: ControlId -> Verdict, now: string)
    ensures Continues(acc, acc, check, now)
  {
    assert acc.checked[|acc.checked|..] == [];
    assert acc.issues[|acc.issues|..] == [];
  }

  lemma ContinuesOne(riskId: RiskId, c: ControlId, acc: ControlPass, check: ControlId -> Verdict, now: string)
    requires c !in acc.checked
    ensures Continues(acc, CheckOne(riskId, c, acc, check(c), now), check, now)
  {
    var r := CheckOne(riskId, c, acc, check(c), now);
    assert r.checked[|acc.checked|..] == [c];
    assert r.checked[..|acc.checked|] == acc.checked;
    assert r.issues[..|acc.issues|] == acc.issues;
    assert Failing([c], check) == if check(c).Effective? then [] else [c];
    if !check(c).Effective? {
      assert r.issues[|acc.issues|..] == [r.issues[|acc.issues|]];
    } else {
      assert r.issues[|acc.issues|..] == [];
    }
  }

  lemma ContinuesTrans(a: ControlPass, b: ControlPass, c: ControlPass, check: ControlId -> Verdict, now: string)
    requires Continues(a, b, check, now) && Continues(b, c, check, now)
    ensures Continues(a, c, check, now)
  {
    var f1 := b.checked[|a.checked|..];
    var f2 := c.checked[|b.checked|..];
    assert c.checked[|a.checked|..] == f1 + f2;
    assert c.checked[..|a.checked|] == a.checked;
    assert c.issues[..|a.issues|] == a.issues;
    forall x | x in f1 ensures x !in f2 {
      assert x in b.checked;
    }
    DistinctAppend(f1, f2);
    assert c.issues[|a.issues|..] == b.issues[|a.issues|..] + c.issues[|b.issues|..];
    SubjectsAppend(b.issues[|a.issues|..], c.issues[|b.issues|..]);
    FailingAppend(f1, f2, check);
  }

  /** The controls of one risk, in listed order, skipping those already checked this cycle. */
  function RiskControlPass(riskId: RiskId, cs: seq<ControlId>, acc: ControlPass, check: ControlId -> Verdict, now: string): (r: ControlPass)
    ensures Continues(acc, r, check, now)
    ensures forall c :: c in r.checked <==> c in acc.checked || c in cs
    decreases |cs|
  {
    if cs == [] then
      ContinuesRefl(acc, check, now);
      acc
    else if cs[0] in acc.checked then
      RiskControlPass(riskId, cs[1..], acc, check, now)
    else
      var next := CheckOne(riskId, cs[0], acc, check(cs[0]), now);
      var r := RiskControlPass(riskId, cs[1..], next, check, now);
      ContinuesOne(riskId, cs[0], acc, check, now);
      ContinuesTrans(acc, next, r, check, now);
      r
  }

  /** The issues added between two stages of a pass are those of the first step followed by
      those of the second. */
  lemma NewIssuesSplit(a: ControlPass, b: ControlPass, c: ControlPass)
    requires |a.issues| <= |b.issues| && b.issues[..|a.issues|] == a.issues
    requires |b.issues| <= |c.issues| && c.issues[..|b.issues|] == b.issues
    ensures c.issues[|a.issues|..] == b.issues[|a.issues|..] + c.issues[|b.issues|..]
  {
  }

  /** The issues one check adds: the issue its verdict produces for that risk, if any. */
  lemma CheckOneIssues(riskId: RiskId, c: ControlId, acc: ControlPass, check: ControlId -> Verdict, now: string)
    ensures var next := CheckOne(riskId, c, acc, check(c), now);
      |acc.issues| <= |next.issues| && next.issues[..|acc.issues|] == acc.issues &&
      forall a :: a in next.issues[|acc.issues|..] ==> a.riskId == riskId && Subject(a) == c && ExplainsControlIssue(check, a)
  {
    var next := CheckOne(riskId, c, acc, check(c), now);
    assert next.issues[..|acc.issues|] == acc.issues;
    if !check(c).Effective? {
      assert next.issues[|acc.issues|..] == [next.issues[|acc.issues|]];
    } else {
      assert next.issues[|acc.issues|..] == [];
    }
  }

  /** The issues one risk's pass adds are about controls of its list not checked before, are
      attributed to that risk, and are each the issue the control's verdict produces. */
  lemma {:induction false} RiskPassIssues(riskId: RiskId, cs: seq<ControlId>, acc: ControlPass, check: ControlId -> Verdict, now: string)
    ensures var r := RiskControlPass(riskId, cs, acc, check, now);
      forall a :: a in r.issues[|acc.issues|..] ==>
        a.riskId == riskId && Subject(a) in cs && Subject(a) !in acc.checked && ExplainsControlIssue(check, a)
    decreases |cs|
  {
    if cs == [] {
      assert acc.issues[|acc.issues|..] == [];
    } else if cs[0] in acc.checked {
      var r := RiskControlPass(riskId, cs[1..], acc, check, now);
      assert r == RiskControlPass(riskId, cs, acc, check, now);
      RiskPassIssues(riskId, cs[1..], acc, check, now);
      forall a | a in r.issues[|acc.issues|..] ensures Subject(a) in cs {
        assert Subject(a) in cs[1..];
      }
    } else {
      var next := CheckOne(riskId, cs[0], acc, check(cs[0]), now);
      var r := RiskControlPass(riskId, cs[1..], next, check, now);
      assert r == RiskControlPass(riskId, cs, acc, check, now);
      RiskPassIssues(riskId, cs[1..], next, check, now);
      CheckOneIssues(riskId, cs[0], acc, check, now);
      NewIssuesSplit(acc, next, r);
      forall a | a in r.issues[|acc.issues|..]
        ensures a.riskId == riskId && Subject(a) in cs && Subject(a) !in acc.checked && ExplainsControlIssue(check, a)
      {
        if a !in next.issues[|acc.issues|..] {
          assert a in r.issues[|next.issues|..];
          assert Subject(a) in cs[1..] && Subject(a) !in next.checked;
        }
      }
    }
  }

  /** The issues a pass over `order` adds are about controls not checked before, each the
      issue of the control's verdict, attributed to the first Active risk of `order` listing it. */
  lemma {:induction false} PassIssues(m: Monitor, order: seq<RiskId>, acc: ControlPass, check: ControlId -> Verdict, now: string)
    ensures var r := ControlPassFrom(m, order, acc, check, now);
      forall a :: a in r.issues[|acc.issues|..] ==>
        Subject(a) !in acc.checked && ExplainsControlIssue(check, a) && Owner(m, order, Subject(a)) == Some(a.riskId)
    decreases |order|
  {
    if order == [] {
      assert acc.issues[|acc.issues|..] == [];
    } else {
      var rid := order[0];
      var next := if IsActive(m, rid) then RiskControlPass(rid, m.risks[rid].controls, acc, check, now) else acc;
      var r := ControlPassFrom(m, order[1..], next, check, now);
      PassIssues(m, order[1..], next, check, now);
      if IsActive(m, rid) {
        RiskPassIssues(rid, m.risks[rid].controls, acc, check, now);
        NewIssuesSplit(acc, next, r);
        assert next.checked[..|acc.checked|] == acc.checked;
      }
    }
  }

  /** The issues of a whole cycle's control pass. */
  lemma CycleIssues(m: Monitor, check: ControlId -> Verdict, now: string)
    ensures var r := ControlPassFrom(m, m.order, ControlPass([], m.controls, []), check, now);
      forall a :: a in r.issues ==> ExplainsControlIssue(check, a) && Owner(m, m.order, Subject(a)) == Some(a.riskId)
  {
    var r := ControlPassFrom(m, m.order, ControlPass([], m.controls, []), check, now);
    PassIssues(m, m.order, ControlPass([], m.controls, []), check, now);
    assert r.issues[0..] == r.issues;
  }

  /** The controls of the active risks in `order`, each checked once. */
  function ControlPassFrom(m: Monitor, order: seq<RiskId>, acc: ControlPass, check: ControlId -> Verdict, now: string): (r: ControlPass)
    ensures Continues(acc, r, check, now)
    ensures forall c :: c in r.checked <==> c in acc.checked || c in ActiveControlsIn(m, order)
    decreases |order|
  {
    if order == [] then
      ContinuesRefl(acc, check, now);
      acc
    else
      var rid := order[0];
      var next := if IsActive(m, rid) then RiskControlPass(rid, m.risks[rid].controls, acc, check, now) else acc;
      ContinuesRefl(acc, check, now);
      var r := ControlPassFrom(m, order[1..], next, check, now);
      ContinuesTrans(acc, next, r, check, now);
      r
  }

  /** The distinct controls of the active risks among `order`. */
  function ActiveControlsIn(m: Monitor, order: seq<RiskId>): set<ControlId>
    decreases |order|
  {
    if order == [] then {}
    else (if IsActive(m, order[0]) then set c | c in m.risks[order[0]].controls else {}) + ActiveControlsIn(m, order[1..])
  }

  /** The distinct controls of all active risks. */
  ghost function ActiveControls(m: Monitor): set<ControlId> {
    set r, c | r in m.risks && m.risks[r].status == ActiveStatus && c in m.risks[r].controls :: c
  }

  lemma {:induction false} ActiveControlsInOrder(m: Monitor, order: seq<RiskId>)
    ensures forall c :: c in ActiveControlsIn(m, order) <==> exists r :: r in order && IsActive(m, r) && c in m.risks[r].controls
    decreases |order|
  {
    if order != [] {
      ActiveControlsInOrder(m, order[1..]);
    }
  }

  /** `_check_control_effectiveness`: each distinct control of the active risks is checked
      exactly once, even when several risks share it; the table records the verdict of every
      successful check and keeps every other record; the issues are exactly the checked controls
      not found effective, in check order, each the issue its verdict produces and attributed to
      the first Active risk listing the control; there are at most as many as distinct active
      controls. */
  function CheckControls(m: Monitor, check: ControlId -> Verdict, now: string): (r: ControlPass)
    ensures Distinct(r.checked)
    ensures Valid(m) ==> forall c :: c in r.checked <==> c in ActiveControls(m)
    ensures Subjects(r.issues) == Failing(r.checked, check)
    ensures forall a :: a in r.issues ==> ExplainsControlIssue(check, a) && Owner(m, m.order, Subject(a)) == Some(a.riskId)
    ensures Valid(m) ==> |r.issues| <= |ActiveControls(m)|
    ensures forall c :: c in r.statuses <==> c in m.controls || (c in r.checked && !check(c).CheckFailed?)
    ensures forall c :: c in r.statuses ==>
      r.statuses[c] == if c in r.checked && !check(c).CheckFailed? then Stamp(check(c), now) else m.controls[c]
  {
    var start := ControlPass([], m.controls, []);
    var r := ControlPassFrom(m, m.order, start, check, now);
    assert r.checked[0..] == r.checked && r.issues[0..] == r.issues;
    CheckedAreActive(m, r.checked);
    CycleIssues(m, check, now);
    r
  }

  lemma CheckedAreActive(m: Monitor, checked: seq<ControlId>)
    requires Distinct(checked)
    requires forall c :: c in checked <==> c in ActiveControlsIn(m, m.order)
    ensures Valid(m) ==> forall c :: c in checked <==> c in ActiveControls(m)
    ensures Valid(m) ==> |checked| == |ActiveControls(m)|
  {
    if Valid(m) {
      ActiveControlsInOrder(m, m.order);
      assert (set c | c in checked) == ActiveControls(m);
      DistinctCard(checked);
    }
  }

  const SummaryHead := "Monitoring cycle completed with "
  const SummaryMiddle := " KRI alert(s) and "
  const SummaryTail := " control issue(s)."

  /** The cycle's summary sentence. */
  function Summary(kriCount: nat, issueCount: nat): string {
    SummaryHead + (Decimal.NatToString(kriCount) + (SummaryMiddle + (Decimal.NatToString(issueCount) + SummaryTail)))
  }

  lemma CancelPrefix(p: string, u: string, v: string)
    requires p + u == p + v
    ensures u == v
  {
    assert u == (p + u)[|p|..];
    assert v == (p + v)[|p|..];
  }

  /** The summary sentence determines both counts. */
  lemma SummaryDeterminesCounts(a: nat, b: nat, c: nat, d: nat)
    requires Summary(a, b) == Summary(c, d)
    ensures a == c && b == d
  {
    var sb, sd := Decimal.NatToString(b), Decimal.NatToString(d);
    CancelPrefix(SummaryHead, Decimal.NatToString(a) + (SummaryMiddle + (sb + SummaryTail)),
                 Decimal.NatToString(c) + (SummaryMiddle + (sd + SummaryTail)));
    Decimal.DigitsThenText(a, SummaryMiddle + (sb + SummaryTail), c, SummaryMiddle + (sd + SummaryTail));
    CancelPrefix(SummaryMiddle, sb + SummaryTail, sd + SummaryTail);
    Decimal.DigitsThenText(b, SummaryTail, d, SummaryTail);
  }

  /** The cycle's results: the time the cycle started, its alerts and issues, and the summary. */
  datatype CycleReport = CycleReport(timestamp: string, kriAlerts: seq<Alert>, controlIssues: seq<Alert>, summary: string)

  datatype CycleResult = CycleResult(monitor: Monitor, report: CycleReport)

  /** `run_monitoring_cycle()` with the cycle's KRI readings, control verdicts and clock as
      parameters. It reports the cycle's start time, the KRI alerts and the control issues of
      the cycle, and stamps every control it checks with that same time; only the
      control table and the alert buffer change; the buffer keeps the last 50 of the old alerts
      followed by this cycle's KRI alerts and control issues. */
  function RunCycle(m: Monitor, read: (RiskId, KriId) -> Reading, check: ControlId -> Verdict, now: string): (r: CycleResult)
    ensures r.report.timestamp == now
    ensures forall c :: c in CheckControls(m, check, now).checked && !check(c).CheckFailed? ==>
      c in r.monitor.controls && r.monitor.controls[c].lastChecked == Some(r.report.timestamp)
    ensures r.report.kriAlerts == MonitorKris(m, read)
    ensures r.report.controlIssues == CheckControls(m, check, now).issues
    ensures r.monitor.controls == CheckControls(m, check, now).statuses
    ensures r.monitor.order == m.order && r.monitor.risks == m.risks && r.monitor.kriDefs == m.kriDefs
    ensures Valid(m) ==> Valid(r.monitor)
    ensures r.monitor.controls.Keys >= m.controls.Keys
    ensures r.monitor.recentAlerts == LastN(m.recentAlerts + r.report.kriAlerts + r.report.controlIssues, AlertCapacity)
    ensures |r.monitor.recentAlerts| <= AlertCapacity
    ensures |r.report.kriAlerts| <= ActivePairs(m, m.order)
    ensures Valid(m) ==> |r.report.controlIssues| <= |ActiveControls(m)|
    ensures r.report.summary == Summary(|r.report.kriAlerts|, |r.report.controlIssues|)
  {
    var kriAlerts := MonitorKris(m, read);
    var pass := CheckControls(m, check, now);
    var recent := LastN(m.recentAlerts + kriAlerts + pass.issues, AlertCapacity);
    CycleResult(
      m.(controls := pass.statuses, recentAlerts := recent),
      CycleReport(now, kriAlerts, pass.issues, Summary(|kriAlerts|, |pass.issues|)))
  }

  /** The oracle inputs of one cycle. */
  datatype Round = Round(read: (RiskId, KriId) -> Reading, check: ControlId -> Verdict, now: string)

  /** The state after running one cycle per round. */
  function RunCycles(m: Monitor, rounds: seq<Round>): Monitor
    decreases |rounds|
  {
    if rounds == [] then m
    else RunCycles(RunCycle(m, rounds[0].read, rounds[0].check, rounds[0].now).monitor, rounds[1..])
  }

  /** Every alert and issue those cycles reported, in order. */
  function Emitted(m: Monitor, rounds: seq<Round>): seq<Alert>
    decreases |rounds|
  {
    if rounds == [] then []
    else
      var c := RunCycle(m, rounds[0].read, rounds[0].check, rounds[0].now);
      c.report.kriAlerts + c.report.controlIssues + Emitted(c.monitor, rounds[1..])
  }

  /** The buffer is first-in first-out across cycles: from any state whose buffer is within its
      capacity (every reachable one), after any number of cycles it holds the last 50 of
      everything it held before and everything reported since. */
  lemma {:induction false} RecentAlertsAreLatest(m: Monitor, rounds: seq<Round>)
    requires |m.recentAlerts| <= AlertCapacity
    ensures RunCycles(m, rounds).recentAlerts == LastN(m.recentAlerts + Emitted(m, rounds), AlertCapacity)
    decreases |rounds|
  {
    if rounds == [] {
      assert m.recentAlerts + [] == m.recentAlerts;
    } else {
      var c := RunCycle(m, rounds[0].read, rounds[0].check, rounds[0].now);
      var later := Emitted(c.monitor, rounds[1..]);
      RecentAlertsAreLatest(c.monitor, rounds[1..]);
      BufferStep(m.recentAlerts, c.report.kriAlerts, c.report.controlIssues, later,
                 c.monitor.recentAlerts, RunCycles(c.monitor, rounds[1..]).recentAlerts);
    }
  }

  /** Two trims of the buffer in a row are one trim of everything appended. */
  lemma BufferStep(held: seq<Alert>, kri: seq<Alert>, issues: seq<Alert>, later: seq<Alert>,
                   mid: seq<Alert>, final: seq<Alert>)
    requires mid == LastN(held + kri + issues, AlertCapacity)
    requires final == LastN(mid + later, AlertCapacity)
    ensures final == LastN(held + (kri + issues + later), AlertCapacity)
  {
    LastNOfLastN(held + kri + issues, later, AlertCapacity);
    assert held + kri + issues + later == held + (kri + issues + later);
  }
}
