/**
 The exchange with the Prometheus Alertmanager: the alerts the manager posts
 for its alarms, and the alarms with application "FM" it derives from alerts.
 */
module Alerts {
  import opened AlarmTypes
  import opened Counting
  import opened AlarmTable
  import opened Protocol
  import opened Uniqueness
  import opened LastMessage
  import opened Durability

  datatype Alert = Alert(labels: map<string, string>, annotations: map<string, string>)

  predicate At(s: string, part: string, i: int) {
    0 <= i && i + |part| <= |s| && s[i..i + |part|] == part
  }

  /** strings.Contains. */
  predicate Contains(s: string, part: string) {
    exists i | 0 <= i <= |s| :: At(s, part, i)
  }

  function Lookup(m: map<string, string>, key: string): string {
    if key in m then m[key] else ""
  }

  /** Whether ProcessAlerts looks at the alert at all. */
  predicate Selected(alert: Alert) {
    "service" in alert.labels && Contains(alert.labels["service"], "FM")
  }

  /** atoi stands for strconv.Atoi with its error ignored. */
  function BuildAlarm(alert: Alert, atoi: string -> int): Alarm {
    Alarm("SEP", "FM",
          if "specific_problem" in alert.labels then atoi(alert.labels["specific_problem"]) else 0,
          Lookup(alert.labels, "severity"),
          Lookup(alert.annotations, "description"),
          Lookup(alert.labels, "name"))
  }

  function BuiltKey(alert: Alert, atoi: string -> int): Identity {
    IdentityOf(BuildAlarm(alert, atoi))
  }

  /** The alert is one for the manager to take up. */
  predicate ForFm(alert: Alert) {
    && "service" in alert.labels
    && var s := alert.labels["service"];
    exists i :: 0 <= i < |s| - 1 && s[i] == 'F' && s[i + 1] == 'M'
  }

  /** a says what the labels and annotations of the alert say, for managed object SEP and application FM. */
  predicate Tells(alert: Alert, atoi: string -> int, a: Alarm) {
    && a.managedObjectId == "SEP" && a.applicationId == "FM"
    && a.specificProblem == (if "specific_problem" in alert.labels then atoi(alert.labels["specific_problem"]) else 0)
    && a.perceivedSeverity == (if "severity" in alert.labels then alert.labels["severity"] else "")
    && a.additionalInfo == (if "name" in alert.labels then alert.labels["name"] else "")
    && a.identifyingInfo == (if "description" in alert.annotations then alert.annotations["description"] else "")
  }

  /** k is the identity the labels and annotations of some FM alert of the payload spell out. */
  predicate Spelled(payload: seq<Alert>, atoi: string -> int, k: Identity) {
    exists i :: 0 <= i < |payload| && ForFm(payload[i]) && k.mo == "SEP" && k.app == "FM"
      && k.sp == (if "specific_problem" in payload[i].labels then atoi(payload[i].labels["specific_problem"]) else 0)
      && k.info == (if "description" in payload[i].annotations then payload[i].annotations["description"] else "")
  }

  /** The goroutine t is about to raise what the alert says, as a new message of this moment. */
  predicate IsRaiseOf(t: Task, alert: Alert, atoi: string -> int, clock: int) {
    && t.Pending? && Tells(alert, atoi, t.m.message.alarm)
    && t.m.message.action.Raise? && t.m.message.alarmTime == clock
    && t.m.definition == AlarmDefinition(0, "", "", "", 0, 0, 0)
  }

  /** The goroutine t is about to clear the entry n, by its own message with the action changed. */
  predicate IsClearOf(t: Task, n: AlarmNotification) {
    t == Pending(AlarmNotification(AlarmMessage(n.message.alarm, Clear, n.message.alarmTime), n.definition))
  }

  ghost function Those<T(!new)>(s: seq<T>, p: T -> bool): seq<T> {
    if s == [] then [] else Those(s[..|s| - 1], p) + if p(s[|s| - 1]) then [s[|s| - 1]] else []
  }

  ghost function FmAlert(): Alert -> bool { (alert: Alert) => ForFm(alert) }

  /** An FM entry of an identity that no FM alert of the payload spells out. */
  ghost function Unspelled(payload: seq<Alert>, atoi: string -> int): AlarmNotification -> bool {
    (n: AlarmNotification) => n.message.alarm.applicationId == "FM" && !Spelled(payload, atoi, n.Key())
  }

  /** The goroutines are one clear for each such entry and then one raise for each FM alert, each in order. */
  ghost predicate Reconciles(active: seq<AlarmNotification>, payload: seq<Alert>, atoi: string -> int, clock: int,
                             spawned: seq<Task>)
  {
    var gone, alerts := Those(active, Unspelled(payload, atoi)), Those(payload, FmAlert());
    && |spawned| == |gone| + |alerts|
    && (forall i :: 0 <= i < |gone| ==> IsClearOf(spawned[i], gone[i]))
    && (forall i :: 0 <= i < |alerts| ==> IsRaiseOf(spawned[|gone| + i], alerts[i], atoi, clock))
  }

  lemma {:induction false} ClearsInOrder(active: seq<AlarmNotification>, payload: seq<Alert>, atoi: string -> int)
    ensures var gone, clears := Those(active, Unspelled(payload, atoi)), Clears(active, payload, atoi);
            |clears| == |gone| && forall i :: 0 <= i < |gone| ==> IsClearOf(clears[i], gone[i])
  {
    hide Spelled, Wanted;
    if active != [] {
      ClearsInOrder(active[..|active| - 1], payload, atoi);
      WantedIsSpelled(payload, atoi, active[|active| - 1].Key());
    }
  }

  lemma {:induction false} RaisesInOrder(payload: seq<Alert>, atoi: string -> int, clock: int)
    ensures var alerts, raises := Those(payload, FmAlert()), Raises(payload, atoi, clock);
            |raises| == |alerts| && forall i :: 0 <= i < |alerts| ==> IsRaiseOf(raises[i], alerts[i], atoi, clock)
  {
    hide Selected, ForFm;
    if payload != [] {
      RaisesInOrder(payload[..|payload| - 1], atoi, clock);
      SelectedIsForFm(payload[|payload| - 1]);
    }
  }

  lemma SpawnedReconcile(active: seq<AlarmNotification>, payload: seq<Alert>, atoi: string -> int, clock: int)
    ensures Reconciles(active, payload, atoi, clock, Clears(active, payload, atoi) + Raises(payload, atoi, clock))
  {
    hide Clears, Raises, IsClearOf, IsRaiseOf;
    ClearsInOrder(active, payload, atoi);
    RaisesInOrder(payload, atoi, clock);
  }

  lemma SelectedIsForFm(alert: Alert)
    ensures Selected(alert) <==> ForFm(alert)
  {
    if Selected(alert) {
      var s := alert.labels["service"];
      var i := Position(s, "FM");
      assert s[i] == s[i..i + 2][0] && s[i + 1] == s[i..i + 2][1];
    } else if ForFm(alert) {
      var s := alert.labels["service"];
      var i :| 0 <= i < |s| - 1 && s[i] == 'F' && s[i + 1] == 'M';
      assert At(s, "FM", i);
    }
  }

  lemma WantedIsSpelled(payload: seq<Alert>, atoi: string -> int, k: Identity)
    ensures Wanted(payload, atoi, k) <==> Spelled(payload, atoi, k)
  {
    hide Selected, ForFm;
    if Wanted(payload, atoi, k) {
      var i :| 0 <= i < |payload| && Selected(payload[i]) && BuiltKey(payload[i], atoi) == k;
      SelectedIsForFm(payload[i]);
    }
    if Spelled(payload, atoi, k) {
      var i :| 0 <= i < |payload| && ForFm(payload[i]) && k.mo == "SEP" && k.app == "FM"
        && k.sp == (if "specific_problem" in payload[i].labels then atoi(payload[i].labels["specific_problem"]) else 0)
        && k.info == (if "description" in payload[i].annotations then payload[i].annotations["description"] else "");
      SelectedIsForFm(payload[i]);
      assert BuiltKey(payload[i], atoi) == k;
    }
  }

  // ---- reconciliation

  /** Some alert of the payload stands for identity k. */
  predicate Wanted(payload: seq<Alert>, atoi: string -> int, k: Identity) {
    exists i :: 0 <= i < |payload| && Selected(payload[i]) && BuiltKey(payload[i], atoi) == k
  }

  predicate Stale(n: AlarmNotification, payload: seq<Alert>, atoi: string -> int) {
    n.message.alarm.applicationId == "FM" && !Wanted(payload, atoi, n.Key())
  }

  function AsClear(n: AlarmNotification): AlarmNotification {
    n.(message := n.message.(action := Clear))
  }

  function AsRaise(alert: Alert, atoi: string -> int, clock: int): AlarmNotification {
    AlarmNotification(AlarmMessage(BuildAlarm(alert, atoi), Raise, clock), NO_DEFINITION)
  }

  function Clears(active: seq<AlarmNotification>, payload: seq<Alert>, atoi: string -> int): seq<Task> {
    if active == [] then []
    else
      var front, n := Clears(active[..|active| - 1], payload, atoi), active[|active| - 1];
      if Stale(n, payload, atoi) then front + [Pending(AsClear(n))] else front
  }

  function Raises(payload: seq<Alert>, atoi: string -> int, clock: int): seq<Task> {
    if payload == [] then []
    else
      var front, alert := Raises(payload[..|payload| - 1], atoi, clock), payload[|payload| - 1];
      if Selected(alert) then front + [Pending(AsRaise(alert, atoi, clock))] else front
  }

  /** The goroutines one reconciliation starts; the mutex is held, so none of them has begun yet. */
  method ProcessAlerts(active: seq<AlarmNotification>, payload: seq<Alert>, atoi: string -> int, clock: int)
    returns (spawned: seq<Task>)
    ensures spawned == Clears(active, payload, atoi) + Raises(payload, atoi, clock)
    ensures Reconciles(active, payload, atoi, clock, spawned)
  {
    var clears: seq<Task> := [];
    for a := 0 to |active|
      invariant clears == Clears(active[..a], payload, atoi)
    {
      var m := active[a];
      assert active[..a + 1][..a] == active[..a];
      if m.message.alarm.applicationId == "FM" {
        var found := false;
        var p := 0;
        while p < |payload| && !found
          invariant 0 <= p <= |payload|
          invariant found ==> Wanted(payload, atoi, m.Key())
          invariant !found ==> forall i :: 0 <= i < p ==> !(Selected(payload[i]) && BuiltKey(payload[i], atoi) == m.Key())
        {
          if Selected(payload[p]) {
            var built := BuildAlarm(payload[p], atoi);
            if m.message.alarm.managedObjectId == built.managedObjectId
               && m.message.alarm.applicationId == built.applicationId
               && m.SpecificProblem() == built.specificProblem
               && m.message.alarm.identifyingInfo == built.identifyingInfo
            {
              assert BuiltKey(payload[p], atoi) == m.Key();
              found := true;
            }
          }
          p := p + 1;
        }
        if !found {
          clears := clears + [Pending(AsClear(m))];
        }
      }
    }
    assert active[..|active|] == active;
    var raises: seq<Task> := [];
    for p := 0 to |payload|
      invariant raises == Raises(payload[..p], atoi, clock)
    {
      assert payload[..p + 1][..p] == payload[..p];
      if Selected(payload[p]) {
        raises := raises + [Pending(AsRaise(payload[p], atoi, clock))];
      }
    }
    assert payload[..|payload|] == payload;
    SpawnedReconcile(active, payload, atoi, clock);
    spawned := clears + raises;
  }

  lemma {:induction false} ClearsAre(active: seq<AlarmNotification>, payload: seq<Alert>, atoi: string -> int, t: Task)
    ensures t in Clears(active, payload, atoi) <==>
              exists n :: n in active && Stale(n, payload, atoi) && t == Pending(AsClear(n))
  {
    if active != [] {
      var front, last := active[..|active| - 1], active[|active| - 1];
      ClearsAre(front, payload, atoi, t);
      assert active == front + [last];
    }
  }

  lemma {:induction false} RaisesAre(payload: seq<Alert>, atoi: string -> int, clock: int, t: Task)
    ensures t in Raises(payload, atoi, clock) <==>
              exists alert :: alert in payload && Selected(alert) && t == Pending(AsRaise(alert, atoi, clock))
  {
    if payload != [] {
      var front, last := payload[..|payload| - 1], payload[|payload| - 1];
      RaisesAre(front, atoi, clock, t);
      assert payload == front + [last];
    }
  }

  // ---- the reconciliation converges

  predicate About(t: Task, k: Identity) { t.m.Key() == k }

  /** t will take k out of the list when it runs to its end. */
  predicate WillClear(t: Task, k: Identity) {
    About(t, k) && (t.ClearWaiting? || (t.Pending? && t.m.message.action.Clear?))
  }

  predicate WillRaise(t: Task, k: Identity) {
    About(t, k) && t.Pending? && t.m.message.action.Raise?
  }

  /**
   k is on its way: with an identity that is wanted no clear of it is under
   way, and it is active or about to be; with any other no raise of it is, and
   it is gone or about to be.
   */
  ghost predicate Converging(y: System, k: Identity, wanted: bool) {
    && Entries(y.state, k) <= 1
    && if wanted
       then && k.sp in y.state.definitions
            && (forall t :: t in y.tasks ==> !WillClear(t, k))
            && (Entries(y.state, k) == 1 || exists t :: t in y.tasks && WillRaise(t, k))
       else && (k.sp in y.state.definitions ==> forall t :: t in y.tasks ==> !WillRaise(t, k))
            && (Entries(y.state, k) == 0
                || (k.sp in y.state.definitions && exists t :: t in y.tasks && WillClear(t, k)))
  }

  /** Traffic that leaves FM alarms and the definitions alone. */
  predicate Elsewhere(a: Action) {
    match a
    case Arrive(m) => m.message.alarm.applicationId != "FM"
    case Schedule(_) => true
    case SetLimits(_, _) => true
    case Tick(_) => true
    case _ => false
  }

  lemma TaskNext(s: State, t: Task, k: Identity)
    requires Safe(s, t)
    ensures var o := Dispatch(s, t);
            o.next.Some? ==> !WillRaise(o.next.value, k) && (WillClear(o.next.value, k) ==> WillClear(t, k))
  {
    hide Find, Suppressed, UpdateActiveAlarmList;
    NextKeepsKey(s, t);
  }

  lemma ConvergeStep(y: System, i: nat, k: Identity, wanted: bool)
    requires Enabled(y, Schedule(i)) && !IsThreshold(k) && Converging(y, k, wanted)
    ensures Converging(Step(y, Schedule(i)), k, wanted)
  {
    hide IsThreshold, Find, Dispatch, Entries, Remove, Safe;
    var t, o := y.tasks[i], Dispatch(y.state, y.tasks[i]);
    var z := Step(y, Schedule(i));
    assert t in y.tasks;
    DispatchEntries(y.state, t, k);
    DispatchKnows(y.state, t, k.sp);
    TaskNext(y.state, t, k);
    forall u | u in z.tasks ensures u in y.tasks || o.next == Some(u) {
      TasksAfter(y.tasks, i, o.next, u);
    }
    ContinueKeeps(Remove(y.tasks, i), o.next);
    if wanted && Entries(z.state, k) != 1 {
      var u :| u in y.tasks && WillRaise(u, k);
      assert u != t;
      KeepsOthers(y.tasks, i, u);
      assert u in z.tasks;
    }
    if !wanted && Entries(z.state, k) != 0 {
      var u :| u in y.tasks && WillClear(u, k);
      if u == t {
        assert o.next == Some(ClearWaiting(t.m)) && WillClear(o.next.value, k);
        assert o.next.value in z.tasks;
      } else {
        KeepsOthers(y.tasks, i, u);
        assert u in z.tasks;
      }
    }
  }

  lemma {:induction false} ConvergeRun(y: System, run: seq<Action>, k: Identity, wanted: bool)
    requires Possible(y, run) && (forall a :: a in run ==> Elsewhere(a)) && k.app == "FM"
    requires !IsThreshold(k) && Converging(y, k, wanted)
    ensures Converging(After(y, run), k, wanted)
    decreases |run|
  {
    hide IsThreshold, Converging;
    if run != [] {
      assert run[0] in run && forall a :: a in run[1..] ==> a in run;
      if run[0].Schedule? {
        ConvergeStep(y, run[0].i, k, wanted);
      } else {
        ConvergeIdle(y, run[0], k, wanted);
      }
      ConvergeRun(Step(y, run[0]), run[1..], k, wanted);
    }
  }

  lemma ConvergeIdle(y: System, a: Action, k: Identity, wanted: bool)
    requires Elsewhere(a) && !a.Schedule? && k.app == "FM" && Converging(y, k, wanted)
    ensures Converging(Step(y, a), k, wanted)
  {
    hide IsThreshold, Find, Count;
    var z := Step(y, a);
    assert Entries(z.state, k) == Entries(y.state, k);
    forall t | t in z.tasks && t !in y.tasks ensures !About(t, k) {
      assert a.Arrive? && t == Pending(a.m);
    }
    assert forall t :: t in y.tasks ==> t in z.tasks;
  }

  predicate IsFm(t: Task) { t.m.message.alarm.applicationId == "FM" }

  /** No goroutine is about to raise or to clear an FM alarm; recording an FM raise may still be in progress. */
  predicate FmIdle(tasks: seq<Task>) {
    forall t :: t in tasks && IsFm(t) ==> RaiseInFlight(t)
  }

  predicate FmKnown(s: State) {
    forall n :: n in s.active && n.message.alarm.applicationId == "FM" ==> n.SpecificProblem() in s.definitions
  }

  /** The reconciliation has started its goroutines beside those already there. */
  function Reconciling(y: System, payload: seq<Alert>, atoi: string -> int): System {
    y.(tasks := y.tasks + (Clears(y.state.active, payload, atoi) + Raises(payload, atoi, y.state.clock)))
  }

  lemma FmIsOrdinary(k: Identity)
    requires k.app == "FM"
    ensures !IsThreshold(k)
  {
    assert |"FM"| == 2 && |"ALARMMANAGER"| == 12;
  }

  lemma EntryOf(s: State, k: Identity)
    requires Entries(s, k) != 0
    ensures exists n :: n in s.active && n.Key() == k
  {
    hide Find;
    FindCounts(s.active, k);
    assert s.active[Find(s.active, k)] in s.active;
  }

  lemma ReconcilingConverges(y: System, payload: seq<Alert>, atoi: string -> int, k: Identity)
    requires k.app == "FM" && Entries(y.state, k) <= 1 && FmIdle(y.tasks) && FmKnown(y.state)
    ensures Converging(Reconciling(y, payload, atoi), k, Wanted(payload, atoi, k) && k.sp in y.state.definitions)
  {
    hide Find, Entries, Clears, Raises, Wanted, BuildAlarm;
    var z := Reconciling(y, payload, atoi);
    var wanted := Wanted(payload, atoi, k) && k.sp in y.state.definitions;
    forall t | t in z.tasks && About(t, k)
      ensures t in y.tasks || t in Clears(y.state.active, payload, atoi) || t in Raises(payload, atoi, y.state.clock)
      ensures WillClear(t, k) ==> !Wanted(payload, atoi, k)
      ensures WillRaise(t, k) ==> Wanted(payload, atoi, k)
    {
      ClearsAre(y.state.active, payload, atoi, t);
      RaisesAre(payload, atoi, y.state.clock, t);
      assert IsFm(t);
      if t in Raises(payload, atoi, y.state.clock) { RaisedIsWanted(payload, atoi, y.state.clock, t); }
    }
    if wanted {
      var t := WantedIsRaised(payload, atoi, y.state.clock, k);
      assert t in z.tasks;
    } else if Entries(y.state, k) != 0 {
      EntryOf(y.state, k);
      var n :| n in y.state.active && n.Key() == k;
      ClearsAre(y.state.active, payload, atoi, Pending(AsClear(n)));
      assert Pending(AsClear(n)) in z.tasks && WillClear(Pending(AsClear(n)), k);
    }
  }

  lemma RaisedIsWanted(payload: seq<Alert>, atoi: string -> int, clock: int, t: Task)
    requires t in Raises(payload, atoi, clock)
    ensures t.Pending? && t.m.message.action.Raise? && Wanted(payload, atoi, t.m.Key())
  {
    hide BuildAlarm;
    RaisesAre(payload, atoi, clock, t);
    var alert :| alert in payload && Selected(alert) && t == Pending(AsRaise(alert, atoi, clock));
    var i :| 0 <= i < |payload| && payload[i] == alert;
    assert Selected(payload[i]) && BuiltKey(payload[i], atoi) == t.m.Key();
  }

  lemma WantedIsRaised(payload: seq<Alert>, atoi: string -> int, clock: int, k: Identity) returns (t: Task)
    requires Wanted(payload, atoi, k)
    ensures t in Raises(payload, atoi, clock) && WillRaise(t, k)
  {
    hide BuildAlarm;
    var i :| 0 <= i < |payload| && Selected(payload[i]) && BuiltKey(payload[i], atoi) == k;
    t := Pending(AsRaise(payload[i], atoi, clock));
    RaisesAre(payload, atoi, clock, t);
  }

  /**
   Reconciliation is confluent. From any reachable state with no FM message
   under way, let the goroutines of one reconciliation run in any order, with
   any delays and any amount of traffic about other applications. Once they
   are done, the active identities of application "FM" are exactly those the
   labels and annotations of the FM alerts in the payload spell out and whose SP
   is defined.
   */
  lemma ReconciliationConverges(y0: System, before: seq<Action>, payload: seq<Alert>, atoi: string -> int,
                                run: seq<Action>, k: Identity)
    requires Started(y0) && Possible(y0, before) && k.app == "FM"
    requires FmIdle(After(y0, before).tasks) && FmKnown(After(y0, before).state)
    requires Possible(Reconciling(After(y0, before), payload, atoi), run)
    requires forall a :: a in run ==> Elsewhere(a)
    requires FmIdle(After(Reconciling(After(y0, before), payload, atoi), run).tasks)
    ensures var y := After(y0, before);
            var end := After(Reconciling(y, payload, atoi), run).state;
            Entries(end, k) == if Spelled(payload, atoi, k) && k.sp in y.state.definitions then 1 else 0
  {
    WantedIsSpelled(payload, atoi, k);
    hide Find, Entries, Reconciling, Wanted, Spelled, Possible, After, Step, IsThreshold;
    var y := After(y0, before);
    FmIsOrdinary(k);
    assert Entries(y.state, k) <= 1 by { StartedSole(y0, k); RunSole(y0, before, k); SoleEntries(y, k); }
    var wanted := Wanted(payload, atoi, k) && k.sp in y.state.definitions;
    ReconcilingConverges(y, payload, atoi, k);
    ConvergeRun(Reconciling(y, payload, atoi), run, k, wanted);
    var z := After(Reconciling(y, payload, atoi), run);
    assert forall t :: t in z.tasks && About(t, k) ==> IsFm(t);
  }

  lemma SoleEntries(y: System, k: Identity)
    requires Sole(y, k)
    ensures Entries(y.state, k) <= 1
  {
  }

  // ---- no echo

  /** The labels and annotations of a posted alert; for FM alarms there are none and nothing is posted. */
  function GenerateAlert(definitions: map<int, AlarmDefinition>, id: string, a: Alarm, status: string, sp: string,
                         timestamp: string): Option<Alert>
    requires a.specificProblem in definitions || Contains(a.applicationId, "FM")
  {
    if Contains(a.applicationId, "FM") then None
    else
      var d := definitions[a.specificProblem];
      Some(Alert(
        map["status" := status, "alertname" := d.alarmText, "severity" := a.perceivedSeverity,
            "service" := Service(a), "info" := a.identifyingInfo, "system_name" := "RIC"],
        map["alarm_id" := id, "specific_problem" := sp, "event_type" := d.eventType,
            "identifying_info" := a.identifyingInfo, "additional_info" := a.additionalInfo,
            "description" := a.identifyingInfo + ":" + a.additionalInfo, "summary" := a.identifyingInfo,
            "instructions" := d.operationInstructions, "timestamp" := timestamp]))
  }

  function Service(a: Alarm): string { a.managedObjectId + "/" + a.applicationId }

  lemma PartOfLeft(x: string, y: string, part: string)
    requires Contains(x, part)
    ensures Contains(x + y, part)
  {
    var i :| 0 <= i <= |x| && At(x, part, i);
    assert (x + y)[i..i + |part|] == x[i..i + |part|];
    assert At(x + y, part, i);
  }

  lemma PartOfRight(x: string, y: string, part: string)
    requires Contains(y, part)
    ensures Contains(x + y, part)
  {
    var i :| 0 <= i <= |y| && At(y, part, i);
    assert (x + y)[|x| + i..|x| + i + |part|] == y[i..i + |part|];
    assert At(x + y, part, |x| + i);
  }

  lemma CharOfPart(s: string, part: string, i: int, j: int)
    requires At(s, part, i) && i <= j < i + |part|
    ensures s[j] in part
  {
    assert s[j] == s[i..i + |part|][j - i];
  }

  lemma AtLeft(x: string, y: string, part: string, i: int)
    requires At(x + y, part, i) && i + |part| <= |x|
    ensures Contains(x, part)
  {
    assert x[i..i + |part|] == (x + y)[i..i + |part|];
    assert At(x, part, i);
  }

  lemma AtRight(x: string, y: string, part: string, i: int)
    requires At(x + y, part, i) && i >= |x|
    ensures Contains(y, part)
  {
    assert y[i - |x|..i - |x| + |part|] == (x + y)[i..i + |part|];
    assert At(y, part, i - |x|);
  }

  /** A part that does not hold the separator is found in the joined text only if it is found on one side of it. */
  lemma ContainsAcross(x: string, sep: char, y: string, part: string)
    requires sep !in part && part != []
    ensures Contains(x + [sep] + y, part) <==> Contains(x, part) || Contains(y, part)
  {
    hide At, Contains;
    var left, s := x + [sep], x + [sep] + y;
    assert s[|x|] == sep;
    if Contains(x, part) {
      PartOfLeft(x, [sep], part);
      PartOfLeft(left, y, part);
    }
    if Contains(y, part) { PartOfRight(left, y, part); }
    if Contains(s, part) {
      var i := Position(s, part);
      if i <= |x| < i + |part| {
        CharOfPart(s, part, i, |x|);
        assert false;
      } else if i <= |x| {
        assert x + ([sep] + y) == s;
        AtLeft(x, [sep] + y, part, i);
      } else {
        AtRight(left, y, part, i);
      }
    }
  }

  lemma Position(s: string, part: string) returns (i: int)
    requires Contains(s, part)
    ensures 0 <= i <= |s| && At(s, part, i)
  {
    i :| 0 <= i <= |s| && At(s, part, i);
  }

  /**
   An alert the manager posts is taken up again by ProcessAlerts exactly if its
   managed object contains "FM"; and what it is then taken for has SP 0 and
   application FM, so that it is never posted in turn.
   */
  lemma NoEcho(definitions: map<int, AlarmDefinition>, id: string, a: Alarm, status: string, sp: string,
               timestamp: string, atoi: string -> int)
    requires a.specificProblem in definitions || Contains(a.applicationId, "FM")
    ensures var posted := GenerateAlert(definitions, id, a, status, sp, timestamp);
            && (posted.None? <==> Contains(a.applicationId, "FM"))
            && (posted.Some? ==>
                  && (Selected(posted.value) <==> Contains(a.managedObjectId, "FM"))
                  && var echo := BuildAlarm(posted.value, atoi);
                  && IdentityOf(echo) == Identity("SEP", "FM", 0, a.identifyingInfo + ":" + a.additionalInfo)
                  && Contains(echo.applicationId, "FM"))
  {
    assert '/' !in "FM";
    ContainsAcross(a.managedObjectId, '/', a.applicationId, "FM");
    assert Service(a) == a.managedObjectId + ['/'] + a.applicationId;
    assert At("FM", "FM", 0);
  }

  /** What a posted alert says, label by label and annotation by annotation. */
  lemma PostedTells(definitions: map<int, AlarmDefinition>, id: string, a: Alarm, status: string, sp: string,
                    timestamp: string)
    requires a.specificProblem in definitions && !Contains(a.applicationId, "FM")
    ensures var posted, d := GenerateAlert(definitions, id, a, status, sp, timestamp), definitions[a.specificProblem];
            && posted.Some?
            && var l, n := posted.value.labels, posted.value.annotations;
            && l.Keys == {"status", "alertname", "severity", "service", "info", "system_name"}
            && l["status"] == status && l["alertname"] == d.alarmText && l["severity"] == a.perceivedSeverity
            && l["service"] == a.managedObjectId + "/" + a.applicationId
            && l["info"] == a.identifyingInfo && l["system_name"] == "RIC"
            && n.Keys == {"alarm_id", "specific_problem", "event_type", "identifying_info", "additional_info",
                          "description", "summary", "instructions", "timestamp"}
            && n["alarm_id"] == id && n["specific_problem"] == sp && n["event_type"] == d.eventType
            && n["identifying_info"] == n["summary"] == a.identifyingInfo && n["additional_info"] == a.additionalInfo
            && n["description"] == a.identifyingInfo + ":" + a.additionalInfo
            && n["instructions"] == d.operationInstructions && n["timestamp"] == timestamp
  {
    hide Contains;
  }

  lemma SameSides(x: string, y: string, x': string, y': string)
    requires x + "/" + y == x' + "/" + y' && '/' !in x && '/' !in x'
    ensures x == x' && y == y'
  {
    var s := x + "/" + y;
    assert s[|x|] == '/' && s[|x'|] == '/';
    assert forall i :: 0 <= i < |x| ==> s[i] == x[i] && x[i] in x;
    assert forall i :: 0 <= i < |x'| ==> s[i] == x'[i] && x'[i] in x';
    assert |x| == |x'|;
    assert s[..|x|] == x && s[..|x'|] == x' && s[|x| + 1..] == y && s[|x'| + 1..] == y';
  }

  /** Two alarms are posted alike only if they are alike, as long as no managed object holds the separator. */
  lemma PostedIdentifies(definitions: map<int, AlarmDefinition>, id: string, status: string, timestamp: string,
                         a: Alarm, b: Alarm, text: int -> string)
    requires a.specificProblem in definitions && !Contains(a.applicationId, "FM") && '/' !in a.managedObjectId
    requires b.specificProblem in definitions && !Contains(b.applicationId, "FM") && '/' !in b.managedObjectId
    requires text(a.specificProblem) == text(b.specificProblem) ==> a.specificProblem == b.specificProblem
    requires GenerateAlert(definitions, id, a, status, text(a.specificProblem), timestamp)
             == GenerateAlert(definitions, id, b, status, text(b.specificProblem), timestamp)
    ensures a == b
  {
    PostedTells(definitions, id, a, status, text(a.specificProblem), timestamp);
    PostedTells(definitions, id, b, status, text(b.specificProblem), timestamp);
    hide GenerateAlert, Contains;
    SameSides(a.managedObjectId, a.applicationId, b.managedObjectId, b.applicationId);
  }
}
