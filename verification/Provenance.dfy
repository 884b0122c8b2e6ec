/**
 Nothing is made up. Every active alarm and every RAISE record carries,
 unchanged, a message that arrived, and everything listed is labelled with the
 text and the event type of its definition.
 */
module Provenance {
  import opened AlarmTypes
  import opened Counting
  import opened AlarmTable
  import opened Protocol
  import opened Durability
  import opened Ids
  import opened Sections
  import opened Definitions

  // ---- messages

  function Arrivals(run: seq<Action>): set<AlarmMessage> {
    set a | a in run && a.Arrive? :: a.m.message
  }

  /** The CLEARs of the TTL timer: of each entry it finds too old, as of the moment of the visit. */
  function Timeouts(y: System, run: seq<Action>): set<AlarmMessage>
    requires Possible(y, run)
    decreases |run|
  {
    if run == [] then {}
    else
      var a := run[0];
      (if a.Expire? && Outlived(y.state.definitions, y.state.clock, a.n)
       then {AlarmMessage(a.n.message.alarm, Clear, y.state.clock)} else {})
      + Timeouts(Step(y, a), run[1..])
  }

  /** The times the clock showed. */
  function Clocks(y: System, run: seq<Action>): set<int>
    requires Possible(y, run)
    decreases |run|
  {
    {y.state.clock} + if run == [] then {} else Clocks(Step(y, run[0]), run[1..])
  }

  /** Where messages can come from. */
  datatype Sources = Sources(arrived: set<AlarmMessage>, timedOut: set<AlarmMessage>, clocks: set<int>)

  /** What the manager says when a limit is met, at one of these times. */
  predicate IsWarning(m: AlarmMessage, clocks: set<int>) {
    && m.action.Raise? && m.alarmTime in clocks
    && m.alarm.managedObjectId == "SEP" && m.alarm.applicationId == "ALARMMANAGER"
    && m.alarm.perceivedSeverity == "WARNING" && m.alarm.additionalInfo == "threshold"
    && ((m.alarm.specificProblem == 72007 && m.alarm.identifyingInfo == "active")
        || (m.alarm.specificProblem == 72008 && m.alarm.identifyingInfo == "history"))
  }

  predicate Announced(n: AlarmNotification, ledger: seq<Event>) {
    Generated(n.Tag(), false) in ledger || Generated(n.Tag(), true) in ledger
  }

  /** The message of n is one that arrived, a warning, or a CLEAR of the TTL timer, and its id was given to it. */
  predicate Genuine(n: AlarmNotification, from: Sources, ledger: seq<Event>) {
    match n.message.action
    case Raise =>
      || (n.message in from.arrived && Accepted(n.Tag()) in ledger)
      || (IsWarning(n.message, from.clocks) && Announced(n, ledger))
    case Clear => n.message in from.arrived || n.message in from.timedOut
    case Other(_) => false
  }

  predicate ListsGenuine(m: Snapshot, from: Sources, ledger: seq<Event>) {
    && (forall n :: n in m.active ==> n.message.action.Raise? && Genuine(n, from, ledger))
    && (forall n :: n in m.history ==> Genuine(n, from, ledger))
  }

  predicate StateGenuine(s: State, from: Sources) { ListsGenuine(Memory(s), from, s.ledger) }

  predicate TaskGenuine(t: Task, from: Sources, ledger: seq<Event>) {
    match t
    case Pending(m) => m.message in from.arrived
    case RaiseWaiting(m) => m.message.action.Raise? && m.message in from.arrived && Accepted(m.Tag()) in ledger
    case RaisePublishing(m) => m.message.action.Raise? && m.message in from.arrived && Accepted(m.Tag()) in ledger
    case ClearWaiting(m) => m.message.action.Clear? && (m.message in from.arrived || m.message in from.timedOut)
  }

  predicate SystemGenuine(y: System, from: Sources) {
    && StateGenuine(y.state, from) && ListsGenuine(Restored(y.state.file), from, y.state.ledger)
    && (forall t :: t in y.tasks ==> TaskGenuine(t, from, y.state.ledger))
  }

  lemma LedgerKeeps(n: AlarmNotification, from: Sources, ledger: seq<Event>, longer: seq<Event>)
    requires ledger <= longer && Genuine(n, from, ledger)
    ensures Genuine(n, from, longer)
  {
    assert forall e :: e in ledger ==> e in longer;
  }

  lemma ListsKeep(m: Snapshot, from: Sources, ledger: seq<Event>, longer: seq<Event>)
    requires ledger <= longer && ListsGenuine(m, from, ledger)
    ensures ListsGenuine(m, from, longer)
  {
    hide Genuine;
    forall n | n in m.active || n in m.history ensures Genuine(n, from, longer) { LedgerKeeps(n, from, ledger, longer); }
  }

  /** A section that adds genuine entries and records to what was there. */
  lemma Grows(s: State, t: State, from: Sources)
    requires StateGenuine(s, from) && s.ledger <= t.ledger
    requires forall n :: n in t.active ==> n in s.active || (n.message.action.Raise? && Genuine(n, from, t.ledger))
    requires forall n :: n in t.history ==> n in s.history || Genuine(n, from, t.ledger)
    ensures StateGenuine(t, from)
  {
    hide Genuine;
    ListsKeep(Memory(s), from, s.ledger, t.ledger);
  }

  lemma GenerateGenuine(s: State, sp: int, data: string, onClear: bool, from: Sources)
    requires sp in s.definitions && StateGenuine(s, from) && s.clock in from.clocks
    requires (sp == 72007 && data == "active") || (sp == 72008 && data == "history")
    ensures StateGenuine(GenerateThresholdAlarm(s, sp, data, onClear), from)
  {
    var t := GenerateThresholdAlarm(s, sp, data, onClear);
    var n := t.active[|s.active|];
    assert t.ledger[|s.ledger|] == Generated(n.Tag(), onClear);
    assert IsWarning(n.message, from.clocks);
    hide IsWarning, StateGenuine;
    Grows(s, t, from);
  }

  lemma LatchGenuine(s: State, t: State, from: Sources)
    requires StateGenuine(s, from) && Memory(t) == Memory(s) && t.ledger == s.ledger
    ensures StateGenuine(t, from)
  {
  }

  lemma WarnGenuine(s: State, from: Sources)
    requires StateGenuine(s, from) && s.clock in from.clocks
    ensures ActiveThresholdReady(s) ==> StateGenuine(WarnActive(s), from)
    ensures HistoryThresholdReady(s) ==>
              StateGenuine(WarnHistory(s), from) && StateGenuine(WarnHistoryOnClear(s), from)
  {
    hide StateGenuine, GenerateThresholdAlarm;
    if ActiveLimitHit(s) && ActiveThresholdReady(s) {
      GenerateGenuine(s, 72007, "active", false, from);
      LatchGenuine(GenerateThresholdAlarm(s, 72007, "active", false), WarnActive(s), from);
    }
    if HistoryLimitHit(s) && HistoryThresholdReady(s) {
      GenerateGenuine(s, 72008, "history", false, from);
      GenerateGenuine(s, 72008, "history", true, from);
      LatchGenuine(GenerateThresholdAlarm(s, 72008, "history", false), WarnHistory(s), from);
    }
  }

  lemma AcceptGenuine(s: State, m: AlarmNotification, from: Sources)
    requires m.SpecificProblem() in s.definitions && ActiveThresholdReady(s)
    requires StateGenuine(s, from) && s.clock in from.clocks && m.message in from.arrived && m.message.action.Raise?
    ensures var o := Accept(s, m);
            StateGenuine(o.state, from) && o.next.Some? && TaskGenuine(o.next.value, from, o.state.ledger)
  {
    var n := AcceptedAlarm(s, m);
    var s1 := Allocate(s, n);
    var s2, t := WarnActive(s1), Accept(s, m).state;
    assert s1.ledger[|s.ledger|] == Accepted(n.Tag()) && s1.ledger <= s2.ledger == t.ledger;
    assert s2.ledger[|s.ledger|] == Accepted(n.Tag());
    hide StateGenuine, WarnActive;
    Grows(s, s1, from);
    WarnGenuine(s1, from);
    Grows(s2, t, from);
  }

  lemma ClearGenuine(s: State, m: AlarmNotification, idx: nat, from: Sources)
    requires idx < |s.active| && m.SpecificProblem() in s.definitions && HistoryThresholdReady(MoveToHistory(s, m, idx))
    requires StateGenuine(s, from) && s.clock in from.clocks
    requires m.message.action.Clear? && (m.message in from.arrived || m.message in from.timedOut)
    ensures StateGenuine(FinishClear(s, m, idx), from)
  {
    var s1 := MoveToHistory(s, m, idx);
    var s2, t := WarnHistoryOnClear(s1), FinishClear(s, m, idx);
    hide StateGenuine, WarnHistoryOnClear, IsWarning, Announced;
    Grows(s, s1, from);
    WarnGenuine(s1, from);
    Grows(s2, t, from);
  }

  lemma UnhideGenuine(s: State, idx: nat, from: Sources)
    requires idx < |s.active| && StateGenuine(s, from)
    ensures StateGenuine(Unhide(s, idx), from)
  {
    var n := s.active[idx].WithRaiseDelay(0);
    assert n.message == s.active[idx].message && n.Tag() == s.active[idx].Tag();
    assert s.active[idx] in s.active;
    hide IsWarning;
    Grows(s, Unhide(s, idx), from);
  }

  lemma PublishGenuine(s: State, m: AlarmNotification, from: Sources)
    requires HistoryThresholdReady(s) && StateGenuine(s, from) && s.clock in from.clocks
    requires TaskGenuine(RaisePublishing(m), from, s.ledger)
    ensures StateGenuine(Publish(s, m), from)
  {
    var n, s1 := m.WithRaiseDelay(0), WarnHistory(s);
    assert n.message == m.message && n.Tag() == m.Tag() && s.ledger <= s1.ledger;
    hide StateGenuine, IsWarning, Announced;
    LedgerKeeps(n, from, s.ledger, s1.ledger);
    WarnGenuine(s, from);
    hide WarnHistory;
    Grows(s1, Publish(s, m), from);
  }

  lemma VacateGenuine(s: State, m: AlarmNotification, from: Sources)
    requires StateGenuine(s, from)
    ensures StateGenuine(Vacated(s, m), from)
  {
    hide Find, Genuine;
    Grows(s, Vacated(s, m), from);
  }

  lemma DispatchGenuine(s: State, t: Task, from: Sources)
    requires Safe(s, t) && StateGenuine(s, from) && s.clock in from.clocks && TaskGenuine(t, from, s.ledger)
    ensures var o := Dispatch(s, t);
            StateGenuine(o.state, from) && (o.next.Some? ==> TaskGenuine(o.next.value, from, o.state.ledger))
  {
    hide Find, StateGenuine, Suppressed, Vacated, Accept, FinishClear, Publish, MoveToHistory, HistoryThresholdReady;
    var m, idx := t.m, Find(s.active, t.m.Key());
    match t
    case Pending(_) =>
      if m.SpecificProblem() in s.definitions {
        if m.message.action.Raise? && !Suppressed(s, m) {
          VacateGenuine(s, m, from);
          VacatedDefinitions(s, m);
          AcceptGenuine(Vacated(s, m), m, from);
        } else if m.message.action.Clear? && idx >= 0 && s.definitions[m.SpecificProblem()].clearDelay <= 0 {
          ClearGenuine(s, m, idx, from);
        }
      }
    case RaiseWaiting(_) =>
      if idx >= 0 { UnhideGenuine(s, idx, from); } else { LogGenuine(s, Dropped(m.Tag()), from); }
    case RaisePublishing(_) => PublishGenuine(s, m, from);
    case ClearWaiting(_) => if idx >= 0 { ClearGenuine(s, m, idx, from); }
  }

  lemma LogGenuine(s: State, e: Event, from: Sources)
    requires StateGenuine(s, from)
    ensures StateGenuine(s.(ledger := s.ledger + [e]), from)
  {
    hide Genuine;
    Grows(s, s.(ledger := s.ledger + [e]), from);
  }

  lemma LedgerGrows(y: System, a: Action)
    requires Enabled(y, a)
    ensures y.state.ledger <= Step(y, a).state.ledger
  {
    hide Find, Dispatch, FinishClear, ApplyAll;
    if !a.Crash? && !a.Define? && !a.Undefine? { StepTracked(y, a); }
  }

  /** What an action can bring in is among the sources. */
  predicate Supplies(from: Sources, y: System, a: Action) {
    && y.state.clock in from.clocks
    && (a.Arrive? ==> a.m.message in from.arrived)
    && (a.Expire? && Outlived(y.state.definitions, y.state.clock, a.n) ==>
          AlarmMessage(a.n.message.alarm, Clear, y.state.clock) in from.timedOut)
  }

  /** What TTL expiry leaves, and the goroutine it may become. */
  lemma ExpireGenuine(y: System, n: AlarmNotification, idx: nat, from: Sources)
    requires Enabled(y, Expire(n, idx)) && SystemGenuine(y, from) && Supplies(from, y, Expire(n, idx))
    ensures var z := Step(y, Expire(n, idx));
            && StateGenuine(z.state, from)
            && forall t :: t in z.tasks ==> t in y.tasks || TaskGenuine(t, from, z.state.ledger)
  {
    hide Find, FinishClear, StateGenuine, ListsGenuine, Expired, MoveToHistory, HistoryThresholdReady;
    ExpiredMeans(y.state.definitions, y.state.clock, n);
    if Expired(y.state.definitions, y.state.clock, n) {
      var m := ExpiryMessage(y.state, n);
      assert m.message == AlarmMessage(n.message.alarm, Clear, y.state.clock);
      if y.state.definitions[m.SpecificProblem()].clearDelay <= 0 { ClearGenuine(y.state, m, idx, from); }
    }
  }

  lemma StepGenuine(y: System, a: Action, from: Sources)
    requires Enabled(y, a) && SystemGenuine(y, from) && Supplies(from, y, a)
    ensures SystemGenuine(Step(y, a), from)
  {
    hide Find, Dispatch, ListsGenuine, Safe, Supplies, TaskGenuine, BeginClear, Remove, Expired, Outlived;
    var z := Step(y, a);
    StepFile(y, a);
    LedgerGrows(y, a);
    ListsKeep(Restored(y.state.file), from, y.state.ledger, z.state.ledger);
    forall t | t in y.tasks ensures TaskGenuine(t, from, z.state.ledger) {
      TaskKeeps(t, from, y.state.ledger, z.state.ledger);
    }
    if a.Schedule? {
      ScheduleGenuine(y, a.i, from);
    } else if a.Expire? {
      ExpireGenuine(y, a.n, a.idx, from);
    } else {
      IdleGenuine(y, a, from);
    }
  }

  lemma TaskKeeps(t: Task, from: Sources, ledger: seq<Event>, longer: seq<Event>)
    requires ledger <= longer && TaskGenuine(t, from, ledger)
    ensures TaskGenuine(t, from, longer)
  {
    assert forall e :: e in ledger ==> e in longer;
  }

  lemma ScheduleGenuine(y: System, i: nat, from: Sources)
    requires Enabled(y, Schedule(i)) && SystemGenuine(y, from) && Supplies(from, y, Schedule(i))
    ensures var z := Step(y, Schedule(i));
            && StateGenuine(z.state, from)
            && forall t :: t in z.tasks ==> t in y.tasks || TaskGenuine(t, from, z.state.ledger)
  {
    hide Find, Dispatch, StateGenuine, ListsGenuine, Safe, TaskGenuine;
    assert y.tasks[i] in y.tasks;
    DispatchGenuine(y.state, y.tasks[i], from);
    assert forall t :: t in Remove(y.tasks, i) ==> t in y.tasks;
  }

  lemma IdleGenuine(y: System, a: Action, from: Sources)
    requires SystemGenuine(y, from) && Supplies(from, y, a) && !a.Schedule? && !a.Expire?
    ensures var z := Step(y, a);
            && StateGenuine(z.state, from)
            && forall t :: t in z.tasks ==> t in y.tasks || TaskGenuine(t, from, z.state.ledger)
  {
    hide Genuine;
    ListsKeep(Restored(y.state.file), from, y.state.ledger, Step(y, a).state.ledger);
  }

  lemma {:induction false} RunGenuine(y: System, run: seq<Action>, from: Sources)
    requires Possible(y, run) && SystemGenuine(y, from)
    requires Arrivals(run) <= from.arrived && Timeouts(y, run) <= from.timedOut && Clocks(y, run) <= from.clocks
    ensures SystemGenuine(After(y, run), from)
    decreases |run|
  {
    hide Step, Enabled, SystemGenuine, Outlived;
    if run != [] {
      assert run[0] in run && forall a :: a in run[1..] ==> a in run;
      StepGenuine(y, run[0], from);
      RunGenuine(Step(y, run[0]), run[1..], from);
    }
  }

  /**
   In every reachable state and saved file, restarts included: the message of
   an active entry and of a RAISE record is a RAISE that arrived, as it arrived,
   or a warning of the manager with a time the clock showed, and its id was given
   out for the one or the other; and the message of a CLEAR record is a CLEAR that
   arrived, as it arrived, or that of an entry the TTL timer found too old, with
   the clock at that visit for its time.
   */
  lemma MessagesAreVerbatim(y0: System, run: seq<Action>)
    requires Started(y0) && Possible(y0, run)
    ensures var s, from := After(y0, run).state, Sources(Arrivals(run), Timeouts(y0, run), Clocks(y0, run));
            ListsGenuine(Memory(s), from, s.ledger) && ListsGenuine(Restored(s.file), from, s.ledger)
  {
    RunGenuine(y0, run, Sources(Arrivals(run), Timeouts(y0, run), Clocks(y0, run)));
  }

  // ---- labels

  /** n shows the text and event type of the definition of its SP. */
  predicate Labelled(definitions: map<int, AlarmDefinition>, n: AlarmNotification) {
    && n.SpecificProblem() in definitions
    && n.definition.alarmText == definitions[n.SpecificProblem()].alarmText
    && n.definition.eventType == definitions[n.SpecificProblem()].eventType
  }

  /** n has the RaiseDelay of its definition, or none. */
  predicate Delayed(definitions: map<int, AlarmDefinition>, n: AlarmNotification) {
    && n.SpecificProblem() in definitions
    && (n.definition.raiseDelay == 0 || n.definition.raiseDelay == definitions[n.SpecificProblem()].raiseDelay)
  }

  /** An ordinary RAISE record shows no RaiseDelay. */
  predicate Recorded(n: AlarmNotification) {
    n.message.action.Raise? && !IsThreshold(n.Key()) ==> n.definition.raiseDelay == 0
  }

  predicate AllLabelled(s: State) {
    && (forall n :: n in s.active ==> Labelled(s.definitions, n) && Delayed(s.definitions, n))
    && (forall n :: n in s.history ==> Labelled(s.definitions, n) && Recorded(n))
  }

  /** A raise in flight is labelled, and sleeps only for the positive RaiseDelay of its definition. */
  predicate TaskLabelled(definitions: map<int, AlarmDefinition>, t: Task) {
    && Formed(t)
    && (RaiseInFlight(t) ==> Labelled(definitions, t.m))
    && (t.RaiseWaiting? ==> 0 < t.m.definition.raiseDelay == definitions[t.m.SpecificProblem()].raiseDelay)
  }

  /** No definition has gone, been relabelled or got another RaiseDelay; new ones may have come. */
  predicate SameLabels(s: State, t: State) {
    forall k :: k in s.definitions ==>
      && k in t.definitions && t.definitions[k].alarmText == s.definitions[k].alarmText
      && t.definitions[k].eventType == s.definitions[k].eventType
      && t.definitions[k].raiseDelay == s.definitions[k].raiseDelay
  }

  ghost predicate LabelInv(y: System) {
    AllLabelled(y.state) && forall t :: t in y.tasks ==> TaskLabelled(y.state.definitions, t)
  }

  lemma WarnLabels(s: State)
    requires AllLabelled(s)
    ensures ActiveThresholdReady(s) ==> AllLabelled(WarnActive(s)) && SameLabels(s, WarnActive(s))
    ensures HistoryThresholdReady(s) ==> AllLabelled(WarnHistory(s)) && SameLabels(s, WarnHistory(s))
    ensures HistoryThresholdReady(s) ==> AllLabelled(WarnHistoryOnClear(s)) && SameLabels(s, WarnHistoryOnClear(s))
  {
    if ActiveLimitHit(s) && ActiveThresholdReady(s) {
      GenerateLabels(s, ACTIVE_ALARM_EXCEED_MAX_THRESHOLD, "active", false);
    }
    if HistoryLimitHit(s) && HistoryThresholdReady(s) {
      GenerateLabels(s, ALARM_HISTORY_EXCEED_MAX_THRESHOLD, "history", false);
      GenerateLabels(s, ALARM_HISTORY_EXCEED_MAX_THRESHOLD, "history", true);
    }
  }

  lemma GenerateLabels(s: State, sp: int, data: string, onClear: bool)
    requires sp in s.definitions && AllLabelled(s)
    requires (sp == 72007 && data == "active") || (sp == 72008 && data == "history")
    ensures var t := GenerateThresholdAlarm(s, sp, data, onClear); AllLabelled(t) && SameLabels(s, t)
  {
  }

  lemma AcceptLabels(s: State, m: AlarmNotification)
    requires m.SpecificProblem() in s.definitions && ActiveThresholdReady(s) && AllLabelled(s)
    requires m.message.action.Raise?
    ensures var o := Accept(s, m);
            && AllLabelled(o.state) && SameLabels(s, o.state)
            && o.next.Some? && TaskLabelled(o.state.definitions, o.next.value)
  {
    var n := AcceptedAlarm(s, m);
    WarnLabels(Allocate(s, n));
    assert Labelled(WarnActive(Allocate(s, n)).definitions, n) && Delayed(WarnActive(Allocate(s, n)).definitions, n);
  }

  lemma ClearLabels(s: State, m: AlarmNotification, idx: nat)
    requires idx < |s.active| && m.SpecificProblem() in s.definitions && AllLabelled(s) && m.message.action.Clear?
    requires HistoryThresholdReady(MoveToHistory(s, m, idx))
    ensures AllLabelled(FinishClear(s, m, idx)) && SameLabels(s, FinishClear(s, m, idx))
  {
    WarnLabels(MoveToHistory(s, m, idx));
  }

  lemma UnhideLabels(s: State, idx: nat)
    requires idx < |s.active| && AllLabelled(s)
    ensures AllLabelled(Unhide(s, idx)) && SameLabels(s, Unhide(s, idx))
  {
    assert s.active[idx] in s.active;
    assert Labelled(s.definitions, s.active[idx].WithRaiseDelay(0)) && Delayed(s.definitions, s.active[idx].WithRaiseDelay(0));
  }

  lemma PublishLabels(s: State, m: AlarmNotification)
    requires HistoryThresholdReady(s) && AllLabelled(s) && Labelled(s.definitions, m)
    ensures AllLabelled(Publish(s, m)) && SameLabels(s, Publish(s, m))
  {
    WarnLabels(s);
    assert Labelled(WarnHistory(s).definitions, m.WithRaiseDelay(0));
  }

  lemma VacateLabels(s: State, m: AlarmNotification)
    requires AllLabelled(s)
    ensures AllLabelled(Vacated(s, m)) && Vacated(s, m).definitions == s.definitions
  {
    hide Find;
  }

  lemma DispatchLabels(s: State, t: Task)
    requires Safe(s, t) && AllLabelled(s) && TaskLabelled(s.definitions, t)
    ensures var o := Dispatch(s, t);
            && AllLabelled(o.state) && SameLabels(s, o.state)
            && (o.next.Some? ==> TaskLabelled(o.state.definitions, o.next.value))
  {
    hide Find, AllLabelled, Labelled, Suppressed, Vacated, Accept, FinishClear, Publish, Unhide;
    var m, idx := t.m, Find(s.active, t.m.Key());
    LoggedLabels(s, Dropped(m.Tag()));
    match t
    case Pending(_) =>
      if m.SpecificProblem() in s.definitions {
        if m.message.action.Raise? && !Suppressed(s, m) {
          VacateLabels(s, m);
          AcceptLabels(Vacated(s, m), m);
        } else if m.message.action.Clear? && idx >= 0 && s.definitions[m.SpecificProblem()].clearDelay <= 0 {
          ClearLabels(s, m, idx);
        }
      }
    case RaiseWaiting(_) =>
      if idx >= 0 {
        UnhideLabels(s, idx);
        StillLabelled(s, Unhide(s, idx), m);
      }
    case RaisePublishing(_) => PublishLabels(s, m);
    case ClearWaiting(_) => if idx >= 0 { ClearLabels(s, m, idx); }
  }

  lemma LoggedLabels(s: State, e: Event)
    ensures AllLabelled(s.(ledger := s.ledger + [e])) == AllLabelled(s)
  {
  }

  lemma StillLabelled(s: State, t: State, n: AlarmNotification)
    requires SameLabels(s, t) && Labelled(s.definitions, n)
    ensures Labelled(t.definitions, n)
  {
  }

  lemma TaskStaysLabelled(s: State, t: State, u: Task)
    requires SameLabels(s, t) && TaskLabelled(s.definitions, u)
    ensures TaskLabelled(t.definitions, u)
  {
  }

  lemma StepLabels(y: System, a: Action)
    requires Enabled(y, a) && LabelInv(y) && !a.Crash? && !a.Undefine?
    ensures LabelInv(Step(y, a))
  {
    hide Find, Dispatch, FinishClear, Safe;
    match a
    case Schedule(i) =>
      hide AllLabelled, TaskLabelled, SameLabels, Remove;
      assert y.tasks[i] in y.tasks;
      DispatchLabels(y.state, y.tasks[i]);
      var o, z := Dispatch(y.state, y.tasks[i]), Step(y, a);
      forall t | t in z.tasks ensures TaskLabelled(z.state.definitions, t) {
        TasksAfter(y.tasks, i, o.next, t);
        if o.next != Some(t) { TaskStaysLabelled(y.state, o.state, t); }
      }
    case Expire(n, idx) =>
      if Expired(y.state.definitions, y.state.clock, n) {
        var m := ExpiryMessage(y.state, n);
        if y.state.definitions[m.SpecificProblem()].clearDelay <= 0 { ClearLabels(y.state, m, idx); }
      }
    case _ =>
  }

  lemma {:induction false} RunLabels(y: System, run: seq<Action>)
    requires Possible(y, run) && NoCrash(run) && LabelInv(y)
    requires forall a :: a in run ==> !a.Undefine?
    ensures LabelInv(After(y, run))
    decreases |run|
  {
    hide Step, Enabled, LabelInv;
    if run != [] {
      assert run[0] in run && forall a :: a in run[1..] ==> a in run;
      StepLabels(y, run[0]);
      RunLabels(Step(y, run[0]), run[1..]);
    }
  }

  /**
   As long as no definition is deleted and no restart loads others, every
   active entry and every record of the history shows the text and event type
   of the definition of its SP, every entry the RaiseDelay of that definition or
   0, every ordinary RAISE record 0, and a raise sleeps only if the RaiseDelay of
   its definition, which it carries, is positive.
   */
  lemma EverythingIsLabelled(y0: System, run: seq<Action>)
    requires Started(y0) && Possible(y0, run) && NoCrash(run)
    requires forall a :: a in run ==> !a.Undefine?
    ensures var z := After(y0, run);
            AllLabelled(z.state) && forall t :: t in z.tasks ==> TaskLabelled(z.state.definitions, t)
  {
    RunLabels(y0, run);
  }
}
