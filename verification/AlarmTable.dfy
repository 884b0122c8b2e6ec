/**
 The manager's memory as one value, and what each section of ProcessAlarm,
 ProcessRaiseAlarm and ProcessClearAlarm does to it. A section is the code
 between two points where the mutex is released; class AlarmManager runs the
 same sections imperatively.
 */
module AlarmTable {
  import opened AlarmTypes
  import opened Counting

  /** What happened, in order; an observation no section ever reads. */
  datatype Event =
    | Accepted(tag: AlarmTag)                  // a raise got an id and entered the active list
    | Replaced(tag: AlarmTag)                  // an entry was dropped for one of another severity
    | Dropped(tag: AlarmTag)                   // a delayed raise found its alarm gone
    | Generated(tag: AlarmTag, onClear: bool)  // the manager raised a threshold alarm itself
    | LatchReset(sp: int)                 // a latch went off

  datatype State = State(
    active: seq<AlarmNotification>,
    history: seq<AlarmNotification>,
    uniqueAlarmId: int,
    activeExceeded: bool,
    historyExceeded: bool,
    maxActive: int,
    maxHistory: int,
    definitions: map<int, AlarmDefinition>,
    file: Option<Snapshot>,
    clock: int,
    ledger: seq<Event>)

  /** A goroutine inside ProcessAlarm, at a point where it does not hold the mutex. */
  datatype Task =
    | Pending(m: AlarmNotification)         // before the first lock
    | RaiseWaiting(m: AlarmNotification)    // sleeping for RaiseDelay
    | RaisePublishing(m: AlarmNotification) // about to record the raise in the history
    | ClearWaiting(m: AlarmNotification)    // sleeping for ClearDelay

  datatype Outcome = Outcome(state: State, next: Option<Task>)

  // ---- lookup

  /** IsMatchFound: the first active entry with this identity, or -1. */
  function Find(active: seq<AlarmNotification>, k: Identity): (idx: int)
    ensures -1 <= idx < |active|
    ensures idx >= 0 ==> active[idx].Key() == k && forall j :: 0 <= j < idx ==> active[j].Key() != k
    ensures idx < 0 ==> forall j :: 0 <= j < |active| ==> active[j].Key() != k
  {
    if active == [] then -1
    else
      var i := Find(active[..|active| - 1], k);
      if i >= 0 then i
      else if active[|active| - 1].Key() == k then |active| - 1
      else -1
  }

  // ---- threshold alarms

  predicate ActiveLimitHit(s: State) { |s.active| >= s.maxActive && !s.activeExceeded }

  predicate HistoryLimitHit(s: State) { |s.history| >= s.maxHistory && !s.historyExceeded }

  function NewAlarm(mo: string, app: string, sp: int, severity: string, ainfo: string, iinfo: string): Alarm {
    Alarm(mo, app, sp, severity, iinfo, ainfo)
  }

  function ThresholdAlarm(s: State, sp: int, data: string): AlarmNotification
    requires sp in s.definitions
  {
    AlarmNotification(
      AlarmMessage(NewAlarm("SEP", "ALARMMANAGER", sp, "WARNING", "threshold", data), Raise, s.clock),
      s.definitions[sp].(alarmId := s.uniqueAlarmId + 1))
  }

  /** The definition itself is stamped with the new id before it is copied. */
  function GenerateThresholdAlarm(s: State, sp: int, data: string, onClear: bool): State
    requires sp in s.definitions
  {
    var n := ThresholdAlarm(s, sp, data);
    s.(uniqueAlarmId := s.uniqueAlarmId + 1,
       definitions := s.definitions[sp := n.definition],
       active := s.active + [n],
       history := s.history + [n],
       ledger := s.ledger + [Generated(n.Tag(), onClear)])
  }

  predicate ActiveThresholdReady(s: State) {
    ActiveLimitHit(s) ==> ACTIVE_ALARM_EXCEED_MAX_THRESHOLD in s.definitions
  }

  predicate HistoryThresholdReady(s: State) {
    HistoryLimitHit(s) ==> ALARM_HISTORY_EXCEED_MAX_THRESHOLD in s.definitions
  }

  function WarnActive(s: State): State
    requires ActiveThresholdReady(s)
  {
    if ActiveLimitHit(s)
    then GenerateThresholdAlarm(s, ACTIVE_ALARM_EXCEED_MAX_THRESHOLD, "active", false).(activeExceeded := true)
    else s
  }

  function WarnHistory(s: State): State
    requires HistoryThresholdReady(s)
  {
    if HistoryLimitHit(s)
    then GenerateThresholdAlarm(s, ALARM_HISTORY_EXCEED_MAX_THRESHOLD, "history", false).(historyExceeded := true)
    else s
  }

  /** The clear path raises the history threshold alarm without storing the latch. */
  function WarnHistoryOnClear(s: State): State
    requires HistoryThresholdReady(s)
  {
    if HistoryLimitHit(s)
    then GenerateThresholdAlarm(s, ALARM_HISTORY_EXCEED_MAX_THRESHOLD, "history", true)
    else s
  }

  function UpdateActiveAlarmList(s: State, n: AlarmNotification): State
    requires ActiveThresholdReady(s)
  {
    var w := WarnActive(s);
    w.(active := w.active + [n])
  }

  function UpdateAlarmHistoryList(s: State, n: AlarmNotification): State
    requires HistoryThresholdReady(s)
  {
    var w := WarnHistory(s);
    w.(history := w.history + [n])
  }

  function WriteAlarmInfo(s: State): State {
    s.(file := Some(Snapshot(s.uniqueAlarmId, s.active, s.history)))
  }

  // ---- raise

  function UpdateAlarmFields(definitions: map<int, AlarmDefinition>, id: int, m: AlarmNotification): AlarmNotification
    requires m.SpecificProblem() in definitions
  {
    var d := definitions[m.SpecificProblem()];
    m.(definition := m.definition.(alarmId := id, alarmText := d.alarmText, eventType := d.eventType))
  }

  /** A raise of an active alarm with an unchanged severity is a duplicate. */
  predicate Suppressed(s: State, m: AlarmNotification) {
    var idx := Find(s.active, m.Key()); idx >= 0 && m.Severity() == s.active[idx].Severity()
  }

  /** The state an accepted raise starts from: without the entry of another severity it replaces. */
  function Vacated(s: State, m: AlarmNotification): State {
    var idx := Find(s.active, m.Key()); if idx >= 0 then DropReplaced(s, idx) else s
  }

  lemma VacatedDefinitions(s: State, m: AlarmNotification)
    ensures Vacated(s, m).definitions == s.definitions && Vacated(s, m).clock == s.clock
  {
  }

  function DropReplaced(s: State, idx: nat): State
    requires idx < |s.active|
  {
    s.(active := Remove(s.active, idx), ledger := s.ledger + [Replaced(s.active[idx].Tag())])
  }

  /** The notification a raise stores: fresh id, and RaiseDelay > 0 while the delay runs. */
  function AcceptedAlarm(s: State, m: AlarmNotification): AlarmNotification
    requires m.SpecificProblem() in s.definitions
  {
    UpdateAlarmFields(s.definitions, s.uniqueAlarmId + 1,
                      m.WithRaiseDelay(s.definitions[m.SpecificProblem()].raiseDelay))
  }

  function Allocate(s: State, n: AlarmNotification): State {
    s.(uniqueAlarmId := s.uniqueAlarmId + 1, ledger := s.ledger + [Accepted(n.Tag())])
  }

  function Accept(s: State, m: AlarmNotification): Outcome
    requires m.SpecificProblem() in s.definitions && ActiveThresholdReady(s)
  {
    var n := AcceptedAlarm(s, m);
    Outcome(UpdateActiveAlarmList(Allocate(s, n), n),
            Some(if n.definition.raiseDelay > 0 then RaiseWaiting(n) else RaisePublishing(n)))
  }

  function Unhide(s: State, idx: nat): State
    requires idx < |s.active|
  {
    s.(active := s.active[idx := s.active[idx].WithRaiseDelay(0)])
  }

  function Publish(s: State, m: AlarmNotification): State
    requires HistoryThresholdReady(s)
  {
    WriteAlarmInfo(UpdateAlarmHistoryList(s, m.WithRaiseDelay(0)))
  }

  // ---- clear

  function ResetLatches(s: State, sp: int): State {
    var s1 := if s.activeExceeded && sp == ACTIVE_ALARM_EXCEED_MAX_THRESHOLD
              then s.(activeExceeded := false, ledger := s.ledger + [LatchReset(sp)]) else s;
    if s1.historyExceeded && sp == ALARM_HISTORY_EXCEED_MAX_THRESHOLD
    then s1.(historyExceeded := false, ledger := s1.ledger + [LatchReset(sp)]) else s1
  }

  /** The entry at idx leaves the list and a CLEAR record with its id enters the history. */
  function MoveToHistory(s: State, m: AlarmNotification, idx: nat): State
    requires idx < |s.active| && m.SpecificProblem() in s.definitions
  {
    s.(history := s.history + [UpdateAlarmFields(s.definitions, s.active[idx].Id(), m)],
       active := Remove(s.active, idx))
  }

  function FinishClear(s: State, m: AlarmNotification, idx: nat): State
    requires idx < |s.active| && m.SpecificProblem() in s.definitions
    requires HistoryThresholdReady(MoveToHistory(s, m, idx))
  {
    WriteAlarmInfo(ResetLatches(WarnHistoryOnClear(MoveToHistory(s, m, idx)), m.SpecificProblem()))
  }

  // ---- the sections

  /** Without a ClearDelay the index is used as it is given. */
  predicate ClearReady(s: State, m: AlarmNotification, idx: nat)
    requires m.SpecificProblem() in s.definitions
  {
    s.definitions[m.SpecificProblem()].clearDelay <= 0 ==>
      idx < |s.active| && HistoryThresholdReady(MoveToHistory(s, m, idx))
  }

  /** Every definition the next section of t dereferences is present; a missing one is a nil dereference. */
  predicate Safe(s: State, t: Task) {
    var idx := Find(s.active, t.m.Key());
    var defined := t.m.SpecificProblem() in s.definitions;
    match t
    case Pending(m) =>
      defined ==> (
        match m.message.action
        case Raise => !Suppressed(s, m) ==> ActiveThresholdReady(Vacated(s, m))
        case Clear => idx >= 0 ==> ClearReady(s, m, idx)
        case Other(_) => true)
    case RaiseWaiting(_) => true
    case RaisePublishing(_) => HistoryThresholdReady(s)
    case ClearWaiting(m) => idx >= 0 ==> defined && HistoryThresholdReady(MoveToHistory(s, m, idx))
  }

  /** ProcessClearAlarm up to the release of the mutex: it sleeps first if there is a ClearDelay. */
  function BeginClear(s: State, m: AlarmNotification, idx: nat): Outcome
    requires m.SpecificProblem() in s.definitions && ClearReady(s, m, idx)
  {
    if s.definitions[m.SpecificProblem()].clearDelay > 0
    then Outcome(s, Some(ClearWaiting(m)))
    else Outcome(FinishClear(s, m, idx), None)
  }

  /** Run task t up to the next point where it does not hold the mutex. */
  function Dispatch(s: State, t: Task): Outcome
    requires Safe(s, t)
  {
    var idx := Find(s.active, t.m.Key());
    match t
    case Pending(m) =>
      if m.SpecificProblem() !in s.definitions then Outcome(s, None)
      else (
        match m.message.action
        case Raise => if Suppressed(s, m) then Outcome(s, None) else Accept(Vacated(s, m), m)
        case Clear => if idx < 0 then Outcome(s, None) else BeginClear(s, m, idx)
        case Other(_) => Outcome(s, None))
    case RaiseWaiting(m) =>
      if idx < 0 then Outcome(s.(ledger := s.ledger + [Dropped(m.Tag())]), None)
      else Outcome(Unhide(s, idx), Some(RaisePublishing(m)))
    case RaisePublishing(m) => Outcome(Publish(s, m), None)
    case ClearWaiting(m) => if idx < 0 then Outcome(s, None) else Outcome(FinishClear(s, m, idx), None)
  }

  // ---- time to live

  /** Go's integer division, which truncates toward zero. */
  function Quot(a: int, b: int): int
    requires b > 0
  {
    if a >= 0 then a / b else -((-a) / b)
  }

  predicate Expired(definitions: map<int, AlarmDefinition>, clock: int, n: AlarmNotification) {
    && n.SpecificProblem() in definitions
    && var ttl := definitions[n.SpecificProblem()].timeToLive;
    && ttl != 0
    && Quot(clock - n.message.alarmTime, 1_000_000_000) >= ttl
  }

  /** The CLEAR the TTL timer issues for an expired entry. */
  function ExpiryMessage(s: State, n: AlarmNotification): AlarmNotification {
    n.(message := n.message.(action := Clear, alarmTime := s.clock))
  }

  // ---- restart

  /** What a start reads back; without a file the manager starts empty. */
  function Restored(file: Option<Snapshot>): Snapshot {
    match file
    case None => Snapshot(0, [], [])
    case Some(snapshot) => snapshot
  }

  function Memory(s: State): Snapshot {
    Snapshot(s.uniqueAlarmId, s.active, s.history)
  }

  function Restart(s: State, definitions: map<int, AlarmDefinition>): State {
    var saved := Restored(s.file);
    s.(active := saved.active, history := saved.history, uniqueAlarmId := saved.uniqueAlarmId,
       activeExceeded := false, historyExceeded := false, definitions := definitions,
       ledger := s.ledger
                 + (if s.activeExceeded then [LatchReset(ACTIVE_ALARM_EXCEED_MAX_THRESHOLD)] else [])
                 + (if s.historyExceeded then [LatchReset(ALARM_HISTORY_EXCEED_MAX_THRESHOLD)] else []))
  }

  function Initial(definitions: map<int, AlarmDefinition>, maxActive: int, maxHistory: int, clock: int): State {
    State([], [], 0, false, false, maxActive, maxHistory, definitions, None, clock, [])
  }
}
