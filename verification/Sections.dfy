/**
 What each section and each visit of the TTL timer does, field by field: which
 entries and records it leaves, with which contents, when it warns, when it
 sleeps, and what it writes. Only the ledger is left open.
 */
module Sections {
  import opened AlarmTypes
  import opened AlarmTable
  import opened Protocol

  /** The alarm by which the manager warns that a limit has been met. */
  function Warning(sp: int, data: string, clock: int, d: AlarmDefinition, id: int): AlarmNotification {
    AlarmNotification(
      AlarmMessage(
        Alarm(managedObjectId := "SEP", applicationId := "ALARMMANAGER", specificProblem := sp,
              perceivedSeverity := "WARNING", identifyingInfo := data, additionalInfo := "threshold"),
        Raise, alarmTime := clock),
      d.(alarmId := id))
  }

  predicate SameSettings(s: State, t: State) {
    t.maxActive == s.maxActive && t.maxHistory == s.maxHistory && t.clock == s.clock
  }

  /**
   From s, whose list without the entry that is replaced is rest, m has been
   accepted: it is stored as it came, with a fresh id and the labels and the
   RaiseDelay of its definition, and sleeps if and only if that is positive.
   */
  predicate Raised(s: State, rest: seq<AlarmNotification>, m: AlarmNotification, t: State, next: Option<Task>) {
    var sp, id := m.message.alarm.specificProblem, s.uniqueAlarmId + 1;
    var full := |rest| >= s.maxActive && !s.activeExceeded;
    && sp in s.definitions && (full ==> 72007 in s.definitions)
    && var d := s.definitions[sp];
    var n := AlarmNotification(m.message, m.definition.(alarmId := id, alarmText := d.alarmText,
                                                        eventType := d.eventType, raiseDelay := d.raiseDelay));
    var warnings := if full then [Warning(72007, "active", s.clock, s.definitions[72007], id + 1)] else [];
    && next == Some(if d.raiseDelay > 0 then RaiseWaiting(n) else RaisePublishing(n))
    && t.active == rest + warnings + [n] && t.history == s.history + warnings
    && t.uniqueAlarmId == id + |warnings|
    && t.activeExceeded == (s.activeExceeded || full) && t.historyExceeded == s.historyExceeded
    && t.definitions == (if full then s.definitions[72007 := warnings[0].definition] else s.definitions)
    && t.file == s.file && SameSettings(s, t)
  }

  /** m has been recorded with RaiseDelay 0, behind the warning if the history was full, and all has been saved. */
  predicate Published(s: State, m: AlarmNotification, t: State) {
    var full := |s.history| >= s.maxHistory && !s.historyExceeded;
    && (full ==> 72008 in s.definitions)
    && var warnings := if full then [Warning(72008, "history", s.clock, s.definitions[72008], s.uniqueAlarmId + 1)] else [];
    && t.active == s.active + warnings
    && t.history == s.history + warnings + [AlarmNotification(m.message, m.definition.(raiseDelay := 0))]
    && t.uniqueAlarmId == s.uniqueAlarmId + |warnings|
    && t.activeExceeded == s.activeExceeded && t.historyExceeded == (s.historyExceeded || full)
    && t.definitions == (if full then s.definitions[72008 := warnings[0].definition] else s.definitions)
    && t.file == Some(Snapshot(t.uniqueAlarmId, t.active, t.history)) && SameSettings(s, t)
  }

  /**
   The entry at idx has gone; m has been recorded, message and all, under its
   id and the labels of its own definition; a history that is now full has led
   to a warning behind it, without a latch; all has been saved.
   */
  predicate Cleared(s: State, m: AlarmNotification, idx: nat, t: State) {
    var sp := m.message.alarm.specificProblem;
    var full := |s.history| + 1 >= s.maxHistory && !s.historyExceeded;
    && idx < |s.active| && sp in s.definitions && (full ==> 72008 in s.definitions)
    && var d := s.definitions[sp];
    var record := AlarmNotification(m.message, m.definition.(alarmId := s.active[idx].definition.alarmId,
                                                             alarmText := d.alarmText, eventType := d.eventType));
    var warnings := if full then [Warning(72008, "history", s.clock, s.definitions[72008], s.uniqueAlarmId + 1)] else [];
    && t.active == s.active[..idx] + s.active[idx + 1..] + warnings
    && t.history == s.history + [record] + warnings
    && t.uniqueAlarmId == s.uniqueAlarmId + |warnings|
    && t.activeExceeded == (s.activeExceeded && sp != 72007) && t.historyExceeded == (s.historyExceeded && sp != 72008)
    && t.definitions == (if full then s.definitions[72008 := warnings[0].definition] else s.definitions)
    && t.file == Some(Snapshot(t.uniqueAlarmId, t.active, t.history)) && SameSettings(s, t)
  }

  /** The entry at idx shows RaiseDelay 0, and nothing else has changed. */
  predicate Shown(s: State, idx: nat, t: State) {
    && idx < |s.active|
    && t == s.(active := s.active[..idx]
                         + [AlarmNotification(s.active[idx].message, s.active[idx].definition.(raiseDelay := 0))]
                         + s.active[idx + 1..])
  }

  /** What the section of t makes of s, with first being the first entry of the identity of t. */
  predicate Does(s: State, t: Task, o: Outcome) {
    var first, sp := Find(s.active, t.m.Key()), t.m.message.alarm.specificProblem;
    match t
    case Pending(m) =>
      if sp !in s.definitions || m.message.action.Other? then o == Outcome(s, None)
      else if m.message.action.Raise? then
        if first < 0 then Raised(s, s.active, m, o.state, o.next)
        else if s.active[first].message.alarm.perceivedSeverity == m.message.alarm.perceivedSeverity
        then o == Outcome(s, None)
        else Raised(s, s.active[..first] + s.active[first + 1..], m, o.state, o.next)
      else
        if first < 0 then o == Outcome(s, None)
        else if s.definitions[sp].clearDelay > 0 then o == Outcome(s, Some(ClearWaiting(m)))
        else Cleared(s, m, first, o.state) && o.next.None?
    case RaiseWaiting(m) =>
      if first < 0 then o.state.(ledger := s.ledger) == s && o.next.None?
      else Shown(s, first, o.state) && o.next == Some(RaisePublishing(m))
    case RaisePublishing(m) => Published(s, m, o.state) && o.next.None?
    case ClearWaiting(m) =>
      if first < 0 then o == Outcome(s, None) else Cleared(s, m, first, o.state) && o.next.None?
  }

  lemma AcceptRaises(s: State, m: AlarmNotification)
    requires m.SpecificProblem() in s.definitions && ActiveThresholdReady(s)
    ensures Raised(s, s.active, m, Accept(s, m).state, Accept(s, m).next)
  {
  }

  lemma PublishRecords(s: State, m: AlarmNotification)
    requires HistoryThresholdReady(s)
    ensures Published(s, m, Publish(s, m))
  {
  }

  lemma FinishClears(s: State, m: AlarmNotification, idx: nat)
    requires idx < |s.active| && m.SpecificProblem() in s.definitions
    requires HistoryThresholdReady(MoveToHistory(s, m, idx))
    ensures Cleared(s, m, idx, FinishClear(s, m, idx))
  {
  }

  lemma UnhideShows(s: State, idx: nat)
    requires idx < |s.active|
    ensures Shown(s, idx, Unhide(s, idx))
  {
  }

  /** A raise that replaces an entry works on the list without it. */
  lemma VacatedRaises(s: State, idx: nat, m: AlarmNotification, t: State, next: Option<Task>)
    requires idx < |s.active| && Raised(DropReplaced(s, idx), DropReplaced(s, idx).active, m, t, next)
    ensures Raised(s, s.active[..idx] + s.active[idx + 1..], m, t, next)
  {
  }

  /** Every section, for every state and goroutine. */
  lemma SectionsDo(s: State, t: Task)
    requires Safe(s, t)
    ensures Does(s, t, Dispatch(s, t))
  {
    hide Find, Accept, Publish, FinishClear, Unhide, Raised, Published, Cleared, Shown, MoveToHistory, HistoryThresholdReady;
    var m, idx := t.m, Find(s.active, t.m.Key());
    match t
    case Pending(_) =>
      if m.SpecificProblem() in s.definitions {
        if m.message.action.Raise? && !Suppressed(s, m) {
          var v := Vacated(s, m);
          AcceptRaises(v, m);
          if idx >= 0 { VacatedRaises(s, idx, m, Accept(v, m).state, Accept(v, m).next); }
        } else if m.message.action.Clear? && idx >= 0 && s.definitions[m.SpecificProblem()].clearDelay <= 0 {
          FinishClears(s, m, idx);
        }
      }
    case RaiseWaiting(_) => if idx >= 0 { UnhideShows(s, idx); }
    case RaisePublishing(_) => PublishRecords(s, m);
    case ClearWaiting(_) => if idx >= 0 { FinishClears(s, m, idx); }
  }

  // ---- the definitions a section cannot do without

  /** Clearing an entry with m fills the history up, and there is no definition to warn with. */
  predicate Unwarned(s: State) { |s.history| + 1 >= s.maxHistory && !s.historyExceeded && 72008 !in s.definitions }

  /** The section of t dereferences a definition that is missing. */
  predicate Dies(s: State, t: Task) {
    var first, sp := Find(s.active, t.m.Key()), t.m.message.alarm.specificProblem;
    match t
    case Pending(m) =>
      && sp in s.definitions
      && (
         match m.message.action
         case Raise =>
           && !s.activeExceeded && 72007 !in s.definitions
           && (if first < 0 then |s.active| >= s.maxActive
               else |s.active| - 1 >= s.maxActive
                    && s.active[first].message.alarm.perceivedSeverity != m.message.alarm.perceivedSeverity)
         case Clear => first >= 0 && s.definitions[sp].clearDelay <= 0 && Unwarned(s)
         case Other(_) => false)
    case RaiseWaiting(_) => false
    case RaisePublishing(_) => |s.history| >= s.maxHistory && !s.historyExceeded && 72008 !in s.definitions
    case ClearWaiting(_) => first >= 0 && (sp !in s.definitions || Unwarned(s))
  }

  /** A goroutine can go on exactly if its next section does not die of a missing definition. */
  lemma SafeUnlessDies(s: State, t: Task)
    ensures Safe(s, t) <==> !Dies(s, t)
  {
    hide Find;
  }

  // ---- time to live

  const SECOND := 1_000_000_000

  /** n is older than its TTL, in whole seconds. A TTL of 0 is none, and a negative one is over before its time. */
  predicate Outlived(definitions: map<int, AlarmDefinition>, clock: int, n: AlarmNotification) {
    var sp, age := n.message.alarm.specificProblem, clock - n.message.alarmTime;
    && sp in definitions
    && var ttl := definitions[sp].timeToLive;
    if ttl > 0 then age >= ttl * SECOND else ttl < 0 && age > (ttl - 1) * SECOND
  }

  lemma ExpiredMeans(definitions: map<int, AlarmDefinition>, clock: int, n: AlarmNotification)
    ensures Expired(definitions, clock, n) <==> Outlived(definitions, clock, n)
  {
  }

  /** The TTL timer can go on unless it must clear at once, and is past the list or dies of a missing definition. */
  lemma ExpireUnlessDies(y: System, n: AlarmNotification, idx: nat)
    ensures var s := y.state;
            Enabled(y, Expire(n, idx)) <==>
              (Outlived(s.definitions, s.clock, n) ==>
                 || s.definitions[n.message.alarm.specificProblem].clearDelay > 0
                 || (idx < |s.active| && !Unwarned(s)))
  {
    hide Expired;
    ExpiredMeans(y.state.definitions, y.state.clock, n);
  }

  /**
   The TTL timer leaves n alone until it is as old as its TTL says, for ever if
   that is 0 or there is no definition; then it clears it, at once or after the
   ClearDelay, by the message of n as a CLEAR of this moment.
   */
  lemma ExpireDoes(y: System, n: AlarmNotification, idx: nat)
    requires Enabled(y, Expire(n, idx))
    ensures var s, z, sp := y.state, Step(y, Expire(n, idx)), n.message.alarm.specificProblem;
            if !Outlived(s.definitions, s.clock, n) then z == y
            else
              var c := AlarmNotification(AlarmMessage(n.message.alarm, Clear, s.clock), n.definition);
              if s.definitions[sp].clearDelay > 0 then z == System(s, y.tasks + [ClearWaiting(c)])
              else Cleared(s, c, idx, z.state) && z.tasks == y.tasks
  {
    hide Expired, FinishClear, Cleared, MoveToHistory, HistoryThresholdReady;
    ExpiredMeans(y.state.definitions, y.state.clock, n);
    if Outlived(y.state.definitions, y.state.clock, n)
       && y.state.definitions[n.SpecificProblem()].clearDelay <= 0
    {
      FinishClears(y.state, ExpiryMessage(y.state, n), idx);
    }
  }

  // ---- limits, clock and restart

  /** Limits and clock as they were last set. */
  function LastLimits(run: seq<Action>, maxActive: int, maxHistory: int): (int, int) {
    if run == [] then (maxActive, maxHistory)
    else if run[0].SetLimits? then LastLimits(run[1..], run[0].maxActive, run[0].maxHistory)
    else LastLimits(run[1..], maxActive, maxHistory)
  }

  function LastClock(run: seq<Action>, clock: int): int {
    if run == [] then clock else LastClock(run[1..], if run[0].Tick? then run[0].clock else clock)
  }

  lemma SectionKeepsSettings(s: State, t: Task)
    requires Safe(s, t)
    ensures SameSettings(s, Dispatch(s, t).state)
  {
    hide Find, Dispatch, Safe;
    SectionsDo(s, t);
  }

  lemma StepKeepsSettings(y: System, a: Action)
    requires Enabled(y, a) && !a.SetLimits? && !a.Tick?
    ensures SameSettings(y.state, Step(y, a).state)
  {
    hide Find, Dispatch, Safe, FinishClear, Outlived;
    if a.Schedule? {
      SectionKeepsSettings(y.state, y.tasks[a.i]);
    } else if a.Expire? {
      ExpireDoes(y, a.n, a.idx);
    }
  }

  /** No section, clear or restart moves the limits or the clock. */
  lemma {:induction false} SettingsAreLastSet(y: System, run: seq<Action>)
    requires Possible(y, run)
    ensures var s, t := y.state, After(y, run).state;
            && (t.maxActive, t.maxHistory) == LastLimits(run, s.maxActive, s.maxHistory)
            && t.clock == LastClock(run, s.clock)
    decreases |run|
  {
    if run != [] {
      var a, rest := run[0], run[1..];
      if !a.SetLimits? && !a.Tick? { StepKeepsSettings(y, a); }
      SettingsAreLastSet(Step(y, a), rest);
    }
  }

  /** A restart keeps nothing but the file, and starts with what that holds and both latches off. */
  lemma RestartReads(y: System, definitions: map<int, AlarmDefinition>)
    ensures var s, z := y.state, Step(y, Crash(definitions));
            && z.tasks == [] && z.state.file == s.file && z.state.definitions == definitions
            && !z.state.activeExceeded && !z.state.historyExceeded
            && match s.file
               case None => z.state.active == [] && z.state.history == [] && z.state.uniqueAlarmId == 0
               case Some(saved) => Snapshot(z.state.uniqueAlarmId, z.state.active, z.state.history) == saved
  {
  }
}
