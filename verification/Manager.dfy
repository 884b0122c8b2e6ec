/**
 The manager itself: the active list lives in a Go slice (a backing array and
 a length), every section runs under the mutex, and at each point where the
 mutex is free any other goroutine may have run.
 */
module Manager {
  import opened AlarmTypes
  import opened Counting
  import opened AlarmTable
  import opened Protocol
  import opened Unlocked
  import opened Sections
  import Ticks

  /** One section of a goroutine: the state it met, what it was about to do, and the state it left. */
  datatype Section = Section(before: State, task: Task, after: State)

  /**
   trace is the life of a goroutine that starts as t: every section is the one
   the step system prescribes, and the states in between are whatever the
   other goroutines made of them. If it dies, it does so in a state in which
   its next section would dereference a missing definition.
   */
  ghost predicate Follows(t: Task, trace: seq<Section>, died: Option<State>)
    decreases |trace|
  {
    if trace == [] then died.Some? && !Safe(died.value, t)
    else
      && trace[0].task == t && Safe(trace[0].before, t)
      && var o := Dispatch(trace[0].before, t);
      && o.state == trace[0].after
      && if o.next.None? then |trace| == 1 && died.None? else Follows(o.next.value, trace[1..], died)
  }

  /** The TTL timer's visit to one slot, in which it read m; rest is what follows if m has a ClearDelay. */
  datatype Visited = Visited(before: State, m: AlarmNotification, rest: seq<Section>, died: Option<State>, after: State)

  /** The visit is the Expire action of the step system, followed by the goroutine it may become. */
  ghost predicate Performs(v: Visited, idx: nat) {
    var y := System(v.before, []);
    if !Enabled(y, Expire(v.m, idx)) then v.died == Some(v.before)
    else
      var z := Step(y, Expire(v.m, idx));
      if z.tasks == [] then v.died.None? && v.after == z.state
      else Follows(z.tasks[0], v.rest, v.died) && (v.died.None? ==> v.rest != [] && v.rest[|v.rest| - 1].after == v.after)
  }

  /** The visit found m expired, and so let go of the mutex. */
  predicate Clears(v: Visited) { Expired(v.before.definitions, v.before.clock, v.m) }

  class AlarmManager {
    var activeAlarms: array<AlarmNotification>
    var activeCount: nat
    var alarmHistory: seq<AlarmNotification>
    var uniqueAlarmId: int
    var exceededActiveAlarmOn: bool
    var exceededAlarmHistoryOn: bool
    var maxActiveAlarms: int
    var maxAlarmHistory: int
    var definitions: map<int, AlarmDefinition>
    var alarmInfoFile: Option<Snapshot>
    var clock: int
    var locked: bool // this goroutine holds the mutex
    ghost var ledger: seq<Event>
    ghost const alone: bool // no other goroutine ever runs

    ghost predicate Valid()
      reads this
    {
      activeCount <= activeAlarms.Length
    }

    ghost function Contents(): seq<AlarmNotification>
      reads this, activeAlarms
      requires Valid()
    {
      activeAlarms[..activeCount]
    }

    ghost function View(): State
      reads this, activeAlarms
      requires Valid()
    {
      State(Contents(), alarmHistory, uniqueAlarmId, exceededActiveAlarmOn, exceededAlarmHistoryOn,
            maxActiveAlarms, maxAlarmHistory, definitions, alarmInfoFile, clock, ledger)
    }

    constructor (definitions: map<int, AlarmDefinition>, maxActive: int, maxHistory: int, clock: int,
                 ghost alone: bool)
      ensures Valid() && !locked && fresh(activeAlarms) && this.alone == alone
      ensures View() == Initial(definitions, maxActive, maxHistory, clock)
      ensures View() == State([], [], 0, false, false, maxActive, maxHistory, definitions, None, clock, [])
    {
      activeAlarms := new AlarmNotification[0];
      activeCount := 0;
      alarmHistory := [];
      uniqueAlarmId := 0;
      exceededActiveAlarmOn, exceededAlarmHistoryOn := false, false;
      maxActiveAlarms, maxAlarmHistory := maxActive, maxHistory;
      this.definitions := definitions;
      alarmInfoFile := None;
      this.clock := clock;
      locked := false;
      ledger := [];
      this.alone := alone;
    }

    // ---- the mutex and the others

    method Lock()
      requires !locked && Valid()
      modifies this`locked
      ensures locked && Valid() && View() == old(View())
    {
      locked := true;
    }

    method Unlock()
      requires locked && Valid()
      modifies this`locked
      ensures !locked && Valid() && View() == old(View())
    {
      locked := false;
    }

    /**
     This goroutine does not hold the mutex for a while. Unless it is alone, it
     knows nothing of the state afterwards: the others may have changed
     everything, and one of them may hold the mutex.
     */
    method OthersRun()
      requires Valid() && !locked
      modifies this, activeAlarms
      ensures Valid() && !locked
      ensures activeAlarms == old(activeAlarms) || fresh(activeAlarms)
      ensures alone ==> activeAlarms == old(activeAlarms) && View() == old(View()) && unchanged(activeAlarms)
    {
    }

    /**
     What others may do even while this goroutine holds the mutex: publish
     raises, and change definitions, limits and the clock (Unlocked.FirstClearHits).
     Appending leaves the slots of the list in the array as they are.
     */
    method UnlockedRun()
      requires Valid() && locked
      modifies this, activeAlarms
      ensures Valid() && locked && (activeAlarms == old(activeAlarms) || fresh(activeAlarms))
      ensures Grown(old(View()), View())
      ensures old(activeAlarms)[..old(activeCount)] == old(activeAlarms[..activeCount])
      ensures alone ==> View() == old(View()) && activeAlarms == old(activeAlarms)
      ensures alone ==> forall c | 0 <= c <= activeAlarms.Length :: activeAlarms[..c] == old(activeAlarms[..c])
    {
    }

    /** The timer takes the mutex again, which its clear has given up, after the others have had their chance. */
    method Relock()
      requires Valid() && !locked
      modifies this, activeAlarms
      ensures Valid() && locked && (activeAlarms == old(activeAlarms) || fresh(activeAlarms))
      ensures alone ==> View() == old(View()) && activeAlarms == old(activeAlarms)
      ensures alone ==> forall c | 0 <= c <= activeAlarms.Length :: activeAlarms[..c] == old(activeAlarms[..c])
    {
      OthersRun();
      Lock();
    }

    /** The array beyond the list still holds what it held there before. */
    ghost predicate TailKept(was: seq<AlarmNotification>)
      reads this`activeAlarms, this`activeCount, activeAlarms
    {
      activeCount <= |was| == activeAlarms.Length && activeAlarms[activeCount..] == was[activeCount..]
    }

    // ---- the slice

    method IsMatchFound(newAlarm: Alarm) returns (idx: int, found: bool)
      requires Valid()
      ensures idx == Find(Contents(), IdentityOf(newAlarm)) && found == (idx >= 0)
    {
      var i := 0;
      while i < activeCount
        invariant 0 <= i <= activeCount
        invariant forall j :: 0 <= j < i ==> activeAlarms[j].Key() != IdentityOf(newAlarm)
      {
        var m := activeAlarms[i].message.alarm;
        if m.managedObjectId == newAlarm.managedObjectId && m.applicationId == newAlarm.applicationId
           && m.specificProblem == newAlarm.specificProblem && m.identifyingInfo == newAlarm.identifyingInfo
        {
          return i, true;
        }
        i := i + 1;
      }
      return -1, false;
    }

    /** Shifts the entries behind i down in place; the array keeps its old last element beyond the new length. */
    method RemoveAlarm(i: nat)
      requires Valid() && i < activeCount
      modifies activeAlarms, this`activeCount
      ensures Valid() && activeCount == old(activeCount) - 1
      ensures Contents() == Remove(old(Contents()), i)
      ensures TailKept(old(activeAlarms[..]))
    {
      ghost var was := activeAlarms[..];
      var j := i;
      while j < activeCount - 1
        modifies activeAlarms
        invariant i <= j <= activeCount - 1
        invariant activeAlarms[..j] == was[..i] + was[i + 1..j + 1]
        invariant activeAlarms[j..] == was[j..]
      {
        assert activeAlarms[j + 1] == activeAlarms[j..][1];
        activeAlarms[j] := activeAlarms[j + 1];
        j := j + 1;
        assert activeAlarms[..j] == activeAlarms[..j - 1] + [was[j]];
      }
      activeCount := activeCount - 1;
      assert activeAlarms[..activeCount] == was[..i] + was[i + 1..activeCount + 1];
    }

    /** Go's append: in place while there is capacity, otherwise into a larger array. */
    method Append(n: AlarmNotification)
      requires Valid()
      modifies this`activeAlarms, this`activeCount, activeAlarms
      ensures Valid() && Contents() == old(Contents()) + [n]
      ensures activeAlarms == old(activeAlarms) || fresh(activeAlarms)
      ensures old(activeCount) < old(activeAlarms.Length) ==>
                activeAlarms == old(activeAlarms) && TailKept(old(activeAlarms[..]))
    {
      if activeCount == activeAlarms.Length {
        var larger := new AlarmNotification[2 * activeCount + 1];
        forall l | 0 <= l < activeCount {
          larger[l] := activeAlarms[l];
        }
        activeAlarms := larger;
      }
      activeAlarms[activeCount] := n;
      activeCount := activeCount + 1;
    }

    // ---- pieces of the sections

    method GenerateAlarmId() returns (id: int)
      modifies this`uniqueAlarmId
      ensures uniqueAlarmId == old(uniqueAlarmId) + 1 && id == uniqueAlarmId
    {
      uniqueAlarmId := uniqueAlarmId + 1;
      id := uniqueAlarmId;
    }

    /** Writing through the definition that was looked up panics if there is none. */
    method GenerateThresholdAlarm(sp: int, data: string, ghost onClear: bool) returns (panicked: bool)
      requires Valid()
      modifies this, activeAlarms
      ensures Valid() && locked == old(locked) && (activeAlarms == old(activeAlarms) || fresh(activeAlarms))
      ensures panicked == (sp !in old(definitions))
      ensures !panicked ==> View() == AlarmTable.GenerateThresholdAlarm(old(View()), sp, data, onClear)
      ensures !panicked ==>
                var d := old(definitions[sp]).(alarmId := old(uniqueAlarmId) + 1);
                var n := AlarmNotification(
                  AlarmMessage(
                    Alarm(managedObjectId := "SEP", applicationId := "ALARMMANAGER", specificProblem := sp,
                          perceivedSeverity := "WARNING", identifyingInfo := data, additionalInfo := "threshold"),
                    Raise, alarmTime := old(clock)),
                  d);
                && Contents() == old(Contents()) + [n] && alarmHistory == old(alarmHistory) + [n]
                && uniqueAlarmId == old(uniqueAlarmId) + 1 && definitions == old(definitions)[sp := d]
      ensures !panicked && old(activeCount) < old(activeAlarms.Length) ==>
                activeAlarms == old(activeAlarms) && TailKept(old(activeAlarms[..]))
    {
      hide Find;
      ghost var was := View();
      var thresholdAlarm := NewAlarm("SEP", "ALARMMANAGER", sp, "WARNING", "threshold", data);
      var thresholdMessage := AlarmMessage(thresholdAlarm, Raise, clock);
      var id := GenerateAlarmId();
      if sp !in definitions {
        return true;
      }
      definitions := definitions[sp := definitions[sp].(alarmId := id)];
      var n := AlarmNotification(thresholdMessage, definitions[sp]);
      assert n == ThresholdAlarm(was, sp, data);
      Append(n);
      alarmHistory := alarmHistory + [n];
      ledger := ledger + [Generated(n.Tag(), onClear)];
      panicked := false;
    }

    method UpdateActiveAlarmList(n: AlarmNotification) returns (panicked: bool)
      requires Valid()
      modifies this, activeAlarms
      ensures Valid() && locked == old(locked) && (activeAlarms == old(activeAlarms) || fresh(activeAlarms))
      ensures panicked == !ActiveThresholdReady(old(View()))
      ensures !panicked ==> View() == AlarmTable.UpdateActiveAlarmList(old(View()), n)
    {
      hide Find;
      if activeCount >= maxActiveAlarms && !exceededActiveAlarmOn {
        panicked := GenerateThresholdAlarm(ACTIVE_ALARM_EXCEED_MAX_THRESHOLD, "active", false);
        if panicked {
          return;
        }
        exceededActiveAlarmOn := true;
      }
      Append(n);
      panicked := false;
    }

    method UpdateAlarmHistoryList(n: AlarmNotification) returns (panicked: bool)
      requires Valid()
      modifies this, activeAlarms
      ensures Valid() && locked == old(locked) && (activeAlarms == old(activeAlarms) || fresh(activeAlarms))
      ensures panicked == !HistoryThresholdReady(old(View()))
      ensures !panicked ==> View() == AlarmTable.UpdateAlarmHistoryList(old(View()), n)
    {
      hide Find;
      if |alarmHistory| >= maxAlarmHistory && !exceededAlarmHistoryOn {
        panicked := GenerateThresholdAlarm(ALARM_HISTORY_EXCEED_MAX_THRESHOLD, "history", false);
        if panicked {
          return;
        }
        exceededAlarmHistoryOn := true;
      }
      alarmHistory := alarmHistory + [n];
      panicked := false;
    }

    method WriteAlarmInfoToPersistentVolume()
      requires Valid()
      modifies this`alarmInfoFile
      ensures Valid() && View() == WriteAlarmInfo(old(View()))
    {
      var active := activeAlarms[..activeCount];
      alarmInfoFile := Some(Snapshot(uniqueAlarmId, active, alarmHistory));
    }

    method ReadAlarmInfoFromPersistentVolume()
      requires Valid()
      modifies this`activeAlarms, this`activeCount, this`alarmHistory, this`uniqueAlarmId
      ensures Valid() && (activeAlarms == old(activeAlarms) || fresh(activeAlarms))
      ensures alarmInfoFile.None? ==> View() == old(View())
      ensures alarmInfoFile.Some? ==> Memory(View()) == alarmInfoFile.value
    {
      match alarmInfoFile {
        case None =>
        case Some(saved) =>
          uniqueAlarmId := saved.uniqueAlarmId;
          var active := saved.active;
          activeAlarms := new AlarmNotification[|active|](i requires 0 <= i < |active| => active[i]);
          activeCount := |active|;
          alarmHistory := saved.history;
      }
    }

    // ---- ProcessRaiseAlarm, section by section

    /** From the accepted RAISE to the end of the first section: entered with the mutex, left without it. */
    method AcceptRaise(m0: AlarmNotification, alarmDef: AlarmDefinition) returns (panicked: bool, m: AlarmNotification)
      requires Valid() && locked
      requires m0.SpecificProblem() in definitions && alarmDef == definitions[m0.SpecificProblem()]
      modifies this, activeAlarms
      ensures Valid() && (activeAlarms == old(activeAlarms) || fresh(activeAlarms))
      ensures panicked == !ActiveThresholdReady(old(View()))
      ensures !panicked ==> !locked && m == AcceptedAlarm(old(View()), m0) && View() == Accept(old(View()), m0).state
      ensures !panicked ==>
                var next := if alarmDef.raiseDelay > 0 then RaiseWaiting(m) else RaisePublishing(m);
                Raised(old(View()), old(Contents()), m0, View(), Some(next))
    {
      hide Find, AlarmTable.UpdateActiveAlarmList;
      ghost var was := View();
      m := m0.WithRaiseDelay(alarmDef.raiseDelay);
      var id := GenerateAlarmId();
      m := UpdateAlarmFields(definitions, id, m);
      ledger := ledger + [Accepted(m.Tag())];
      assert View() == Allocate(was, m);
      panicked := UpdateActiveAlarmList(m);
      if !panicked {
        AcceptRaises(was, m0);
        Unlock();
      }
    }

    /** The RaiseDelay is over. */
    method WakeRaise(m: AlarmNotification) returns (found: bool)
      requires Valid() && !locked
      modifies this, activeAlarms
      ensures Valid() && !locked && activeAlarms == old(activeAlarms)
      ensures var o := Dispatch(old(View()), RaiseWaiting(m));
              View() == o.state && found == o.next.Some?
      ensures Does(old(View()), RaiseWaiting(m), Outcome(View(), if found then Some(RaisePublishing(m)) else None))
    {
      RaiseSections(View(), m);
      SectionsDo(View(), RaiseWaiting(m));
      Lock();
      var idx;
      idx, found := IsMatchFound(m.message.alarm);
      if found {
        hide Find;
        activeAlarms[idx] := activeAlarms[idx].WithRaiseDelay(0);
        assert Contents() == old(Contents())[idx := old(Contents())[idx].WithRaiseDelay(0)];
        Unlock();
      } else {
        ledger := ledger + [Dropped(m.Tag())];
        Unlock();
      }
    }

    /** Recording the raise takes no mutex, whoever holds it; here it is one atomic step. */
    method PublishRaise(m: AlarmNotification) returns (panicked: bool)
      requires Valid()
      modifies this, activeAlarms
      ensures Valid() && locked == old(locked) && (activeAlarms == old(activeAlarms) || fresh(activeAlarms))
      ensures panicked == !HistoryThresholdReady(old(View()))
      ensures !panicked ==> View() == Publish(old(View()), m) && Published(old(View()), m, View())
    {
      hide Find, AlarmTable.UpdateAlarmHistoryList;
      panicked := UpdateAlarmHistoryList(m.WithRaiseDelay(0));
      if !panicked {
        PublishRecords(old(View()), m);
        WriteAlarmInfoToPersistentVolume();
      }
    }

    /** Recording the raise as the last section of the goroutine. */
    method FinishRaise(m: AlarmNotification)
      returns (panicked: bool, ghost trace: seq<Section>, ghost died: Option<State>)
      requires Valid() && !locked
      modifies this, activeAlarms
      ensures Valid() && (activeAlarms == old(activeAlarms) || fresh(activeAlarms))
      ensures Follows(RaisePublishing(m), trace, died) && panicked == died.Some?
      ensures !panicked ==> !locked && trace != [] && trace[|trace| - 1].after == View()
    {
      hide Find, Dispatch, Safe, Follows, Publish;
      OthersRun();
      ghost var before := View();
      RaiseSections(before, m);
      panicked := PublishRaise(m);
      if panicked {
        DeadSection(before, RaisePublishing(m));
        trace, died := [], Some(before);
      } else {
        SingleSection(before, RaisePublishing(m));
        trace, died := [Section(before, RaisePublishing(m), View())], None;
      }
    }

    method ProcessRaiseAlarm(m0: AlarmNotification, alarmDef: AlarmDefinition)
      returns (panicked: bool, ghost accepted: State, ghost trace: seq<Section>, ghost died: Option<State>)
      requires Valid() && locked
      requires m0.SpecificProblem() in definitions && alarmDef == definitions[m0.SpecificProblem()]
      modifies this, activeAlarms
      ensures Valid() && (activeAlarms == old(activeAlarms) || fresh(activeAlarms))
      ensures !ActiveThresholdReady(old(View())) ==> panicked
      ensures ActiveThresholdReady(old(View())) ==>
                var o := Accept(old(View()), m0);
                && accepted == o.state && Raised(old(View()), old(Contents()), m0, accepted, o.next)
                && Follows(o.next.value, trace, died) && panicked == died.Some?
      ensures !panicked ==> !locked && trace != [] && trace[|trace| - 1].after == View()
    {
      hide Find, Dispatch, Safe, Follows, AlarmTable.UpdateActiveAlarmList;
      var m;
      panicked, m := AcceptRaise(m0, alarmDef);
      accepted, trace, died := View(), [], None;
      if panicked {
        return;
      }
      if alarmDef.raiseDelay <= 0 {
        panicked, trace, died := FinishRaise(m);
        return;
      }
      OthersRun();
      ghost var woken := View();
      RaiseSections(woken, m);
      var found := WakeRaise(m);
      if !found {
        SingleSection(woken, RaiseWaiting(m));
        trace := [Section(woken, RaiseWaiting(m), View())];
        return;
      }
      ghost var section := Section(woken, RaiseWaiting(m), View());
      ghost var rest;
      panicked, rest, died := FinishRaise(m);
      ChainSection(woken, RaiseWaiting(m), rest, died);
      trace := [section] + rest;
    }

    // ---- ProcessClearAlarm

    /** The clear itself, with the mutex held on entry. The list shrinks, and may grow again, within its array. */
    method FinishClearAlarm(m: AlarmNotification, idx: nat) returns (panicked: bool)
      requires Valid() && locked
      modifies this, activeAlarms
      ensures Valid() && (activeAlarms == old(activeAlarms) || fresh(activeAlarms))
      ensures panicked == !(m.SpecificProblem() in old(definitions) && idx < old(activeCount)
                            && HistoryThresholdReady(MoveToHistory(old(View()), m, idx)))
      ensures !panicked ==>
                && !locked && View() == FinishClear(old(View()), m, idx) && Cleared(old(View()), m, idx, View())
                && activeAlarms == old(activeAlarms) && TailKept(old(activeAlarms[..]))
    {
      hide Find, Remove, MoveToHistory, HistoryThresholdReady, HistoryLimitHit, View, Contents;
      hide AlarmTable.WarnHistoryOnClear, AlarmTable.ResetLatches, WriteAlarmInfo;
      ViewLength();
      if idx >= activeCount || m.SpecificProblem() !in definitions {
        return true;
      }
      MoveAlarm(m, idx);
      panicked := WarnHistoryOnClear();
      if panicked {
        return;
      }
      ResetLatches(m.SpecificProblem());
      FinishClears(old(View()), m, idx);
      WriteAlarmInfoToPersistentVolume();
      Unlock();
    }

    lemma ViewLength()
      requires Valid()
      ensures |View().active| == activeCount && View().definitions == definitions
    {
    }

    method MoveAlarm(m: AlarmNotification, idx: nat)
      requires Valid() && idx < activeCount && m.SpecificProblem() in definitions
      modifies this`alarmHistory, this`activeCount, activeAlarms
      ensures Valid() && View() == MoveToHistory(old(View()), m, idx) && activeCount < activeAlarms.Length
      ensures TailKept(old(activeAlarms[..]))
    {
      hide Find, Remove;
      var record := UpdateAlarmFields(definitions, activeAlarms[idx].Id(), m);
      alarmHistory := alarmHistory + [record];
      RemoveAlarm(idx);
    }

    method WarnHistoryOnClear() returns (panicked: bool)
      requires Valid() && activeCount < activeAlarms.Length
      modifies this, activeAlarms
      ensures Valid() && locked == old(locked) && (activeAlarms == old(activeAlarms) || fresh(activeAlarms))
      ensures panicked == !HistoryThresholdReady(old(View()))
      ensures !panicked ==>
                && View() == AlarmTable.WarnHistoryOnClear(old(View()))
                && activeAlarms == old(activeAlarms) && old(activeCount) <= activeCount && TailKept(old(activeAlarms[..]))
    {
      hide Find;
      panicked := false;
      if |alarmHistory| >= maxAlarmHistory && !exceededAlarmHistoryOn {
        panicked := GenerateThresholdAlarm(ALARM_HISTORY_EXCEED_MAX_THRESHOLD, "history", true);
      }
    }

    method ResetLatches(sp: int)
      requires Valid()
      modifies this`exceededActiveAlarmOn, this`exceededAlarmHistoryOn, this`ledger
      ensures Valid() && View() == AlarmTable.ResetLatches(old(View()), sp)
    {
      hide Find;
      if exceededActiveAlarmOn && sp == ACTIVE_ALARM_EXCEED_MAX_THRESHOLD {
        exceededActiveAlarmOn := false;
        ledger := ledger + [LatchReset(sp)];
      }
      if exceededAlarmHistoryOn && sp == ALARM_HISTORY_EXCEED_MAX_THRESHOLD {
        exceededAlarmHistoryOn := false;
        ledger := ledger + [LatchReset(sp)];
      }
    }

    /** With a ClearDelay the index is looked up again after the sleep; without one it is used as it is. */
    method ProcessClearAlarm(m: AlarmNotification, alarmDef: AlarmDefinition, idx: nat)
      returns (panicked: bool, ghost trace: seq<Section>, ghost died: Option<State>)
      requires Valid() && locked
      requires m.SpecificProblem() in definitions && alarmDef == definitions[m.SpecificProblem()]
      modifies this, activeAlarms
      ensures Valid() && (activeAlarms == old(activeAlarms) || fresh(activeAlarms))
      ensures alarmDef.clearDelay <= 0 ==>
                && panicked == !ClearReady(old(View()), m, idx) && trace == []
                && (!panicked ==> View() == FinishClear(old(View()), m, idx) && Cleared(old(View()), m, idx, View()))
      ensures alarmDef.clearDelay > 0 ==>
                && Follows(ClearWaiting(m), trace, died) && panicked == died.Some?
                && (!panicked ==> |trace| == 1 && trace[0].after == View()
                                  && Does(trace[0].before, ClearWaiting(m), Outcome(View(), None)))
                && (alone ==> if panicked then died == Some(old(View())) else trace[0].before == old(View()))
      ensures !panicked ==> !locked
      ensures !panicked && (alone || alarmDef.clearDelay <= 0) ==>
                activeAlarms == old(activeAlarms) && TailKept(old(activeAlarms[..]))
    {
      hide Find, FinishClear, MoveToHistory, HistoryThresholdReady, Cleared, Does, Dispatch, Safe, Follows;
      trace, died := [], None;
      if alarmDef.clearDelay <= 0 {
        panicked := FinishClearAlarm(m, idx);
        return;
      }
      Unlock();
      OthersRun();
      Lock();
      ghost var before := View();
      panicked := WakeClear(m);
      if panicked {
        DeadSection(before, ClearWaiting(m));
        died := Some(before);
      } else {
        SingleSection(before, ClearWaiting(m));
        trace := [Section(before, ClearWaiting(m), View())];
      }
    }

    /** The ClearDelay is over, and the mutex taken again. */
    method WakeClear(m: AlarmNotification) returns (panicked: bool)
      requires Valid() && locked
      modifies this, activeAlarms
      ensures Valid() && (activeAlarms == old(activeAlarms) || fresh(activeAlarms))
      ensures panicked == !Safe(old(View()), ClearWaiting(m))
      ensures !panicked ==>
                && !locked && activeAlarms == old(activeAlarms) && TailKept(old(activeAlarms[..]))
                && Dispatch(old(View()), ClearWaiting(m)) == Outcome(View(), None)
                && Does(old(View()), ClearWaiting(m), Outcome(View(), None))
    {
      hide Find, FinishClear, MoveToHistory, HistoryThresholdReady, Cleared, Does;
      ghost var before := View();
      var again, found := IsMatchFound(m.message.alarm);
      panicked := false;
      if found {
        panicked := FinishClearAlarm(m, again);
      } else {
        Unlock();
      }
      if !panicked { SectionsDo(before, ClearWaiting(m)); }
    }

    // ---- ProcessAlarm

    /** The active entry of another severity gives way to the raise. */
    method DropDuplicate(idx: nat)
      requires Valid() && idx < activeCount
      modifies this`ledger, this`activeCount, activeAlarms
      ensures Valid() && View() == DropReplaced(old(View()), idx)
    {
      hide Find, Remove;
      ledger := ledger + [Replaced(activeAlarms[idx].Tag())];
      RemoveAlarm(idx);
    }

    /**
     The whole of ProcessAlarm under arbitrary interference: it is a goroutine
     of the step system, its index accesses are in range, it dies only of a
     missing definition, and every other path ends with the mutex free.
     */
    method ProcessAlarm(m: AlarmNotification)
      returns (panicked: bool, ghost trace: seq<Section>, ghost died: Option<State>)
      requires Valid() && !locked
      modifies this, activeAlarms
      ensures Valid() && (activeAlarms == old(activeAlarms) || fresh(activeAlarms))
      ensures Follows(Pending(m), trace, died) && panicked == died.Some?
      ensures if trace == [] then died == Some(old(View())) else trace[0].before == old(View())
      ensures !panicked ==> !locked && trace != [] && trace[|trace| - 1].after == View()
    {
      hide Find, Accept, FinishClear, Dispatch, Safe, Follows, DropReplaced, MoveToHistory, ClearReady, ActiveThresholdReady;
      Lock();
      ghost var before := View();
      PendingSections(before, m);
      panicked, trace, died := false, [Section(before, Pending(m), before)], None;
      if m.SpecificProblem() !in definitions {
        Unlock();
        SingleSection(before, Pending(m));
        return;
      }
      var alarmDef := definitions[m.SpecificProblem()];
      var idx, found := IsMatchFound(m.message.alarm);
      if found && m.message.action.Raise? {
        if m.Severity() == activeAlarms[idx].Severity() {
          Unlock();
          SingleSection(before, Pending(m));
          return;
        } else {
          DropDuplicate(idx);
        }
      }
      if found && m.message.action.Clear? {
        ghost var rest, end;
        panicked, rest, end := ProcessClearAlarm(m, alarmDef, idx);
        if alarmDef.clearDelay > 0 {
          ChainSection(before, Pending(m), rest, end);
          trace, died := trace + rest, end;
        } else if panicked {
          DeadSection(before, Pending(m));
          trace, died := [], Some(before);
        } else {
          SingleSection(before, Pending(m));
          trace := [Section(before, Pending(m), View())];
        }
        return;
      }
      if m.message.action.Raise? {
        assert View() == Vacated(before, m);
        ghost var accepted, rest, end;
        panicked, accepted, rest, end := ProcessRaiseAlarm(m, alarmDef);
        if ActiveThresholdReady(Vacated(before, m)) {
          ChainSection(before, Pending(m), rest, end);
          trace, died := [Section(before, Pending(m), accepted)] + rest, end;
        } else {
          DeadSection(before, Pending(m));
          trace, died := [], Some(before);
        }
        return;
      }
      Unlock();
      SingleSection(before, Pending(m));
    }

    /**
     The entry guard of the REST interface: a message without managed object,
     application or action is dropped, a missing time is filled in.
     */
    method DoAction(m: AlarmMessage)
      returns (accepted: bool, panicked: bool, ghost trace: seq<Section>, ghost died: Option<State>)
      requires Valid() && !locked
      modifies this, activeAlarms
      ensures Valid() && (!panicked ==> !locked) && (activeAlarms == old(activeAlarms) || fresh(activeAlarms))
      ensures accepted <==> m.alarm.managedObjectId != "" && m.alarm.applicationId != "" && m.action != Other("")
      ensures !accepted ==> !panicked && View() == old(View())
      ensures accepted ==>
                var timed := if m.alarmTime == 0 then m.(alarmTime := old(clock)) else m;
                && Follows(Pending(AlarmNotification(timed, AlarmDefinition(0, "", "", "", 0, 0, 0))), trace, died)
                && panicked == died.Some?
                && if trace == [] then died == Some(old(View())) else trace[0].before == old(View())
    {
      hide Find, Follows;
      accepted, panicked, trace, died := false, false, [], None;
      if m.alarm.managedObjectId == "" || m.alarm.applicationId == "" || m.action == Other("") {
        return;
      }
      var timed := m;
      if timed.alarmTime == 0 {
        timed := timed.(alarmTime := clock);
      }
      panicked, trace, died := ProcessAlarm(AlarmNotification(timed, NO_DEFINITION));
      accepted := true;
    }

    // ---- time to live

    /**
     Clears m if it has outlived its TTL, at idx unless it has a ClearDelay;
     then, and only then, the mutex is given up.
     */
    method ClearExpiredAlarms(m: AlarmNotification, idx: nat, mLocked: bool)
      returns (cleared: bool, panicked: bool, ghost visit: Visited)
      requires Valid() && locked == mLocked
      modifies this, activeAlarms
      ensures Valid() && (activeAlarms == old(activeAlarms) || fresh(activeAlarms))
      ensures Performs(visit, idx) && visit.before == old(View()) && visit.m == m
      ensures panicked == visit.died.Some?
      ensures cleared || panicked <==> Outlived(old(definitions), old(clock), m)
      ensures cleared && !panicked ==>
                var c := AlarmNotification(AlarmMessage(m.message.alarm, Clear, old(clock)), m.definition);
                if old(definitions)[m.message.alarm.specificProblem].clearDelay <= 0 then Cleared(old(View()), c, idx, View())
                else visit.rest != [] && visit.rest[0].task == ClearWaiting(c)
      ensures !panicked ==>
                && visit.after == View() && cleared == Clears(visit)
                && locked == (mLocked && !cleared)
      ensures !panicked && alone ==> activeAlarms == old(activeAlarms) && TailKept(old(activeAlarms[..]))
      ensures !panicked && !cleared ==>
                View() == old(View()) && activeAlarms == old(activeAlarms) && unchanged(activeAlarms)
      ensures alone ==> Ticks.Visit(old(View()), m, idx) == if panicked then None else Some(View())
    {
      hide Find, FinishClear, MoveToHistory, HistoryThresholdReady, Contents;
      ghost var was := View();
      ExpiredMeans(definitions, clock, m);
      cleared, panicked := false, false;
      visit := Visited(was, m, [], None, was);
      if m.SpecificProblem() !in definitions || definitions[m.SpecificProblem()].timeToLive == 0 {
        return;
      }
      var d := definitions[m.SpecificProblem()];
      var elapsed := Quot(clock - m.message.alarmTime, 1_000_000_000);
      if elapsed >= d.timeToLive {
        var clear := m.(message := m.message.(action := Clear, alarmTime := clock));
        assert clear == ExpiryMessage(was, m);
        if !mLocked {
          Lock();
        }
        ghost var rest, end;
        panicked, rest, end := ProcessClearAlarm(clear, d, idx);
        cleared := true;
        if d.clearDelay <= 0 {
          visit := Visited(was, m, [], if panicked then Some(was) else None, View());
        } else {
          visit := Visited(was, m, rest, end, View());
        }
      }
    }

    /**
     One tick of the TTL timer. It ranges over the array the list has when it
     begins, while its own clears shift that array, and other goroutines, when it
     lets go of the mutex, may shift it further or move the list to another; even
     while it holds the mutex they may publish raises. Each visit is an Expire
     action of the step system; up to and including the first clear the entry it
     examines is the one at its index, so that the first clear never misses.
     Alone it does what Ticks.Tick says, and panics exactly when that does.
     */
    method TickTTLTimer() returns (panicked: bool, ghost visits: seq<Visited>)
      requires Valid() && !locked
      modifies this, activeAlarms
      ensures Valid() && (activeAlarms == old(activeAlarms) || fresh(activeAlarms))
      ensures forall i | 0 <= i < |visits| :: Performs(visits[i], i) && (visits[i].died.Some? <==> panicked && i == |visits| - 1)
      ensures if panicked then visits != [] else !locked && |visits| == old(activeCount)
      ensures Undisturbed(old(View()), visits) && Unbroken(visits)
      ensures alone ==> Ticks.Tick(old(View())) == if panicked then None else Some(View())
    {
      hide Find, Performs, NoClears, Undisturbed, Unbroken, Clears, Grown, Ticks.Visit, Ticks.Pass, View, Contents;
      Lock();
      ghost var was := View();
      ViewSlots();
      BeginTick(was);
      GrownAtOnce(was);
      var ranged, n := activeAlarms, activeCount;
      var i := 0;
      panicked, visits := false, [];
      while i < n
        invariant 0 <= i <= n <= ranged.Length && Valid() && locked && !panicked && |visits| == i
        invariant activeAlarms == old(activeAlarms) || fresh(activeAlarms)
        invariant n == |was.active| && ranged == old(activeAlarms)
        invariant forall j | 0 <= j < i :: Performs(visits[j], j) && visits[j].died.None?
        invariant Undisturbed(was, visits) && Unbroken(visits)
        invariant visits != [] && !Clears(visits[i - 1]) ==> View() == visits[i - 1].after
        invariant NoClears(visits) ==> Grown(was, View()) && ranged[..n] == was.active
        invariant alone ==> activeAlarms == ranged && activeCount <= n && |View().active| <= |ranged[..n]|
                            && Ticks.Tick(was) == Ticks.Pass(View(), ranged[..n], i)
      {
        ghost var before, slots := View(), ranged[..n];
        ghost var visit;
        panicked, visit := VisitSlot(ranged, i, n, was, NoClears(visits));
        NoClearsSnoc(visits, visit);
        UndisturbedSnoc(was, visits, visit);
        UnbrokenSnoc(visits, visit);
        visits := visits + [visit];
        if alone {
          if panicked {
            Ticks.PassStops(before, slots, i);
          } else {
            Ticks.PassGoesOn(before, slots, i, View());
          }
        }
        if panicked {
          return;
        }
        ViewSlots();
        i := i + 1;
      }
      if alone {
        Ticks.PassIsOver(View(), ranged[..n], i);
      }
      Unlock();
    }

    /** The range goes on to slot i; before that others may have run. First: no clear has happened yet. */
    method NextSlot(ranged: array<AlarmNotification>, i: nat, n: nat, ghost was: State, ghost first: bool)
      returns (m: AlarmNotification)
      requires Valid() && locked && i < n == |was.active| && n <= ranged.Length
      requires first ==> Grown(was, View()) && ranged[..n] == was.active
      modifies this, activeAlarms
      ensures Valid() && locked && (activeAlarms == old(activeAlarms) || fresh(activeAlarms))
      ensures m == ranged[i] && Grown(old(View()), View())
      ensures first ==> Grown(was, View()) && ranged[..n] == was.active
      ensures alone ==> View() == old(View()) && activeAlarms == old(activeAlarms) && ranged[..n] == old(ranged[..n])
    {
      hide Grown, View, Contents;
      ghost var held, list, count := View(), activeAlarms, activeCount;
      ViewSlots();
      UnlockedRun();
      if first {
        GrownTransitive(was, held, View());
        GrownPrefix(was, held);
        if ranged == list { assert ranged[..n] == ranged[..count][..n]; }
      }
      m := ranged[i];
    }

    /** One turn of the loop: the visit to slot i, and the mutex taken again if that gave it up. */
    method VisitSlot(ranged: array<AlarmNotification>, i: nat, n: nat, ghost was: State, ghost first: bool)
      returns (panicked: bool, ghost visit: Visited)
      requires Valid() && locked && i < n == |was.active| && n <= ranged.Length
      requires first ==> Grown(was, View()) && ranged[..n] == was.active
      requires alone ==> activeAlarms == ranged && activeCount <= n
      modifies this, activeAlarms
      ensures Valid() && (activeAlarms == old(activeAlarms) || fresh(activeAlarms))
      ensures Performs(visit, i) && panicked == visit.died.Some? && Grown(old(View()), visit.before)
      ensures first ==> Grown(was, visit.before) && visit.m == was.active[i]
      ensures !panicked ==> locked && (Clears(visit) || View() == visit.after)
      ensures !panicked && first && !Clears(visit) ==> Grown(was, View()) && ranged[..n] == was.active
      ensures alone ==> Ticks.Visit(old(View()), old(ranged[i]), i) == if panicked then None else Some(View())
      ensures alone && !panicked ==>
                && activeAlarms == ranged && |View().active| <= n
                && ranged[..n] == View().active + old(ranged[..n])[|View().active|..]
    {
      hide Find, Performs, Clears, Grown, Ticks.Visit, View, Contents;
      ViewSlots();
      var m := NextSlot(ranged, i, n, was, first);
      ViewSlots();
      ghost var slots, array0 := ranged[..n], activeAlarms[..];
      assert slots[i] == m;
      var cleared;
      cleared, panicked, visit := ClearExpiredAlarms(m, i, true);
      if panicked {
        return;
      }
      ViewSlots();
      if alone {
        Ticks.VisitShrinks(old(View()), m, i);
        SlotsAfter(array0, activeAlarms[..], activeCount, n);
        assert ranged[..n] == View().active + slots[activeCount..];
      }
      if cleared {
        Relock();
        ViewSlots();
      }
    }

    lemma ViewSlots()
      requires Valid()
      ensures View().active == Contents() == activeAlarms[..activeCount] && |View().active| == activeCount
    {
    }
  }

  /** None of the visits has let go of the mutex. */
  ghost predicate NoClears(visits: seq<Visited>) {
    forall j | 0 <= j < |visits| :: !Clears(visits[j])
  }

  /** The visit examines entry i of the list as it was, which is still there at i, so that it does not miss. */
  ghost predicate InPlace(was: State, i: nat, v: Visited)
    requires i < |was.active|
  {
    && Grown(was, v.before) && v.m == was.active[i]
    && i < |v.before.active| && v.before.active[i] == v.m && !Misses(System(v.before, []), Expire(v.m, i))
  }

  /** Until the first clear, and in it, each entry of the list is examined in its place. */
  ghost predicate Undisturbed(was: State, visits: seq<Visited>) {
    && |visits| <= |was.active|
    && forall i | 0 <= i < |visits| && NoClears(visits[..i]) :: InPlace(was, i, visits[i])
  }

  /** As long as the mutex is held others do no more between two visits than publish raises. */
  ghost predicate Unbroken(visits: seq<Visited>) {
    forall i | 0 < i < |visits| :: Clears(visits[i - 1]) || Grown(visits[i - 1].after, visits[i].before)
  }

  lemma UnbrokenSnoc(visits: seq<Visited>, v: Visited)
    requires Unbroken(visits)
    requires visits != [] && !Clears(visits[|visits| - 1]) ==> Grown(visits[|visits| - 1].after, v.before)
    ensures Unbroken(visits + [v])
  {
    hide Clears, Grown;
  }

  lemma NoClearsSnoc(visits: seq<Visited>, v: Visited)
    ensures NoClears(visits + [v]) <==> NoClears(visits) && !Clears(v)
  {
    hide Clears;
    var all := visits + [v];
    assert forall j :: 0 <= j < |visits| ==> all[j] == visits[j];
    assert all[|visits|] == v;
  }

  lemma BeginTick(was: State)
    ensures Undisturbed(was, []) && Unbroken([]) && NoClears([])
  {
  }

  lemma UndisturbedSnoc(was: State, visits: seq<Visited>, v: Visited)
    requires Undisturbed(was, visits) && |visits| < |was.active|
    requires NoClears(visits) ==> Grown(was, v.before) && v.m == was.active[|visits|]
    ensures Undisturbed(was, visits + [v])
  {
    hide NoClears, InPlace, Grown;
    var all := visits + [v];
    forall i | 0 <= i < |all| && NoClears(all[..i]) ensures InPlace(was, i, all[i]) {
      if i < |visits| {
        assert all[..i] == visits[..i] && all[i] == visits[i];
      } else {
        assert all[..i] == visits;
        StillInPlace(was, i, v);
      }
    }
  }

  lemma StillInPlace(was: State, i: nat, v: Visited)
    requires i < |was.active| && Grown(was, v.before) && v.m == was.active[i]
    ensures InPlace(was, i, v)
  {
    hide Grown, Misses;
    GrownKeepsEntry(was, v.before, [], i);
  }

  lemma DeadSection(s: State, t: Task)
    requires !Safe(s, t)
    ensures Follows(t, [], Some(s))
  {
  }

  lemma SingleSection(s: State, t: Task)
    requires Safe(s, t) && Dispatch(s, t).next.None?
    ensures Follows(t, [Section(s, t, Dispatch(s, t).state)], None)
  {
    hide Safe, Dispatch;
  }

  lemma ChainSection(s: State, t: Task, rest: seq<Section>, died: Option<State>)
    requires Safe(s, t) && Dispatch(s, t).next.Some? && Follows(Dispatch(s, t).next.value, rest, died)
    ensures Follows(t, [Section(s, t, Dispatch(s, t).state)] + rest, died)
  {
    hide Safe, Dispatch;
    assert ([Section(s, t, Dispatch(s, t).state)] + rest)[1..] == rest;
  }

  /** Section by section a goroutine does what Does says, field by field, and goes on with what it says. */
  lemma {:induction false} TraceDoes(t: Task, trace: seq<Section>, died: Option<State>)
    requires Follows(t, trace, died) && trace != []
    ensures trace[0].task == t
    ensures forall i | 0 <= i < |trace| - 1 ::
              Does(trace[i].before, trace[i].task, Outcome(trace[i].after, Some(trace[i + 1].task)))
    ensures died.None? ==>
              var last := trace[|trace| - 1]; Does(last.before, last.task, Outcome(last.after, None))
    decreases |trace|
  {
    hide Safe, Dispatch, Does;
    SectionsDo(trace[0].before, t);
    var o := Dispatch(trace[0].before, t);
    if |trace| > 1 {
      var rest := trace[1..];
      TraceDoes(o.next.value, rest, died);
      forall i | 0 <= i < |trace| - 1
        ensures Does(trace[i].before, trace[i].task, Outcome(trace[i].after, Some(trace[i + 1].task)))
      {
        if i > 0 { assert trace[i] == rest[i - 1] && trace[i + 1] == rest[i]; }
      }
    }
  }

  /** The first section of ProcessAlarm, branch by branch. */
  lemma PendingSections(s: State, m: AlarmNotification)
    ensures var idx, t := Find(s.active, m.Key()), Pending(m);
            && (m.SpecificProblem() !in s.definitions ==> Safe(s, t) && Dispatch(s, t) == Outcome(s, None))
            && (m.SpecificProblem() in s.definitions ==>
                  && (m.message.action.Raise? && Suppressed(s, m) ==> Safe(s, t) && Dispatch(s, t) == Outcome(s, None))
                  && (m.message.action.Raise? && !Suppressed(s, m) ==>
                        && m.SpecificProblem() in Vacated(s, m).definitions
                        && (Safe(s, t) <==> ActiveThresholdReady(Vacated(s, m)))
                        && (Safe(s, t) ==> Dispatch(s, t) == Accept(Vacated(s, m), m) && Dispatch(s, t).next.Some?))
                  && (m.message.action.Clear? && idx >= 0 ==>
                        && (Safe(s, t) <==> ClearReady(s, m, idx))
                        && (s.definitions[m.SpecificProblem()].clearDelay > 0 ==>
                              Safe(s, t) && Dispatch(s, t) == Outcome(s, Some(ClearWaiting(m))))
                        && (s.definitions[m.SpecificProblem()].clearDelay <= 0 && Safe(s, t) ==>
                              Dispatch(s, t) == Outcome(FinishClear(s, m, idx), None)))
                  && (m.message.action.Clear? && idx < 0 ==> Safe(s, t) && Dispatch(s, t) == Outcome(s, None))
                  && (m.message.action.Other? ==> Safe(s, t) && Dispatch(s, t) == Outcome(s, None)))
  {
    hide Find, UpdateActiveAlarmList, FinishClear;
  }

  lemma RaiseSections(s: State, m: AlarmNotification)
    ensures Safe(s, RaiseWaiting(m))
    ensures var o := Dispatch(s, RaiseWaiting(m)); o.next.Some? ==> o.next.value == RaisePublishing(m)
    ensures Safe(s, RaisePublishing(m)) <==> HistoryThresholdReady(s)
    ensures HistoryThresholdReady(s) ==> Dispatch(s, RaisePublishing(m)) == Outcome(Publish(s, m), None)
  {
  }

  /** The slots a pass still ranges over after a clear that left c entries in the array. */
  lemma SlotsAfter(was: seq<AlarmNotification>, now: seq<AlarmNotification>, c: nat, n: nat)
    requires c <= n <= |was| == |now| && now[c..] == was[c..]
    ensures now[..n] == now[..c] + was[..n][c..]
  {
    assert now[..n][c..] == now[c..][..n - c];
    assert was[..n][c..] == was[c..][..n - c];
  }
}
