/**
 Hidden alarms. An entry with RaiseDelay > 0 is kept out of the listings; a
 sleeping raise of the same identity exists to bring it out, unless the entry
 was read from the file by a restart, which forgets the sleeping raises.
 */
module Hiding {
  import opened AlarmTypes
  import opened Counting
  import opened AlarmTable
  import opened Protocol
  import opened Balance
  import opened Ids
  import opened Durability
  import opened Uniqueness

  predicate IsHidden(n: AlarmNotification, k: Identity) { n.Key() == k && n.definition.raiseDelay > 0 }

  predicate Hidden(active: seq<AlarmNotification>, k: Identity) {
    exists n :: n in active && IsHidden(n, k)
  }

  predicate Wakes(t: Task, k: Identity) { t.RaiseWaiting? && t.m.Key() == k }

  ghost predicate HidingInv(y: System, k: Identity) {
    Hidden(y.state.active, k) ==> exists t :: t in y.tasks && Wakes(t, k)
  }

  lemma WarnHides(s: State, k: Identity)
    requires !IsThreshold(k)
    ensures ActiveThresholdReady(s) && Hidden(WarnActive(s).active, k) ==> Hidden(s.active, k)
    ensures HistoryThresholdReady(s) && Hidden(WarnHistory(s).active, k) ==> Hidden(s.active, k)
    ensures HistoryThresholdReady(s) && Hidden(WarnHistoryOnClear(s).active, k) ==> Hidden(s.active, k)
  {
  }

  lemma AcceptHides(s: State, m: AlarmNotification, k: Identity)
    requires !IsThreshold(k) && m.SpecificProblem() in s.definitions && ActiveThresholdReady(s)
    ensures var o := Accept(s, m);
            Hidden(o.state.active, k) ==> Hidden(s.active, k) || (o.next.Some? && Wakes(o.next.value, k))
  {
    WarnHides(Allocate(s, AcceptedAlarm(s, m)), k);
  }

  lemma ClearHides(s: State, m: AlarmNotification, idx: nat, k: Identity)
    requires !IsThreshold(k) && idx < |s.active| && m.SpecificProblem() in s.definitions
    requires HistoryThresholdReady(MoveToHistory(s, m, idx))
    ensures Hidden(FinishClear(s, m, idx).active, k) ==> Hidden(s.active, k)
  {
    WarnHides(MoveToHistory(s, m, idx), k);
  }

  /** Waking a raise of k brings the one entry of k out, whichever raise stored it. */
  lemma UnhideHides(s: State, k: Identity)
    requires !IsThreshold(k) && Entries(s, k) <= 1 && Find(s.active, k) >= 0
    ensures !Hidden(Unhide(s, Find(s.active, k)).active, k)
  {
    hide Find, Count;
    var idx := Find(s.active, k);
    var after := Unhide(s, idx).active;
    if Hidden(after, k) {
      var j :| 0 <= j < |after| && IsHidden(after[j], k);
      assert j != idx && after[j] == s.active[j];
      assert HasKey(k)(s.active[j].Tag()) && HasKey(k)(s.active[idx].Tag());
      CountPair(s.active, idx, j, Entry(HasKey(k)));
    }
  }

  lemma UnhideOther(s: State, idx: nat, k: Identity)
    requires idx < |s.active| && s.active[idx].Key() != k
    ensures Hidden(Unhide(s, idx).active, k) ==> Hidden(s.active, k)
  {
    var after := Unhide(s, idx).active;
    if Hidden(after, k) {
      var j :| 0 <= j < |after| && IsHidden(after[j], k);
      assert after[j] == s.active[j];
    }
  }

  /** An entry of k hidden after a section was hidden before and t did not wake it, or the section left its waker. */
  lemma DispatchHides(s: State, t: Task, k: Identity)
    requires Safe(s, t) && !IsThreshold(k) && Entries(s, k) <= 1
    ensures var o := Dispatch(s, t);
            Hidden(o.state.active, k) ==>
              || (Hidden(s.active, k) && !Wakes(t, k))
              || (o.next.Some? && Wakes(o.next.value, k))
  {
    hide Find, Hidden, FinishClear, Accept, Unhide;
    var m, idx := t.m, Find(s.active, t.m.Key());
    match t
    case Pending(_) =>
      if m.SpecificProblem() in s.definitions {
        if m.message.action.Raise? && !Suppressed(s, m) {
          AcceptHides(Vacated(s, m), m, k);
          if idx >= 0 { RemoveHides(s.active, idx, k); }
        } else if m.message.action.Clear? && idx >= 0 && s.definitions[m.SpecificProblem()].clearDelay <= 0 {
          ClearHides(s, m, idx, k);
        }
      }
    case RaiseWaiting(_) =>
      if idx < 0 {
        if m.Key() == k { AbsentHides(s.active, k); }
      } else if m.Key() == k {
        UnhideHides(s, k);
      } else {
        UnhideOther(s, idx, k);
      }
    case RaisePublishing(_) => WarnHides(s, k);
    case ClearWaiting(_) => if idx >= 0 { ClearHides(s, m, idx, k); }
  }

  lemma RemoveHides(active: seq<AlarmNotification>, idx: nat, k: Identity)
    requires idx < |active|
    ensures Hidden(Remove(active, idx), k) ==> Hidden(active, k)
  {
  }

  lemma AbsentHides(active: seq<AlarmNotification>, k: Identity)
    requires Find(active, k) < 0
    ensures !Hidden(active, k)
  {
  }

  lemma StepHides(y: System, a: Action, k: Identity)
    requires Enabled(y, a) && !a.Crash? && Sole(y, k) && !IsThreshold(k) && HidingInv(y, k)
    ensures HidingInv(Step(y, a), k)
  {
    hide Find, Dispatch, FinishClear, Hidden, Count;
    var z := Step(y, a);
    if a.Schedule? {
      ScheduleHides(y, a.i, k);
    } else {
      if a.Expire? && Expired(y.state.definitions, y.state.clock, a.n) {
        var m := ExpiryMessage(y.state, a.n);
        if y.state.definitions[m.SpecificProblem()].clearDelay <= 0 { ClearHides(y.state, m, a.idx, k); }
      }
      if Hidden(z.state.active, k) {
        var t :| t in y.tasks && Wakes(t, k);
        assert t in z.tasks;
      }
    }
  }

  lemma ScheduleHides(y: System, i: nat, k: Identity)
    requires Enabled(y, Schedule(i)) && Sole(y, k) && !IsThreshold(k) && HidingInv(y, k)
    ensures HidingInv(Step(y, Schedule(i)), k)
  {
    hide Find, Dispatch, Hidden, Count, Remove;
    var o, z := Dispatch(y.state, y.tasks[i]), Step(y, Schedule(i));
    DispatchHides(y.state, y.tasks[i], k);
    if Hidden(z.state.active, k) {
      if o.next.Some? && Wakes(o.next.value, k) {
        assert o.next.value in z.tasks;
      } else {
        var t :| t in y.tasks && Wakes(t, k);
        KeepsOthers(y.tasks, i, t);
        assert t in z.tasks;
      }
    }
  }

  lemma {:induction false} RunHides(y: System, run: seq<Action>, k: Identity)
    requires Possible(y, run) && NoCrash(run) && Sole(y, k) && !IsThreshold(k) && HidingInv(y, k)
    ensures HidingInv(After(y, run), k)
    decreases |run|
  {
    hide Step, Enabled, HidingInv, Sole;
    if run != [] {
      StepSole(y, run[0], k);
      StepHides(y, run[0], k);
      RunHides(Step(y, run[0]), run[1..], k);
    }
  }

  /**
   In every run without a restart, an entry that is still hidden has a sleeping
   raise of its identity; so once no raise sleeps, no alarm is hidden.
   */
  lemma NoAlarmStaysHidden(y0: System, run: seq<Action>)
    requires Started(y0) && Possible(y0, run) && NoCrash(run)
    ensures var y := After(y0, run);
            forall n :: n in y.state.active && !IsThreshold(n.Key()) && n.definition.raiseDelay > 0 ==>
                          exists t :: t in y.tasks && Wakes(t, n.Key())
  {
    var y := After(y0, run);
    forall n | n in y.state.active && !IsThreshold(n.Key()) && n.definition.raiseDelay > 0
      ensures exists t :: t in y.tasks && Wakes(t, n.Key())
    {
      RunHides(y0, run, n.Key());
      assert IsHidden(n, n.Key());
    }
  }

  // ---- across a restart

  lemma WarnKeepsOld(s: State, id: int)
    requires id <= s.uniqueAlarmId
    ensures ActiveThresholdReady(s) ==>
              s.active <= WarnActive(s).active && Active(WarnActive(s), HasId(id)) == Active(s, HasId(id))
    ensures HistoryThresholdReady(s) ==>
              && s.active <= WarnHistory(s).active && Active(WarnHistory(s), HasId(id)) == Active(s, HasId(id))
              && s.active <= WarnHistoryOnClear(s).active
              && Active(WarnHistoryOnClear(s), HasId(id)) == Active(s, HasId(id))
  {
    hide Count;
    if ActiveLimitHit(s) && ActiveThresholdReady(s) {
      CountSnoc(s.active, ThresholdAlarm(s, ACTIVE_ALARM_EXCEED_MAX_THRESHOLD, "active"), Entry(HasId(id)));
    }
    if HistoryLimitHit(s) && HistoryThresholdReady(s) {
      CountSnoc(s.active, ThresholdAlarm(s, ALARM_HISTORY_EXCEED_MAX_THRESHOLD, "history"), Entry(HasId(id)));
    }
  }

  lemma AcceptKeepsOld(s: State, m: AlarmNotification, id: int)
    requires m.SpecificProblem() in s.definitions && ActiveThresholdReady(s) && id <= s.uniqueAlarmId
    ensures var r := Accept(s, m).state; s.active <= r.active && Active(r, HasId(id)) == Active(s, HasId(id))
  {
    hide Count;
    var n := AcceptedAlarm(s, m);
    var w := WarnActive(Allocate(s, n));
    WarnKeepsOld(Allocate(s, n), id);
    CountSnoc(w.active, n, Entry(HasId(id)));
    assert !HasId(id)(n.Tag());
  }

  lemma ClearKeepsOld(s: State, m: AlarmNotification, idx: nat, id: int)
    requires idx < |s.active| && m.SpecificProblem() in s.definitions
    requires HistoryThresholdReady(MoveToHistory(s, m, idx)) && id <= s.uniqueAlarmId
    ensures var r := FinishClear(s, m, idx);
            && Remove(s.active, idx) <= r.active
            && Active(r, HasId(id)) == Active(s, HasId(id)) - One(s.active[idx].Id() == id)
  {
    hide Count;
    EntryLeaves(s.active, idx, HasId(id));
    WarnKeepsOld(MoveToHistory(s, m, idx), id);
  }

  lemma OnlyEntry(s: State, n: AlarmNotification, idx: nat, k: Identity)
    requires n in s.active && n.Key() == k && Entries(s, k) <= 1 && idx < |s.active| && s.active[idx].Key() == k
    ensures s.active[idx] == n
  {
    hide Count;
    var j :| 0 <= j < |s.active| && s.active[j] == n;
    assert HasKey(k)(s.active[j].Tag()) && HasKey(k)(s.active[idx].Tag());
    if j < idx { CountPair(s.active, j, idx, Entry(HasKey(k))); }
    if idx < j { CountPair(s.active, idx, j, Entry(HasKey(k))); }
  }

  lemma StaysIn(active: seq<AlarmNotification>, idx: nat, n: AlarmNotification, m: AlarmNotification)
    requires n in active && idx < |active| && active[idx] != n
    ensures n in Remove(active, idx) && n in active[idx := m]
  {
    var j :| 0 <= j < |active| && active[j] == n;
    assert Remove(active, idx)[if j < idx then j else j - 1] == n;
    assert active[idx := m][j] == n;
  }

  /** n is a hidden entry of k no sleeping raise will bring out. */
  ghost predicate Stranded(y: System, n: AlarmNotification, k: Identity) {
    && n in y.state.active && IsHidden(n, k) && n.Id() <= y.state.uniqueAlarmId
    && forall t :: t in y.tasks ==> !Wakes(t, k)
  }

  /** A section leaves it as it is, or takes it out; and then it has left no other one behind. */
  ghost predicate Freed(s: State, o: Outcome, n: AlarmNotification, k: Identity) {
    && Active(o.state, HasId(n.Id())) == Active(s, HasId(n.Id())) - 1
    && (Hidden(o.state.active, k) ==> o.next.Some? && Wakes(o.next.value, k))
  }

  lemma ClearStranded(s: State, m: AlarmNotification, idx: nat, n: AlarmNotification, k: Identity)
    requires idx < |s.active| && m.SpecificProblem() in s.definitions
    requires HistoryThresholdReady(MoveToHistory(s, m, idx))
    requires n in s.active && IsHidden(n, k) && !IsThreshold(k) && Entries(s, k) <= 1 && n.Id() <= s.uniqueAlarmId
    ensures var r := FinishClear(s, m, idx); n in r.active || Freed(s, Outcome(r, None), n, k)
  {
    hide Count, Find, FinishClear, Remove;
    ClearKeepsOld(s, m, idx, n.Id());
    if s.active[idx] != n {
      StaysIn(s.active, idx, n, n);
    } else {
      ClearEntries(s, m, idx, k);
      NoEntryHidden(FinishClear(s, m, idx), k);
    }
  }

  lemma NoEntryHidden(s: State, k: Identity)
    requires Entries(s, k) <= 0
    ensures !Hidden(s.active, k)
  {
    hide Count, Find;
    FindCounts(s.active, k);
    AbsentHides(s.active, k);
  }

  lemma RaiseStranded(s: State, m: AlarmNotification, n: AlarmNotification, k: Identity)
    requires m.SpecificProblem() in s.definitions && ActiveThresholdReady(Vacated(s, m))
    requires n in s.active && IsHidden(n, k) && !IsThreshold(k) && Entries(s, k) <= 1 && n.Id() <= s.uniqueAlarmId
    ensures m.SpecificProblem() in Vacated(s, m).definitions
    ensures var o := Accept(Vacated(s, m), m);
            if m.Key() == k then Freed(s, o, n, k)
            else n in o.state.active && (o.next.Some? ==> !Wakes(o.next.value, k))
  {
    hide Count, Find, Remove;
    var v, idx := Vacated(s, m), Find(s.active, m.Key());
    AcceptKeepsOld(v, m, n.Id());
    AcceptHides(v, m, k);
    if m.Key() == k {
      FindCounts(s.active, k);
      assert HasKey(k)(n.Tag());
      OnlyEntryFound(s, n, k);
      EntryLeaves(s.active, idx, HasId(n.Id()));
      LeaveEntries(s, idx, k);
      NoEntryHidden(v, k);
    } else if idx >= 0 {
      StaysIn(s.active, idx, n, n);
    }
  }

  lemma OnlyEntryFound(s: State, n: AlarmNotification, k: Identity)
    requires n in s.active && n.Key() == k && Entries(s, k) <= 1
    ensures Find(s.active, k) >= 0 && s.active[Find(s.active, k)] == n
  {
    hide Find, Count;
    OnlyEntry(s, n, Find(s.active, k), k);
  }

  lemma DispatchStranded(s: State, t: Task, n: AlarmNotification, k: Identity)
    requires Safe(s, t) && !Wakes(t, k)
    requires n in s.active && IsHidden(n, k) && !IsThreshold(k) && Entries(s, k) <= 1 && n.Id() <= s.uniqueAlarmId
    ensures var o := Dispatch(s, t);
            (n in o.state.active && (o.next.Some? ==> !Wakes(o.next.value, k))) || Freed(s, o, n, k)
  {
    hide Count, Find, FinishClear, Accept, Freed, Hidden, Vacated;
    var m, idx := t.m, Find(s.active, t.m.Key());
    match t
    case Pending(_) =>
      if m.SpecificProblem() in s.definitions {
        if m.message.action.Raise? && !Suppressed(s, m) {
          VacatedDefinitions(s, m);
          RaiseStranded(s, m, n, k);
        } else if m.message.action.Clear? && idx >= 0 && s.definitions[m.SpecificProblem()].clearDelay <= 0 {
          ClearStranded(s, m, idx, n, k);
        }
      }
    case RaiseWaiting(_) => if idx >= 0 { StaysIn(s.active, idx, n, s.active[idx].WithRaiseDelay(0)); }
    case RaisePublishing(_) => WarnKeepsOld(s, n.Id());
    case ClearWaiting(_) => if idx >= 0 { ClearStranded(s, m, idx, n, k); }
  }

  /** The entry is still stranded, or it has left the list and no other is. */
  ghost predicate StrandedInv(y: System, n: AlarmNotification, k: Identity) {
    && Active(y.state, HasId(n.Id())) <= 1
    && if Active(y.state, HasId(n.Id())) == 1 then Stranded(y, n, k) else HidingInv(y, k)
  }

  lemma StrandedCounts(y: System, n: AlarmNotification, k: Identity)
    requires Stranded(y, n, k)
    ensures Active(y.state, HasId(n.Id())) >= 1
  {
    hide Count;
    var i :| 0 <= i < |y.state.active| && y.state.active[i] == n;
    assert HasId(n.Id())(n.Tag());
    CountPositive(y.state.active, i, Entry(HasId(n.Id())));
  }

  /** Of an id that has been issued, no more can become active. */
  lemma OldIdShrinks(y: System, a: Action, id: int)
    requires Enabled(y, a) && WellFormed(y) && !a.Crash? && id <= y.state.uniqueAlarmId
    ensures var s, t := y.state, Step(y, a).state;
            && s.uniqueAlarmId <= t.uniqueAlarmId
            && Cleared(s, HasId(id)) <= Cleared(t, HasId(id)) && Replacements(s, HasId(id)) <= Replacements(t, HasId(id))
            && Active(t, HasId(id)) + Cleared(t, HasId(id)) + Replacements(t, HasId(id))
               == Active(s, HasId(id)) + Cleared(s, HasId(id)) + Replacements(s, HasId(id))
  {
    hide Count, Step, Enabled;
    StepKeepsIds(y, a, id);
    StepFresh(y, a, id);
  }

  lemma ScheduleStranded(y: System, i: nat, n: AlarmNotification, k: Identity)
    requires Enabled(y, Schedule(i)) && Stranded(y, n, k) && Entries(y.state, k) <= 1 && !IsThreshold(k)
    ensures var z := Step(y, Schedule(i));
            || (n in z.state.active && forall t :: t in z.tasks ==> !Wakes(t, k))
            || (Active(z.state, HasId(n.Id())) == Active(y.state, HasId(n.Id())) - 1 && HidingInv(z, k))
  {
    hide Count, Find, Dispatch, Hidden, Remove, Active, Safe, Entries;
    var o, z := Dispatch(y.state, y.tasks[i]), Step(y, Schedule(i));
    assert y.tasks[i] in y.tasks;
    DispatchStranded(y.state, y.tasks[i], n, k);
    ContinueKeeps(Remove(y.tasks, i), o.next);
    forall t | t in z.tasks && Wakes(t, k) ensures o.next == Some(t) { TasksAfter(y.tasks, i, o.next, t); }
    if Hidden(o.state.active, k) && o.next.Some? { assert o.next.value in z.tasks; }
  }

  lemma ExpireStranded(y: System, m0: AlarmNotification, idx: nat, n: AlarmNotification, k: Identity)
    requires Enabled(y, Expire(m0, idx)) && Stranded(y, n, k) && Entries(y.state, k) <= 1 && !IsThreshold(k)
    ensures var z := Step(y, Expire(m0, idx));
            || (n in z.state.active && forall t :: t in z.tasks ==> !Wakes(t, k))
            || (Active(z.state, HasId(n.Id())) == Active(y.state, HasId(n.Id())) - 1 && HidingInv(z, k))
  {
    hide Count, Find, FinishClear, Hidden, Remove, Active, Entries;
    if Expired(y.state.definitions, y.state.clock, m0) {
      var m := ExpiryMessage(y.state, m0);
      if y.state.definitions[m.SpecificProblem()].clearDelay <= 0 { ClearStranded(y.state, m, idx, n, k); }
    }
  }

  lemma StepStranded(y: System, a: Action, n: AlarmNotification, k: Identity)
    requires Enabled(y, a) && WellFormed(y) && !a.Crash? && Sole(y, k) && !IsThreshold(k)
    requires n.Id() <= y.state.uniqueAlarmId && StrandedInv(y, n, k)
    ensures StrandedInv(Step(y, a), n, k)
  {
    hide Count, Find, Dispatch, Hidden, Remove, Active, Safe, HidingInv, FinishClear;
    var z := Step(y, a);
    OldIdShrinks(y, a, n.Id());
    if Active(y.state, HasId(n.Id())) != 1 {
      StepHides(y, a, k);
    } else {
      if a.Schedule? {
        ScheduleStranded(y, a.i, n, k);
      } else if a.Expire? {
        ExpireStranded(y, a.n, a.idx, n, k);
      } else {
        assert z.state.active == y.state.active;
      }
      if n in z.state.active && forall t :: t in z.tasks ==> !Wakes(t, k) {
        assert Stranded(z, n, k);
        StrandedCounts(z, n, k);
      }
    }
  }

  lemma {:induction false} RunStranded(y: System, run: seq<Action>, n: AlarmNotification, k: Identity)
    requires Possible(y, run) && NoCrash(run) && WellFormed(y) && Sole(y, k) && !IsThreshold(k)
    requires n.Id() <= y.state.uniqueAlarmId && StrandedInv(y, n, k)
    ensures var z := After(y, run);
            && StrandedInv(z, n, k) && n.Id() <= z.state.uniqueAlarmId
            && Cleared(y.state, HasId(n.Id())) <= Cleared(z.state, HasId(n.Id()))
            && Replacements(y.state, HasId(n.Id())) <= Replacements(z.state, HasId(n.Id()))
            && Active(z.state, HasId(n.Id())) + Cleared(z.state, HasId(n.Id())) + Replacements(z.state, HasId(n.Id()))
               == Active(y.state, HasId(n.Id())) + Cleared(y.state, HasId(n.Id())) + Replacements(y.state, HasId(n.Id()))
    decreases |run|
  {
    hide Step, Enabled, StrandedInv, Sole, Active, Cleared, Replacements;
    if run != [] {
      assert run[0] in run && forall a :: a in run[1..] ==> a in run;
      StepSole(y, run[0], k);
      StepKeepsIds(y, run[0], 0);
      OldIdShrinks(y, run[0], n.Id());
      StepStranded(y, run[0], n, k);
      RunStranded(Step(y, run[0]), run[1..], n, k);
    }
  }

  /** Since the start at y the entry has been neither cleared nor replaced. */
  ghost predicate Untaken(y: System, z: System, n: AlarmNotification) {
    && Cleared(z.state, HasId(n.Id())) == Cleared(y.state, HasId(n.Id()))
    && Replacements(z.state, HasId(n.Id())) == Replacements(y.state, HasId(n.Id()))
  }

  /**
   A restart forgets the sleeping raises. Afterwards an identity is hidden with
   no raise to bring it out if and only if the file that was read held it hidden
   and that entry has been neither cleared nor replaced since.
   */
  lemma HiddenAfterRestart(y0: System, before: seq<Action>, definitions: map<int, AlarmDefinition>,
                           run: seq<Action>, k: Identity)
    requires Started(y0) && Possible(y0, before) && NoCrash(run) && !IsThreshold(k)
    requires Possible(Step(After(y0, before), Crash(definitions)), run)
    ensures var file := Restored(After(y0, before).state.file);
            var y := Step(After(y0, before), Crash(definitions));
            var z := After(y, run);
            (Hidden(z.state.active, k) && forall t :: t in z.tasks ==> !Wakes(t, k))
            <==> exists n :: n in file.active && IsHidden(n, k) && Untaken(y, z, n)
  {
    hide Count, Find;
    var x := After(y0, before);
    var y, z := Step(x, Crash(definitions)), After(Step(x, Crash(definitions)), run);
    StartedSole(y0, k);
    RunSole(y0, before, k);
    StepSole(x, Crash(definitions), k);
    assert y.state.active == Restored(x.state.file).active && y.tasks == [];
    if Hidden(y.state.active, k) {
      var n :| n in y.state.active && IsHidden(n, k);
      StartedIds(y0, n.Id());
      RunIds(y0, before, n.Id());
      StepIds(x, Crash(definitions), n.Id());
      AfterRestart(y, run, n, k);
      forall m | m in y.state.active && IsHidden(m, k) ensures m == n {
        var i :| 0 <= i < |y.state.active| && y.state.active[i] == m;
        OnlyEntry(y.state, n, i, k);
      }
    } else {
      RunHides(y, run, k);
    }
  }

  lemma AfterRestart(y: System, run: seq<Action>, n: AlarmNotification, k: Identity)
    requires Possible(y, run) && NoCrash(run) && !IsThreshold(k) && Sole(y, k) && IdInv(y, n.Id())
    requires y.tasks == [] && n in y.state.active && IsHidden(n, k)
    ensures var z := After(y, run);
            (Hidden(z.state.active, k) && forall t :: t in z.tasks ==> !Wakes(t, k)) <==> Untaken(y, z, n)
  {
    hide Count, Sole, IsThreshold;
    var i :| 0 <= i < |y.state.active| && y.state.active[i] == n;
    assert HasId(n.Id())(n.Tag());
    CountPositive(y.state.active, i, Entry(HasId(n.Id())));
    assert StrandedInv(y, n, k);
    RunStranded(y, run, n, k);
  }
}
