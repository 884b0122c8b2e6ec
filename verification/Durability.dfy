/**
 The file and the memory. They differ only while some raise has yet to be
 published; once none is in flight a restart loses nothing.
 */
module Durability {
  import opened AlarmTypes
  import opened Counting
  import opened AlarmTable
  import opened Protocol

  predicate Durable(s: State) { Restored(s.file) == Memory(s) }

  /** t is a raise that will write the file: it is publishing, or it sleeps and will find its identity active. */
  predicate Vouches(active: seq<AlarmNotification>, t: Task) {
    t.RaisePublishing? || (t.RaiseWaiting? && Find(active, t.m.Key()) >= 0)
  }

  ghost predicate Vouched(y: System) {
    exists t :: t in y.tasks && Vouches(y.state.active, t)
  }

  ghost predicate DurabilityInv(y: System) { Durable(y.state) || Vouched(y) }

  lemma LastIsFound(active: seq<AlarmNotification>, n: AlarmNotification)
    ensures Find(active + [n], n.Key()) >= 0
  {
    assert (active + [n])[|active|] == n;
  }

  lemma AcceptVouches(s: State, m: AlarmNotification)
    requires m.SpecificProblem() in s.definitions && ActiveThresholdReady(s)
    ensures var o := Accept(s, m); o.next.Some? && Vouches(o.state.active, o.next.value)
  {
    hide Find;
    var n := AcceptedAlarm(s, m);
    LastIsFound(WarnActive(Allocate(s, n)).active, n);
  }

  predicate Untouched(s: State, r: State) {
    Memory(r) == Memory(s) && r.file == s.file
  }

  /** A section writes the file, or leaves a raise that will, or changes nothing and was no voucher itself. */
  lemma DispatchDurable(s: State, t: Task)
    requires Safe(s, t)
    ensures var o := Dispatch(s, t);
            || Durable(o.state)
            || (o.next.Some? && Vouches(o.state.active, o.next.value))
            || (Untouched(s, o.state) && !Vouches(s.active, t))
  {
    hide Find, Accept, ResetLatches, WarnHistoryOnClear, MoveToHistory, UpdateAlarmHistoryList, Suppressed;
    var m := t.m;
    if t.Pending? && m.message.action.Raise? && m.SpecificProblem() in s.definitions && !Suppressed(s, m) {
      AcceptVouches(Vacated(s, m), m);
    }
  }

  lemma KeepsOthers(tasks: seq<Task>, i: nat, t: Task)
    requires i < |tasks| && t in tasks && t != tasks[i]
    ensures t in Remove(tasks, i)
  {
    var j :| 0 <= j < |tasks| && tasks[j] == t;
    assert Remove(tasks, i)[if j < i then j else j - 1] == t;
  }

  lemma ContinueKeeps(tasks: seq<Task>, next: Option<Task>)
    ensures forall t :: t in tasks ==> t in Continue(tasks, next)
    ensures next.Some? ==> next.value in Continue(tasks, next)
  {
  }

  lemma TasksAfter(tasks: seq<Task>, i: nat, next: Option<Task>, t: Task)
    requires i < |tasks| && t in Continue(Remove(tasks, i), next)
    ensures t in tasks || next == Some(t)
  {
  }

  lemma ScheduleDurable(y: System, i: nat)
    requires Enabled(y, Schedule(i)) && DurabilityInv(y)
    ensures DurabilityInv(Step(y, Schedule(i)))
  {
    hide Find, Dispatch, Remove;
    var o := Dispatch(y.state, y.tasks[i]);
    var z := Step(y, Schedule(i));
    DispatchDurable(y.state, y.tasks[i]);
    ContinueKeeps(Remove(y.tasks, i), o.next);
    if Durable(o.state) {
    } else if o.next.Some? && Vouches(o.state.active, o.next.value) {
      assert o.next.value in z.tasks;
    } else {
      var t :| t in y.tasks && Vouches(y.state.active, t);
      KeepsOthers(y.tasks, i, t);
      assert t in z.tasks && Vouches(z.state.active, t);
    }
  }

  lemma StepDurable(y: System, a: Action)
    requires Enabled(y, a) && DurabilityInv(y)
    ensures DurabilityInv(Step(y, a))
  {
    hide Find, Dispatch, ResetLatches, WarnHistoryOnClear, MoveToHistory;
    var z := Step(y, a);
    if a.Schedule? {
      ScheduleDurable(y, a.i);
    } else if !Durable(z.state) && !a.Crash? {
      assert Untouched(y.state, z.state);
      var t :| t in y.tasks && Vouches(y.state.active, t);
      assert t in z.tasks && Vouches(z.state.active, t);
    }
  }

  lemma {:induction false} RunDurable(y: System, run: seq<Action>)
    requires Possible(y, run) && DurabilityInv(y)
    ensures DurabilityInv(After(y, run))
    decreases |run|
  {
    hide Step, Enabled, DurabilityInv;
    if run != [] {
      StepDurable(y, run[0]);
      RunDurable(Step(y, run[0]), run[1..]);
    }
  }

  /**
   In every reachable state, restarts included: if the file is behind the
   memory, some raise is publishing or sleeps with its identity still active.
   So with no raise in flight a restart brings back the active list, the
   history and the id counter as they are.
   */
  lemma DurableAtQuiescence(y0: System, run: seq<Action>, definitions: map<int, AlarmDefinition>)
    requires Started(y0) && Possible(y0, run)
    ensures var y := After(y0, run);
            && (!Durable(y.state) ==> exists t :: t in y.tasks && Vouches(y.state.active, t))
            && ((forall t :: t in y.tasks ==> !RaiseInFlight(t))
                ==> Memory(Restart(y.state, definitions)) == Memory(y.state))
  {
    RunDurable(y0, run);
  }
}
