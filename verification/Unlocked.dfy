/**
 What may happen while the TTL timer holds the mutex: raises are published,
 and definitions, limits and the clock change, all of it without the mutex.
 How far that can move the list under the timer.
 */
module Unlocked {
  import opened AlarmTypes
  import opened AlarmTable
  import opened Protocol

  /** A step that takes no mutex. ProcessAlarm may be called, but not get past its first lock. */
  predicate NeedsNoMutex(y: System, a: Action) {
    match a
    case Schedule(i) => i < |y.tasks| && y.tasks[i].RaisePublishing?
    case Expire(_, _) => false
    case Crash(_) => false
    case _ => true
  }

  /** A step that can happen while the TTL timer has not let go of the mutex: its own visits clear nothing. */
  predicate WhileHeld(y: System, a: Action) {
    NeedsNoMutex(y, a) || (a.Expire? && !Expired(y.state.definitions, y.state.clock, a.n))
  }

  predicate AllWhileHeld(y: System, run: seq<Action>)
    requires Possible(y, run)
    decreases |run|
  {
    run == [] || (WhileHeld(y, run[0]) && AllWhileHeld(Step(y, run[0]), run[1..]))
  }

  /**
   From s to t raises may have been published: the history has grown, and the
   list is the same but for at most one threshold alarm behind it, which the
   latch shows. Definitions, limits and the clock are free.
   */
  predicate Grown(s: State, t: State) {
    && t.activeExceeded == s.activeExceeded && s.history <= t.history
    && ((t.file == s.file && Memory(t) == Memory(s)) || t.file == Some(Memory(t)))
    && if t.historyExceeded == s.historyExceeded
       then t.active == s.active && t.uniqueAlarmId == s.uniqueAlarmId
       else
         && t.historyExceeded && t.uniqueAlarmId == s.uniqueAlarmId + 1
         && s.active <= t.active && |t.active| == |s.active| + 1
         && t.active[|s.active|].Tag() == AlarmTag(HISTORY_THRESHOLD, t.uniqueAlarmId)
  }

  lemma GrownTransitive(s: State, t: State, u: State)
    requires Grown(s, t) && Grown(t, u)
    ensures Grown(s, u)
  {
  }

  lemma GrownPrefix(s: State, t: State)
    requires Grown(s, t)
    ensures s.active <= t.active
  {
  }

  lemma GrownAtOnce(s: State)
    ensures Grown(s, s)
  {
  }

  lemma PublishGrows(s: State, m: AlarmNotification)
    requires HistoryThresholdReady(s)
    ensures Grown(s, Publish(s, m))
  {
  }

  lemma StepGrows(y: System, a: Action)
    requires Enabled(y, a) && WhileHeld(y, a)
    ensures Grown(y.state, Step(y, a).state)
  {
    hide Publish;
    if a.Schedule? { PublishGrows(y.state, y.tasks[a.i].m); }
  }

  lemma GrownKeepsEntry(s: State, t: State, tasks: seq<Task>, i: nat)
    requires Grown(s, t) && i < |s.active|
    ensures i < |t.active| && t.active[i] == s.active[i]
    ensures !Misses(System(t, tasks), Expire(s.active[i], i))
  {
  }

  /**
   Whatever happens while the TTL timer holds the mutex, each entry the list
   had is still at its index; so the first clear of a tick never misses.
   */
  lemma {:induction false} FirstClearHits(y: System, run: seq<Action>)
    requires Possible(y, run) && AllWhileHeld(y, run)
    ensures var z := After(y, run);
            && Grown(y.state, z.state)
            && forall i | 0 <= i < |y.state.active| ::
                 i < |z.state.active| && z.state.active[i] == y.state.active[i] && !Misses(z, Expire(y.state.active[i], i))
    decreases |run|
  {
    hide Step, Enabled, Grown, WhileHeld, Misses;
    var z := After(y, run);
    if run == [] {
      GrownAtOnce(y.state);
    } else {
      StepGrows(y, run[0]);
      FirstClearHits(Step(y, run[0]), run[1..]);
      GrownTransitive(y.state, Step(y, run[0]).state, z.state);
    }
    forall i | 0 <= i < |y.state.active|
      ensures i < |z.state.active| && z.state.active[i] == y.state.active[i] && !Misses(z, Expire(y.state.active[i], i))
    {
      GrownKeepsEntry(y.state, z.state, z.tasks, i);
    }
  }
}
