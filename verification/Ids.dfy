/**
 Alarm ids. In every reachable state, restarts from any written file
 included, an id is used by at most one active alarm, at most one RAISE
 record and at most one CLEAR record.
 */
module Ids {
  import opened AlarmTypes
  import opened Counting
  import opened AlarmTable
  import opened Protocol
  import opened Balance

  /** Each id up to n has at most one fate on either side of the books, and no other id has any. */
  ghost predicate UsedOnce(m: Snapshot, tasks: seq<Task>, id: int) {
    var q := HasId(id);
    var once := One(1 <= id <= m.uniqueAlarmId);
    && Count(m.active, Entry(q)) + Count(m.history, ClearRecord(q)) <= once
    && Count(m.history, RaiseRecord(q)) + InFlight(tasks, q) <= once
  }

  ghost predicate IdInv(y: System, id: int) {
    && WellFormed(y)
    && y.state.uniqueAlarmId >= 0 && Restored(y.state.file).uniqueAlarmId >= 0
    && UsedOnce(Memory(y.state), y.tasks, id)
    && UsedOnce(Restored(y.state.file), [], id)
  }

  lemma StartedIds(y0: System, id: int)
    requires Started(y0)
    ensures IdInv(y0, id)
  {
  }

  lemma AcceptFile(s: State, m: AlarmNotification)
    requires m.SpecificProblem() in s.definitions && ActiveThresholdReady(s)
    ensures Accept(s, m).state.file == s.file
  {
  }

  /** A section either leaves the file alone or writes exactly what is in memory when it ends. */
  lemma FileIsCurrent(s: State, t: Task)
    requires Safe(s, t)
    ensures var r := Dispatch(s, t).state; r.file == s.file || r.file == Some(Memory(r))
  {
    hide Find, Accept, UpdateAlarmHistoryList, ResetLatches, WarnHistoryOnClear, MoveToHistory, Suppressed;
    var m := t.m;
    if t.Pending? && m.message.action.Raise? && m.SpecificProblem() in s.definitions && !Suppressed(s, m) {
      AcceptFile(Vacated(s, m), m);
    }
  }

  lemma StepFile(y: System, a: Action)
    requires Enabled(y, a)
    ensures var r := Step(y, a).state; r.file == y.state.file || r.file == Some(Memory(r))
  {
    hide Dispatch, Find;
    if a.Schedule? { FileIsCurrent(y.state, y.tasks[a.i]); }
  }

  lemma StepIds(y: System, a: Action, id: int)
    requires Enabled(y, a) && IdInv(y, id)
    ensures IdInv(Step(y, a), id)
  {
    var z := Step(y, a);
    if a.Crash? {
      assert z.tasks == [] && Memory(z.state) == Restored(y.state.file);
    } else {
      hide Count, Step;
      StepKeepsIds(y, a, id);
      StepFresh(y, a, id);
      StepFile(y, a);
      assert InFlight([], HasId(id)) == 0 by { EmptyFlight(id); }
    }
  }

  lemma EmptyFlight(id: int)
    ensures InFlight([], HasId(id)) == 0
  {
  }

  lemma {:induction false} RunIds(y: System, run: seq<Action>, id: int)
    requires Possible(y, run) && IdInv(y, id)
    ensures IdInv(After(y, run), id)
    decreases |run|
  {
    hide Count, Step, Enabled, IdInv;
    if run != [] {
      StepIds(y, run[0], id);
      RunIds(Step(y, run[0]), run[1..], id);
    }
  }

  predicate BothRaise(n: AlarmNotification, m: AlarmNotification) {
    n.message.action.Raise? && m.message.action.Raise?
  }

  predicate BothClear(n: AlarmNotification, m: AlarmNotification) {
    n.message.action.Clear? && m.message.action.Clear?
  }

  /** Two records of one kind, and an active alarm and a CLEAR record, never share an id. */
  ghost predicate IdsDistinct(m: Snapshot) {
    && (forall i, j | 0 <= i < j < |m.active| :: m.active[i].Id() != m.active[j].Id())
    && (forall i | 0 <= i < |m.active| :: 1 <= m.active[i].Id() <= m.uniqueAlarmId)
    && (forall i, j | 0 <= i < j < |m.history| ::
          BothRaise(m.history[i], m.history[j]) || BothClear(m.history[i], m.history[j])
          ==> m.history[i].Id() != m.history[j].Id())
    && (forall i, j | 0 <= i < |m.active| && 0 <= j < |m.history| && m.history[j].message.action.Clear? ::
          m.active[i].Id() != m.history[j].Id())
  }

  lemma Counted(n: AlarmNotification)
    ensures var q := HasId(n.Id());
            && Entry(q)(n)
            && (n.message.action.Raise? ==> RaiseRecord(q)(n))
            && (n.message.action.Clear? ==> ClearRecord(q)(n))
  {
    assert HasId(n.Id())(n.Tag());
  }

  lemma OnceIsDistinct(m: Snapshot)
    requires forall id :: UsedOnce(m, [], id)
    ensures IdsDistinct(m)
  {
    hide Count, Entry, RaiseRecord, ClearRecord, HasId;
    forall i, j | 0 <= i < j < |m.active| ensures m.active[i].Id() != m.active[j].Id() {
      Counted(m.active[i]);
      Counted(m.active[j]);
      if m.active[i].Id() == m.active[j].Id() {
        assert UsedOnce(m, [], m.active[i].Id());
        CountPair(m.active, i, j, Entry(HasId(m.active[i].Id())));
      }
    }
    forall i | 0 <= i < |m.active| ensures 1 <= m.active[i].Id() <= m.uniqueAlarmId {
      Counted(m.active[i]);
      assert UsedOnce(m, [], m.active[i].Id());
      CountPositive(m.active, i, Entry(HasId(m.active[i].Id())));
    }
    forall i, j | 0 <= i < j < |m.history|
      ensures BothRaise(m.history[i], m.history[j]) || BothClear(m.history[i], m.history[j])
              ==> m.history[i].Id() != m.history[j].Id()
    {
      Counted(m.history[i]);
      Counted(m.history[j]);
      if m.history[i].Id() == m.history[j].Id() {
        var q := HasId(m.history[i].Id());
        assert UsedOnce(m, [], m.history[i].Id());
        if BothRaise(m.history[i], m.history[j]) { CountPair(m.history, i, j, RaiseRecord(q)); }
        if BothClear(m.history[i], m.history[j]) { CountPair(m.history, i, j, ClearRecord(q)); }
      }
    }
    forall i, j | 0 <= i < |m.active| && 0 <= j < |m.history| && m.history[j].message.action.Clear?
      ensures m.active[i].Id() != m.history[j].Id()
    {
      Counted(m.active[i]);
      Counted(m.history[j]);
      if m.active[i].Id() == m.history[j].Id() {
        var q := HasId(m.active[i].Id());
        assert UsedOnce(m, [], m.active[i].Id());
        CountPositive(m.active, i, Entry(q));
        CountPositive(m.history, j, ClearRecord(q));
      }
    }
  }

  /** The ids of every reachable state, and of every file a restart can read, are distinct. */
  lemma IdsAreUnique(y0: System, run: seq<Action>)
    requires Started(y0) && Possible(y0, run)
    ensures IdsDistinct(Memory(After(y0, run).state))
    ensures IdsDistinct(Restored(After(y0, run).state.file))
  {
    var y := After(y0, run);
    forall id ensures UsedOnce(Memory(y.state), [], id) && UsedOnce(Restored(y.state.file), [], id) {
      assert IdInv(y0, id);
      RunIds(y0, run, id);
      EmptyFlight(id);
    }
    OnceIsDistinct(Memory(y.state));
    OnceIsDistinct(Restored(y.state.file));
  }
}
