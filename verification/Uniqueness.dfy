/**
 At most one active entry per identity. The manager's own threshold alarms are
 the exception: it raises them without looking for a duplicate.
 */
module Uniqueness {
  import opened AlarmTypes
  import opened Counting
  import opened AlarmTable
  import opened Protocol
  import opened Balance
  import opened Ids

  ghost function Entries(s: State, k: Identity): nat { Active(s, HasKey(k)) }

  lemma FindCounts(active: seq<AlarmNotification>, k: Identity)
    ensures Find(active, k) < 0 <==> Count(active, Entry(HasKey(k))) == 0
  {
    hide Find, Count;
    CountZero(active, Entry(HasKey(k)));
    forall i | 0 <= i < |active| ensures Entry(HasKey(k))(active[i]) == (active[i].Key() == k) {
      assert HasKey(k)(active[i].Tag()) == (active[i].Key() == k);
    }
  }

  // ---- how the parts of a section move the number of entries of k

  lemma WarnEntries(s: State, k: Identity)
    requires !IsThreshold(k)
    ensures ActiveThresholdReady(s) ==> Entries(WarnActive(s), k) == Entries(s, k)
    ensures HistoryThresholdReady(s) ==>
              Entries(WarnHistory(s), k) == Entries(s, k) && Entries(WarnHistoryOnClear(s), k) == Entries(s, k)
  {
    hide Count;
    if ActiveLimitHit(s) && ActiveThresholdReady(s) {
      CountSnoc(s.active, ThresholdAlarm(s, ACTIVE_ALARM_EXCEED_MAX_THRESHOLD, "active"), Entry(HasKey(k)));
    }
    if HistoryLimitHit(s) && HistoryThresholdReady(s) {
      CountSnoc(s.active, ThresholdAlarm(s, ALARM_HISTORY_EXCEED_MAX_THRESHOLD, "history"), Entry(HasKey(k)));
    }
  }

  lemma AcceptEntries(s: State, m: AlarmNotification, k: Identity)
    requires !IsThreshold(k) && m.SpecificProblem() in s.definitions && ActiveThresholdReady(s)
    ensures Entries(Accept(s, m).state, k) == Entries(s, k) + One(m.Key() == k)
  {
    hide Count;
    var n := AcceptedAlarm(s, m);
    var s1 := Allocate(s, n);
    WarnEntries(s1, k);
    CountSnoc(WarnActive(s1).active, n, Entry(HasKey(k)));
    assert HasKey(k)(n.Tag()) == (m.Key() == k);
  }

  lemma LeaveEntries(s: State, idx: nat, k: Identity)
    requires idx < |s.active|
    ensures Count(Remove(s.active, idx), Entry(HasKey(k))) == Entries(s, k) - One(s.active[idx].Key() == k)
  {
    hide Count;
    EntryLeaves(s.active, idx, HasKey(k));
  }

  lemma ClearEntries(s: State, m: AlarmNotification, idx: nat, k: Identity)
    requires !IsThreshold(k)
    requires idx < |s.active| && m.SpecificProblem() in s.definitions
    requires HistoryThresholdReady(MoveToHistory(s, m, idx))
    ensures Entries(FinishClear(s, m, idx), k) == Entries(s, k) - One(s.active[idx].Key() == k)
  {
    hide Count;
    LeaveEntries(s, idx, k);
    WarnEntries(MoveToHistory(s, m, idx), k);
  }

  /**
   The number of entries of k after a section of t, for every t. Line by line:
   other identities and the second halves of a raise change nothing; a raise
   with a known SP leaves one entry and, unless it is a duplicate, goes on with
   that entry, asleep exactly if its definition has a RaiseDelay; a finished
   clear leaves none.
   */
  ghost predicate EntriesAfter(s: State, t: Task, o: Outcome, k: Identity) {
    var before, after := Entries(s, k), Entries(o.state, k);
    && (t.m.Key() != k || RaiseInFlight(t) ==> after == before)
    && (t.m.Key() == k && t.ClearWaiting? ==> after == 0)
    && (t.m.Key() == k && t.Pending? ==>
          if k.sp !in s.definitions || t.m.message.action.Other? then after == before && o.next.None?
          else if t.m.message.action.Raise? then
            && after == 1
            && (o.next.Some? ==>
                  && o.next.value.m.definition.raiseDelay == s.definitions[k.sp].raiseDelay
                  && o.next.value.m in o.state.active
                  && if s.definitions[k.sp].raiseDelay > 0 then o.next.value.RaiseWaiting? else o.next.value.RaisePublishing?)
          else if before == 0 || s.definitions[k.sp].clearDelay <= 0 then after == 0 && o.next.None?
          else after == before && o.next == Some(ClearWaiting(t.m)))
  }

  lemma DispatchEntries(s: State, t: Task, k: Identity)
    requires Safe(s, t) && !IsThreshold(k) && Entries(s, k) <= 1
    ensures EntriesAfter(s, t, Dispatch(s, t), k)
  {
    hide Count, Find, FinishClear;
    var m, idx := t.m, Find(s.active, t.m.Key());
    FindCounts(s.active, m.Key());
    match t
    case Pending(_) =>
      if m.SpecificProblem() in s.definitions {
        if m.message.action.Raise? && !Suppressed(s, m) {
          if idx >= 0 { LeaveEntries(s, idx, k); }
          AcceptEntries(Vacated(s, m), m, k);
        } else if m.message.action.Clear? && idx >= 0 && s.definitions[m.SpecificProblem()].clearDelay <= 0 {
          ClearEntries(s, m, idx, k);
        }
      }
    case RaiseWaiting(_) =>
      if idx >= 0 { EntryRetagged(s.active, idx, s.active[idx].WithRaiseDelay(0), HasKey(k)); }
    case RaisePublishing(_) => WarnEntries(s, k);
    case ClearWaiting(_) => if idx >= 0 { ClearEntries(s, m, idx, k); }
  }

  lemma NextKeepsKey(s: State, t: Task)
    requires Safe(s, t)
    ensures var o := Dispatch(s, t); o.next.Some? ==> o.next.value.m.Key() == t.m.Key()
  {
    hide Find, Suppressed, UpdateActiveAlarmList;
  }

  // ---- steps and runs

  lemma ExpireEntries(y: System, n: AlarmNotification, idx: nat, k: Identity)
    requires Enabled(y, Expire(n, idx)) && !IsThreshold(k)
    ensures Entries(Step(y, Expire(n, idx)).state, k) <= Entries(y.state, k)
  {
    hide Count, Find, FinishClear;
    if Expired(y.state.definitions, y.state.clock, n) {
      var m := ExpiryMessage(y.state, n);
      if y.state.definitions[m.SpecificProblem()].clearDelay <= 0 { ClearEntries(y.state, m, idx, k); }
    }
  }

  ghost predicate Sole(y: System, k: Identity) {
    && Entries(y.state, k) <= 1
    && Count(Restored(y.state.file).active, Entry(HasKey(k))) <= 1
  }

  lemma StartedSole(y0: System, k: Identity)
    requires Started(y0)
    ensures Sole(y0, k)
  {
  }

  lemma StepSole(y: System, a: Action, k: Identity)
    requires Enabled(y, a) && Sole(y, k) && !IsThreshold(k)
    ensures Sole(Step(y, a), k)
  {
    hide Count, Find, Dispatch, BeginClear;
    StepFile(y, a);
    match a
    case Schedule(i) => DispatchEntries(y.state, y.tasks[i], k);
    case Expire(n, idx) => ExpireEntries(y, n, idx, k);
    case _ =>
  }

  lemma {:induction false} RunSole(y: System, run: seq<Action>, k: Identity)
    requires Possible(y, run) && Sole(y, k) && !IsThreshold(k)
    ensures Sole(After(y, run), k)
    decreases |run|
  {
    hide Step, Enabled, Sole;
    if run != [] {
      StepSole(y, run[0], k);
      RunSole(Step(y, run[0]), run[1..], k);
    }
  }

  ghost predicate NoDuplicate(active: seq<AlarmNotification>) {
    forall i, j | 0 <= i < j < |active| :: active[i].Key() == active[j].Key() ==> IsThreshold(active[i].Key())
  }

  lemma SoleIsNoDuplicate(active: seq<AlarmNotification>)
    requires forall k: Identity :: !IsThreshold(k) ==> Count(active, Entry(HasKey(k))) <= 1
    ensures NoDuplicate(active)
  {
    hide Count;
    forall i, j | 0 <= i < j < |active|
      ensures active[i].Key() == active[j].Key() ==> IsThreshold(active[i].Key())
    {
      var k := active[i].Key();
      if active[j].Key() == k && !IsThreshold(k) {
        assert HasKey(k)(active[i].Tag()) && HasKey(k)(active[j].Tag());
        CountPair(active, i, j, Entry(HasKey(k)));
      }
    }
  }

  /** In every reachable state, restarts included, no two active entries share an identity, nor do two saved ones. */
  lemma AtMostOneActive(y0: System, run: seq<Action>)
    requires Started(y0) && Possible(y0, run)
    ensures NoDuplicate(After(y0, run).state.active)
    ensures NoDuplicate(Restored(After(y0, run).state.file).active)
  {
    var y := After(y0, run);
    forall k: Identity | !IsThreshold(k)
      ensures Count(y.state.active, Entry(HasKey(k))) <= 1
      ensures Count(Restored(y.state.file).active, Entry(HasKey(k))) <= 1
    {
      assert Sole(y0, k);
      RunSole(y0, run, k);
    }
    SoleIsNoDuplicate(y.state.active);
    SoleIsNoDuplicate(Restored(y.state.file).active);
  }

  /**
   Why threshold alarms are excepted: a clear that meets the history limit with
   the latch off adds one more entry of the history threshold alarm, however
   many there are, and leaves the latch off, so that the next clear does it again.
   */
  lemma ClearRepeatsThreshold(s: State, m: AlarmNotification, idx: nat)
    requires idx < |s.active| && m.SpecificProblem() in s.definitions
    requires HistoryThresholdReady(MoveToHistory(s, m, idx)) && HistoryLimitHit(MoveToHistory(s, m, idx))
    requires s.active[idx].Key() != HISTORY_THRESHOLD
    ensures var r := FinishClear(s, m, idx);
            Entries(r, HISTORY_THRESHOLD) == Entries(s, HISTORY_THRESHOLD) + 1 && !r.historyExceeded
  {
    hide Count;
    var s1 := MoveToHistory(s, m, idx);
    var n := ThresholdAlarm(s1, ALARM_HISTORY_EXCEED_MAX_THRESHOLD, "history");
    LeaveEntries(s, idx, HISTORY_THRESHOLD);
    CountSnoc(s1.active, n, Entry(HasKey(HISTORY_THRESHOLD)));
    assert HasKey(HISTORY_THRESHOLD)(n.Tag());
  }

  // ---- overlapping delayed clears

  ghost function Clearing(k: Identity): Task -> bool { (t: Task) => t.ClearWaiting? && t.m.Key() == k }

  /** A replacement of k is always followed, in the same section, by an acceptance of k. */
  lemma ReplacedIsReissued(s: State, t: Task, k: Identity)
    requires Safe(s, t) && Formed(t)
    ensures var r := Dispatch(s, t).state;
            Replacements(r, HasKey(k)) - Replacements(s, HasKey(k)) <= Issued(r, HasKey(k)) - Issued(s, HasKey(k))
  {
    hide Count, Find, FinishClear;
    var q := HasKey(k);
    var m, idx := t.m, Find(s.active, t.m.Key());
    match t
    case Pending(_) =>
      if m.SpecificProblem() in s.definitions {
        if m.message.action.Raise? && !Suppressed(s, m) {
          if idx >= 0 { LogEvent(s, Replaced(s.active[idx].Tag()), q); }
          AcceptLedger(Vacated(s, m), m, k);
        } else if m.message.action.Clear? && idx >= 0 && s.definitions[m.SpecificProblem()].clearDelay <= 0 {
          ClearLedger(s, m, idx, k);
        }
      }
    case RaiseWaiting(_) => LogEvent(s, Dropped(m.Tag()), q);
    case RaisePublishing(_) => WarnLedger(s, k);
    case ClearWaiting(_) => if idx >= 0 { ClearLedger(s, m, idx, k); }
  }

  lemma WarnLedger(s: State, k: Identity)
    ensures ActiveThresholdReady(s) ==>
              && Replacements(WarnActive(s), HasKey(k)) == Replacements(s, HasKey(k))
              && Issued(WarnActive(s), HasKey(k)) >= Issued(s, HasKey(k))
    ensures HistoryThresholdReady(s) ==>
              && Replacements(WarnHistory(s), HasKey(k)) == Replacements(s, HasKey(k))
              && Issued(WarnHistory(s), HasKey(k)) >= Issued(s, HasKey(k))
              && Replacements(WarnHistoryOnClear(s), HasKey(k)) == Replacements(s, HasKey(k))
              && Issued(WarnHistoryOnClear(s), HasKey(k)) >= Issued(s, HasKey(k))
  {
    hide Count, Stock, Flow;
    if ActiveLimitHit(s) && ActiveThresholdReady(s) {
      GenerateBalance(s, ACTIVE_ALARM_EXCEED_MAX_THRESHOLD, "active", false, HasKey(k));
    }
    if HistoryLimitHit(s) && HistoryThresholdReady(s) {
      GenerateBalance(s, ALARM_HISTORY_EXCEED_MAX_THRESHOLD, "history", false, HasKey(k));
      GenerateBalance(s, ALARM_HISTORY_EXCEED_MAX_THRESHOLD, "history", true, HasKey(k));
    }
  }

  lemma AcceptLedger(s: State, m: AlarmNotification, k: Identity)
    requires m.SpecificProblem() in s.definitions && ActiveThresholdReady(s)
    ensures var r := Accept(s, m).state;
            && Replacements(r, HasKey(k)) == Replacements(s, HasKey(k))
            && Issued(r, HasKey(k)) >= Issued(s, HasKey(k)) + One(m.Key() == k)
  {
    hide Count;
    var n := AcceptedAlarm(s, m);
    LogEvent(s, Accepted(n.Tag()), HasKey(k));
    assert HasKey(k)(n.Tag()) == (m.Key() == k);
    WarnLedger(Allocate(s, n), k);
  }

  lemma ClearLedger(s: State, m: AlarmNotification, idx: nat, k: Identity)
    requires idx < |s.active| && m.SpecificProblem() in s.definitions
    requires HistoryThresholdReady(MoveToHistory(s, m, idx))
    ensures var r := FinishClear(s, m, idx);
            && Replacements(r, HasKey(k)) == Replacements(s, HasKey(k))
            && Issued(r, HasKey(k)) >= Issued(s, HasKey(k))
  {
    hide Count;
    var s1 := MoveToHistory(s, m, idx);
    WarnLedger(s1, k);
    ResetBalance(WarnHistoryOnClear(s1), m.SpecificProblem(), HasKey(k));
  }

  /** k is gone already, or some delayed clear of k is still to run. */
  ghost predicate Doomed(y: System, k: Identity) {
    Entries(y.state, k) == 0 || Count(y.tasks, Clearing(k)) >= 1
  }

  lemma StepDoomed(y: System, a: Action, k: Identity)
    requires Enabled(y, a) && WellFormed(y) && !a.Crash? && Sole(y, k) && !IsThreshold(k) && Doomed(y, k)
    requires Issued(Step(y, a).state, HasKey(k)) == Issued(y.state, HasKey(k))
    ensures Doomed(Step(y, a), k)
    ensures Replacements(Step(y, a).state, HasKey(k)) == Replacements(y.state, HasKey(k))
  {
    hide Count, Find, Dispatch, FinishClear;
    StepBalance(y, a, HasKey(k));
    match a
    case Arrive(m) => CountSnoc(y.tasks, Pending(m), Clearing(k));
    case Schedule(i) =>
      var t, o := y.tasks[i], Dispatch(y.state, y.tasks[i]);
      ReplacedIsReissued(y.state, t, k);
      DispatchEntries(y.state, t, k);
      CountRemove(y.tasks, i, Clearing(k));
      if o.next.Some? { CountSnoc(Remove(y.tasks, i), o.next.value, Clearing(k)); }
    case Expire(n, idx) =>
      ExpireEntries(y, n, idx, k);
      if Expired(y.state.definitions, y.state.clock, n) {
        var m := ExpiryMessage(y.state, n);
        if y.state.definitions[m.SpecificProblem()].clearDelay <= 0 {
          ClearLedger(y.state, m, idx, k);
        } else {
          CountSnoc(y.tasks, ClearWaiting(m), Clearing(k));
        }
      }
    case _ =>
  }

  lemma {:induction false} RunDoomed(y: System, run: seq<Action>, k: Identity)
    requires Possible(y, run) && NoCrash(run) && WellFormed(y) && Sole(y, k) && !IsThreshold(k) && Doomed(y, k)
    requires Issued(After(y, run).state, HasKey(k)) == Issued(y.state, HasKey(k))
    ensures Doomed(After(y, run), k)
    ensures Replacements(After(y, run).state, HasKey(k)) == Replacements(y.state, HasKey(k))
    decreases |run|
  {
    hide Count, Step, Enabled, Sole, Doomed, Issued, Replacements, Pipeline, Stock, Stray, Phantom, Strays, Phantoms;
    if run != [] {
      StepBalance(y, run[0], HasKey(k));
      RunBalance(Step(y, run[0]), run[1..], HasKey(k));
      StepDoomed(y, run[0], k);
      StepSole(y, run[0], k);
      RunDoomed(Step(y, run[0]), run[1..], k);
    }
  }

  /**
   However many delayed clears of one active alarm overlap, and whatever else
   happens meanwhile: if no raise of it is accepted, then once they have all
   run the alarm is gone, and there is exactly one more CLEAR record of it, but
   for what missing TTL clears took away or made up; exactly one if none missed.
   */
  lemma OverlappingClears(y0: System, before: seq<Action>, y: System, run: seq<Action>, k: Identity)
    requires Started(y0) && Possible(y0, before) && y == After(y0, before)
    requires Possible(y, run) && NoCrash(run) && !IsThreshold(k)
    requires Entries(y.state, k) == 1 && Count(y.tasks, Clearing(k)) >= 1
    requires Issued(After(y, run).state, HasKey(k)) == Issued(y.state, HasKey(k))
    requires Count(After(y, run).tasks, Clearing(k)) == 0
    ensures Entries(After(y, run).state, k) == 0
    ensures Cleared(After(y, run).state, HasKey(k)) + Strays(y, run, HasKey(k))
            == Cleared(y.state, HasKey(k)) + 1 + Phantoms(y, run, HasKey(k))
    ensures Paired(y, run) ==> Cleared(After(y, run).state, HasKey(k)) == Cleared(y.state, HasKey(k)) + 1
  {
    RunSole(y0, before, k);
    RunIds(y0, before, 0);
    hide Count;
    RunDoomed(y, run, k);
    RunBalance(y, run, HasKey(k));
    if Paired(y, run) { PairedNeverDrifts(y, run, HasKey(k)); }
  }
}
