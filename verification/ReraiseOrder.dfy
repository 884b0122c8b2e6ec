/**
 Where a reraise leaves the list when each of its two messages is handled to
 its end: the other entries stay as they are and in order, and the alarm gets
 a fresh id; it is last in the list unless recording the raise makes the
 manager append its own history threshold alarm.
 */
module ReraiseOrder {
  import opened AlarmTypes
  import opened Counting
  import opened AlarmTable
  import opened Protocol
  import opened Uniqueness
  import opened Serial
  import opened LastMessage
  import opened ReraiseOutcome

  /** The entries of all other identities, in order. */
  function Others(active: seq<AlarmNotification>, k: Identity): seq<AlarmNotification> {
    if active == [] then []
    else
      var front, n := Others(active[..|active| - 1], k), active[|active| - 1];
      if n.Key() == k then front else front + [n]
  }

  ghost predicate OnlyThresholds(s: seq<AlarmNotification>) {
    forall n :: n in s ==> IsThreshold(n.Key())
  }

  /** The other entries are the ones there were before, followed only by threshold alarms. */
  ghost predicate Keeps(before: seq<AlarmNotification>, after: seq<AlarmNotification>, k: Identity) {
    && Others(before, k) <= Others(after, k)
    && OnlyThresholds(Others(after, k)[|Others(before, k)|..])
  }

  lemma OthersSnoc(active: seq<AlarmNotification>, n: AlarmNotification, k: Identity)
    ensures Others(active + [n], k) == if n.Key() == k then Others(active, k) else Others(active, k) + [n]
  {
    assert (active + [n])[..|active|] == active;
  }

  lemma {:induction false} OthersAppend(s: seq<AlarmNotification>, t: seq<AlarmNotification>, k: Identity)
    ensures Others(s + t, k) == Others(s, k) + Others(t, k)
  {
    if t == [] {
      assert s + t == s;
    } else {
      var front, n := t[..|t| - 1], t[|t| - 1];
      assert s + t == (s + front) + [n];
      OthersSnoc(s + front, n, k);
      OthersAppend(s, front, k);
    }
  }

  lemma OthersSplit(active: seq<AlarmNotification>, idx: nat, k: Identity)
    requires idx < |active| && active[idx].Key() == k
    ensures Others(active, k) == Others(active[..idx], k) + Others(active[idx + 1..], k)
  {
    assert active == (active[..idx] + [active[idx]]) + active[idx + 1..];
    OthersAppend(active[..idx] + [active[idx]], active[idx + 1..], k);
    OthersSnoc(active[..idx], active[idx], k);
  }

  lemma OthersRemove(active: seq<AlarmNotification>, idx: nat, k: Identity)
    requires idx < |active| && active[idx].Key() == k
    ensures Others(Remove(active, idx), k) == Others(active, k)
  {
    OthersSplit(active, idx, k);
    OthersAppend(active[..idx], active[idx + 1..], k);
  }

  lemma OthersUpdate(active: seq<AlarmNotification>, idx: nat, n: AlarmNotification, k: Identity)
    requires idx < |active| && active[idx].Key() == k && n.Key() == k
    ensures Others(active[idx := n], k) == Others(active, k)
  {
    OthersSplit(active, idx, k);
    OthersSplit(active[idx := n], idx, k);
    assert active[idx := n][..idx] == active[..idx] && active[idx := n][idx + 1..] == active[idx + 1..];
  }

  lemma KeepsSame(before: seq<AlarmNotification>, after: seq<AlarmNotification>, k: Identity)
    requires Others(after, k) == Others(before, k)
    ensures Keeps(before, after, k)
  {
  }

  lemma KeepsTransitive(a: seq<AlarmNotification>, b: seq<AlarmNotification>, c: seq<AlarmNotification>, k: Identity)
    requires Keeps(a, b, k) && Keeps(b, c, k)
    ensures Keeps(a, c, k)
  {
    var x, y, z := Others(a, k), Others(b, k), Others(c, k);
    forall n | n in z[|x|..] ensures IsThreshold(n.Key()) {
      var i :| |x| <= i < |z| && z[i] == n;
      if i < |y| { assert n == y[|x|..][i - |x|]; } else { assert n == z[|y|..][i - |y|]; }
    }
  }

  lemma KeepsThreshold(active: seq<AlarmNotification>, n: AlarmNotification, k: Identity)
    requires IsThreshold(n.Key()) || n.Key() == k
    ensures Keeps(active, active + [n], k)
  {
    OthersSnoc(active, n, k);
  }

  lemma WarnKeeps(s: State, k: Identity)
    ensures ActiveThresholdReady(s) ==> Keeps(s.active, WarnActive(s).active, k)
    ensures HistoryThresholdReady(s) ==>
              Keeps(s.active, WarnHistory(s).active, k) && Keeps(s.active, WarnHistoryOnClear(s).active, k)
  {
    hide Others;
    KeepsSame(s.active, s.active, k);
    if ActiveLimitHit(s) && ActiveThresholdReady(s) {
      KeepsThreshold(s.active, ThresholdAlarm(s, ACTIVE_ALARM_EXCEED_MAX_THRESHOLD, "active"), k);
    }
    if HistoryLimitHit(s) && HistoryThresholdReady(s) {
      KeepsThreshold(s.active, ThresholdAlarm(s, ALARM_HISTORY_EXCEED_MAX_THRESHOLD, "history"), k);
    }
  }

  lemma AcceptKeeps(s: State, m: AlarmNotification)
    requires m.SpecificProblem() in s.definitions && ActiveThresholdReady(s)
    ensures Keeps(s.active, Accept(s, m).state.active, m.Key())
  {
    var n := AcceptedAlarm(s, m);
    var w := WarnActive(Allocate(s, n));
    WarnKeeps(Allocate(s, n), m.Key());
    KeepsThreshold(w.active, n, m.Key());
    KeepsTransitive(s.active, w.active, w.active + [n], m.Key());
  }

  lemma VacateKeeps(s: State, m: AlarmNotification)
    ensures Keeps(s.active, Vacated(s, m).active, m.Key())
  {
    hide Others, Remove, Find;
    var idx := Find(s.active, m.Key());
    if idx >= 0 { OthersRemove(s.active, idx, m.Key()); }
    KeepsSame(s.active, Vacated(s, m).active, m.Key());
  }

  lemma ClearKeeps(s: State, m: AlarmNotification, idx: nat)
    requires idx < |s.active| && m.SpecificProblem() in s.definitions
    requires HistoryThresholdReady(MoveToHistory(s, m, idx)) && s.active[idx].Key() == m.Key()
    ensures Keeps(s.active, FinishClear(s, m, idx).active, m.Key())
  {
    hide Others, Remove, Keeps;
    var s1 := MoveToHistory(s, m, idx);
    OthersRemove(s.active, idx, m.Key());
    KeepsSame(s.active, s1.active, m.Key());
    WarnKeeps(s1, m.Key());
    KeepsTransitive(s.active, s1.active, WarnHistoryOnClear(s1).active, m.Key());
  }

  lemma DispatchKeeps(s: State, t: Task)
    requires Safe(s, t)
    ensures Keeps(s.active, Dispatch(s, t).state.active, t.m.Key())
  {
    hide Others, Keeps, Find, Suppressed, Accept, FinishClear, WarnHistory;
    var m, idx := t.m, Find(s.active, t.m.Key());
    KeepsSame(s.active, s.active, m.Key());
    match t
    case Pending(_) =>
      if m.SpecificProblem() in s.definitions {
        if m.message.action.Raise? && !Suppressed(s, m) {
          VacateKeeps(s, m);
          AcceptKeeps(Vacated(s, m), m);
          KeepsTransitive(s.active, Vacated(s, m).active, Accept(Vacated(s, m), m).state.active, m.Key());
        } else if m.message.action.Clear? && idx >= 0 && s.definitions[m.SpecificProblem()].clearDelay <= 0 {
          ClearKeeps(s, m, idx);
        }
      }
    case RaiseWaiting(_) =>
      if idx >= 0 {
        OthersUpdate(s.active, idx, s.active[idx].WithRaiseDelay(0), m.Key());
        KeepsSame(s.active, Unhide(s, idx).active, m.Key());
      }
    case RaisePublishing(_) => WarnKeeps(s, m.Key());
    case ClearWaiting(_) => if idx >= 0 { ClearKeeps(s, m, idx); }
  }

  lemma {:induction false} CompleteKeeps(s: State, t: Task, k: Identity)
    requires Ready(s, t) && t.m.Key() == k
    ensures Keeps(s.active, Complete(s, t).active, k)
    decreases Rank(t)
  {
    hide Others, Keeps, Safe, Dispatch;
    var o := Dispatch(s, t);
    DispatchKeeps(s, t);
    RankFalls(s, t);
    if o.next.Some? {
      NextKeepsKey(s, t);
      CompleteKeeps(o.state, o.next.value, k);
      KeepsTransitive(s.active, o.state.active, Complete(s, t).active, k);
    }
  }

  // ---- the place of the fresh entry

  /**
   The raise of k will make the manager append its history threshold alarm; it
   can be read off the lengths, limits and latches before the reraise.
   */
  predicate ReraiseWarns(s: State, k: Identity) {
    var found := Find(s.active, k) >= 0;
    var records, entries := |s.history| + (if found then 1 else 0), |s.active| - (if found then 1 else 0);
    var activeOn := s.activeExceeded && !(found && k.sp == ACTIVE_ALARM_EXCEED_MAX_THRESHOLD);
    var historyOn := s.historyExceeded && !(found && k.sp == ALARM_HISTORY_EXCEED_MAX_THRESHOLD);
    var warned := entries >= s.maxActive && !activeOn;
    !historyOn && records + (if warned then 1 else 0) >= s.maxHistory
  }

  lemma AbsentWarns(s: State, m: AlarmNotification)
    requires m.SpecificProblem() in s.definitions && ActiveThresholdReady(s) && Find(s.active, m.Key()) < 0
    ensures HistoryLimitHit(Accept(s, m).state) == ReraiseWarns(s, m.Key())
  {
    hide Find;
  }

  lemma ClearedWarns(s: State, c: AlarmNotification, idx: nat)
    requires idx < |s.active| && c.SpecificProblem() in s.definitions && idx == Find(s.active, c.Key())
    requires HistoryThresholdReady(MoveToHistory(s, c, idx))
    requires Find(FinishClear(s, c, idx).active, c.Key()) < 0
    ensures ReraiseWarns(FinishClear(s, c, idx), c.Key()) == ReraiseWarns(s, c.Key())
  {
    hide Find;
  }

  lemma CompleteClear(s: State, c: AlarmNotification)
    requires Ready(s, Pending(c)) && c.message.action.Clear? && c.SpecificProblem() in s.definitions
    requires !IsThreshold(c.Key()) && Entries(s, c.Key()) <= 1
    ensures var r := Complete(s, Pending(c));
            && Entries(r, c.Key()) == 0 && Find(r.active, c.Key()) < 0
            && ReraiseWarns(r, c.Key()) == ReraiseWarns(s, c.Key())
            && r.uniqueAlarmId >= s.uniqueAlarmId && c.SpecificProblem() in r.definitions
  {
    var k := c.Key();
    CompleteKnows(s, Pending(c), c.SpecificProblem());
    hide IsThreshold, Find, Count, Entries, FinishClear, ReraiseWarns;
    var idx, r := Find(s.active, k), Complete(s, Pending(c));
    FindCounts(s.active, k);
    FindCounts(r.active, k);
    EntriesCount(s, k);
    EntriesCount(r, k);
    DispatchEntries(s, Pending(c), k);
    if idx >= 0 {
      if s.definitions[k.sp].clearDelay > 0 { DispatchEntries(s, ClearWaiting(c), k); }
      assert r == FinishClear(s, c, idx);
      ClearedWarns(s, c, idx);
      ClearIds(s, c, idx);
    }
  }

  lemma EntriesCount(s: State, k: Identity)
    ensures Entries(s, k) == Count(s.active, Entry(HasKey(k)))
  {
  }

  lemma ClearIds(s: State, m: AlarmNotification, idx: nat)
    requires idx < |s.active| && m.SpecificProblem() in s.definitions
    requires HistoryThresholdReady(MoveToHistory(s, m, idx))
    ensures FinishClear(s, m, idx).uniqueAlarmId >= s.uniqueAlarmId
  {
  }

  /** A raise whose entry is last runs to its end: the entry stays where it is, and one threshold alarm may follow. */
  lemma FlightPlaces(s: State, t: Task, front: seq<AlarmNotification>, n: AlarmNotification)
    requires Ready(s, t) && RaiseInFlight(t)
    requires s.active == front + [n] && t.m.Key() == n.Key() && Find(front, n.Key()) < 0
    ensures var after := Complete(s, t).active;
            && |after| == |front| + 1 + (if HistoryLimitHit(s) then 1 else 0)
            && after[..|front|] == front && after[|front|].Tag() == n.Tag()
    decreases Rank(t)
  {
    hide Find;
    if t.RaiseWaiting? {
      FirstMatch(s.active, n.Key(), |front|);
      var woken := n.WithRaiseDelay(0);
      assert Unhide(s, |front|).active == front + [woken];
      FlightPlaces(Unhide(s, |front|), RaisePublishing(t.m), front, woken);
    }
  }

  /**
   A serial reraise, whatever the delays: exactly one entry of the alarm, under
   a fresh id; every other entry as it was and in the same order, with at most
   threshold alarms added; and the alarm is last if and only if recording the
   raise does not run into the history limit.
   */
  lemma ReraiseRestores(s: State, a: Alarm, t1: int, t2: int)
    requires var k := IdentityOf(a); !IsThreshold(k) && Entries(s, k) <= 1 && k.sp in s.definitions
    requires Ready(s, Pending(Message(a, Clear, t1)))
    requires Ready(Complete(s, Pending(Message(a, Clear, t1))), Pending(Message(a, Raise, t2)))
    ensures var k := IdentityOf(a);
            var end := Complete(Complete(s, Pending(Message(a, Clear, t1))), Pending(Message(a, Raise, t2)));
            var i := Find(end.active, k);
            && Entries(end, k) == 1 && i >= 0 && end.active[i].Id() > s.uniqueAlarmId
            && Keeps(s.active, end.active, k)
            && (i == |end.active| - 1 <==> !ReraiseWarns(s, k))
  {
    var k, c, r := IdentityOf(a), Message(a, Clear, t1), Message(a, Raise, t2);
    assert c.Key() == k && r.Key() == k;
    var s1 := Complete(s, Pending(c));
    var end := Complete(s1, Pending(r));
    CompleteClear(s, c);
    CompleteKeeps(s, Pending(c), k);
    CompleteKeeps(s1, Pending(r), k);
    KeepsTransitive(s.active, s1.active, end.active, k);
    FreshPlace(s1, r);
  }

  lemma FreshPlace(s: State, r: AlarmNotification)
    requires !IsThreshold(r.Key()) && Entries(s, r.Key()) == 0 && Find(s.active, r.Key()) < 0
    requires r.SpecificProblem() in s.definitions && r.message.action.Raise? && Ready(s, Pending(r))
    ensures var end := Complete(s, Pending(r));
            var i := Find(end.active, r.Key());
            && Entries(end, r.Key()) == 1 && i >= 0 && end.active[i].Id() > s.uniqueAlarmId
            && (i == |end.active| - 1 <==> !ReraiseWarns(s, r.Key()))
  {
    var k := r.Key();
    RaiseUnfolds(s, r);
    AbsentWarns(s, r);
    AcceptEntries(s, r, k);
    AcceptedFlies(s, r);
    var o, n := Accept(s, r), AcceptedAlarm(s, r);
    var w := WarnActive(Allocate(s, n));
    WarnEntries(Allocate(s, n), k);
    FindCounts(w.active, k);
    FlightPlaces(o.state, o.next.value, w.active, n);
    var end := Complete(o.state, o.next.value);
    FlightEntries(o.state, o.next.value, k);
    PrefixMisses(w.active, end.active, k);
    FirstMatch(end.active, k, |w.active|);
  }

  lemma PrefixMisses(front: seq<AlarmNotification>, active: seq<AlarmNotification>, k: Identity)
    requires front <= active && Find(front, k) < 0
    ensures forall j :: 0 <= j < |front| ==> active[j].Key() != k
  {
    hide Find;
  }

  lemma FlightEntries(s: State, t: Task, k: Identity)
    requires Ready(s, t) && RaiseInFlight(t) && !IsThreshold(k) && Entries(s, k) <= 1
    ensures Entries(Complete(s, t), k) == Entries(s, k)
    decreases Rank(t)
  {
    hide Find, Count, Entries, Dispatch, Safe, IsThreshold;
    DispatchEntries(s, t, k);
    RankFalls(s, t);
    var o := Dispatch(s, t);
    if o.next.Some? {
      FlightNext(s, t);
      FlightEntries(o.state, o.next.value, k);
    }
  }

  lemma FlightNext(s: State, t: Task)
    requires Safe(s, t) && RaiseInFlight(t)
    ensures var o := Dispatch(s, t); o.next.Some? ==> RaiseInFlight(o.next.value)
  {
    hide Find;
  }
}
