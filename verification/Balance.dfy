/**
 Conservation of alarms. Every raise, of any identity and any id, is counted
 on both sides of two equations that hold after every run:

   issued + phantoms == active + cleared + replaced + strays
   issued == in flight + recorded as RAISE + dropped

 where issued counts the accepted raises and the manager's own threshold
 alarms. A TTL clear that misses takes one entry out and writes the CLEAR
 record of another identity: a stray and a phantom. Both equations hold for
 every predicate on (identity, id) at once, which gives the per-identity laws
 and the uniqueness of ids as instances.
 */
module Balance {
  import opened AlarmTypes
  import opened Counting
  import opened AlarmTable
  import opened Protocol

  ghost function Issued(s: State, q: AlarmTag -> bool): nat { Count(s.ledger, Issue(q)) }

  ghost function Active(s: State, q: AlarmTag -> bool): nat { Count(s.active, Entry(q)) }

  ghost function Cleared(s: State, q: AlarmTag -> bool): nat { Count(s.history, ClearRecord(q)) }

  ghost function Raised(s: State, q: AlarmTag -> bool): nat { Count(s.history, RaiseRecord(q)) }

  ghost function Replacements(s: State, q: AlarmTag -> bool): nat { Count(s.ledger, Replacement(q)) }

  ghost function Losses(s: State, q: AlarmTag -> bool): nat { Count(s.ledger, Loss(q)) }

  ghost function InFlight(tasks: seq<Task>, q: AlarmTag -> bool): nat { Count(tasks, Flying(q)) }

  /** Issued minus everything an entry of the active list can have become. */
  ghost function Stock(s: State, q: AlarmTag -> bool): int {
    Issued(s, q) - Active(s, q) - Cleared(s, q) - Replacements(s, q)
  }

  /** Issued minus every end a raise can have come to. */
  ghost function Flow(s: State, q: AlarmTag -> bool): int {
    Issued(s, q) - Raised(s, q) - Losses(s, q)
  }

  ghost function One(b: bool): nat { if b then 1 else 0 }

  // ---- what the list operations do to the counts

  lemma LogEvent(s: State, e: Event, q: AlarmTag -> bool)
    ensures var t := s.(ledger := s.ledger + [e]);
            && Issued(t, q) == Issued(s, q) + One(Issue(q)(e))
            && Replacements(t, q) == Replacements(s, q) + One(Replacement(q)(e))
            && Losses(t, q) == Losses(s, q) + One(Loss(q)(e))
  {
    CountSnoc(s.ledger, e, Issue(q));
    CountSnoc(s.ledger, e, Replacement(q));
    CountSnoc(s.ledger, e, Loss(q));
  }

  lemma RecordHistory(s: State, n: AlarmNotification, q: AlarmTag -> bool)
    ensures var t := s.(history := s.history + [n]);
            && Raised(t, q) == Raised(s, q) + One(n.message.action.Raise? && q(n.Tag()))
            && Cleared(t, q) == Cleared(s, q) + One(n.message.action.Clear? && q(n.Tag()))
  {
    CountSnoc(s.history, n, RaiseRecord(q));
    CountSnoc(s.history, n, ClearRecord(q));
  }

  /** Nothing that was counted is forgotten. */
  ghost predicate Grows(s: State, t: State, q: AlarmTag -> bool) {
    && Replacements(s, q) <= Replacements(t, q)
    && Losses(s, q) <= Losses(t, q)
    && Issued(s, q) <= Issued(t, q)
    && Cleared(s, q) <= Cleared(t, q)
  }

  /** No alarm of q is created, lost or moved between the two states without being counted. */
  ghost predicate Steady(s: State, t: State, q: AlarmTag -> bool) {
    Stock(t, q) == Stock(s, q) && Grows(s, t, q)
  }

  lemma EntryLeaves(active: seq<AlarmNotification>, idx: nat, q: AlarmTag -> bool)
    requires idx < |active|
    ensures Count(Remove(active, idx), Entry(q)) == Count(active, Entry(q)) - One(q(active[idx].Tag()))
  {
    CountRemove(active, idx, Entry(q));
  }

  lemma EntryRetagged(active: seq<AlarmNotification>, idx: nat, n: AlarmNotification, q: AlarmTag -> bool)
    requires idx < |active| && n.Tag() == active[idx].Tag()
    ensures Count(active[idx := n], Entry(q)) == Count(active, Entry(q))
  {
    CountUpdate(active, idx, n, Entry(q));
    assert Entry(q)(n) == Entry(q)(active[idx]);
  }

  lemma GenerateBalance(s: State, sp: int, data: string, onClear: bool, q: AlarmTag -> bool)
    requires sp in s.definitions
    ensures var t := GenerateThresholdAlarm(s, sp, data, onClear);
            && Steady(s, t, q) && Flow(t, q) == Flow(s, q)
            && Issued(t, q) == Issued(s, q) + One(q(ThresholdAlarm(s, sp, data).Tag()))
            && Replacements(t, q) == Replacements(s, q)
  {
    hide Count;
    var n := ThresholdAlarm(s, sp, data);
    LogEvent(s, Generated(n.Tag(), onClear), q);
    RecordHistory(s, n, q);
    CountSnoc(s.active, n, Entry(q));
  }

  lemma ResetBalance(s: State, sp: int, q: AlarmTag -> bool)
    ensures var t := ResetLatches(s, sp);
            && Steady(s, t, q) && Flow(t, q) == Flow(s, q)
            && Issued(t, q) == Issued(s, q) && Replacements(t, q) == Replacements(s, q)
  {
    hide Count;
    LogEvent(s, LatchReset(sp), q);
  }

  lemma WarnBalance(s: State, q: AlarmTag -> bool)
    ensures ActiveThresholdReady(s) ==> Steady(s, WarnActive(s), q) && Flow(WarnActive(s), q) == Flow(s, q)
    ensures HistoryThresholdReady(s) ==> Steady(s, WarnHistory(s), q) && Flow(WarnHistory(s), q) == Flow(s, q)
    ensures HistoryThresholdReady(s) ==>
              Steady(s, WarnHistoryOnClear(s), q) && Flow(WarnHistoryOnClear(s), q) == Flow(s, q)
  {
    hide Count;
    if ActiveLimitHit(s) && ActiveThresholdReady(s) {
      GenerateBalance(s, ACTIVE_ALARM_EXCEED_MAX_THRESHOLD, "active", false, q);
    }
    if HistoryLimitHit(s) && HistoryThresholdReady(s) {
      GenerateBalance(s, ALARM_HISTORY_EXCEED_MAX_THRESHOLD, "history", false, q);
      GenerateBalance(s, ALARM_HISTORY_EXCEED_MAX_THRESHOLD, "history", true, q);
    }
  }

  lemma AcceptBalance(s: State, m: AlarmNotification, q: AlarmTag -> bool)
    requires m.SpecificProblem() in s.definitions && ActiveThresholdReady(s)
    ensures var o := Accept(s, m);
            && Steady(s, o.state, q)
            && Flow(o.state, q) == Flow(s, q) + One(q(AcceptedAlarm(s, m).Tag()))
  {
    hide Count;
    var n := AcceptedAlarm(s, m);
    var s1 := Allocate(s, n);
    LogEvent(s, Accepted(n.Tag()), q);
    WarnBalance(s1, q);
    CountSnoc(WarnActive(s1).active, n, Entry(q));
  }

  lemma ReplaceBalance(s: State, idx: nat, q: AlarmTag -> bool)
    requires idx < |s.active|
    ensures Steady(s, DropReplaced(s, idx), q) && Flow(DropReplaced(s, idx), q) == Flow(s, q)
  {
    hide Count;
    EntryLeaves(s.active, idx, q);
    LogEvent(s, Replaced(s.active[idx].Tag()), q);
  }

  lemma UnhideBalance(s: State, idx: nat, q: AlarmTag -> bool)
    requires idx < |s.active|
    ensures Steady(s, Unhide(s, idx), q) && Flow(Unhide(s, idx), q) == Flow(s, q)
  {
    hide Count;
    EntryRetagged(s.active, idx, s.active[idx].WithRaiseDelay(0), q);
  }

  lemma PublishBalance(s: State, m: AlarmNotification, q: AlarmTag -> bool)
    requires HistoryThresholdReady(s) && m.message.action.Raise?
    ensures Steady(s, Publish(s, m), q)
    ensures Flow(Publish(s, m), q) == Flow(s, q) - One(q(m.Tag()))
  {
    hide Count;
    WarnBalance(s, q);
    RecordHistory(WarnHistory(s), m.WithRaiseDelay(0), q);
  }

  /** What a clear of m at idx takes from the list without recording it, and records without taking it. */
  ghost function Skew(s: State, m: AlarmNotification, idx: nat, q: AlarmTag -> bool): int
    requires idx < |s.active|
  {
    One(q(s.active[idx].Tag())) - One(q(AlarmTag(m.Key(), s.active[idx].Id())))
  }

  /** The record takes its identity from the message and its id from the entry. */
  lemma MoveBalance(s: State, m: AlarmNotification, idx: nat, q: AlarmTag -> bool)
    requires idx < |s.active| && m.SpecificProblem() in s.definitions && m.message.action.Clear?
    ensures var t := MoveToHistory(s, m, idx);
            Grows(s, t, q) && Stock(t, q) == Stock(s, q) + Skew(s, m, idx, q) && Flow(t, q) == Flow(s, q)
  {
    hide Count;
    var n := UpdateAlarmFields(s.definitions, s.active[idx].Id(), m);
    assert n.Tag() == AlarmTag(m.Key(), s.active[idx].Id());
    RecordHistory(s, n, q);
    EntryLeaves(s.active, idx, q);
  }

  lemma ClearBalance(s: State, m: AlarmNotification, idx: nat, q: AlarmTag -> bool)
    requires idx < |s.active| && m.SpecificProblem() in s.definitions
    requires HistoryThresholdReady(MoveToHistory(s, m, idx)) && m.message.action.Clear?
    ensures var t := FinishClear(s, m, idx);
            Grows(s, t, q) && Stock(t, q) == Stock(s, q) + Skew(s, m, idx, q) && Flow(t, q) == Flow(s, q)
    ensures s.active[idx].Key() == m.Key() ==> Skew(s, m, idx, q) == 0
  {
    hide Count;
    var s1 := MoveToHistory(s, m, idx);
    MoveBalance(s, m, idx, q);
    WarnBalance(s1, q);
    ResetBalance(WarnHistoryOnClear(s1), m.SpecificProblem(), q);
  }

  lemma LossBalance(s: State, m: AlarmNotification, q: AlarmTag -> bool)
    ensures var t := s.(ledger := s.ledger + [Dropped(m.Tag())]);
            Steady(s, t, q) && Flow(t, q) == Flow(s, q) - One(q(m.Tag()))
  {
    hide Count;
    LogEvent(s, Dropped(m.Tag()), q);
  }

  ghost function NextFlying(next: Option<Task>, q: AlarmTag -> bool): nat {
    match next
    case None => 0
    case Some(t) => One(RaiseInFlight(t) && q(t.m.Tag()))
  }

  /** What a section must leave behind: every alarm of q accounted for, and a well-formed continuation. */
  ghost predicate Accounted(s: State, t: Task, o: Outcome, q: AlarmTag -> bool) {
    && Steady(s, o.state, q)
    && Flow(o.state, q) - NextFlying(o.next, q) == Flow(s, q) - NextFlying(Some(t), q)
    && (o.next.Some? ==> Formed(o.next.value))
  }

  lemma VacateBalance(s: State, m: AlarmNotification, q: AlarmTag -> bool)
    ensures Steady(s, Vacated(s, m), q) && Flow(Vacated(s, m), q) == Flow(s, q)
  {
    hide Count, Stock, Flow, Find, DropReplaced;
    var idx := Find(s.active, m.Key());
    if idx >= 0 {
      ReplaceBalance(s, idx, q);
    } else {
      assert Steady(s, s, q);
    }
  }

  /** An accepted raise, the replacement included. */
  lemma RaiseBalance(s: State, m: AlarmNotification, q: AlarmTag -> bool)
    requires m.SpecificProblem() in s.definitions && m.message.action.Raise? && ActiveThresholdReady(Vacated(s, m))
    requires m.SpecificProblem() in Vacated(s, m).definitions
    ensures Accounted(s, Pending(m), Accept(Vacated(s, m), m), q)
  {
    var v := Vacated(s, m);
    hide Count, Stock, Flow, Issued, Replacements, Losses, Cleared, Find, Vacated, UpdateActiveAlarmList, Allocate;
    VacateBalance(s, m, q);
    AcceptBalance(v, m, q);
    var n := AcceptedAlarm(v, m);
    assert RaiseInFlight(Accept(v, m).next.value) && Accept(v, m).next.value.m == n;
  }

  lemma PendingBalance(s: State, m: AlarmNotification, q: AlarmTag -> bool)
    requires Safe(s, Pending(m))
    ensures Accounted(s, Pending(m), Dispatch(s, Pending(m)), q)
  {
    hide Count, Stock, Flow, Issued, Replacements, Losses, Cleared, Find, FinishClear, Suppressed, Accept;
    var idx := Find(s.active, m.Key());
    if m.SpecificProblem() in s.definitions {
      if m.message.action.Raise? && !Suppressed(s, m) {
        RaiseBalance(s, m, q);
      } else if m.message.action.Clear? && idx >= 0 && s.definitions[m.SpecificProblem()].clearDelay <= 0 {
        ClearBalance(s, m, idx, q);
      }
    }
  }

  lemma DispatchBalance(s: State, t: Task, q: AlarmTag -> bool)
    requires Safe(s, t) && Formed(t)
    ensures Accounted(s, t, Dispatch(s, t), q)
  {
    hide Count, Stock, Flow, Issued, Replacements, Losses, Cleared, Find, FinishClear, Publish, Unhide;
    var m, idx := t.m, Find(s.active, t.m.Key());
    match t
    case Pending(_) => PendingBalance(s, m, q);
    case RaiseWaiting(_) => if idx < 0 { LossBalance(s, m, q); } else { UnhideBalance(s, idx, q); }
    case RaisePublishing(_) => PublishBalance(s, m, q);
    case ClearWaiting(_) => if idx >= 0 { ClearBalance(s, m, idx, q); }
  }

  // ---- every id is issued exactly once

  /** Between s and t exactly the ids above s's counter, up to t's, were issued, each once. */
  ghost predicate Fresh(s: State, t: State, id: int) {
    && s.uniqueAlarmId <= t.uniqueAlarmId
    && Issued(t, HasId(id)) == Issued(s, HasId(id)) + One(s.uniqueAlarmId < id <= t.uniqueAlarmId)
  }

  lemma WarnFresh(s: State, id: int)
    ensures ActiveThresholdReady(s) ==> Fresh(s, WarnActive(s), id)
    ensures HistoryThresholdReady(s) ==> Fresh(s, WarnHistory(s), id) && Fresh(s, WarnHistoryOnClear(s), id)
  {
    hide Count;
    if ActiveLimitHit(s) && ActiveThresholdReady(s) {
      GenerateBalance(s, ACTIVE_ALARM_EXCEED_MAX_THRESHOLD, "active", false, HasId(id));
    }
    if HistoryLimitHit(s) && HistoryThresholdReady(s) {
      GenerateBalance(s, ALARM_HISTORY_EXCEED_MAX_THRESHOLD, "history", false, HasId(id));
      GenerateBalance(s, ALARM_HISTORY_EXCEED_MAX_THRESHOLD, "history", true, HasId(id));
    }
  }

  lemma AcceptFresh(s: State, m: AlarmNotification, id: int)
    requires m.SpecificProblem() in s.definitions && ActiveThresholdReady(s)
    ensures Fresh(s, Accept(s, m).state, id)
  {
    hide Count;
    var n := AcceptedAlarm(s, m);
    LogEvent(s, Accepted(n.Tag()), HasId(id));
    WarnFresh(Allocate(s, n), id);
  }

  lemma ClearFresh(s: State, m: AlarmNotification, idx: nat, id: int)
    requires idx < |s.active| && m.SpecificProblem() in s.definitions
    requires HistoryThresholdReady(MoveToHistory(s, m, idx))
    ensures Fresh(s, FinishClear(s, m, idx), id)
  {
    hide Count;
    var s1 := MoveToHistory(s, m, idx);
    WarnFresh(s1, id);
    ResetBalance(WarnHistoryOnClear(s1), m.SpecificProblem(), HasId(id));
  }

  lemma DispatchFresh(s: State, t: Task, id: int)
    requires Safe(s, t)
    ensures Fresh(s, Dispatch(s, t).state, id)
  {
    hide Count, Find, FinishClear;
    var m, idx := t.m, Find(s.active, t.m.Key());
    match t
    case Pending(_) =>
      if m.SpecificProblem() in s.definitions {
        if m.message.action.Raise? && !Suppressed(s, m) {
          if idx >= 0 { LogEvent(s, Replaced(s.active[idx].Tag()), HasId(id)); }
          AcceptFresh(Vacated(s, m), m, id);
        } else if m.message.action.Clear? && idx >= 0 && s.definitions[m.SpecificProblem()].clearDelay <= 0 {
          ClearFresh(s, m, idx, id);
        }
      }
    case RaiseWaiting(_) => LogEvent(s, Dropped(m.Tag()), HasId(id));
    case RaisePublishing(_) => WarnFresh(s, id);
    case ClearWaiting(_) => if idx >= 0 { ClearFresh(s, m, idx, id); }
  }

  // ---- steps of the system

  ghost predicate WellFormed(y: System) {
    forall t :: t in y.tasks ==> Formed(t)
  }

  /** Zero exactly when no raise of q has gone missing between the log, the history and the goroutines. */
  ghost function Pipeline(y: System, q: AlarmTag -> bool): int {
    Flow(y.state, q) - InFlight(y.tasks, q)
  }

  lemma ContinueCounts(tasks: seq<Task>, next: Option<Task>, q: AlarmTag -> bool)
    ensures InFlight(Continue(tasks, next), q) == InFlight(tasks, q) + NextFlying(next, q)
  {
    if next.Some? { CountSnoc(tasks, next.value, Flying(q)); }
  }

  lemma RetireCounts(tasks: seq<Task>, i: nat, q: AlarmTag -> bool)
    requires i < |tasks|
    ensures InFlight(Remove(tasks, i), q) == InFlight(tasks, q) - NextFlying(Some(tasks[i]), q)
  {
    CountRemove(tasks, i, Flying(q));
  }

  /** The entry of q a missing TTL clear takes out under the name of another. */
  ghost function Stray(y: System, a: Action, q: AlarmTag -> bool): nat {
    One(Misses(y, a) && q(y.state.active[a.idx].Tag()))
  }

  /** The CLEAR record of q it writes instead. */
  ghost function Phantom(y: System, a: Action, q: AlarmTag -> bool): nat {
    One(Misses(y, a) && q(AlarmTag(a.n.Key(), y.state.active[a.idx].Id())))
  }

  /** What a step keeps: the difference between the sides of the second equation, and of the first but for the drift. */
  ghost predicate Conserved(y: System, z: System, q: AlarmTag -> bool, drift: int) {
    && WellFormed(z) && Grows(y.state, z.state, q)
    && Stock(z.state, q) == Stock(y.state, q) + drift && Pipeline(z, q) == Pipeline(y, q)
  }

  lemma ScheduleBalance(y: System, i: nat, q: AlarmTag -> bool)
    requires Enabled(y, Schedule(i)) && WellFormed(y)
    ensures Conserved(y, Step(y, Schedule(i)), q, 0)
  {
    hide Count, Stock, Flow, Issued, Replacements, Losses, Cleared, Find, Dispatch;
    var o := Dispatch(y.state, y.tasks[i]);
    DispatchBalance(y.state, y.tasks[i], q);
    RetireCounts(y.tasks, i, q);
    ContinueCounts(Remove(y.tasks, i), o.next, q);
    assert forall t :: t in Remove(y.tasks, i) ==> t in y.tasks;
  }

  lemma ExpireBalance(y: System, n: AlarmNotification, idx: nat, q: AlarmTag -> bool)
    requires Enabled(y, Expire(n, idx)) && WellFormed(y)
    ensures Conserved(y, Step(y, Expire(n, idx)), q, Stray(y, Expire(n, idx), q) - Phantom(y, Expire(n, idx), q))
  {
    hide Count, Find, FinishClear;
    if Expired(y.state.definitions, y.state.clock, n) {
      var m := ExpiryMessage(y.state, n);
      ContinueCounts(y.tasks, BeginClear(y.state, m, idx).next, q);
      if y.state.definitions[m.SpecificProblem()].clearDelay <= 0 { ClearBalance(y.state, m, idx, q); }
    }
  }

  lemma StepBalance(y: System, a: Action, q: AlarmTag -> bool)
    requires Enabled(y, a) && WellFormed(y) && !a.Crash?
    ensures Conserved(y, Step(y, a), q, Stray(y, a, q) - Phantom(y, a, q))
  {
    hide Count, Find, Dispatch;
    match a
    case Arrive(m) => ContinueCounts(y.tasks, Some(Pending(m)), q);
    case Schedule(i) => ScheduleBalance(y, i, q);
    case Expire(n, idx) => ExpireBalance(y, n, idx, q);
    case _ =>
  }

  lemma StepFresh(y: System, a: Action, id: int)
    requires Enabled(y, a) && !a.Crash?
    ensures Fresh(y.state, Step(y, a).state, id)
  {
    hide Count;
    match a
    case Schedule(i) => DispatchFresh(y.state, y.tasks[i], id);
    case Expire(n, idx) =>
      if Expired(y.state.definitions, y.state.clock, n) {
        var m := ExpiryMessage(y.state, n);
        if y.state.definitions[m.SpecificProblem()].clearDelay <= 0 { ClearFresh(y.state, m, idx, id); }
      }
    case _ =>
  }

  // ---- whole runs

  ghost function Strays(y: System, run: seq<Action>, q: AlarmTag -> bool): nat
    requires Possible(y, run)
    decreases |run|
  {
    if run == [] then 0 else Stray(y, run[0], q) + Strays(Step(y, run[0]), run[1..], q)
  }

  ghost function Phantoms(y: System, run: seq<Action>, q: AlarmTag -> bool): nat
    requires Possible(y, run)
    decreases |run|
  {
    if run == [] then 0 else Phantom(y, run[0], q) + Phantoms(Step(y, run[0]), run[1..], q)
  }

  /** Both equations, for every run without a restart; NoAlarmLost spells them out. */
  lemma {:induction false} RunBalance(y: System, run: seq<Action>, q: AlarmTag -> bool)
    requires Possible(y, run) && NoCrash(run) && WellFormed(y)
    ensures Conserved(y, After(y, run), q, Strays(y, run, q) - Phantoms(y, run, q))
    decreases |run|
  {
    hide Count, Step, Enabled, Stock, Pipeline, Issued, Replacements, Losses, Cleared, Stray, Phantom;
    if run != [] {
      StepBalance(y, run[0], q);
      RunBalance(Step(y, run[0]), run[1..], q);
    }
  }

  lemma StepKeepsIds(y: System, a: Action, id: int)
    requires Enabled(y, a) && WellFormed(y) && !a.Crash?
    ensures Conserved(y, Step(y, a), HasId(id), 0)
  {
    hide Count, Step, Enabled, Stock, Pipeline;
    StepBalance(y, a, HasId(id));
    assert Stray(y, a, HasId(id)) == Phantom(y, a, HasId(id));
  }

  /** A miss exchanges identities only: whatever the ids, what it takes out is what it records. */
  lemma {:induction false} IdsNeverDrift(y: System, run: seq<Action>, id: int)
    requires Possible(y, run)
    ensures Strays(y, run, HasId(id)) == Phantoms(y, run, HasId(id))
    decreases |run|
  {
    hide Step, Enabled;
    if run != [] { IdsNeverDrift(Step(y, run[0]), run[1..], id); }
  }

  lemma {:induction false} PairedNeverDrifts(y: System, run: seq<Action>, q: AlarmTag -> bool)
    requires Possible(y, run) && Paired(y, run)
    ensures Strays(y, run, q) == 0 && Phantoms(y, run, q) == 0
    decreases |run|
  {
    hide Step, Enabled;
    if run != [] { PairedNeverDrifts(Step(y, run[0]), run[1..], q); }
  }

  /**
   For every run of every interleaving from a fresh start, and every set q of
   (identity, id) pairs: what was issued is active, cleared, replaced or astray,
   and its raise is still in flight, is recorded, or was dropped. Strays and
   phantoms balance for each id, and there are none if no TTL clear missed.
   */
  lemma NoAlarmLost(y0: System, run: seq<Action>, q: AlarmTag -> bool)
    requires Started(y0) && Possible(y0, run) && NoCrash(run)
    ensures var y := After(y0, run);
            && Issued(y.state, q) + Phantoms(y0, run, q)
               == Active(y.state, q) + Cleared(y.state, q) + Replacements(y.state, q) + Strays(y0, run, q)
            && Issued(y.state, q) == InFlight(y.tasks, q) + Raised(y.state, q) + Losses(y.state, q)
    ensures forall id :: q == HasId(id) ==> Strays(y0, run, q) == Phantoms(y0, run, q)
    ensures Paired(y0, run) ==> Strays(y0, run, q) == 0 && Phantoms(y0, run, q) == 0
  {
    RunBalance(y0, run, q);
    forall id | q == HasId(id) ensures Strays(y0, run, q) == Phantoms(y0, run, q) {
      IdsNeverDrift(y0, run, id);
    }
    if Paired(y0, run) { PairedNeverDrifts(y0, run, q); }
  }

  /**
   When the per-identity law survives a step: a TTL clear that takes effect at
   once breaks it if, and only if, the entry at its index has another identity
   than the entry it examined. A ClearDelay makes it safe, because the alarm is
   then found again by its identity.
   */
  lemma BooksClose(y: System, a: Action)
    requires Enabled(y, a) && WellFormed(y) && !a.Crash?
    ensures (forall k :: Stock(Step(y, a).state, HasKey(k)) == Stock(y.state, HasKey(k))) <==> !Misses(y, a)
  {
    hide Count, Stock, Step, Enabled;
    forall k ensures Stock(Step(y, a).state, HasKey(k))
                     == Stock(y.state, HasKey(k)) + Stray(y, a, HasKey(k)) - Phantom(y, a, HasKey(k))
    {
      StepBalance(y, a, HasKey(k));
    }
    if Misses(y, a) {
      var k := a.n.Key();
      assert Stray(y, a, HasKey(k)) == 0 && Phantom(y, a, HasKey(k)) == 1;
    }
  }
}
