/**
 Ids are given out one after the other, to accepted raises and to the
 manager's own warnings; so the id of an alarm tells which of the two it is.
 */
module Numbering {
  import opened AlarmTypes
  import opened Counting
  import opened AlarmTable
  import opened Protocol
  import opened Ids
  import opened Provenance

  predicate GivesId(e: Event) { e.Accepted? || e.Generated? }

  /** The events that gave out an id, in order. */
  function Issued(ledger: seq<Event>): seq<Event> {
    if ledger == [] then []
    else
      var e := ledger[|ledger| - 1];
      Issued(ledger[..|ledger| - 1]) + if GivesId(e) then [e] else []
  }

  /** The ids given out so far are 1, 2, and so on up to the counter. */
  predicate Numbered(s: State) {
    var issued := Issued(s.ledger);
    |issued| == s.uniqueAlarmId && forall i :: 0 <= i < |issued| ==> GivesId(issued[i]) && issued[i].tag.id == i + 1
  }

  lemma IssuedAppended(ledger: seq<Event>, e: Event)
    ensures Issued(ledger + [e]) == Issued(ledger) + if GivesId(e) then [e] else []
  {
    assert (ledger + [e])[..|ledger|] == ledger;
  }

  lemma NumberedOnce(s: State, t: State, e: Event)
    requires Numbered(s) && t.ledger == s.ledger + [e]
    requires if GivesId(e) then e.tag.id == s.uniqueAlarmId + 1 == t.uniqueAlarmId else t.uniqueAlarmId == s.uniqueAlarmId
    ensures Numbered(t)
  {
    IssuedAppended(s.ledger, e);
  }

  lemma NumberedStill(s: State, t: State)
    requires Numbered(s) && t.ledger == s.ledger && t.uniqueAlarmId == s.uniqueAlarmId
    ensures Numbered(t)
  {
  }

  lemma GenerateNumbers(s: State, sp: int, data: string, onClear: bool, t: State)
    requires sp in s.definitions && Numbered(s)
    requires var g := GenerateThresholdAlarm(s, sp, data, onClear); t.ledger == g.ledger && t.uniqueAlarmId == g.uniqueAlarmId
    ensures Numbered(t)
  {
    hide Numbered;
    NumberedOnce(s, t, Generated(ThresholdAlarm(s, sp, data).Tag(), onClear));
  }

  lemma WarnNumbers(s: State)
    requires Numbered(s)
    ensures ActiveThresholdReady(s) ==> Numbered(WarnActive(s))
    ensures HistoryThresholdReady(s) ==> Numbered(WarnHistory(s)) && Numbered(WarnHistoryOnClear(s))
  {
    hide Numbered, GenerateThresholdAlarm;
    if ActiveLimitHit(s) && ActiveThresholdReady(s) {
      GenerateNumbers(s, ACTIVE_ALARM_EXCEED_MAX_THRESHOLD, "active", false, WarnActive(s));
    }
    if HistoryLimitHit(s) && HistoryThresholdReady(s) {
      GenerateNumbers(s, ALARM_HISTORY_EXCEED_MAX_THRESHOLD, "history", false, WarnHistory(s));
      GenerateNumbers(s, ALARM_HISTORY_EXCEED_MAX_THRESHOLD, "history", true, WarnHistoryOnClear(s));
    }
  }

  lemma AcceptNumbers(s: State, m: AlarmNotification)
    requires m.SpecificProblem() in s.definitions && ActiveThresholdReady(s) && Numbered(s)
    ensures Numbered(Accept(s, m).state)
  {
    hide Numbered, WarnActive;
    var n := AcceptedAlarm(s, m);
    NumberedOnce(s, Allocate(s, n), Accepted(n.Tag()));
    WarnNumbers(Allocate(s, n));
    NumberedStill(WarnActive(Allocate(s, n)), Accept(s, m).state);
  }

  lemma ResetNumbers(s: State, sp: int)
    requires Numbered(s)
    ensures Numbered(ResetLatches(s, sp))
  {
    hide Numbered;
    var s1 := if s.activeExceeded && sp == ACTIVE_ALARM_EXCEED_MAX_THRESHOLD
              then s.(activeExceeded := false, ledger := s.ledger + [LatchReset(sp)]) else s;
    if s1 != s { NumberedOnce(s, s1, LatchReset(sp)); }
    if ResetLatches(s, sp) != s1 { NumberedOnce(s1, ResetLatches(s, sp), LatchReset(sp)); }
  }

  lemma ClearNumbers(s: State, m: AlarmNotification, idx: nat)
    requires idx < |s.active| && m.SpecificProblem() in s.definitions && Numbered(s)
    requires HistoryThresholdReady(MoveToHistory(s, m, idx))
    ensures Numbered(FinishClear(s, m, idx))
  {
    hide Numbered, WarnHistoryOnClear, ResetLatches;
    var s1 := MoveToHistory(s, m, idx);
    NumberedStill(s, s1);
    WarnNumbers(s1);
    var s2 := WarnHistoryOnClear(s1);
    ResetNumbers(s2, m.SpecificProblem());
    NumberedStill(ResetLatches(s2, m.SpecificProblem()), FinishClear(s, m, idx));
  }

  lemma DispatchNumbers(s: State, t: Task)
    requires Safe(s, t) && Numbered(s)
    ensures Numbered(Dispatch(s, t).state)
  {
    hide Find, Numbered, Suppressed, Accept, FinishClear, MoveToHistory, WarnHistory, HistoryThresholdReady;
    var m, idx, r := t.m, Find(s.active, t.m.Key()), Dispatch(s, t).state;
    match t
    case Pending(_) =>
      if m.SpecificProblem() in s.definitions {
        if m.message.action.Raise? && !Suppressed(s, m) {
          if idx >= 0 { NumberedOnce(s, Vacated(s, m), Replaced(s.active[idx].Tag())); }
          VacatedDefinitions(s, m);
          AcceptNumbers(Vacated(s, m), m);
        } else if m.message.action.Clear? && idx >= 0 && s.definitions[m.SpecificProblem()].clearDelay <= 0 {
          ClearNumbers(s, m, idx);
        }
      }
    case RaiseWaiting(_) =>
      if idx < 0 { NumberedOnce(s, r, Dropped(m.Tag())); } else { NumberedStill(s, r); }
    case RaisePublishing(_) =>
      WarnNumbers(s);
      NumberedStill(WarnHistory(s), r);
    case ClearWaiting(_) => if idx >= 0 { ClearNumbers(s, m, idx); }
  }

  lemma StepNumbers(y: System, a: Action)
    requires Enabled(y, a) && !a.Crash? && Numbered(y.state)
    ensures Numbered(Step(y, a).state)
  {
    hide Find, Dispatch, Numbered, FinishClear, Safe, MoveToHistory, HistoryThresholdReady;
    var s := y.state;
    if a.Schedule? {
      DispatchNumbers(s, y.tasks[a.i]);
    } else if a.Expire? && Expired(s.definitions, s.clock, a.n) && s.definitions[a.n.SpecificProblem()].clearDelay <= 0 {
      ClearNumbers(s, ExpiryMessage(s, a.n), a.idx);
    } else {
      NumberedStill(s, Step(y, a).state);
    }
  }

  /** In every run without a restart the ids are given out in order, none twice and none left out. */
  lemma {:induction false} IdsAreConsecutive(y: System, run: seq<Action>)
    requires Possible(y, run) && NoCrash(run) && Numbered(y.state)
    ensures Numbered(After(y, run).state)
    decreases |run|
  {
    hide Step, Enabled, Numbered;
    if run != [] {
      StepNumbers(y, run[0]);
      IdsAreConsecutive(Step(y, run[0]), run[1..]);
    }
  }

  lemma {:induction false} IsIssued(ledger: seq<Event>, e: Event)
    requires e in ledger && GivesId(e)
    ensures e in Issued(ledger)
  {
    var front, last := ledger[..|ledger| - 1], ledger[|ledger| - 1];
    if e != last {
      assert ledger == front + [last];
      IsIssued(front, e);
    }
  }

  lemma OneEventPerId(s: State, d: Event, e: Event)
    requires Numbered(s) && d in s.ledger && e in s.ledger && GivesId(d) && GivesId(e) && d.tag.id == e.tag.id
    ensures d == e
  {
    hide Issued;
    IsIssued(s.ledger, d);
    IsIssued(s.ledger, e);
    var i :| 0 <= i < |Issued(s.ledger)| && Issued(s.ledger)[i] == d;
    var j :| 0 <= j < |Issued(s.ledger)| && Issued(s.ledger)[j] == e;
  }

  /**
   In every run from a fresh start without a restart an entry or RAISE record
   with the id of a warning is one, with severity, text and a time the clock
   showed; and one with the id of an accepted raise carries a message that
   arrived. (A restart may go back to an older counter and give ids out again.)
   */
  lemma IdTellsKind(y0: System, run: seq<Action>, n: AlarmNotification, e: Event)
    requires Started(y0) && Possible(y0, run) && NoCrash(run)
    requires var s := After(y0, run).state;
             && n in s.active + s.history && n.message.action.Raise?
             && e in s.ledger && GivesId(e) && e.tag.id == n.Id()
    ensures if e.Generated?
            then IsWarning(n.message, Clocks(y0, run))
            else n.message in Arrivals(run)
    ensures e.tag == n.Tag()
  {
    var s := After(y0, run).state;
    MessagesAreVerbatim(y0, run);
    IdsAreConsecutive(y0, run);
    hide IsWarning, Numbered, Possible, After;
    assert Genuine(n, Sources(Arrivals(run), Timeouts(y0, run), Clocks(y0, run)), s.ledger);
    if Accepted(n.Tag()) in s.ledger && n.message in Arrivals(run) {
      OneEventPerId(s, Accepted(n.Tag()), e);
    } else if Generated(n.Tag(), false) in s.ledger {
      OneEventPerId(s, Generated(n.Tag(), false), e);
    } else {
      OneEventPerId(s, Generated(n.Tag(), true), e);
    }
  }

  /** In every reachable state, restarts included, a raise that is in flight has no RAISE record yet. */
  lemma SleepersAreUnrecorded(y0: System, run: seq<Action>, i: nat)
    requires Started(y0) && Possible(y0, run)
    requires i < |After(y0, run).tasks| && RaiseInFlight(After(y0, run).tasks[i])
    ensures var z := After(y0, run);
            forall n :: n in z.state.history && n.message.action.Raise? ==> n.Id() != z.tasks[i].m.Id()
  {
    hide Count;
    var z := After(y0, run);
    var id := z.tasks[i].m.Id();
    StartedIds(y0, id);
    RunIds(y0, run, id);
    assert Flying(HasId(id))(z.tasks[i]) by { assert HasId(id)(z.tasks[i].m.Tag()); }
    CountPositive(z.tasks, i, Flying(HasId(id)));
    forall n | n in z.state.history && n.message.action.Raise? ensures n.Id() != id {
      var j :| 0 <= j < |z.state.history| && z.state.history[j] == n;
      if n.Id() == id {
        Counted(n);
        CountPositive(z.state.history, j, RaiseRecord(HasId(id)));
      }
    }
  }
}
