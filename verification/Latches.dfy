/**
 The two latches. They account exactly for the threshold alarms that were
 generated, and a latch that is on is backed by an active alarm of its SP; the
 one step that can take the backing away is a TTL clear of another alarm at an
 index where the last such alarm has come to stand.
 */
module Latches {
  import opened AlarmTypes
  import opened Counting
  import opened AlarmTable
  import opened Protocol
  import opened Balance

  ghost function HasSp(sp: int): AlarmTag -> bool { (t: AlarmTag) => t.key.sp == sp }

  ghost function OfSp(s: State, sp: int): nat { Active(s, HasSp(sp)) }

  ghost function LatchOf(s: State, sp: int): bool {
    if sp == ACTIVE_ALARM_EXCEED_MAX_THRESHOLD then s.activeExceeded
    else sp == ALARM_HISTORY_EXCEED_MAX_THRESHOLD && s.historyExceeded
  }

  /** The threshold alarms the limit checks generate, not counting those of the clear path. */
  ghost function ByLimit(sp: int): Event -> bool {
    (e: Event) => e.Generated? && !e.onClear && e.tag.key.sp == sp
  }

  ghost function ResetOf(sp: int): Event -> bool { (e: Event) => e.LatchReset? && e.sp == sp }

  predicate Latched(sp: int) {
    sp == ACTIVE_ALARM_EXCEED_MAX_THRESHOLD || sp == ALARM_HISTORY_EXCEED_MAX_THRESHOLD
  }

  /** Generated minus reset minus what the latch itself stands for; zero in every run. */
  ghost function LatchGap(s: State, sp: int): int {
    Count(s.ledger, ByLimit(sp)) - Count(s.ledger, ResetOf(sp)) - One(LatchOf(s, sp))
  }

  ghost predicate Backed(s: State, sp: int) { LatchOf(s, sp) ==> OfSp(s, sp) >= 1 }

  lemma LogLatch(s: State, e: Event, sp: int)
    ensures var t := s.(ledger := s.ledger + [e]);
            && Count(t.ledger, ByLimit(sp)) == Count(s.ledger, ByLimit(sp)) + One(ByLimit(sp)(e))
            && Count(t.ledger, ResetOf(sp)) == Count(s.ledger, ResetOf(sp)) + One(ResetOf(sp)(e))
  {
    CountSnoc(s.ledger, e, ByLimit(sp));
    CountSnoc(s.ledger, e, ResetOf(sp));
  }

  lemma AppendSp(active: seq<AlarmNotification>, n: AlarmNotification, sp: int)
    ensures Count(active + [n], Entry(HasSp(sp))) == Count(active, Entry(HasSp(sp))) + One(n.SpecificProblem() == sp)
  {
    CountSnoc(active, n, Entry(HasSp(sp)));
    assert HasSp(sp)(n.Tag()) == (n.SpecificProblem() == sp);
  }

  lemma GenerateLatch(s: State, g: int, data: string, onClear: bool, sp: int)
    requires g in s.definitions
    ensures var t := GenerateThresholdAlarm(s, g, data, onClear);
            && OfSp(t, sp) == OfSp(s, sp) + One(g == sp)
            && LatchGap(t, sp) == LatchGap(s, sp) + One(g == sp && !onClear)
  {
    hide Count;
    var n := ThresholdAlarm(s, g, data);
    AppendSp(s.active, n, sp);
    LogLatch(s, Generated(n.Tag(), onClear), sp);
  }

  /** The limit checks keep the account balanced and, when they set a latch, leave the alarm that backs it. */
  lemma WarnLatch(s: State, sp: int)
    requires Latched(sp)
    ensures ActiveThresholdReady(s) ==>
              var t := WarnActive(s); LatchGap(t, sp) == LatchGap(s, sp) && OfSp(t, sp) >= OfSp(s, sp)
                                      && (Backed(s, sp) ==> Backed(t, sp))
    ensures HistoryThresholdReady(s) ==>
              var t := WarnHistory(s); LatchGap(t, sp) == LatchGap(s, sp) && OfSp(t, sp) >= OfSp(s, sp)
                                       && (Backed(s, sp) ==> Backed(t, sp))
    ensures HistoryThresholdReady(s) ==>
              var t := WarnHistoryOnClear(s); LatchGap(t, sp) == LatchGap(s, sp) && OfSp(t, sp) >= OfSp(s, sp)
                                              && LatchOf(t, sp) == LatchOf(s, sp)
                                              && (LatchOf(s, sp) ==> OfSp(t, sp) == OfSp(s, sp))
  {
    hide Count;
    if ActiveLimitHit(s) && ActiveThresholdReady(s) {
      GenerateLatch(s, ACTIVE_ALARM_EXCEED_MAX_THRESHOLD, "active", false, sp);
    }
    if HistoryLimitHit(s) && HistoryThresholdReady(s) {
      GenerateLatch(s, ALARM_HISTORY_EXCEED_MAX_THRESHOLD, "history", false, sp);
      GenerateLatch(s, ALARM_HISTORY_EXCEED_MAX_THRESHOLD, "history", true, sp);
    }
  }

  lemma ResetLatch(s: State, cleared: int, sp: int)
    requires Latched(sp)
    ensures var t := ResetLatches(s, cleared);
            && LatchGap(t, sp) == LatchGap(s, sp) && OfSp(t, sp) == OfSp(s, sp)
            && LatchOf(t, sp) == (LatchOf(s, sp) && cleared != sp)
  {
    hide Count;
    LogLatch(s, LatchReset(cleared), sp);
  }

  /** An acceptance never loses the backing, even when the entry just replaced was the only one. */
  lemma AcceptLatch(s: State, m: AlarmNotification, sp: int)
    requires Latched(sp) && m.SpecificProblem() in s.definitions && ActiveThresholdReady(s)
    ensures LatchGap(Accept(s, m).state, sp) == LatchGap(s, sp)
    ensures Backed(s, sp) || m.SpecificProblem() == sp ==> Backed(Accept(s, m).state, sp)
  {
    hide Count;
    var n := AcceptedAlarm(s, m);
    var s1 := Allocate(s, n);
    LogLatch(s, Accepted(n.Tag()), sp);
    WarnLatch(s1, sp);
    AppendSp(WarnActive(s1).active, n, sp);
  }

  lemma RemoveSp(active: seq<AlarmNotification>, idx: nat, sp: int)
    requires idx < |active|
    ensures Count(Remove(active, idx), Entry(HasSp(sp)))
            == Count(active, Entry(HasSp(sp))) - One(active[idx].SpecificProblem() == sp)
  {
    hide Count;
    EntryLeaves(active, idx, HasSp(sp));
    assert HasSp(sp)(active[idx].Tag()) == (active[idx].SpecificProblem() == sp);
  }

  lemma ClearLatch(s: State, m: AlarmNotification, idx: nat, sp: int)
    requires Latched(sp) && idx < |s.active| && m.SpecificProblem() in s.definitions
    requires HistoryThresholdReady(MoveToHistory(s, m, idx))
    ensures LatchGap(FinishClear(s, m, idx), sp) == LatchGap(s, sp)
    ensures Backed(s, sp) ==>
              (Backed(FinishClear(s, m, idx), sp) <==>
                 !(LatchOf(s, sp) && OfSp(s, sp) == 1
                   && s.active[idx].SpecificProblem() == sp && m.SpecificProblem() != sp))
  {
    hide Count;
    var s1 := MoveToHistory(s, m, idx);
    RemoveSp(s.active, idx, sp);
    WarnLatch(s1, sp);
    ResetLatch(WarnHistoryOnClear(s1), m.SpecificProblem(), sp);
  }

  lemma DispatchLatch(s: State, t: Task, sp: int)
    requires Latched(sp) && Safe(s, t)
    ensures var r := Dispatch(s, t).state;
            LatchGap(r, sp) == LatchGap(s, sp) && (Backed(s, sp) ==> Backed(r, sp))
  {
    hide Count, Find, FinishClear, Accept;
    var m, idx := t.m, Find(s.active, t.m.Key());
    match t
    case Pending(_) =>
      if m.SpecificProblem() in s.definitions {
        if m.message.action.Raise? && !Suppressed(s, m) {
          if idx >= 0 {
            RemoveSp(s.active, idx, sp);
            LogLatch(s, Replaced(s.active[idx].Tag()), sp);
          }
          AcceptLatch(Vacated(s, m), m, sp);
        } else if m.message.action.Clear? && idx >= 0 && s.definitions[m.SpecificProblem()].clearDelay <= 0 {
          ClearLatch(s, m, idx, sp);
        }
      }
    case RaiseWaiting(_) =>
      if idx >= 0 {
        EntryRetagged(s.active, idx, s.active[idx].WithRaiseDelay(0), HasSp(sp));
      } else {
        LogLatch(s, Dropped(m.Tag()), sp);
      }
    case RaisePublishing(_) => WarnLatch(s, sp);
    case ClearWaiting(_) => if idx >= 0 { ClearLatch(s, m, idx, sp); }
  }

  lemma RestartLatch(s: State, definitions: map<int, AlarmDefinition>, sp: int)
    requires Latched(sp)
    ensures !LatchOf(Restart(s, definitions), sp) && LatchGap(Restart(s, definitions), sp) == LatchGap(s, sp)
  {
    hide Count;
    var on := s.activeExceeded;
    var s1 := if on then s.(ledger := s.ledger + [LatchReset(ACTIVE_ALARM_EXCEED_MAX_THRESHOLD)]) else s;
    LogLatch(s, LatchReset(ACTIVE_ALARM_EXCEED_MAX_THRESHOLD), sp);
    LogLatch(s1, LatchReset(ALARM_HISTORY_EXCEED_MAX_THRESHOLD), sp);
    assert s.ledger + [] == s.ledger && s1.ledger + [] == s1.ledger;
  }

  /** A TTL clear that takes out the last alarm behind a latch under the name of an alarm of another SP. */
  ghost predicate Unbacks(y: System, a: Action, sp: int) {
    && Strikes(y, a) && LatchOf(y.state, sp) && OfSp(y.state, sp) == 1
    && y.state.active[a.idx].SpecificProblem() == sp && a.n.SpecificProblem() != sp
  }

  lemma StepLatch(y: System, a: Action, sp: int)
    requires Latched(sp) && Enabled(y, a)
    ensures LatchGap(Step(y, a).state, sp) == LatchGap(y.state, sp)
    ensures Backed(y.state, sp) ==> (Backed(Step(y, a).state, sp) <==> !Unbacks(y, a, sp))
  {
    hide Count, Find, Dispatch, FinishClear, Restart;
    match a
    case Schedule(i) => DispatchLatch(y.state, y.tasks[i], sp);
    case Expire(n, idx) =>
      if Expired(y.state.definitions, y.state.clock, n) {
        var m := ExpiryMessage(y.state, n);
        if y.state.definitions[m.SpecificProblem()].clearDelay <= 0 { ClearLatch(y.state, m, idx, sp); }
      }
    case Crash(definitions) => RestartLatch(y.state, definitions, sp);
    case _ =>
  }

  lemma {:induction false} RunGap(y: System, run: seq<Action>, sp: int)
    requires Latched(sp) && Possible(y, run)
    ensures LatchGap(After(y, run).state, sp) == LatchGap(y.state, sp)
    decreases |run|
  {
    hide Step, Enabled, LatchGap;
    if run != [] {
      StepLatch(y, run[0], sp);
      RunGap(Step(y, run[0]), run[1..], sp);
    }
  }

  ghost predicate SomeActive(s: State, sp: int) {
    exists i :: 0 <= i < |s.active| && s.active[i].SpecificProblem() == sp
  }

  /** Every latch that is on has an active alarm of its SP to show for it. */
  ghost predicate Evidence(s: State) {
    && (s.activeExceeded ==> SomeActive(s, ACTIVE_ALARM_EXCEED_MAX_THRESHOLD))
    && (s.historyExceeded ==> SomeActive(s, ALARM_HISTORY_EXCEED_MAX_THRESHOLD))
  }

  lemma OfSpIsActive(s: State, sp: int)
    ensures OfSp(s, sp) >= 1 <==> SomeActive(s, sp)
  {
    hide Count;
    CountZero(s.active, Entry(HasSp(sp)));
    forall i | 0 <= i < |s.active| ensures Entry(HasSp(sp))(s.active[i]) == (s.active[i].SpecificProblem() == sp) {
      assert HasSp(sp)(s.active[i].Tag()) == (s.active[i].SpecificProblem() == sp);
    }
  }

  lemma EvidenceIsBacking(s: State)
    ensures Evidence(s) <==> Backed(s, ACTIVE_ALARM_EXCEED_MAX_THRESHOLD) && Backed(s, ALARM_HISTORY_EXCEED_MAX_THRESHOLD)
  {
    hide OfSp, SomeActive;
    OfSpIsActive(s, ACTIVE_ALARM_EXCEED_MAX_THRESHOLD);
    OfSpIsActive(s, ALARM_HISTORY_EXCEED_MAX_THRESHOLD);
  }

  ghost predicate AlwaysEvidence(y: System, run: seq<Action>)
    requires Possible(y, run)
    decreases |run|
  {
    Evidence(y.state) && (run != [] ==> AlwaysEvidence(Step(y, run[0]), run[1..]))
  }

  ghost predicate NeverUnbacks(y: System, run: seq<Action>)
    requires Possible(y, run)
    decreases |run|
  {
    run != [] ==>
      && !Unbacks(y, run[0], ACTIVE_ALARM_EXCEED_MAX_THRESHOLD)
      && !Unbacks(y, run[0], ALARM_HISTORY_EXCEED_MAX_THRESHOLD)
      && NeverUnbacks(Step(y, run[0]), run[1..])
  }

  lemma {:induction false} RunEvidence(y: System, run: seq<Action>)
    requires Possible(y, run) && Evidence(y.state)
    ensures AlwaysEvidence(y, run) <==> NeverUnbacks(y, run)
    ensures NeverUnbacks(y, run) ==> Evidence(After(y, run).state)
    decreases |run|
  {
    hide Step, Enabled, Evidence, Backed, Unbacks;
    if run != [] {
      EvidenceIsBacking(y.state);
      EvidenceIsBacking(Step(y, run[0]).state);
      StepLatch(y, run[0], ACTIVE_ALARM_EXCEED_MAX_THRESHOLD);
      StepLatch(y, run[0], ALARM_HISTORY_EXCEED_MAX_THRESHOLD);
      if Evidence(Step(y, run[0]).state) { RunEvidence(Step(y, run[0]), run[1..]); }
    }
  }

  /**
   All through a run a latch that is on is backed by an active alarm of its SP,
   restarts included, if and only if no TTL clear of the run takes out the last
   such alarm under the name of another SP. In particular no run of messages,
   delays, replacements and restarts ever loses the backing.
   */
  lemma LatchImpliesEvidence(y0: System, run: seq<Action>)
    requires Started(y0) && Possible(y0, run)
    ensures AlwaysEvidence(y0, run) <==> NeverUnbacks(y0, run)
    ensures NeverUnbacks(y0, run) ==> Evidence(After(y0, run).state)
    ensures Paired(y0, run) ==> NeverUnbacks(y0, run)
  {
    RunEvidence(y0, run);
    if Paired(y0, run) { PairedNeverUnbacks(y0, run); }
  }

  lemma {:induction false} PairedNeverUnbacks(y: System, run: seq<Action>)
    requires Possible(y, run) && Paired(y, run)
    ensures NeverUnbacks(y, run)
    decreases |run|
  {
    hide Step, Enabled, Count;
    if run != [] { PairedNeverUnbacks(Step(y, run[0]), run[1..]); }
  }

  /**
   In every run the limit checks have generated one threshold alarm for each
   time the latch went off (by a clear or a restart), plus one if it is on.
   Those of the clear path set no latch and are counted apart.
   */
  lemma ThresholdAccounting(y0: System, run: seq<Action>)
    requires Started(y0) && Possible(y0, run)
    ensures var s := After(y0, run).state;
            && Count(s.ledger, ByLimit(ACTIVE_ALARM_EXCEED_MAX_THRESHOLD))
               == Count(s.ledger, ResetOf(ACTIVE_ALARM_EXCEED_MAX_THRESHOLD)) + One(s.activeExceeded)
            && Count(s.ledger, ByLimit(ALARM_HISTORY_EXCEED_MAX_THRESHOLD))
               == Count(s.ledger, ResetOf(ALARM_HISTORY_EXCEED_MAX_THRESHOLD)) + One(s.historyExceeded)
  {
    RunGap(y0, run, ACTIVE_ALARM_EXCEED_MAX_THRESHOLD);
    RunGap(y0, run, ALARM_HISTORY_EXCEED_MAX_THRESHOLD);
  }
}
