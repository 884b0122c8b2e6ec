/**
 One tick of the TTL timer with nobody else running and the clock standing
 still: the loop ranges over the array the list had when it began, while every
 clear shifts the same array under it. When does it index past the list, and
 what does it leave?
 */
module Ticks {
  import opened AlarmTypes
  import opened Counting
  import opened AlarmTable
  import opened Sweep

  /** One iteration, for the entry m read from slot i, its ClearDelay included; None is a panic. */
  function Visit(s: State, m: AlarmNotification, i: nat): (r: Option<State>)
  {
    if !Expired(s.definitions, s.clock, m) then Some(s)
    else
      var c := ExpiryMessage(s, m);
      if s.definitions[m.SpecificProblem()].clearDelay <= 0
      then if ClearReady(s, c, i) then Some(FinishClear(s, c, i)) else None
      else if Safe(s, ClearWaiting(c)) then Some(Dispatch(s, ClearWaiting(c)).state) else None
  }

  lemma VisitShrinks(s: State, m: AlarmNotification, i: nat)
    ensures Visit(s, m, i).Some? ==> |Visit(s, m, i).value.active| <= |s.active|
  {
    hide Find, Expired;
  }

  /** The rest of the loop from slot i on. What lies behind the list in the array stays as it is. */
  function Pass(s: State, slots: seq<AlarmNotification>, i: nat): Option<State>
    requires |s.active| <= |slots|
    decreases |slots| - i
  {
    if i >= |slots| then Some(s)
    else
      VisitShrinks(s, slots[i], i);
      match Visit(s, slots[i], i)
      case None => None
      case Some(t) => Pass(t, t.active + slots[|t.active|..], i + 1)
  }

  lemma PassStops(s: State, slots: seq<AlarmNotification>, i: nat)
    requires |s.active| <= |slots| && i < |slots| && Visit(s, slots[i], i).None?
    ensures Pass(s, slots, i).None?
  {
  }

  lemma PassGoesOn(s: State, slots: seq<AlarmNotification>, i: nat, t: State)
    requires |s.active| <= |slots| && i < |slots| && Visit(s, slots[i], i) == Some(t)
    ensures |t.active| <= |slots|
    ensures Pass(s, slots, i) == Pass(t, t.active + slots[|t.active|..], i + 1)
  {
    hide Visit;
    VisitShrinks(s, slots[i], i);
  }

  lemma PassIsOver(s: State, slots: seq<AlarmNotification>, i: nat)
    requires |s.active| <= |slots| <= i
    ensures Pass(s, slots, i) == Some(s)
  {
  }

  function Tick(s: State): Option<State> { Pass(s, s.active, 0) }

  // ---- when it panics

  ghost function ExpiredBy(definitions: map<int, AlarmDefinition>, clock: int): AlarmNotification -> bool {
    (n: AlarmNotification) => Expired(definitions, clock, n)
  }

  ghost function ExpiredNow(s: State): AlarmNotification -> bool { ExpiredBy(s.definitions, s.clock) }

  predicate AtOnce(definitions: map<int, AlarmDefinition>, n: AlarmNotification) {
    n.SpecificProblem() in definitions && definitions[n.SpecificProblem()].clearDelay <= 0
  }

  predicate Immediate(s: State, n: AlarmNotification) { AtOnce(s.definitions, n) }

  /** The next clear will find the history at its limit, and append a threshold alarm for the entry it removes. */
  predicate ClearWarns(s: State) { |s.history| + 1 >= s.maxHistory && !s.historyExceeded }

  /** The last entry is expired and has no ClearDelay, and an earlier one is expired, with or without. */
  ghost predicate Crowded(s: State) {
    && s.active != []
    && var last := s.active[|s.active| - 1];
    && ExpiredNow(s)(last) && Immediate(s, last)
    && exists j :: 0 <= j < |s.active| - 1 && ExpiredNow(s)(s.active[j])
  }

  ghost predicate Overruns(s: State) { Crowded(s) && !ClearWarns(s) }

  /** Whether a clear that meets the history limit can raise its threshold alarm. */
  predicate CanWarn(s: State) { ALARM_HISTORY_EXCEED_MAX_THRESHOLD in s.definitions }

  /** Everything expiry depends on is the same. */
  ghost predicate SameRules(s: State, t: State) {
    && t.clock == s.clock && t.maxHistory == s.maxHistory
    && t.definitions.Keys == s.definitions.Keys
    && forall sp :: sp in s.definitions ==>
         && t.definitions[sp].timeToLive == s.definitions[sp].timeToLive
         && t.definitions[sp].clearDelay == s.definitions[sp].clearDelay
  }

  lemma RulesDecide(s: State, t: State, n: AlarmNotification)
    requires SameRules(s, t)
    ensures ExpiredNow(t)(n) == ExpiredNow(s)(n) && Immediate(t, n) == Immediate(s, n)
  {
  }

  /** Where the clear of an expired entry will strike, if anywhere. */
  function Target(s: State, m: AlarmNotification, i: nat): int {
    if Immediate(s, m) then i else Find(s.active, m.Key())
  }

  lemma VisitCases(s: State, m: AlarmNotification, i: nat)
    requires CanWarn(s) || !ClearWarns(s) || !ExpiredNow(s)(m) || !(0 <= Target(s, m, i) < |s.active|)
    ensures !ExpiredNow(s)(m) ==> Visit(s, m, i) == Some(s)
    ensures ExpiredNow(s)(m) ==>
              var j, c := Target(s, m, i), ExpiryMessage(s, m);
              if 0 <= j < |s.active| then
                && c.SpecificProblem() in s.definitions && HistoryThresholdReady(MoveToHistory(s, c, j))
                && Visit(s, m, i) == Some(FinishClear(s, c, j))
              else Visit(s, m, i) == if Immediate(s, m) then None else Some(s)
  {
    hide Find, FinishClear;
  }

  /** A clear that meets the limit needs the definition of the threshold alarm. */
  lemma VisitDies(s: State, m: AlarmNotification, i: nat)
    requires !CanWarn(s) && ClearWarns(s) && ExpiredNow(s)(m) && 0 <= Target(s, m, i) < |s.active|
    ensures Visit(s, m, i).None?
  {
    hide Find;
  }

  /** The list after a clear at j: one shorter, or as long as before if the history limit was met. */
  lemma ClearEffect(s: State, c: AlarmNotification, j: nat)
    requires j < |s.active| && c.SpecificProblem() in s.definitions
    requires HistoryThresholdReady(MoveToHistory(s, c, j))
    ensures var t := FinishClear(s, c, j);
            && SameRules(s, t)
            && Remove(s.active, j) <= t.active
            && |t.active| == |s.active| - (if ClearWarns(s) then 0 else 1)
            && (ClearWarns(s) ==> ClearWarns(t))
  {
    hide Find;
  }

  /** The state of the pass before slot i, if some clear has happened and the first of them met no limit. */
  ghost predicate Shrunk(s0: State, s: State, slots: seq<AlarmNotification>, i: nat) {
    && !ClearWarns(s0) && |s.active| < |slots| == |s0.active|
    && var last := s0.active[|s0.active| - 1];
    && (forall k :: i <= k < |slots| && |s.active| <= k ==> slots[k] == last)
    && (i < |s.active| && !ClearWarns(s) ==> slots[|s.active| - 1] == last)
    && (i < |slots| ==> exists j :: 0 <= j < |slots| - 1 && ExpiredNow(s0)(s0.active[j]))
    && (i == |slots| ==> !Crowded(s0))
  }

  /** Before slot i: no clear so far; or Shrunk; or the first clear, and so every clear, has met the limit. */
  ghost predicate Passing(s0: State, s: State, slots: seq<AlarmNotification>, i: nat) {
    && i <= |slots| && s.active <= slots && SameRules(s0, s)
    && ( || (s == s0 && slots == s0.active && forall j :: 0 <= j < i ==> !ExpiredNow(s0)(slots[j]))
         || Shrunk(s0, s, slots, i)
         || (CanWarn(s0) && ClearWarns(s0) && ClearWarns(s) && |s.active| == |slots|))
  }

  lemma PassesOver(s0: State, s: State, slots: seq<AlarmNotification>, i: nat)
    requires Passing(s0, s, slots, i) && i < |slots|
    requires !ExpiredNow(s)(slots[i])
    ensures Passing(s0, s, slots, i + 1)
  {
    RulesDecide(s0, s, slots[i]);
  }

  /** A delayed clear of the last entry finds nothing. */
  lemma FindsNothing(s0: State, s: State, slots: seq<AlarmNotification>, i: nat)
    requires Passing(s0, s, slots, i) && i < |slots|
    requires ExpiredNow(s)(slots[i]) && !Immediate(s, slots[i]) && Find(s.active, slots[i].Key()) < 0
    ensures Passing(s0, s, slots, i + 1)
  {
    hide Find;
    RulesDecide(s0, s, slots[i]);
    if i < |s.active| {
      PassingRange(s0, s, slots, i);
      assert false;
    }
  }

  /** The first clear of a pass, below the history limit. */
  lemma FirstClear(s0: State, i: nat, j: nat, t: State)
    requires i < |s0.active| && j <= i && ExpiredNow(s0)(s0.active[i]) && !ClearWarns(s0)
    requires forall l :: 0 <= l < i ==> !ExpiredNow(s0)(s0.active[l])
    requires Remove(s0.active, j) <= t.active && |t.active| == |s0.active| - 1
    ensures Shrunk(s0, t, t.active + s0.active[|t.active|..], i + 1)
  {
    hide Expired, Immediate, ClearWarns;
    var n, slots := |s0.active|, t.active + s0.active[|t.active|..];
    assert slots[n - 1] == s0.active[n - 1];
    if i + 1 < n - 1 { assert slots[n - 2] == Remove(s0.active, j)[n - 2] == s0.active[n - 1]; }
  }

  /** A further clear: below the limit it moves the last entry up once more. */
  lemma FurtherClear(s0: State, s: State, slots: seq<AlarmNotification>, i: nat, j: nat, t: State)
    requires Shrunk(s0, s, slots, i) && i < |slots| && s.active <= slots
    requires ExpiredNow(s0)(slots[i]) && (i >= |s.active| ==> !Immediate(s0, slots[i]))
    requires j < |s.active| && (i < |s.active| ==> j <= i)
    requires Remove(s.active, j) <= t.active && (ClearWarns(s) ==> ClearWarns(t))
    requires |t.active| == |s.active| - (if ClearWarns(s) then 0 else 1)
    ensures Shrunk(s0, t, t.active + slots[|t.active|..], i + 1)
  {
    hide Expired, Immediate, ClearWarns;
    var n, L, slots' := |slots|, |s.active|, t.active + slots[|t.active|..];
    assert forall k :: |t.active| <= k < n ==> slots'[k] == slots[k];
    if !ClearWarns(s) && i + 1 < L - 1 {
      assert slots'[L - 2] == Remove(s.active, j)[L - 2] == s.active[L - 1] == slots[L - 1];
    }
  }

  lemma PassClears(s0: State, s: State, slots: seq<AlarmNotification>, i: nat, j: nat, t: State)
    requires Passing(s0, s, slots, i) && i < |slots| && ExpiredNow(s)(slots[i])
    requires j < |s.active| && (i < |s.active| ==> j <= i)
    requires i >= |s.active| ==> !Immediate(s, slots[i])
    requires CanWarn(s) || !ClearWarns(s)
    requires SameRules(s, t) && Remove(s.active, j) <= t.active
    requires |t.active| == |s.active| - (if ClearWarns(s) then 0 else 1) && (ClearWarns(s) ==> ClearWarns(t))
    ensures Passing(s0, t, t.active + slots[|t.active|..], i + 1)
  {
    RulesDecide(s0, s, slots[i]);
    hide Expired, Immediate, ExpiredNow, Remove, Shrunk;
    if Shrunk(s0, s, slots, i) {
      FurtherClear(s0, s, slots, i, j, t);
    } else if !ClearWarns(s0) {
      FirstClear(s0, i, j, t);
    }
  }

  lemma {:induction false} PassPanics(s0: State, s: State, slots: seq<AlarmNotification>, i: nat)
    requires Passing(s0, s, slots, i)
    ensures CanWarn(s0) ==> (Pass(s, slots, i).None? <==> Overruns(s0))
    ensures !CanWarn(s0) && Crowded(s0) ==> Pass(s, slots, i).None?
    decreases |slots| - i
  {
    hide Visit, Find, FinishClear, Passing, Expired, CanWarn, ClearWarns, Crowded;
    if i == |slots| {
      PassEnds(s0, s, slots, i);
    } else {
      PassingRange(s0, s, slots, i);
      var m, j := slots[i], Target(s, slots[i], i);
      if !CanWarn(s) && ClearWarns(s) && ExpiredNow(s)(m) && 0 <= j < |s.active| {
        VisitDies(s, m, i);
        return;
      }
      VisitCases(s, m, i);
      VisitShrinks(s, m, i);
      if !ExpiredNow(s)(m) {
        PassesOver(s0, s, slots, i);
        assert s.active + slots[|s.active|..] == slots;
        PassPanics(s0, s, slots, i + 1);
      } else {
        if 0 <= j < |s.active| {
          var c := ExpiryMessage(s, m);
          var t := FinishClear(s, c, j);
          ClearEffect(s, c, j);
          PassClears(s0, s, slots, i, j, t);
          PassPanics(s0, t, t.active + slots[|t.active|..], i + 1);
        } else if Immediate(s, m) {
          PassFalls(s0, s, slots, i);
        } else {
          FindsNothing(s0, s, slots, i);
          assert s.active + slots[|s.active|..] == slots;
          PassPanics(s0, s, slots, i + 1);
        }
      }
    }
  }

  lemma PassingRange(s0: State, s: State, slots: seq<AlarmNotification>, i: nat)
    requires Passing(s0, s, slots, i)
    ensures i <= |slots| && s.active <= slots && CanWarn(s) == CanWarn(s0)
    ensures i < |s.active| ==> slots[i] == s.active[i]
  {
  }

  lemma PassEnds(s0: State, s: State, slots: seq<AlarmNotification>, i: nat)
    requires Passing(s0, s, slots, i) && i == |slots|
    ensures !Overruns(s0) && (Crowded(s0) ==> CanWarn(s0))
  {
  }

  lemma PassFalls(s0: State, s: State, slots: seq<AlarmNotification>, i: nat)
    requires Passing(s0, s, slots, i) && |s.active| <= i < |slots|
    requires ExpiredNow(s)(slots[i]) && Immediate(s, slots[i])
    ensures Overruns(s0)
  {
    RulesDecide(s0, s, slots[i]);
  }

  // ---- what it leaves

  /** The CLEAR record a timed-out entry leaves in the history. */
  function ClearRecordOf(s: State, n: AlarmNotification): AlarmNotification {
    if n.SpecificProblem() in s.definitions
    then UpdateAlarmFields(s.definitions, n.Id(), ExpiryMessage(s, n))
    else n
  }

  function ClearRecords(s: State, entries: seq<AlarmNotification>): seq<AlarmNotification> {
    seq(|entries|, i requires 0 <= i < |entries| => ClearRecordOf(s, entries[i]))
  }

  /** What a pass leaves alone. */
  ghost predicate SameTick(s: State, t: State) {
    && t.definitions == s.definitions && t.clock == s.clock && t.uniqueAlarmId == s.uniqueAlarmId
    && t.maxActive == s.maxActive && t.maxHistory == s.maxHistory
  }

  /** A latch that was on is off after a pass exactly if the pass cleared an alarm of its SP. */
  ghost predicate LatchesAfter(s: State, t: State, done: seq<AlarmNotification>) {
    && (t.activeExceeded <==>
          s.activeExceeded && forall n :: n in done ==> n.SpecificProblem() != ACTIVE_ALARM_EXCEED_MAX_THRESHOLD)
    && (t.historyExceeded <==>
          s.historyExceeded && forall n :: n in done ==> n.SpecificProblem() != ALARM_HISTORY_EXCEED_MAX_THRESHOLD)
  }

  /** The rest of the memory during a pass that started in s and has cleared done. */
  ghost predicate TickState(s: State, t: State, done: seq<AlarmNotification>) {
    && SameTick(s, t) && LatchesAfter(s, t, done)
    && t.history == s.history + ClearRecords(s, done)
    && t.file == if done == [] then s.file else Some(Memory(t))
  }

  /** After the clears of done the next one does not meet the history limit with the latch off. */
  predicate Quiet(s: State, done: seq<AlarmNotification>) {
    || |s.history| + |done| + 1 < s.maxHistory
    || (s.historyExceeded && forall n :: n in done ==> n.SpecificProblem() != ALARM_HISTORY_EXCEED_MAX_THRESHOLD)
  }

  /** No clear of the pass meets the history limit with the latch off. */
  ghost predicate QuietSweep(s: State) {
    var swept := Swept(s.active, ExpiredNow(s));
    forall k | 0 <= k < |swept| :: Quiet(s, swept[..k])
  }

  lemma QuietShows(s0: State, s: State, done: seq<AlarmNotification>)
    requires TickState(s0, s, done)
    ensures ClearWarns(s) <==> !Quiet(s0, done)
    ensures s.uniqueAlarmId == s0.uniqueAlarmId && CanWarn(s) == CanWarn(s0)
  {
    hide ClearRecordOf;
  }

  /** A quiet clear only moves the entry to the records. */
  lemma QuietClear(s: State, was: State, done: seq<AlarmNotification>, n: AlarmNotification, idx: nat)
    requires idx < |was.active| && was.active[idx] == n && n.SpecificProblem() in was.definitions
    requires TickState(s, was, done) && Quiet(s, done)
    ensures HistoryThresholdReady(MoveToHistory(was, ExpiryMessage(was, n), idx))
    ensures var r := FinishClear(was, ExpiryMessage(was, n), idx);
            r.active == Remove(was.active, idx) && TickState(s, r, done + [n])
  {
    hide Find, Remove;
    assert ClearRecords(s, done + [n]) == ClearRecords(s, done) + [ClearRecordOf(s, n)];
  }

  /** y is not an expired entry with a ClearDelay behind an entry x of the same identity. */
  ghost function Apart(definitions: map<int, AlarmDefinition>, clock: int): (AlarmNotification, AlarmNotification) -> bool {
    (x: AlarmNotification, y: AlarmNotification) =>
      Expired(definitions, clock, y) && !AtOnce(definitions, y) ==> x.Key() != y.Key()
  }

  /** An expired entry with a ClearDelay is the first of its identity, so that the clear, looking again, finds it. */
  ghost predicate FoundAgain(s: State) { AllPairs(s.active, Apart(s.definitions, s.clock)) }

  /**
   The state of the pass before slot i: cur is the list, done what was cleared.
   While i is within the list the rest of it is still to be passed; beyond it
   the array shows the last entry only.
   */
  ghost predicate Sweeping(s0: State, cur: seq<AlarmNotification>, slots: seq<AlarmNotification>, i: nat,
                           done: seq<AlarmNotification>)
  {
    var orig, e := s0.active, ExpiredNow(s0);
    && |cur| + |done| == |orig| == |slots| && i <= |slots| && cur <= slots
    && (orig != [] ==> forall k :: i <= k < |slots| && |cur| <= k ==> slots[k] == orig[|orig| - 1])
    && (done != [] && i < |slots| ==> exists j :: 0 <= j < |orig| - 1 && e(orig[j]))
    && if i < |cur| then Ahead(orig, cur, i, done, e)
       else Settled(orig, cur, done, e) || (i < |slots| && LeftLast(orig, cur, done, e))
  }

  lemma SweepStarts(s0: State)
    ensures Sweeping(s0, s0.active, s0.active, 0, [])
  {
    assert s0.active[..0] == [] && s0.active[0..] == s0.active;
  }

  lemma SweepEnds(s0: State, cur: seq<AlarmNotification>, slots: seq<AlarmNotification>, i: nat,
                  done: seq<AlarmNotification>)
    requires Sweeping(s0, cur, slots, i, done) && i == |slots|
    ensures Settled(s0.active, cur, done, ExpiredNow(s0))
  {
  }

  lemma SweepSkips(s0: State, cur: seq<AlarmNotification>, slots: seq<AlarmNotification>, i: nat,
                   done: seq<AlarmNotification>)
    requires Sweeping(s0, cur, slots, i, done) && i < |slots| && !ExpiredNow(s0)(slots[i])
    ensures Sweeping(s0, cur, slots, i + 1, done)
  {
    hide Expired, Kept, Swept, Ahead, Settled;
    if i < |cur| {
      assert cur[i] == slots[i];
      AheadSkips(s0.active, cur, i, done, ExpiredNow(s0));
    }
  }

  lemma SweepTakes(s0: State, cur: seq<AlarmNotification>, slots: seq<AlarmNotification>, i: nat,
                   done: seq<AlarmNotification>)
    requires Sweeping(s0, cur, slots, i, done) && i < |cur| && ExpiredNow(s0)(slots[i])
    ensures var after := Remove(cur, i);
            Sweeping(s0, after, after + slots[|after|..], i + 1, done + [slots[i]])
    ensures done + [slots[i]] <= Swept(s0.active, ExpiredNow(s0))
  {
    hide Expired, Kept, Swept, Ahead, Settled, LeftLast;
    var orig, e, after := s0.active, ExpiredNow(s0), Remove(cur, i);
    var slots' := after + slots[|after|..];
    assert cur[i] == slots[i];
    AheadPlaces(orig, cur, i, done, e);
    AheadLeaves(orig, cur, i, done, e);
    assert i + 1 < |slots| ==> e(orig[i + |done|]);
    assert forall k :: |after| <= k < |slots| ==> slots'[k] == slots[k];
    if i + 1 == |cur| {
      AheadTakesLast(orig, cur, i, done, e);
    } else if i + 2 == |cur| {
      AheadTakesLastButOne(orig, cur, i, done, e);
    } else {
      AheadTakes(orig, cur, i, done, e);
    }
  }

  /** Beyond the list an expired last entry has a ClearDelay, or the tick would have panicked. */
  lemma BeyondIsDelayed(s0: State, cur: seq<AlarmNotification>, slots: seq<AlarmNotification>, i: nat,
                        done: seq<AlarmNotification>)
    requires Sweeping(s0, cur, slots, i, done) && |cur| <= i < |slots| && ExpiredNow(s0)(slots[i])
    requires !Crowded(s0)
    ensures slots[i] == s0.active[|s0.active| - 1] && !Immediate(s0, slots[i])
  {
    hide Find, Expired, Kept, Swept, Ahead, Settled, LeftLast;
  }

  /** No other entry that the pass keeps has the identity of such a last entry. */
  lemma LastIsAlone(s0: State)
    requires s0.active != [] && FoundAgain(s0)
    requires var last := s0.active[|s0.active| - 1]; ExpiredNow(s0)(last) && !Immediate(s0, last)
    ensures forall x :: x in Kept(s0.active, ExpiredNow(s0)) ==> x.Key() != s0.active[|s0.active| - 1].Key()
  {
    hide Find, Expired, Kept;
    KeptIsOld(s0.active, ExpiredNow(s0));
    var n := |s0.active|;
    forall x | x in Kept(s0.active, ExpiredNow(s0)) ensures x.Key() != s0.active[n - 1].Key() {
      assert x in s0.active[..n - 1];
      var l :| 0 <= l < n - 1 && s0.active[..n - 1][l] == x;
      assert Apart(s0.definitions, s0.clock)(s0.active[l], s0.active[n - 1]);
    }
  }

  lemma FindsLast(front: seq<AlarmNotification>, last: AlarmNotification)
    requires forall x :: x in front ==> x.Key() != last.Key()
    ensures Find(front, last.Key()) < 0
    ensures Find(front + [last], last.Key()) == |front| && Remove(front + [last], |front|) == front
  {
    hide Find;
    assert (front + [last])[|front|] == last;
    assert forall l :: 0 <= l < |front| ==> front[l] in front;
  }

  lemma SkippedIsTaken(s0: State, cur: seq<AlarmNotification>, slots: seq<AlarmNotification>, i: nat,
                       done: seq<AlarmNotification>)
    requires Sweeping(s0, cur, slots, i, done) && |cur| <= i < |slots|
    requires LeftLast(s0.active, cur, done, ExpiredNow(s0))
    ensures var last, after := s0.active[|s0.active| - 1], Kept(s0.active, ExpiredNow(s0));
            Sweeping(s0, after, after + slots[|after|..], i + 1, done + [last])
            && done + [last] <= Swept(s0.active, ExpiredNow(s0))
  {
    hide Expired, Kept, Swept, Ahead, Crowded;
    var last, after := s0.active[|s0.active| - 1], Kept(s0.active, ExpiredNow(s0));
    var slots' := after + slots[|after|..];
    assert cur == after + [last];
    assert forall k :: |after| <= k < |slots| ==> slots'[k] == slots[k];
  }

  /** Beyond the list the clear strikes the last entry if the pass has skipped it, and else nothing. */
  lemma SweepBeyond(s0: State, cur: seq<AlarmNotification>, slots: seq<AlarmNotification>, i: nat,
                    done: seq<AlarmNotification>)
    requires Sweeping(s0, cur, slots, i, done) && |cur| <= i < |slots| && ExpiredNow(s0)(slots[i])
    requires !Crowded(s0) && FoundAgain(s0)
    ensures !Immediate(s0, slots[i])
    ensures var j := Find(cur, slots[i].Key());
            if j < 0 then Sweeping(s0, cur, slots, i + 1, done)
            else cur[j] == slots[i] && done + [slots[i]] <= Swept(s0.active, ExpiredNow(s0))
                 && var after := Remove(cur, j);
                 Sweeping(s0, after, after + slots[|after|..], i + 1, done + [slots[i]])
  {
    hide Find, Expired, Kept, Swept, Ahead, FoundAgain, Crowded, Remove, Immediate;
    BeyondIsDelayed(s0, cur, slots, i, done);
    LastIsAlone(s0);
    FindsLast(Kept(s0.active, ExpiredNow(s0)), slots[i]);
    if LeftLast(s0.active, cur, done, ExpiredNow(s0)) {
      hide Sweeping;
      SkippedIsTaken(s0, cur, slots, i, done);
    }
  }

  /** Within the list the clear strikes the entry itself, with or without a delay. */
  lemma SweepTarget(s0: State, s: State, slots: seq<AlarmNotification>, i: nat, done: seq<AlarmNotification>)
    requires Sweeping(s0, s.active, slots, i, done) && i < |s.active| && ExpiredNow(s0)(slots[i])
    requires FoundAgain(s0) && SameTick(s0, s)
    ensures Target(s, slots[i], i) == i
  {
    hide Find, Expired, Kept, Swept, Settled, LeftLast;
    var orig, cur, d := s0.active, s.active, i + |done|;
    AheadPlaces(orig, cur, i, done, ExpiredNow(s0));
    if !Immediate(s0, slots[i]) {
      forall x | x in orig[..d] ensures x.Key() != slots[i].Key() {
        var l :| 0 <= l < d && orig[..d][l] == x;
        assert Apart(s0.definitions, s0.clock)(orig[l], orig[d]);
      }
      forall l | 0 <= l < i ensures cur[l].Key() != slots[i].Key() {
        assert cur[..i][l] == cur[l] && cur[l] in cur[..i];
      }
    }
  }

  lemma SweepPlaces(s0: State, s: State, slots: seq<AlarmNotification>, i: nat, done: seq<AlarmNotification>)
    requires Sweeping(s0, s.active, slots, i, done) && TickState(s0, s, done)
    ensures i <= |slots| && s.active <= slots && |s.active| + |done| == |slots| && SameTick(s0, s)
    ensures |s.history| == |s0.history| + |done|
    ensures i < |s.active| ==> slots[i] == s.active[i]
    ensures i < |slots| ==> ExpiredNow(s)(slots[i]) == ExpiredNow(s0)(slots[i])
  {
    hide Find, Kept, Swept, Ahead, Settled, LeftLast;
  }

  // A clear that is not quiet panics, or raises a threshold alarm, which the counter shows for good.

  lemma VisitCounts(s: State, m: AlarmNotification, i: nat)
    ensures Visit(s, m, i).Some? ==> Visit(s, m, i).value.uniqueAlarmId >= s.uniqueAlarmId
  {
    hide Find, Expired;
  }

  lemma {:induction false} PassCounts(s: State, slots: seq<AlarmNotification>, i: nat)
    requires |s.active| <= |slots|
    ensures Pass(s, slots, i).Some? ==> Pass(s, slots, i).value.uniqueAlarmId >= s.uniqueAlarmId
    decreases |slots| - i
  {
    hide Visit;
    if i < |slots| {
      VisitShrinks(s, slots[i], i);
      VisitCounts(s, slots[i], i);
      if Visit(s, slots[i], i).Some? {
        var t := Visit(s, slots[i], i).value;
        PassCounts(t, t.active + slots[|t.active|..], i + 1);
      }
    }
  }

  ghost predicate DiesOrCounts(s: State, r: Option<State>) {
    r.None? || (CanWarn(s) && r.value.uniqueAlarmId > s.uniqueAlarmId)
  }

  lemma LoudVisit(s: State, slots: seq<AlarmNotification>, i: nat)
    requires |s.active| <= |slots| && i < |slots|
    requires ClearWarns(s) && ExpiredNow(s)(slots[i]) && 0 <= Target(s, slots[i], i) < |s.active|
    ensures DiesOrCounts(s, Pass(s, slots, i))
  {
    var m, j := slots[i], Target(s, slots[i], i);
    if CanWarn(s) {
      VisitCases(s, m, i);
      var t := FinishClear(s, ExpiryMessage(s, m), j);
      assert t.uniqueAlarmId == s.uniqueAlarmId + 1 by { hide Find; }
      ClearEffect(s, ExpiryMessage(s, m), j);
      hide Visit, Find, FinishClear;
      PassCounts(t, t.active + slots[|t.active|..], i + 1);
    } else {
      VisitDies(s, m, i);
    }
  }

  /**
   The tick does what Sweep says: the list is what Kept says, the entries Swept
   names have become CLEAR records, in order, the latches are reset for their
   SPs, and all else is the same.
   */
  ghost predicate Sweeps(s: State, r: Option<State>) {
    && r.Some? && r.value.active == Kept(s.active, ExpiredNow(s))
    && TickState(s, r.value, Swept(s.active, ExpiredNow(s)))
  }

  /** One iteration: nothing happens, or the entry goes, quietly or for the last time. */
  lemma PassStep(s0: State, s: State, slots: seq<AlarmNotification>, i: nat, done: seq<AlarmNotification>)
    returns (took: bool)
    requires Sweeping(s0, s.active, slots, i, done) && TickState(s0, s, done) && FoundAgain(s0)
    requires i < |slots| && |s.active| <= |slots| && (Crowded(s0) ==> done == [])
    ensures !took ==> Visit(s, slots[i], i) == Some(s) && Sweeping(s0, s.active, slots, i + 1, done)
    ensures took ==> done + [slots[i]] <= Swept(s0.active, ExpiredNow(s0))
    ensures took && !Quiet(s0, done) ==> DiesOrCounts(s0, Pass(s, slots, i))
    ensures took && Quiet(s0, done) ==>
              var r, done' := Visit(s, slots[i], i), done + [slots[i]];
              && r.Some? && TickState(s0, r.value, done') && |r.value.active| <= |slots|
              && Sweeping(s0, r.value.active, r.value.active + slots[|r.value.active|..], i + 1, done')
  {
    hide Visit, Find, FinishClear, Sweeping, Expired, Kept, Swept, Crowded, FoundAgain, TickState, Quiet, ClearWarns, CanWarn;
    SweepPlaces(s0, s, slots, i, done);
    QuietShows(s0, s, done);
    var m, j := slots[i], Target(s, slots[i], i);
    took := false;
    if !ExpiredNow(s)(m) {
      SweepSkips(s0, s.active, slots, i, done);
      VisitCases(s, m, i);
      return;
    }
    if i < |s.active| {
      SweepTarget(s0, s, slots, i, done);
      SweepTakes(s0, s.active, slots, i, done);
    } else {
      SweepBeyond(s0, s.active, slots, i, done);
    }
    took := j >= 0;
    if took && ClearWarns(s) {
      LoudVisit(s, slots, i);
    } else {
      VisitCases(s, m, i);
      if took { QuietClear(s0, s, done, m, j); }
    }
  }

  lemma {:induction false} PassKeeps(s0: State, s: State, slots: seq<AlarmNotification>, i: nat,
                                     done: seq<AlarmNotification>)
    requires Sweeping(s0, s.active, slots, i, done) && TickState(s0, s, done)
    requires !Crowded(s0) && FoundAgain(s0) && QuietSweep(s0) && |s.active| <= |slots|
    ensures Sweeps(s0, Pass(s, slots, i))
    decreases |slots| - i
  {
    hide Visit, Sweeping, Kept, Swept, Crowded, FoundAgain, TickState, Quiet;
    SweepPlaces(s0, s, slots, i, done);
    if i == |slots| {
      SweepEnds(s0, s.active, slots, i, done);
    } else {
      var took := PassStep(s0, s, slots, i, done);
      if !took {
        assert s.active + slots[|s.active|..] == slots;
        PassKeeps(s0, s, slots, i + 1, done);
      } else {
        assert Swept(s0.active, ExpiredNow(s0))[..|done|] == done;
        var t := Visit(s, slots[i], i).value;
        PassKeeps(s0, t, t.active + slots[|t.active|..], i + 1, done + [slots[i]]);
      }
    }
  }

  /** The pass runs into the clear that is not quiet, which comes after k quiet ones. */
  lemma {:induction false} PassLoud(s0: State, s: State, slots: seq<AlarmNotification>, i: nat,
                                    done: seq<AlarmNotification>, k: nat)
    requires Sweeping(s0, s.active, slots, i, done) && TickState(s0, s, done) && FoundAgain(s0)
    requires Crowded(s0) ==> done == [] && !Quiet(s0, [])
    requires |done| <= k < |Swept(s0.active, ExpiredNow(s0))| && !Quiet(s0, Swept(s0.active, ExpiredNow(s0))[..k])
    requires |s.active| <= |slots|
    ensures DiesOrCounts(s0, Pass(s, slots, i))
    decreases |slots| - i
  {
    hide Visit, Sweeping, Kept, Swept, Crowded, FoundAgain, TickState, Quiet, DiesOrCounts;
    SweepPlaces(s0, s, slots, i, done);
    if i == |slots| {
      SweepEnds(s0, s.active, slots, i, done);
      assert false;
    } else {
      var took := PassStep(s0, s, slots, i, done);
      if !took {
        assert s.active + slots[|s.active|..] == slots;
        PassLoud(s0, s, slots, i + 1, done, k);
      } else if Quiet(s0, done) {
        assert Swept(s0.active, ExpiredNow(s0))[..|done|] == done;
        var t := Visit(s, slots[i], i).value;
        PassLoud(s0, t, t.active + slots[|t.active|..], i + 1, done + [slots[i]], k);
      }
    }
  }

  lemma TickLoud(s: State)
    requires FoundAgain(s) && !QuietSweep(s)
    requires Crowded(s) ==> !Quiet(s, [])
    ensures DiesOrCounts(s, Tick(s))
  {
    hide Swept, Kept, Sweeping, FoundAgain, Crowded;
    SweepStarts(s);
    assert ClearRecords(s, []) == [];
    var swept := Swept(s.active, ExpiredNow(s));
    var k :| 0 <= k < |swept| && !Quiet(s, swept[..k]);
    PassLoud(s, s, s.active, 0, [], k);
  }

  lemma CrowdedSweeps(s: State)
    requires Crowded(s) && ClearWarns(s)
    ensures !QuietSweep(s) && !Quiet(s, [])
  {
    hide Swept, Kept, Expired;
    var e := ExpiredNow(s);
    CountPositive(s.active, |s.active| - 1, e);
    SweepRemovesHalf(s.active, e);
    assert !Quiet(s, Swept(s.active, e)[..0]);
  }

  /**
   A tick does what Sweep says if and only if the list is not crowded and no
   clear of the pass meets the history limit with the latch off.
   */
  lemma TickKeeps(s: State)
    requires FoundAgain(s)
    ensures Sweeps(s, Tick(s)) <==> !Crowded(s) && QuietSweep(s)
  {
    hide Kept, Swept, Crowded, QuietSweep, FoundAgain, Sweeping, ClearWarns, CanWarn;
    TickOverruns(s);
    if !Crowded(s) && QuietSweep(s) {
      SweepStarts(s);
      assert ClearRecords(s, []) == [];
      PassKeeps(s, s, s.active, 0, []);
    } else if Crowded(s) ==> ClearWarns(s) {
      if Crowded(s) { CrowdedSweeps(s); }
      TickLoud(s);
    }
  }

  lemma TickOverruns(s: State)
    ensures CanWarn(s) ==> (Tick(s).None? <==> Overruns(s))
    ensures !CanWarn(s) && Crowded(s) ==> Tick(s).None?
  {
    PassPanics(s, s, s.active, 0);
  }

  /**
   When a tick panics. If 72008 is defined: if and only if it indexes past the
   end of the list, because the last entry is expired and has no ClearDelay, an
   earlier entry is expired, and the history is not so full that each clear puts
   a threshold alarm in the place of the entry it removes. If it is not: if and
   only if the entries are such, or a clear meets the history limit with the
   latch off and has no definition to warn with.
   */
  lemma TickPanics(s: State)
    ensures CanWarn(s) ==> (Tick(s).None? <==> Overruns(s))
    ensures !CanWarn(s) && FoundAgain(s) ==> (Tick(s).None? <==> Crowded(s) || !QuietSweep(s))
  {
    hide Kept, Swept, Crowded, FoundAgain, QuietSweep, CanWarn, TickState;
    TickOverruns(s);
    if !CanWarn(s) && FoundAgain(s) && !Crowded(s) {
      if QuietSweep(s) { TickKeeps(s); } else { TickLoud(s); }
    }
  }

  // ---- tick after tick

  function Ticks(s: State, n: nat): Option<State>
    decreases n
  {
    if n == 0 then Some(s)
    else
      match Tick(s)
      case None => None
      case Some(t) => Ticks(t, n - 1)
  }

  /** The tick leaves the conditions of the next one as they were, with fewer expired entries. */
  lemma TickSteady(s: State, t: State)
    requires FoundAgain(s) && t.active == Kept(s.active, ExpiredNow(s))
    requires TickState(s, t, Swept(s.active, ExpiredNow(s)))
    ensures ExpiredNow(t) == ExpiredNow(s) && FoundAgain(t)
  {
    hide Kept, Swept, Expired;
    KeptPairs(s.active, ExpiredNow(s), Apart(s.definitions, s.clock));
  }

  /** However the expired entries are cleared, no clear meets the history limit with the latch off. */
  ghost predicate Roomy(s: State) {
    || |s.history| + Count(s.active, ExpiredNow(s)) < s.maxHistory
    || (s.historyExceeded && forall n :: n in s.active && ExpiredNow(s)(n) ==>
          n.SpecificProblem() != ALARM_HISTORY_EXCEED_MAX_THRESHOLD)
  }

  lemma RoomyIsQuiet(s: State)
    requires Roomy(s)
    ensures QuietSweep(s)
  {
    hide Swept, Kept, Expired, Count;
    SweepRemovesHalf(s.active, ExpiredNow(s));
    SweptAreExpired(s.active, ExpiredNow(s));
    var swept := Swept(s.active, ExpiredNow(s));
    forall k | 0 <= k < |swept| ensures Quiet(s, swept[..k]) {
      assert forall n :: n in swept[..k] ==> n in swept;
    }
  }

  lemma TickLeavesRoom(s: State, t: State)
    requires Roomy(s) && t.active == Kept(s.active, ExpiredNow(s)) && ExpiredNow(t) == ExpiredNow(s)
    requires TickState(s, t, Swept(s.active, ExpiredNow(s)))
    ensures Roomy(t)
  {
    hide Swept, Kept, Expired, Count, ClearRecordOf;
    SweepRemovesHalf(s.active, ExpiredNow(s));
    SweptAreExpired(s.active, ExpiredNow(s));
    KeptIsOld(s.active, ExpiredNow(s));
  }

  /**
   With the clock standing still and no clear meeting the history limit with the
   latch off, n ticks of a list whose last entry is not expired end without a
   panic, drain fewer than 2^n expired entries, and touch nothing else.
   */
  lemma {:induction false} TicksDrain(s: State, n: nat)
    requires FoundAgain(s)
    requires s.active != [] ==> !ExpiredNow(s)(s.active[|s.active| - 1])
    requires Count(s.active, ExpiredNow(s)) < Pow2(n)
    requires Roomy(s)
    ensures Ticks(s, n).Some? && Ticks(s, n).value.active == Fresh(s.active, ExpiredNow(s))
    decreases n
  {
    hide Kept, Swept, Fresh, Count, Expired, FoundAgain, Tick, Roomy, QuietSweep, TickState;
    var e := ExpiredNow(s);
    if n == 0 {
      FreshIsAll(s.active, e);
    } else {
      SweepRemovesHalf(s.active, e);
      SweepKeepsFresh(s.active, e);
      RoomyIsQuiet(s);
      TickKeeps(s);
      var t := Tick(s).value;
      TickSteady(s, t);
      TickLeavesRoom(s, t);
      if s.active == [] { EmptySweep(e); } else { LastIsKept(s.active, e); }
      TicksDrain(t, n - 1);
    }
  }
}
