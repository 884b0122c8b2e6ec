/**
 Runs that show what the code does not promise. Each is a run of the step
 system from a fresh start, and each fails a property one might expect; the
 exact condition of the property is proved where the property is treated.
 */
module Examples {
  import opened AlarmTypes
  import opened Counting
  import opened AlarmTable
  import opened Protocol
  import opened Uniqueness
  import opened Latches
  import opened Hiding
  import opened Serial
  import opened LastMessage
  import opened ReraiseOutcome
  import opened ReraiseOrder
  import Ticks

  function Def(sp: int, raiseDelay: int, clearDelay: int, ttl: int): AlarmDefinition {
    AlarmDefinition(sp, "", "", "", raiseDelay, clearDelay, ttl)
  }

  function TheAlarm(sp: int): Alarm { Alarm("", "", sp, "MAJOR", "", "") }

  function KeyOf(sp: int): Identity {
    if sp == ACTIVE_ALARM_EXCEED_MAX_THRESHOLD then ACTIVE_THRESHOLD else Identity("", "", sp, "")
  }

  function Send(sp: int, action: AlarmAction): AlarmNotification { Message(TheAlarm(sp), action, 0) }

  /** One second after all the messages. */
  const NOW := 1_000_000_000

  lemma RunsOn(y: System, a: Action, run: seq<Action>)
    requires Enabled(y, a) && Possible(Step(y, a), run)
    ensures Possible(y, [a] + run) && After(y, [a] + run) == After(Step(y, a), run)
  {
    hide Enabled, Step;
    assert ([a] + run)[1..] == run;
  }

  /** A raise of an alarm that is not active, within the limits. */
  lemma Accepts(s: State, m: AlarmNotification)
    requires m.message.action.Raise? && m.SpecificProblem() in s.definitions
    requires Find(s.active, m.Key()) < 0 && !ActiveLimitHit(s)
    ensures Safe(s, Pending(m))
    ensures var n := AcceptedAlarm(s, m);
            Dispatch(s, Pending(m)) == Outcome(Allocate(s, n).(active := s.active + [n]),
                                               Some(if n.definition.raiseDelay > 0 then RaiseWaiting(n) else RaisePublishing(n)))
  {
    hide Find;
  }

  // ---- a stale TTL clear

  /** 1 and 3 have a TTL of one second. */
  function Mortal(sp: int): AlarmDefinition { Def(sp, 0, 0, if sp == 1 || sp == 3 then 1 else 0) }

  /** The active alarms are those of the given SPs, none of them older than the beginning; delays are zero. */
  ghost predicate Shows(y: System, sps: seq<int>) {
    var s := y.state;
    && |s.active| == |sps|
    && (forall i | 0 <= i < |sps| :: s.active[i].Key() == KeyOf(sps[i]))
    && (forall i | 0 <= i < |sps| :: sps[i] != ACTIVE_ALARM_EXCEED_MAX_THRESHOLD ==> s.active[i].message.alarmTime == 0)
    && s.clock == NOW && s.maxActive == 3 && s.maxHistory == 100 && |s.history| < 10
    && ACTIVE_ALARM_EXCEED_MAX_THRESHOLD in s.definitions
    && (forall sp | 1 <= sp < 10 :: sp in s.definitions && s.definitions[sp] == Mortal(sp))
  }

  lemma NotFound(y: System, sps: seq<int>, sp: int)
    requires Shows(y, sps) && sp !in sps
    ensures Find(y.state.active, KeyOf(sp)) < 0
  {
    hide Find;
    assert |"SEP"| == 3;
  }

  lemma Raises(y: System, sps: seq<int>, sp: int) returns (run: seq<Action>)
    requires Shows(y, sps) && 1 <= sp < 10 && sp !in sps && (|sps| < 3 || y.state.activeExceeded)
    ensures Possible(y, run) && Shows(After(y, run), sps + [sp])
    ensures var s, t := y.state, After(y, run).state;
            && t.activeExceeded == s.activeExceeded && |t.history| == |s.history| && s.active <= t.active
            && t.definitions == s.definitions
    ensures forall a :: a in run ==> a.Arrive? || a.Schedule?
  {
    hide Find;
    var m := Send(sp, Raise);
    var y1 := Step(y, Arrive(m));
    NotFound(y, sps, sp);
    Accepts(y.state, m);
    var last := Schedule(|y.tasks|);
    assert Enabled(y1, last);
    RunsOn(y1, last, []);
    RunsOn(y, Arrive(m), [last] + []);
    run := [Arrive(m)] + ([last] + []);
  }

  /** The fourth raise meets the limit: the warning comes first, and its latch goes on. */
  lemma RaisesOverLimit(y: System, sps: seq<int>, sp: int) returns (run: seq<Action>)
    requires Shows(y, sps) && 1 <= sp < 10 && sp !in sps && |sps| == 3 && !y.state.activeExceeded
    requires |y.state.history| == 0
    ensures Possible(y, run) && Shows(After(y, run), sps + [ACTIVE_ALARM_EXCEED_MAX_THRESHOLD, sp])
    ensures After(y, run).state.activeExceeded && |After(y, run).state.history| == 1
  {
    hide Find;
    var m := Send(sp, Raise);
    var y1 := Step(y, Arrive(m));
    NotFound(y, sps, sp);
    var last := Schedule(|y.tasks|);
    assert Safe(y1.state, Pending(m)) && Enabled(y1, last);
    RunsOn(y1, last, []);
    RunsOn(y, Arrive(m), [last] + []);
    run := [Arrive(m)] + ([last] + []);
  }

  lemma Found(y: System, sps: seq<int>, i: nat)
    requires Shows(y, sps) && i < |sps| && forall j | 0 <= j < i :: sps[j] != sps[i]
    ensures Find(y.state.active, KeyOf(sps[i])) == i
  {
    hide Find;
    assert |"SEP"| == 3;
    FirstMatch(y.state.active, KeyOf(sps[i]), i);
  }

  /** A clear, by its message or by the TTL timer at index i, below the history limit. */
  lemma ClearShows(y: System, sps: seq<int>, m: AlarmNotification, i: nat)
    requires Shows(y, sps) && i < |sps| && |y.state.history| < 9 && 1 <= m.SpecificProblem() < 10
    ensures HistoryThresholdReady(MoveToHistory(y.state, m, i))
    ensures var t := FinishClear(y.state, m, i);
            && Shows(System(t, y.tasks), Remove(sps, i)) && |t.history| == |y.state.history| + 1
            && t.active == Remove(y.state.active, i) && t.activeExceeded == y.state.activeExceeded
            && t.history == y.state.history + [UpdateAlarmFields(y.state.definitions, y.state.active[i].Id(), m)]
  {
    hide Find;
  }

  lemma Clears(y: System, sps: seq<int>, i: nat) returns (run: seq<Action>)
    requires Shows(y, sps) && i < |sps| && 1 <= sps[i] < 10 && |y.state.history| < 9
    requires forall j | 0 <= j < i :: sps[j] != sps[i]
    ensures Possible(y, run) && Shows(After(y, run), Remove(sps, i))
    ensures var s, t := y.state, After(y, run).state;
            && t.activeExceeded == s.activeExceeded && |t.history| == |s.history| + 1 && t.active == Remove(s.active, i)
    ensures forall a :: a in run ==> a.Arrive? || a.Schedule?
  {
    hide Find, FinishClear, MoveToHistory;
    var m := Send(sps[i], Clear);
    var y1 := Step(y, Arrive(m));
    Found(y, sps, i);
    ClearShows(y, sps, m, i);
    var last := Schedule(|y.tasks|);
    assert Safe(y1.state, Pending(m)) && Enabled(y1, last);
    RunsOn(y1, last, []);
    RunsOn(y, Arrive(m), [last] + []);
    run := [Arrive(m)] + ([last] + []);
  }

  lemma Start() returns (y0: System)
    ensures Started(y0) && Shows(y0, []) && !y0.state.activeExceeded && y0.state.history == []
    ensures ALARM_HISTORY_EXCEED_MAX_THRESHOLD in y0.state.definitions
    ensures Possible(y0, []) && After(y0, []) == y0
  {
    var definitions := (map sp | 1 <= sp < 10 :: Mortal(sp))
                       [ACTIVE_ALARM_EXCEED_MAX_THRESHOLD := Def(ACTIVE_ALARM_EXCEED_MAX_THRESHOLD, 0, 0, 0)]
                       [ALARM_HISTORY_EXCEED_MAX_THRESHOLD := Def(ALARM_HISTORY_EXCEED_MAX_THRESHOLD, 0, 0, 0)];
    y0 := System(Initial(definitions, 3, 100, NOW), []);
  }

  /** The list 1, 2, 3, the warning, 4, its latch on; 1 and 3 have outlived their TTL. */
  lemma TickBegins() returns (y0: System, run: seq<Action>)
    ensures Started(y0) && Possible(y0, run)
    ensures Shows(After(y0, run), [1, 2, 3, ACTIVE_ALARM_EXCEED_MAX_THRESHOLD, 4])
    ensures After(y0, run).state.activeExceeded && |After(y0, run).state.history| < 5
  {
    hide Shows, Started, Possible, After;
    y0 := Start();
    run := [];
    var sps: seq<int> := [];
    while |sps| < 3
      invariant |sps| <= 3 && sps == [1, 2, 3][..|sps|]
      invariant Possible(y0, run) && Shows(After(y0, run), sps) && !After(y0, run).state.activeExceeded
      invariant |After(y0, run).state.history| == 0
    {
      var more := Raises(After(y0, run), sps, |sps| + 1);
      RunsCompose(y0, run, more);
      run, sps := run + more, sps + [|sps| + 1];
    }
    var more := RaisesOverLimit(After(y0, run), sps, 4);
    RunsCompose(y0, run, more);
    run := run + more;
    assert sps + [ACTIVE_ALARM_EXCEED_MAX_THRESHOLD, 4] == [1, 2, 3, ACTIVE_ALARM_EXCEED_MAX_THRESHOLD, 4];
  }

  const NINE := [2, 3, ACTIVE_ALARM_EXCEED_MAX_THRESHOLD, 4, 5, 6, 7, 8, 9]

  lemma NextOfNine(sp: int)
    requires 5 <= sp < 10
    ensures sp !in NINE[..sp - 1] && NINE[..sp - 1] + [sp] == NINE[..sp]
  {
  }

  /** Five more raises, the last of which moves the list to a larger array. */
  lemma FiveRaises(y: System) returns (run: seq<Action>)
    requires Shows(y, NINE[..4]) && y.state.activeExceeded
    ensures Possible(y, run) && Shows(After(y, run), NINE)
    ensures var s, t := y.state, After(y, run).state;
            t.activeExceeded && |t.history| == |s.history| && s.active <= t.active
    ensures forall a :: a in run ==> a.Arrive? || a.Schedule?
  {
    run := [];
    var sp := 5;
    while sp < 10
      invariant 5 <= sp <= 10 && Possible(y, run) && Shows(After(y, run), NINE[..sp - 1])
      invariant After(y, run).state.activeExceeded && |After(y, run).state.history| == |y.state.history|
      invariant y.state.active <= After(y, run).state.active
      invariant forall a :: a in run ==> a.Arrive? || a.Schedule?
    {
      hide Shows, Possible, After;
      NextOfNine(sp);
      var more := Raises(After(y, run), NINE[..sp - 1], sp);
      RunsCompose(y, run, more);
      run, sp := run + more, sp + 1;
    }
    assert NINE[..9] == NINE;
  }

  /** After them, a clear of 2. */
  lemma OthersIntervene(y: System) returns (run: seq<Action>)
    requires Shows(y, [2, 3, ACTIVE_ALARM_EXCEED_MAX_THRESHOLD, 4])
    requires y.state.activeExceeded && |y.state.history| < 8
    ensures Possible(y, run) && Shows(After(y, run), [3, ACTIVE_ALARM_EXCEED_MAX_THRESHOLD, 4, 5, 6, 7, 8, 9])
    ensures After(y, run).state.activeExceeded && |After(y, run).state.history| < 9
    ensures After(y, run).state.active[0] == y.state.active[1]
    ensures forall a :: a in run ==> a.Arrive? || a.Schedule?
  {
    assert |y.state.active| == 4;
    hide Shows, Possible, After;
    assert NINE[..4] == [2, 3, ACTIVE_ALARM_EXCEED_MAX_THRESHOLD, 4];
    run := FiveRaises(y);
    var more := Clears(After(y, run), NINE, 0);
    RunsCompose(y, run, more);
    assert Remove(NINE, 0) == [3, ACTIVE_ALARM_EXCEED_MAX_THRESHOLD, 4, 5, 6, 7, 8, 9];
    run := run + more;
  }

  lemma HasExpired(y: System, sps: seq<int>, i: nat)
    requires Shows(y, sps) && i < |sps| && (sps[i] == 1 || sps[i] == 3)
    ensures var n := y.state.active[i];
            && n.SpecificProblem() == sps[i]
            && Expired(y.state.definitions, y.state.clock, n) && y.state.definitions[sps[i]].clearDelay == 0
  {
    var n := y.state.active[i];
    assert n.Key().sp == sps[i];
    assert Quot(NOW, 1_000_000_000) == 1;
  }

  /** At slot 1 the timer, examining n, takes the last 72007 alarm out while its latch is on, and n stays active. */
  ghost predicate TakesWarning(z: System, n: AlarmNotification) {
    && Enabled(z, Expire(n, 1)) && Misses(z, Expire(n, 1))
    && Unbacks(z, Expire(n, 1), ACTIVE_ALARM_EXCEED_MAX_THRESHOLD)
    && var end := Step(z, Expire(n, 1)).state;
    && end.activeExceeded && !SomeActive(end, ACTIVE_ALARM_EXCEED_MAX_THRESHOLD)
    && n in end.active
    && exists r :: r in end.history && r.message.action.Clear? && r.Key() == n.Key()
  }

  /** The tick clears slot 0 of a list of five, the others handle messages, and slot 1 is cleared as it was shown then. */
  ghost predicate StaleClear(x: System, others: seq<Action>) {
    && |x.state.active| == 5 && Strikes(x, Expire(x.state.active[0], 0)) && Enabled(x, Expire(x.state.active[0], 0))
    && var y := Step(x, Expire(x.state.active[0], 0));
    && |y.state.active| == 4 && y.state.active[1] == x.state.active[2]
    && Possible(y, others) && (forall a :: a in others ==> a.Arrive? || a.Schedule?)
    && TakesWarning(After(y, others), y.state.active[1])
  }

  /**
   A TTL clear that misses. The tick begins with 1, 2, 3, the warning and 4 in
   its array, and clears 1. While the mutex is free the others raise five alarms,
   so that the list moves to another array, and clear 2 there. The old array
   still shows 3 in slot 1, where the list now has the warning: the tick takes
   the warning out and records a CLEAR of 3, which stays active, while the latch
   stays on with no warning to back it.
   */
  lemma StaleTick() returns (y0: System, before: seq<Action>, others: seq<Action>)
    ensures Started(y0) && Possible(y0, before)
    ensures StaleClear(After(y0, before), others)
  {
    y0, before := TickBegins();
    others := StaleTickFrom(After(y0, before));
  }

  lemma StaleTickFrom(x: System) returns (others: seq<Action>)
    requires Shows(x, [1, 2, 3, ACTIVE_ALARM_EXCEED_MAX_THRESHOLD, 4])
    requires x.state.activeExceeded && |x.state.history| < 5
    ensures StaleClear(x, others)
  {
    hide FinishClear, MoveToHistory, Find, Count, Expired;
    var five := [1, 2, 3, ACTIVE_ALARM_EXCEED_MAX_THRESHOLD, 4];
    HasExpired(x, five, 0);
    var first := x.state.active[0];
    ClearShows(x, five, ExpiryMessage(x.state, first), 0);
    var y := Step(x, Expire(first, 0));
    assert Remove(five, 0) == [2, 3, ACTIVE_ALARM_EXCEED_MAX_THRESHOLD, 4];
    others := OthersIntervene(y);
    WarningTaken(After(y, others), y.state.active[1]);
  }

  lemma WarningTaken(z: System, n: AlarmNotification)
    requires Shows(z, [3, ACTIVE_ALARM_EXCEED_MAX_THRESHOLD, 4, 5, 6, 7, 8, 9])
    requires z.state.activeExceeded && |z.state.history| < 9 && n == z.state.active[0]
    ensures TakesWarning(z, n)
  {
    hide FinishClear, MoveToHistory, Find, Count, Expired;
    var eight := [3, ACTIVE_ALARM_EXCEED_MAX_THRESHOLD, 4, 5, 6, 7, 8, 9];
    HasExpired(z, eight, 0);
    var m := ExpiryMessage(z.state, n);
    ClearShows(z, eight, m, 1);
    var end := FinishClear(z.state, m, 1);
    assert Remove(eight, 1) == [3, 4, 5, 6, 7, 8, 9];
    assert |"SEP"| == 3;
    assert z.state.active[1].Key().sp == ACTIVE_ALARM_EXCEED_MAX_THRESHOLD;
    assert end.active[0] == n;
    var r := UpdateAlarmFields(z.state.definitions, z.state.active[1].Id(), m);
    assert r in end.history && r.Key() == n.Key();
    forall i | 0 <= i < |end.active| ensures end.active[i].SpecificProblem() != ACTIVE_ALARM_EXCEED_MAX_THRESHOLD {
      assert end.active[i].Key().sp == Remove(eight, 1)[i];
    }
    OnlyWarning(z, eight);
  }

  lemma OnlyWarning(z: System, sps: seq<int>)
    requires Shows(z, sps) && |sps| > 1 && sps[1] == ACTIVE_ALARM_EXCEED_MAX_THRESHOLD
    requires ACTIVE_ALARM_EXCEED_MAX_THRESHOLD !in Remove(sps, 1)
    ensures OfSp(z.state, ACTIVE_ALARM_EXCEED_MAX_THRESHOLD) == 1
  {
    hide Count;
    var s, sp := z.state, ACTIVE_ALARM_EXCEED_MAX_THRESHOLD;
    RemoveSp(s.active, 1, sp);
    assert s.active[1].Key().sp == sp;
    var rest := System(s.(active := Remove(s.active, 1)), []);
    OfSpIsActive(rest.state, sp);
    forall i | 0 <= i < |rest.state.active| ensures rest.state.active[i].SpecificProblem() != sp {
      assert rest.state.active[i].Key() == KeyOf(Remove(sps, 1)[i]) && Remove(sps, 1)[i] in Remove(sps, 1);
    }
  }

  // ---- a tick past the end of the list

  /** Two alarms have been raised, and both have outlived their TTL: the tick panics. */
  lemma TickOverruns() returns (y0: System, run: seq<Action>)
    ensures Started(y0) && Possible(y0, run)
    ensures Ticks.Overruns(After(y0, run).state) && Ticks.Tick(After(y0, run).state).None?
  {
    hide Shows, Started, Possible, After, Ticks.Overruns, Ticks.Tick;
    y0 := Start();
    assert [] + [1] == [1];
    var first := Raises(y0, [], 1);
    var y := After(y0, first);
    var second := Raises(y, [1], 3);
    RunsCompose(y0, first, second);
    run := first + second;
    assert [1] + [3] == [1, 3];
    BothExpired(After(y0, run));
  }

  lemma BothExpired(y: System)
    requires Shows(y, [1, 3]) && ALARM_HISTORY_EXCEED_MAX_THRESHOLD in y.state.definitions
    ensures Ticks.Overruns(y.state) && Ticks.Tick(y.state).None?
  {
    var s := y.state;
    HasExpired(y, [1, 3], 0);
    HasExpired(y, [1, 3], 1);
    Ticks.TickPanics(s);
    hide Expired, Ticks.Tick;
    assert s.active[|s.active| - 1] == s.active[1];
    assert Ticks.ExpiredNow(s)(s.active[0]);
  }

  // ---- one alarm, raised and recorded

  /** A started system after the raise of its only alarm has run to its end. */
  function Recorded(s: State, n: AlarmNotification): State {
    WriteAlarmInfo(Allocate(s, n).(active := [n], history := [n]))
  }

  function RaiseOnce(): seq<Action> { [Arrive(Send(1, Raise)), Schedule(0), Schedule(0)] }

  lemma RaisedOnce(y0: System)
    requires Started(y0) && 1 in y0.state.definitions && y0.state.definitions[1].raiseDelay == 0
    requires y0.state.maxActive > 0 && y0.state.maxHistory > 0
    ensures Possible(y0, RaiseOnce())
    ensures After(y0, RaiseOnce()) == System(Recorded(y0.state, AcceptedAlarm(y0.state, Send(1, Raise))), [])
  {
    hide Find;
    var m, s := Send(1, Raise), y0.state;
    Accepts(s, m);
    var n := AcceptedAlarm(s, m);
    PublishesLast(Allocate(s, n).(active := [n]), [], n);
    assert [] + [n] == [n] && [] + [RaisePublishing(n)] == [RaisePublishing(n)] && [] + [n.WithRaiseDelay(0)] == [n];
    hide Dispatch, Safe, Publish;
    var y1, y2 := System(s, [Pending(m)]), System(Allocate(s, n).(active := [n]), [RaisePublishing(n)]);
    assert Step(y0, Arrive(m)) == y1 && Step(y1, Schedule(0)) == y2;
    assert Step(y2, Schedule(0)) == System(Recorded(s, n), []);
    RunsOn(y2, Schedule(0), []);
    RunsOn(y1, Schedule(0), [Schedule(0)] + []);
    RunsOn(y0, Arrive(m), [Schedule(0)] + ([Schedule(0)] + []));
    assert RaiseOnce() == [Arrive(m)] + ([Schedule(0)] + ([Schedule(0)] + []));
  }

  lemma OneEntry(s: State, n: AlarmNotification, k: Identity)
    requires s.active == [n] && n.Key() == k
    ensures Entries(s, k) == 1 && Find(s.active, k) == 0
  {
    hide Find;
    FirstMatch(s.active, k, 0);
    hide Count;
    CountZero([], Entry(HasKey(k)));
    CountSnoc([], n, Entry(HasKey(k)));
    assert [] + [n] == [n] && HasKey(k)(n.Tag());
  }

  // ---- a reraise that loses the alarm

  lemma ClearSleeps(s: State, c: AlarmNotification, r: AlarmNotification)
    requires |s.active| == 1 && Find(s.active, c.Key()) == 0 && c.Key() == r.Key() && c.SpecificProblem() in s.definitions
    requires c.message.action.Clear? && s.definitions[c.SpecificProblem()].clearDelay > 0 && !HistoryLimitHit(MoveToHistory(s, c, 0))
    requires r.message.action.Raise? && r.Severity() == s.active[0].Severity()
    ensures Safe(s, Pending(c)) && Dispatch(s, Pending(c)) == Outcome(s, Some(ClearWaiting(c)))
    ensures Safe(s, Pending(r)) && Dispatch(s, Pending(r)) == Outcome(s, None)
    ensures Safe(s, ClearWaiting(c)) && Dispatch(s, ClearWaiting(c)).next.None?
  {
    hide Find;
  }

  function Overtaking(c: AlarmNotification, r: AlarmNotification): seq<Action> {
    [Arrive(c), Schedule(0), Arrive(r), Schedule(1), Schedule(0)]
  }

  /** The RAISE passes the CLEAR while that sleeps. */
  lemma Overtakes(s: State, c: AlarmNotification, r: AlarmNotification)
    requires Safe(s, Pending(c)) && Dispatch(s, Pending(c)) == Outcome(s, Some(ClearWaiting(c)))
    requires Safe(s, Pending(r)) && Dispatch(s, Pending(r)) == Outcome(s, None)
    requires Safe(s, ClearWaiting(c)) && Dispatch(s, ClearWaiting(c)).next.None?
    ensures Possible(System(s, []), Overtaking(c, r))
    ensures After(System(s, []), Overtaking(c, r)) == System(Dispatch(s, ClearWaiting(c)).state, [])
  {
    hide Dispatch, Safe;
    var sleeping := System(s, [ClearWaiting(c)]);
    assert Step(System(s, []), Arrive(c)) == System(s, [Pending(c)]);
    assert Step(System(s, [Pending(c)]), Schedule(0)) == sleeping;
    var both := System(s, [ClearWaiting(c), Pending(r)]);
    assert Step(sleeping, Arrive(r)) == both;
    assert Step(both, Schedule(1)) == sleeping;
    RunsOn(sleeping, Schedule(0), []);
    RunsOn(both, Schedule(1), [Schedule(0)] + []);
    RunsOn(sleeping, Arrive(r), [Schedule(1)] + ([Schedule(0)] + []));
    RunsOn(System(s, [Pending(c)]), Schedule(0), [Arrive(r)] + ([Schedule(1)] + ([Schedule(0)] + [])));
    RunsOn(System(s, []), Arrive(c), [Schedule(0)] + ([Arrive(r)] + ([Schedule(1)] + ([Schedule(0)] + []))));
    assert Overtaking(c, r) == [Arrive(c)] + ([Schedule(0)] + ([Arrive(r)] + ([Schedule(1)] + ([Schedule(0)] + []))));
  }

  /** Its SP has a ClearDelay: the RAISE is suppressed as a duplicate while the CLEAR sleeps, and then the CLEAR strikes. */
  lemma ReraiseLoses() returns (y0: System, raise: seq<Action>, reraise: seq<Action>)
    ensures Started(y0) && Possible(y0, raise) && Entries(After(y0, raise).state, KeyOf(1)) == 1
    ensures After(y0, raise).tasks == []
    ensures reraise == Overtaking(Send(1, Clear), Send(1, Raise)) && Possible(After(y0, raise), reraise)
    ensures Entries(After(After(y0, raise), reraise).state, KeyOf(1)) == 0
    ensures After(After(y0, raise), reraise).tasks == []
  {
    hide Find, Count, Dispatch, Safe, Entries;
    y0, raise := System(Initial(map[1 := Def(1, 0, 5, 0)], 10, 10, NOW), []), RaiseOnce();
    RaisedOnce(y0);
    hide Possible, After, Enabled, Step;
    var s, c, r := After(y0, raise).state, Send(1, Clear), Send(1, Raise);
    OneEntry(s, s.active[0], KeyOf(1));
    ClearSleeps(s, c, r);
    Overtakes(s, c, r);
    reraise := Overtaking(c, r);
    DispatchEntries(s, ClearWaiting(c), KeyOf(1));
  }

  // ---- a reraised alarm that is not last

  predicate Supplied(s: State, sp: int) {
    && sp in s.definitions
    && ACTIVE_ALARM_EXCEED_MAX_THRESHOLD in s.definitions && ALARM_HISTORY_EXCEED_MAX_THRESHOLD in s.definitions
  }

  lemma SuppliedIsSafe(s: State, t: Task)
    requires Supplied(s, t.m.SpecificProblem())
    ensures Safe(s, t)
  {
    hide Find;
  }

  lemma {:induction false} AlwaysReady(s: State, t: Task)
    requires Supplied(s, t.m.SpecificProblem())
    ensures Ready(s, t)
    decreases Rank(t)
  {
    SuppliedIsSafe(s, t);
    RankFalls(s, t);
    NextKeepsKey(s, t);
    var o, sp := Dispatch(s, t), t.m.SpecificProblem();
    DispatchKnows(s, t, sp);
    DispatchKnows(s, t, ACTIVE_ALARM_EXCEED_MAX_THRESHOLD);
    DispatchKnows(s, t, ALARM_HISTORY_EXCEED_MAX_THRESHOLD);
    hide Dispatch, Safe;
    if o.next.Some? {
      assert o.next.value.m.Key().sp == t.m.Key().sp;
      AlwaysReady(o.state, o.next.value);
    }
  }

  /** The history is at its limit: recording the second raise puts a threshold alarm behind it. */
  lemma ReraisedIsNotLast() returns (y0: System)
    ensures Started(y0) && Possible(y0, RaiseOnce())
    ensures var s := After(y0, RaiseOnce()).state;
            && ReraiseWarns(s, KeyOf(1))
            && Ready(s, Pending(Send(1, Clear))) && Ready(Complete(s, Pending(Send(1, Clear))), Pending(Send(1, Raise)))
            && var end := Complete(Complete(s, Pending(Send(1, Clear))), Pending(Send(1, Raise)));
            0 <= Find(end.active, KeyOf(1)) < |end.active| - 1
  {
    hide Find, Count, Entries;
    var definitions := map[1 := Def(1, 0, 0, 0),
                           ACTIVE_ALARM_EXCEED_MAX_THRESHOLD := Def(ACTIVE_ALARM_EXCEED_MAX_THRESHOLD, 0, 0, 0),
                           ALARM_HISTORY_EXCEED_MAX_THRESHOLD := Def(ALARM_HISTORY_EXCEED_MAX_THRESHOLD, 0, 0, 0)];
    y0 := System(Initial(definitions, 10, 1, NOW), []);
    RaisedOnce(y0);
    var s := After(y0, RaiseOnce()).state;
    OneEntry(s, s.active[0], KeyOf(1));
    AlwaysReady(s, Pending(Send(1, Clear)));
    var t := Complete(s, Pending(Send(1, Clear)));
    CompleteKnows(s, Pending(Send(1, Clear)), 1);
    CompleteKnows(s, Pending(Send(1, Clear)), ACTIVE_ALARM_EXCEED_MAX_THRESHOLD);
    CompleteKnows(s, Pending(Send(1, Clear)), ALARM_HISTORY_EXCEED_MAX_THRESHOLD);
    hide Complete;
    AlwaysReady(t, Pending(Send(1, Raise)));
    ReraiseRestores(s, TheAlarm(1), 0, 0);
  }

  // ---- an alarm that stays hidden

  /** A raise beside the goroutines already there runs up to its sleep, or up to recording it. */
  lemma AcceptsBeside(s: State, others: seq<Task>, m: AlarmNotification) returns (run: seq<Action>)
    requires m.message.action.Raise? && m.SpecificProblem() in s.definitions
    requires Find(s.active, m.Key()) < 0 && !ActiveLimitHit(s)
    ensures var n := AcceptedAlarm(s, m);
            && Possible(System(s, others), run)
            && After(System(s, others), run)
               == System(Allocate(s, n).(active := s.active + [n]),
                         others + [if n.definition.raiseDelay > 0 then RaiseWaiting(n) else RaisePublishing(n)])
  {
    hide Find;
    Accepts(s, m);
    hide Dispatch, Safe;
    var y, last := System(s, others + [Pending(m)]), Schedule(|others|);
    assert Remove(others + [Pending(m)], |others|) == others;
    RunsOn(y, last, []);
    RunsOn(System(s, others), Arrive(m), [last] + []);
    run := [Arrive(m)] + ([last] + []);
  }

  lemma PublishesLast(s: State, others: seq<Task>, m: AlarmNotification)
    requires !HistoryLimitHit(s)
    ensures var y, last := System(s, others + [RaisePublishing(m)]), Schedule(|others|);
            && Enabled(y, last)
            && Step(y, last) == System(WriteAlarmInfo(s.(history := s.history + [m.WithRaiseDelay(0)])), others)
  {
    hide Find;
    assert Remove(others + [RaisePublishing(m)], |others|) == others;
  }

  /**
   Alarm 1 sleeps for its RaiseDelay while the raise of alarm 2 writes the file;
   then the process restarts. Alarm 1 is hidden and no raise sleeps for it; to
   raise it again does nothing, because it is a duplicate.
   */
  lemma RestartHides() returns (y0: System, run: seq<Action>)
    ensures Started(y0) && Possible(y0, run)
    ensures var y := After(y0, run);
            && Hidden(y.state.active, KeyOf(1)) && y.tasks == []
            && Safe(y.state, Pending(Send(1, Raise)))
            && Dispatch(y.state, Pending(Send(1, Raise))) == Outcome(y.state, None)
  {
    hide Find, Step, Enabled;
    var definitions := map[1 := Def(1, 5, 0, 0), 2 := Def(2, 0, 0, 0)];
    var s0, one, two := Initial(definitions, 10, 10, NOW), Send(1, Raise), Send(2, Raise);
    y0 := System(s0, []);
    var n := AcceptedAlarm(s0, one);
    var first := AcceptsBeside(s0, [], one);
    var s1 := Allocate(s0, n).(active := [n]);
    assert After(y0, first) == System(s1, [RaiseWaiting(n)]);
    assert n.Key() == KeyOf(1) && two.Key() == KeyOf(2);
    var second := AcceptsBeside(s1, [RaiseWaiting(n)], two);
    RunsCompose(y0, first, second);
    var y2 := After(y0, first + second);
    var m := y2.tasks[1].m;
    PublishesLast(y2.state, [RaiseWaiting(n)], m);
    var y3 := Step(y2, Schedule(1));
    assert y3.state.file.Some? && y3.state.file.value.active == [n] + [m];
    Crashes(y3, definitions);
    RunsOn(y3, Crash(definitions), []);
    RunsOn(y2, Schedule(1), [Crash(definitions)] + []);
    RunsCompose(y0, first + second, [Schedule(1)] + ([Crash(definitions)] + []));
    run := first + second + ([Schedule(1)] + ([Crash(definitions)] + []));
    var s := After(y0, run).state;
    FirstMatch(s.active, KeyOf(1), 0);
    assert s.active[0] == n && IsHidden(n, KeyOf(1));
  }

  lemma Crashes(y: System, definitions: map<int, AlarmDefinition>)
    ensures Enabled(y, Crash(definitions))
    ensures Step(y, Crash(definitions)) == System(Restart(y.state, definitions), [])
  {
  }
}
