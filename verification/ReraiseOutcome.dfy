/**
 Reraise: a CLEAR and then a RAISE of the same alarm, delivered in order to a
 manager with no other traffic.
 */
module ReraiseOutcome {
  import opened AlarmTypes
  import opened Counting
  import opened AlarmTable
  import opened Protocol
  import opened Uniqueness
  import opened Serial
  import opened LastMessage

  function Message(a: Alarm, action: AlarmAction, alarmTime: int): AlarmNotification {
    AlarmNotification(AlarmMessage(a, action, alarmTime), NO_DEFINITION)
  }

  // ---- is the alarm active afterwards? Any delays, any interleaving of the two goroutines.

  predicate OnlySchedules(run: seq<Action>) {
    forall a :: a in run ==> a.Schedule?
  }

  predicate AllBegun(tasks: seq<Task>) {
    forall t :: t in tasks ==> !t.Pending?
  }

  lemma ContinueBegun(y: System, i: nat)
    requires Enabled(y, Schedule(i)) && AllBegun(y.tasks)
    ensures AllBegun(Step(y, Schedule(i)).tasks)
  {
    hide Find, Accept;
    assert forall t :: t in Remove(y.tasks, i) ==> t in y.tasks;
    var next := Dispatch(y.state, y.tasks[i]).next;
    assert next.Some? ==> !next.value.Pending?;
  }

  lemma DrainStep(y: System, i: nat, k: Identity)
    requires Enabled(y, Schedule(i)) && AllBegun(y.tasks) && Entries(y.state, k) <= 1 && !IsThreshold(k)
    ensures var z := Step(y, Schedule(i));
            && Entries(z.state, k) <= 1
            && (Entries(z.state, k) == 0 || Entries(z.state, k) == Entries(y.state, k))
            && if Clearing(k)(y.tasks[i]) then Entries(z.state, k) == 0 && Count(y.tasks, Clearing(k)) >= 1
               else Entries(z.state, k) == Entries(y.state, k)
                    && Count(z.tasks, Clearing(k)) == Count(y.tasks, Clearing(k))
  {
    hide IsThreshold, Count, Find, Dispatch, Entries;
    var t, o := y.tasks[i], Dispatch(y.state, y.tasks[i]);
    assert t in y.tasks;
    DispatchEntries(y.state, t, k);
    CountRemove(y.tasks, i, Clearing(k));
    BegunNext(y.state, t);
    if o.next.Some? { CountSnoc(Remove(y.tasks, i), o.next.value, Clearing(k)); }
  }

  lemma BegunNext(s: State, t: Task)
    requires Safe(s, t) && !t.Pending?
    ensures var o := Dispatch(s, t); o.next.Some? ==> o.next.value.RaisePublishing?
  {
    hide Find;
  }

  /** With nothing new arriving, k ends up gone exactly if a delayed clear of it was in flight, or it was gone. */
  lemma {:induction false} Drain(y: System, run: seq<Action>, k: Identity)
    requires Possible(y, run) && OnlySchedules(run) && AllBegun(y.tasks)
    requires Entries(y.state, k) <= 1 && !IsThreshold(k) && After(y, run).tasks == []
    ensures Entries(After(y, run).state, k) == if Count(y.tasks, Clearing(k)) >= 1 then 0 else Entries(y.state, k)
    decreases |run|
  {
    hide IsThreshold, Step, Enabled, Entries;
    if run != [] {
      assert run[0] in run && forall a :: a in run[1..] ==> a in run;
      ContinueBegun(y, run[0].i);
      DrainStep(y, run[0].i, k);
      Drain(Step(y, run[0]), run[1..], k);
    }
  }

  predicate Deliverable(s: State, a: Alarm, t1: int, t2: int) {
    var c, r := Pending(Message(a, Clear, t1)), Pending(Message(a, Raise, t2));
    Safe(s, c) && Safe(Dispatch(s, c).state, r)
  }

  /** Both messages have been delivered, in order: each has run up to its first sleep or its end. */
  function Delivered(s: State, a: Alarm, t1: int, t2: int): System
    requires Deliverable(s, a, t1, t2)
  {
    var c := Dispatch(s, Pending(Message(a, Clear, t1)));
    var r := Dispatch(c.state, Pending(Message(a, Raise, t2)));
    System(r.state, Continue(Continue([], c.next), r.next))
  }

  lemma DeliveredEntries(s: State, a: Alarm, t1: int, t2: int)
    requires Deliverable(s, a, t1, t2) && a.specificProblem in s.definitions
    requires Entries(s, IdentityOf(a)) <= 1 && !IsThreshold(IdentityOf(a))
    ensures var k, y := IdentityOf(a), Delivered(s, a, t1, t2);
            && AllBegun(y.tasks) && Entries(y.state, k) == 1
            && (Count(y.tasks, Clearing(k)) >= 1 <==> Entries(s, k) == 1 && s.definitions[k.sp].clearDelay > 0)
  {
    hide IsThreshold, Find, Accept, Count, Entries, Dispatch, Safe;
    var k := IdentityOf(a);
    var c, r := Message(a, Clear, t1), Message(a, Raise, t2);
    assert c.Key() == k && r.Key() == k;
    var s1 := Dispatch(s, Pending(c)).state;
    var sleeping := Continue([], Dispatch(s, Pending(c)).next);
    DispatchEntries(s, Pending(c), k);
    DispatchKnows(s, Pending(c), k.sp);
    DispatchEntries(s1, Pending(r), k);
    RaiseNext(s1, r);
    assert sleeping == [] || sleeping == [ClearWaiting(c)];
    CountClearing(sleeping, Dispatch(s1, Pending(r)).next, k);
  }

  lemma RaiseNext(s: State, m: AlarmNotification)
    requires Safe(s, Pending(m)) && m.message.action.Raise?
    ensures var o := Dispatch(s, Pending(m)); o.next.Some? ==> RaiseInFlight(o.next.value)
  {
    hide Find;
  }

  lemma CountClearing(tasks: seq<Task>, next: Option<Task>, k: Identity)
    requires next.Some? ==> RaiseInFlight(next.value)
    requires |tasks| <= 1 && forall t :: t in tasks ==> Clearing(k)(t)
    ensures Count(Continue(tasks, next), Clearing(k)) == |tasks|
  {
    CountZero([], Clearing(k));
    if next.Some? { CountSnoc(tasks, next.value, Clearing(k)); }
  }

  // ---- a client's messages, whichever of them arrive

  /** The messages can be delivered one after the other, each running up to its first sleep or its end. */
  predicate Receives(y: System, messages: seq<AlarmMessage>)
    decreases |messages|
  {
    messages == []
    || (var t := Pending(AlarmNotification(messages[0], NO_DEFINITION));
        Safe(y.state, t) && Receives(Received(y, t), messages[1..]))
  }

  function Received(y: System, t: Task): System
    requires Safe(y.state, t)
  {
    var o := Dispatch(y.state, t);
    System(o.state, Continue(y.tasks, o.next))
  }

  function Inbox(y: System, messages: seq<AlarmMessage>): System
    requires Receives(y, messages)
    decreases |messages|
  {
    if messages == [] then y
    else Inbox(Received(y, Pending(AlarmNotification(messages[0], NO_DEFINITION))), messages[1..])
  }

  /** The messages have come in and been taken up in the step system, and nothing else has happened. */
  lemma {:induction false} InboxIsRun(y: System, messages: seq<AlarmMessage>) returns (run: seq<Action>)
    requires Receives(y, messages)
    ensures Possible(y, run) && After(y, run) == Inbox(y, messages)
    ensures |Outer(run)| == |messages|
    ensures forall i :: 0 <= i < |messages| ==>
              Outer(run)[i] == Arrive(AlarmNotification(messages[i], AlarmDefinition(0, "", "", "", 0, 0, 0)))
    decreases |messages|
  {
    run := [];
    if messages != [] {
      hide Safe, Dispatch;
      var m := AlarmNotification(messages[0], NO_DEFINITION);
      var first, last := [Arrive(m)], [Schedule(|y.tasks|)];
      var y1, y2 := Step(y, Arrive(m)), Received(y, Pending(m));
      assert y1.tasks[|y.tasks|] == Pending(m) && Remove(y1.tasks, |y.tasks|) == y.tasks;
      assert Enabled(y1, last[0]) && Step(y1, last[0]) == y2;
      var rest := InboxIsRun(y2, messages[1..]);
      hide Step, Enabled;
      assert first[1..] == [] && last[1..] == [];
      RunsCompose(y1, last, rest);
      RunsCompose(y, first, last + rest);
      OuterJoins(last, rest);
      OuterJoins(first, last + rest);
      run := first + (last + rest);
    }
  }

  /** What a reraise sends: nothing more once sending has failed. */
  function Reraisal(a: Alarm, t1: int, t2: int, clearSent: bool, raiseSent: bool): seq<AlarmMessage> {
    if !clearSent then []
    else [Message(a, Clear, t1).message] + (if raiseSent then [Message(a, Raise, t2).message] else [])
  }

  lemma ClearedEntries(s: State, a: Alarm, t1: int)
    requires Safe(s, Pending(Message(a, Clear, t1))) && a.specificProblem in s.definitions
    requires Entries(s, IdentityOf(a)) <= 1 && !IsThreshold(IdentityOf(a))
    ensures var k, y := IdentityOf(a), Received(System(s, []), Pending(Message(a, Clear, t1)));
            && AllBegun(y.tasks) && Entries(y.state, k) <= 1
            && (Count(y.tasks, Clearing(k)) >= 1 || Entries(y.state, k) == 0)
  {
    hide IsThreshold, Find, Accept, Count, Entries, Dispatch, Safe;
    var k, c := IdentityOf(a), Message(a, Clear, t1);
    assert c.Key() == k;
    DispatchEntries(s, Pending(c), k);
    var next := Dispatch(s, Pending(c)).next;
    if next.Some? {
      CountZero([], Clearing(k));
      CountSnoc([], next.value, Clearing(k));
      assert [] + [next.value] == [next.value];
    }
  }

  /**
   The client's reraise and the manager together, with no other traffic and
   whatever is lost on the way: if nothing was sent the alarm is as it was; if
   only the CLEAR was, the alarm is gone; if both were, it is active unless its
   own delayed clear took it away.
   */
  lemma ReraiseEnds(y0: System, before: seq<Action>, a: Alarm, t1: int, t2: int, clearSent: bool, raiseSent: bool,
                    run: seq<Action>)
    requires Started(y0) && Possible(y0, before)
    requires var s, sent := After(y0, before).state, Reraisal(a, t1, t2, clearSent, raiseSent);
             && Receives(System(s, []), sent)
             && Possible(Inbox(System(s, []), sent), run) && OnlySchedules(run)
             && After(Inbox(System(s, []), sent), run).tasks == []
    requires a.specificProblem in After(y0, before).state.definitions && !IsThreshold(IdentityOf(a))
    ensures var k, s, sent := IdentityOf(a), After(y0, before).state, Reraisal(a, t1, t2, clearSent, raiseSent);
            var end := After(Inbox(System(s, []), sent), run).state;
            Entries(end, k) == if !clearSent then Entries(s, k)
                               else if !raiseSent then 0
                               else if Entries(s, k) == 1 && s.definitions[k.sp].clearDelay > 0 then 0 else 1
  {
    var k, s, sent := IdentityOf(a), After(y0, before).state, Reraisal(a, t1, t2, clearSent, raiseSent);
    RunSole(y0, before, k);
    var c := Pending(Message(a, Clear, t1));
    if !clearSent {
      CountZero([], Clearing(k));
      hide IsThreshold, Entries, Count, Step;
      Drain(System(s, []), run, k);
    } else {
      assert sent[0] == Message(a, Clear, t1).message;
      if !raiseSent {
        assert sent[1..] == [];
        hide IsThreshold, Entries, Count, Step, Possible, After, Dispatch;
        ClearedEntries(s, a, t1);
        Drain(Received(System(s, []), c), run, k);
      } else {
        InboxDelivers(s, a, t1, t2);
        hide IsThreshold, Entries, Count, Step, Possible, After, Dispatch;
        ReraiseSurvives(y0, before, a, t1, t2, run);
      }
    }
  }

  lemma InboxDelivers(s: State, a: Alarm, t1: int, t2: int)
    requires Receives(System(s, []), Reraisal(a, t1, t2, true, true))
    ensures Deliverable(s, a, t1, t2)
    ensures Inbox(System(s, []), Reraisal(a, t1, t2, true, true)) == Delivered(s, a, t1, t2)
  {
    hide Dispatch, Safe;
    var sent := Reraisal(a, t1, t2, true, true);
    var c, r := Pending(Message(a, Clear, t1)), Pending(Message(a, Raise, t2));
    var y := Received(System(s, []), c);
    assert sent[1..] == [r.m.message] && sent[1..][1..] == [];
    assert Receives(y, sent[1..]) && Safe(y.state, r);
    assert Inbox(y, sent[1..]) == Inbox(Received(y, r), []);
  }

  /**
   After a reraise of an alarm with a known SP, and after the goroutines of its
   two messages have ended, in whatever order their delays let them, the alarm
   is active if and only if it was not active before or has no ClearDelay:
   otherwise its own delayed clear takes the fresh raise away.
   */
  lemma ReraiseSurvives(y0: System, before: seq<Action>, a: Alarm, t1: int, t2: int, run: seq<Action>)
    requires Started(y0) && Possible(y0, before)
    requires Deliverable(After(y0, before).state, a, t1, t2)
    requires a.specificProblem in After(y0, before).state.definitions && !IsThreshold(IdentityOf(a))
    requires Possible(Delivered(After(y0, before).state, a, t1, t2), run) && OnlySchedules(run)
    requires After(Delivered(After(y0, before).state, a, t1, t2), run).tasks == []
    ensures var k, s := IdentityOf(a), After(y0, before).state;
            var end := After(Delivered(s, a, t1, t2), run).state;
            Entries(end, k) == if Entries(s, k) == 1 && s.definitions[k.sp].clearDelay > 0 then 0 else 1
  {
    var k, s := IdentityOf(a), After(y0, before).state;
    RunSole(y0, before, k);
    hide IsThreshold, Possible, After, Step, Entries, Count, Deliverable, Delivered;
    DeliveredEntries(s, a, t1, t2);
    Drain(Delivered(s, a, t1, t2), run, k);
  }
}
