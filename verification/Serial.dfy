/**
 Serial runs: every message is handled to its end, sleeping included, before
 the next one is. In such runs the active list is a plain map in which the
 last message about an identity wins, and the history is a complete log of it.
 */
module Serial {
  import opened AlarmTypes
  import opened Counting
  import opened AlarmTable
  import opened Protocol

  datatype Item =
    | Deliver(m: AlarmNotification)
    | Timeout(idx: nat)             // the TTL timer examines this entry
    | Limits(maxActive: int, maxHistory: int)
    | Time(clock: int)

  function Rank(t: Task): nat {
    match t
    case Pending(_) => 3
    case RaiseWaiting(_) => 2
    case _ => 1
  }

  /** No section on the way of t to its end meets a missing definition. */
  predicate Ready(s: State, t: Task)
    decreases Rank(t)
  {
    Safe(s, t) && var o := Dispatch(s, t); o.next.Some? ==> Ready(o.state, o.next.value)
  }

  /** Run t to its end with nothing in between. */
  function Complete(s: State, t: Task): State
    requires Ready(s, t)
    decreases Rank(t)
  {
    var o := Dispatch(s, t);
    if o.next.None? then o.state else Complete(o.state, o.next.value)
  }

  predicate Handles(s: State, item: Item) {
    match item
    case Deliver(m) => Ready(s, Pending(m))
    case Timeout(idx) =>
      && idx < |s.active|
      && var m := ExpiryMessage(s, s.active[idx]);
      && (Expired(s.definitions, s.clock, s.active[idx]) ==>
            if s.definitions[m.SpecificProblem()].clearDelay > 0 then Ready(s, ClearWaiting(m))
            else ClearReady(s, m, idx))
    case _ => true
  }

  function Handle(s: State, item: Item): State
    requires Handles(s, item)
  {
    match item
    case Deliver(m) => Complete(s, Pending(m))
    case Timeout(idx) =>
      var m := ExpiryMessage(s, s.active[idx]);
      if !Expired(s.definitions, s.clock, s.active[idx]) then s
      else if s.definitions[m.SpecificProblem()].clearDelay > 0 then Complete(s, ClearWaiting(m))
      else FinishClear(s, m, idx)
    case Limits(maxActive, maxHistory) => s.(maxActive := maxActive, maxHistory := maxHistory)
    case Time(clock) => s.(clock := clock)
  }

  predicate HandlesAll(s: State, items: seq<Item>)
    decreases |items|
  {
    items == [] || (Handles(s, items[0]) && HandlesAll(Handle(s, items[0]), items[1..]))
  }

  function HandleAll(s: State, items: seq<Item>): State
    requires HandlesAll(s, items)
    decreases |items|
  {
    if items == [] then s else HandleAll(Handle(s, items[0]), items[1..])
  }

  // ---- a serial run is one of the runs of the step system

  function Drive(s: State, t: Task): seq<Action>
    requires Ready(s, t)
    decreases Rank(t)
  {
    var o := Dispatch(s, t);
    [Schedule(0)] + (if o.next.None? then [] else Drive(o.state, o.next.value))
  }

  function Script(s: State, item: Item): seq<Action>
    requires Handles(s, item)
  {
    match item
    case Deliver(m) => [Arrive(m)] + Drive(s, Pending(m))
    case Timeout(idx) =>
      var m := ExpiryMessage(s, s.active[idx]);
      [Expire(s.active[idx], idx)]
      + (if Expired(s.definitions, s.clock, s.active[idx]) && s.definitions[m.SpecificProblem()].clearDelay > 0
         then Drive(s, ClearWaiting(m)) else [])
    case Limits(maxActive, maxHistory) => [SetLimits(maxActive, maxHistory)]
    case Time(clock) => [Tick(clock)]
  }

  lemma RankFalls(s: State, t: Task)
    requires Safe(s, t)
    ensures var o := Dispatch(s, t); o.next.Some? ==> Rank(o.next.value) < Rank(t)
  {
    hide Find;
  }

  lemma {:induction false} DriveRuns(s: State, t: Task)
    requires Ready(s, t)
    ensures Possible(System(s, [t]), Drive(s, t))
    ensures After(System(s, [t]), Drive(s, t)) == System(Complete(s, t), [])
    decreases Rank(t)
  {
    RankFalls(s, t);
    hide Safe, Dispatch;
    var o, y, run := Dispatch(s, t), System(s, [t]), Drive(s, t);
    assert run[0] == Schedule(0) && Remove([t], 0) == [];
    if o.next.None? {
      assert run[1..] == [];
    } else {
      DriveRuns(o.state, o.next.value);
      assert run[1..] == Drive(o.state, o.next.value);
      assert Step(y, run[0]) == System(o.state, [o.next.value]);
    }
  }

  lemma HandleRuns(s: State, item: Item)
    requires Handles(s, item)
    ensures Possible(System(s, []), Script(s, item))
    ensures After(System(s, []), Script(s, item)) == System(Handle(s, item), [])
  {
    hide Safe, Dispatch, FinishClear;
    var y, run := System(s, []), Script(s, item);
    match item
    case Deliver(m) =>
      DriveRuns(s, Pending(m));
      assert run[1..] == Drive(s, Pending(m));
    case Timeout(idx) =>
      var m := ExpiryMessage(s, s.active[idx]);
      if Expired(s.definitions, s.clock, s.active[idx]) && s.definitions[m.SpecificProblem()].clearDelay > 0 {
        DriveRuns(s, ClearWaiting(m));
        assert run[1..] == Drive(s, ClearWaiting(m));
        assert Step(y, run[0]) == System(s, [ClearWaiting(m)]);
      } else {
        assert run[1..] == [];
      }
    case _ => assert run[1..] == [];
  }

  /** The actions of a run that do not just let a goroutine go on. */
  function Outer(run: seq<Action>): seq<Action> {
    if run == [] then [] else (if run[0].Schedule? then [] else [run[0]]) + Outer(run[1..])
  }

  lemma {:induction false} OuterJoins(first: seq<Action>, second: seq<Action>)
    ensures Outer(first + second) == Outer(first) + Outer(second)
  {
    if first == [] {
      assert first + second == second;
    } else {
      assert (first + second)[1..] == first[1..] + second;
      OuterJoins(first[1..], second);
    }
  }

  /** a is the action by which item happens. */
  predicate StandsFor(a: Action, item: Item) {
    match item
    case Deliver(m) => a == Arrive(m)
    case Timeout(idx) => a.Expire? && a.idx == idx
    case Limits(maxActive, maxHistory) => a == SetLimits(maxActive, maxHistory)
    case Time(clock) => a == Tick(clock)
  }

  lemma {:induction false} DriveIsInner(s: State, t: Task)
    requires Ready(s, t)
    ensures Outer(Drive(s, t)) == [] && forall a :: a in Drive(s, t) ==> a.Schedule?
    decreases Rank(t)
  {
    RankFalls(s, t);
    hide Safe, Dispatch;
    var o := Dispatch(s, t);
    if o.next.Some? {
      DriveIsInner(o.state, o.next.value);
      OuterJoins([Schedule(0)], Drive(o.state, o.next.value));
    }
  }

  lemma ScriptIsOne(s: State, item: Item)
    requires Handles(s, item)
    ensures var run := Script(s, item);
            && |run| > 0 && StandsFor(run[0], item) && Outer(run) == [run[0]]
            && (forall a :: a in run[1..] ==> a.Schedule?)
            && (item.Timeout? ==> run[0] == Expire(s.active[item.idx], item.idx))
  {
    hide Safe, Dispatch, Drive, Expired;
    var run := Script(s, item);
    if item.Deliver? { DriveIsInner(s, Pending(item.m)); }
    if item.Timeout? && |run| > 1 { DriveIsInner(s, ClearWaiting(ExpiryMessage(s, s.active[item.idx]))); }
    OuterJoins([run[0]], run[1..]);
    assert [run[0]] + run[1..] == run && Outer(run[1..]) == [] by { OnlyInner(run[1..]); }
  }

  lemma {:induction false} OnlyInner(run: seq<Action>)
    requires forall a :: a in run ==> a.Schedule?
    ensures Outer(run) == []
  {
    if run != [] {
      assert run[0] in run && forall a :: a in run[1..] ==> a in run;
      OnlyInner(run[1..]);
    }
  }

  lemma {:induction false} SchedulesArePaired(y: System, run: seq<Action>)
    requires Possible(y, run) && forall a :: a in run ==> a.Schedule?
    ensures Paired(y, run)
    decreases |run|
  {
    hide Step, Enabled;
    if run != [] {
      assert run[0] in run && forall a :: a in run[1..] ==> a in run;
      SchedulesArePaired(Step(y, run[0]), run[1..]);
    }
  }

  lemma {:induction false} PairedJoins(y: System, first: seq<Action>, second: seq<Action>)
    requires Possible(y, first) && Possible(After(y, first), second)
    requires Paired(y, first) && Paired(After(y, first), second)
    ensures Possible(y, first + second) && Paired(y, first + second)
    decreases |first|
  {
    RunsCompose(y, first, second);
    hide Step, Enabled, Misses;
    if first == [] {
      assert first + second == second;
    } else {
      PairedJoins(Step(y, first[0]), first[1..], second);
      assert (first + second)[1..] == first[1..] + second;
    }
  }

  lemma ScriptIsPaired(s: State, item: Item)
    requires Handles(s, item)
    ensures Possible(System(s, []), Script(s, item)) && Paired(System(s, []), Script(s, item))
  {
    HandleRuns(s, item);
    ScriptIsOne(s, item);
    hide Step, Enabled, Script, Handles, Safe, Dispatch;
    var run := Script(s, item);
    SchedulesArePaired(Step(System(s, []), run[0]), run[1..]);
  }

  /**
   So everything proved of all interleavings holds of serial runs too: the run
   has one action for each item, in order, its TTL clears strike the entries
   they examine, and every goroutine is run to its end.
   */
  lemma {:induction false} SerialIsRun(s: State, items: seq<Item>) returns (run: seq<Action>)
    requires HandlesAll(s, items)
    ensures Possible(System(s, []), run) && Paired(System(s, []), run)
    ensures After(System(s, []), run) == System(HandleAll(s, items), [])
    ensures |Outer(run)| == |items| && forall i :: 0 <= i < |items| ==> StandsFor(Outer(run)[i], items[i])
    decreases |items|
  {
    if items == [] {
      run := [];
    } else {
      hide Handle, Handles, Script, Step, Enabled, StandsFor, Misses;
      HandleRuns(s, items[0]);
      ScriptIsOne(s, items[0]);
      ScriptIsPaired(s, items[0]);
      var rest := SerialIsRun(Handle(s, items[0]), items[1..]);
      RunsCompose(System(s, []), Script(s, items[0]), rest);
      PairedJoins(System(s, []), Script(s, items[0]), rest);
      OuterJoins(Script(s, items[0]), rest);
      run := Script(s, items[0]) + rest;
    }
  }
}
