/**
 The step system: any number of goroutines inside ProcessAlarm, scheduled in
 any order, together with TTL expiry, changes of definitions and limits, the
 passing of time and restarts.
 */
module Protocol {
  import opened AlarmTypes
  import opened Counting
  import opened AlarmTable

  datatype System = System(state: State, tasks: seq<Task>)

  datatype Action =
    | Arrive(m: AlarmNotification)   // ProcessAlarm is called
    | Schedule(i: nat)               // goroutine i runs its next section; a delay may end at any time
    | Expire(n: AlarmNotification, idx: nat) // the TTL timer examines n, which it has read from slot idx
    | Define(d: AlarmDefinition)
    | Undefine(sp: int)
    | SetLimits(maxActive: int, maxHistory: int)
    | Tick(clock: int)
    | Crash(definitions: map<int, AlarmDefinition>) // the process restarts with these definitions

  /**
   The action can happen here without a nil dereference and, in the TTL timer,
   without an index past the list. The timer ranges over the array the list
   had when its tick began. By the time it comes to slot idx other goroutines
   may have moved the list on, so that n need not be the entry at idx, nor in
   the list at all.
   */
  predicate Enabled(y: System, a: Action) {
    match a
    case Schedule(i) => i < |y.tasks| && Safe(y.state, y.tasks[i])
    case Expire(n, idx) =>
      Expired(y.state.definitions, y.state.clock, n) ==> ClearReady(y.state, ExpiryMessage(y.state, n), idx)
    case _ => true
  }

  function Continue(tasks: seq<Task>, next: Option<Task>): seq<Task> {
    match next
    case None => tasks
    case Some(t) => tasks + [t]
  }

  function Step(y: System, a: Action): System
    requires Enabled(y, a)
  {
    match a
    case Arrive(m) => y.(tasks := y.tasks + [Pending(m)])
    case Schedule(i) =>
      var o := Dispatch(y.state, y.tasks[i]);
      System(o.state, Continue(Remove(y.tasks, i), o.next))
    case Expire(n, idx) =>
      if !Expired(y.state.definitions, y.state.clock, n) then y
      else
        var o := BeginClear(y.state, ExpiryMessage(y.state, n), idx);
        System(o.state, Continue(y.tasks, o.next))
    case Define(d) =>
      if d.alarmId in y.state.definitions then y
      else y.(state := y.state.(definitions := y.state.definitions[d.alarmId := d]))
    case Undefine(sp) => y.(state := y.state.(definitions := y.state.definitions - {sp}))
    case SetLimits(maxActive, maxHistory) =>
      y.(state := y.state.(maxActive := maxActive, maxHistory := maxHistory))
    case Tick(clock) => y.(state := y.state.(clock := clock))
    case Crash(definitions) => System(Restart(y.state, definitions), [])
  }

  /** The actions happen one after the other, each of them enabled. */
  predicate Possible(y: System, run: seq<Action>)
    decreases |run|
  {
    run == [] || (Enabled(y, run[0]) && Possible(Step(y, run[0]), run[1..]))
  }

  function After(y: System, run: seq<Action>): System
    requires Possible(y, run)
    decreases |run|
  {
    if run == [] then y else After(Step(y, run[0]), run[1..])
  }

  lemma {:induction false} RunsCompose(y: System, first: seq<Action>, second: seq<Action>)
    requires Possible(y, first) && Possible(After(y, first), second)
    ensures Possible(y, first + second)
    ensures After(y, first + second) == After(After(y, first), second)
    decreases |first|
  {
    hide Step, Enabled;
    if first == [] {
      assert first + second == second;
    } else {
      RunsCompose(Step(y, first[0]), first[1..], second);
      assert (first + second)[1..] == first[1..] + second;
    }
  }

  predicate NoCrash(run: seq<Action>) {
    forall a :: a in run ==> !a.Crash?
  }

  /** A TTL clear that takes effect at once, and so takes the entry that is at its index now. */
  predicate Strikes(y: System, a: Action) {
    && a.Expire? && a.idx < |y.state.active|
    && Expired(y.state.definitions, y.state.clock, a.n)
    && y.state.definitions[a.n.SpecificProblem()].clearDelay <= 0
  }

  /** It strikes an entry of another identity than the one it examined. */
  predicate Misses(y: System, a: Action) {
    Strikes(y, a) && y.state.active[a.idx].Key() != a.n.Key()
  }

  /** No TTL clear of the run misses. */
  predicate Paired(y: System, run: seq<Action>)
    requires Possible(y, run)
    decreases |run|
  {
    run == [] || (!Misses(y, run[0]) && Paired(Step(y, run[0]), run[1..]))
  }

  /** A manager that has just been created. */
  predicate Started(y: System) {
    && y.tasks == []
    && y.state == Initial(y.state.definitions, y.state.maxActive, y.state.maxHistory, y.state.clock)
  }

  /** Goroutines that raise carry a RAISE, goroutines that clear a CLEAR. */
  predicate Formed(t: Task) {
    match t
    case Pending(_) => true
    case RaiseWaiting(m) => m.message.action.Raise?
    case RaisePublishing(m) => m.message.action.Raise?
    case ClearWaiting(m) => m.message.action.Clear?
  }

  predicate RaiseInFlight(t: Task) { t.RaiseWaiting? || t.RaisePublishing? }

  // ---- what is counted: entries, history records, goroutines and events

  ghost function Entry(q: AlarmTag -> bool): AlarmNotification -> bool { (n: AlarmNotification) => q(n.Tag()) }

  ghost function RaiseRecord(q: AlarmTag -> bool): AlarmNotification -> bool {
    (n: AlarmNotification) => n.message.action.Raise? && q(n.Tag())
  }

  ghost function ClearRecord(q: AlarmTag -> bool): AlarmNotification -> bool {
    (n: AlarmNotification) => n.message.action.Clear? && q(n.Tag())
  }

  ghost function Flying(q: AlarmTag -> bool): Task -> bool { (t: Task) => RaiseInFlight(t) && q(t.m.Tag()) }

  ghost function Issue(q: AlarmTag -> bool): Event -> bool { (e: Event) => (e.Accepted? || e.Generated?) && q(e.tag) }

  ghost function Replacement(q: AlarmTag -> bool): Event -> bool { (e: Event) => e.Replaced? && q(e.tag) }

  ghost function Loss(q: AlarmTag -> bool): Event -> bool { (e: Event) => e.Dropped? && q(e.tag) }

  ghost function HasKey(k: Identity): AlarmTag -> bool { (t: AlarmTag) => t.key == k }

  ghost function HasId(id: int): AlarmTag -> bool { (t: AlarmTag) => t.id == id }
}
