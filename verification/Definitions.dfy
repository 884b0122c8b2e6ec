/**
 The table of alarm definitions: a map to objects, which the threshold alarms
 stamp in place with the ids they allocate.
 */
module Definitions {
  import opened AlarmTypes
  import opened AlarmTable
  import opened Protocol

  type Table = map<int, AlarmDefinition>

  // ---- the table as a value

  /** A definition is entered only if its id has none yet. */
  function DefineAll(t: Table, batch: seq<AlarmDefinition>): Table {
    if batch == [] then t
    else
      var d := batch[|batch| - 1];
      var front := DefineAll(t, batch[..|batch| - 1]);
      if d.alarmId in front then front else front[d.alarmId := d]
  }

  predicate Stamped(sp: int) {
    sp == ACTIVE_ALARM_EXCEED_MAX_THRESHOLD || sp == ALARM_HISTORY_EXCEED_MAX_THRESHOLD
  }

  function Stamp(t: Table, sp: int, id: int): Table {
    if sp in t && Stamped(sp) then t[sp := t[sp].(alarmId := id)] else t
  }

  datatype Change = Set(batch: seq<AlarmDefinition>) | Delete(sp: int) | Threshold(sp: int, id: int)

  function Apply(t: Table, c: Change): Table {
    match c
    case Set(batch) => DefineAll(t, batch)
    case Delete(sp) => t - {sp}
    case Threshold(sp, id) => Stamp(t, sp, id)
  }

  function ApplyAll(t: Table, changes: seq<Change>): Table {
    if changes == [] then t else Apply(ApplyAll(t, changes[..|changes| - 1]), changes[|changes| - 1])
  }

  /** Every definition but the two stamped ones carries its own key. */
  predicate KeysMatch(t: Table) {
    forall k :: k in t && !Stamped(k) ==> t[k].alarmId == k
  }

  lemma {:induction false} DefineKeepsMatch(t: Table, batch: seq<AlarmDefinition>)
    ensures KeysMatch(t) ==> KeysMatch(DefineAll(t, batch))
    ensures forall k :: k in t ==> k in DefineAll(t, batch) && DefineAll(t, batch)[k] == t[k]
  {
    if batch != [] { DefineKeepsMatch(t, batch[..|batch| - 1]); }
  }

  /** A new key gets the first definition of the batch that has its id, and no key appears out of nothing. */
  lemma {:induction false} FirstInBatchWins(t: Table, batch: seq<AlarmDefinition>, k: int)
    requires k !in t
    ensures k !in DefineAll(t, batch) ==> forall d :: d in batch ==> d.alarmId != k
    ensures k in DefineAll(t, batch) ==>
              exists i :: 0 <= i < |batch| && DefineAll(t, batch)[k] == batch[i] && batch[i].alarmId == k
                          && forall j :: 0 <= j < i ==> batch[j].alarmId != k
  {
    if batch != [] {
      var front, d := batch[..|batch| - 1], batch[|batch| - 1];
      FirstInBatchWins(t, front, k);
      assert batch == front + [d];
      if k in DefineAll(t, front) {
        var i :| 0 <= i < |front| && DefineAll(t, front)[k] == front[i] && front[i].alarmId == k
                 && forall j :: 0 <= j < i ==> front[j].alarmId != k;
        assert batch[i] == front[i];
      } else if d.alarmId == k {
        assert batch[|front|] == d;
        assert forall j :: 0 <= j < |front| ==> front[j] in front;
      }
    }
  }

  /** Changes keep the keys matching; so after any sequence of them from an empty table the keys match. */
  lemma {:induction false} TableKeysMatch(t: Table, changes: seq<Change>)
    requires KeysMatch(t)
    ensures KeysMatch(ApplyAll(t, changes))
  {
    if changes != [] {
      var front := changes[..|changes| - 1];
      TableKeysMatch(t, front);
      match changes[|changes| - 1]
      case Set(batch) => DefineKeepsMatch(ApplyAll(t, front), batch);
      case _ =>
    }
  }

  /** A present definition stays as it is, whatever is set later, until it is deleted; only a stamp changes an id. */
  lemma {:induction false} FirstDefinitionWins(t: Table, changes: seq<Change>, k: int)
    requires k in t && Delete(k) !in changes
    ensures var r := ApplyAll(t, changes);
            && k in r
            && r[k].(alarmId := 0) == t[k].(alarmId := 0)
            && (!Stamped(k) ==> r[k] == t[k])
  {
    if changes != [] {
      var front, c := changes[..|changes| - 1], changes[|changes| - 1];
      assert changes == front + [c];
      FirstDefinitionWins(t, front, k);
      match c
      case Set(batch) => DefineKeepsMatch(ApplyAll(t, front), batch);
      case _ =>
    }
  }

  // ---- the table as the program keeps it

  class Definition {
    var alarmId: int
    var alarmText: string
    var eventType: string
    var operationInstructions: string
    var raiseDelay: int
    var clearDelay: int
    var timeToLive: int

    constructor (d: AlarmDefinition)
      ensures Value() == d
    {
      alarmId, alarmText, eventType := d.alarmId, d.alarmText, d.eventType;
      operationInstructions := d.operationInstructions;
      raiseDelay, clearDelay, timeToLive := d.raiseDelay, d.clearDelay, d.timeToLive;
    }

    function Value(): AlarmDefinition
      reads this
    {
      AlarmDefinition(alarmId, alarmText, eventType, operationInstructions, raiseDelay, clearDelay, timeToLive)
    }
  }

  class DefinitionTable {
    var entries: map<int, Definition>

    /** No two keys share an object, so that stamping one definition cannot show through another. */
    ghost predicate Valid()
      reads this
    {
      forall j, k :: j in entries && k in entries && j != k ==> entries[j] != entries[k]
    }

    ghost function View(): Table
      reads this, entries.Values
    {
      map k | k in entries :: entries[k].Value()
    }

    constructor ()
      ensures Valid() && View() == map[]
    {
      entries := map[];
    }

    method SetAlarmDefinition(batch: seq<AlarmDefinition>)
      requires Valid()
      modifies this
      ensures Valid() && View() == DefineAll(old(View()), batch)
      ensures fresh(entries.Values - old(entries.Values))
    {
      for i := 0 to |batch|
        modifies this
        invariant Valid() && fresh(entries.Values - old(entries.Values))
        invariant forall k :: k in entries ==> entries[k] in entries.Values
        invariant View() == DefineAll(old(View()), batch[..i])
      {
        assert batch[..i + 1][..i] == batch[..i];
        if batch[i].alarmId !in entries {
          var d := new Definition(batch[i]);
          assert d !in entries.Values;
          entries := entries[batch[i].alarmId := d];
        }
      }
      assert batch[..|batch|] == batch;
    }

    /** The path parameter, if it was a number; otherwise the request is answered with an error. */
    method DeleteAlarmDefinition(alarmId: Option<int>) returns (ok: bool)
      requires Valid()
      modifies this
      ensures Valid() && ok == alarmId.Some?
      ensures View() == if alarmId.Some? then old(View()) - {alarmId.value} else old(View())
    {
      match alarmId
      case None => ok := false;
      case Some(id) =>
        entries := entries - {id};
        ok := true;
    }

    /** What GenerateThresholdAlarm does to the definition it looked up: into the object itself, not into the map. */
    method StampDefinition(sp: int, id: int)
      requires Valid() && sp in entries && Stamped(sp)
      modifies entries[sp]
      ensures Valid() && View() == Stamp(old(View()), sp, id)
    {
      var alarmDef := entries[sp];
      alarmDef.alarmId := id;
      forall k | k in entries ensures View()[k] == Stamp(old(View()), sp, id)[k] {
        if k != sp { assert entries[k] != alarmDef; }
      }
    }
  }

  // ---- the table in the runs of the manager

  lemma GenerateStamps(s: State, sp: int, data: string, onClear: bool)
    requires sp in s.definitions && Stamped(sp)
    ensures GenerateThresholdAlarm(s, sp, data, onClear).definitions == Stamp(s.definitions, sp, s.uniqueAlarmId + 1)
  {
  }

  lemma ApplyOne(t: Table, c: Change)
    ensures ApplyAll(t, [c]) == Apply(t, c)
  {
    assert [c][..0] == [];
  }

  lemma {:induction false} ApplyOn(t: Table, first: seq<Change>, second: seq<Change>)
    ensures ApplyAll(t, first + second) == ApplyAll(ApplyAll(t, first), second)
  {
    if second == [] {
      assert first + second == first;
    } else {
      var front, c := second[..|second| - 1], second[|second| - 1];
      assert first + second == (first + front) + [c];
      assert ((first + front) + [c])[..|first + front|] == first + front;
      ApplyOn(t, first, front);
    }
  }

  /** The stamps of the threshold alarms that were generated, each with the id of its alarm. */
  function Stamps(events: seq<Event>): seq<Change> {
    if events == [] then []
    else
      var e := events[|events| - 1];
      Stamps(events[..|events| - 1]) + if e.Generated? then [Threshold(e.tag.key.sp, e.tag.id)] else []
  }

  lemma {:induction false} StampsJoin(first: seq<Event>, second: seq<Event>)
    ensures Stamps(first + second) == Stamps(first) + Stamps(second)
  {
    if second == [] {
      assert first + second == first;
    } else {
      var front, e := second[..|second| - 1], second[|second| - 1];
      assert (first + second)[..|first + second| - 1] == first + front;
      StampsJoin(first, front);
    }
  }

  /** From s to t the table has moved by the stamps of the threshold alarms generated in between, and no more. */
  predicate Tracked(s: State, t: State) {
    s.ledger <= t.ledger && t.definitions == ApplyAll(s.definitions, Stamps(t.ledger[|s.ledger|..]))
  }

  lemma TrackedTransitive(s: State, t: State, u: State)
    requires Tracked(s, t) && Tracked(t, u)
    ensures Tracked(s, u)
  {
    var first, second := t.ledger[|s.ledger|..], u.ledger[|t.ledger|..];
    assert u.ledger[|s.ledger|..] == first + second;
    StampsJoin(first, second);
    ApplyOn(s.definitions, Stamps(first), Stamps(second));
  }

  /** Without a definition touched, or a threshold alarm generated. */
  predicate Idle(s: State, t: State) {
    && t.definitions == s.definitions && s.ledger <= t.ledger
    && forall i :: |s.ledger| <= i < |t.ledger| ==> !t.ledger[i].Generated?
  }

  lemma IdleTracked(s: State, t: State)
    requires Idle(s, t)
    ensures Tracked(s, t)
  {
    NoStamps(t.ledger[|s.ledger|..]);
  }

  lemma {:induction false} NoStamps(events: seq<Event>)
    requires forall i :: 0 <= i < |events| ==> !events[i].Generated?
    ensures Stamps(events) == []
  {
    if events != [] { NoStamps(events[..|events| - 1]); }
  }

  lemma WarnTracked(s: State)
    ensures ActiveThresholdReady(s) ==> Tracked(s, WarnActive(s))
    ensures HistoryThresholdReady(s) ==> Tracked(s, WarnHistory(s)) && Tracked(s, WarnHistoryOnClear(s))
  {
    hide GenerateThresholdAlarm, Tracked;
    IdleTracked(s, s);
    if ActiveLimitHit(s) && ActiveThresholdReady(s) {
      GenerateTracked(s, ACTIVE_ALARM_EXCEED_MAX_THRESHOLD, "active", false, WarnActive(s));
    }
    if HistoryLimitHit(s) && HistoryThresholdReady(s) {
      GenerateTracked(s, ALARM_HISTORY_EXCEED_MAX_THRESHOLD, "history", false, WarnHistory(s));
      GenerateTracked(s, ALARM_HISTORY_EXCEED_MAX_THRESHOLD, "history", true, WarnHistoryOnClear(s));
    }
  }

  lemma GenerateTracked(s: State, sp: int, data: string, onClear: bool, t: State)
    requires sp in s.definitions && Stamped(sp)
    requires var g := GenerateThresholdAlarm(s, sp, data, onClear); t.definitions == g.definitions && t.ledger == g.ledger
    ensures Tracked(s, t)
  {
    GenerateStamps(s, sp, data, onClear);
    ApplyOne(s.definitions, Threshold(sp, s.uniqueAlarmId + 1));
    var events := t.ledger[|s.ledger|..];
    assert |events| == 1 && events[..0] == [];
    assert Stamps(events) == [Threshold(sp, s.uniqueAlarmId + 1)];
  }

  lemma ClearTracked(s: State, m: AlarmNotification, idx: nat)
    requires idx < |s.active| && m.SpecificProblem() in s.definitions
    requires HistoryThresholdReady(MoveToHistory(s, m, idx))
    ensures Tracked(s, FinishClear(s, m, idx))
  {
    hide Tracked, WarnHistoryOnClear;
    var s1 := MoveToHistory(s, m, idx);
    var s2 := WarnHistoryOnClear(s1);
    IdleTracked(s, s1);
    WarnTracked(s1);
    IdleTracked(s2, FinishClear(s, m, idx));
    TrackedTransitive(s, s1, s2);
    TrackedTransitive(s, s2, FinishClear(s, m, idx));
  }

  lemma AcceptTracked(s: State, m: AlarmNotification)
    requires m.SpecificProblem() in s.definitions && ActiveThresholdReady(s)
    ensures Tracked(s, Accept(s, m).state)
  {
    hide Tracked, WarnActive;
    var s1 := Allocate(s, AcceptedAlarm(s, m));
    var s2 := WarnActive(s1);
    IdleTracked(s, s1);
    WarnTracked(s1);
    IdleTracked(s2, Accept(s, m).state);
    TrackedTransitive(s, s1, s2);
    TrackedTransitive(s, s2, Accept(s, m).state);
  }

  lemma PublishTracked(s: State, m: AlarmNotification)
    requires HistoryThresholdReady(s)
    ensures Tracked(s, Publish(s, m))
  {
    hide Tracked, WarnHistory;
    WarnTracked(s);
    IdleTracked(WarnHistory(s), Publish(s, m));
    TrackedTransitive(s, WarnHistory(s), Publish(s, m));
  }

  lemma DispatchTracked(s: State, t: Task)
    requires Safe(s, t)
    ensures Tracked(s, Dispatch(s, t).state)
  {
    hide Find, Accept, FinishClear, Publish, Suppressed, Vacated, Tracked, HistoryThresholdReady, MoveToHistory;
    var m, idx, r := t.m, Find(s.active, t.m.Key()), Dispatch(s, t).state;
    IdleTracked(s, s);
    match t
    case Pending(_) =>
      if m.SpecificProblem() in s.definitions {
        if m.message.action.Raise? && !Suppressed(s, m) {
          VacatedDefinitions(s, m);
          VacatedTracked(s, m);
          AcceptTracked(Vacated(s, m), m);
          TrackedTransitive(s, Vacated(s, m), r);
        } else if m.message.action.Clear? && idx >= 0 && s.definitions[m.SpecificProblem()].clearDelay <= 0 {
          ClearTracked(s, m, idx);
        }
      }
    case RaiseWaiting(_) => IdleTracked(s, r);
    case RaisePublishing(_) => PublishTracked(s, m);
    case ClearWaiting(_) => if idx >= 0 { ClearTracked(s, m, idx); }
  }

  lemma VacatedTracked(s: State, m: AlarmNotification)
    ensures Tracked(s, Vacated(s, m))
  {
    hide Find, Tracked;
    IdleTracked(s, Vacated(s, m));
  }

  /** What an action does to the table: it defines, it deletes, or it stamps for the threshold alarms it generates. */
  function StepChanges(y: System, a: Action): seq<Change>
    requires Enabled(y, a) && !a.Crash?
  {
    if a.Define? then [Set([a.d])]
    else if a.Undefine? then [Delete(a.sp)]
    else
      StepTracked(y, a);
      Stamps(Step(y, a).state.ledger[|y.state.ledger|..])
  }

  function Changes(y: System, run: seq<Action>): seq<Change>
    requires Possible(y, run) && NoCrash(run)
    decreases |run|
  {
    if run == [] then [] else StepChanges(y, run[0]) + Changes(Step(y, run[0]), run[1..])
  }

  lemma StepTable(y: System, a: Action)
    requires Enabled(y, a) && !a.Crash?
    ensures Step(y, a).state.definitions == ApplyAll(y.state.definitions, StepChanges(y, a))
  {
    var t := y.state.definitions;
    if a.Define? {
      ApplyOne(t, Set([a.d]));
      assert [a.d][..0] == [] && DefineAll(t, []) == t;
    } else if a.Undefine? {
      ApplyOne(t, Delete(a.sp));
    } else {
      StepTracked(y, a);
    }
  }

  lemma StepTracked(y: System, a: Action)
    requires Enabled(y, a) && !a.Crash? && !a.Define? && !a.Undefine?
    ensures Tracked(y.state, Step(y, a).state)
  {
    hide Find, Dispatch, FinishClear, Tracked;
    var s := y.state;
    if a.Schedule? {
      DispatchTracked(s, y.tasks[a.i]);
    } else if a.Expire? && Expired(s.definitions, s.clock, a.n) && s.definitions[a.n.SpecificProblem()].clearDelay <= 0 {
      ClearTracked(s, ExpiryMessage(s, a.n), a.idx);
    } else {
      IdleTracked(s, Step(y, a).state);
    }
  }

  /**
   The table in the runs of the manager is the table of the REST interface: in
   every run without a restart it moves by the definitions and deletions of the
   run and the stamps of the threshold alarms it generates, one after the other,
   and so its keys go on matching.
   */
  lemma {:induction false} RunTable(y: System, run: seq<Action>)
    requires Possible(y, run) && NoCrash(run)
    ensures After(y, run).state.definitions == ApplyAll(y.state.definitions, Changes(y, run))
    ensures KeysMatch(y.state.definitions) ==> KeysMatch(After(y, run).state.definitions)
    decreases |run|
  {
    hide Step, Enabled, KeysMatch, StepChanges, Apply;
    if run != [] {
      var t := y.state.definitions;
      StepTable(y, run[0]);
      RunTable(Step(y, run[0]), run[1..]);
      ApplyOn(t, StepChanges(y, run[0]), Changes(Step(y, run[0]), run[1..]));
      if KeysMatch(t) { TableKeysMatch(t, StepChanges(y, run[0])); }
    }
  }

  lemma {:induction false} StampsOnly(events: seq<Event>)
    ensures forall c :: c in Stamps(events) ==> c.Threshold?
  {
    if events != [] { StampsOnly(events[..|events| - 1]); }
  }

  /** Nothing is deleted but on request. */
  lemma {:induction false} DeletionsAreAsked(y: System, run: seq<Action>, k: int)
    requires Possible(y, run) && NoCrash(run) && Undefine(k) !in run
    ensures Delete(k) !in Changes(y, run)
    decreases |run|
  {
    hide Step, Enabled;
    if run != [] {
      assert run[0] in run && forall b :: b in run[1..] ==> b in run;
      if !run[0].Define? && !run[0].Undefine? {
        StepTracked(y, run[0]);
        StampsOnly(Step(y, run[0]).state.ledger[|y.state.ledger|..]);
      }
      DeletionsAreAsked(Step(y, run[0]), run[1..], k);
    }
  }

  /**
   While no restart happens and k is not deleted, a definition that is present
   is the same at the end of every run: defining it again and raising alarms
   leave it alone, except that a threshold alarm changes the id of its own.
   */
  lemma DefinitionsPersist(y: System, run: seq<Action>, k: int)
    requires Possible(y, run) && NoCrash(run) && Undefine(k) !in run && k in y.state.definitions
    ensures var t, r := y.state.definitions, After(y, run).state.definitions;
            k in r && r[k].(alarmId := 0) == t[k].(alarmId := 0) && (!Stamped(k) ==> r[k] == t[k])
  {
    RunTable(y, run);
    DeletionsAreAsked(y, run, k);
    FirstDefinitionWins(y.state.definitions, Changes(y, run), k);
  }
}
