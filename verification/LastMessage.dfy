/**
 What serial runs compute: the active list refines a map in which the last
 RAISE or CLEAR of an identity decides, and replaying the history rebuilds it.
 */
module LastMessage {
  import opened AlarmTypes
  import opened Counting
  import opened AlarmTable
  import opened Protocol
  import opened Balance
  import opened Uniqueness
  import opened Serial

  datatype Row = Row(severity: string, id: int)

  /** The active list as a map from identities to severity and id. */
  function RowOf(active: seq<AlarmNotification>, k: Identity): Option<Row> {
    var i := Find(active, k);
    if i < 0 then None else Some(Row(active[i].Severity(), active[i].Id()))
  }

  predicate IsRow(row: Option<Row>, severity: string, id: int) {
    row.Some? && row.value.severity == severity && row.value.id == id
  }

  function IdOf(row: Option<Row>): Option<int> {
    match row
    case None => None
    case Some(r) => Some(r.id)
  }

  /** Read the history as a log: a RAISE record sets the id of its identity, a CLEAR record removes it. */
  function Replay(history: seq<AlarmNotification>, k: Identity): Option<int> {
    if history == [] then None
    else
      var n := history[|history| - 1];
      if n.Key() == k && n.message.action.Raise? then Some(n.Id())
      else if n.Key() == k && n.message.action.Clear? then None
      else Replay(history[..|history| - 1], k)
  }

  // ---- lists as maps

  lemma RowAppended(active: seq<AlarmNotification>, n: AlarmNotification, k: Identity)
    ensures RowOf(active + [n], k)
            == if RowOf(active, k).Some? || n.Key() != k then RowOf(active, k) else Some(Row(n.Severity(), n.Id()))
  {
    assert (active + [n])[..|active|] == active;
  }

  lemma FirstMatch(active: seq<AlarmNotification>, k: Identity, i: nat)
    requires i < |active| && active[i].Key() == k && forall j :: 0 <= j < i ==> active[j].Key() != k
    ensures Find(active, k) == i
  {
    hide Find;
  }

  lemma RowOfOthers(active: seq<AlarmNotification>, idx: nat, k: Identity)
    requires idx < |active| && active[idx].Key() != k
    ensures RowOf(Remove(active, idx), k) == RowOf(active, k)
  {
    hide Find;
    var i, rest := Find(active, k), Remove(active, idx);
    assert forall j :: 0 <= j < |rest| ==> rest[j] == active[if j < idx then j else j + 1];
    if i >= 0 { FirstMatch(rest, k, if i < idx then i else i - 1); }
  }

  lemma RowLeaves(active: seq<AlarmNotification>, idx: nat, k: Identity)
    requires idx < |active| && Count(active, Entry(HasKey(k))) <= 1
    ensures RowOf(Remove(active, idx), k) == if active[idx].Key() == k then None else RowOf(active, k)
  {
    hide Find, Count, Remove;
    if active[idx].Key() == k {
      EntryLeaves(active, idx, HasKey(k));
      assert HasKey(k)(active[idx].Tag());
      FindCounts(Remove(active, idx), k);
    } else {
      RowOfOthers(active, idx, k);
    }
  }

  lemma RowRetagged(active: seq<AlarmNotification>, idx: nat, n: AlarmNotification, k: Identity)
    requires idx < |active| && n.Tag() == active[idx].Tag() && n.Severity() == active[idx].Severity()
    ensures RowOf(active[idx := n], k) == RowOf(active, k)
  {
    hide Find;
    var i := Find(active, k);
    if i >= 0 { FirstMatch(active[idx := n], k, i); }
  }

  lemma ReplayAppended(history: seq<AlarmNotification>, n: AlarmNotification, k: Identity)
    ensures Replay(history + [n], k)
            == if n.Key() == k && n.message.action.Raise? then Some(n.Id())
               else if n.Key() == k && n.message.action.Clear? then None
               else Replay(history, k)
  {
    assert (history + [n])[..|history|] == history;
  }

  // ---- sections

  ghost predicate SameMaps(s: State, t: State, k: Identity) {
    RowOf(t.active, k) == RowOf(s.active, k) && Replay(t.history, k) == Replay(s.history, k)
  }

  lemma WarnMaps(s: State, k: Identity)
    requires !IsThreshold(k)
    ensures ActiveThresholdReady(s) ==> SameMaps(s, WarnActive(s), k)
    ensures HistoryThresholdReady(s) ==> SameMaps(s, WarnHistory(s), k) && SameMaps(s, WarnHistoryOnClear(s), k)
  {
    hide RowOf, Replay;
    if ActiveLimitHit(s) && ActiveThresholdReady(s) {
      var n := ThresholdAlarm(s, ACTIVE_ALARM_EXCEED_MAX_THRESHOLD, "active");
      RowAppended(s.active, n, k);
      ReplayAppended(s.history, n, k);
    }
    if HistoryLimitHit(s) && HistoryThresholdReady(s) {
      var n := ThresholdAlarm(s, ALARM_HISTORY_EXCEED_MAX_THRESHOLD, "history");
      RowAppended(s.active, n, k);
      ReplayAppended(s.history, n, k);
    }
  }

  lemma AcceptMaps(s: State, m: AlarmNotification, k: Identity)
    requires !IsThreshold(k) && m.SpecificProblem() in s.definitions && ActiveThresholdReady(s)
    requires m.Key() == k ==> RowOf(s.active, k).None?
    ensures var r := Accept(s, m).state;
            && (if m.Key() == k then IsRow(RowOf(r.active, k), m.Severity(), s.uniqueAlarmId + 1)
                else RowOf(r.active, k) == RowOf(s.active, k))
            && Replay(r.history, k) == Replay(s.history, k)
  {
    hide RowOf, Replay;
    var n := AcceptedAlarm(s, m);
    WarnMaps(Allocate(s, n), k);
    RowAppended(WarnActive(Allocate(s, n)).active, n, k);
  }

  lemma PublishMaps(s: State, m: AlarmNotification, k: Identity)
    requires !IsThreshold(k) && HistoryThresholdReady(s) && m.message.action.Raise?
    ensures var r := Publish(s, m);
            && RowOf(r.active, k) == RowOf(s.active, k)
            && Replay(r.history, k) == if m.Key() == k then Some(m.Id()) else Replay(s.history, k)
  {
    hide RowOf, Replay;
    WarnMaps(s, k);
    ReplayAppended(WarnHistory(s).history, m.WithRaiseDelay(0), k);
  }

  lemma ClearMaps(s: State, m: AlarmNotification, idx: nat, k: Identity)
    requires !IsThreshold(k) && Entries(s, k) <= 1
    requires idx < |s.active| && m.SpecificProblem() in s.definitions
    requires HistoryThresholdReady(MoveToHistory(s, m, idx))
    requires m.message.action.Clear? && s.active[idx].Key() == m.Key()
    ensures var r := FinishClear(s, m, idx);
            if m.Key() == k then RowOf(r.active, k).None? && Replay(r.history, k).None? else SameMaps(s, r, k)
  {
    hide RowOf, Replay, Count;
    RowLeaves(s.active, idx, k);
    ReplayAppended(s.history, UpdateAlarmFields(s.definitions, s.active[idx].Id(), m), k);
    WarnMaps(MoveToHistory(s, m, idx), k);
  }

  // ---- whole messages

  /** The list and the log agree about k, which has at most one entry. */
  ghost predicate InStep(s: State, k: Identity) {
    Entries(s, k) <= 1 && IdOf(RowOf(s.active, k)) == Replay(s.history, k)
  }

  /** A raise that entered the list and runs to its end without interruption leaves the list as it is and is logged. */
  lemma FlightMaps(s: State, t: Task, k: Identity)
    requires Ready(s, t) && RaiseInFlight(t) && t.m.message.action.Raise? && !IsThreshold(k)
    requires Entries(s, k) <= 1 && (t.m.Key() == k ==> Find(s.active, k) >= 0)
    ensures var r := Complete(s, t);
            && Entries(r, k) == Entries(s, k) && RowOf(r.active, k) == RowOf(s.active, k)
            && Replay(r.history, k) == if t.m.Key() == k then Some(t.m.Id()) else Replay(s.history, k)
    decreases Rank(t)
  {
    hide Find, RowOf, Replay, Count, Publish;
    DispatchEntries(s, t, k);
    if t.RaisePublishing? {
      PublishMaps(s, t.m, k);
    } else {
      var o, idx := Dispatch(s, t), Find(s.active, t.m.Key());
      if idx >= 0 {
        RowRetagged(s.active, idx, s.active[idx].WithRaiseDelay(0), k);
        FindStays(s.active, idx, k);
        FlightMaps(o.state, o.next.value, k);
      }
    }
  }

  lemma FindStays(active: seq<AlarmNotification>, idx: nat, k: Identity)
    requires idx < |active|
    ensures Find(active[idx := active[idx].WithRaiseDelay(0)], k) == Find(active, k)
  {
    hide Find;
    var i := Find(active, k);
    if i >= 0 { FirstMatch(active[idx := active[idx].WithRaiseDelay(0)], k, i); }
  }

  /** What handling one whole message about any identity does to the row of k. */
  ghost predicate RowAfter(s: State, m: AlarmNotification, r: State, k: Identity) {
    var before, after := RowOf(s.active, k), RowOf(r.active, k);
    if m.Key() != k || k.sp !in s.definitions || m.message.action.Other? then after == before
    else if m.message.action.Clear? then after.None?
    else if before.Some? && before.value.severity == m.Severity() then after == before
    else IsRow(after, m.Severity(), s.uniqueAlarmId + 1)
  }

  /** An acceptance run to its end: one new row, and the log says so. */
  lemma AcceptedMaps(s: State, m: AlarmNotification, k: Identity)
    requires !IsThreshold(k) && m.SpecificProblem() in s.definitions && m.message.action.Raise?
    requires ActiveThresholdReady(s) && Ready(Accept(s, m).state, Accept(s, m).next.value)
    requires if m.Key() == k then Entries(s, k) == 0 && RowOf(s.active, k).None?
             else Entries(s, k) <= 1 && IdOf(RowOf(s.active, k)) == Replay(s.history, k)
    ensures var o := Accept(s, m);
            var r := Complete(o.state, o.next.value);
            && InStep(r, k)
            && (if m.Key() == k then IsRow(RowOf(r.active, k), m.Severity(), s.uniqueAlarmId + 1)
                else RowOf(r.active, k) == RowOf(s.active, k))
  {
    hide Find, RowOf, Replay, Count, Accept, Complete, Ready;
    var o := Accept(s, m);
    AcceptMaps(s, m, k);
    AcceptEntries(s, m, k);
    AcceptedFlies(s, m);
    FlightMaps(o.state, o.next.value, k);
  }

  lemma RaiseUnfolds(s: State, m: AlarmNotification)
    requires Ready(s, Pending(m)) && m.SpecificProblem() in s.definitions && m.message.action.Raise?
    ensures Suppressed(s, m) ==> Complete(s, Pending(m)) == s
    ensures !Suppressed(s, m) ==>
              && ActiveThresholdReady(Vacated(s, m))
              && var o := Accept(Vacated(s, m), m);
              && Ready(o.state, o.next.value)
              && Complete(s, Pending(m)) == Complete(o.state, o.next.value)
  {
    hide Find, DropReplaced, UpdateActiveAlarmList;
  }

  lemma VacatedMaps(s: State, m: AlarmNotification, k: Identity)
    requires InStep(s, k)
    ensures Vacated(s, m).uniqueAlarmId == s.uniqueAlarmId && Vacated(s, m).definitions == s.definitions
    ensures var v := Vacated(s, m);
            if m.Key() == k then Entries(v, k) == 0 && RowOf(v.active, k).None?
            else Entries(v, k) <= 1 && IdOf(RowOf(v.active, k)) == Replay(v.history, k)
                 && RowOf(v.active, k) == RowOf(s.active, k)
  {
    hide Find, RowOf, Replay, Count, Remove;
    var idx := Find(s.active, m.Key());
    FoundRow(s.active, m.Key());
    FindCounts(s.active, m.Key());
    if idx >= 0 {
      RowLeaves(s.active, idx, k);
      LeaveEntries(s, idx, k);
    }
  }

  lemma SuppressedRow(s: State, m: AlarmNotification)
    ensures var row := RowOf(s.active, m.Key());
            Suppressed(s, m) <==> row.Some? && row.value.severity == m.Severity()
  {
    hide Find;
  }

  lemma RaiseInStep(s: State, m: AlarmNotification, k: Identity)
    requires Ready(s, Pending(m)) && !IsThreshold(k) && InStep(s, k)
    requires m.SpecificProblem() in s.definitions && m.message.action.Raise?
    ensures var r := Complete(s, Pending(m));
            && InStep(r, k)
            && (Suppressed(s, m) ==> r == s)
            && (m.Key() != k ==> RowOf(r.active, k) == RowOf(s.active, k))
            && (m.Key() == k && !Suppressed(s, m) ==>
                  IsRow(RowOf(r.active, k), m.Severity(), s.uniqueAlarmId + 1))
  {
    hide *;
    RaiseUnfolds(s, m);
    if !Suppressed(s, m) {
      VacatedMaps(s, m, k);
      AcceptedMaps(Vacated(s, m), m, k);
    }
  }

  lemma RaiseMaps(s: State, m: AlarmNotification, k: Identity)
    requires Ready(s, Pending(m)) && !IsThreshold(k) && InStep(s, k)
    requires m.SpecificProblem() in s.definitions && m.message.action.Raise?
    ensures var r := Complete(s, Pending(m)); InStep(r, k) && RowAfter(s, m, r, k)
  {
    RaiseInStep(s, m, k);
    SuppressedRow(s, m);
    hide IsThreshold, Find, RowOf, Replay, Count, Ready, Complete, InStep, Entries, Suppressed, IsRow;
  }

  lemma FoundRow(active: seq<AlarmNotification>, k: Identity)
    ensures Find(active, k) < 0 <==> RowOf(active, k).None?
    ensures Find(active, k) >= 0 ==> RowOf(active, k).value.severity == active[Find(active, k)].Severity()
  {
  }

  lemma AcceptedFlies(s: State, m: AlarmNotification)
    requires m.SpecificProblem() in s.definitions && m.message.action.Raise? && ActiveThresholdReady(s)
    ensures var o := Accept(s, m);
            && o.next.Some? && RaiseInFlight(o.next.value) && o.next.value.m.message.action.Raise?
            && o.next.value.m.Tag() == AlarmTag(m.Key(), s.uniqueAlarmId + 1)
            && Find(o.state.active, m.Key()) >= 0
  {
    var n := AcceptedAlarm(s, m);
    assert Accept(s, m).state.active[|WarnActive(Allocate(s, n)).active|] == n;
  }

  lemma ClearTaskMaps(s: State, m: AlarmNotification, k: Identity)
    requires Ready(s, ClearWaiting(m)) && m.message.action.Clear? && !IsThreshold(k) && InStep(s, k)
    ensures var r := Complete(s, ClearWaiting(m));
            InStep(r, k) && if m.Key() == k then RowOf(r.active, k).None? else SameMaps(s, r, k)
  {
    hide Find, RowOf, Replay, Count, FinishClear;
    var idx := Find(s.active, m.Key());
    FoundRow(s.active, m.Key());
    DispatchEntries(s, ClearWaiting(m), k);
    if idx >= 0 { ClearMaps(s, m, idx, k); }
  }

  /** One whole message keeps the list and the log in step and moves the row of k as a map update would. */
  lemma DeliverMaps(s: State, m: AlarmNotification, k: Identity)
    requires Ready(s, Pending(m)) && !IsThreshold(k) && InStep(s, k)
    ensures var r := Complete(s, Pending(m)); InStep(r, k) && RowAfter(s, m, r, k)
  {
    hide Find, RowOf, Replay, Count, FinishClear, Accept, InStep;
    var idx := Find(s.active, m.Key());
    if m.SpecificProblem() in s.definitions {
      if m.message.action.Raise? {
        RaiseMaps(s, m, k);
      } else if m.message.action.Clear? {
        FoundRow(s.active, m.Key());
        if idx >= 0 {
          if s.definitions[m.SpecificProblem()].clearDelay > 0 {
            ClearTaskMaps(s, m, k);
          } else {
            ImmediateClearMaps(s, m, idx, k);
          }
        }
      }
    }
  }

  lemma ImmediateClearMaps(s: State, m: AlarmNotification, idx: nat, k: Identity)
    requires !IsThreshold(k) && InStep(s, k)
    requires idx < |s.active| && m.SpecificProblem() in s.definitions
    requires HistoryThresholdReady(MoveToHistory(s, m, idx))
    requires m.message.action.Clear? && s.active[idx].Key() == m.Key()
    ensures var r := FinishClear(s, m, idx);
            InStep(r, k) && if m.Key() == k then RowOf(r.active, k).None? else SameMaps(s, r, k)
  {
    hide Find, RowOf, Replay, Count, FinishClear;
    ClearMaps(s, m, idx, k);
    ClearEntries(s, m, idx, k);
  }

  // ---- whole traces

  lemma HandleInStep(s: State, item: Item, k: Identity)
    requires Handles(s, item) && !IsThreshold(k) && InStep(s, k)
    ensures InStep(Handle(s, item), k)
  {
    match item
    case Deliver(m) => DeliverMaps(s, m, k);
    case Timeout(idx) =>
      hide Find, RowOf, Replay, Count, InStep, Ready, Complete, FinishClear;
      var m := ExpiryMessage(s, s.active[idx]);
      if Expired(s.definitions, s.clock, s.active[idx]) {
        if s.definitions[m.SpecificProblem()].clearDelay > 0 {
          ClearTaskMaps(s, m, k);
        } else {
          ImmediateClearMaps(s, m, idx, k);
        }
      }
    case _ =>
  }

  lemma {:induction false} TraceInStep(s: State, items: seq<Item>, k: Identity)
    requires HandlesAll(s, items) && !IsThreshold(k) && InStep(s, k)
    ensures InStep(HandleAll(s, items), k)
    decreases |items|
  {
    hide Handle, Handles, InStep;
    if items != [] {
      HandleInStep(s, items[0], k);
      TraceInStep(Handle(s, items[0]), items[1..], k);
    }
  }

  /**
   After any serial trace from a fresh start, severity changes, TTL clears and
   limit changes included, replaying the history gives for every identity
   exactly the id under which it is active, and none if it is not.
   */
  lemma HistoryIsCompleteLog(y0: System, items: seq<Item>, k: Identity)
    requires Started(y0) && HandlesAll(y0.state, items) && !IsThreshold(k)
    ensures var s := HandleAll(y0.state, items); Replay(s.history, k) == IdOf(RowOf(s.active, k))
  {
    TraceInStep(y0.state, items, k);
  }

  /** The last RAISE or CLEAR about k in the trace. */
  function LastWord(items: seq<Item>, k: Identity): Option<AlarmNotification> {
    if items == [] then None
    else
      var later := LastWord(items[1..], k);
      if later.Some? then later
      else
        match items[0]
        case Deliver(m) => if m.Key() == k && !m.message.action.Other? then Some(m) else None
        case _ => None
  }

  predicate NoTimeout(items: seq<Item>) {
    forall item :: item in items ==> !item.Timeout?
  }

  lemma {:induction false} CompleteKnows(s: State, t: Task, sp: int)
    requires Ready(s, t)
    ensures sp in Complete(s, t).definitions <==> sp in s.definitions
    decreases Rank(t)
  {
    var o := Dispatch(s, t);
    DispatchKnows(s, t, sp);
    RankFalls(s, t);
    hide Dispatch, Safe;
    if o.next.Some? { CompleteKnows(o.state, o.next.value, sp); }
  }

  lemma SectionsKnow(s: State, m: AlarmNotification, idx: nat)
    ensures m.SpecificProblem() in s.definitions && ActiveThresholdReady(s) ==>
              Accept(s, m).state.definitions.Keys == s.definitions.Keys
    ensures HistoryThresholdReady(s) ==> Publish(s, m).definitions.Keys == s.definitions.Keys
    ensures idx < |s.active| && m.SpecificProblem() in s.definitions && HistoryThresholdReady(MoveToHistory(s, m, idx)) ==>
              FinishClear(s, m, idx).definitions.Keys == s.definitions.Keys
  {
  }

  lemma DispatchKnows(s: State, t: Task, sp: int)
    requires Safe(s, t)
    ensures sp in Dispatch(s, t).state.definitions <==> sp in s.definitions
  {
    hide Find, Accept, Publish, FinishClear, Suppressed, Vacated, HistoryThresholdReady, ActiveThresholdReady, MoveToHistory;
    var m, idx := t.m, Find(s.active, t.m.Key());
    VacatedDefinitions(s, m);
    SectionsKnow(Vacated(s, m), m, 0);
    SectionsKnow(s, m, if idx < 0 then 0 else idx);
  }

  /** What the last word about k says the row of k must be. */
  ghost predicate Obeys(row: Option<Row>, start: Option<Row>, word: Option<AlarmNotification>, known: bool) {
    if word.None? || !known then row == start
    else if word.value.message.action.Raise? then row.Some? && row.value.severity == word.value.Severity()
    else row.None?
  }

  lemma DeliverObeys(s: State, m: AlarmNotification, k: Identity)
    requires Ready(s, Pending(m)) && !IsThreshold(k) && InStep(s, k)
    ensures Obeys(RowOf(Complete(s, Pending(m)).active, k), RowOf(s.active, k),
                  if m.Key() == k && !m.message.action.Other? then Some(m) else None, k.sp in s.definitions)
  {
    DeliverMaps(s, m, k);
    hide IsThreshold, RowOf, Find, Complete, Ready, InStep, Count;
  }

  lemma {:induction false} TraceObeys(s: State, items: seq<Item>, k: Identity)
    requires HandlesAll(s, items) && NoTimeout(items) && !IsThreshold(k) && InStep(s, k)
    ensures Obeys(RowOf(HandleAll(s, items).active, k), RowOf(s.active, k), LastWord(items, k), k.sp in s.definitions)
    decreases |items|
  {
    hide RowOf, InStep, Complete, Ready;
    if items != [] {
      var s1 := Handle(s, items[0]);
      HandleInStep(s, items[0], k);
      match items[0] {
        case Deliver(m) =>
          DeliverObeys(s, m, k);
          CompleteKnows(s, Pending(m), k.sp);
        case _ =>
      }
      assert forall item :: item in items[1..] ==> item in items;
      TraceObeys(s1, items[1..], k);
    }
  }

  /**
   The last message wins. After any serial trace of messages and limit changes
   from a fresh start, an identity with a known SP is active exactly when the
   last RAISE or CLEAR about it was a RAISE, and then with that raise's
   severity; nothing said about other identities, and no limit, matters.
   */
  lemma LastMessageWins(y0: System, items: seq<Item>, k: Identity)
    requires Started(y0) && HandlesAll(y0.state, items) && NoTimeout(items) && !IsThreshold(k)
    ensures var row, word := RowOf(HandleAll(y0.state, items).active, k), LastWord(items, k);
            && (row.Some? <==> k.sp in y0.state.definitions && word.Some? && word.value.message.action.Raise?)
            && (row.Some? ==> row.value.severity == word.value.Severity())
  {
    TraceObeys(y0.state, items, k);
  }
}
