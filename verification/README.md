# The alarm manager's active-alarm table and its delayed steps

The alarm manager of the near-RT RIC keeps a list of active alarms, an
append-only history, an id counter and two latches. Every RAISE and CLEAR goes
through `ProcessAlarm`, which works under one mutex but lets go of it while a
RaiseDelay or a ClearDelay runs, and afterwards looks the alarm up again by its
identity: managed object, application, specific problem (SP), identifying
information. Raises, clears, TTL expiries, changes of definitions and restarts
therefore interleave. This project models that protocol and proves what every
interleaving keeps.

`dafny verify dfyconfig.toml` checks the whole project.

## How it is built

- `AlarmTypes`, `Counting`: the records, and counting over lists.
- `AlarmTable`: the manager's memory as one value (`State`) and each *section*
  of the code, the part between two points where the mutex is free, as a
  function on it. `Dispatch` is the section a goroutine runs next. The field
  `ledger` lists what happened (accepted, replaced, dropped, generated, latch
  reset); no section reads it.
- `Sections`: what each section, each TTL visit and a restart leave, field by field
  and in the constants of the source; in whole seconds, when an alarm has outlived
  its TTL; and which missing definition ends a section.
- `Protocol`: the step system. A system is a state and any number of goroutines
  (`Task`), each of them before its first lock, asleep for a RaiseDelay, about
  to record its raise, or asleep for a ClearDelay. Any of them may go next.
  Changes of definitions and limits, the clock and restarts are further actions,
  and so is a visit of the TTL timer, `Expire(n, idx)`. The timer ranges over the
  array the list had when its tick began and lets go of the mutex at each clear;
  so the entry n it examines may be any entry at all, and the list may have
  another one at idx. A clear that takes such another entry *misses*.
- `Manager`: the same code imperatively, as class `AlarmManager`. The active
  list is a backing array and a length, as in a Go slice; `RemoveAlarm` shifts
  in place. At every point where the goroutine does not hold the mutex `OthersRun`
  makes the whole memory arbitrary, unless the manager is declared to be `alone`;
  between two visits of a TTL tick that keep the mutex `UnlockedRun` does what
  needs none. `ProcessAlarm`
  is proved to be a goroutine of the step system (`Follows`) and each visit of the
  TTL timer one of its actions (`Performs`), so what is proved of all runs is
  proved of this code.
- `Unlocked`: raises are published without the mutex, and definitions, limits and
  the clock change without it; how far that moves the list under a TTL tick that
  holds it.
- `Balance`, `Ids`, `Uniqueness`, `Latches`, `Durability`, `Hiding`,
  `Provenance`, `Numbering`: what holds in all runs of the step system.
- `Serial`, `LastMessage`, `ReraiseOutcome`, `ReraiseOrder`: runs in which each
  message ends before the next begins, and the client's reraise.
- `Sweep`, `Ticks`: the TTL loop over the slice it shrinks, with nobody else
  running.
- `Alerts`: reconciliation with the Prometheus Alertmanager, and echoes.
- `Definitions`, `Client`: the table of definitions, and the alarm library.
- `Examples`: runs from a fresh start in which an expected property fails.

*Threshold identities* are the two the manager raises itself, ("SEP",
"ALARMMANAGER", 72007, "active") and ("SEP", "ALARMMANAGER", 72008, "history").
It raises them without looking for a duplicate, so statements about uniqueness
leave them out; `Uniqueness.ClearRepeatsThreshold` shows how they repeat.

A missing definition is a nil dereference in the source. In the step system a
step that would meet one is not `Enabled` (`Safe` says precisely which
definitions a section needs), so that it ends the run; in the class the method
returns `panicked`, and no definition is asked of the caller. Where an HTTP
server recovers the panic the process goes on; see "Left out".

## What the code does not promise

Six properties one might expect are false. For each there is a run from a fresh
start that fails it, and the exact condition under which it holds.

- *Every alarm that is cleared has a CLEAR record of its own.* A TTL clear that
  misses takes one alarm out and records the clear of another, which stays
  active (`Examples.StaleTick`); the first clear of a tick never does
  (`Unlocked.FirstClearHits`). A step keeps the per-identity account if and only
  if it is not a TTL clear that takes effect at once at the index of an entry of
  another identity; a ClearDelay makes it safe (`Balance.BooksClose`). Every step
  keeps the account per id, and every run has an exact account in which the misses
  are counted (`Balance.NoAlarmLost`, `Uniqueness.OverlappingClears`). Misses do
  no harm to the uniqueness of ids and identities, to the file, to hidden alarms
  and to the accounts of the latches, whose theorems allow them.
- *A latch that is on has an active alarm to show for it.* The same run leaves the
  72007 latch on with no such alarm. A run keeps the backing throughout if and
  only if no TTL clear of it takes out the last alarm of a latched SP under the
  name of another SP (`Latches.LatchImpliesEvidence`).
- *A TTL tick stays within the list.* With nobody else running and 72008 defined
  it indexes past the end, and panics, if and only if the last entry is expired
  and has no ClearDelay, an earlier entry is expired, with or without one, and
  the first clear does not find the history at its limit with the latch off; if
  it does, each clear appends a threshold alarm in the place of the entry it
  removes. Without 72008, and if the delayed clear of an expired entry finds that
  entry again, it panics if and only if the entries are such or some clear of the
  tick finds the history at its limit with the latch off (`Ticks.TickPanics`;
  `Examples.TickOverruns`).
- *A reraise leaves the alarm active.* If the alarm was active and its SP has a
  ClearDelay, the reraise's own delayed clear removes it
  (`ReraiseOutcome.ReraiseSurvives`; `Examples.ReraiseLoses`).
- *A reraised alarm is last in the list.* It is, unless recording the raise
  meets the history limit, which appends a threshold alarm behind it
  (`ReraiseOrder.ReraiseRestores`; `Examples.ReraisedIsNotLast`).
- *No alarm stays hidden.* None does in a run without a restart
  (`Hiding.NoAlarmStaysHidden`). A restart forgets the sleeping raises: afterwards
  an identity is hidden with nothing to bring it out if and only if the file that
  was read held it hidden and that entry has been neither cleared nor replaced
  since (`Hiding.HiddenAfterRestart`; `Examples.RestartHides`).

Where code and documentation differ the model follows the code: the limits only
warn, although a comment says that a further event is suppressed
(manager/cmd/manager.go:297-299), and CLEARALL has no effect on the manager,
although README.md says that it clears alarms.

## Model

| member | source | states |
|---|---|---|
| Sections.SectionsDo | manager/cmd/manager.go:120-308 | every section field by field: an accepted raise is stored as it came, with a fresh id and the labels and RaiseDelay of its definition, and sleeps iff that is positive; a RAISE record shows RaiseDelay 0; a clear records its own message under the id of the entry, also after a ClearDelay; warnings, latches, counter, definitions and file |
| Sections.SafeUnlessDies | manager/cmd/manager.go:120-308 | a goroutine dies of a missing definition iff its next section meets a limit with the latch off and no definition to warn with, or wakes to a clear whose own definition has gone |
| Sections.ExpiredMeans | manager/cmd/manager.go:44-51 | an alarm is expired iff its SP is defined with a TTL other than 0 and it is at least that many whole seconds old; the division truncates, so that a negative TTL counts from one second further back |
| Sections.ExpireDoes | manager/cmd/manager.go:44-64 | the TTL timer leaves an alarm alone until then; then it clears it, or starts the ClearDelay, by the alarm's own message with action CLEAR and the clock of this moment |
| Sections.ExpireUnlessDies | manager/cmd/manager.go:44-64 | a TTL visit can go on unless it must clear at once and its index is past the list, or the clear meets the history limit without a definition to warn with |
| Sections.SettingsAreLastSet | manager/cmd/restapi.go:225-236 | in every run limits and clock are as they were last set |
| Sections.RestartReads | manager/cmd/manager.go:527-544 | a restart forgets goroutines and latches and starts with what the file holds, or empty |
| Balance.StepBalance | manager/cmd/manager.go:44-308 | one step of any interleaving, for any set of (identity, id) pairs: raises in flight, recorded and dropped stay accounted for, and so do active, cleared and replaced ones but for the stray and the phantom of a TTL clear that misses; no count falls |
| Balance.NoAlarmLost | manager/cmd/manager.go:44-308 | in every run without restart: raises issued + phantoms = active + CLEAR records + replacements + strays, and issued = in flight + RAISE records + dropped; per identity, per id and for any set of both. Per id strays equal phantoms; if no TTL clear misses there are none |
| Balance.BooksClose | manager/cmd/manager.go:66-78 | a step keeps the per-identity account of all identities iff it is not a TTL clear that takes effect at once at the index of an entry of another identity |
| Ids.IdsAreUnique | manager/cmd/manager.go:158-282 | in every reachable state, restarts included, and in every saved file: no id in two RAISE records or two CLEAR records, active ids distinct, within 1..counter, and without a CLEAR record |
| Uniqueness.DispatchEntries | manager/cmd/manager.go:120-232 | how many entries of an identity each kind of section leaves: one after an accepted or duplicate raise, none after a finished clear, as before otherwise, and what the goroutine does next |
| Uniqueness.AtMostOneActive | manager/cmd/manager.go:130-294 | in every reachable state and saved file no two entries share an identity, threshold identities excepted |
| Uniqueness.OverlappingClears | manager/cmd/manager.go:195-212 | any number of overlapping delayed clears of one alarm, with no raise of it accepted meanwhile, leave it gone with exactly one more CLEAR record, but for the strays and phantoms of TTL clears that miss |
| Uniqueness.ClearRepeatsThreshold | manager/cmd/manager.go:213-216 | why threshold identities repeat: a clear that meets the history limit adds one more such entry and leaves the latch off |
| Latches.StepLatch | manager/cmd/manager.go:138-224 | a step takes the backing of a latch away iff it is a TTL clear that takes out the last alarm of its SP under the name of another SP; every step keeps the account of the latch |
| Latches.LatchImpliesEvidence | manager/cmd/manager.go:138-224 | all through a run a latch that is on is backed by an active alarm of its SP iff no TTL clear of the run takes the last one out under the name of another SP; replacements and restarts never lose it |
| Latches.ThresholdAccounting | manager/cmd/manager.go:213-308 | in every run the limit checks have generated as many threshold alarms as their latch was reset, plus one if it is on |
| Durability.DurableAtQuiescence | manager/cmd/manager.go:158-232 | if the file is behind the memory some raise is publishing or sleeps with its identity active; with no raise in flight a restart restores list, history and counter |
| Hiding.UnhideHides | manager/cmd/manager.go:169-177 | a waking raise brings out the one entry of its identity, whichever raise stored it |
| Hiding.NoAlarmStaysHidden | manager/cmd/manager.go:158-182 | in every run without restart an entry with RaiseDelay > 0 has a sleeping raise of its identity |
| Hiding.HiddenAfterRestart | manager/cmd/manager.go:527-544 | after a restart an identity is hidden without a sleeping raise iff the file held it hidden and that entry has been neither cleared nor replaced since |
| Provenance.MessagesAreVerbatim | manager/cmd/manager.go:108-308 | in every reachable state and saved file, restarts included: entries and RAISE records carry a RAISE that arrived, unchanged, or a warning with its severity, text and a time the clock showed, and their id was given out for just that; CLEAR records carry a CLEAR that arrived, unchanged, or that of an alarm found to have outlived its TTL, at the time of that visit |
| Provenance.EverythingIsLabelled | manager/cmd/manager.go:158-308 | while no definition is deleted and no restart happens every entry and record shows the text and event type of the definition of its SP, every entry its RaiseDelay or 0, every RAISE record 0, and a raise sleeps only for a positive RaiseDelay of its definition |
| Numbering.IdsAreConsecutive | manager/cmd/manager.go:256-259 | in every run without restart the ids given out are 1, 2, and so on up to the counter |
| Numbering.IdTellsKind | manager/cmd/manager.go:268-282 | in every run without restart an entry or RAISE record with the id of a threshold alarm is a warning with all its fields, and one with the id of an accepted raise is one that arrived |
| Numbering.SleepersAreUnrecorded | manager/cmd/manager.go:158-187 | in every reachable state no RAISE record has the id of a raise that sleeps or is about to be recorded |
| Serial.SerialIsRun | manager/cmd/manager.go:120-232 | a serial trace is one of the runs of the step system: one action for each item, in order, no TTL clear that misses, every goroutine run to its end |
| LastMessage.DeliverMaps | manager/cmd/manager.go:120-232 | handling one message is a map update for its identity and nothing for the others, and list and history stay in step |
| LastMessage.LastMessageWins | manager/cmd/manager.go:120-156 | after any serial trace from a fresh start an identity with a known SP is active iff its last RAISE or CLEAR was a RAISE, with that severity |
| LastMessage.HistoryIsCompleteLog | manager/cmd/manager.go:120-308 | after any serial trace, TTL clears of entries at their own index included, replaying the history yields exactly the ids under which identities are active |
| ReraiseOutcome.ReraiseSurvives | alarm/alarm.go:124-134 | with any delays the reraised alarm ends up active iff it was not active before or has no ClearDelay |
| ReraiseOutcome.InboxIsRun | manager/cmd/manager.go:108-117 | messages taken up one after the other, each up to its first sleep, are a run of the step system |
| ReraiseOutcome.ReraiseEnds | alarm/alarm.go:124-134 | client and manager together: as before if nothing could be sent, gone if only the CLEAR could, else as above |
| ReraiseOrder.ReraiseRestores | alarm/alarm.go:124-134 | one entry under a fresh id, all others unchanged and in order, last in the list iff recording the raise stays below the history limit |
| Alerts.ProcessAlerts | manager/cmd/manager.go:399-463 | the goroutines a reconciliation starts, in order: a clear for each FM entry whose identity no FM alert spells out, by its own message, and a raise for each FM alert, with SP, severity, additional and identifying information from the labels specific_problem, severity, name and the annotation description |
| Alerts.SpawnedReconcile | manager/cmd/manager.go:407-463 | the same of the goroutines as a function of list and payload |
| Alerts.WantedIsSpelled | manager/cmd/manager.go:407-448 | an identity is wanted iff the labels and annotations of some alert whose service label contains FM spell it out |
| Alerts.ReconciliationConverges | manager/cmd/manager.go:399-463 | in any order, with any delays and other traffic, they leave active exactly the FM identities that labels and annotations spell out and whose SP is defined |
| Alerts.PostedTells | manager/cmd/manager.go:328-357 | every label and annotation of a posted alert |
| Alerts.PostedIdentifies | manager/cmd/manager.go:328-357 | alarms that are posted alike are alike, as long as no managed object contains the separator |
| Alerts.ContainsAcross | manager/cmd/manager.go:339 | a part without the separator occurs in mo/app iff it occurs in mo or in app |
| Alerts.NoEcho | manager/cmd/manager.go:328-366 | a posted alert is selected again iff its managed object contains FM, and what it is then taken for is itself never posted |
| Unlocked.FirstClearHits | manager/cmd/manager.go:66-78 | over every run of what can happen while the TTL timer holds the mutex, publishing raises included: the list keeps its entries at their indices and grows by at most one threshold alarm, which the latch shows, the history only grows, and the first clear of a tick never misses |
| Ticks.TickPanics | manager/cmd/manager.go:66-78 | with nobody else running: if 72008 is defined a tick panics iff the last entry is expired without a ClearDelay, an earlier one is expired, and the first clear does not meet the history limit; if it is not, and no expired entry with a ClearDelay stands behind one of its identity, iff the entries are such or some clear meets the limit with the latch off |
| Ticks.TickKeeps | manager/cmd/manager.go:66-78 | if no expired entry with a ClearDelay stands behind one of its identity: a tick leaves what Sweep says, records what Sweep says in order, resets the latches of those SPs and changes nothing else, iff the entries are not such as overrun the list (the last expired without a ClearDelay, an earlier one expired) and no clear of it meets the history limit with the latch off |
| Ticks.TicksDrain | manager/cmd/manager.go:66-78 | n ticks at a fixed clock, of a list whose last entry is not expired, with room in the history for the expired entries, or the latch on and no expired entry that would reset it, end without a panic, drain fewer than 2^n expired entries and leave all others in order |
| Sweep.SweepSplits | manager/cmd/manager.go:66-78 | a TTL pass removes expired entries only, and removes or keeps every entry |
| Sweep.SweepKeepsFresh | manager/cmd/manager.go:66-78 | the entries that are not expired stay, in order |
| Sweep.SweepRemovesHalf | manager/cmd/manager.go:66-78 | a pass removes at least half of the expired entries |
| Definitions.TableKeysMatch | manager/cmd/restapi.go:104-131 | any changes of a table, of the empty one for instance, keep every definition but the two stamped ones under its own id |
| Definitions.FirstInBatchWins | manager/cmd/restapi.go:104-120 | a new key gets the first definition of the batch with that id |
| Definitions.FirstDefinitionWins | manager/cmd/restapi.go:104-120 | a present definition does not change until it is deleted; a threshold alarm changes only the id of its own |
| Definitions.DefinitionsPersist | manager/cmd/manager.go:268-282 | in every run of the manager without restart a definition that is not deleted stays the same, but for the id of the two that are stamped |
| Definitions.DefinitionTable.SetAlarmDefinition | manager/cmd/restapi.go:104-120 | enters each definition whose id is free as an object of its own |
| Definitions.DefinitionTable.DeleteAlarmDefinition | manager/cmd/restapi.go:126-144 | removes the key if the parameter is a number, otherwise changes nothing and reports it |
| Definitions.DefinitionTable.StampDefinition | manager/cmd/manager.go:275-277 | writing the id into the shared object changes this definition and no other |
| Definitions.GenerateStamps | manager/cmd/manager.go:275-277 | raising a threshold alarm changes the table of the step system exactly as a stamp does |
| Definitions.RunTable | manager/cmd/manager.go:44-308 | in every run without restart the table ends up as the definitions and deletions of the run and the stamps of the threshold alarms it generates make it, in that order, so that its keys go on matching |
| AlarmTable.Find | manager/cmd/manager.go:240-248 | the first entry with the identity, or none |
| Manager.AlarmManager.constructor | manager/cmd/manager.go:589-624 | an empty manager with the mutex free |
| Manager.AlarmManager.IsMatchFound | manager/cmd/manager.go:240-248 | the search loop returns what Find specifies |
| Manager.AlarmManager.RemoveAlarm | manager/cmd/manager.go:250-254 | in place: the list without entry i, order kept, the array beyond the list untouched |
| Manager.AlarmManager.Append | manager/cmd/manager.go:293 | append in place while there is capacity, or into a larger array |
| Manager.AlarmManager.GenerateThresholdAlarm | manager/cmd/manager.go:268-282 | stamps the definition, takes an id, appends the same alarm to list and history, from SEP and ALARMMANAGER with severity WARNING, additional information threshold and the current time; panics iff the definition is missing |
| Manager.AlarmManager.UpdateActiveAlarmList | manager/cmd/manager.go:284-294 | warns once per latch when the limit is reached, then appends all the same |
| Manager.AlarmManager.UpdateAlarmHistoryList | manager/cmd/manager.go:296-308 | the same for the history |
| Manager.AlarmManager.WriteAlarmInfoToPersistentVolume | manager/cmd/manager.go:546-564 | saves counter, list and history |
| Manager.AlarmManager.ReadAlarmInfoFromPersistentVolume | manager/cmd/manager.go:527-544 | restores them, or changes nothing without a file |
| Manager.AlarmManager.AcceptRaise | manager/cmd/manager.go:161-167 | the accepting section, ending with the mutex free, with the RaiseDelay of the definition stored and a sleep to follow iff it is positive; panics iff the active limit is met and 72007 is not defined |
| Manager.AlarmManager.WakeRaise | manager/cmd/manager.go:169-182 | after the delay the index found is in range and names the raise's own identity |
| Manager.AlarmManager.PublishRaise | manager/cmd/manager.go:184-186 | whoever holds the mutex, records the raise and saves; panics iff the history limit is met and 72008 is not defined |
| Manager.AlarmManager.ProcessRaiseAlarm | manager/cmd/manager.go:158-187 | under any interference: the sections of an accepted raise, one after the other, asleep in between iff its definition has a RaiseDelay, up to the end or to a missing definition |
| Manager.AlarmManager.FinishClearAlarm | manager/cmd/manager.go:210-227 | moves the entry to a CLEAR record, warns, resets latches, saves, frees the mutex, all within the same array; panics iff the index is past the list or a definition it needs is missing |
| Manager.AlarmManager.ProcessClearAlarm | manager/cmd/manager.go:195-227 | under any interference: without a delay the given index is cleared, with one the entry is found again or nothing is done; the record shows the message as it came, whenever the clear wakes |
| Manager.AlarmManager.WakeClear | manager/cmd/manager.go:201-227 | after the ClearDelay: the first entry of the identity is cleared by the unchanged message, or nothing is done |
| Manager.TraceDoes | manager/cmd/manager.go:120-232 | in every life of a goroutine each section does what Sections.Does says and the next is the one that says |
| Manager.AlarmManager.ProcessAlarm | manager/cmd/manager.go:120-156 | under any interference: every path is a goroutine of the step system, stays in range, and ends with the mutex free or at a missing definition |
| Manager.AlarmManager.DoAction | manager/cmd/restapi.go:193-203 | drops messages without managed object, application or action, fills in a missing time, processes the rest |
| Manager.AlarmManager.ClearExpiredAlarms | manager/cmd/manager.go:44-64 | it clears, or panics on the way, iff the alarm has outlived its TTL in whole seconds, by a CLEAR with the current time; for any entry and index it is the Expire action of the step system, panics where that is not enabled, and gives up the mutex iff it clears |
| Manager.AlarmManager.TickTTLTimer | manager/cmd/manager.go:66-78 | among others: one visit per slot, each an Expire action of the step system, of the entry at its own index up to and including the first clear, which never misses; between visits that keep the mutex others only publish raises, or do what touches neither lists nor latches; ends with the mutex free or panics. Alone it does, and panics, exactly as Ticks.Tick |
| Client.RICAlarm.NewAlarm | alarm/alarm.go:80-89 | a new alarm has the client's managed object and application with the given SP and identifying information as its identity, and the given severity and additional information |
| Client.RICAlarm.Raise | alarm/alarm.go:106-112 | one RAISE is sent iff either way of sending works |
| Client.RICAlarm.Clear | alarm/alarm.go:115-121 | the same for CLEAR |
| Client.RICAlarm.Reraise | alarm/alarm.go:124-134 | CLEAR then RAISE; nothing follows a CLEAR that could not be sent |
| Examples.StaleTick | manager/cmd/manager.go:66-78 | a run in which a TTL clear misses: it takes out the only 72007 alarm with the latch on and records the clear of an alarm that stays active |
| Examples.TickOverruns | manager/cmd/manager.go:66-78 | a reachable list on which the tick panics |
| Examples.ReraiseLoses | alarm/alarm.go:124-134 | a reraise after which the alarm is gone |
| Examples.ReraisedIsNotLast | alarm/alarm.go:124-134 | a reraise after which the alarm is not last |
| Examples.RestartHides | manager/cmd/manager.go:158-182 | a restart after which an alarm is hidden, no raise sleeps, and raising it again is suppressed |

## Left out

- Manager.AlarmManager.ProcessRaiseAlarm: manager/cmd/manager.go:184-186 run without the mutex; here they are one atomic step, which may come while another goroutine holds the mutex between two visits of a TTL tick, but not in the middle of a section; posting to NOMA or the Alertmanager is not part of it.
- Manager.AlarmManager.TickTTLTimer: among others, says nothing about what a slot shows after the first clear; the step system takes it to be any entry.
- Ticks.TickPanics: the clock stands still, also while a ClearDelay of the tick runs. Without 72008 it leaves out delayed clears that find an earlier entry of the same identity instead, which only repeated 72007 alarms with a TTL and a ClearDelay allow; Ticks.TickOverruns proves for them that a tick over entries such as overrun the list panics.
- Ticks.TickKeeps: what a tick leaves when a delayed clear finds an earlier entry of the same identity, which only threshold identities can have; Ticks.Tick says it step by step.
- Balance.NoAlarmLost: runs with a restart, which forgets the raises in flight; Ids and Uniqueness include restarts. Runs that go on after a panic: if 72008 has been deleted and the history is at its limit, a raise that came in over REST panics without the mutex at manager/cmd/manager.go:185, the HTTP server recovers, and an entry is active that has no RAISE record and no raise in flight.
- Durability.DurableAtQuiescence: the same runs after a recovered panic, in which the file stays behind the memory with no raise in flight.
- Numbering.IdTellsKind: runs with a restart, which may go back to an older counter and give ids out again; Provenance.MessagesAreVerbatim, which includes them, says that each id was given out for the kind its entry shows.
- Sections.RestartReads: a restart sets the limits from the configuration; in the step system it keeps them, and setting them is an action of its own.
- Client setters (SetManagedObjectId, SetApplicationId): plain assignments.
- Integer width: the id counter and the clock are unbounded.
- JSON encoding and failing file writes: the file is the value last written.
- Data races in the unlocked access to the definition table: each access is one step.
- RMR, cgo, HTTP, the configuration callback, the listing endpoints, the symptom-data archive and the command line interface: input and output only.
- Go loop variables: go.mod says 1.22, so each clear that ProcessAlerts starts has its own copy of the entry.
- strconv.Atoi in ProcessAlerts: a parameter; the result holds for every such function.
