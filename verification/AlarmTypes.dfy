/**
 The records of the alarm system: alarms, messages, definitions and the
 notification the manager stores, with the identity an alarm is found by.
 */
module AlarmTypes {

  datatype Option<+T> = None | Some(value: T)

  datatype Alarm = Alarm(
    managedObjectId: string,
    applicationId: string,
    specificProblem: int,
    perceivedSeverity: string,
    identifyingInfo: string,
    additionalInfo: string)

  /** The manager reacts to RAISE and CLEAR only; every other text, CLEARALL included, is Other. */
  datatype AlarmAction = Raise | Clear | Other(text: string)

  datatype AlarmMessage = AlarmMessage(alarm: Alarm, action: AlarmAction, alarmTime: int)

  datatype AlarmDefinition = AlarmDefinition(
    alarmId: int,
    alarmText: string,
    eventType: string,
    operationInstructions: string,
    raiseDelay: int,
    clearDelay: int,
    timeToLive: int)

  /** The empty definition a received message is paired with. */
  const NO_DEFINITION := AlarmDefinition(0, "", "", "", 0, 0, 0)

  /** An entry of the active list or of the history: a message with its (copied) definition. */
  datatype AlarmNotification = AlarmNotification(message: AlarmMessage, definition: AlarmDefinition) {
    function SpecificProblem(): int { message.alarm.specificProblem }

    function Severity(): string { message.alarm.perceivedSeverity }

    /** The id the manager allocated; it lives in the copied definition. */
    function Id(): int { definition.alarmId }

    function Key(): Identity { IdentityOf(message.alarm) }

    function Tag(): AlarmTag { AlarmTag(Key(), Id()) }

    function WithRaiseDelay(delay: int): AlarmNotification {
      this.(definition := definition.(raiseDelay := delay))
    }
  }

  /** The four fields that make up the identity of an alarm. */
  datatype Identity = Identity(mo: string, app: string, sp: int, info: string)

  /** An identity together with the id of one particular raise of it. */
  datatype AlarmTag = AlarmTag(key: Identity, id: int)

  function IdentityOf(a: Alarm): Identity {
    Identity(a.managedObjectId, a.applicationId, a.specificProblem, a.identifyingInfo)
  }

  const ACTIVE_ALARM_EXCEED_MAX_THRESHOLD := 72007
  const ALARM_HISTORY_EXCEED_MAX_THRESHOLD := 72008

  /** The identities the manager raises by itself, through its own client ("SEP", "ALARMMANAGER"). */
  const ACTIVE_THRESHOLD := Identity("SEP", "ALARMMANAGER", ACTIVE_ALARM_EXCEED_MAX_THRESHOLD, "active")
  const HISTORY_THRESHOLD := Identity("SEP", "ALARMMANAGER", ALARM_HISTORY_EXCEED_MAX_THRESHOLD, "history")

  predicate IsThreshold(k: Identity) {
    k == ACTIVE_THRESHOLD || k == HISTORY_THRESHOLD
  }

  /** What alarminfo.json holds. */
  datatype Snapshot = Snapshot(
    uniqueAlarmId: int,
    active: seq<AlarmNotification>,
    history: seq<AlarmNotification>)
}
