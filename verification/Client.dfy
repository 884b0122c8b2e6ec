/**
 The application library: an alarm client that hands its messages to the
 manager, by RMR or, failing that, by HTTP.
 */
module Client {
  import opened AlarmTypes
  import AlarmTable
  import ReraiseOutcome

  /** Whether each of the two ways of sending works this time. */
  datatype Link = Link(rmr: bool, http: bool) {
    predicate Works() { rmr || http }
  }

  class RICAlarm {
    var moId: string
    var appId: string
    var locked: bool
    var sent: seq<AlarmMessage>

    constructor (mo: string, id: string)
      ensures moId == mo && appId == id && !locked && sent == []
    {
      moId, appId, locked, sent := mo, id, false, [];
    }

    function NewAlarm(sp: int, severity: string, ainfo: string, iinfo: string): (a: Alarm)
      reads this
      ensures IdentityOf(a) == Identity(moId, appId, sp, iinfo)
      ensures a.perceivedSeverity == severity && a.additionalInfo == ainfo
    {
      AlarmTable.NewAlarm(moId, appId, sp, severity, ainfo, iinfo)
    }

    method SendAlarmUpdateReq(m: AlarmMessage, link: Link) returns (ok: bool)
      requires locked
      modifies this`sent
      ensures ok == link.Works() == (link.rmr || link.http)
      ensures sent == if ok then old(sent) + [m] else old(sent)
    {
      ok := link.rmr;
      if !ok {
        ok := link.http;
      }
      if ok {
        sent := sent + [m];
      }
    }

    method Raise(a: Alarm, now: int, link: Link) returns (ok: bool)
      requires !locked
      modifies this`sent, this`locked
      ensures !locked && ok == link.Works() == (link.rmr || link.http)
      ensures sent == if ok then old(sent) + [AlarmMessage(a, AlarmAction.Raise, now)] else old(sent)
    {
      locked := true;
      ok := SendAlarmUpdateReq(AlarmMessage(a, AlarmAction.Raise, now), link);
      locked := false;
    }

    method Clear(a: Alarm, now: int, link: Link) returns (ok: bool)
      requires !locked
      modifies this`sent, this`locked
      ensures !locked && ok == link.Works() == (link.rmr || link.http)
      ensures sent == if ok then old(sent) + [AlarmMessage(a, AlarmAction.Clear, now)] else old(sent)
    {
      locked := true;
      ok := SendAlarmUpdateReq(AlarmMessage(a, AlarmAction.Clear, now), link);
      locked := false;
    }

    /**
     First a CLEAR and then a RAISE, or nothing at all if the CLEAR cannot be
     sent. A failing RAISE leaves the CLEAR sent. What becomes of the alarm then
     is the subject of ReraiseOutcome.ReraiseEnds.
     */
    method Reraise(a: Alarm, t1: int, t2: int, link1: Link, link2: Link) returns (ok: bool)
      requires !locked
      modifies this`sent, this`locked
      ensures !locked && ok == (link1.Works() && link2.Works())
      ensures sent == old(sent) + ReraiseOutcome.Reraisal(a, t1, t2, link1.Works(), link2.Works())
      ensures sent == old(sent) + if !link1.Works() then []
                                  else if !link2.Works() then [AlarmMessage(a, AlarmAction.Clear, t1)]
                                  else [AlarmMessage(a, AlarmAction.Clear, t1), AlarmMessage(a, AlarmAction.Raise, t2)]
    {
      locked := true;
      ok := SendAlarmUpdateReq(AlarmMessage(a, AlarmAction.Clear, t1), link1);
      if ok {
        ok := SendAlarmUpdateReq(AlarmMessage(a, AlarmAction.Raise, t2), link2);
      }
      locked := false;
    }
  }
}
