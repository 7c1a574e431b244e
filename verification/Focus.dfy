/** The focus ticks shared by the daemon's threads and the channel between them (focus.rs). */
module Focus {

  /** A focus change seen by the monitor thread, numbered by its event counter. */
  datatype FocusEvent = FocusEvent(nodeId: int, ctr: nat)

  datatype FocusMessage =
    | TickUpdateInhibit
    | TickUpdateActivate
    | Focused(fev: FocusEvent)

  type Ticks = map<int, nat>

  /** The tick of a node; nodes without an entry count as never focused. */
  function LastFocusTick(ticks: Ticks, id: int): nat {
    if id in ticks then ticks[id] else 0
  }

  /** A lock-in: ignored when the node was closed in the meantime. */
  function LockedIn(ticks: Ticks, fev: FocusEvent): Ticks {
    if fev.nodeId in ticks then ticks[fev.nodeId := fev.ctr] else ticks
  }

  function Ensured(ticks: Ticks, id: int): Ticks {
    if id in ticks then ticks else ticks[id := 0]
  }

  function LockedInAll(ticks: Ticks, fevs: seq<FocusEvent>): Ticks {
    if fevs == [] then ticks
    else LockedIn(LockedInAll(ticks, fevs[..|fevs| - 1]), fevs[|fevs| - 1])
  }

  class FocusData {
    var focusTickById: Ticks
    var focusChan: seq<FocusMessage>

    constructor ()
      ensures focusTickById == map[] && focusChan == []
    {
      focusTickById := map[];
      focusChan := [];
    }

    method UpdateLastFocusTick(id: int, focusVal: nat)
      modifies this`focusTickById
      ensures focusTickById == LockedIn(old(focusTickById), FocusEvent(id, focusVal))
    {
      if id in focusTickById {
        focusTickById := focusTickById[id := focusVal];
      }
    }

    method RemoveFocusData(id: int)
      modifies this`focusTickById
      ensures focusTickById == old(focusTickById) - {id}
    {
      focusTickById := focusTickById - {id};
    }

    method EnsureId(id: int)
      modifies this`focusTickById
      ensures focusTickById == Ensured(old(focusTickById), id)
    {
      if id !in focusTickById {
        focusTickById := focusTickById[id := 0];
      }
    }

    method Send(fmsg: FocusMessage)
      modifies this
      ensures focusChan == old(focusChan) + [fmsg]
      ensures focusTickById == if fmsg.Focused? then Ensured(old(focusTickById), fmsg.fev.nodeId) else old(focusTickById)
    {
      if fmsg.Focused? {
        EnsureId(fmsg.fev.nodeId);
      }
      focusChan := focusChan + [fmsg];
    }
  }
}
