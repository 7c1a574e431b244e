/** The monitor thread of the daemon: numbers sway's events and feeds the lock-in thread (daemon.rs). */
module Monitor {
  import opened Seqs
  import opened Focus

  datatype WindowChange = WindowFocus | WindowNew | WindowClose | WindowMove | WindowFloating | WindowOther

  datatype WorkspaceChange = WorkspaceInit | WorkspaceFocus | WorkspaceEmpty | WorkspaceOther

  /** The two kinds of sway events that advance the focus counter. */
  datatype SwayEvent = Window(wchange: WindowChange, id: int) | Workspace(schange: WorkspaceChange, id: int)

  /** What an event stream yields. */
  datatype Item = Counted(ev: SwayEvent) | Shutdown | Uncounted | Broken

  /** One attempt to connect and subscribe. */
  datatype Attempt = Refused | Connected(items: seq<Item>)

  const MAX_RESETS := 10

  predicate SendsFocus(ev: SwayEvent) {
    || (ev.Window? && ev.wchange.WindowFocus?)
    || (ev.Workspace? && (ev.schange.WorkspaceInit? || ev.schange.WorkspaceFocus?))
  }

  /** The event makes sure its node has an entry in the tick map. */
  predicate Adds(ev: SwayEvent) {
    SendsFocus(ev) || (ev.Window? && ev.wchange.WindowNew?)
  }

  /** The event removes its node's entry: a closed window or an emptied workspace. */
  predicate Removes(ev: SwayEvent) {
    (ev.Window? && ev.wchange.WindowClose?) || (ev.Workspace? && ev.schange.WorkspaceEmpty?)
  }

  function TicksAfter(ticks: Ticks, ev: SwayEvent): Ticks {
    if Adds(ev) then Ensured(ticks, ev.id) else if Removes(ev) then ticks - {ev.id} else ticks
  }

  function TicksAfterAll(ticks: Ticks, evs: seq<SwayEvent>): Ticks {
    if evs == [] then ticks else TicksAfter(TicksAfterAll(ticks, evs[..|evs| - 1]), evs[|evs| - 1])
  }

  /** The focus messages caused by a history of counted events: each carries its event's number. */
  function Messages(evs: seq<SwayEvent>): seq<FocusMessage> {
    if evs == [] then []
    else
      var n := |evs| - 1;
      if SendsFocus(evs[n]) then Messages(evs[..n]) + [Focused(FocusEvent(evs[n].id, n + 1))] else Messages(evs[..n])
  }

  /** The counted events before a shutdown, and whether there was one. */
  function CountedIn(items: seq<Item>): (seq<SwayEvent>, bool) {
    if items == [] then ([], false)
    else if items[0].Shutdown? then ([], true)
    else
      var (evs, down) := CountedIn(items[1..]);
      (if items[0].Counted? then [items[0].ev] + evs else evs, down)
  }

  /** All events handled over a list of connection attempts, `resets` of which just failed in a row. */
  function Handled(attempts: seq<Attempt>, resets: nat): seq<SwayEvent> {
    if attempts == [] || resets >= MAX_RESETS then []
    else
      match attempts[0]
      case Refused => Handled(attempts[1..], resets + 1)
      case Connected(items) =>
        var (evs, down) := CountedIn(items);
        if down then evs else evs + Handled(attempts[1..], if items == [] then resets + 1 else 0)
  }

  method HandleWindowEvent(change: WindowChange, id: int, fdata: FocusData, focusVal: nat) returns (affected: bool)
    modifies fdata
    ensures fdata.focusTickById == TicksAfter(old(fdata.focusTickById), Window(change, id))
    ensures fdata.focusChan == if SendsFocus(Window(change, id))
                               then old(fdata.focusChan) + [Focused(FocusEvent(id, focusVal))]
                               else old(fdata.focusChan)
    ensures affected <==> Adds(Window(change, id)) || Removes(Window(change, id))
    ensures match change
            case WindowFocus | WindowNew => fdata.focusTickById == Ensured(old(fdata.focusTickById), id)
            case WindowClose => fdata.focusTickById == old(fdata.focusTickById) - {id}
            case _ => fdata.focusTickById == old(fdata.focusTickById)
    ensures fdata.focusChan != old(fdata.focusChan) <==> change == WindowFocus
  {
    match change {
      case WindowFocus =>
        fdata.Send(Focused(FocusEvent(id, focusVal)));
        affected := true;
      case WindowNew =>
        fdata.EnsureId(id);
        affected := true;
      case WindowClose =>
        fdata.RemoveFocusData(id);
        affected := true;
      case _ =>
        affected := false;
    }
  }

  method HandleWorkspaceEvent(change: WorkspaceChange, id: int, fdata: FocusData, focusVal: nat) returns (affected: bool)
    modifies fdata
    ensures fdata.focusTickById == TicksAfter(old(fdata.focusTickById), Workspace(change, id))
    ensures fdata.focusChan == if SendsFocus(Workspace(change, id))
                               then old(fdata.focusChan) + [Focused(FocusEvent(id, focusVal))]
                               else old(fdata.focusChan)
    ensures affected <==> Adds(Workspace(change, id)) || Removes(Workspace(change, id))
    ensures match change
            case WorkspaceInit | WorkspaceFocus => fdata.focusTickById == Ensured(old(fdata.focusTickById), id)
            case WorkspaceEmpty => fdata.focusTickById == old(fdata.focusTickById) - {id}
            case WorkspaceOther => fdata.focusTickById == old(fdata.focusTickById)
    ensures fdata.focusChan != old(fdata.focusChan) <==> change == WorkspaceInit || change == WorkspaceFocus
  {
    match change {
      case WorkspaceInit | WorkspaceFocus =>
        fdata.Send(Focused(FocusEvent(id, focusVal)));
        affected := true;
      case WorkspaceEmpty =>
        fdata.RemoveFocusData(id);
        affected := true;
      case WorkspaceOther =>
        affected := false;
    }
  }

  ghost predicate Recorded(fdata: FocusData, ticks: Ticks, chan: seq<FocusMessage>, evs: seq<SwayEvent>)
    reads fdata
  {
    fdata.focusTickById == TicksAfterAll(ticks, evs) && fdata.focusChan == chan + Messages(evs)
  }

  /** Counts and handles one event; `evs` are the events handled so far. */
  method HandleCounted(ev: SwayEvent, fdata: FocusData, focusCounter: nat,
                       ghost ticks: Ticks, ghost chan: seq<FocusMessage>, ghost evs: seq<SwayEvent>)
    returns (focusCounter': nat)
    requires Recorded(fdata, ticks, chan, evs) && focusCounter == |evs|
    modifies fdata
    ensures Recorded(fdata, ticks, chan, evs + [ev]) && focusCounter' == |evs + [ev]|
  {
    assert (evs + [ev])[..|evs|] == evs;
    focusCounter' := focusCounter + 1;
    var affected;
    match ev {
      case Window(change, id) => affected := HandleWindowEvent(change, id, fdata, focusCounter');
      case Workspace(change, id) => affected := HandleWorkspaceEvent(change, id, fdata, focusCounter');
    }
    assert SendsFocus(ev) ==>
        chan + Messages(evs + [ev]) == chan + Messages(evs) + [Focused(FocusEvent(ev.id, focusCounter'))];
  }

  /** The loop over the items of one connection; `down` says that sway shut down. */
  method HandleStream(items: seq<Item>, fdata: FocusData, focusCounter: nat,
                      ghost ticks: Ticks, ghost chan: seq<FocusMessage>, ghost evs: seq<SwayEvent>)
    returns (focusCounter': nat, down: bool)
    requires Recorded(fdata, ticks, chan, evs) && focusCounter == |evs|
    modifies fdata
    ensures Recorded(fdata, ticks, chan, evs + CountedIn(items).0) && focusCounter' == |evs + CountedIn(items).0|
    ensures down == CountedIn(items).1
  {
    focusCounter', down := focusCounter, false;
    ghost var all := evs;
    var k := 0;
    while k < |items|
      invariant 0 <= k <= |items|
      invariant Recorded(fdata, ticks, chan, all) && focusCounter' == |all|
      invariant all + CountedIn(items[k..]).0 == evs + CountedIn(items).0
      invariant CountedIn(items[k..]).1 == CountedIn(items).1
    {
      assert items[k..][1..] == items[k + 1..];
      if items[k].Counted? {
        focusCounter' := HandleCounted(items[k].ev, fdata, focusCounter', ticks, chan, all);
        all := all + [items[k].ev];
      } else if items[k].Shutdown? {
        assert all + [] == all;
        return focusCounter', true;
      }
      k := k + 1;
    }
    assert all + [] == all;
  }

  /** The event loop with its reconnects; an attempt list stands for what the connections do. */
  method MonitorSwayEvents(fdata: FocusData, attempts: seq<Attempt>) returns (focusCounter: nat)
    modifies fdata
    ensures focusCounter == |Handled(attempts, 0)|
    ensures fdata.focusTickById == TicksAfterAll(old(fdata.focusTickById), Handled(attempts, 0))
    ensures fdata.focusChan == old(fdata.focusChan) + Messages(Handled(attempts, 0))
  {
    ghost var ticks, chan := fdata.focusTickById, fdata.focusChan;
    ghost var evs: seq<SwayEvent> := [];
    focusCounter := 0;
    var resets := 0;
    var a := 0;
    while a < |attempts|
      invariant 0 <= a <= |attempts|
      invariant Recorded(fdata, ticks, chan, evs) && focusCounter == |evs|
      invariant evs + Handled(attempts[a..], resets) == Handled(attempts, 0)
    {
      if resets >= MAX_RESETS {
        break;
      }
      assert attempts[a..][1..] == attempts[a + 1..];
      resets := resets + 1;
      if attempts[a].Connected? {
        var items := attempts[a].items;
        if items != [] {
          resets := 0;
        }
        var down;
        focusCounter, down := HandleStream(items, fdata, focusCounter, ticks, chan, evs);
        ghost var here := CountedIn(items).0;
        if down {
          assert evs + here == Handled(attempts, 0);
          return;
        }
        assert (evs + here) + Handled(attempts[a + 1..], resets) == evs + (here + Handled(attempts[a + 1..], resets));
        evs := evs + here;
      }
      a := a + 1;
    }
    assert evs + [] == evs;
  }

  /** Across all reconnects the counters of the messages sent strictly increase. */
  lemma {:induction false} MessageCountersIncrease(evs: seq<SwayEvent>)
    ensures forall i :: 0 <= i < |Messages(evs)| ==> Messages(evs)[i].Focused? && 1 <= Messages(evs)[i].fev.ctr <= |evs|
    ensures forall i, j :: 0 <= i < j < |Messages(evs)| ==> Messages(evs)[i].fev.ctr < Messages(evs)[j].fev.ctr
  {
    if evs != [] {
      MessageCountersIncrease(evs[..|evs| - 1]);
    }
  }

  /** The messages sent are one for each focus of a window and each opening or focus of a workspace, with its number. */
  lemma {:induction false} MessagesByEvents(evs: seq<SwayEvent>, id: int, n: nat)
    ensures Focused(FocusEvent(id, n)) in Messages(evs) <==>
            && 1 <= n <= |evs|
            && evs[n - 1] in {Window(WindowFocus, id), Workspace(WorkspaceInit, id), Workspace(WorkspaceFocus, id)}
  {
    if evs != [] {
      MessagesByEvents(evs[..|evs| - 1], id, n);
    }
  }

  // ---------------------------------------------------------------------------------------
  // Connections

  function Refusals(k: nat): seq<Attempt> {
    seq(k, _ => Refused)
  }

  /** Ten failures in a row end the monitor, fewer do not. */
  lemma {:induction false} GivesUpAfterTen(k: nat, attempts: seq<Attempt>, resets: nat)
    ensures Handled(Refusals(k) + attempts, resets) == if resets + k >= 10 then [] else Handled(attempts, resets + k)
    decreases k
  {
    if k == 0 {
      assert Refusals(0) + attempts == attempts;
    } else {
      var all := Refusals(k) + attempts;
      assert all[0] == Refused && all[1..] == Refusals(k - 1) + attempts;
      GivesUpAfterTen(k - 1, attempts, resets + 1);
    }
  }

  function EventsOf(items: seq<Item>): seq<SwayEvent> {
    var counted := Filter(items, (i: Item) => i.Counted?);
    seq(|counted|, i requires 0 <= i < |counted| => assert counted[i] in counted; counted[i].ev)
  }

  /** A connection delivers its counted events up to the first shutdown, errors and other events skipped. */
  lemma {:induction false} EventsBeforeShutdown(items: seq<Item>, rest: seq<Item>)
    requires Shutdown !in items
    ensures CountedIn(items) == (EventsOf(items), false)
    ensures CountedIn(items + [Shutdown] + rest) == (EventsOf(items), true)
    decreases |items|
  {
    var all := items + [Shutdown] + rest;
    if items == [] {
      assert all[0] == Shutdown && EventsOf(items) == [];
    } else {
      assert all[0] == items[0] && all[1..] == items[1..] + [Shutdown] + rest;
      EventsBeforeShutdown(items[1..], rest);
      EventsOfHead(items);
    }
  }

  lemma EventsOfHead(items: seq<Item>)
    requires items != []
    ensures EventsOf(items) == if items[0].Counted? then [items[0].ev] + EventsOf(items[1..]) else EventsOf(items[1..])
  {}

  /** A connection that delivers anything clears the count of failures; a shutdown ends the monitor. */
  lemma ConnectionHandled(items: seq<Item>, rest: seq<Item>, attempts: seq<Attempt>, resets: nat)
    requires Shutdown !in items && resets < 10
    ensures Handled([Connected(items)] + attempts, resets)
            == EventsOf(items) + Handled(attempts, if items == [] then resets + 1 else 0)
    ensures Handled([Connected(items + [Shutdown] + rest)] + attempts, resets) == EventsOf(items)
  {
    EventsBeforeShutdown(items, rest);
    assert ([Connected(items)] + attempts)[1..] == attempts;
  }
}
