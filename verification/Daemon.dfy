/**
 The daemon's threads as one step system: the monitor thread, the threads that execute
 commands, and the lock-in thread, sharing the tick map and a FIFO channel.  A run is any
 interleaving of their atomic steps (one lock acquisition or one channel operation each).
 */
module Daemon {
  import opened Options
  import opened Seqs
  import opened Focus
  import opened Monitor
  import LockIn

  /** The monitor thread between events, or between `ensure_id` and the channel send. */
  datatype MonitorLocation = Idle | Sending(fev: FocusEvent)

  /** `inputs` and `locked` are history: what the lock-in thread received and what it wrote. */
  datatype State = State(
    ticks: Ticks,
    chan: seq<FocusMessage>,
    counter: nat,
    monitor: MonitorLocation,
    handler: LockIn.Handler,
    writing: Option<FocusEvent>,
    inputs: seq<LockIn.Input>,
    locked: seq<FocusEvent>)

  datatype Label =
    | Sway(ev: SwayEvent)         // the monitor thread takes a counted event
    | Reconnect                   // ... or an error, or a fresh connection
    | MonitorSend                 // ... or sends the focus event it prepared
    | Command(cycling: bool)      // a command starts: inhibit for next/prev commands, else activate
    | Receive                     // the lock-in thread receives a message
    | Timeout                     // ... or its lock-in delay expires
    | Write                       // ... or it writes the tick it decided to lock in

  const INITIAL := State(map[], [], 0, Idle, LockIn.INITIAL, None, [], [])

  predicate Enabled(s: State, l: Label) {
    match l
    case Sway(_) => s.monitor.Idle?
    case Reconnect => s.monitor.Idle?
    case MonitorSend => s.monitor.Sending?
    case Command(_) => true
    case Receive => s.writing.None? && s.chan != []
    case Timeout => s.writing.None? && s.chan == [] && s.handler.loc.Inner?
    case Write => s.writing.Some?
  }

  function Handle(s: State, input: LockIn.Input, seqInhibit: bool): State {
    var (h, out) := LockIn.Step(s.handler, input, seqInhibit);
    s.(handler := h, writing := out, inputs := s.inputs + [input])
  }

  function Next(s: State, l: Label, seqInhibit: bool): State
    requires Enabled(s, l)
  {
    match l
    case Sway(ev) =>
      var c := s.counter + 1;
      s.(ticks := TicksAfter(s.ticks, ev), counter := c,
         monitor := if SendsFocus(ev) then Sending(FocusEvent(ev.id, c)) else Idle)
    case Reconnect => s
    case MonitorSend => s.(chan := s.chan + [Focused(s.monitor.fev)], monitor := Idle)
    case Command(cycling) => s.(chan := s.chan + [if cycling then TickUpdateInhibit else TickUpdateActivate])
    case Receive => Handle(s.(chan := s.chan[1..]), LockIn.Message(s.chan[0]), seqInhibit)
    case Timeout => Handle(s, LockIn.Elapsed, seqInhibit)
    case Write =>
      s.(ticks := LockedIn(s.ticks, s.writing.value), writing := None, locked := s.locked + [s.writing.value])
  }

  /** The schedule is possible from `s`. */
  predicate CanRun(s: State, ls: seq<Label>, seqInhibit: bool)
    decreases |ls|
  {
    ls != [] ==> Enabled(s, ls[0]) && CanRun(Next(s, ls[0], seqInhibit), ls[1..], seqInhibit)
  }

  function After(s: State, ls: seq<Label>, seqInhibit: bool): State
    requires CanRun(s, ls, seqInhibit)
    decreases |ls|
  {
    if ls == [] then s else After(Next(s, ls[0], seqInhibit), ls[1..], seqInhibit)
  }

  // ---------------------------------------------------------------------------------------
  // Event counters along the pipeline

  function Held(o: Option<FocusEvent>): seq<FocusEvent> {
    if o.Some? then [o.value] else []
  }

  function FocusEvents(chan: seq<FocusMessage>): seq<FocusEvent> {
    if chan == [] then []
    else (if chan[0].Focused? then [chan[0].fev] else []) + FocusEvents(chan[1..])
  }

  /** Every event that was or may still be locked in, oldest first. */
  function Pipeline(s: State): seq<FocusEvent> {
    s.locked + Middle(s.writing, LockIn.Abstract(s.handler).slot) + Queued(s.chan, s.monitor)
  }

  /** The event being written and the event held back. */
  function Middle(writing: Option<FocusEvent>, slot: Option<FocusEvent>): seq<FocusEvent> {
    if writing.None? then Held(slot) else if slot.None? then Held(writing) else [writing.value, slot.value]
  }

  /** The events on their way to the lock-in thread. */
  function Queued(chan: seq<FocusMessage>, monitor: MonitorLocation): seq<FocusEvent> {
    if monitor.Sending? then FocusEvents(chan) + [monitor.fev] else FocusEvents(chan)
  }

  predicate Increasing(evs: seq<FocusEvent>) {
    forall i, j :: 0 <= i < j < |evs| ==> evs[i].ctr < evs[j].ctr
  }

  /** Numbered in strictly increasing order, within the monitor's count. */
  predicate Numbered(evs: seq<FocusEvent>, counter: nat) {
    Increasing(evs) && forall i :: 0 <= i < |evs| ==> 1 <= evs[i].ctr <= counter
  }

  /** A nonzero tick is the counter of a lock-in of that very node. */
  ghost predicate TicksExplained(s: State) {
    forall id :: id in s.ticks && s.ticks[id] != 0 ==> FocusEvent(id, s.ticks[id]) in s.locked
  }

  ghost predicate Inv(s: State, seqInhibit: bool) {
    && Numbered(Pipeline(s), s.counter)
    && TicksExplained(s)
    && LockIn.Valid(s.handler)
    && (s.writing.Some? ==> s.handler.inhibit.FocusActive? && s.handler.loc.Outer?)
    && s.handler == LockIn.Run(s.inputs, seqInhibit)
    && LockIn.Append(s.locked, s.writing) == LockIn.LockIns(s.inputs, seqInhibit)
  }

  lemma {:induction false} FocusEventsAppend(chan: seq<FocusMessage>, m: FocusMessage)
    ensures FocusEvents(chan + [m]) == if m.Focused? then FocusEvents(chan) + [m.fev] else FocusEvents(chan)
  {
    if chan == [] {
      assert chan + [m] == [m] && [m][1..] == [];
    } else {
      assert (chan + [m])[1..] == chan[1..] + [m] && (chan + [m])[0] == chan[0];
      FocusEventsAppend(chan[1..], m);
    }
  }

  /** A newly received event drops the one held before it. */
  lemma Supersede(locked: seq<FocusEvent>, slot: seq<FocusEvent>, queued: seq<FocusEvent>, counter: nat)
    requires queued != [] && Numbered(locked + slot + queued, counter)
    ensures Numbered(locked + [queued[0]] + queued[1..], counter)
  {
    var t := locked + slot + queued;
    var r := locked + [queued[0]] + queued[1..];
    assert r == locked + queued;
    assert forall i :: 0 <= i < |r| ==> r[i] == t[if i < |locked| then i else i + |slot|];
  }

  lemma ReceiveQueued(chan: seq<FocusMessage>, monitor: MonitorLocation)
    requires chan != []
    ensures if chan[0].Focused?
            then Queued(chan, monitor) == [chan[0].fev] + Queued(chan[1..], monitor)
            else Queued(chan, monitor) == Queued(chan[1..], monitor)
  {}

  lemma HandlePipeline(s: State, input: LockIn.Input, seqInhibit: bool)
    requires s.writing.None? && LockIn.Valid(s.handler)
    requires if input.Message? && input.msg.Focused?
             then Numbered(s.locked + Held(LockIn.Abstract(s.handler).slot)
                           + ([input.msg.fev] + Queued(s.chan, s.monitor)), s.counter)
             else Numbered(Pipeline(s), s.counter)
    ensures Numbered(Pipeline(Handle(s, input, seqInhibit)), s.counter)
  {
    LockIn.StepRefines(s.handler, input, seqInhibit);
    if input.Message? && input.msg.Focused? {
      Supersede(s.locked, Held(LockIn.Abstract(s.handler).slot), [input.msg.fev] + Queued(s.chan, s.monitor), s.counter);
    }
  }

  /** One more input: the handler and its lock-ins follow. */
  lemma HandleHistory(inputs: seq<LockIn.Input>, input: LockIn.Input, seqInhibit: bool)
    ensures var (h, out) := LockIn.Step(LockIn.Run(inputs, seqInhibit), input, seqInhibit);
            && LockIn.Run(inputs + [input], seqInhibit) == h
            && LockIn.LockIns(inputs + [input], seqInhibit) == LockIn.Append(LockIn.LockIns(inputs, seqInhibit), out)
  {
    var t := inputs + [input];
    LockIn.PrefixStep(t, |inputs|, seqInhibit);
    assert t[..|inputs|] == inputs && t[..|inputs| + 1] == t;
  }

  /** A handler that locks in is then active and waits for the next event. */
  lemma WritingIsActive(h: LockIn.Handler, input: LockIn.Input, seqInhibit: bool)
    requires LockIn.Valid(h)
    ensures var (h', out) := LockIn.Step(h, input, seqInhibit);
            LockIn.Valid(h') && (out.Some? ==> h'.inhibit.FocusActive? && h'.loc.Outer?)
  {
    LockIn.StepRefines(h, input, seqInhibit);
  }

  lemma ProducerPipeline(s: State, l: Label, seqInhibit: bool)
    requires Numbered(Pipeline(s), s.counter)
    requires Enabled(s, l) && (l.Sway? || l.MonitorSend? || l.Command?)
    ensures var s' := Next(s, l, seqInhibit); Numbered(Pipeline(s'), s'.counter)
  {
    var s' := Next(s, l, seqInhibit);
    match l
    case MonitorSend =>
      FocusEventsAppend(s.chan, Focused(s.monitor.fev));
    case Command(cycling) =>
      FocusEventsAppend(s.chan, if cycling then TickUpdateInhibit else TickUpdateActivate);
    case Sway(ev) =>
      if SendsFocus(ev) {
        assert Pipeline(s') == Pipeline(s) + [FocusEvent(ev.id, s.counter + 1)];
      }
  }

  lemma WritePipeline(s: State, seqInhibit: bool)
    requires s.writing.Some? && LockIn.Abstract(s.handler).slot.None?
    ensures Pipeline(Next(s, Write, seqInhibit)) == Pipeline(s)
  {}

  lemma TicksStayExplained(s: State, l: Label, seqInhibit: bool)
    requires TicksExplained(s) && Enabled(s, l)
    ensures TicksExplained(Next(s, l, seqInhibit))
  {}

  /** Every step of every thread keeps the invariant. */
  lemma InvPreserved(s: State, l: Label, seqInhibit: bool)
    requires Inv(s, seqInhibit) && Enabled(s, l)
    ensures Inv(Next(s, l, seqInhibit), seqInhibit)
  {
    TicksStayExplained(s, l, seqInhibit);
    match l
    case Receive =>
      var t := s.(chan := s.chan[1..]);
      ReceiveQueued(s.chan, s.monitor);
      HandlePipeline(t, LockIn.Message(s.chan[0]), seqInhibit);
      HandleHistory(s.inputs, LockIn.Message(s.chan[0]), seqInhibit);
      WritingIsActive(s.handler, LockIn.Message(s.chan[0]), seqInhibit);
    case Timeout =>
      HandlePipeline(s, LockIn.Elapsed, seqInhibit);
      HandleHistory(s.inputs, LockIn.Elapsed, seqInhibit);
      WritingIsActive(s.handler, LockIn.Elapsed, seqInhibit);
    case Write =>
      WritePipeline(s, seqInhibit);
    case Reconnect =>
    case _ =>
      ProducerPipeline(s, l, seqInhibit);
  }

  lemma {:induction false} InvAlongRun(s: State, ls: seq<Label>, seqInhibit: bool)
    requires Inv(s, seqInhibit) && CanRun(s, ls, seqInhibit)
    ensures Inv(After(s, ls, seqInhibit), seqInhibit)
    decreases |ls|
  {
    if ls != [] {
      InvPreserved(s, ls[0], seqInhibit);
      InvAlongRun(Next(s, ls[0], seqInhibit), ls[1..], seqInhibit);
    }
  }

  /** In every run, lock-ins happen in strictly increasing order of their counters. */
  lemma LockInsIncrease(ls: seq<Label>, seqInhibit: bool)
    requires CanRun(INITIAL, ls, seqInhibit)
    ensures Inv(After(INITIAL, ls, seqInhibit), seqInhibit)
    ensures Increasing(After(INITIAL, ls, seqInhibit).locked)
  {
    InvAlongRun(INITIAL, ls, seqInhibit);
    var s := After(INITIAL, ls, seqInhibit);
    assert s.locked == Pipeline(s)[..|s.locked|];
  }

  /** In every run, no two nodes share a nonzero tick. */
  lemma TicksUnique(ls: seq<Label>, seqInhibit: bool)
    requires CanRun(INITIAL, ls, seqInhibit)
    ensures var ticks := After(INITIAL, ls, seqInhibit).ticks;
            forall a, b :: a in ticks && b in ticks && a != b && ticks[a] == ticks[b] ==> ticks[a] == 0
  {
    LockInsIncrease(ls, seqInhibit);
    var s := After(INITIAL, ls, seqInhibit);
    assert forall a :: a in s.ticks && s.ticks[a] != 0 ==> FocusEvent(a, s.ticks[a]) in s.locked;
  }

  /** In every run, a lock-in of a node that still exists makes it the strict maximum of the tick map. */
  lemma LockInIsStrictMaximum(ls: seq<Label>, seqInhibit: bool)
    requires CanRun(INITIAL, ls, seqInhibit)
    ensures var s := After(INITIAL, ls, seqInhibit);
            s.writing.Some? && s.writing.value.nodeId in s.ticks ==>
              var ticks := Next(s, Write, seqInhibit).ticks;
              forall id :: id in ticks && id != s.writing.value.nodeId ==> ticks[id] < ticks[s.writing.value.nodeId]
  {
    LockInsIncrease(ls, seqInhibit);
    var s := After(INITIAL, ls, seqInhibit);
    if s.writing.Some? && s.writing.value.nodeId in s.ticks {
      var n := |s.locked|;
      assert Pipeline(s)[..n] == s.locked && Pipeline(s)[n] == s.writing.value;
      forall id | id in s.ticks
        ensures s.ticks[id] < s.writing.value.ctr
      {
        if s.ticks[id] != 0 {
          var i :| 0 <= i < n && s.locked[i] == FocusEvent(id, s.ticks[id]);
          assert Pipeline(s)[i].ctr < Pipeline(s)[n].ctr;
        }
      }
    }
  }

  // ---------------------------------------------------------------------------------------
  // Closed nodes stay closed

  predicate AddsNode(l: Label, id: int) {
    l.Sway? && Adds(l.ev) && l.ev.id == id
  }

  predicate RemovesNode(l: Label, id: int) {
    l.Sway? && Removes(l.ev) && l.ev.id == id
  }

  /** The monitor's own new, focus, close and empty events decide, whatever is queued or in flight. */
  ghost predicate PresentAfter(ls: seq<Label>, id: int, initially: bool) {
    || (initially && forall k :: 0 <= k < |ls| ==> !RemovesNode(ls[k], id))
    || exists i :: 0 <= i < |ls| && AddsNode(ls[i], id) && forall k :: i < k < |ls| ==> !RemovesNode(ls[k], id)
  }

  /** A node has a tick entry exactly when the monitor added it and did not remove it since. */
  lemma {:induction false} PresenceDecidedByMonitor(s: State, ls: seq<Label>, seqInhibit: bool, id: int)
    requires CanRun(s, ls, seqInhibit)
    ensures id in After(s, ls, seqInhibit).ticks <==> PresentAfter(ls, id, id in s.ticks)
    decreases |ls|
  {
    if ls != [] {
      var s' := Next(s, ls[0], seqInhibit);
      PresenceDecidedByMonitor(s', ls[1..], seqInhibit, id);
      PresentAfterHead(ls, id, id in s.ticks);
    }
  }

  lemma PresentAfterHead(ls: seq<Label>, id: int, initially: bool)
    requires ls != []
    ensures PresentAfter(ls, id, initially) <==>
            PresentAfter(ls[1..], id, AddsNode(ls[0], id) || (initially && !RemovesNode(ls[0], id)))
  {}

  // ---------------------------------------------------------------------------------------
  // Inhibited ticks are frozen

  /** The lock-in thread is inhibited and no activation is on its way. */
  predicate Frozen(s: State) {
    s.handler.inhibit.FocusInhibit? && TickUpdateActivate !in s.chan
  }

  /** Receiving an inhibit message freezes the ticks, unless an activation is already queued behind it. */
  lemma FreezeBegins(s: State)
    requires Inv(s, true) && Enabled(s, Receive) && s.chan[0] == TickUpdateInhibit
    ensures Frozen(Next(s, Receive, true)) <==> TickUpdateActivate !in s.chan[1..]
  {
    LockIn.StepRefines(s.handler, LockIn.Message(s.chan[0]), true);
  }

  lemma FrozenKept(s: State, l: Label)
    requires Inv(s, true) && Frozen(s) && Enabled(s, l) && l != Command(false)
    ensures Inv(Next(s, l, true), true) && Frozen(Next(s, l, true))
  {
    InvPreserved(s, l, true);
  }

  /** While frozen, no thread's step changes the tick of a node, short of the node being closed. */
  lemma FrozenTick(s: State, l: Label, id: int)
    requires Inv(s, true) && Frozen(s) && Enabled(s, l) && !RemovesNode(l, id)
    ensures LastFocusTick(Next(s, l, true).ticks, id) == LastFocusTick(s.ticks, id)
  {}

  /** Once frozen, the ticks stay as they are until a command other than next or previous arrives. */
  lemma {:induction false} FrozenUntilActivated(s: State, ls: seq<Label>, id: int)
    requires Inv(s, true) && Frozen(s) && CanRun(s, ls, true)
    requires forall k :: 0 <= k < |ls| ==> ls[k] != Command(false) && !RemovesNode(ls[k], id)
    ensures Frozen(After(s, ls, true))
    ensures LastFocusTick(After(s, ls, true).ticks, id) == LastFocusTick(s.ticks, id)
    decreases |ls|
  {
    if ls != [] {
      FrozenKept(s, ls[0]);
      FrozenTick(s, ls[0], id);
      FrozenUntilActivated(Next(s, ls[0], true), ls[1..], id);
    }
  }

  // ---------------------------------------------------------------------------------------
  // What sway's events do, by name

  /** A node has a tick entry exactly if an event made it known, by focus or as new, and none closed or emptied it since. */
  lemma PresenceByEvents(ls: seq<Label>, seqInhibit: bool, id: int)
    requires CanRun(INITIAL, ls, seqInhibit)
    ensures id in After(INITIAL, ls, seqInhibit).ticks <==>
            exists i :: 0 <= i < |ls|
              && ls[i] in {Sway(Window(WindowFocus, id)), Sway(Window(WindowNew, id)),
                           Sway(Workspace(WorkspaceInit, id)), Sway(Workspace(WorkspaceFocus, id))}
              && forall k :: i < k < |ls| ==> ls[k] !in {Sway(Window(WindowClose, id)), Sway(Workspace(WorkspaceEmpty, id))}
  {
    PresenceDecidedByMonitor(INITIAL, ls, seqInhibit, id);
    forall k | 0 <= k < |ls|
      ensures AddsNode(ls[k], id) <==>
              ls[k] in {Sway(Window(WindowFocus, id)), Sway(Window(WindowNew, id)),
                        Sway(Workspace(WorkspaceInit, id)), Sway(Workspace(WorkspaceFocus, id))}
      ensures RemovesNode(ls[k], id) <==> ls[k] in {Sway(Window(WindowClose, id)), Sway(Workspace(WorkspaceEmpty, id))}
    {
      NamedEvents(ls[k], id);
    }
  }

  lemma NamedEvents(l: Label, id: int)
    ensures AddsNode(l, id) <==>
            l in {Sway(Window(WindowFocus, id)), Sway(Window(WindowNew, id)),
                  Sway(Workspace(WorkspaceInit, id)), Sway(Workspace(WorkspaceFocus, id))}
    ensures RemovesNode(l, id) <==> l in {Sway(Window(WindowClose, id)), Sway(Workspace(WorkspaceEmpty, id))}
  {}

  /** The events of a schedule, in the order of the monitor. */
  function EventsIn(ls: seq<Label>): seq<SwayEvent> {
    if ls == [] then []
    else
      var n := |ls| - 1;
      if ls[n].Sway? then EventsIn(ls[..n]) + [ls[n].ev] else EventsIn(ls[..n])
  }

  function Received(inputs: seq<LockIn.Input>): seq<FocusMessage> {
    if inputs == [] then []
    else
      var n := |inputs| - 1;
      if inputs[n].Message? then Received(inputs[..n]) + [inputs[n].msg] else Received(inputs[..n])
  }

  /** Everything that went into the channel, or is about to, oldest first. */
  function Passed(s: State): seq<FocusMessage> {
    Received(s.inputs) + s.chan + (if s.monitor.Sending? then [Focused(s.monitor.fev)] else [])
  }

  function FocusOnly(msgs: seq<FocusMessage>): seq<FocusMessage> {
    Filter(msgs, (m: FocusMessage) => m.Focused?)
  }

  /** The focus messages that have passed are the monitor's, all of them and in order. */
  ghost predicate AllSent(s: State, evs: seq<SwayEvent>) {
    s.counter == |evs| && FocusOnly(Passed(s)) == Messages(evs)
  }

  lemma FocusOnlyAppend(a: seq<FocusMessage>, b: seq<FocusMessage>)
    ensures FocusOnly(a + b) == FocusOnly(a) + FocusOnly(b)
  {
    FilterConcat(a, b, (m: FocusMessage) => m.Focused?);
  }

  lemma FocusOnlyOne(m: FocusMessage)
    ensures FocusOnly([m]) == if m.Focused? then [m] else []
  {
    var p := (x: FocusMessage) => x.Focused?;
    var rest := [m][1..];
    assert rest == [] && Filter(rest, p) == [];
    assert Filter([m], p) == if p(m) then [m] + Filter(rest, p) else Filter(rest, p);
  }

  lemma ReceivedAppend(inputs: seq<LockIn.Input>, i: LockIn.Input)
    ensures Received(inputs + [i]) == if i.Message? then Received(inputs) + [i.msg] else Received(inputs)
  {
    assert (inputs + [i])[..|inputs|] == inputs;
  }

  lemma SwayStepSends(s: State, ev: SwayEvent, evs: seq<SwayEvent>, seqInhibit: bool)
    requires Enabled(s, Sway(ev)) && AllSent(s, evs)
    ensures AllSent(Next(s, Sway(ev), seqInhibit), evs + [ev])
  {
    var s' := Next(s, Sway(ev), seqInhibit);
    assert (evs + [ev])[..|evs|] == evs;
    if SendsFocus(ev) {
      var m := Focused(FocusEvent(ev.id, s.counter + 1));
      assert Passed(s) == Received(s.inputs) + s.chan;
      assert Passed(s') == Passed(s) + [m];
      FocusOnlyAppend(Passed(s), [m]);
      FocusOnlyOne(m);
    } else {
      assert Passed(s') == Passed(s);
    }
  }

  lemma CommandStepSends(s: State, cycling: bool, evs: seq<SwayEvent>, seqInhibit: bool)
    requires AllSent(s, evs)
    ensures AllSent(Next(s, Command(cycling), seqInhibit), evs)
  {
    var m := if cycling then TickUpdateInhibit else TickUpdateActivate;
    var pending := if s.monitor.Sending? then [Focused(s.monitor.fev)] else [];
    var sofar := Received(s.inputs) + s.chan;
    FocusOnlyAppend(sofar, pending);
    FocusOnlyAppend(sofar + [m], pending);
    FocusOnlyAppend(sofar, [m]);
    FocusOnlyOne(m);
    assert Received(s.inputs) + (s.chan + [m]) == sofar + [m];
  }

  lemma ReceiveStepSends(s: State, evs: seq<SwayEvent>, seqInhibit: bool)
    requires Enabled(s, Receive) && AllSent(s, evs)
    ensures AllSent(Next(s, Receive, seqInhibit), evs)
  {
    ReceivedAppend(s.inputs, LockIn.Message(s.chan[0]));
    assert Received(s.inputs) + [s.chan[0]] + s.chan[1..] == Received(s.inputs) + s.chan;
  }

  lemma StepSends(s: State, l: Label, evs: seq<SwayEvent>, seqInhibit: bool)
    requires Enabled(s, l) && AllSent(s, evs)
    ensures AllSent(Next(s, l, seqInhibit), if l.Sway? then evs + [l.ev] else evs)
  {
    match l
    case Sway(ev) => SwayStepSends(s, ev, evs, seqInhibit);
    case Command(cycling) => CommandStepSends(s, cycling, evs, seqInhibit);
    case Receive => ReceiveStepSends(s, evs, seqInhibit);
    case Timeout => ReceivedAppend(s.inputs, LockIn.Elapsed);
    case MonitorSend => assert Passed(Next(s, l, seqInhibit)) == Passed(s);
    case _ =>
  }

  lemma {:induction false} SendsAlongRun(s: State, ls: seq<Label>, evs: seq<SwayEvent>, seqInhibit: bool)
    requires CanRun(s, ls, seqInhibit) && AllSent(s, evs)
    ensures AllSent(After(s, ls, seqInhibit), evs + EventsIn(ls))
    decreases |ls|
  {
    if ls == [] {
      assert evs + [] == evs;
    } else {
      StepSends(s, ls[0], evs, seqInhibit);
      var evs' := if ls[0].Sway? then evs + [ls[0].ev] else evs;
      SendsAlongRun(Next(s, ls[0], seqInhibit), ls[1..], evs', seqInhibit);
      EventsInHead(ls);
      assert evs + ((if ls[0].Sway? then [ls[0].ev] else []) + EventsIn(ls[1..])) == evs' + EventsIn(ls[1..]);
    }
  }

  lemma {:induction false} EventsInHead(ls: seq<Label>)
    requires ls != []
    ensures EventsIn(ls) == (if ls[0].Sway? then [ls[0].ev] else []) + EventsIn(ls[1..])
    decreases |ls|
  {
    var n := |ls| - 1;
    if n == 0 {
      assert ls[..0] == [] && ls[1..] == [];
    } else {
      EventsInHead(ls[..n]);
      assert ls[..n][1..] == ls[1..][..n - 1] && ls[1..][n - 1] == ls[n];
    }
  }

  /** In every run, the focus messages received, queued and about to be sent are those of sway's events, in order. */
  lemma ChannelCarriesEvents(ls: seq<Label>, seqInhibit: bool)
    requires CanRun(INITIAL, ls, seqInhibit)
    ensures FocusOnly(Passed(After(INITIAL, ls, seqInhibit))) == Messages(EventsIn(ls))
  {
    assert AllSent(INITIAL, []);
    SendsAlongRun(INITIAL, ls, [], seqInhibit);
    assert [] + EventsIn(ls) == EventsIn(ls);
  }
}
