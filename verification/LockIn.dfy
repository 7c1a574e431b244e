/**
 The lock-in thread of the daemon (daemon.rs, `focus_lock_in_handler`): two nested receive
 loops that decide which focus events reach the tick map.

 The thread's input is a trace: the messages it receives, interleaved with the moments at
 which the lock-in delay passes without a message.  The outer loop blocks in `recv()`, so
 it does not notice such moments; the inner loop's `recv_timeout` does.
 */
module LockIn {
  import opened Options
  import opened Focus

  datatype InhibitState = FocusInhibit | FocusActive

  /** The receive point the thread is blocked at. */
  datatype Location = Outer | Inner(fev: FocusEvent)

  datatype Handler = Handler(loc: Location, pending: Option<FocusEvent>, inhibit: InhibitState)

  datatype Input = Message(msg: FocusMessage) | Elapsed

  const INITIAL := Handler(Outer, None, FocusActive)

  /** One receive of the nested loops: the next state and the event locked in by it, if any. */
  function Step(h: Handler, input: Input, seqInhibit: bool): (Handler, Option<FocusEvent>) {
    match h.loc
    case Outer => (
      match input
      case Elapsed => (h, None)
      case Message(Focused(fev)) =>
        if h.inhibit.FocusInhibit? then (h.(pending := Some(fev)), None) else (h.(loc := Inner(fev)), None)
      case Message(TickUpdateInhibit) =>
        if seqInhibit then (h.(inhibit := FocusInhibit), None) else (h, None)
      case Message(TickUpdateActivate) =>
        if seqInhibit then (Handler(Outer, None, FocusActive), h.pending) else (h, None)
    )
    case Inner(fev) => (
      match input
      case Elapsed => (h.(loc := Outer), Some(fev))
      case Message(Focused(newFev)) => (h.(loc := Inner(newFev)), None)
      case Message(TickUpdateInhibit) =>
        if seqInhibit then (Handler(Outer, Some(fev), FocusInhibit), None) else (h, None)
      case Message(TickUpdateActivate) =>
        if seqInhibit then (Handler(Outer, h.pending, FocusActive), Some(fev)) else (h, None)
    )
  }

  /** The state after a whole trace. */
  function Run(inputs: seq<Input>, seqInhibit: bool): Handler {
    if inputs == [] then INITIAL
    else Step(Run(inputs[..|inputs| - 1], seqInhibit), inputs[|inputs| - 1], seqInhibit).0
  }

  /** The event locked in when input `q` of the trace is received. */
  function Output(inputs: seq<Input>, q: nat, seqInhibit: bool): Option<FocusEvent>
    requires q < |inputs|
  {
    Step(Run(inputs[..q], seqInhibit), inputs[q], seqInhibit).1
  }

  function Append(fevs: seq<FocusEvent>, o: Option<FocusEvent>): seq<FocusEvent> {
    if o.Some? then fevs + [o.value] else fevs
  }

  /** All events locked in over a trace, in order. */
  function LockIns(inputs: seq<Input>, seqInhibit: bool): seq<FocusEvent> {
    if inputs == [] then []
    else Append(LockIns(inputs[..|inputs| - 1], seqInhibit), Output(inputs, |inputs| - 1, seqInhibit))
  }

  lemma PrefixStep(inputs: seq<Input>, i: nat, seqInhibit: bool)
    requires i < |inputs|
    ensures Run(inputs[..i + 1], seqInhibit) == Step(Run(inputs[..i], seqInhibit), inputs[i], seqInhibit).0
    ensures LockIns(inputs[..i + 1], seqInhibit) == Append(LockIns(inputs[..i], seqInhibit), Output(inputs, i, seqInhibit))
  {
    var t := inputs[..i + 1];
    assert t[..|t| - 1] == inputs[..i] && t[i] == inputs[i];
    assert Output(t, i, seqInhibit) == Output(inputs, i, seqInhibit);
  }

  /** The closure `update_focus`; `locked` accumulates what it was called with. */
  method UpdateFocus(fdata: FocusData, fev: Option<FocusEvent>, locked: seq<FocusEvent>, ghost ticks: Ticks)
    returns (locked': seq<FocusEvent>)
    requires fdata.focusTickById == LockedInAll(ticks, locked)
    modifies fdata`focusTickById
    ensures locked' == Append(locked, fev)
    ensures fdata.focusTickById == LockedInAll(ticks, locked')
  {
    locked' := locked;
    if fev.Some? {
      fdata.UpdateLastFocusTick(fev.value.nodeId, fev.value.ctr);
      locked' := locked + [fev.value];
      assert locked'[..|locked|] == locked;
    }
  }

  /** The nested loops themselves; the receiver is disconnected after the last input. */
  method FocusLockInHandler(inputs: seq<Input>, fdata: FocusData, seqInhibit: bool)
    returns (lockIns: seq<FocusEvent>)
    modifies fdata`focusTickById
    ensures lockIns == LockIns(inputs, seqInhibit)
    ensures fdata.focusTickById == LockedInAll(old(fdata.focusTickById), lockIns)
  {
    ghost var ticks := fdata.focusTickById;
    var pendingFev: Option<FocusEvent> := None;
    var inhibit := FocusActive;
    lockIns := [];
    var i := 0;
    while i < |inputs|
      invariant 0 <= i <= |inputs|
      invariant Run(inputs[..i], seqInhibit) == Handler(Outer, pendingFev, inhibit)
      invariant lockIns == LockIns(inputs[..i], seqInhibit)
      invariant fdata.focusTickById == LockedInAll(ticks, lockIns)
    {
      PrefixStep(inputs, i, seqInhibit);
      var input := inputs[i];
      i := i + 1;
      var fev: FocusEvent;
      match input {
        case Elapsed =>
          continue;
        case Message(TickUpdateInhibit) =>
          if seqInhibit {
            inhibit := FocusInhibit;
          }
          continue;
        case Message(TickUpdateActivate) =>
          if seqInhibit {
            inhibit := FocusActive;
            lockIns := UpdateFocus(fdata, pendingFev, lockIns, ticks);
            pendingFev := None;
          }
          continue;
        case Message(Focused(f)) =>
          if inhibit.FocusInhibit? {
            pendingFev := Some(f);
            continue;
          }
          fev := f;
      }
      while true
        invariant 0 <= i <= |inputs|
        invariant Run(inputs[..i], seqInhibit) == Handler(Inner(fev), pendingFev, inhibit)
        invariant lockIns == LockIns(inputs[..i], seqInhibit)
        invariant fdata.focusTickById == LockedInAll(ticks, lockIns)
        decreases |inputs| - i
      {
        if i == |inputs| {
          assert inputs[..i] == inputs;
          return;
        }
        PrefixStep(inputs, i, seqInhibit);
        var next := inputs[i];
        i := i + 1;
        match next {
          case Elapsed =>
            lockIns := UpdateFocus(fdata, Some(fev), lockIns, ticks);
            break;
          case Message(TickUpdateInhibit) =>
            if !seqInhibit {
              continue;
            }
            inhibit := FocusInhibit;
            pendingFev := Some(fev);
            break;
          case Message(TickUpdateActivate) =>
            if !seqInhibit {
              continue;
            }
            inhibit := FocusActive;
            lockIns := UpdateFocus(fdata, Some(fev), lockIns, ticks);
            break;
          case Message(Focused(newFev)) =>
            fev := newFev;
        }
      }
    }
    assert inputs[..i] == inputs;
  }

  // ---------------------------------------------------------------------------------------
  // Refinement of a one-slot debouncer

  /** The abstract view: one slot for the latest focus event, and whether it is frozen. */
  datatype Debouncer = Debouncer(slot: Option<FocusEvent>, frozen: bool)

  function Debounce(d: Debouncer, input: Input, seqInhibit: bool): (Debouncer, Option<FocusEvent>) {
    match input
    case Message(Focused(fev)) => (d.(slot := Some(fev)), None)
    case Message(TickUpdateInhibit) => (d.(frozen := d.frozen || seqInhibit), None)
    case Message(TickUpdateActivate) => if seqInhibit then (Debouncer(None, false), d.slot) else (d, None)
    case Elapsed => if d.frozen then (d, None) else (Debouncer(None, false), d.slot)
  }

  /** Only an active handler waits in the inner loop, and only an inhibited one has a pending event. */
  predicate Valid(h: Handler) {
    && (h.inhibit.FocusInhibit? ==> h.loc.Outer?)
    && (h.inhibit.FocusActive? ==> h.pending.None?)
  }

  function Abstract(h: Handler): Debouncer {
    Debouncer(if h.loc.Inner? then Some(h.loc.fev) else h.pending, h.inhibit.FocusInhibit?)
  }

  lemma StepRefines(h: Handler, input: Input, seqInhibit: bool)
    requires Valid(h)
    ensures var (h', out) := Step(h, input, seqInhibit);
            Valid(h') && (Abstract(h'), out) == Debounce(Abstract(h), input, seqInhibit)
  {}

  /** The debouncer run over a whole trace, with everything it committed. */
  function DebounceAll(inputs: seq<Input>, seqInhibit: bool): (Debouncer, seq<FocusEvent>) {
    if inputs == [] then (Debouncer(None, false), [])
    else
      var (d, commits) := DebounceAll(inputs[..|inputs| - 1], seqInhibit);
      var (d', out) := Debounce(d, inputs[|inputs| - 1], seqInhibit);
      (d', Append(commits, out))
  }

  /** On every input trace the nested loops behave as the one-slot debouncer. */
  lemma {:induction false} HandlerRefinesDebouncer(inputs: seq<Input>, seqInhibit: bool)
    ensures Valid(Run(inputs, seqInhibit))
    ensures DebounceAll(inputs, seqInhibit) == (Abstract(Run(inputs, seqInhibit)), LockIns(inputs, seqInhibit))
  {
    if inputs != [] {
      var n := |inputs| - 1;
      HandlerRefinesDebouncer(inputs[..n], seqInhibit);
      StepRefines(Run(inputs[..n], seqInhibit), inputs[n], seqInhibit);
    }
  }

  // ---------------------------------------------------------------------------------------
  // What is locked in, read off the trace alone

  predicate IsFocus(inputs: seq<Input>, p: nat)
    requires p < |inputs|
  {
    inputs[p].Message? && inputs[p].msg.Focused?
  }

  /** The last inhibit or activate message before `q` is an inhibit. */
  ghost predicate InhibitedBefore(inputs: seq<Input>, q: nat, seqInhibit: bool)
    requires q <= |inputs|
  {
    seqInhibit && exists r :: 0 <= r < q && inputs[r] == Message(TickUpdateInhibit)
                              && forall k :: r < k < q ==> inputs[k] != Message(TickUpdateActivate)
  }

  /** Input `q` writes out whatever event is waiting. */
  ghost predicate Trigger(inputs: seq<Input>, q: nat, seqInhibit: bool)
    requires q < |inputs|
  {
    || (seqInhibit && inputs[q] == Message(TickUpdateActivate))
    || (inputs[q] == Elapsed && !InhibitedBefore(inputs, q, seqInhibit))
  }

  /** Neither a newer focus event nor a trigger strictly between `p` and `q`. */
  ghost predicate Quiet(inputs: seq<Input>, p: nat, q: nat, seqInhibit: bool)
    requires q <= |inputs|
  {
    forall r :: p < r < q ==> !IsFocus(inputs, r) && !Trigger(inputs, r, seqInhibit)
  }

  /** The focus event at `p` waits to be locked in when the first `q` inputs have been received. */
  ghost predicate WaitingAt(inputs: seq<Input>, p: nat, q: nat, seqInhibit: bool)
    requires q <= |inputs|
  {
    p < q && IsFocus(inputs, p) && Quiet(inputs, p, q, seqInhibit)
  }

  ghost predicate LockedInBy(inputs: seq<Input>, p: nat, q: nat, seqInhibit: bool)
    requires q < |inputs|
  {
    WaitingAt(inputs, p, q, seqInhibit) && Trigger(inputs, q, seqInhibit)
  }

  lemma {:induction false} StateFromTrace(inputs: seq<Input>, q: nat, seqInhibit: bool)
    requires q <= |inputs|
    ensures Valid(Run(inputs[..q], seqInhibit))
    ensures Abstract(Run(inputs[..q], seqInhibit)).frozen <==> InhibitedBefore(inputs, q, seqInhibit)
    ensures forall e :: Abstract(Run(inputs[..q], seqInhibit)).slot == Some(e) <==>
                        exists p: nat :: WaitingAt(inputs, p, q, seqInhibit) && inputs[p].msg.fev == e
    decreases q
  {
    if q > 0 {
      var r := q - 1;
      StateFromTrace(inputs, r, seqInhibit);
      PrefixStep(inputs, r, seqInhibit);
      StepRefines(Run(inputs[..r], seqInhibit), inputs[r], seqInhibit);
      FrozenFromTrace(inputs, r, seqInhibit);
      SlotFromTrace(inputs, r, seqInhibit);
    }
  }

  lemma FrozenFromTrace(inputs: seq<Input>, r: nat, seqInhibit: bool)
    requires r < |inputs|
    ensures InhibitedBefore(inputs, r + 1, seqInhibit) <==>
            seqInhibit && (inputs[r] == Message(TickUpdateInhibit) ||
                           (inputs[r] != Message(TickUpdateActivate) && InhibitedBefore(inputs, r, seqInhibit)))
  {}

  /** How one more input changes which event is waiting. */
  lemma SlotFromTrace(inputs: seq<Input>, r: nat, seqInhibit: bool)
    requires r < |inputs|
    ensures forall p: nat :: WaitingAt(inputs, p, r + 1, seqInhibit) <==>
                        (if IsFocus(inputs, r) then p == r
                         else WaitingAt(inputs, p, r, seqInhibit) && !Trigger(inputs, r, seqInhibit))
  {}

  /** Exactly which event each input locks in: the newest focus event still waiting, and only at a trigger. */
  lemma LockInsFromTrace(inputs: seq<Input>, q: nat, seqInhibit: bool)
    requires q < |inputs|
    ensures forall e :: Output(inputs, q, seqInhibit) == Some(e) <==>
                        exists p: nat :: LockedInBy(inputs, p, q, seqInhibit) && inputs[p].msg.fev == e
  {
    StateFromTrace(inputs, q, seqInhibit);
    StepRefines(Run(inputs[..q], seqInhibit), inputs[q], seqInhibit);
    forall e
      ensures Output(inputs, q, seqInhibit) == Some(e) <==>
              exists p: nat :: LockedInBy(inputs, p, q, seqInhibit) && inputs[p].msg.fev == e
    {
      if Output(inputs, q, seqInhibit) == Some(e) {
        var p: nat :| WaitingAt(inputs, p, q, seqInhibit) && inputs[p].msg.fev == e;
        assert LockedInBy(inputs, p, q, seqInhibit);
      }
    }
  }

  ghost predicate Superseded(inputs: seq<Input>, p: nat, seqInhibit: bool) {
    exists q: nat :: q < |inputs| && WaitingAt(inputs, p, q, seqInhibit) && IsFocus(inputs, q)
  }

  ghost predicate EverLockedIn(inputs: seq<Input>, p: nat, seqInhibit: bool) {
    exists q: nat :: q < |inputs| && LockedInBy(inputs, p, q, seqInhibit)
  }

  /** The first disturbance after `p`, or the end of the trace. */
  ghost function FirstDisturbance(inputs: seq<Input>, p: nat, from: nat, seqInhibit: bool): (q: nat)
    requires p < from <= |inputs| && Quiet(inputs, p, from, seqInhibit)
    ensures from <= q <= |inputs| && Quiet(inputs, p, q, seqInhibit)
    ensures q < |inputs| ==> IsFocus(inputs, q) || Trigger(inputs, q, seqInhibit)
    decreases |inputs| - from
  {
    if from == |inputs| || IsFocus(inputs, from) || Trigger(inputs, from, seqInhibit) then from
    else FirstDisturbance(inputs, p, from + 1, seqInhibit)
  }

  /** Every received focus event is locked in once, superseded, or still held: exactly one of the three. */
  lemma FocusEventFate(inputs: seq<Input>, p: nat, seqInhibit: bool)
    requires p < |inputs| && IsFocus(inputs, p)
    ensures EverLockedIn(inputs, p, seqInhibit) || Superseded(inputs, p, seqInhibit)
            || WaitingAt(inputs, p, |inputs|, seqInhibit)
    ensures !(EverLockedIn(inputs, p, seqInhibit) && Superseded(inputs, p, seqInhibit))
    ensures WaitingAt(inputs, p, |inputs|, seqInhibit) ==>
              !EverLockedIn(inputs, p, seqInhibit) && !Superseded(inputs, p, seqInhibit)
    ensures forall q: nat, q': nat | q < |inputs| && q' < |inputs| ::
              LockedInBy(inputs, p, q, seqInhibit) && LockedInBy(inputs, p, q', seqInhibit) ==> q == q'
  {
    var q := FirstDisturbance(inputs, p, p + 1, seqInhibit);
    if q < |inputs| {
      assert WaitingAt(inputs, p, q, seqInhibit);
      if Trigger(inputs, q, seqInhibit) {
        assert LockedInBy(inputs, p, q, seqInhibit);
      }
    }
  }

  /** Between an inhibit and the next activate nothing at all is locked in. */
  lemma NothingLockedInWhileInhibited(inputs: seq<Input>, r: nat, q: nat)
    requires r < q < |inputs| && inputs[r] == Message(TickUpdateInhibit)
    requires forall k :: r < k <= q ==> inputs[k] != Message(TickUpdateActivate)
    ensures Output(inputs, q, true) == None
  {
    LockInsFromTrace(inputs, q, true);
    assert InhibitedBefore(inputs, q, true);
  }

  // ---------------------------------------------------------------------------------------
  // seq_inhibit switched off

  predicate Ignored(input: Input) {
    input == Message(TickUpdateInhibit) || input == Message(TickUpdateActivate)
  }

  function Erased(inputs: seq<Input>): seq<Input> {
    if inputs == [] then []
    else
      var last := inputs[|inputs| - 1];
      var rest := Erased(inputs[..|inputs| - 1]);
      if Ignored(last) then rest else rest + [last]
  }

  /** With `seq_inhibit` off, erasing every inhibit and activate message changes nothing. */
  lemma {:induction false} InhibitMessagesIgnored(inputs: seq<Input>, ticks: Ticks)
    ensures Run(Erased(inputs), false) == Run(inputs, false)
    ensures LockIns(Erased(inputs), false) == LockIns(inputs, false)
    ensures LockedInAll(ticks, LockIns(Erased(inputs), false)) == LockedInAll(ticks, LockIns(inputs, false))
  {
    if inputs != [] {
      var n := |inputs| - 1;
      InhibitMessagesIgnored(inputs[..n], ticks);
      if !Ignored(inputs[n]) {
        var e := Erased(inputs);
        assert e[..|e| - 1] == Erased(inputs[..n]);
      }
    }
  }
}
