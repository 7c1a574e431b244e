/** The automatic nop commands of the daemon (daemon.rs, `serve_client_requests`). */
module AutoNop {
  import opened Focus
  import SwitchSequences

  /** How a `wait_timeout` on the condition variable ended. */
  datatype WaitResult = TimedOut | Woken | Poisoned

  /** The `inhibit` flag after a series of waits. */
  predicate Inhibited(rs: seq<WaitResult>) {
    if rs == [] then false
    else
      match rs[|rs| - 1]
      case TimedOut => true
      case Woken => false
      case Poisoned => Inhibited(rs[..|rs| - 1])
  }

  /** The number of nops executed over a series of waits. */
  function Nops(rs: seq<WaitResult>): nat {
    if rs == [] then 0
    else
      var before := rs[..|rs| - 1];
      Nops(before) + if rs[|rs| - 1].TimedOut? && !Inhibited(before) then 1 else 0
  }

  function Wakes(rs: seq<WaitResult>): nat {
    if rs == [] then 0 else Wakes(rs[..|rs| - 1]) + if rs[|rs| - 1].Woken? then 1 else 0
  }

  function Activations(n: nat): seq<FocusMessage> {
    seq(n, _ => TickUpdateActivate)
  }

  const NOP := SwitchSequences.Other("nop")

  /** The waiter's loop; a nop ends any switch sequence and sends an activation to the lock-in thread. */
  method AutoNopLoop(rs: seq<WaitResult>, cmds: SwitchSequences.Commands, fdata: FocusData)
    modifies cmds, cmds.stm, fdata
    ensures fdata.focusChan == old(fdata.focusChan) + Activations(Nops(rs))
    ensures fdata.focusTickById == old(fdata.focusTickById)
    ensures cmds.lastCommand == if Nops(rs) > 0 then NOP else old(cmds.lastCommand)
    ensures cmds.stm.Contents() == if Nops(rs) > 0 && old(cmds.lastCommand) != NOP then SwitchSequences.FRESH.data
                                   else old(cmds.stm.Contents())
  {
    var inhibit := false;
    ghost var n := 0;
    for i := 0 to |rs|
      invariant inhibit == Inhibited(rs[..i]) && n == Nops(rs[..i])
      invariant fdata.focusChan == old(fdata.focusChan) + Activations(n)
      invariant fdata.focusTickById == old(fdata.focusTickById)
      invariant cmds.lastCommand == if n > 0 then NOP else old(cmds.lastCommand)
      invariant cmds.stm.Contents() == if n > 0 && old(cmds.lastCommand) != NOP then SwitchSequences.FRESH.data
                                       else old(cmds.stm.Contents())
    {
      assert rs[..i + 1][..i] == rs[..i] && rs[..i + 1][i] == rs[i];
      match rs[i] {
        case TimedOut =>
          if !inhibit {
            ExecNop(cmds, fdata);
            inhibit := true;
            n := n + 1;
          }
        case Woken =>
          inhibit := false;
        case Poisoned =>
      }
    }
    assert rs[..|rs|] == rs;
  }

  method ExecNop(cmds: SwitchSequences.Commands, fdata: FocusData)
    modifies cmds, cmds.stm, fdata
    ensures fdata.focusChan == old(fdata.focusChan) + [TickUpdateActivate]
    ensures fdata.focusTickById == old(fdata.focusTickById)
    ensures cmds.lastCommand == NOP
    ensures cmds.stm.Contents() == if old(cmds.lastCommand) != NOP then SwitchSequences.FRESH.data
                                   else old(cmds.stm.Contents())
  {
    ghost var en := SwitchSequences.Engine(cmds.stm.Contents(), cmds.lastCommand, [], SwitchSequences.NotStarted);
    var focus := cmds.ExecSwayrCmd(SwitchSequences.Request(NOP, [], map[], _ => false), fdata, en);
  }

  /** The last wait that was not poisoned timed out. */
  ghost predicate TimedOutLast(rs: seq<WaitResult>) {
    exists j :: 0 <= j < |rs| && rs[j] == TimedOut && forall k :: j < k < |rs| ==> rs[k] == Poisoned
  }

  lemma TimedOutLastStep(rs: seq<WaitResult>, r: WaitResult)
    ensures TimedOutLast(rs + [r]) <==> r == TimedOut || (r == Poisoned && TimedOutLast(rs))
  {
    var all := rs + [r];
    assert all[|rs|] == r;
    if r == Poisoned && TimedOutLast(rs) {
      var j :| 0 <= j < |rs| && rs[j] == TimedOut && forall k :: j < k < |rs| ==> rs[k] == Poisoned;
      assert all[j] == TimedOut;
    }
    if TimedOutLast(all) && r != TimedOut {
      var j :| 0 <= j < |all| && all[j] == TimedOut && forall k :: j < k < |all| ==> all[k] == Poisoned;
      assert rs[j] == all[j] && forall k :: j < k < |rs| ==> rs[k] == all[k];
    }
  }

  lemma {:induction false} InhibitedExactly(rs: seq<WaitResult>)
    ensures Inhibited(rs) <==> TimedOutLast(rs)
  {
    if rs != [] {
      var n := |rs| - 1;
      InhibitedExactly(rs[..n]);
      TimedOutLastStep(rs[..n], rs[n]);
      assert rs == rs[..n] + [rs[n]];
    }
  }

  /** A timeout executes a nop unless it only follows another timeout. */
  lemma NopExactly(rs: seq<WaitResult>, r: WaitResult)
    ensures Nops(rs + [r]) == Nops(rs) + if r == TimedOut && !TimedOutLast(rs) then 1 else 0
  {
    assert (rs + [r])[..|rs|] == rs;
    InhibitedExactly(rs);
  }

  /** Between two nops there is a wake-up. */
  lemma {:induction false} NopsNeedWakes(rs: seq<WaitResult>)
    ensures Nops(rs) + (if Inhibited(rs) then 0 else 1) <= 1 + Wakes(rs)
  {
    if rs != [] {
      NopsNeedWakes(rs[..|rs| - 1]);
    }
  }

  // ---------------------------------------------------------------------------------------
  // The waiter and the notifier together

  datatype Waiter = Running | Waiting | Notified | Expired

  /** `owed` counts handled requests whose notification is still to come. */
  datatype State = State(waiter: Waiter, results: seq<WaitResult>, handled: nat, owed: nat)

  datatype Label = BeginWait | Expire | Wake | HandleRequest | Notify

  const INITIAL := State(Running, [], 0, 0)

  predicate Enabled(s: State, l: Label) {
    match l
    case BeginWait => s.waiter.Running?
    case Expire => s.waiter.Waiting?
    case Wake => s.waiter.Notified? || s.waiter.Expired?
    case HandleRequest => true
    case Notify => s.owed > 0
  }

  /** A notification reaches the waiter only while it waits; otherwise it is lost. */
  function Next(s: State, l: Label): State
    requires Enabled(s, l)
  {
    match l
    case BeginWait => s.(waiter := Waiting)
    case Expire => s.(waiter := Expired)
    case Wake => s.(waiter := Running, results := s.results + [if s.waiter.Expired? then TimedOut else Woken])
    case HandleRequest => s.(handled := s.handled + 1, owed := s.owed + 1)
    case Notify => s.(owed := s.owed - 1, waiter := if s.waiter.Waiting? then Notified else s.waiter)
  }

  predicate CanRun(s: State, ls: seq<Label>)
    decreases |ls|
  {
    ls != [] ==> Enabled(s, ls[0]) && CanRun(Next(s, ls[0]), ls[1..])
  }

  function After(s: State, ls: seq<Label>): State
    requires CanRun(s, ls)
    decreases |ls|
  {
    if ls == [] then s else After(Next(s, ls[0]), ls[1..])
  }

  /** A notification ends a wait as woken, the delay ends it as timed out, and a notification without a wait is lost. */
  lemma HowWaitsEnd(s: State)
    ensures s.waiter == Waiting && s.owed > 0 ==>
              Next(s, Notify).waiter == Notified && Next(Next(s, Notify), Wake).results == s.results + [Woken]
    ensures s.waiter == Waiting ==> Next(Next(s, Expire), Wake).results == s.results + [TimedOut]
    ensures s.waiter != Waiting && s.owed > 0 ==> Next(s, Notify).waiter == s.waiter
  {}

  /** Every wake-up was paid for by a request of its own. */
  predicate Inv(s: State) {
    Wakes(s.results) + (if s.waiter.Notified? then 1 else 0) + s.owed <= s.handled
  }

  lemma InvPreserved(s: State, l: Label)
    requires Inv(s) && Enabled(s, l)
    ensures Inv(Next(s, l))
  {}

  lemma {:induction false} InvAlongRun(s: State, ls: seq<Label>)
    requires Inv(s) && CanRun(s, ls)
    ensures Inv(After(s, ls))
    decreases |ls|
  {
    if ls != [] {
      InvPreserved(s, ls[0]);
      InvAlongRun(Next(s, ls[0]), ls[1..]);
    }
  }

  /** In every run there is at most one nop more than there were requests. */
  lemma NopsBoundedByRequests(ls: seq<Label>)
    requires CanRun(INITIAL, ls)
    ensures Nops(After(INITIAL, ls).results) <= 1 + After(INITIAL, ls).handled
  {
    InvAlongRun(INITIAL, ls);
    NopsNeedWakes(After(INITIAL, ls).results);
  }
}
