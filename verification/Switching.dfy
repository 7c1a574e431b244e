/**
 Switching to urgent, matching, last recently used and origin windows (cmds.rs,
 `focus_urgent_or_matching_or_lru_window`): one engine whose state lives across commands.
 */
module Switching {
  import opened Options
  import opened Seqs
  import opened Focus
  import opened Nodes
  import opened Listings

  /** `SwitchToMatchingData` as a value. */
  datatype Data = Data(
    visited: seq<int>,
    lru: Option<int>,
    origin: Option<int>,
    skipUrgent: bool,
    skipLru: bool,
    skipOrigin: bool)

  function Reset(d: Data): Data {
    d.(visited := [], lru := None, origin := None)
  }

  function FocusedWindow(wins: seq<Node>): Option<Node> {
    Find(wins, (w: Node) => w.focused)
  }

  function FocusedId(wins: seq<Node>): int {
    var f := FocusedWindow(wins);
    if f.Some? then f.value.id else NO_WINDOW
  }

  predicate IsOpen(wins: seq<Node>, id: int) {
    exists w :: w in wins && w.id == id
  }

  /** `max_by` on ticks: of several greatest elements Rust returns the last. */
  function MostRecent(wins: seq<Node>, ticks: Ticks): (r: Option<Node>)
    ensures r.None? <==> wins == []
    ensures r.Some? ==> r.value in wins
    ensures r.Some? ==> forall w :: w in wins ==> LastFocusTick(ticks, w.id) <= LastFocusTick(ticks, r.value.id)
  {
    if wins == [] then None
    else
      var last := wins[|wins| - 1];
      var rest := MostRecent(wins[..|wins| - 1], ticks);
      assert wins == wins[..|wins| - 1] + [last];
      if rest.Some? && LastFocusTick(ticks, rest.value.id) > LastFocusTick(ticks, last.id) then rest else Some(last)
  }

  /** The last of the windows with the greatest tick. */
  ghost predicate LastGreatest(wins: seq<Node>, i: int, ticks: Ticks) {
    && 0 <= i < |wins|
    && (forall j :: 0 <= j <= i ==> LastFocusTick(ticks, wins[j].id) <= LastFocusTick(ticks, wins[i].id))
    && (forall j :: i < j < |wins| ==> LastFocusTick(ticks, wins[j].id) < LastFocusTick(ticks, wins[i].id))
  }

  lemma OneMoreWindow(rest: seq<Node>, last: Node, k: int, ticks: Ticks)
    requires LastGreatest(rest, k, ticks)
    ensures if LastFocusTick(ticks, rest[k].id) > LastFocusTick(ticks, last.id)
            then LastGreatest(rest + [last], k, ticks) else LastGreatest(rest + [last], |rest|, ticks)
  {
    var all := rest + [last];
    assert forall j :: 0 <= j < |rest| ==> all[j] == rest[j];
    assert forall j :: 0 <= j < |rest| ==> LastFocusTick(ticks, rest[j].id) <= LastFocusTick(ticks, rest[k].id);
  }

  /** Of several windows with the greatest tick, the last one is taken. */
  lemma {:induction false} MostRecentIsLast(wins: seq<Node>, ticks: Ticks) returns (i: nat)
    requires wins != []
    ensures LastGreatest(wins, i, ticks) && MostRecent(wins, ticks) == Some(wins[i])
    decreases |wins|
  {
    var n := |wins| - 1;
    i := n;
    if n > 0 {
      var k := MostRecentIsLast(wins[..n], ticks);
      OneMoreWindow(wins[..n], wins[n], k, ticks);
      assert wins == wins[..n] + [wins[n]];
      if LastFocusTick(ticks, wins[k].id) > LastFocusTick(ticks, wins[n].id) {
        i := k;
      }
    }
  }

  function LruWindow(wins: seq<Node>, ticks: Ticks): Option<int> {
    var m := MostRecent(Filter(wins, (w: Node) => !w.focused), ticks);
    if m.Some? then Some(m.value.id) else None
  }

  /** The data after the bookkeeping at the head of an invocation. */
  function Entered(d: Data, wins: seq<Node>, ticks: Ticks): Data {
    var f := FocusedWindow(wins);
    var d1 := if d.visited != [] then d
              else d.(origin := if f.Some? then Some(f.value.id) else d.origin, lru := LruWindow(wins, ticks));
    d1.(visited := d1.visited + [FocusedId(wins)])
  }

  /** A window the urgent-or-matching step may go to. */
  predicate Candidate(w: Node, d: Data, focusedId: int, pred: Node -> bool) {
    && w.id != focusedId
    && (d.skipLru || d.lru != Some(w.id))
    && (d.skipOrigin || d.origin != Some(w.id))
    && w.id !in d.visited
    && ((!d.skipUrgent && w.urgent) || pred(w))
  }

  function NextCandidate(wins: seq<Node>, d: Data, focusedId: int, pred: Node -> bool): Option<Node> {
    Find(wins, (w: Node) => Candidate(w, d, focusedId, pred))
  }

  predicate CanVisitLru(wins: seq<Node>, d: Data, focusedId: int) {
    !d.skipLru && d.lru.Some? && d.lru != Some(focusedId) && d.lru.value !in d.visited && IsOpen(wins, d.lru.value)
  }

  predicate CanReturnToOrigin(wins: seq<Node>, d: Data, focusedId: int) {
    !d.skipOrigin && d.origin.Some? && d.origin.value != focusedId && IsOpen(wins, d.origin.value)
  }

  datatype Kind = Matching | Lru | Origin

  /** What one pass of an invocation did. */
  datatype Outcome = Switched(kind: Kind, id: int) | Exhausted

  /** One pass, without the nested call made after a reset. */
  function Pass(d: Data, wins: seq<Node>, ticks: Ticks, pred: Node -> bool): (Data, Outcome) {
    var focusedId := FocusedId(wins);
    var e := Entered(d, wins, ticks);
    var c := NextCandidate(wins, e, focusedId, pred);
    if c.Some? then (e.(visited := e.visited + [c.value.id]), Switched(Matching, c.value.id))
    else if CanVisitLru(wins, e, focusedId) then (e.(visited := e.visited + [e.lru.value]), Switched(Lru, e.lru.value))
    else if CanReturnToOrigin(wins, e, focusedId) then (Reset(e), Switched(Origin, e.origin.value))
    else (Reset(e), Exhausted)
  }

  /** The whole invocation: an exhausted sequence starts over once, unless it was only just started. */
  function Switch(d: Data, wins: seq<Node>, ticks: Ticks, pred: Node -> bool): (Data, Outcome) {
    var (d1, out) := Pass(d, wins, ticks, pred);
    if out.Exhausted? && d.visited != [] then Pass(d1, wins, ticks, pred) else (d1, out)
  }

  lemma ExhaustedPassResets(d: Data, wins: seq<Node>, ticks: Ticks, pred: Node -> bool)
    ensures Pass(d, wins, ticks, pred).1.Exhausted? ==> Pass(d, wins, ticks, pred).0 == Reset(d)
  {}

  /** An invocation is one pass, or a second, fresh one after an exhausted pass. */
  lemma SwitchIsPasses(d: Data, wins: seq<Node>, ticks: Ticks, pred: Node -> bool)
    ensures Switch(d, wins, ticks, pred) ==
            if Pass(d, wins, ticks, pred).1.Exhausted? && d.visited != []
            then Pass(Reset(d), wins, ticks, pred) else Pass(d, wins, ticks, pred)
  {}

  function FocusedBy(out: Outcome): Option<int> {
    if out.Switched? then Some(out.id) else None
  }

  class SwitchToMatchingData {
    var visited: seq<int>
    var lru: Option<int>
    var origin: Option<int>
    var skipUrgent: bool
    var skipLru: bool
    var skipOrigin: bool

    ghost function Contents(): Data
      reads this
    {
      Data(visited, lru, origin, skipUrgent, skipLru, skipOrigin)
    }

    constructor ()
      ensures Contents() == Data([], None, None, false, false, false)
    {
      visited, lru, origin := [], None, None;
      skipUrgent, skipLru, skipOrigin := false, false, false;
    }

    method ResetData(resetSkipFlags: bool)
      modifies this
      ensures Contents() == if resetSkipFlags then Data([], None, None, false, false, false) else Reset(old(Contents()))
    {
      visited := [];
      lru := None;
      origin := None;
      if resetSkipFlags {
        skipUrgent := false;
        skipLru := false;
        skipOrigin := false;
      }
    }

    /** Returns the id handed to `focus_window_by_id`; `depth` counts the nested calls. */
    method FocusUrgentOrMatchingOrLru(wins: seq<Node>, ticks: Ticks, pred: Node -> bool)
      returns (focus: Option<int>, depth: nat)
      modifies this
      ensures (Contents(), focus) == var r := Switch(old(Contents()), wins, ticks, pred); (r.0, FocusedBy(r.1))
      ensures depth <= if old(visited) == [] then 0 else 1
      decreases if visited == [] then 0 else 1
    {
      focus, depth := None, 0;
      var focused := FocusedWindow(wins);
      var focusedId := FocusedId(wins);
      var initializedNow := false;
      if visited == [] {
        if focused.Some? {
          origin := Some(focused.value.id);
        }
        lru := LruWindow(wins, ticks);
        initializedNow := true;
      }
      visited := visited + [focusedId];
      ghost var d0 := old(Contents());
      assert Contents() == Entered(d0, wins, ticks);
      SwitchIsPasses(d0, wins, ticks, pred);
      SwitchIsPasses(Reset(d0), wins, ticks, pred);
      var d := Data(visited, lru, origin, skipUrgent, skipLru, skipOrigin);
      var win := NextCandidate(wins, d, focusedId, pred);
      if win.Some? {
        visited := visited + [win.value.id];
        focus := Some(win.value.id);
      } else if CanVisitLru(wins, d, focusedId) {
        visited := visited + [lru.value];
        focus := lru;
      } else if !skipOrigin && origin.Some? && origin.value != focusedId && IsOpen(wins, origin.value) {
        focus := origin;
        ResetData(false);
      } else {
        ResetData(false);
        if !initializedNow {
          focus, depth := FocusUrgentOrMatchingOrLru(wins, ticks, pred);
          depth := depth + 1;
        }
      }
    }
  }

  // ---------------------------------------------------------------------------------------
  // One invocation

  /** The focused id is the id of the focused window, if there is one. */
  lemma FocusedIdMeaning(wins: seq<Node>)
    requires WellFormed(wins)
    ensures forall w :: w in wins ==> (w.id == FocusedId(wins) <==> w.focused)
    ensures FocusedWindow(wins).Some? <==> FocusedId(wins) != NO_WINDOW
    ensures FocusedWindow(wins).Some? ==> FocusedWindow(wins).value in wins && FocusedWindow(wins).value.focused
  {
    var f := FocusedWindow(wins);
    FindFirst(wins, (w: Node) => w.focused);
    forall w | w in wins
      ensures w.id == FocusedId(wins) <==> w.focused
    {
      if f.Some? && w.id == f.value.id {
        SameId(wins, w, f.value);
      }
    }
  }

  /** An unfocused window makes a fresh start find a last recently used window. */
  lemma LruMeaning(wins: seq<Node>, ticks: Ticks)
    requires WellFormed(wins)
    ensures LruWindow(wins, ticks).None? <==> forall w :: w in wins ==> w.focused
    ensures LruWindow(wins, ticks).Some? ==>
              exists w :: w in wins && !w.focused && w.id == LruWindow(wins, ticks).value
                          && forall v :: v in wins && !v.focused ==> LastFocusTick(ticks, v.id) <= LastFocusTick(ticks, w.id)
  {}

  /** Whatever an invocation focuses is an open window that was not focused. */
  lemma SwitchTargetsUnfocusedWindow(d: Data, wins: seq<Node>, ticks: Ticks, pred: Node -> bool)
    requires WellFormed(wins)
    ensures var out := Switch(d, wins, ticks, pred).1;
            out.Switched? ==> exists w :: w in wins && w.id == out.id && !w.focused
  {
    FocusedIdMeaning(wins);
    PassTargetsUnfocusedWindow(d, wins, ticks, pred);
    PassTargetsUnfocusedWindow(Pass(d, wins, ticks, pred).0, wins, ticks, pred);
  }

  lemma PassTargetsUnfocusedWindow(d: Data, wins: seq<Node>, ticks: Ticks, pred: Node -> bool)
    requires WellFormed(wins)
    ensures var out := Pass(d, wins, ticks, pred).1;
            out.Switched? ==> exists w :: w in wins && w.id == out.id && !w.focused
  {
    FocusedIdMeaning(wins);
    var out := Pass(d, wins, ticks, pred).1;
    var e := Entered(d, wins, ticks);
    FindFirst(wins, (w: Node) => Candidate(w, e, FocusedId(wins), pred));
    if out.Switched? {
      assert IsOpen(wins, out.id);
      var w :| w in wins && w.id == out.id;
      assert !w.focused;
    }
  }

  /** A fresh pass cannot be exhausted while some window is unfocused and the LRU step is on. */
  lemma FreshPassSwitches(d: Data, wins: seq<Node>, ticks: Ticks, pred: Node -> bool)
    requires WellFormed(wins) && d.visited == [] && !d.skipLru
    requires exists w :: w in wins && !w.focused
    ensures Pass(d, wins, ticks, pred).1.Switched?
  {
    FocusedIdMeaning(wins);
    LruMeaning(wins, ticks);
    var e := Entered(d, wins, ticks);
    assert e.visited == [FocusedId(wins)];
    assert CanVisitLru(wins, e, FocusedId(wins));
  }

  /** With the LRU step on, an invocation always focuses a window unless all are focused; failing resets. */
  lemma SwitchAlwaysSwitches(d: Data, wins: seq<Node>, ticks: Ticks, pred: Node -> bool)
    requires WellFormed(wins)
    ensures !d.skipLru && (exists w :: w in wins && !w.focused) ==> Switch(d, wins, ticks, pred).1.Switched?
    ensures Switch(d, wins, ticks, pred).1.Exhausted? ==> Switch(d, wins, ticks, pred).0 == Reset(d)
  {
    SwitchIsPasses(d, wins, ticks, pred);
    ExhaustedPassResets(d, wins, ticks, pred);
    ExhaustedPassResets(Reset(d), wins, ticks, pred);
    if !d.skipLru && exists w :: w in wins && !w.focused {
      FreshPassSwitches(if d.visited == [] then d else Reset(d), wins, ticks, pred);
    }
  }
}
