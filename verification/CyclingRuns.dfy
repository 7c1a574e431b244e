/**
 Series of next/previous commands while the tick updates are inhibited: the daemon's threads
 keep running in between, in any interleaving, and the cycle still goes round exactly once.
 */
module CyclingRuns {
  import opened Options
  import opened Seqs
  import opened Sorting
  import opened Focus
  import opened Nodes
  import opened Trees
  import opened Listings
  import opened Cycling
  import Daemon

  datatype World = World(daemon: Daemon.State, focused: Option<int>)

  /** A step of some daemon thread, or a cycling command reading the windows and focusing its target. */
  datatype Event = Background(l: Daemon.Label) | Cycle(dir: Direction, wins: seq<Node>, pred: Node -> bool)

  /** Where the cycle stands: at the focused window, or before any command at the most recent one. */
  predicate StandsAt(w: World, order: seq<int>, i: int) {
    && 0 <= i < |order|
    && (w.focused == Some(order[i]) || (i == 0 && (w.focused.None? || w.focused.value !in order)))
  }

  /** The windows a command finds: the same matching windows as ever, and the focus where it was left. */
  ghost predicate Sees(w: World, wins: seq<Node>, pred: Node -> bool, order: seq<int>) {
    && WellFormed(wins) && Matches(wins, pred, order)
    && forall x :: x in wins ==> (x.focused <==> w.focused == Some(x.id))
  }

  /** Anything may happen but an activation, the end of a matching window, and focus changes from outside. */
  ghost predicate Allowed(w: World, e: Event, order: seq<int>) {
    match e
    case Background(l) =>
      Daemon.Enabled(w.daemon, l) && l != Daemon.Command(false) && forall id :: id in order ==> !Daemon.RemovesNode(l, id)
    case Cycle(_, wins, pred) => Sees(w, wins, pred, order)
  }

  function CurrentIndex(order: seq<Node>): int
    requires order != []
  {
    FirstFocused(order, 0)
  }

  function FirstFocused(order: seq<Node>, from: nat): int
    requires order != [] && from <= |order|
    decreases |order| - from
  {
    if from == |order| then 0 else if order[from].focused then from else FirstFocused(order, from + 1)
  }

  /** The new world; a command focuses what `FocusWindowInDirection1` returns. */
  function Apply(w: World, e: Event): World
    requires e.Background? ==> Daemon.Enabled(w.daemon, e.l)
  {
    match e
    case Background(l) => w.(daemon := Daemon.Next(w.daemon, l, true))
    case Cycle(dir, wins, pred) =>
      var order := CycleOrder(wins, w.daemon.ticks, pred);
      if order == [] then w else w.(focused := Target(wins, dir, w.daemon.ticks, pred, CurrentIndex(order)))
  }

  ghost predicate CanHappen(w: World, es: seq<Event>, order: seq<int>)
    decreases |es|
  {
    es != [] ==> Allowed(w, es[0], order) && CanHappen(Apply(w, es[0]), es[1..], order)
  }

  /** The window focused by each command of the run. */
  ghost function Visits(w: World, es: seq<Event>, order: seq<int>): seq<Option<int>>
    requires CanHappen(w, es, order)
    decreases |es|
  {
    if es == [] then []
    else
      var w' := Apply(w, es[0]);
      if es[0].Cycle? then [w'.focused] + Visits(w', es[1..], order) else Visits(w', es[1..], order)
  }

  function Turns(es: seq<Event>): seq<Direction> {
    if es == [] then [] else if es[0].Cycle? then [es[0].dir] + Turns(es[1..]) else Turns(es[1..])
  }

  /** The position reached from `i` by a series of turns. */
  function Along(i: int, turns: seq<Direction>, n: nat): (r: int)
    requires 0 <= i < n
    ensures 0 <= r < n
    decreases |turns|
  {
    if turns == [] then i else Along(Neighbour(i, turns[0], n), turns[1..], n)
  }

  /** Previous commands less next commands. */
  function Net(turns: seq<Direction>): int {
    if turns == [] then 0 else (if turns[0].Backward? then 1 else -1) + Net(turns[1..])
  }

  // ---------------------------------------------------------------------------------------
  // One command

  lemma {:induction false} FirstFocusedFound(order: seq<Node>, from: nat, i: nat)
    requires from <= i < |order| && order[i].focused && forall k :: 0 <= k < |order| && order[k].focused ==> k == i
    ensures FirstFocused(order, from) == i
    decreases |order| - from
  {
    if from < i {
      FirstFocusedFound(order, from + 1, i);
    }
  }

  lemma {:induction false} NoneFocused(order: seq<Node>, from: nat)
    requires order != [] && from <= |order| && forall k :: 0 <= k < |order| ==> !order[k].focused
    ensures FirstFocused(order, from) == 0
    decreases |order| - from
  {
    if from < |order| {
      NoneFocused(order, from + 1);
    }
  }

  /** What the command takes for the current window is where the cycle stands. */
  lemma StandsAtCurrent(w: World, wins: seq<Node>, pred: Node -> bool, order: seq<int>, i: int)
    requires Sees(w, wins, pred, order) && DistinctTicks(order, w.daemon.ticks) && StandsAt(w, order, i)
    ensures var sorted := CycleOrder(wins, w.daemon.ticks, pred);
            Ids(sorted) == order && sorted != [] && CurrentAt(sorted, i) && CurrentIndex(sorted) == i
  {
    var sorted := CycleOrder(wins, w.daemon.ticks, pred);
    CycleOrderIds(wins, w.daemon.ticks, pred, order);
    CycleOrderCorrect(wins, w.daemon.ticks, pred);
    assert forall k :: 0 <= k < |sorted| ==> sorted[k].id == order[k];
    assert forall k :: 0 <= k < |sorted| ==> sorted[k] in wins;
    assert forall k :: 0 <= k < |sorted| ==> (sorted[k].focused <==> w.focused == Some(order[k]));
    if w.focused == Some(order[i]) {
      assert sorted[i].focused && sorted[i] in sorted;
      FirstFocusedFound(sorted, 0, i);
    } else {
      NoneFocused(sorted, 0);
    }
  }

  /** `Apply` is what the loop over the cyclic iterator returns. */
  method FocusNext(w: World, dir: Direction, wins: seq<Node>, pred: Node -> bool, ghost order: seq<int>, ghost i: int)
    returns (w': World)
    requires Sees(w, wins, pred, order) && DistinctTicks(order, w.daemon.ticks) && StandsAt(w, order, i)
    ensures w' == Apply(w, Cycle(dir, wins, pred))
  {
    StandsAtCurrent(w, wins, pred, order, i);
    var focus := FocusWindowInDirection1(wins, dir, w.daemon.ticks, pred);
    w' := w.(focused := focus);
  }

  lemma CycleStep(w: World, e: Event, order: seq<int>, i: int)
    requires e.Cycle? && Allowed(w, e, order) && DistinctTicks(order, w.daemon.ticks) && StandsAt(w, order, i)
    ensures var i' := Neighbour(i, e.dir, |order|); Apply(w, e) == w.(focused := Some(order[i']))
  {
    StandsAtCurrent(w, e.wins, e.pred, order, i);
  }

  // ---------------------------------------------------------------------------------------
  // The daemon in between

  /** Inhibited, with no activation on its way, in a state the daemon can reach. */
  ghost predicate Quiescent(w: World) {
    Daemon.Inv(w.daemon, true) && Daemon.Frozen(w.daemon)
  }

  lemma BackgroundStep(w: World, l: Daemon.Label, order: seq<int>)
    requires Quiescent(w) && DistinctTicks(order, w.daemon.ticks) && Allowed(w, Background(l), order)
    ensures Quiescent(Apply(w, Background(l))) && DistinctTicks(order, Apply(w, Background(l)).daemon.ticks)
  {
    var w' := Apply(w, Background(l));
    Daemon.FrozenKept(w.daemon, l);
    forall id | id in order
      ensures LastFocusTick(w'.daemon.ticks, id) == LastFocusTick(w.daemon.ticks, id)
    {
      Daemon.FrozenTick(w.daemon, l, id);
    }
    TicksStayDistinct(order, w.daemon.ticks, w'.daemon.ticks);
  }

  lemma TicksStayDistinct(order: seq<int>, ticks: Ticks, ticks': Ticks)
    requires DistinctTicks(order, ticks)
    requires forall id :: id in order ==> LastFocusTick(ticks', id) == LastFocusTick(ticks, id)
    ensures DistinctTicks(order, ticks')
  {}

  // ---------------------------------------------------------------------------------------
  // Whole runs

  /**
   In every run of daemon steps and cycling commands, command `k` focuses the window that the
   turns so far lead to in the frozen order.
   */
  lemma {:induction false} VisitsAlongRun(w: World, es: seq<Event>, order: seq<int>, i: int)
    requires Quiescent(w) && DistinctTicks(order, w.daemon.ticks) && StandsAt(w, order, i) && CanHappen(w, es, order)
    ensures |Visits(w, es, order)| == |Turns(es)|
    ensures forall k :: 0 <= k < |Turns(es)| ==>
              Visits(w, es, order)[k] == Some(order[Along(i, Turns(es)[..k + 1], |order|)])
    decreases |es|
  {
    if es != [] {
      var w' := Apply(w, es[0]);
      if es[0].Background? {
        BackgroundStep(w, es[0].l, order);
        VisitsAlongRun(w', es[1..], order, i);
      } else {
        CycleStep(w, es[0], order, i);
        var i' := Neighbour(i, es[0].dir, |order|);
        VisitsAlongRun(w', es[1..], order, i');
        VisitsExtend(Visits(w', es[1..], order), es[0].dir, Turns(es[1..]), order, i);
      }
    }
  }

  /** One more command in front. */
  lemma VisitsExtend(visits: seq<Option<int>>, dir: Direction, turns: seq<Direction>, order: seq<int>, i: int)
    requires 0 <= i < |order| && |visits| == |turns|
    requires forall k :: 0 <= k < |turns| ==>
               visits[k] == Some(order[Along(Neighbour(i, dir, |order|), turns[..k + 1], |order|)])
    ensures forall k :: 0 <= k <= |turns| ==>
              ([Some(order[Neighbour(i, dir, |order|)])] + visits)[k]
              == Some(order[Along(i, ([dir] + turns)[..k + 1], |order|)])
  {
    forall k | 0 <= k <= |turns|
      ensures Along(i, ([dir] + turns)[..k + 1], |order|) == Along(Neighbour(i, dir, |order|), turns[..k], |order|)
    {
      assert ([dir] + turns)[..k + 1][1..] == turns[..k];
    }
  }

  lemma {:induction false} AlongForward(i: int, turns: seq<Direction>, n: nat)
    requires 0 <= i < n && |turns| <= n && forall k :: 0 <= k < |turns| ==> turns[k] == Forward
    ensures Along(i, turns, n) == if |turns| <= i then i - |turns| else i - |turns| + n
    decreases |turns|
  {
    if turns != [] {
      AlongForward(Neighbour(i, turns[0], n), turns[1..], n);
    }
  }

  /** As many next commands as windows focus every matching window exactly once and end where they began. */
  lemma FullCycle(w: World, es: seq<Event>, order: seq<int>, i: int)
    requires Quiescent(w) && DistinctTicks(order, w.daemon.ticks) && StandsAt(w, order, i) && CanHappen(w, es, order)
    requires |Turns(es)| == |order| && forall k :: 0 <= k < |order| ==> Turns(es)[k] == Forward
    ensures var visits := Visits(w, es, order);
            && |visits| == |order|
            && Distinct(visits)
            && (forall id :: id in order <==> Some(id) in visits)
            && visits[|order| - 1] == Some(order[i])
  {
    VisitsAlongRun(w, es, order, i);
    ForwardRound(Visits(w, es, order), Turns(es), order, i);
  }

  lemma ForwardRound(visits: seq<Option<int>>, t: seq<Direction>, order: seq<int>, i: int)
    requires 0 <= i < |order| == |visits| == |t| && Distinct(order)
    requires forall k :: 0 <= k < |t| ==> t[k] == Forward
    requires forall k :: 0 <= k < |t| ==> visits[k] == Some(order[Along(i, t[..k + 1], |order|)])
    ensures Distinct(visits) && (forall id :: id in order <==> Some(id) in visits) && visits[|order| - 1] == Some(order[i])
  {
    var n := |order|;
    forall k | 0 <= k < n
      ensures visits[k] == Some(order[if k < i then i - k - 1 else i - k - 1 + n])
    {
      AlongForward(i, t[..k + 1], n);
    }
    DescendingRound(visits, order, i);
  }

  lemma DescendingRound(visits: seq<Option<int>>, order: seq<int>, i: int)
    requires 0 <= i < |order| == |visits| && Distinct(order)
    requires forall k :: 0 <= k < |order| ==> visits[k] == Some(order[if k < i then i - k - 1 else i - k - 1 + |order|])
    ensures Distinct(visits) && (forall id :: id in order <==> Some(id) in visits) && visits[|order| - 1] == Some(order[i])
  {
    forall id
      ensures id in order <==> Some(id) in visits
    {
      if id in order {
        var p :| 0 <= p < |order| && order[p] == id;
        var k := if p < i then i - p - 1 else i - p - 1 + |order|;
        assert visits[k] == Some(id);
      }
    }
  }

  // ---------------------------------------------------------------------------------------
  // From the start of the daemon

  /** The matching windows that were never locked in, or were forgotten, are at most one. */
  ghost predicate AtMostOneUnknown(matching: seq<int>, ticks: Ticks) {
    forall a, b :: a in matching && b in matching && LastFocusTick(ticks, a) == 0 == LastFocusTick(ticks, b) ==> a == b
  }

  function ByTick(matching: seq<int>, ticks: Ticks): seq<int> {
    SortBy(matching, (a: int, b: int) => LastFocusTick(ticks, a) > LastFocusTick(ticks, b))
  }

  lemma ByTickSorted(matching: seq<int>, ticks: Ticks)
    requires Distinct(matching)
    ensures var order := ByTick(matching, ticks);
            && |order| == |matching| && Distinct(order) && (forall id :: id in order <==> id in matching)
            && forall i, j :: 0 <= i < j < |order| ==> LastFocusTick(ticks, order[i]) >= LastFocusTick(ticks, order[j])
  {
    var before := (a: int, b: int) => LastFocusTick(ticks, a) > LastFocusTick(ticks, b);
    SortByCorrect(matching, before);
    var order := SortBy(matching, before);
    SamePermutationSameMembers(order, matching);
    PermutationDistinct(matching, order);
    forall i, j | 0 <= i < j < |order|
      ensures LastFocusTick(ticks, order[i]) >= LastFocusTick(ticks, order[j])
    {
      assert !before(order[j], order[i]);
    }
  }

  /** In a reachable state the ticks decide the order of the matching windows. */
  lemma ReachableTicksDistinct(ls: seq<Daemon.Label>, matching: seq<int>)
    requires Daemon.CanRun(Daemon.INITIAL, ls, true) && Distinct(matching)
    requires AtMostOneUnknown(matching, Daemon.After(Daemon.INITIAL, ls, true).ticks)
    ensures var ticks := Daemon.After(Daemon.INITIAL, ls, true).ticks; DistinctTicks(ByTick(matching, ticks), ticks)
  {
    var ticks := Daemon.After(Daemon.INITIAL, ls, true).ticks;
    var order := ByTick(matching, ticks);
    Daemon.TicksUnique(ls, true);
    ByTickSorted(matching, ticks);
    forall i, j | 0 <= i < j < |order|
      ensures LastFocusTick(ticks, order[i]) > LastFocusTick(ticks, order[j])
    {
      var a, b := order[i], order[j];
      assert a in matching && b in matching && a != b;
    }
  }

  /** A run and its visits depend on which windows match, not on how they are listed. */
  lemma {:induction false} SameMembersSameRun(w: World, es: seq<Event>, a: seq<int>, b: seq<int>)
    requires (forall id :: id in a <==> id in b) && CanHappen(w, es, a)
    ensures CanHappen(w, es, b) && Visits(w, es, a) == Visits(w, es, b)
    decreases |es|
  {
    if es != [] {
      SameMembersSameRun(Apply(w, es[0]), es[1..], a, b);
    }
  }

  /** Where a cycle that starts with the given focus stands. */
  lemma StartsAt(w: World, order: seq<int>) returns (i: nat)
    requires order != []
    ensures StandsAt(w, order, i)
  {
    if w.focused.Some? && w.focused.value in order {
      i :| 0 <= i < |order| && order[i] == w.focused.value;
    } else {
      i := 0;
    }
  }

  /** The end of a round: the window that was focused, or else a most recent matching one. */
  ghost predicate EndsAt(last: Option<int>, focused: Option<int>, matching: seq<int>, ticks: Ticks) {
    if focused.Some? && focused.value in matching then last == focused
    else
      && last.Some? && last.value in matching
      && forall id :: id in matching ==> LastFocusTick(ticks, id) <= LastFocusTick(ticks, last.value)
  }

  lemma RoundEnds(w: World, matching: seq<int>, order: seq<int>, ticks: Ticks, i: nat)
    requires StandsAt(w, order, i) && DistinctTicks(order, ticks)
    requires forall id :: id in order <==> id in matching
    ensures EndsAt(Some(order[i]), w.focused, matching, ticks)
  {
    assert order[i] in order;
    if w.focused != Some(order[i]) {
      if w.focused.Some? {
        var id := w.focused.value;
        assert id in order <==> id in matching;
      }
      forall id | id in matching
        ensures LastFocusTick(ticks, id) <= LastFocusTick(ticks, order[0])
      {
        assert id in order;
        var j :| 0 <= j < |order| && order[j] == id;
      }
    }
  }

  /** A round over the matching windows, listed in any way, given their order by tick. */
  lemma FullCycleOfMatching(w: World, es: seq<Event>, matching: seq<int>, order: seq<int>)
    requires Quiescent(w) && matching != [] && CanHappen(w, es, matching) && DistinctTicks(order, w.daemon.ticks)
    requires |order| == |matching| && forall id :: id in order <==> id in matching
    requires |Turns(es)| == |matching| && forall k :: 0 <= k < |matching| ==> Turns(es)[k] == Forward
    ensures var visits := Visits(w, es, matching);
            && |visits| == |matching| && Distinct(visits) && (forall id :: id in matching <==> Some(id) in visits)
            && EndsAt(visits[|visits| - 1], w.focused, matching, w.daemon.ticks)
  {
    SameMembersSameRun(w, es, matching, order);
    var i := StartsAt(w, order);
    RoundEnds(w, matching, order, w.daemon.ticks, i);
    assert Turns(es) != [] && |Turns(es)| == |order|;
    FullCycle(w, es, order, i);
  }

  /**
   From the start of the daemon: after any run of its threads that leaves the ticks inhibited,
   as many next commands as matching windows focus each of them exactly once, whatever the threads
   do in between, and end at the window focused before, or at a most recent one if none was.
   */
  lemma FullCycleFromStart(ls: seq<Daemon.Label>, focused: Option<int>, es: seq<Event>, matching: seq<int>)
    requires Daemon.CanRun(Daemon.INITIAL, ls, true) && Daemon.Frozen(Daemon.After(Daemon.INITIAL, ls, true))
    requires matching != [] && Distinct(matching)
    requires AtMostOneUnknown(matching, Daemon.After(Daemon.INITIAL, ls, true).ticks)
    requires CanHappen(World(Daemon.After(Daemon.INITIAL, ls, true), focused), es, matching)
    requires |Turns(es)| == |matching| && forall k :: 0 <= k < |matching| ==> Turns(es)[k] == Forward
    ensures var s := Daemon.After(Daemon.INITIAL, ls, true);
            var visits := Visits(World(s, focused), es, matching);
            && |visits| == |matching| && Distinct(visits) && (forall id :: id in matching <==> Some(id) in visits)
            && EndsAt(visits[|visits| - 1], focused, matching, s.ticks)
  {
    var s := Daemon.After(Daemon.INITIAL, ls, true);
    Daemon.LockInsIncrease(ls, true);
    ReachableTicksDistinct(ls, matching);
    ByTickSorted(matching, s.ticks);
    FullCycleOfMatching(World(s, focused), es, matching, ByTick(matching, s.ticks));
  }

  /** Turning never changes the position but by the turns themselves and whole rounds. */
  lemma {:induction false} AlongIsNet(i: int, turns: seq<Direction>, n: nat) returns (rounds: int)
    requires 0 <= i < n
    ensures Along(i, turns, n) == i + Net(turns) + rounds * n
    decreases |turns|
  {
    if turns == [] {
      rounds := 0;
    } else {
      var i' := Neighbour(i, turns[0], n);
      var r := AlongIsNet(i', turns[1..], n);
      var step := if turns[0].Backward? then 1 else -1;
      var wrap := if i' == i + step then 0 else -step;
      assert i' == i + step + wrap * n;
      rounds := r + wrap;
      AddRounds(r, wrap, n);
    }
  }

  lemma AddRounds(r: int, wrap: int, n: int)
    ensures (r + wrap) * n == r * n + wrap * n
  {}

  /** Equally many next and previous commands, in any order, return to the start. */
  lemma ForwardAndBackwardUndo(w: World, es: seq<Event>, order: seq<int>, i: int)
    requires Quiescent(w) && DistinctTicks(order, w.daemon.ticks) && StandsAt(w, order, i) && CanHappen(w, es, order)
    requires Turns(es) != [] && Net(Turns(es)) == 0
    ensures var visits := Visits(w, es, order); visits != [] && visits[|visits| - 1] == Some(order[i])
  {
    VisitsAlongRun(w, es, order, i);
    var t := Turns(es);
    assert t[..|t|] == t;
    NoNetTurn(i, t, |order|);
  }

  lemma NoNetTurn(i: int, turns: seq<Direction>, n: nat)
    requires 0 <= i < n && Net(turns) == 0
    ensures Along(i, turns, n) == i
  {
    var rounds := AlongIsNet(i, turns, n);
    NoRounds(rounds, n, Along(i, turns, n) - i);
  }

  lemma NoRounds(rounds: int, n: int, d: int)
    requires n > 0 && rounds * n == d && -n < d < n
    ensures rounds == 0
  {}
}
