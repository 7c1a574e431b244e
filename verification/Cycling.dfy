/** The next/previous window commands (cmds.rs, `focus_window_in_direction_1`). */
module Cycling {
  import opened Options
  import opened Seqs
  import opened Sorting
  import opened Focus
  import opened Nodes
  import opened Trees
  import opened Listings

  datatype Direction = Backward | Forward

  predicate MoreRecent(a: Node, b: Node, ticks: Ticks) {
    LastFocusTick(ticks, a.id) > LastFocusTick(ticks, b.id)
  }

  /** The matching windows by descending tick. */
  function CycleOrder(wins: seq<Node>, ticks: Ticks, pred: Node -> bool): seq<Node> {
    SortBy(Filter(wins, pred), (a: Node, b: Node) => MoreRecent(a, b, ticks))
  }

  lemma CycleOrderCorrect(wins: seq<Node>, ticks: Ticks, pred: Node -> bool)
    ensures var order := CycleOrder(wins, ticks, pred);
            && multiset(order) == multiset(Filter(wins, pred)) && |order| == |Filter(wins, pred)|
            && (forall x :: x in order <==> x in wins && pred(x))
            && (forall i, j :: 0 <= i < j < |order| ==>
                  LastFocusTick(ticks, order[i].id) >= LastFocusTick(ticks, order[j].id))
  {
    var before := (a: Node, b: Node) => MoreRecent(a, b, ticks);
    SortByCorrect(Filter(wins, pred), before);
    var order := SortBy(Filter(wins, pred), before);
    SamePermutationSameMembers(order, Filter(wins, pred));
    forall i, j | 0 <= i < j < |order|
      ensures LastFocusTick(ticks, order[i].id) >= LastFocusTick(ticks, order[j].id)
    {
      assert !before(order[j], order[i]);
    }
  }

  /** The window the cycle counts from: the focused one, or the most recent one if none is focused. */
  predicate IsCurrentWindow(order: seq<Node>, w: Node)
    requires order != []
  {
    if exists x :: x in order && x.focused then w.focused else w.id == order[0].id
  }

  /** Item `k` of the infinite iterator `iter().cycle()`, reversed for `Forward`. */
  function CycleAt(order: seq<Node>, dir: Direction, k: nat): Node
    requires order != []
  {
    if dir.Forward? then order[|order| - 1 - k % |order|] else order[k % |order|]
  }

  /** One step along the cycle, towards more recent windows for `Forward`, wrapping at the ends. */
  function Neighbour(i: int, dir: Direction, n: nat): (r: int)
    requires 0 <= i < n
    ensures 0 <= r < n
  {
    match dir
    case Forward => if i == 0 then n - 1 else i - 1
    case Backward => if i == n - 1 then 0 else i + 1
  }

  /** The only place in the order where the current window can be. */
  ghost predicate CurrentAt(order: seq<Node>, i: int) {
    0 <= i < |order| && forall k :: 0 <= k < |order| ==> (IsCurrentWindow(order, order[k]) <==> k == i)
  }

  method FocusWindowInDirection1(wins: seq<Node>, dir: Direction, ticks: Ticks, pred: Node -> bool)
    returns (focus: Option<int>)
    ensures focus.None? <==> CycleOrder(wins, ticks, pred) == []
    ensures forall i :: CurrentAt(CycleOrder(wins, ticks, pred), i) ==>
                          focus == Target(wins, dir, ticks, pred, i)
    ensures WellFormed(wins) && focus.Some? ==>
              exists i :: CurrentAt(CycleOrder(wins, ticks, pred), i) && focus == Target(wins, dir, ticks, pred, i)
  {
    var order := CycleOrder(wins, ticks, pred);
    if order == [] {
      return None;
    }
    CurrentExists(wins, ticks, pred);
    var win := WalkCycle(order, dir);
    return Some(win.id);
  }

  /** The command proper: index the tree, list the windows, keep those of the current workspace if asked to. */
  method FocusWindowInDirection(root: Node, dir: Direction, currentOnly: bool, ticks: Ticks, pred: Node -> bool)
    returns (focus: Option<int>)
    requires UniqueIds(root) && (currentOnly ==> CurrentWorkspace(root).Some?)
    ensures var wins := Considered(root, currentOnly, ticks);
            && (focus.None? <==> CycleOrder(wins, ticks, pred) == [])
            && (forall i :: CurrentAt(CycleOrder(wins, ticks, pred), i) ==> focus == Target(wins, dir, ticks, pred, i))
            && (SwayTree(root) && focus.Some? ==>
                  exists i :: CurrentAt(CycleOrder(wins, ticks, pred), i) && focus == Target(wins, dir, ticks, pred, i))
  {
    if SwayTree(root) {
      ConsideredWellFormed(root, currentOnly, ticks);
    }
    var tree := GetTree(root);
    var wins := GetWindows(root, ticks);
    if currentOnly {
      var curWs := CurrentWorkspace(root).value;
      wins := Filter(wins, (w: Node) => InWorkspace(tree, curWs, w));
      assert wins == Considered(root, currentOnly, ticks);
    }
    focus := FocusWindowInDirection1(wins, dir, ticks, pred);
  }

  /** The loop over the infinite iterator: it stops at the current window and takes the next one. */
  method WalkCycle(order: seq<Node>, dir: Direction) returns (next: Node)
    requires order != []
    ensures forall i :: CurrentAt(order, i) ==> next == order[Neighbour(i, dir, |order|)]
  {
    ghost var stop := CurrentIsReached(order, dir);
    var k := 0;
    while true
      invariant 0 <= k <= stop
      decreases stop - k
    {
      var win := CycleAt(order, dir, k);
      k := k + 1;
      if IsCurrentWindow(order, win) {
        NextInCycle(order, dir, k - 1);
        return CycleAt(order, dir, k);
      }
    }
  }

  lemma SmallModulo(k: nat, n: nat)
    requires k < n
    ensures k % n == k
  {}

  lemma SelfModulo(n: nat)
    requires n > 0
    ensures n % n == 0
  {}

  /** The iterator meets the current window within one round. */
  lemma CurrentIsReached(order: seq<Node>, dir: Direction) returns (stop: nat)
    requires order != []
    ensures stop < |order| && IsCurrentWindow(order, CycleAt(order, dir, stop))
  {
    var c := SomeCurrent(order);
    stop := if dir.Forward? then |order| - 1 - c else c;
    SmallModulo(stop, |order|);
  }

  ghost function SomeCurrent(order: seq<Node>): (c: nat)
    requires order != []
    ensures c < |order| && IsCurrentWindow(order, order[c])
  {
    if x, i :| x in order && x.focused && 0 <= i < |order| && order[i] == x then i else 0
  }

  /** The iterator's next item is the neighbour of the item it just returned. */
  lemma NextInCycle(order: seq<Node>, dir: Direction, k: nat)
    requires k < |order|
    ensures forall i :: CurrentAt(order, i) && IsCurrentWindow(order, CycleAt(order, dir, k)) ==>
                          CycleAt(order, dir, k + 1) == order[Neighbour(i, dir, |order|)]
  {
    var n := |order|;
    SmallModulo(k, n);
    if k + 1 < n {
      SmallModulo(k + 1, n);
    } else {
      SelfModulo(n);
    }
  }

  /** The window that a next/previous command focuses. */
  function Target(wins: seq<Node>, dir: Direction, ticks: Ticks, pred: Node -> bool, i: int): Option<int> {
    var order := CycleOrder(wins, ticks, pred);
    if !(0 <= i < |order|) then None else Some(order[Neighbour(i, dir, |order|)].id)
  }

  // ---------------------------------------------------------------------------------------
  // The order of ids is determined by the ticks

  predicate DistinctTicks(order: seq<int>, ticks: Ticks) {
    forall i, j :: 0 <= i < j < |order| ==> LastFocusTick(ticks, order[i]) > LastFocusTick(ticks, order[j])
  }

  /** `wins` shows exactly the windows of `order` as matching. */
  ghost predicate Matches(wins: seq<Node>, pred: Node -> bool, order: seq<int>) {
    forall id :: id in order <==> exists w :: w in wins && pred(w) && w.id == id
  }

  lemma IdsDistinct(wins: seq<Node>, ns: seq<Node>)
    requires WellFormed(wins) && Distinct(ns) && forall x :: x in ns ==> x in wins
    ensures Distinct(Ids(ns))
  {
    forall i, j | 0 <= i < j < |ns|
      ensures Ids(ns)[i] != Ids(ns)[j]
    {
      assert ns[i] in wins && ns[j] in wins;
      if ns[i].id == ns[j].id {
        SameId(wins, ns[i], ns[j]);
      }
    }
  }

  /** Whatever the ticks, ties included, exactly one place of the order holds the current window. */
  lemma CurrentExists(wins: seq<Node>, ticks: Ticks, pred: Node -> bool)
    ensures WellFormed(wins) && CycleOrder(wins, ticks, pred) != [] ==>
              exists i :: CurrentAt(CycleOrder(wins, ticks, pred), i)
  {
    var order := CycleOrder(wins, ticks, pred);
    if WellFormed(wins) && order != [] {
      CycleOrderDistinct(wins, ticks, pred);
      var c := SomeCurrent(order);
      forall k | 0 <= k < |order|
        ensures IsCurrentWindow(order, order[k]) <==> k == c
      {
        assert order[k] in wins && order[c] in wins && order[0] in wins;
        assert Ids(order)[k] == order[k].id && Ids(order)[c] == order[c].id && Ids(order)[0] == order[0].id;
      }
      assert CurrentAt(order, c);
    }
  }

  lemma CycleOrderDistinct(wins: seq<Node>, ticks: Ticks, pred: Node -> bool)
    requires WellFormed(wins)
    ensures var order := CycleOrder(wins, ticks, pred);
            Distinct(Ids(order)) && forall x :: x in order ==> x in wins
  {
    var order := CycleOrder(wins, ticks, pred);
    CycleOrderCorrect(wins, ticks, pred);
    assert Distinct(wins);
    FilterPreservesDistinct(wins, pred);
    PermutationDistinct(Filter(wins, pred), order);
    IdsDistinct(wins, order);
  }

  lemma SameIds(ns: seq<Node>, wins: seq<Node>, pred: Node -> bool, order: seq<int>)
    requires Matches(wins, pred, order) && forall x :: x in ns <==> x in wins && pred(x)
    ensures forall id :: id in Ids(ns) <==> id in order
  {}

  lemma TickOrderUnique(a: seq<int>, order: seq<int>, ticks: Ticks)
    requires multiset(a) == multiset(order) && DistinctTicks(order, ticks)
    requires forall i, j :: 0 <= i < j < |a| ==> LastFocusTick(ticks, a[i]) >= LastFocusTick(ticks, a[j])
    ensures a == order
  {
    var before := (x: int, y: int) => LastFocusTick(ticks, x) > LastFocusTick(ticks, y);
    SamePermutationSameMembers(a, order);
    forall x, y | x in a && y in a && x != y
      ensures before(x, y) || before(y, x)
    {
      assert x in order && y in order;
      var i :| 0 <= i < |order| && order[i] == x;
      var j :| 0 <= j < |order| && order[j] == y;
    }
    OrderedPermutationUnique(a, order, before);
  }

  /** However sway lists the windows, the cycle order is the one given by the ticks. */
  lemma CycleOrderIds(wins: seq<Node>, ticks: Ticks, pred: Node -> bool, order: seq<int>)
    requires WellFormed(wins) && Matches(wins, pred, order) && DistinctTicks(order, ticks)
    ensures Ids(CycleOrder(wins, ticks, pred)) == order
  {
    var sorted := CycleOrder(wins, ticks, pred);
    CycleOrderCorrect(wins, ticks, pred);
    CycleOrderDistinct(wins, ticks, pred);
    SameIds(sorted, wins, pred, order);
    var ids := Ids(sorted);
    assert Distinct(order);
    assert forall x :: x in ids <==> x in order;
    SameMembersPermute(ids, order);
    TickOrderUnique(ids, order, ticks);
  }

  // ---------------------------------------------------------------------------------------
  // Directions

  /** Some matching window was focused between two ticks. */
  ghost predicate MatchBetween(wins: seq<Node>, ticks: Ticks, pred: Node -> bool, lo: int, hi: int) {
    exists m :: m in wins && pred(m) && lo < LastFocusTick(ticks, m.id) < hi
  }

  ghost predicate MatchAbove(wins: seq<Node>, ticks: Ticks, pred: Node -> bool, lo: int) {
    exists m :: m in wins && pred(m) && lo < LastFocusTick(ticks, m.id)
  }

  ghost predicate MatchBelow(wins: seq<Node>, ticks: Ticks, pred: Node -> bool, hi: int) {
    exists m :: m in wins && pred(m) && LastFocusTick(ticks, m.id) < hi
  }

  /** `next`: the matching window focused next after the current one, or the least recent if there is none. */
  ghost predicate NextByTick(wins: seq<Node>, ticks: Ticks, pred: Node -> bool, cur: int, target: int) {
    if MatchAbove(wins, ticks, pred, cur) then cur < target && !MatchBetween(wins, ticks, pred, cur, target)
    else !MatchBelow(wins, ticks, pred, target)
  }

  /** `prev`: the matching window focused last before the current one, or the latest if there is none. */
  ghost predicate PrevByTick(wins: seq<Node>, ticks: Ticks, pred: Node -> bool, cur: int, target: int) {
    if MatchBelow(wins, ticks, pred, cur) then target < cur && !MatchBetween(wins, ticks, pred, target, cur)
    else !MatchAbove(wins, ticks, pred, target)
  }

  /** Ticks strictly descend along the order. */
  predicate Descends(order: seq<Node>, ticks: Ticks) {
    forall i, j :: 0 <= i < j < |order| ==> LastFocusTick(ticks, order[i].id) > LastFocusTick(ticks, order[j].id)
  }

  lemma MatchInOrder(wins: seq<Node>, ticks: Ticks, pred: Node -> bool, m: Node) returns (k: nat)
    requires m in wins && pred(m)
    ensures k < |CycleOrder(wins, ticks, pred)| && CycleOrder(wins, ticks, pred)[k] == m
  {
    CycleOrderCorrect(wins, ticks, pred);
    var order := CycleOrder(wins, ticks, pred);
    assert m in order;
    k :| 0 <= k < |order| && order[k] == m;
  }

  lemma OrderMatches(wins: seq<Node>, ticks: Ticks, pred: Node -> bool, k: nat)
    requires k < |CycleOrder(wins, ticks, pred)|
    ensures CycleOrder(wins, ticks, pred)[k] in wins && pred(CycleOrder(wins, ticks, pred)[k])
  {
    CycleOrderCorrect(wins, ticks, pred);
    assert CycleOrder(wins, ticks, pred)[k] in CycleOrder(wins, ticks, pred);
  }

  lemma ForwardByTick(wins: seq<Node>, ticks: Ticks, pred: Node -> bool, i: nat)
    requires var order := CycleOrder(wins, ticks, pred); i < |order| && Descends(order, ticks)
    ensures var order := CycleOrder(wins, ticks, pred);
            NextByTick(wins, ticks, pred, LastFocusTick(ticks, order[i].id),
                       LastFocusTick(ticks, order[Neighbour(i, Forward, |order|)].id))
  {
    var order := CycleOrder(wins, ticks, pred);
    var cur, n := LastFocusTick(ticks, order[i].id), |order|;
    if i > 0 {
      OrderMatches(wins, ticks, pred, i - 1);
      assert MatchAbove(wins, ticks, pred, cur);
      if m :| m in wins && pred(m) && cur < LastFocusTick(ticks, m.id) < LastFocusTick(ticks, order[i - 1].id) {
        var k := MatchInOrder(wins, ticks, pred, m);
      }
    } else {
      if m :| m in wins && pred(m) && cur < LastFocusTick(ticks, m.id) {
        var k := MatchInOrder(wins, ticks, pred, m);
      }
      if m :| m in wins && pred(m) && LastFocusTick(ticks, m.id) < LastFocusTick(ticks, order[n - 1].id) {
        var k := MatchInOrder(wins, ticks, pred, m);
      }
    }
  }

  lemma BackwardByTick(wins: seq<Node>, ticks: Ticks, pred: Node -> bool, i: nat)
    requires var order := CycleOrder(wins, ticks, pred); i < |order| && Descends(order, ticks)
    ensures var order := CycleOrder(wins, ticks, pred);
            PrevByTick(wins, ticks, pred, LastFocusTick(ticks, order[i].id),
                       LastFocusTick(ticks, order[Neighbour(i, Backward, |order|)].id))
  {
    var order := CycleOrder(wins, ticks, pred);
    var cur, n := LastFocusTick(ticks, order[i].id), |order|;
    if i < n - 1 {
      OrderMatches(wins, ticks, pred, i + 1);
      assert MatchBelow(wins, ticks, pred, cur);
      if m :| m in wins && pred(m) && LastFocusTick(ticks, order[i + 1].id) < LastFocusTick(ticks, m.id) < cur {
        var k := MatchInOrder(wins, ticks, pred, m);
      }
    } else {
      if m :| m in wins && pred(m) && LastFocusTick(ticks, m.id) < cur {
        var k := MatchInOrder(wins, ticks, pred, m);
      }
      if m :| m in wins && pred(m) && LastFocusTick(ticks, order[0].id) < LastFocusTick(ticks, m.id) {
        var k := MatchInOrder(wins, ticks, pred, m);
      }
    }
  }

  /** The window a command focuses, by ticks alone: the next later one for `Forward`, the next earlier one for `Backward`. */
  method FocusByTick(wins: seq<Node>, dir: Direction, ticks: Ticks, pred: Node -> bool, ghost f: Node)
    returns (focus: Option<int>)
    requires WellFormed(wins) && f in wins && pred(f) && f.focused
    requires forall v, w :: v in wins && w in wins && pred(v) && pred(w) && v != w ==>
               LastFocusTick(ticks, v.id) != LastFocusTick(ticks, w.id)
    ensures focus.Some?
    ensures dir == Forward ==>
              NextByTick(wins, ticks, pred, LastFocusTick(ticks, f.id), LastFocusTick(ticks, focus.value))
    ensures dir == Backward ==>
              PrevByTick(wins, ticks, pred, LastFocusTick(ticks, f.id), LastFocusTick(ticks, focus.value))
  {
    focus := FocusWindowInDirection1(wins, dir, ticks, pred);
    ghost var order := CycleOrder(wins, ticks, pred);
    ghost var k := MatchInOrder(wins, ticks, pred, f);
    CurrentExists(wins, ticks, pred);
    ghost var i :| CurrentAt(order, i);
    assert order[k] in order && IsCurrentWindow(order, order[k]);
    DistinctDescends(wins, ticks, pred);
    ForwardByTick(wins, ticks, pred, k);
    BackwardByTick(wins, ticks, pred, k);
  }

  lemma DistinctDescends(wins: seq<Node>, ticks: Ticks, pred: Node -> bool)
    requires WellFormed(wins)
    requires forall v, w :: v in wins && w in wins && pred(v) && pred(w) && v != w ==>
               LastFocusTick(ticks, v.id) != LastFocusTick(ticks, w.id)
    ensures Descends(CycleOrder(wins, ticks, pred), ticks)
  {
    var order := CycleOrder(wins, ticks, pred);
    CycleOrderCorrect(wins, ticks, pred);
    CycleOrderDistinct(wins, ticks, pred);
    forall i, j | 0 <= i < j < |order|
      ensures LastFocusTick(ticks, order[i].id) > LastFocusTick(ticks, order[j].id)
    {
      assert order[i] in order && order[j] in order && Ids(order)[i] != Ids(order)[j];
    }
  }
}
