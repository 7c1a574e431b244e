/** The ordered window and tree listings of tree.rs: switch candidates and tree-shaped menus. */
module Listings {
  import opened Options
  import opened Seqs
  import opened Sorting
  import opened Focus
  import opened Nodes
  import opened Trees
  import opened Ancestors

  /** Urgent nodes first, then by descending tick. */
  predicate Before(a: Node, b: Node, ticks: Ticks) {
    || (a.urgent && !b.urgent)
    || (a.urgent == b.urgent && LastFocusTick(ticks, a.id) > LastFocusTick(ticks, b.id))
  }

  function SortByUrgencyAndLruTime(v: seq<Node>, ticks: Ticks): seq<Node> {
    SortBy(v, (a: Node, b: Node) => Before(a, b, ticks))
  }

  predicate Ranked(v: seq<Node>, ticks: Ticks) {
    forall i, j :: 0 <= i < j < |v| ==> !Before(v[j], v[i], ticks)
  }

  lemma SortIsRanked(v: seq<Node>, ticks: Ticks)
    ensures var r := SortByUrgencyAndLruTime(v, ticks);
            multiset(r) == multiset(v) && |r| == |v| && Ranked(r, ticks)
  {
    var before := (a: Node, b: Node) => Before(a, b, ticks);
    SortByCorrect(v, before);
    var r := SortBy(v, before);
    forall i, j | 0 <= i < j < |r|
      ensures !Before(r[j], r[i], ticks)
    {
      assert !before(r[j], r[i]);
    }
  }

  // ---------------------------------------------------------------------------------------
  // get_windows

  function LeadingUrgent(v: seq<Node>): (k: nat)
    ensures k <= |v|
  {
    if v == [] || !v[0].urgent then 0 else 1 + LeadingUrgent(v[1..])
  }

  function RotateLeft(v: seq<Node>): seq<Node> {
    if v == [] then [] else v[1..] + [v[0]]
  }

  function Windows(root: Node, ticks: Ticks): seq<Node> {
    var v := SortByUrgencyAndLruTime(NodesOfType(root, Window), ticks);
    var k := LeadingUrgent(v);
    v[..k] + RotateLeft(v[k..])
  }

  method GetWindows(root: Node, ticks: Ticks) returns (x: seq<Node>)
    ensures x == Windows(root, ticks)
  {
    var v := SortByUrgencyAndLruTime(NodesOfType(root, Window), ticks);
    x := RotateNonUrgent(v);
  }

  /** Moves the urgent windows out first and rotates what remains. */
  method RotateNonUrgent(all: seq<Node>) returns (x: seq<Node>)
    ensures x == all[..LeadingUrgent(all)] + RotateLeft(all[LeadingUrgent(all)..])
  {
    var v := all;
    x := [];
    while v != [] && v[0].urgent
      invariant all == x + v
      invariant |x| + LeadingUrgent(v) == LeadingUrgent(all)
      decreases |v|
    {
      x := x + [v[0]];
      v := v[1..];
    }
    assert x == all[..|x|] && v == all[|x|..];
    if v != [] {
      x := x + (v[1..] + [v[0]]);
    }
  }

  lemma {:induction false} LeadingUrgentPrefix(v: seq<Node>, ticks: Ticks)
    requires Ranked(v, ticks)
    ensures forall i :: 0 <= i < LeadingUrgent(v) ==> v[i].urgent
    ensures forall i :: LeadingUrgent(v) <= i < |v| ==> !v[i].urgent
  {
    if v != [] {
      if v[0].urgent {
        LeadingUrgentPrefix(v[1..], ticks);
      } else {
        forall i | 0 <= i < |v|
          ensures !v[i].urgent
        {
          if i > 0 {
            assert !Before(v[i], v[0], ticks);
          }
        }
      }
    }
  }

  /** Urgent windows first by descending tick, then the others, the most recently used one last. */
  ghost predicate SwitchOrder(r: seq<Node>, k: nat, ticks: Ticks)
    requires k <= |r|
  {
    && (forall i :: 0 <= i < |r| ==> (r[i].urgent <==> i < k))
    && (forall i, j :: 0 <= i < j < k ==> LastFocusTick(ticks, r[i].id) >= LastFocusTick(ticks, r[j].id))
    && (forall i, j :: k <= i < j < |r| - 1 ==> LastFocusTick(ticks, r[i].id) >= LastFocusTick(ticks, r[j].id))
    && (forall i :: k <= i < |r| ==> LastFocusTick(ticks, r[|r| - 1].id) >= LastFocusTick(ticks, r[i].id))
  }

  lemma RotationPermutes(v: seq<Node>, k: nat)
    requires k <= |v|
    ensures multiset(v[..k] + RotateLeft(v[k..])) == multiset(v)
  {
    assert v == v[..k] + v[k..];
    if k < |v| {
      assert v[k..] == [v[k]] + v[k..][1..];
    }
  }

  /** Where position `i` of the rotated list comes from. */
  function RotatedFrom(n: nat, k: nat, i: nat): nat {
    if i < k then i else if i < n - 1 then i + 1 else k
  }

  lemma RotatedElements(v: seq<Node>, k: nat)
    requires k <= |v|
    ensures var r := v[..k] + RotateLeft(v[k..]);
            |r| == |v| && forall i :: 0 <= i < |v| ==> r[i] == v[RotatedFrom(|v|, k, i)]
  {}

  lemma RotationInSwitchOrder(v: seq<Node>, r: seq<Node>, k: nat, ticks: Ticks)
    requires Ranked(v, ticks) && k <= |v| == |r|
    requires forall i :: 0 <= i < |v| ==> (v[i].urgent <==> i < k)
    requires forall i :: 0 <= i < |v| ==> r[i] == v[RotatedFrom(|v|, k, i)]
    ensures SwitchOrder(r, k, ticks)
  {}

  lemma WindowsInSwitchOrder(root: Node, ticks: Ticks)
    ensures multiset(Windows(root, ticks)) == multiset(NodesOfType(root, Window))
    ensures exists k :: 0 <= k <= |Windows(root, ticks)| && SwitchOrder(Windows(root, ticks), k, ticks)
  {
    var v := SortByUrgencyAndLruTime(NodesOfType(root, Window), ticks);
    SortIsRanked(NodesOfType(root, Window), ticks);
    LeadingUrgentPrefix(v, ticks);
    RotationPermutes(v, LeadingUrgent(v));
    RotatedElements(v, LeadingUrgent(v));
    RotationInSwitchOrder(v, Windows(root, ticks), LeadingUrgent(v), ticks);
    SamePermutationSameMembers(v, Windows(root, ticks));
  }

  lemma NodesOfTypeMembers(n: Node, t: Type)
    ensures forall x :: x in NodesOfType(n, t) <==> x in Subtree(n) && GetType(x) == t
  {
    PreorderPermutes(n);
    SamePermutationSameMembers(Preorder(n), Subtree(n));
  }

  lemma SubtreeDistinct(n: Node)
    requires UniqueIds(n)
    ensures Distinct(Subtree(n))
  {}

  lemma NodesOfTypeDistinct(n: Node, t: Type)
    requires UniqueIds(n)
    ensures Distinct(NodesOfType(n, t))
  {
    SubtreeDistinct(n);
    PreorderPermutes(n);
    PermutationDistinct(Subtree(n), Preorder(n));
    FilterPreservesDistinct(Preorder(n), (m: Node) => GetType(m) == t);
  }

  lemma SubtreeUnique(n: Node, x: Node)
    requires UniqueIds(n) && x in Subtree(n)
    ensures UniqueIds(x)
    decreases |Subtree(n)|
  {
    if x != n {
      SubtreeOfKids(n);
      DistinctSplit([n], Subtrees(Kids(n)));
      SubtreeUniqueIn(Kids(n), x);
    }
  }

  lemma {:induction false} SubtreeUniqueIn(ns: seq<Node>, x: Node)
    requires Distinct(Ids(Subtrees(ns))) && x in Subtrees(ns)
    ensures UniqueIds(x)
    decreases |Subtrees(ns)|
  {
    DistinctSplit(Subtree(ns[0]), Subtrees(ns[1..]));
    if x == ns[0] {
    } else if x in Subtree(ns[0]) {
      SubtreeOfKids(ns[0]);
      DistinctSplit([ns[0]], Subtrees(Kids(ns[0])));
      SubtreeUniqueIn(Kids(ns[0]), x);
    } else {
      SubtreeUniqueIn(ns[1..], x);
    }
  }

  /** `get_current_workspace`: the first workspace of the traversal with a focused node. */
  function CurrentWorkspace(root: Node): Option<Node> {
    Find(Preorder(root), (n: Node) => GetType(n) == Workspace && IsCurrent(n))
  }

  /** The index test for belonging to a workspace. */
  predicate InWorkspace(tree: Tree, ws: Node, w: Node) {
    && Indexed(tree) && w.id in tree.idNode
    && GetParentNodeOfType(tree, w.id, Workspace).Some?
    && GetParentNodeOfType(tree, w.id, Workspace).value.id == ws.id
  }

  /** The windows a cycling command considers. */
  function Considered(root: Node, currentOnly: bool, ticks: Ticks): seq<Node> {
    var wins := Windows(root, ticks);
    var ws := CurrentWorkspace(root);
    if currentOnly && ws.Some? then Filter(wins, (w: Node) => InWorkspace(TreeOf(root), ws.value, w)) else wins
  }

  lemma InWorkspaceIsTraversal(root: Node, ws: Node, w: Node)
    requires UniqueIds(root) && WorkspacesNotNested(root)
    requires ws in Subtree(root) && GetType(ws) == Workspace && w in Subtree(root)
    ensures InWorkspace(TreeOf(root), ws, w) <==> w in Preorder(ws)
  {
    var tree := TreeOf(root);
    WorkspaceLookupIsTraversal(tree, ws, w);
    var r := GetParentNodeOfType(tree, w.id, Workspace);
    if r.Some? && r.value.id == ws.id {
      PathSound(root, w.id);
      assert Subtrees([root]) == Subtree(root);
      IdDeterminesNode(Subtree(root), r.value, ws);
    }
  }

  /** Cycling within the current workspace considers exactly the windows its traversal yields. */
  lemma ConsideredIsTraversal(root: Node, ticks: Ticks)
    requires UniqueIds(root) && WorkspacesNotNested(root) && CurrentWorkspace(root).Some?
    ensures var ws := CurrentWorkspace(root).value;
            && GetType(ws) == Workspace && IsCurrent(ws)
            && multiset(Considered(root, true, ticks)) == multiset(NodesOfType(ws, Window))
  {
    var ws := CurrentWorkspace(root).value;
    FindFirst(Preorder(root), (n: Node) => GetType(n) == Workspace && IsCurrent(n));
    PreorderPermutes(root);
    SamePermutationSameMembers(Preorder(root), Subtree(root));
    var wins := Windows(root, ticks);
    var inWs := (w: Node) => InWorkspace(TreeOf(root), ws, w);
    WindowsInSwitchOrder(root, ticks);
    SamePermutationSameMembers(wins, NodesOfType(root, Window));
    NodesOfTypeDistinct(root, Window);
    PermutationDistinct(NodesOfType(root, Window), wins);
    FilterPreservesDistinct(wins, inWs);
    SubtreeUnique(root, ws);
    NodesOfTypeDistinct(ws, Window);
    SameWindows(root, ws, wins, inWs);
    SameMembersPermute(Filter(wins, inWs), NodesOfType(ws, Window));
  }

  lemma SameWindows(root: Node, ws: Node, wins: seq<Node>, inWs: Node -> bool)
    requires UniqueIds(root) && WorkspacesNotNested(root) && ws in Subtree(root) && GetType(ws) == Workspace
    requires forall w :: w in wins <==> w in NodesOfType(root, Window)
    requires forall w :: inWs(w) <==> InWorkspace(TreeOf(root), ws, w)
    ensures forall w :: w in Filter(wins, inWs) <==> w in NodesOfType(ws, Window)
  {
    NodesOfTypeMembers(root, Window);
    NodesOfTypeMembers(ws, Window);
    SubtreeInSubtree(root, ws);
    PreorderPermutes(ws);
    SamePermutationSameMembers(Preorder(ws), Subtree(ws));
    forall w
      ensures w in Filter(wins, inWs) <==> w in NodesOfType(ws, Window)
    {
      if w in Subtree(root) {
        InWorkspaceIsTraversal(root, ws, w);
      }
    }
  }

  // ---------------------------------------------------------------------------------------
  // Well-formed window lists

  /** The pseudo id the switch engine records when no window is focused. */
  const NO_WINDOW := -1

  /** Window lists as sway provides them: unique ids other than the pseudo id, at most one focused window. */
  ghost predicate WellFormed(wins: seq<Node>) {
    && (forall i, j :: 0 <= i < j < |wins| ==> wins[i].id != wins[j].id)
    && (forall w :: w in wins ==> w.id != NO_WINDOW)
    && (forall v, w :: v in wins && w in wins && v.focused && w.focused ==> v == w)
  }

  lemma SameId(wins: seq<Node>, v: Node, w: Node)
    requires WellFormed(wins) && v in wins && w in wins && v.id == w.id
    ensures v == w
  {}

  /** What sway guarantees about its tree, as far as switching needs it. */
  ghost predicate SwayTree(root: Node) {
    && UniqueIds(root)
    && (forall x :: x in Subtree(root) ==> x.id != NO_WINDOW)
    && (forall x, y :: x in Subtree(root) && y in Subtree(root) && x.focused && y.focused ==> x == y)
  }

  /** Window lists taken from such a tree are well formed. */
  lemma WindowsWellFormed(root: Node, ticks: Ticks)
    requires SwayTree(root)
    ensures WellFormed(Windows(root, ticks))
  {
    var wins := Windows(root, ticks);
    WindowsInSwitchOrder(root, ticks);
    SamePermutationSameMembers(wins, NodesOfType(root, Window));
    NodesOfTypeMembers(root, Window);
    NodesOfTypeDistinct(root, Window);
    PermutationDistinct(NodesOfType(root, Window), wins);
    forall i, j | 0 <= i < j < |wins|
      ensures wins[i].id != wins[j].id
    {
      assert wins[i] in Subtree(root) && wins[j] in Subtree(root) && wins[i] != wins[j];
      if wins[i].id == wins[j].id {
        IdDeterminesNode(Subtree(root), wins[i], wins[j]);
      }
    }
  }

  lemma FilterWellFormed(wins: seq<Node>, p: Node -> bool)
    requires WellFormed(wins)
    ensures WellFormed(Filter(wins, p))
  {
    assert Distinct(wins);
    FilterPreservesDistinct(wins, p);
    var r := Filter(wins, p);
    forall i, j | 0 <= i < j < |r|
      ensures r[i].id != r[j].id
    {
      assert r[i] in wins && r[j] in wins;
      if r[i].id == r[j].id {
        SameId(wins, r[i], r[j]);
      }
    }
  }

  lemma ConsideredWellFormed(root: Node, currentOnly: bool, ticks: Ticks)
    requires SwayTree(root)
    ensures WellFormed(Considered(root, currentOnly, ticks))
  {
    WindowsWellFormed(root, ticks);
    var ws := CurrentWorkspace(root);
    if currentOnly && ws.Some? {
      FilterWellFormed(Windows(root, ticks), (w: Node) => InWorkspace(TreeOf(root), ws.value, w));
    }
  }

  // ---------------------------------------------------------------------------------------
  // What the listings mean for a focused node

  /** The kinds of nodes, by their fields. */
  lemma TypeMeaning(n: Node)
    ensures GetType(n) == Window <==> n.nodeType == FloatingCon || (n.nodeType == Con && n.pid != None)
    ensures GetType(n) == Container <==>
            && n.nodeType == Con && n.layout != NoLayout
            && n.name == None && n.appId == None && n.pid == None && n.shell == None && n.windowProperties == None
    ensures GetType(n) == Workspace <==> n.nodeType == WorkspaceNode
    ensures GetType(n) == Output <==> n.nodeType == OutputNode
    ensures GetType(n) == Root <==> n.nodeType == RootNode
  {}

  /** The window list holds exactly the floating nodes and the containers with a process, each once. */
  lemma ListedAsWindow(root: Node, ticks: Ticks, x: Node)
    ensures x in Windows(root, ticks) <==>
            x in Subtree(root) && (x.nodeType == FloatingCon || (x.nodeType == Con && x.pid != None))
    ensures UniqueIds(root) ==> Distinct(Windows(root, ticks))
  {
    WindowsInSwitchOrder(root, ticks);
    SamePermutationSameMembers(Windows(root, ticks), NodesOfType(root, Window));
    NodesOfTypeMembers(root, Window);
    TypeMeaning(x);
    if UniqueIds(root) {
      NodesOfTypeDistinct(root, Window);
      PermutationDistinct(NodesOfType(root, Window), Windows(root, ticks));
    }
  }

  /** A node lies in one workspace only. */
  lemma SameWorkspace(root: Node, a: Node, b: Node, x: Node)
    requires UniqueIds(root) && WorkspacesNotNested(root) && x in Subtree(root)
    requires a in Subtree(root) && GetType(a) == Workspace && x in Preorder(a)
    requires b in Subtree(root) && GetType(b) == Workspace && x in Preorder(b)
    ensures a == b
  {
    WorkspaceLookupIsTraversal(TreeOf(root), a, x);
    WorkspaceLookupIsTraversal(TreeOf(root), b, x);
  }

  lemma SameMembersOfTree(n: Node, x: Node)
    ensures x in Preorder(n) <==> x in Subtree(n)
  {
    PreorderPermutes(n);
    SamePermutationSameMembers(Preorder(n), Subtree(n));
  }

  /** The current workspace is the one the focused node is in, or is. */
  lemma CurrentWorkspaceMeaning(root: Node, f: Node, ws: Node)
    requires SwayTree(root) && WorkspacesNotNested(root) && f in Subtree(root) && f.focused
    requires ws in Subtree(root) && ws.nodeType == WorkspaceNode
    ensures CurrentWorkspace(root) == Some(ws) <==> f in Subtree(ws)
  {
    FindFirst(Preorder(root), (n: Node) => GetType(n) == Workspace && IsCurrent(n));
    SameMembersOfTree(ws, f);
    SameMembersOfTree(root, ws);
    var cur := CurrentWorkspace(root);
    if f in Subtree(ws) {
      assert IsCurrent(ws);
    }
    if cur.Some? {
      SameMembersOfTree(root, cur.value);
      FocusedBelow(root, cur.value, f);
      if f in Subtree(ws) {
        SameWorkspace(root, ws, cur.value, f);
      }
    }
  }

  lemma FocusedBelow(root: Node, n: Node, f: Node)
    requires SwayTree(root) && n in Subtree(root) && f in Subtree(root) && f.focused && IsCurrent(n)
    ensures f in Preorder(n)
  {
    var m :| m in Preorder(n) && m.focused;
    SameMembersOfTree(n, m);
    SubtreeInSubtree(root, n);
  }

  /** The focus is in a workspace of the tree. */
  ghost predicate FocusIn(root: Node, ws: Node, f: Node) {
    ws in Subtree(root) && ws.nodeType == WorkspaceNode && f in Subtree(ws) && f.focused
  }

  lemma FocusMakesCurrent(root: Node, ws: Node, f: Node)
    requires FocusIn(root, ws, f)
    ensures CurrentWorkspace(root).Some?
  {
    FindFirst(Preorder(root), (n: Node) => GetType(n) == Workspace && IsCurrent(n));
    SameMembersOfTree(root, ws);
    SameMembersOfTree(ws, f);
    assert GetType(ws) == Workspace && IsCurrent(ws);
  }

  lemma CurrentHasFocus(root: Node) returns (f: Node)
    requires CurrentWorkspace(root).Some?
    ensures FocusIn(root, CurrentWorkspace(root).value, f)
  {
    FindFirst(Preorder(root), (n: Node) => GetType(n) == Workspace && IsCurrent(n));
    var ws := CurrentWorkspace(root).value;
    SameMembersOfTree(root, ws);
    f :| f in Preorder(ws) && f.focused;
    SameMembersOfTree(ws, f);
    TypeMeaning(ws);
  }

  /** There is a current workspace exactly when the focus is in one. */
  lemma SomeCurrentWorkspace(root: Node)
    ensures CurrentWorkspace(root).Some? <==> exists ws, f :: FocusIn(root, ws, f)
  {
    if CurrentWorkspace(root).Some? {
      var f := CurrentHasFocus(root);
    }
    if ws, f :| FocusIn(root, ws, f) {
      FocusMakesCurrent(root, ws, f);
    }
  }

  /** With the focus on a window, cycling in the current workspace considers exactly the windows of its workspace. */
  lemma ConsideredSharesWorkspace(root: Node, ticks: Ticks, f: Node, ws: Node, x: Node)
    requires SwayTree(root) && WorkspacesNotNested(root) && f in Subtree(root) && f.focused && GetType(f) == Window
    requires ws in Subtree(root) && ws.nodeType == WorkspaceNode && f in Subtree(ws)
    ensures f in Considered(root, true, ticks)
    ensures x in Considered(root, true, ticks) <==> x in Subtree(ws) && GetType(x) == Window
  {
    CurrentWorkspaceMeaning(root, f, ws);
    ConsideredIsTraversal(root, ticks);
    SamePermutationSameMembers(Considered(root, true, ticks), NodesOfType(ws, Window));
    NodesOfTypeMembers(ws, Window);
  }
}
