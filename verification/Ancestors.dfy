/** Walking up the parent index (tree.rs, `get_parent_node_of_type` and `get_indent_level`). */
module Ancestors {
  import opened Options
  import opened Seqs
  import opened Nodes
  import opened Trees

  /** The index was built from a tree with unique ids. */
  predicate Indexed(tree: Tree) {
    UniqueIds(tree.root) && tree == TreeOf(tree.root)
  }

  // ---------------------------------------------------------------------------------------
  // Root paths, by traversal

  /** The nodes from `n` down to the node with the given id; empty when there is none. */
  function Path(n: Node, id: int): seq<Node> {
    if n.id == id then [n]
    else
      var tiled := PathIn(n.nodes, id);
      var p := if tiled != [] then tiled else PathIn(n.floatingNodes, id);
      if p == [] then [] else [n] + p
  }

  function PathIn(ns: seq<Node>, id: int): seq<Node> {
    if ns == [] then []
    else
      var p := Path(ns[0], id);
      if p != [] then p else PathIn(ns[1..], id)
  }

  lemma {:induction false} PathInConcat(a: seq<Node>, b: seq<Node>, id: int)
    ensures PathIn(a + b, id) == if PathIn(a, id) != [] then PathIn(a, id) else PathIn(b, id)
    decreases |a|
  {
    if a == [] {
      assert a + b == b;
    } else {
      assert (a + b)[1..] == a[1..] + b;
      PathInConcat(a[1..], b, id);
    }
  }

  lemma PathOfKids(n: Node, id: int)
    ensures Path(n, id) == if n.id == id then [n]
                           else if PathIn(Kids(n), id) == [] then [] else [n] + PathIn(Kids(n), id)
  {
    PathInConcat(n.nodes, n.floatingNodes, id);
  }

  /** A path through `ns` to `id`: it starts in `ns`, follows child links and ends at `id`. */
  ghost predicate IsPath(p: seq<Node>, ns: seq<Node>, id: int) {
    && p != [] && p[0] in ns && p[|p| - 1].id == id
    && (forall k :: 0 <= k < |p| - 1 ==> p[k + 1] in Kids(p[k]))
    && (forall k :: 0 <= k < |p| ==> p[k] in Subtrees(ns) && HasId(Subtree(p[k]), id))
  }

  lemma KidIsBelow(n: Node, c: Node, id: int)
    requires c in Kids(n) && HasId(Subtree(c), id)
    ensures HasId(Subtree(n), id)
  {
    SubtreeOfKids(n);
    var x :| x in Subtree(c) && x.id == id;
    KidInSubtrees(Kids(n), c);
    SubtreeInSubtrees(Kids(n), c);
  }

  lemma SingleSubtree(n: Node)
    ensures Subtrees([n]) == Subtree(n)
    ensures n in Subtree(n)
    ensures forall x :: x in Subtrees(Kids(n)) ==> x in Subtree(n)
  {
    SubtreeOfKids(n);
    assert Subtrees([n]) == Subtree(n) + Subtrees([]);
    assert Subtree(n)[0] == n;
  }

  /** Putting a node in front of a path through its children. */
  lemma ExtendPath(n: Node, p: seq<Node>, id: int)
    requires IsPath(p, Kids(n), id)
    ensures IsPath([n] + p, [n], id)
  {
    SingleSubtree(n);
    KidIsBelow(n, p[0], id);
    var q := [n] + p;
    forall k | 0 <= k < |q|
      ensures q[k] in Subtrees([n]) && HasId(Subtree(q[k]), id)
    {
      if k > 0 {
        assert q[k] == p[k - 1];
      }
    }
    forall k | 0 <= k < |q| - 1
      ensures q[k + 1] in Kids(q[k])
    {
      if k > 0 {
        assert q[k] == p[k - 1] && q[k + 1] == p[k - 1 + 1];
      }
    }
  }

  lemma SinglePath(n: Node)
    ensures IsPath([n], [n], n.id)
  {}

  /** A path stays a path when more trees are looked at. */
  lemma WidenPath(p: seq<Node>, ms: seq<Node>, ns: seq<Node>, id: int)
    requires IsPath(p, ms, id)
    requires (forall x :: x in ms ==> x in ns) && (forall x :: x in Subtrees(ms) ==> x in Subtrees(ns))
    ensures IsPath(p, ns, id)
  {}

  lemma {:induction false} PathSound(n: Node, id: int)
    ensures Path(n, id) != [] <==> HasId(Subtree(n), id)
    ensures Path(n, id) != [] ==> IsPath(Path(n, id), [n], id)
    decreases |Subtree(n)|, 0
  {
    SubtreeOfKids(n);
    PathOfKids(n, id);
    PathInSound(Kids(n), id);
    if n.id == id {
      SinglePath(n);
    } else if PathIn(Kids(n), id) != [] {
      ExtendPath(n, PathIn(Kids(n), id), id);
    }
    assert HasId(Subtree(n), id) <==> n.id == id || HasId(Subtrees(Kids(n)), id);
  }

  lemma {:induction false} PathInSound(ns: seq<Node>, id: int)
    ensures PathIn(ns, id) != [] <==> HasId(Subtrees(ns), id)
    ensures PathIn(ns, id) != [] ==> IsPath(PathIn(ns, id), ns, id)
    decreases |Subtrees(ns)|, 1
  {
    if ns != [] {
      PathSound(ns[0], id);
      PathInSound(ns[1..], id);
      assert Subtrees([ns[0]]) == Subtree(ns[0]);
      assert HasId(Subtrees(ns), id) <==> HasId(Subtree(ns[0]), id) || HasId(Subtrees(ns[1..]), id);
      if Path(ns[0], id) != [] {
        WidenPath(Path(ns[0], id), [ns[0]], ns, id);
      } else if PathIn(ns[1..], id) != [] {
        WidenPath(PathIn(ns[1..], id), ns[1..], ns, id);
      }
    }
  }

  /** Every prefix of a root path is itself the root path of its last node. */
  lemma {:induction false} PathPrefix(n: Node, id: int, k: nat)
    requires UniqueIds(n) && k < |Path(n, id)|
    ensures Path(n, Path(n, id)[k].id) == Path(n, id)[..k + 1]
    decreases |Subtree(n)|, 0
  {
    if k > 0 {
      PathOfKids(n, id);
      var p := PathIn(Kids(n), id);
      BelowRoot(n, id, k - 1);
      PathInPrefix(Kids(n), id, k - 1);
      PathOfKids(n, p[k - 1].id);
      assert Path(n, id)[..k + 1] == [n] + p[..k];
    }
  }

  /** Below the root the ids are unique, and different from the root's. */
  lemma BelowRoot(n: Node, id: int, k: nat)
    requires UniqueIds(n) && k < |PathIn(Kids(n), id)|
    ensures Distinct(Ids(Subtrees(Kids(n)))) && |Subtrees(Kids(n))| < |Subtree(n)| && PathIn(Kids(n), id)[k].id != n.id
  {
    SubtreeOfKids(n);
    DistinctSplit([n], Subtrees(Kids(n)));
    PathInSound(Kids(n), id);
    assert n in [n];
  }

  lemma {:induction false} PathInPrefix(ns: seq<Node>, id: int, k: nat)
    requires Distinct(Ids(Subtrees(ns))) && k < |PathIn(ns, id)|
    ensures PathIn(ns, PathIn(ns, id)[k].id) == PathIn(ns, id)[..k + 1]
    decreases |Subtrees(ns)|, 1
  {
    DistinctSplit(Subtree(ns[0]), Subtrees(ns[1..]));
    if Path(ns[0], id) != [] {
      PathPrefix(ns[0], id, k);
    } else {
      PathInSound(ns[1..], id);
      PathInPrefix(ns[1..], id, k);
      PathSound(ns[0], PathIn(ns, id)[k].id);
    }
  }

  /** The root path of every node below `x` passes through `x`. */
  lemma {:induction false} PathThrough(n: Node, x: Node, id: int)
    requires UniqueIds(n) && x in Subtree(n) && HasId(Subtree(x), id)
    ensures x in Path(n, id) && HasId(Subtree(n), id)
    decreases |Subtree(n)|, 0
  {
    PathSound(n, id);
    if x != n {
      SubtreeOfKids(n);
      DistinctSplit([n], Subtrees(Kids(n)));
      assert x in Subtrees(Kids(n));
      PathInThrough(Kids(n), x, id);
      PathOfKids(n, id);
      assert n in [n];
      var y :| y in Subtrees(Kids(n)) && y.id == id;
    }
  }

  lemma {:induction false} PathInThrough(ns: seq<Node>, x: Node, id: int)
    requires Distinct(Ids(Subtrees(ns))) && x in Subtrees(ns) && HasId(Subtree(x), id)
    ensures x in PathIn(ns, id) && HasId(Subtrees(ns), id)
    decreases |Subtrees(ns)|, 1
  {
    DistinctSplit(Subtree(ns[0]), Subtrees(ns[1..]));
    if x in Subtree(ns[0]) {
      PathThrough(ns[0], x, id);
    } else {
      PathInThrough(ns[1..], x, id);
      PathSound(ns[0], id);
    }
  }

  /** Below a node of the tree there are only nodes of the tree. */
  lemma {:induction false} SubtreeInSubtree(n: Node, x: Node)
    requires x in Subtree(n)
    ensures forall y :: y in Subtree(x) ==> y in Subtree(n)
    decreases |Subtree(n)|, 0
  {
    SubtreeOfKids(n);
    if x != n {
      SubtreeInSubtrees(Kids(n), x);
    }
  }

  lemma {:induction false} SubtreeInSubtrees(ns: seq<Node>, x: Node)
    requires x in Subtrees(ns)
    ensures forall y :: y in Subtree(x) ==> y in Subtrees(ns)
    decreases |Subtrees(ns)|, 1
  {
    if x in Subtree(ns[0]) {
      SubtreeInSubtree(ns[0], x);
    } else {
      SubtreeInSubtrees(ns[1..], x);
    }
  }

  // ---------------------------------------------------------------------------------------
  // Walking up by the index

  /** The index finds the last node of the root path. */
  lemma IndexedNode(tree: Tree, id: int)
    requires Indexed(tree) && id in tree.idNode
    ensures tree.idNode[id] in Subtree(tree.root) && tree.idNode[id].id == id
    ensures var p := Path(tree.root, id); |p| >= 1 && IsPath(p, [tree.root], id) && p[|p| - 1] == tree.idNode[id]
    ensures forall k :: 0 <= k < |Path(tree.root, id)| ==> Path(tree.root, id)[k] in Subtree(tree.root)
  {
    var root := tree.root;
    IndexIsTree(root);
    PathSound(root, id);
    assert Subtrees([root]) == Subtree(root);
    var p := Path(root, id);
    var x :| x in Subtree(root) && x.id == id;
    IdDeterminesNode(Subtree(root), x, p[|p| - 1]);
  }

  /** The parent entry of a node leads exactly one step up its root path. */
  lemma ParentStep(tree: Tree, id: int)
    requires Indexed(tree) && id in tree.idNode
    ensures tree.idNode[id].id == id
    ensures var p := Path(tree.root, id);
            && |p| >= 1 && p[|p| - 1] == tree.idNode[id]
            && (id in tree.idParent <==> |p| > 1)
            && (id in tree.idParent ==>
                  tree.idParent[id] in tree.idNode && Path(tree.root, tree.idParent[id]) == p[..|p| - 1])
  {
    var root, p := tree.root, Path(tree.root, id);
    IndexedNode(tree, id);
    if |p| > 1 {
      var m := p[|p| - 2];
      assert p[|p| - 1] in Kids(m) && m in Subtree(root);
      ParentEntry(tree, id, m);
      PathPrefix(root, id, |p| - 2);
    } else if id in tree.idParent {
      IndexIsTree(root);
      RootHasNoParent(root, tree.idParent[id]);
    }
  }

  lemma ParentEntry(tree: Tree, id: int, m: Node)
    requires Indexed(tree) && m in Subtree(tree.root) && exists c :: c in Kids(m) && c.id == id
    ensures id in tree.idParent && tree.idParent[id] == m.id && m.id in tree.idNode
  {
    IndexIsTree(tree.root);
    assert IsEdge(Subtree(tree.root), (id, m.id));
  }

  lemma RootHasNoParent(root: Node, pid: int)
    requires UniqueIds(root)
    ensures !IsEdge(Subtree(root), (root.id, pid))
  {
    if IsEdge(Subtree(root), (root.id, pid)) {
      var x, y :| x in Subtree(root) && y in Kids(x) && y.id == root.id;
      SubtreeOfKids(root);
      SubtreeOfKids(x);
      KidInSubtrees(Kids(x), y);
      DistinctSplit([root], Subtrees(Kids(root)));
      assert root in [root];
      if x != root {
        SubtreeInSubtrees(Kids(root), x);
      }
    }
  }

  lemma {:induction false} KidInSubtrees(ns: seq<Node>, y: Node)
    requires y in ns
    ensures y in Subtrees(ns)
    decreases |ns|
  {
    if y != ns[0] {
      KidInSubtrees(ns[1..], y);
    } else {
      assert y == Subtree(y)[0];
    }
  }

  /** The number of ancestors of a node. */
  function Depth(root: Node, id: int): int {
    |Path(root, id)| - 1
  }

  /** The depth of a node on a root path is its position there. */
  lemma DepthOnPath(root: Node, id: int, k: nat)
    requires UniqueIds(root) && k < |Path(root, id)|
    ensures Depth(root, Path(root, id)[k].id) == k
  {
    PathPrefix(root, id, k);
  }

  lemma PathEnd(root: Node, id: int)
    requires Path(root, id) != []
    ensures Path(root, id)[|Path(root, id)| - 1].id == id
  {
    PathSound(root, id);
  }

  lemma HigherOnPath(root: Node, id: int, k: nat)
    requires UniqueIds(root) && k < |Path(root, id)| && Path(root, id)[k].id != id
    ensures Depth(root, Path(root, id)[k].id) < Depth(root, id)
  {
    DepthOnPath(root, id, k);
    PathEnd(root, id);
  }

  lemma BelowHasOtherId(root: Node, x: Node, y: Node)
    requires UniqueIds(root) && x in Subtree(root) && y in Subtree(x) && y != x
    ensures x.id != y.id
  {
    if x.id == y.id {
      SubtreeInSubtree(root, x);
      IdDeterminesNode(Subtree(root), x, y);
    }
  }

  /** Everything below a node is deeper than the node. */
  lemma BelowIsDeeper(root: Node, x: Node, y: Node)
    requires UniqueIds(root) && x in Subtree(root) && y in Subtree(x) && y != x
    ensures Depth(root, y.id) > Depth(root, x.id)
  {
    BelowHasOtherId(root, x, y);
    PathThrough(root, x, y.id);
    var k :| 0 <= k < |Path(root, y.id)| && Path(root, y.id)[k] == x;
    HigherOnPath(root, y.id, k);
  }

  /** A child is exactly one step deeper than its parent. */
  lemma KidDepth(root: Node, p: Node, x: Node)
    requires UniqueIds(root) && p in Subtree(root) && x in Kids(p)
    ensures x in Subtree(p) && x != p && Depth(root, x.id) == Depth(root, p.id) + 1
  {
    SubtreeOfKids(p);
    KidInSubtrees(Kids(p), x);
    SubtreeInSubtree(root, p);
    var tree := TreeOf(root);
    IndexIsTree(root);
    ParentEntry(tree, x.id, p);
    ParentStep(tree, x.id);
  }

  /** The last node of a type on a path. */
  function LastOfType(p: seq<Node>, t: Type): (r: Option<Node>)
    ensures r.Some? ==> exists k :: 0 <= k < |p| && p[k] == r.value && GetType(p[k]) == t
                                    && forall j :: k < j < |p| ==> GetType(p[j]) != t
    ensures r.None? ==> forall x :: x in p ==> GetType(x) != t
  {
    if p == [] then None
    else if GetType(p[|p| - 1]) == t then Some(p[|p| - 1])
    else LastOfType(p[..|p| - 1], t)
  }

  /** The nearest ancestor-or-self of a type: the last such node on the root path. */
  function GetParentNodeOfType(tree: Tree, id: int, t: Type): (r: Option<Node>)
    requires Indexed(tree) && id in tree.idNode
    ensures r == LastOfType(Path(tree.root, id), t)
    decreases |Path(tree.root, id)|
  {
    ParentStep(tree, id);
    var n := tree.idNode[id];
    if GetType(n) == t then Some(n)
    else if id in tree.idParent then GetParentNodeOfType(tree, tree.idParent[id], t)
    else None
  }

  /** The depth loop of `get_indent_level` for tree-shaped menus. */
  method GetIndentLevel(tree: Tree, id: int, offset: nat) returns (level: nat)
    requires Indexed(tree) && id in tree.idNode
    ensures var depth := Depth(tree.root, id); level == if offset > depth then 0 else depth - offset
  {
    var depth := 0;
    var node := id;
    ParentStep(tree, node);
    while node in tree.idParent
      invariant node in tree.idNode
      invariant |Path(tree.root, node)| >= 1 && depth + |Path(tree.root, node)| == |Path(tree.root, id)|
      invariant node in tree.idParent <==> |Path(tree.root, node)| > 1
      decreases |Path(tree.root, node)|
    {
      ParentStep(tree, node);
      node := tree.idParent[node];
      depth := depth + 1;
      ParentStep(tree, node);
    }
    level := if offset > depth then 0 else depth - offset;
  }

  // ---------------------------------------------------------------------------------------
  // The current-workspace filter

  /** Workspaces do not contain workspaces. */
  ghost predicate WorkspacesNotNested(root: Node) {
    forall a, b :: a in Subtree(root) && b in Subtree(a) && GetType(a) == Workspace && GetType(b) == Workspace ==> a == b
  }

  /** Looking up a node's workspace in the index agrees with traversing that workspace. */
  lemma WorkspaceLookupIsTraversal(tree: Tree, ws: Node, w: Node)
    requires Indexed(tree) && WorkspacesNotNested(tree.root)
    requires ws in Subtree(tree.root) && GetType(ws) == Workspace && w in Subtree(tree.root)
    ensures w.id in tree.idNode
    ensures GetParentNodeOfType(tree, w.id, Workspace) == Some(ws) <==> w in Preorder(ws)
  {
    var root := tree.root;
    IndexIsTree(root);
    PreorderPermutes(ws);
    SamePermutationSameMembers(Preorder(ws), Subtree(ws));
    SubtreeInSubtree(root, ws);
    PathSound(root, w.id);
    var r := GetParentNodeOfType(tree, w.id, Workspace);
    if r == Some(ws) {
      assert HasId(Subtree(ws), w.id);
      var y :| y in Subtree(ws) && y.id == w.id;
      IdDeterminesNode(Subtree(root), w, y);
    }
    if w in Subtree(ws) {
      assert HasId(Subtree(ws), w.id);
      PathThrough(root, ws, w.id);
      var p := Path(root, w.id);
      var k :| 0 <= k < |p| && p[k] == ws;
      var j :| 0 <= j < |p| && p[j] == r.value && GetType(p[j]) == Workspace
               && forall i :: j < i < |p| ==> GetType(p[i]) != Workspace;
      NearestIsBelow(root, w.id, k, j);
    }
  }

  /** Further down a root path means inside the subtree. */
  lemma NearestIsBelow(root: Node, id: int, k: nat, j: nat)
    requires UniqueIds(root) && k <= j < |Path(root, id)|
    ensures Path(root, id)[j] in Subtree(Path(root, id)[k])
  {
    var p := Path(root, id);
    PathSound(root, id);
    assert Subtrees([root]) == Subtree(root);
    PathPrefix(root, id, j);
    PathSound(root, p[j].id);
    assert Path(root, p[j].id)[k] == p[k];
    assert HasId(Subtree(p[k]), p[j].id);
    var y :| y in Subtree(p[k]) && y.id == p[j].id;
    SubtreeInSubtree(root, p[k]);
    IdDeterminesNode(Subtree(root), y, p[j]);
  }
}
