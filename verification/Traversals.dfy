/** The order of the node iterator: depth first, tiled nodes before floating nodes (shared/ipc.rs). */
module Traversals {
  import opened Seqs
  import opened Nodes
  import opened Ancestors

  /** `x` occurs before `y`. */
  ghost predicate ListedBefore(s: seq<Node>, x: Node, y: Node) {
    exists i, j :: 0 <= i < j < |s| && s[i] == x && s[j] == y
  }

  lemma InParts(a: seq<Node>, b: seq<Node>, x: Node, y: Node)
    requires x in a && y in b
    ensures ListedBefore(a + b, x, y)
  {
    var i :| 0 <= i < |a| && a[i] == x;
    var j :| 0 <= j < |b| && b[j] == y;
    assert (a + b)[i] == x && (a + b)[|a| + j] == y;
  }

  lemma InBlock(s: seq<Node>, o: int, block: seq<Node>, x: Node, y: Node)
    requires BlockAt(s, o, block) && ListedBefore(block, x, y)
    ensures ListedBefore(s, x, y)
  {
    var i, j :| 0 <= i < j < |block| && block[i] == x && block[j] == y;
    BlockElement(s, o, block, i);
    BlockElement(s, o, block, j);
  }

  /** Every subtree is traversed without interruption. */
  lemma {:induction false} PreorderBlock(n: Node, x: Node) returns (i: int)
    requires x in Subtree(n)
    ensures BlockAt(Preorder(n), i, Preorder(x))
    decreases n, 1
  {
    var tiled, floating := PreorderStack(n.nodes), PreorderStack(n.floatingNodes);
    if x == n {
      i := 0;
      assert Preorder(n)[0..|Preorder(n)|] == Preorder(n);
    } else if x in Subtrees(n.nodes) {
      i := PreorderBlockIn(n.nodes, x);
      BlockInRight([n], tiled, i, Preorder(x));
      BlockInLeft([n] + tiled, i + 1, Preorder(x), floating);
      i := i + 1;
    } else {
      i := PreorderBlockIn(n.floatingNodes, x);
      BlockInRight([n] + tiled, floating, i, Preorder(x));
      i := i + |[n] + tiled|;
    }
  }

  lemma {:induction false} PreorderBlockIn(ns: seq<Node>, x: Node) returns (i: int)
    requires x in Subtrees(ns)
    ensures BlockAt(PreorderStack(ns), i, Preorder(x))
    decreases ns, 0
  {
    var top := |ns| - 1;
    assert ns == ns[..top] + [ns[top]];
    SubtreesConcat(ns[..top], [ns[top]]);
    SingleSubtree(ns[top]);
    if x in Subtree(ns[top]) {
      i := PreorderBlock(ns[top], x);
      BlockInLeft(Preorder(ns[top]), i, Preorder(x), PreorderStack(ns[..top]));
    } else {
      i := PreorderBlockIn(ns[..top], x);
      BlockInRight(Preorder(ns[top]), PreorderStack(ns[..top]), i, Preorder(x));
      i := i + |Preorder(ns[top])|;
    }
  }

  lemma StackMembers(ns: seq<Node>, a: Node, x: Node)
    requires a in ns && x in Subtree(a)
    ensures x in PreorderStack(ns)
  {
    PreorderStackPermutes(ns);
    SamePermutationSameMembers(PreorderStack(ns), Subtrees(ns));
    KidInSubtrees(ns, a);
    SubtreeInSubtrees(ns, a);
  }

  /** Of two siblings of the same kind, the later one and all below it come first. */
  lemma LaterSiblingFirst(ns: seq<Node>, i: nat, j: nat, x: Node, y: Node)
    requires i < j < |ns| && x in Subtree(ns[j]) && y in Subtree(ns[i])
    ensures ListedBefore(PreorderStack(ns), x, y)
  {
    var a, b := ns[..j], ns[j..];
    assert ns == a + b && a[i] == ns[i] && b[0] == ns[j];
    PreorderStackPush(a, b);
    StackMembers(b, ns[j], x);
    StackMembers(a, ns[i], y);
    InParts(PreorderStack(b), PreorderStack(a), x, y);
  }

  /** Which of two children of a node is visited first. */
  ghost predicate GoesFirst(p: Node, a: Node, b: Node) {
    || (a in p.nodes && b in p.floatingNodes)
    || (exists i, j :: 0 <= i < j < |p.nodes| && p.nodes[j] == a && p.nodes[i] == b)
    || (exists i, j :: 0 <= i < j < |p.floatingNodes| && p.floatingNodes[j] == a && p.floatingNodes[i] == b)
  }

  lemma PartsOfPreorder(p: Node)
    ensures BlockAt(Preorder(p), 1, PreorderStack(p.nodes))
    ensures BlockAt(Preorder(p), 1 + |PreorderStack(p.nodes)|, PreorderStack(p.floatingNodes))
  {
    var tiled, floating := PreorderStack(p.nodes), PreorderStack(p.floatingNodes);
    assert BlockAt([p] + tiled, 1, tiled);
    BlockInLeft([p] + tiled, 1, tiled, floating);
    assert BlockAt(floating, 0, floating);
    BlockInRight([p] + tiled, floating, 0, floating);
  }

  lemma ChildOrder(p: Node, a: Node, b: Node, x: Node, y: Node)
    requires GoesFirst(p, a, b) && x in Subtree(a) && y in Subtree(b)
    ensures ListedBefore(Preorder(p), x, y)
  {
    var tiled, floating := PreorderStack(p.nodes), PreorderStack(p.floatingNodes);
    PartsOfPreorder(p);
    if a in p.nodes && b in p.floatingNodes {
      StackMembers(p.nodes, a, x);
      StackMembers(p.floatingNodes, b, y);
      assert x in [p] + tiled;
      InParts([p] + tiled, floating, x, y);
    } else if i, j :| 0 <= i < j < |p.nodes| && p.nodes[j] == a && p.nodes[i] == b {
      LaterSiblingFirst(p.nodes, i, j, x, y);
      InBlock(Preorder(p), 1, tiled, x, y);
    } else {
      var i, j :| 0 <= i < j < |p.floatingNodes| && p.floatingNodes[j] == a && p.floatingNodes[i] == b;
      LaterSiblingFirst(p.floatingNodes, i, j, x, y);
      InBlock(Preorder(p), 1 + |tiled|, floating, x, y);
    }
  }

  /**
   The order of the traversal of a tree, on any two of its nodes: a node before everything below it,
   and below a node everything tiled before everything floating, later siblings before earlier ones.
   */
  lemma TraversalOrder(root: Node, p: Node, a: Node, b: Node, x: Node, y: Node)
    requires p in Subtree(root)
    ensures GoesFirst(p, a, b) && x in Subtree(a) && y in Subtree(b) ==> ListedBefore(Preorder(root), x, y)
    ensures a in Kids(p) && x in Subtree(a) ==> ListedBefore(Preorder(root), p, x)
  {
    var o := PreorderBlock(root, p);
    if GoesFirst(p, a, b) && x in Subtree(a) && y in Subtree(b) {
      ChildOrder(p, a, b, x, y);
      InBlock(Preorder(root), o, Preorder(p), x, y);
    }
    if a in Kids(p) && x in Subtree(a) {
      ParentFirst(p, a, x);
      InBlock(Preorder(root), o, Preorder(p), p, x);
    }
  }

  lemma ParentFirst(p: Node, a: Node, x: Node)
    requires a in Kids(p) && x in Subtree(a)
    ensures ListedBefore(Preorder(p), p, x)
  {
    var below := PreorderStack(p.nodes) + PreorderStack(p.floatingNodes);
    if a in p.nodes {
      StackMembers(p.nodes, a, x);
    } else {
      StackMembers(p.floatingNodes, a, x);
    }
    InParts([p], below, p, x);
    assert Preorder(p) == [p] + below;
  }
}
