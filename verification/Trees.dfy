/** The id and parent index built over a layout tree (tree.rs), and why it can replace traversal. */
module Trees {
  import opened Options
  import opened Seqs
  import opened Nodes

  datatype Tree = Tree(root: Node, idNode: map<int, Node>, idParent: map<int, int>)

  function Ids(ns: seq<Node>): (r: seq<int>)
    ensures |r| == |ns| && forall i :: 0 <= i < |ns| ==> r[i] == ns[i].id
  {
    seq(|ns|, i requires 0 <= i < |ns| => ns[i].id)
  }

  /** Sway's guarantee that node ids are unique. */
  predicate UniqueIds(n: Node) {
    Distinct(Ids(Subtree(n)))
  }

  // ---------------------------------------------------------------------------------------
  // Building the index

  function WithNodes(m: map<int, Node>, ns: seq<Node>): map<int, Node>
    decreases |ns|
  {
    if ns == [] then m else WithNodes(m[ns[0].id := ns[0]], ns[1..])
  }

  function WithEdges(m: map<int, int>, es: seq<(int, int)>): map<int, int>
    decreases |es|
  {
    if es == [] then m else WithEdges(m[es[0].0 := es[0].1], es[1..])
  }

  /** The (child, parent) pairs of the subtree, its own edge to `parent` first. */
  function Edges(n: Node, parent: Option<Node>): seq<(int, int)> {
    (if parent.Some? then [(n.id, parent.value.id)] else []) + KidEdges(n.nodes, n) + KidEdges(n.floatingNodes, n)
  }

  function KidEdges(ns: seq<Node>, parent: Node): seq<(int, int)>
    decreases ns
  {
    if ns == [] then [] else Edges(ns[0], Some(parent)) + KidEdges(ns[1..], parent)
  }

  lemma {:induction false} WithNodesConcat(m: map<int, Node>, a: seq<Node>, b: seq<Node>)
    ensures WithNodes(m, a + b) == WithNodes(WithNodes(m, a), b)
    decreases |a|
  {
    if a == [] {
      assert a + b == b;
    } else {
      assert (a + b)[1..] == a[1..] + b;
      WithNodesConcat(m[a[0].id := a[0]], a[1..], b);
    }
  }

  lemma {:induction false} WithEdgesConcat(m: map<int, int>, a: seq<(int, int)>, b: seq<(int, int)>)
    ensures WithEdges(m, a + b) == WithEdges(WithEdges(m, a), b)
    decreases |a|
  {
    if a == [] {
      assert a + b == b;
    } else {
      assert (a + b)[1..] == a[1..] + b;
      WithEdgesConcat(m[a[0].0 := a[0].1], a[1..], b);
    }
  }

  /** The two maps that `init_id_parent` fills in place. */
  class Index {
    var idNode: map<int, Node>
    var idParent: map<int, int>

    constructor ()
      ensures idNode == map[] && idParent == map[]
    {
      idNode := map[];
      idParent := map[];
    }

    method InitIdParent(n: Node, parent: Option<Node>)
      modifies this
      ensures idNode == WithNodes(old(idNode), Subtree(n))
      ensures idParent == WithEdges(old(idParent), Edges(n, parent))
      decreases n, 1
    {
      idNode := idNode[n.id := n];
      assert idNode == WithNodes(old(idNode), [n]);
      if parent.Some? {
        idParent := idParent[n.id := parent.value.id];
      }
      ghost var own := if parent.Some? then [(n.id, parent.value.id)] else [];
      assert idParent == WithEdges(old(idParent), own);
      InitKids(n.nodes, n);
      InitKids(n.floatingNodes, n);
      WithNodesConcat(old(idNode), [n], Subtrees(n.nodes));
      WithNodesConcat(old(idNode), [n] + Subtrees(n.nodes), Subtrees(n.floatingNodes));
      WithEdgesConcat(old(idParent), own, KidEdges(n.nodes, n));
      WithEdgesConcat(old(idParent), own + KidEdges(n.nodes, n), KidEdges(n.floatingNodes, n));
    }

    /** One of the two loops over a node's children. */
    method InitKids(ns: seq<Node>, parent: Node)
      modifies this
      ensures idNode == WithNodes(old(idNode), Subtrees(ns))
      ensures idParent == WithEdges(old(idParent), KidEdges(ns, parent))
      decreases ns, 0
    {
      var i := 0;
      while i < |ns|
        invariant 0 <= i <= |ns|
        invariant WithNodes(idNode, Subtrees(ns[i..])) == WithNodes(old(idNode), Subtrees(ns))
        invariant WithEdges(idParent, KidEdges(ns[i..], parent)) == WithEdges(old(idParent), KidEdges(ns, parent))
      {
        assert ns[i..][0] == ns[i] && ns[i..][1..] == ns[i + 1..];
        WithNodesConcat(idNode, Subtree(ns[i]), Subtrees(ns[i + 1..]));
        WithEdgesConcat(idParent, Edges(ns[i], Some(parent)), KidEdges(ns[i + 1..], parent));
        InitIdParent(ns[i], Some(parent));
        i := i + 1;
      }
    }
  }

  function TreeOf(root: Node): Tree {
    Tree(root, WithNodes(map[], Subtree(root)), WithEdges(map[], Edges(root, None)))
  }

  method GetTree(root: Node) returns (tree: Tree)
    ensures tree == TreeOf(root)
  {
    var index := new Index();
    index.InitIdParent(root, None);
    tree := Tree(root, index.idNode, index.idParent);
  }

  // ---------------------------------------------------------------------------------------
  // What the maps hold

  lemma DistinctSplit(a: seq<Node>, b: seq<Node>)
    requires Distinct(Ids(a + b))
    ensures Distinct(Ids(a)) && Distinct(Ids(b))
    ensures forall x, y :: x in a && y in b ==> x.id != y.id
  {
    var s := Ids(a + b);
    assert forall i :: 0 <= i < |a| ==> s[i] == Ids(a)[i];
    assert forall i :: 0 <= i < |b| ==> s[|a| + i] == Ids(b)[i];
  }

  /** Within one list of uniquely numbered nodes the id determines the node. */
  lemma IdDeterminesNode(ns: seq<Node>, x: Node, y: Node)
    requires Distinct(Ids(ns)) && x in ns && y in ns && x.id == y.id
    ensures x == y
  {}

  lemma {:induction false} WithNodesLookup(m: map<int, Node>, ns: seq<Node>)
    requires Distinct(Ids(ns))
    ensures forall k :: k in WithNodes(m, ns) <==> k in m || HasId(ns, k)
    ensures forall k :: k in m && !HasId(ns, k) ==> WithNodes(m, ns)[k] == m[k]
    ensures forall x :: x in ns ==> x.id in WithNodes(m, ns) && WithNodes(m, ns)[x.id] == x
    decreases |ns|
  {
    if ns != [] {
      var m', t := m[ns[0].id := ns[0]], ns[1..];
      assert ns == [ns[0]] + t;
      DistinctSplit([ns[0]], t);
      WithNodesLookup(m', t);
      assert forall k :: HasId(ns, k) <==> k == ns[0].id || HasId(t, k);
    }
  }

  lemma {:induction false} WithEdgesLookup(m: map<int, int>, es: seq<(int, int)>)
    requires forall i, j :: 0 <= i < j < |es| ==> es[i].0 != es[j].0
    ensures forall e :: e in es ==> e.0 in WithEdges(m, es) && WithEdges(m, es)[e.0] == e.1
    ensures forall k :: k in WithEdges(m, es) ==> (k, WithEdges(m, es)[k]) in es || (k in m && WithEdges(m, es)[k] == m[k])
    ensures forall k :: k in m && (forall e :: e in es ==> e.0 != k) ==>
              k in WithEdges(m, es) && WithEdges(m, es)[k] == m[k]
    decreases |es|
  {
    if es != [] {
      var m' := m[es[0].0 := es[0].1];
      WithEdgesLookup(m', es[1..]);
    }
  }

  predicate HasId(ns: seq<Node>, id: int) {
    exists x :: x in ns && x.id == id
  }

  /** `c` is the id of a child of the node with id `p` somewhere below `ns`. */
  ghost predicate IsEdge(ns: seq<Node>, e: (int, int)) {
    exists x, y :: x in ns && y in Kids(x) && e == (y.id, x.id)
  }

  lemma {:induction false} EdgesAreKids(n: Node, parent: Option<Node>)
    ensures forall e :: e in Edges(n, parent) <==> (parent.Some? && e == (n.id, parent.value.id)) || IsEdge(Subtree(n), e)
    decreases n, 1
  {
    KidEdgesAreKids(n.nodes, n);
    KidEdgesAreKids(n.floatingNodes, n);
    forall e
      ensures IsEdge(Subtree(n), e) <==>
              || (exists y :: y in Kids(n) && e == (y.id, n.id))
              || IsEdge(Subtrees(n.nodes), e) || IsEdge(Subtrees(n.floatingNodes), e)
    {
      if exists y :: y in Kids(n) && e == (y.id, n.id) {
        assert n in Subtree(n);
      }
    }
  }

  lemma {:induction false} KidEdgesAreKids(ns: seq<Node>, parent: Node)
    ensures forall e :: e in KidEdges(ns, parent) <==>
                        (exists y :: y in ns && e == (y.id, parent.id)) || IsEdge(Subtrees(ns), e)
    decreases ns, 0
  {
    if ns != [] {
      EdgesAreKids(ns[0], Some(parent));
      KidEdgesAreKids(ns[1..], parent);
      assert ns == [ns[0]] + ns[1..];
      forall e
        ensures IsEdge(Subtrees(ns), e) <==> IsEdge(Subtree(ns[0]), e) || IsEdge(Subtrees(ns[1..]), e)
      {}
    }
  }

  /** Each node below a parent is the child of exactly one edge, in listing order. */
  lemma {:induction false} EdgeChildren(n: Node, parent: Option<Node>)
    ensures var skip := if parent.Some? then 0 else 1;
            && |Edges(n, parent)| == |Subtree(n)| - skip
            && forall i :: 0 <= i < |Edges(n, parent)| ==> Edges(n, parent)[i].0 == Subtree(n)[i + skip].id
    decreases n, 1
  {
    KidEdgeChildren(n.nodes, n);
    KidEdgeChildren(n.floatingNodes, n);
  }

  lemma {:induction false} KidEdgeChildren(ns: seq<Node>, parent: Node)
    ensures |KidEdges(ns, parent)| == |Subtrees(ns)|
    ensures forall i :: 0 <= i < |Subtrees(ns)| ==> KidEdges(ns, parent)[i].0 == Subtrees(ns)[i].id
    decreases ns, 0
  {
    if ns != [] {
      EdgeChildren(ns[0], Some(parent));
      KidEdgeChildren(ns[1..], parent);
    }
  }

  /** The index maps every id to its node, and its parent entries are exactly the child edges. */
  lemma IndexIsTree(root: Node)
    requires UniqueIds(root)
    ensures forall id :: id in TreeOf(root).idNode <==> HasId(Subtree(root), id)
    ensures forall x :: x in Subtree(root) ==> x.id in TreeOf(root).idNode && TreeOf(root).idNode[x.id] == x
    ensures forall c, p :: c in TreeOf(root).idParent && TreeOf(root).idParent[c] == p <==> IsEdge(Subtree(root), (c, p))
  {
    WithNodesLookup(map[], Subtree(root));
    EdgesAreKids(root, None);
    EdgeChildren(root, None);
    var es := Edges(root, None);
    forall i, j | 0 <= i < j < |es|
      ensures es[i].0 != es[j].0
    {
      assert Ids(Subtree(root))[i + 1] != Ids(Subtree(root))[j + 1];
    }
    WithEdgesLookup(map[], es);
  }
}
