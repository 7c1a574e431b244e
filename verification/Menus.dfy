/** Tree-shaped menus: the recursively sorted flattening of tree.rs (`push_subtree_sorted`). */
module Menus {
  import opened Seqs
  import opened Focus
  import opened Nodes
  import opened Trees
  import opened Ancestors
  import opened Listings

  function SortedKids(n: Node, ticks: Ticks): seq<Node> {
    SortByUrgencyAndLruTime(Kids(n), ticks)
  }

  lemma SortedKidsPermute(n: Node, ticks: Ticks)
    ensures multiset(SortedKids(n, ticks)) == multiset(Kids(n)) && Ranked(SortedKids(n, ticks), ticks)
    ensures multiset(Subtrees(SortedKids(n, ticks))) == multiset(Subtrees(Kids(n)))
    ensures |Subtrees(SortedKids(n, ticks))| == |Subtree(n)| - 1
  {
    SortIsRanked(Kids(n), ticks);
    SubtreesPermute(SortedKids(n, ticks), Kids(n));
    SubtreeOfKids(n);
  }

  lemma SortedKidsSmaller(n: Node, ticks: Ticks)
    ensures |Subtrees(SortedKids(n, ticks))| < |Subtree(n)|
    ensures forall x :: x in Subtree(n) <==> x == n || x in Subtrees(SortedKids(n, ticks))
  {
    SortedKidsPermute(n, ticks);
    SubtreeOfKids(n);
    SamePermutationSameMembers(Subtrees(SortedKids(n, ticks)), Subtrees(Kids(n)));
  }

  /** Ranks decide the positions of two siblings. */
  lemma RankedPositions(ns: seq<Node>, a: Node, b: Node, ticks: Ticks) returns (ka: nat, kb: nat)
    requires a in ns && b in ns && Before(a, b, ticks)
    ensures var sorted := SortByUrgencyAndLruTime(ns, ticks); ka < kb < |sorted| && sorted[ka] == a && sorted[kb] == b
  {
    SortIsRanked(ns, ticks);
    var sorted := SortByUrgencyAndLruTime(ns, ticks);
    SamePermutationSameMembers(sorted, ns);
    assert a in sorted && b in sorted;
    ka :| 0 <= ka < |sorted| && sorted[ka] == a;
    kb :| 0 <= kb < |sorted| && sorted[kb] == b;
  }

  /** The root, then the flattened children in menu order. */
  function SortedSubtree(n: Node, ticks: Ticks): seq<Node>
    decreases |Subtree(n)|, 0
  {
    SortedKidsSmaller(n, ticks);
    [n] + SortedSubtrees(SortedKids(n, ticks), ticks)
  }

  function SortedSubtrees(ns: seq<Node>, ticks: Ticks): seq<Node>
    decreases |Subtrees(ns)|, 1
  {
    if ns == [] then [] else SortedSubtree(ns[0], ticks) + SortedSubtrees(ns[1..], ticks)
  }

  /** The shared vector the recursion pushes to. */
  class Listing {
    var v: seq<Node>

    constructor ()
      ensures v == []
    {
      v := [];
    }

    method PushSubtreeSorted(n: Node, ticks: Ticks)
      modifies this
      ensures v == old(v) + SortedSubtree(n, ticks)
      decreases |Subtree(n)|, 0
    {
      v := v + [n];
      var children := n.nodes;
      children := children + n.floatingNodes;
      children := SortByUrgencyAndLruTime(children, ticks);
      SortedKidsSmaller(n, ticks);
      PushAllSorted(children, ticks);
      assert v == old(v) + ([n] + SortedSubtrees(children, ticks));
    }

    /** The loop over sorted siblings. */
    method PushAllSorted(ns: seq<Node>, ticks: Ticks)
      modifies this
      ensures v == old(v) + SortedSubtrees(ns, ticks)
      decreases |Subtrees(ns)|, 1
    {
      var i := 0;
      while i < |ns|
        invariant 0 <= i <= |ns|
        invariant v + SortedSubtrees(ns[i..], ticks) == old(v) + SortedSubtrees(ns, ticks)
        invariant |Subtrees(ns[i..])| <= |Subtrees(ns)|
      {
        assert ns[i..][0] == ns[i] && ns[i..][1..] == ns[i + 1..];
        ghost var before, rest := v, SortedSubtrees(ns[i + 1..], ticks);
        PushSubtreeSorted(ns[i], ticks);
        assert v + rest == before + (SortedSubtree(ns[i], ticks) + rest);
        i := i + 1;
      }
    }
  }

  lemma {:induction false} SortedSubtreePermutes(n: Node, ticks: Ticks)
    ensures multiset(SortedSubtree(n, ticks)) == multiset(Subtree(n))
    ensures |SortedSubtree(n, ticks)| == |Subtree(n)|
    decreases |Subtree(n)|, 0
  {
    SortedKidsPermute(n, ticks);
    SortedSubtreesPermute(SortedKids(n, ticks), ticks);
    SubtreeOfKids(n);
    SamePermutationSameMembers(SortedSubtree(n, ticks), Subtree(n));
  }

  lemma {:induction false} SortedSubtreesPermute(ns: seq<Node>, ticks: Ticks)
    ensures multiset(SortedSubtrees(ns, ticks)) == multiset(Subtrees(ns))
    ensures |SortedSubtrees(ns, ticks)| == |Subtrees(ns)|
    decreases |Subtrees(ns)|, 1
  {
    if ns != [] {
      SortedSubtreePermutes(ns[0], ticks);
      SortedSubtreesPermute(ns[1..], ticks);
    }
  }

  // ---------------------------------------------------------------------------------------
  // Contiguous subtrees

  /** Every subtree appears as one contiguous block, starting with its root. */
  lemma {:induction false} SubtreeIsBlock(n: Node, x: Node, ticks: Ticks) returns (i: int)
    requires x in Subtree(n)
    ensures BlockAt(SortedSubtree(n, ticks), i, SortedSubtree(x, ticks))
    decreases |Subtree(n)|, 0
  {
    if x == n {
      i := 0;
      assert SortedSubtree(n, ticks)[0..|SortedSubtree(n, ticks)|] == SortedSubtree(n, ticks);
    } else {
      SortedKidsSmaller(n, ticks);
      var ks := SortedKids(n, ticks);
      i := SubtreeIsBlockIn(ks, x, ticks);
      BlockInRight([n], SortedSubtrees(ks, ticks), i, SortedSubtree(x, ticks));
      i := i + 1;
    }
  }

  lemma {:induction false} SubtreeIsBlockIn(ns: seq<Node>, x: Node, ticks: Ticks) returns (i: int)
    requires x in Subtrees(ns)
    ensures BlockAt(SortedSubtrees(ns, ticks), i, SortedSubtree(x, ticks))
    decreases |Subtrees(ns)|, 1
  {
    var first, rest := SortedSubtree(ns[0], ticks), SortedSubtrees(ns[1..], ticks);
    if x in Subtree(ns[0]) {
      i := SubtreeIsBlock(ns[0], x, ticks);
      BlockInLeft(first, i, SortedSubtree(x, ticks), rest);
    } else {
      i := SubtreeIsBlockIn(ns[1..], x, ticks);
      BlockInRight(first, rest, i, SortedSubtree(x, ticks));
      i := i + |first|;
    }
  }

  // ---------------------------------------------------------------------------------------
  // Sibling order

  /** Where the block of sibling `k` starts. */
  function Offset(ns: seq<Node>, k: nat, ticks: Ticks): nat
    requires k <= |ns|
  {
    if k == 0 then 0 else |SortedSubtree(ns[0], ticks)| + Offset(ns[1..], k - 1, ticks)
  }

  lemma {:induction false} OffsetFindsSibling(ns: seq<Node>, k: nat, ticks: Ticks)
    requires k < |ns|
    ensures Offset(ns, k, ticks) < |SortedSubtrees(ns, ticks)| && SortedSubtrees(ns, ticks)[Offset(ns, k, ticks)] == ns[k]
    decreases k
  {
    if k > 0 {
      OffsetFindsSibling(ns[1..], k - 1, ticks);
    }
  }

  lemma {:induction false} OffsetsIncrease(ns: seq<Node>, j: nat, k: nat, ticks: Ticks)
    requires j < k <= |ns|
    ensures Offset(ns, j, ticks) < Offset(ns, k, ticks)
    decreases j
  {
    if j > 0 {
      OffsetsIncrease(ns[1..], j - 1, k - 1, ticks);
    }
  }

  /** Of two siblings of a sorted forest, the one with the higher rank is listed first. */
  lemma ForestOrder(ns: seq<Node>, a: Node, b: Node, ticks: Ticks) returns (i: nat, j: nat)
    requires a in ns && b in ns && Before(a, b, ticks)
    ensures var s := SortedSubtrees(SortByUrgencyAndLruTime(ns, ticks), ticks); i < j < |s| && s[i] == a && s[j] == b
  {
    var sorted := SortByUrgencyAndLruTime(ns, ticks);
    var ka, kb := RankedPositions(ns, a, b, ticks);
    OffsetFindsSibling(sorted, ka, ticks);
    OffsetFindsSibling(sorted, kb, ticks);
    OffsetsIncrease(sorted, ka, kb, ticks);
    i, j := Offset(sorted, ka, ticks), Offset(sorted, kb, ticks);
  }

  /** The sibling with the higher rank is listed first. */
  lemma SiblingOrder(p: Node, a: Node, b: Node, ticks: Ticks) returns (i: nat, j: nat)
    requires a in Kids(p) && b in Kids(p) && Before(a, b, ticks)
    ensures i < j < |SortedSubtree(p, ticks)|
    ensures SortedSubtree(p, ticks)[i] == a && SortedSubtree(p, ticks)[j] == b
  {
    i, j := ForestOrder(Kids(p), a, b, ticks);
    i, j := i + 1, j + 1;
  }

  /** In the listing of a whole tree, siblings appear urgent first, then by descending tick. */
  lemma SiblingsInMenuOrder(n: Node, p: Node, a: Node, b: Node, ticks: Ticks, ia: nat, ib: nat)
    requires UniqueIds(n) && p in Subtree(n) && a in Kids(p) && b in Kids(p) && Before(a, b, ticks)
    requires ia < |SortedSubtree(n, ticks)| && SortedSubtree(n, ticks)[ia] == a
    requires ib < |SortedSubtree(n, ticks)| && SortedSubtree(n, ticks)[ib] == b
    ensures ia < ib
  {
    var s := SortedSubtree(n, ticks);
    var o := SubtreeIsBlock(n, p, ticks);
    var i, j := SiblingOrder(p, a, b, ticks);
    var block := SortedSubtree(p, ticks);
    assert s[o..o + |block|][i] == a && s[o..o + |block|][j] == b;
    assert s[o + i] == a && s[o + j] == b;
    SubtreeDistinct(n);
    SortedSubtreePermutes(n, ticks);
    PermutationDistinct(Subtree(n), s);
  }

  // ---------------------------------------------------------------------------------------
  // The output menu

  function OutputMenu(root: Node, ticks: Ticks): seq<Node> {
    SortedSubtrees(SortByUrgencyAndLruTime(NodesOfType(root, Output), ticks), ticks)
  }

  method GetOutputsWorkspacesContainersAndWindows(root: Node, ticks: Ticks) returns (r: seq<Node>)
    ensures r == OutputMenu(root, ticks)
  {
    var outputs := SortByUrgencyAndLruTime(NodesOfType(root, Output), ticks);
    var listing := new Listing();
    listing.PushAllSorted(outputs, ticks);
    r := listing.v;
  }

  /** The shape of sway's tree at the top: the outputs are exactly the children of the root. */
  ghost predicate OutputsAtTop(root: Node) {
    forall x :: x in Subtree(root) ==> (GetType(x) == Output <==> x in Kids(root))
  }

  /** A node list with distinct subtree ids has distinct members. */
  lemma {:induction false} ForestDistinct(ns: seq<Node>)
    requires Distinct(Ids(Subtrees(ns)))
    ensures Distinct(ns)
    decreases |ns|
  {
    if ns != [] {
      DistinctSplit(Subtree(ns[0]), Subtrees(ns[1..]));
      ForestDistinct(ns[1..]);
      assert ns[0] in Subtree(ns[0]) by {
        assert Subtree(ns[0])[0] == ns[0];
      }
      forall j | 0 < j < |ns|
        ensures ns[0] != ns[j]
      {
        KidInSubtrees(ns[1..], ns[j]);
      }
    }
  }

  /** The sorted outputs are the children of the root, in menu order. */
  lemma OutputsAreKids(root: Node, ticks: Ticks)
    requires UniqueIds(root) && OutputsAtTop(root)
    ensures multiset(SortByUrgencyAndLruTime(NodesOfType(root, Output), ticks)) == multiset(Kids(root))
  {
    SubtreeOfKids(root);
    DistinctSplit([root], Subtrees(Kids(root)));
    ForestDistinct(Kids(root));
    NodesOfTypeDistinct(root, Output);
    NodesOfTypeMembers(root, Output);
    forall x | x in Kids(root)
      ensures x in Subtree(root)
    {
      KidInSubtrees(Kids(root), x);
    }
    SameMembersPermute(NodesOfType(root, Output), Kids(root));
    SortIsRanked(NodesOfType(root, Output), ticks);
  }

  lemma OutputMenuPermutes(root: Node, ticks: Ticks)
    requires UniqueIds(root) && OutputsAtTop(root)
    ensures multiset(OutputMenu(root, ticks)) == multiset(Subtree(root)[1..])
  {
    OutputsAreKids(root, ticks);
    var sorted := SortByUrgencyAndLruTime(NodesOfType(root, Output), ticks);
    SubtreesPermute(sorted, Kids(root));
    SortedSubtreesPermute(sorted, ticks);
    SubtreeOfKids(root);
  }

  lemma TailMembers(s: seq<Node>, x: Node)
    requires Distinct(s) && s != []
    ensures x in s[1..] <==> x in s && x != s[0]
  {
    assert s == [s[0]] + s[1..];
  }

  lemma NonRootDepth(root: Node, x: Node)
    requires UniqueIds(root) && x in Subtree(root) && x != root
    ensures Depth(root, x.id) >= 1
  {
    SingleSubtree(root);
    BelowIsDeeper(root, root, x);
  }

  /** The output menu lists every node but the root exactly once, each at depth one or more. */
  lemma OutputMenuListsAll(root: Node, ticks: Ticks)
    requires UniqueIds(root) && OutputsAtTop(root)
    ensures multiset(OutputMenu(root, ticks)) == multiset(Subtree(root)[1..])
    ensures Distinct(OutputMenu(root, ticks))
    ensures forall x :: x in OutputMenu(root, ticks) <==> x in Subtree(root) && x != root
    ensures forall x :: x in OutputMenu(root, ticks) ==> Depth(root, x.id) >= 1
  {
    OutputMenuPermutes(root, ticks);
    var menu, nodes := OutputMenu(root, ticks), Subtree(root);
    SubtreeDistinct(root);
    assert nodes[0] == root;
    PermutationDistinct(nodes[1..], menu);
    SamePermutationSameMembers(menu, nodes[1..]);
    forall x
      ensures x in menu <==> x in nodes && x != root
      ensures x in menu ==> Depth(root, x.id) >= 1
    {
      TailMembers(nodes, x);
      if x in menu {
        NonRootDepth(root, x);
      }
    }
  }

  /** Below the root, every subtree is one contiguous block of the menu, starting with its root. */
  lemma OutputMenuBlock(root: Node, x: Node, ticks: Ticks) returns (i: int)
    requires UniqueIds(root) && OutputsAtTop(root) && x in Subtree(root) && x != root
    ensures BlockAt(OutputMenu(root, ticks), i, SortedSubtree(x, ticks))
  {
    OutputMenuListsAll(root, ticks);
    var sorted := SortByUrgencyAndLruTime(NodesOfType(root, Output), ticks);
    SortedSubtreesPermute(sorted, ticks);
    SamePermutationSameMembers(OutputMenu(root, ticks), Subtrees(sorted));
    i := SubtreeIsBlockIn(sorted, x, ticks);
  }

  /** In the menu, siblings and outputs alike appear urgent first, then by descending tick. */
  lemma OutputMenuSiblings(root: Node, p: Node, a: Node, b: Node, ticks: Ticks, ia: nat, ib: nat)
    requires UniqueIds(root) && OutputsAtTop(root)
    requires p in Subtree(root) && a in Kids(p) && b in Kids(p) && Before(a, b, ticks)
    requires ia < |OutputMenu(root, ticks)| && OutputMenu(root, ticks)[ia] == a
    requires ib < |OutputMenu(root, ticks)| && OutputMenu(root, ticks)[ib] == b
    ensures ia < ib
  {
    var s := OutputMenu(root, ticks);
    OutputMenuListsAll(root, ticks);
    if p == root {
      NodesOfTypeMembers(root, Output);
      var i, j := ForestOrder(NodesOfType(root, Output), a, b, ticks);
    } else {
      var o := OutputMenuBlock(root, p, ticks);
      var i, j := SiblingOrder(p, a, b, ticks);
      BlockPosition(s, o, SortedSubtree(p, ticks), i, ia);
      BlockPosition(s, o, SortedSubtree(p, ticks), j, ib);
    }
  }

  // ---------------------------------------------------------------------------------------
  // Indentation

  /** The menu with the indent levels its entries are shown at. */
  method IndentedOutputMenu(root: Node, ticks: Ticks) returns (menu: seq<Node>, levels: seq<nat>)
    requires UniqueIds(root) && OutputsAtTop(root)
    ensures menu == OutputMenu(root, ticks) && |levels| == |menu|
    ensures forall i :: 0 <= i < |menu| ==> levels[i] == Depth(root, menu[i].id) - 1
  {
    menu := GetOutputsWorkspacesContainersAndWindows(root, ticks);
    levels := [];
    var tree := GetTree(root);
    for i := 0 to |menu|
      invariant |levels| == i
      invariant forall j :: 0 <= j < i ==> levels[j] == Depth(root, menu[j].id) - 1
    {
      EntryIndexed(root, menu[i], ticks);
      var level := GetIndentLevel(tree, menu[i].id, 1);
      levels := levels + [level];
    }
  }

  lemma EntryIndexed(root: Node, x: Node, ticks: Ticks)
    requires UniqueIds(root) && OutputsAtTop(root) && x in OutputMenu(root, ticks)
    ensures x.id in TreeOf(root).idNode && Depth(root, x.id) >= 1
  {
    OutputMenuListsAll(root, ticks);
    IndexIsTree(root);
  }

  /** The entries of a block after its first are below it in the tree. */
  lemma BlockIsBelow(root: Node, p: Node, ticks: Ticks, k: nat)
    requires UniqueIds(root) && p in Subtree(root) && 0 < k < |SortedSubtree(p, ticks)|
    ensures Depth(root, SortedSubtree(p, ticks)[k].id) > Depth(root, p.id)
  {
    var block := SortedSubtree(p, ticks);
    SubtreeUnique(root, p);
    SubtreeDistinct(p);
    SortedSubtreePermutes(p, ticks);
    PermutationDistinct(Subtree(p), block);
    SamePermutationSameMembers(block, Subtree(p));
    assert block[0] == p && block[k] in block;
    BelowIsDeeper(root, p, block[k]);
  }

  /** A child stands in its parent's block, after the parent. */
  lemma KidInBlock(root: Node, p: Node, x: Node, ticks: Ticks) returns (j: nat)
    requires UniqueIds(root) && p in Subtree(root) && x in Kids(p)
    ensures 0 < j < |SortedSubtree(p, ticks)| && SortedSubtree(p, ticks)[j] == x
  {
    KidDepth(root, p, x);
    SortedSubtreePermutes(p, ticks);
    SamePermutationSameMembers(SortedSubtree(p, ticks), Subtree(p));
    assert x in SortedSubtree(p, ticks) && SortedSubtree(p, ticks)[0] == p;
    j :| 0 <= j < |SortedSubtree(p, ticks)| && SortedSubtree(p, ticks)[j] == x;
  }

  lemma DeeperInBlock(root: Node, s: seq<Node>, o: int, p: Node, ticks: Ticks)
    requires UniqueIds(root) && p in Subtree(root) && BlockAt(s, o, SortedSubtree(p, ticks))
    ensures forall k :: o < k < o + |SortedSubtree(p, ticks)| ==> Depth(root, s[k].id) > Depth(root, p.id)
  {
    forall k | o < k < o + |SortedSubtree(p, ticks)|
      ensures Depth(root, s[k].id) > Depth(root, p.id)
    {
      BlockElement(s, o, SortedSubtree(p, ticks), k - o);
      BlockIsBelow(root, p, ticks, k - o);
    }
  }

  /** The indentation shows the tree: the parent is the nearest entry above that is indented less. */
  lemma IndentShowsParent(root: Node, p: Node, x: Node, ticks: Ticks, ip: nat, ix: nat)
    requires UniqueIds(root) && OutputsAtTop(root) && p in Subtree(root) && p != root && x in Kids(p)
    requires ip < |OutputMenu(root, ticks)| && OutputMenu(root, ticks)[ip] == p
    requires ix < |OutputMenu(root, ticks)| && OutputMenu(root, ticks)[ix] == x
    ensures ip < ix && Depth(root, x.id) == Depth(root, p.id) + 1
    ensures forall k :: ip < k <= ix ==> Depth(root, OutputMenu(root, ticks)[k].id) > Depth(root, p.id)
  {
    var s, block := OutputMenu(root, ticks), SortedSubtree(p, ticks);
    OutputMenuListsAll(root, ticks);
    var o := OutputMenuBlock(root, p, ticks);
    KidDepth(root, p, x);
    var j := KidInBlock(root, p, x, ticks);
    BlockPosition(s, o, block, 0, ip);
    BlockPosition(s, o, block, j, ix);
    DeeperInBlock(root, s, o, p, ticks);
  }

  /** The nodes at depth one are the children of the root. */
  lemma DepthOne(root: Node, x: Node)
    requires UniqueIds(root) && x in Subtree(root)
    ensures Depth(root, x.id) == 1 <==> x in Kids(root)
  {
    SingleSubtree(root);
    if x in Kids(root) {
      KidDepth(root, root, x);
    } else if Depth(root, x.id) == 1 {
      SecondOnPath(root, x.id);
      var y := Path(root, x.id)[1];
      KidDepth(root, root, y);
      IdDeterminesNode(Subtree(root), x, y);
    }
  }

  lemma SecondOnPath(root: Node, id: int)
    requires |Path(root, id)| == 2
    ensures Path(root, id)[1] in Kids(root) && Path(root, id)[1].id == id
  {
    PathSound(root, id);
  }

  /** Entries without a parent in the menu are the outputs, and only they are not indented. */
  lemma UnindentedAreOutputs(root: Node, x: Node, ticks: Ticks)
    requires UniqueIds(root) && OutputsAtTop(root) && x in OutputMenu(root, ticks)
    ensures Depth(root, x.id) == 1 <==> GetType(x) == Output
  {
    OutputMenuListsAll(root, ticks);
    DepthOne(root, x);
  }
}
