/** Sway's layout tree and its depth-first iterator (shared/ipc.rs). */
module Nodes {
  import opened Options
  import opened Seqs

  datatype NodeType = RootNode | OutputNode | WorkspaceNode | Con | FloatingCon | OtherNode

  datatype NodeLayout = SplitH | SplitV | Stacked | Tabbed | OutputLayout | NoLayout

  datatype ShellType = XdgShell | Xwayland

  datatype WindowProperties = WindowProperties(class_: Option<string>, instance: Option<string>)

  datatype Node = Node(
    id: int,
    nodeType: NodeType,
    name: Option<string>,
    appId: Option<string>,
    pid: Option<int>,
    shell: Option<ShellType>,
    windowProperties: Option<WindowProperties>,
    layout: NodeLayout,
    focused: bool,
    urgent: bool,
    marks: seq<string>,
    nodes: seq<Node>,
    floatingNodes: seq<Node>)

  /** The node kinds swayr distinguishes; `Unknown` stands for the panic of `get_type`. */
  datatype Type = Root | Output | Workspace | Container | Window | Unknown

  function GetType(n: Node): Type {
    match n.nodeType
    case RootNode => Root
    case OutputNode => Output
    case WorkspaceNode => Workspace
    case FloatingCon => Window
    case Con =>
      if n.name.None? && n.appId.None? && n.pid.None? && n.shell.None? && n.windowProperties.None? && !n.layout.NoLayout?
      then Container
      else if n.pid.Some? then Window else Unknown
    case OtherNode => Unknown
  }

  function GetName(n: Node): string {
    if n.name.Some? then n.name.value else "<unnamed>"
  }

  function GetAppName(n: Node): string {
    if n.appId.Some? then n.appId.value
    else if n.windowProperties.Some? && n.windowProperties.value.class_.Some? then n.windowProperties.value.class_.value
    else if n.windowProperties.Some? && n.windowProperties.value.instance.Some? then n.windowProperties.value.instance.value
    else "<unknown_app>"
  }

  predicate IsFloating(n: Node) {
    n.nodeType.FloatingCon?
  }

  function Kids(n: Node): seq<Node> {
    n.nodes + n.floatingNodes
  }

  // ---------------------------------------------------------------------------------------
  // The nodes of a tree, as a plain recursive listing

  function Subtree(n: Node): (r: seq<Node>)
    ensures |r| >= 1 && r[0] == n
  {
    [n] + Subtrees(n.nodes) + Subtrees(n.floatingNodes)
  }

  function Subtrees(ns: seq<Node>): seq<Node> {
    if ns == [] then [] else Subtree(ns[0]) + Subtrees(ns[1..])
  }

  lemma {:induction false} SubtreesConcat(a: seq<Node>, b: seq<Node>)
    ensures Subtrees(a + b) == Subtrees(a) + Subtrees(b)
  {
    if a == [] {
      assert a + b == b;
    } else {
      assert (a + b)[1..] == a[1..] + b;
      SubtreesConcat(a[1..], b);
    }
  }

  lemma SubtreeOfKids(n: Node)
    ensures Subtree(n) == [n] + Subtrees(Kids(n))
  {
    SubtreesConcat(n.nodes, n.floatingNodes);
  }

  lemma SubtreesHead(b: seq<Node>)
    requires b != []
    ensures multiset(Subtrees(b)) == multiset(Subtree(b[0])) + multiset(Subtrees(b[1..]))
  {}

  lemma SubtreesConcatMultiset(a: seq<Node>, b: seq<Node>)
    ensures multiset(Subtrees(a + b)) == multiset(Subtrees(a)) + multiset(Subtrees(b))
  {
    SubtreesConcat(a, b);
  }

  lemma SubtreesPick(b: seq<Node>, k: nat)
    requires k < |b|
    ensures multiset(Subtrees(b)) == multiset(Subtree(b[k])) + multiset(Subtrees(b[..k] + b[k + 1..]))
  {
    var pre, post := b[..k], b[k..];
    assert b == pre + post && post[1..] == b[k + 1..];
    SubtreesConcatMultiset(pre, post);
    SubtreesHead(post);
    SubtreesConcatMultiset(pre, b[k + 1..]);
  }

  /** Reordering siblings reorders the listing. */
  lemma {:induction false} SubtreesPermute(a: seq<Node>, b: seq<Node>)
    requires multiset(a) == multiset(b)
    ensures multiset(Subtrees(a)) == multiset(Subtrees(b))
    ensures |Subtrees(a)| == |Subtrees(b)|
    decreases |a|
  {
    SamePermutationSameMembers(a, b);
    if a != [] {
      assert a[0] in b;
      var k :| 0 <= k < |b| && b[k] == a[0];
      PickPermutes(a, b, k);
      SubtreesPermute(a[1..], b[..k] + b[k + 1..]);
      SubtreesPick(b, k);
    }
    assert |Subtrees(a)| == |multiset(Subtrees(a))|;
  }

  // ---------------------------------------------------------------------------------------
  // The order of the iterator

  /** Tiled subtrees before floating ones, each group from its last child to its first. */
  function Preorder(n: Node): seq<Node> {
    [n] + PreorderStack(n.nodes) + PreorderStack(n.floatingNodes)
  }

  /** Everything still to come from a stack whose top is its last element. */
  function PreorderStack(stack: seq<Node>): seq<Node> {
    if stack == [] then [] else Preorder(stack[|stack| - 1]) + PreorderStack(stack[..|stack| - 1])
  }

  lemma {:induction false} PreorderStackPush(a: seq<Node>, b: seq<Node>)
    ensures PreorderStack(a + b) == PreorderStack(b) + PreorderStack(a)
    decreases |b|
  {
    if b == [] {
      assert a + b == a;
    } else {
      var top := |b| - 1;
      assert (a + b)[..|a + b| - 1] == a + b[..top];
      PreorderStackPush(a, b[..top]);
    }
  }

  /** Popping a node and pushing its children, floating ones first, takes one step of the preorder. */
  lemma PopAndPush(rest: seq<Node>, node: Node)
    ensures PreorderStack(rest + [node]) == [node] + PreorderStack(rest + node.floatingNodes + node.nodes)
  {
    var a, b, c := PreorderStack(node.nodes), PreorderStack(node.floatingNodes), PreorderStack(rest);
    calc {
      PreorderStack(rest + [node]);
      { assert (rest + [node])[..|rest|] == rest; }
      [node] + a + b + c;
      { ConcatAssociative([node], a, b, c); }
      [node] + (a + (b + c));
      { PreorderStackPush(rest, node.floatingNodes); }
      [node] + (a + PreorderStack(rest + node.floatingNodes));
      { PreorderStackPush(rest + node.floatingNodes, node.nodes); }
      [node] + PreorderStack(rest + node.floatingNodes + node.nodes);
    }
  }

  class NodeIter {
    var stack: seq<Node>

    constructor (node: Node)
      ensures stack == [node]
    {
      stack := [node];
    }

    method Push(ns: seq<Node>)
      modifies this
      ensures stack == old(stack) + ns
    {
      for i := 0 to |ns|
        invariant stack == old(stack) + ns[..i]
      {
        stack := stack + [ns[i]];
      }
    }

    method Next() returns (r: Option<Node>)
      modifies this
      ensures r.None? ==> PreorderStack(old(stack)) == [] && stack == old(stack)
      ensures r.Some? ==> PreorderStack(old(stack)) == [r.value] + PreorderStack(stack)
    {
      if stack == [] {
        return None;
      }
      var node, rest := stack[|stack| - 1], stack[..|stack| - 1];
      stack := rest;
      Push(node.floatingNodes);
      Push(node.nodes);
      PopAndPush(rest, node);
      assert rest + [node] == old(stack);
      return Some(node);
    }
  }

  /** Draining the iterator terminates and yields the recursive preorder. */
  method Iterate(node: Node) returns (r: seq<Node>)
    ensures r == Preorder(node)
  {
    var it := new NodeIter(node);
    r := [];
    var next := it.Next();
    assert Preorder(node) == PreorderStack([node]);
    while next.Some?
      invariant Preorder(node) == if next.Some? then r + [next.value] + PreorderStack(it.stack) else r
      decreases next.Some?, if next.Some? then |PreorderStack(it.stack)| else 0
    {
      r := r + [next.value];
      next := it.Next();
    }
  }

  /** The iterator yields every node of the tree exactly as often as it occurs. */
  lemma {:induction false} PreorderPermutes(n: Node)
    ensures multiset(Preorder(n)) == multiset(Subtree(n))
    decreases n, 1
  {
    PreorderStackPermutes(n.nodes);
    PreorderStackPermutes(n.floatingNodes);
  }

  lemma {:induction false} PreorderStackPermutes(ns: seq<Node>)
    ensures multiset(PreorderStack(ns)) == multiset(Subtrees(ns))
    decreases ns, 0
  {
    if ns != [] {
      var top := |ns| - 1;
      PreorderPermutes(ns[top]);
      PreorderStackPermutes(ns[..top]);
      assert ns == ns[..top] + [ns[top]];
      SubtreesConcatMultiset(ns[..top], [ns[top]]);
      SubtreesHead([ns[top]]);
    }
  }

  function NodesOfType(n: Node, t: Type): seq<Node> {
    Filter(Preorder(n), (m: Node) => GetType(m) == t)
  }

  predicate IsCurrent(n: Node) {
    exists m :: m in Preorder(n) && m.focused
  }
}
