/** The criteria query language (criteria.rs): abstract syntax and evaluation. */
module Criteria {
  import opened Options
  import opened Nodes
  import opened Trees
  import opened Ancestors

  /** A regular expression, known by its pattern; matching belongs to the regex library. */
  type Regex = string

  datatype RegexOrFocused = Pattern(rx: Regex) | RegexFocused

  datatype I64OrFocused = I64(n: int) | I64Focused

  datatype ShellTypeOrFocused = Shell(t: ShellType) | ShellFocused

  datatype Criterion =
    | And(cs: seq<Criterion>)
    | Or(cs: seq<Criterion>)
    | Not(c: Criterion)
    | AppId(rof: RegexOrFocused)
    | Class(rof: RegexOrFocused)
    | Instance(rof: RegexOrFocused)
    | AppName(rof: RegexOrFocused)
    | Title(rof: RegexOrFocused)
    | ConMark(rx: Regex)
    | ConId(iof: I64OrFocused)
    | Pid(pid: int)
    | WorkspaceIs(rof: RegexOrFocused)
    | ShellIs(sof: ShellTypeOrFocused)
    | Floating
    | Tiling

  /** The keys of the simple criteria. */
  datatype Key =
    | KTiling | KFloating | KAppId | KClass | KInstance | KAppName
    | KTitle | KShell | KWorkspace | KConMark | KConId | KPid

  const I32_MIN := -0x8000_0000
  const I32_MAX := 0x7fff_ffff
  const I64_MIN := -0x8000_0000_0000_0000
  const I64_MAX := 0x7fff_ffff_ffff_ffff

  /** What a query is evaluated against: the tree, the focused window and the regex library. */
  datatype Context = Context(tree: Tree, focused: Option<Node>, matches: (Regex, string) -> bool)

  predicate InContext(ctx: Context, w: Node) {
    && Indexed(ctx.tree) && w.id in ctx.tree.idNode
    && (ctx.focused.Some? ==> ctx.focused.value.id in ctx.tree.idNode)
  }

  predicate SomeAndEqual<T(==)>(a: Option<T>, b: Option<T>) {
    a.Some? && b.Some? && a.value == b.value
  }

  function WindowClass(n: Node): Option<string> {
    if n.windowProperties.Some? then n.windowProperties.value.class_ else None
  }

  function WindowInstance(n: Node): Option<string> {
    if n.windowProperties.Some? then n.windowProperties.value.instance else None
  }

  /** A property compared with a regex, or literally with the focused window's property. */
  predicate EvalProperty(rof: RegexOrFocused, own: Option<string>, focused: Option<Option<string>>, ctx: Context) {
    match rof
    case Pattern(rx) => own.Some? && ctx.matches(rx, own.value)
    case RegexFocused => focused.Some? && SomeAndEqual(own, focused.value)
  }

  function OfFocused(ctx: Context, get: Node -> Option<string>): Option<Option<string>> {
    if ctx.focused.Some? then Some(get(ctx.focused.value)) else None
  }

  /** The workspace of a node of the tree. */
  function WorkspaceOf(ctx: Context, w: Node): Option<Node> {
    if Indexed(ctx.tree) && w.id in ctx.tree.idNode then GetParentNodeOfType(ctx.tree, w.id, Workspace) else None
  }

  predicate Eval(c: Criterion, w: Node, ctx: Context) {
    match c
    case And(cs) => forall i :: 0 <= i < |cs| ==> Eval(cs[i], w, ctx)
    case Or(cs) => exists i :: 0 <= i < |cs| && Eval(cs[i], w, ctx)
    case Not(c') => !Eval(c', w, ctx)
    case AppId(rof) => EvalProperty(rof, w.appId, OfFocused(ctx, (n: Node) => n.appId), ctx)
    case AppName(Pattern(rx)) => ctx.matches(rx, GetAppName(w))
    case AppName(RegexFocused) => ctx.focused.Some? && GetAppName(w) != GetAppName(ctx.focused.value)
    case Class(rof) => EvalProperty(rof, WindowClass(w), OfFocused(ctx, (n: Node) => WindowClass(n)), ctx)
    case Instance(rof) => EvalProperty(rof, WindowInstance(w), OfFocused(ctx, (n: Node) => WindowInstance(n)), ctx)
    case Title(rof) => EvalProperty(rof, w.name, OfFocused(ctx, (n: Node) => n.name), ctx)
    case ConMark(rx) => exists i :: 0 <= i < |w.marks| && ctx.matches(rx, w.marks[i])
    case ConId(I64(n)) => w.id == n
    case ConId(I64Focused) => w.focused
    case Pid(pid) => w.pid == Some(pid)
    case WorkspaceIs(Pattern(rx)) =>
      WorkspaceOf(ctx, w).Some? && ctx.matches(rx, GetName(WorkspaceOf(ctx, w).value))
    case WorkspaceIs(RegexFocused) =>
      ctx.focused.Some? && SomeAndEqual(WorkspaceOf(ctx, w), WorkspaceOf(ctx, ctx.focused.value))
    case ShellIs(Shell(t)) => w.shell == Some(t)
    case ShellIs(ShellFocused) => ctx.focused.Some? && SomeAndEqual(w.shell, ctx.focused.value.shell)
    case Floating => IsFloating(w)
    case Tiling => !IsFloating(w)
  }

  /**
   The documentation promises literal comparison with the focused window.  The code compares
   with `!=`: it keeps the promise exactly when nothing is focused, and the focused window
   itself is never matched.
   */
  lemma AppNameFocusedMeaning(w: Node, ctx: Context)
    ensures (Eval(AppName(RegexFocused), w, ctx) <==> ctx.focused.Some? && GetAppName(w) == GetAppName(ctx.focused.value))
            <==> ctx.focused.None?
    ensures ctx.focused == Some(w) ==> !Eval(AppName(RegexFocused), w, ctx)
  {}

  /** A concrete query result against the documentation: the focused window does not match its own name. */
  lemma AppNameFocusedCounterexample(w: Node, ctx: Context)
    requires w == Node(7, Con, None, Some("foot"), Some(1), None, None, NoLayout, true, false, [], [], [])
    requires ctx == Context(TreeOf(w), Some(w), (rx, s) => true)
    ensures InContext(ctx, w) && GetAppName(w) == GetAppName(ctx.focused.value) && !Eval(AppName(RegexFocused), w, ctx)
  {}

  /** `workspace=__focused__` selects exactly the windows met when traversing the focused window's workspace. */
  lemma WorkspaceFocusedMeaning(w: Node, f: Node, ctx: Context)
    requires InContext(ctx, w) && WorkspacesNotNested(ctx.tree.root) && ctx.focused == Some(f)
    requires w in Subtree(ctx.tree.root) && f in Subtree(ctx.tree.root)
    ensures Eval(WorkspaceIs(RegexFocused), w, ctx) <==>
            exists ws :: ws in Subtree(ctx.tree.root) && GetType(ws) == Workspace && w in Preorder(ws) && f in Preorder(ws)
  {
    var root := ctx.tree.root;
    var mine := GetParentNodeOfType(ctx.tree, w.id, Workspace);
    if Eval(WorkspaceIs(RegexFocused), w, ctx) {
      PathSound(root, w.id);
      IndexIsTree(root);
      assert Subtrees([root]) == Subtree(root);
      WorkspaceLookupIsTraversal(ctx.tree, mine.value, w);
      WorkspaceLookupIsTraversal(ctx.tree, mine.value, f);
    }
    forall ws | ws in Subtree(root) && GetType(ws) == Workspace && w in Preorder(ws) && f in Preorder(ws)
      ensures Eval(WorkspaceIs(RegexFocused), w, ctx)
    {
      WorkspaceLookupIsTraversal(ctx.tree, ws, w);
      WorkspaceLookupIsTraversal(ctx.tree, ws, f);
    }
  }
}
