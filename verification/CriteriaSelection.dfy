/** Which windows a criterion selects from a list (criteria.rs, `eval_criterion` and `criterion_to_predicate`). */
module CriteriaSelection {
  import opened Options
  import opened Seqs
  import opened Nodes
  import opened Trees
  import opened Ancestors
  import opened Listings
  import opened Criteria
  import opened CriteriaParser
  import opened CriteriaQueries

  /** The predicate of a criterion in a context. */
  function Predicate(c: Criterion, ctx: Context): Node -> bool {
    (w: Node) => Eval(c, w, ctx)
  }

  /** `criterion_to_predicate`: the focused window is the first focused one of the list. */
  function ContextOf(wins: seq<Node>, tree: Tree, matches: (Regex, string) -> bool): Context {
    Context(tree, Find(wins, (w: Node) => w.focused), matches)
  }

  function Selected(c: Criterion, wins: seq<Node>, ctx: Context): seq<Node> {
    Filter(wins, Predicate(c, ctx))
  }

  predicate AllIn(wins: seq<Node>, ctx: Context) {
    forall w :: w in wins ==> InContext(ctx, w)
  }

  /** The windows of a tree are in the context of their list, and the focused one is the window with the focus. */
  lemma ContextOfList(root: Node, wins: seq<Node>, matches: (Regex, string) -> bool)
    requires SwayTree(root) && forall w :: w in wins ==> w in Subtree(root)
    ensures var ctx := ContextOf(wins, TreeOf(root), matches);
            && AllIn(wins, ctx) && (forall f :: f in wins && f.focused ==> ctx.focused == Some(f))
            && (ctx.focused.Some? ==> ctx.focused.value in wins && ctx.focused.value.focused)
  {
    IndexIsTree(root);
    FindFirst(wins, (w: Node) => w.focused);
  }

  // ---------------------------------------------------------------------------------------
  // Combinators

  lemma {:induction false} FilterAgree(wins: seq<Node>, p: Node -> bool, q: Node -> bool)
    requires forall w :: w in wins ==> p(w) == q(w)
    ensures Filter(wins, p) == Filter(wins, q)
    decreases |wins|
  {
    if wins != [] {
      FilterAgree(wins[1..], p, q);
    }
  }

  lemma {:induction false} FilterTwice(wins: seq<Node>, p: Node -> bool, q: Node -> bool, r: Node -> bool)
    requires forall w :: w in wins ==> (r(w) <==> p(w) && q(w))
    ensures Filter(Filter(wins, p), q) == Filter(wins, r)
    decreases |wins|
  {
    if wins != [] {
      FilterTwice(wins[1..], p, q, r);
      assert wins[0] in wins;
      if p(wins[0]) {
        FilterCons(wins[0], Filter(wins[1..], p), q);
      }
    }
  }

  lemma FilterCons(w: Node, ws: seq<Node>, q: Node -> bool)
    ensures Filter([w] + ws, q) == if q(w) then [w] + Filter(ws, q) else Filter(ws, q)
  {
    assert ([w] + ws)[0] == w && ([w] + ws)[1..] == ws;
  }

  lemma {:induction false} FilterPartitions(wins: seq<Node>, p: Node -> bool, q: Node -> bool)
    requires forall w :: w in wins ==> q(w) == !p(w)
    ensures multiset(Filter(wins, p)) + multiset(Filter(wins, q)) == multiset(wins)
    decreases |wins|
  {
    if wins != [] {
      FilterPartitions(wins[1..], p, q);
      assert wins == [wins[0]] + wins[1..] && wins[0] in wins;
    }
  }

  /** The empty conjunction selects all windows, the empty disjunction none. */
  lemma EmptyGroups(wins: seq<Node>, ctx: Context)
    ensures Selected(And([]), wins, ctx) == wins && Selected(Or([]), wins, ctx) == []
  {
    FilterAll(wins, Predicate(And([]), ctx));
    FilterNone(wins, Predicate(Or([]), ctx));
  }

  lemma {:induction false} FilterAll(wins: seq<Node>, p: Node -> bool)
    requires forall w :: w in wins ==> p(w)
    ensures Filter(wins, p) == wins
    decreases |wins|
  {
    if wins != [] {
      FilterAll(wins[1..], p);
    }
  }

  lemma {:induction false} FilterNone(wins: seq<Node>, p: Node -> bool)
    requires forall w :: w in wins ==> !p(w)
    ensures Filter(wins, p) == []
    decreases |wins|
  {
    if wins != [] {
      FilterNone(wins[1..], p);
    }
  }

  lemma AndOfFirst(c: Criterion, cs: seq<Criterion>, w: Node, ctx: Context)
    ensures Eval(And([c] + cs), w, ctx) <==> Eval(c, w, ctx) && Eval(And(cs), w, ctx)
  {
    var all := [c] + cs;
    if Eval(And(all), w, ctx) {
      assert Eval(all[0], w, ctx);
      forall i | 0 <= i < |cs|
        ensures Eval(cs[i], w, ctx)
      {
        assert cs[i] == all[i + 1] && Eval(all[i + 1], w, ctx);
      }
    }
    if Eval(c, w, ctx) && Eval(And(cs), w, ctx) {
      forall i | 0 <= i < |all|
        ensures Eval(all[i], w, ctx)
      {
        if i > 0 {
          assert all[i] == cs[i - 1] && Eval(cs[i - 1], w, ctx);
        }
      }
    }
  }

  /** A conjunction selects with one member after the other. */
  lemma AndSelectsInTurn(c: Criterion, cs: seq<Criterion>, wins: seq<Node>, ctx: Context)
    ensures Selected(And([c] + cs), wins, ctx) == Selected(And(cs), Selected(c, wins, ctx), ctx)
  {
    var all := [c] + cs;
    forall w | w in wins
      ensures Predicate(And(all), ctx)(w) <==> Predicate(c, ctx)(w) && Predicate(And(cs), ctx)(w)
    {
      AndOfFirst(c, cs, w, ctx);
    }
    FilterTwice(wins, Predicate(c, ctx), Predicate(And(cs), ctx), Predicate(And(all), ctx));
  }

  function Negations(cs: seq<Criterion>): seq<Criterion> {
    seq(|cs|, i requires 0 <= i < |cs| => Not(cs[i]))
  }

  /** A disjunction is the dual of a conjunction. */
  lemma OrIsDual(cs: seq<Criterion>, wins: seq<Node>, ctx: Context)
    ensures Selected(Or(cs), wins, ctx) == Selected(Not(And(Negations(cs))), wins, ctx)
  {
    var ns := Negations(cs);
    forall w | w in wins
      ensures Predicate(Or(cs), ctx)(w) == Predicate(Not(And(ns)), ctx)(w)
    {
      NegatedMembers(cs, w, ctx);
    }
    FilterAgree(wins, Predicate(Or(cs), ctx), Predicate(Not(And(ns)), ctx));
  }

  lemma NotEval(c: Criterion, w: Node, ctx: Context)
    ensures Eval(Not(c), w, ctx) <==> !Eval(c, w, ctx)
  {}

  lemma OrEval(cs: seq<Criterion>, w: Node, ctx: Context)
    ensures Eval(Or(cs), w, ctx) <==> exists i :: 0 <= i < |cs| && Eval(cs[i], w, ctx)
  {}

  lemma NegatedMembers(cs: seq<Criterion>, w: Node, ctx: Context)
    ensures Eval(And(Negations(cs)), w, ctx) <==> !Eval(Or(cs), w, ctx)
  {
    OrEval(cs, w, ctx);
    if Eval(And(Negations(cs)), w, ctx) {
      NoneOfNegated(cs, w, ctx);
    } else {
      SomeOfNegated(cs, w, ctx);
    }
  }

  lemma NoneOfNegated(cs: seq<Criterion>, w: Node, ctx: Context)
    requires Eval(And(Negations(cs)), w, ctx)
    ensures forall i :: 0 <= i < |cs| ==> !Eval(cs[i], w, ctx)
  {
    var ns := Negations(cs);
    forall i | 0 <= i < |cs|
      ensures !Eval(cs[i], w, ctx)
    {
      assert Eval(ns[i], w, ctx) && ns[i] == Not(cs[i]);
      NotEval(cs[i], w, ctx);
    }
  }

  lemma SomeOfNegated(cs: seq<Criterion>, w: Node, ctx: Context)
    requires !Eval(And(Negations(cs)), w, ctx)
    ensures exists i :: 0 <= i < |cs| && Eval(cs[i], w, ctx)
  {
    var ns := Negations(cs);
    var i :| 0 <= i < |ns| && !Eval(ns[i], w, ctx);
    assert ns[i] == Not(cs[i]);
    NotEval(cs[i], w, ctx);
  }

  /** A criterion and its negation part the list between them. */
  lemma NotPartitions(c: Criterion, wins: seq<Node>, ctx: Context)
    ensures multiset(Selected(c, wins, ctx)) + multiset(Selected(Not(c), wins, ctx)) == multiset(wins)
    ensures forall w :: w in Selected(Not(c), wins, ctx) <==> w in wins && w !in Selected(c, wins, ctx)
  {
    forall w | w in wins
      ensures Predicate(Not(c), ctx)(w) == !Predicate(c, ctx)(w)
    {
      NotEval(c, w, ctx);
    }
    FilterPartitions(wins, Predicate(c, ctx), Predicate(Not(c), ctx));
  }

  // ---------------------------------------------------------------------------------------
  // Simple criteria, by the fields of a node

  function ClassOf(w: Node): Option<string> {
    match w.windowProperties
    case Some(WindowProperties(c, _)) => c
    case None => None
  }

  function InstanceOf(w: Node): Option<string> {
    match w.windowProperties
    case Some(WindowProperties(_, i)) => i
    case None => None
  }

  /** The name of an application: its id, else its window class, else its instance, else a fixed text. */
  lemma AppNameMeaning(w: Node)
    ensures forall s :: w.appId == Some(s) ==> GetAppName(w) == s
    ensures forall s :: w.appId == None && ClassOf(w) == Some(s) ==> GetAppName(w) == s
    ensures forall s :: w.appId == None && ClassOf(w) == None && InstanceOf(w) == Some(s) ==> GetAppName(w) == s
    ensures w.appId == None && ClassOf(w) == None && InstanceOf(w) == None ==> GetAppName(w) == "<unknown_app>"
  {}

  /** A property is set and its text matches. */
  predicate TextMatches(own: Option<string>, rx: Regex, ctx: Context) {
    match own
    case Some(s) => ctx.matches(rx, s)
    case None => false
  }

  /** A property is set and the focused window has the same one. */
  predicate SharesWithFocused<T(==)>(own: Option<T>, ctx: Context, get: Node -> Option<T>) {
    match (own, ctx.focused)
    case (Some(x), Some(f)) => get(f) == Some(x)
    case _ => false
  }

  lemma AppIdSelects(rx: Regex, w: Node, ctx: Context)
    ensures Eval(AppId(Pattern(rx)), w, ctx) <==> TextMatches(w.appId, rx, ctx)
    ensures Eval(AppId(RegexFocused), w, ctx) <==> SharesWithFocused(w.appId, ctx, (n: Node) => n.appId)
  {}

  lemma ClassSelects(rx: Regex, w: Node, ctx: Context)
    ensures Eval(Class(Pattern(rx)), w, ctx) <==> TextMatches(ClassOf(w), rx, ctx)
    ensures Eval(Class(RegexFocused), w, ctx) <==> SharesWithFocused(ClassOf(w), ctx, (n: Node) => ClassOf(n))
  {}

  lemma InstanceSelects(rx: Regex, w: Node, ctx: Context)
    ensures Eval(Instance(Pattern(rx)), w, ctx) <==> TextMatches(InstanceOf(w), rx, ctx)
    ensures Eval(Instance(RegexFocused), w, ctx) <==> SharesWithFocused(InstanceOf(w), ctx, (n: Node) => InstanceOf(n))
  {}

  lemma TitleSelects(rx: Regex, w: Node, ctx: Context)
    ensures Eval(Title(Pattern(rx)), w, ctx) <==> TextMatches(w.name, rx, ctx)
    ensures Eval(Title(RegexFocused), w, ctx) <==> SharesWithFocused(w.name, ctx, (n: Node) => n.name)
  {}

  lemma ShellSelects(t: ShellType, w: Node, ctx: Context)
    ensures Eval(ShellIs(Shell(t)), w, ctx) <==> w.shell == Some(t)
    ensures Eval(ShellIs(ShellFocused), w, ctx) <==> SharesWithFocused(w.shell, ctx, (n: Node) => n.shell)
  {}

  lemma AppNameSelects(rx: Regex, w: Node, ctx: Context)
    ensures Eval(AppName(Pattern(rx)), w, ctx) <==> ctx.matches(rx, GetAppName(w))
  {}

  lemma ConMarkSelects(rx: Regex, w: Node, ctx: Context)
    ensures Eval(ConMark(rx), w, ctx) <==> exists m :: m in w.marks && ctx.matches(rx, m)
  {
    if m :| m in w.marks && ctx.matches(rx, m) {
      var i :| 0 <= i < |w.marks| && w.marks[i] == m;
    }
  }

  /** Ids and process ids. */
  lemma NumbersSelect(n: int, w: Node, ctx: Context)
    ensures Eval(ConId(I64(n)), w, ctx) <==> w.id == n
    ensures Eval(Pid(n), w, ctx) <==> w.pid == Some(n)
  {}

  lemma LayoutsSelect(w: Node, ctx: Context)
    ensures Eval(Floating, w, ctx) <==> w.nodeType == FloatingCon
    ensures Eval(Tiling, w, ctx) <==> w.nodeType != FloatingCon
  {}

  /** Whatever property of the focused window is set, the focused form of its key selects that window. */
  lemma FocusedSelectsItself(f: Node, ctx: Context)
    requires ctx.focused == Some(f)
    ensures f.appId != None ==> Eval(AppId(RegexFocused), f, ctx)
    ensures ClassOf(f) != None ==> Eval(Class(RegexFocused), f, ctx)
    ensures InstanceOf(f) != None ==> Eval(Instance(RegexFocused), f, ctx)
    ensures f.name != None ==> Eval(Title(RegexFocused), f, ctx)
    ensures f.shell != None ==> Eval(ShellIs(ShellFocused), f, ctx)
  {
    AppIdSelects("", f, ctx);
    ClassSelects("", f, ctx);
    InstanceSelects("", f, ctx);
    TitleSelects("", f, ctx);
    ShellSelects(XdgShell, f, ctx);
  }

  /** The focused container id selects the focused window and no other. */
  lemma FocusedIdSelects(root: Node, wins: seq<Node>, matches: (Regex, string) -> bool, w: Node)
    requires SwayTree(root) && (forall x :: x in wins ==> x in Subtree(root)) && w in wins
    ensures var ctx := ContextOf(wins, TreeOf(root), matches);
            Eval(ConId(I64Focused), w, ctx) <==> ctx.focused == Some(w)
  {
    ContextOfList(root, wins, matches);
  }

  /** The lookup finds the workspace whose traversal meets the window, if there is one. */
  lemma WorkspaceFound(w: Node, ctx: Context)
    requires InContext(ctx, w) && WorkspacesNotNested(ctx.tree.root) && w in Subtree(ctx.tree.root)
    ensures forall ws :: ws in Subtree(ctx.tree.root) && GetType(ws) == Workspace ==>
              (w in Preorder(ws) <==> WorkspaceOf(ctx, w) == Some(ws))
    ensures WorkspaceOf(ctx, w).Some? ==>
              WorkspaceOf(ctx, w).value in Subtree(ctx.tree.root) && GetType(WorkspaceOf(ctx, w).value) == Workspace
  {
    var root := ctx.tree.root;
    PathSound(root, w.id);
    assert Subtrees([root]) == Subtree(root);
    forall ws | ws in Subtree(root) && GetType(ws) == Workspace
      ensures w in Preorder(ws) <==> WorkspaceOf(ctx, w) == Some(ws)
    {
      WorkspaceLookupIsTraversal(ctx.tree, ws, w);
    }
  }

  lemma WorkspaceEval(rx: Regex, w: Node, ctx: Context)
    ensures var ws := WorkspaceOf(ctx, w);
            Eval(WorkspaceIs(Pattern(rx)), w, ctx) <==> ws.Some? && ctx.matches(rx, WorkspaceName(ws.value))
  {}

  /** A workspace pattern selects the windows met when traversing a workspace whose name matches. */
  lemma WorkspacePatternSelects(rx: Regex, w: Node, ctx: Context)
    requires InContext(ctx, w) && WorkspacesNotNested(ctx.tree.root) && w in Subtree(ctx.tree.root)
    ensures Eval(WorkspaceIs(Pattern(rx)), w, ctx) <==>
            exists ws :: ws in Subtree(ctx.tree.root) && GetType(ws) == Workspace && w in Preorder(ws)
                         && ctx.matches(rx, WorkspaceName(ws))
  {
    WorkspaceEval(rx, w, ctx);
    WorkspaceFound(w, ctx);
  }

  function WorkspaceName(ws: Node): string {
    match ws.name
    case Some(s) => s
    case None => "<unnamed>"
  }

  // ---------------------------------------------------------------------------------------
  // Queries

  /** What a query selects; a text that is no query selects nothing. */
  function QuerySelects(query: string, wins: seq<Node>, ctx: Context): seq<Node> {
    match ParseCriteria(query)
    case Some(c) => Selected(c, wins, ctx)
    case None => []
  }

  /** The documented meaning of the combinators: all, none, both, either and the rest. */
  lemma CombinedQueries(a: string, b: string, ca: Criterion, cb: Criterion, wins: seq<Node>, ctx: Context)
    requires ParseCriteria(a) == Some(ca) && ParseCriteria(b) == Some(cb)
    ensures QuerySelects("[and" + (Members([a, b]) + "]"), wins, ctx) == QuerySelects(b, QuerySelects(a, wins, ctx), ctx)
    ensures forall w :: w in QuerySelects("[or" + (Members([a, b]) + "]"), wins, ctx)
                        <==> w in QuerySelects(a, wins, ctx) || w in QuerySelects(b, wins, ctx)
    ensures forall w :: w in QuerySelects("not" + a, wins, ctx) <==> w in wins && w !in QuerySelects(a, wins, ctx)
  {
    TwoMembers(a, b, ca, cb);
    AndOfTwo(ca, cb, wins, ctx);
    OrOfTwo(ca, cb, wins, ctx);
    NotQueries(a, ca);
    NotPartitions(ca, wins, ctx);
  }

  lemma TwoMembers(a: string, b: string, ca: Criterion, cb: Criterion)
    requires ParseCriteria(a) == Some(ca) && ParseCriteria(b) == Some(cb)
    ensures ParseCriteria("[and" + (Members([a, b]) + "]")) == Some(And([ca, cb]))
    ensures ParseCriteria("[or" + (Members([a, b]) + "]")) == Some(Or([ca, cb]))
  {
    AndQueries([a, b], [ca, cb]);
    OrQueries([a, b], [ca, cb]);
    assert "[" + "and" == "[and" && "[" + "or" == "[or";
  }

  lemma AndOfTwo(a: Criterion, b: Criterion, wins: seq<Node>, ctx: Context)
    ensures Selected(And([a, b]), wins, ctx) == Selected(b, Selected(a, wins, ctx), ctx)
  {
    var both := Selected(a, wins, ctx);
    AndSelectsInTurn(a, [b], wins, ctx);
    AndSelectsInTurn(b, [], both, ctx);
    assert [a] + [b] == [a, b] && [b] + [] == [b];
    EmptyGroups(Selected(b, both, ctx), ctx);
  }

  lemma OrOfTwo(a: Criterion, b: Criterion, wins: seq<Node>, ctx: Context)
    ensures forall w :: w in Selected(Or([a, b]), wins, ctx) <==> w in Selected(a, wins, ctx) || w in Selected(b, wins, ctx)
  {
    forall w | w in wins
      ensures Predicate(Or([a, b]), ctx)(w) <==> Predicate(a, ctx)(w) || Predicate(b, ctx)(w)
    {
      EitherEval(a, b, w, ctx);
    }
  }

  lemma EitherEval(a: Criterion, b: Criterion, w: Node, ctx: Context)
    ensures Eval(Or([a, b]), w, ctx) <==> Eval(a, w, ctx) || Eval(b, w, ctx)
  {
    var cs := [a, b];
    OrEval(cs, w, ctx);
    assert cs[0] == a && cs[1] == b;
  }

  /** The documented extremes. */
  lemma ExtremeQueries(wins: seq<Node>, ctx: Context)
    ensures QuerySelects("[]", wins, ctx) == wins && QuerySelects("[and]", wins, ctx) == wins
    ensures QuerySelects("[or]", wins, ctx) == []
  {
    AndQueries([], []);
    OrQueries([], []);
    assert ("[" + "") + ("" + "]") == "[]" && ("[" + "and") + ("" + "]") == "[and]" && ("[" + "or") + ("" + "]") == "[or]";
    EmptyGroups(wins, ctx);
  }
}
