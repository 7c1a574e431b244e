/**
 What queries mean, by their literal texts (swayr's own README.md, lines 205-243): each key, each
 number and each combinator word, and how queries are put together from queries.
 */
module CriteriaQueries {
  import opened Options
  import opened Nodes
  import opened Criteria
  import opened CriteriaParser
  import opened CriteriaText
  import opened CriteriaTokens
  import opened CriteriaRoundTrip

  lemma Parses(d: Doc)
    requires Proper(d)
    ensures ParseCriteria(Text(d)) == Some(Value(d))
  {
    ParserReadsEverySpelling(d, "");
    assert "" + Text(d) == Text(d);
  }

  lemma PlainParses(key: Key, sp1: string, sp2: string, arg: Arg)
    requires Spaces(sp1) && Spaces(sp2) && ProperArg(key, arg) && !Bare(key)
    ensures ParseCriteria(KeyName(key) + (sp1 + ("=" + (sp2 + ArgText(arg))))) == Some(PlainValue(key, arg))
  {
    Parses(Plain(key, sp1, sp2, arg));
  }

  // ---------------------------------------------------------------------------------------
  // The twelve keys

  lemma BareQueries()
    ensures ParseCriteria("tiling") == Some(Tiling) && ParseCriteria("floating") == Some(Floating)
  {
    Parses(Plain(KTiling, "", "", NoArg));
    Parses(Plain(KFloating, "", "", NoArg));
  }

  /** Keys with a quoted text, with any blanks and tabs around the equals sign. */
  lemma QuotedQueries(rx: string, sp1: string, sp2: string)
    requires '"' !in rx && Spaces(sp1) && Spaces(sp2)
    ensures ParseCriteria("app_id" + (sp1 + ("=" + (sp2 + ("\"" + rx + "\""))))) == Some(AppId(Pattern(rx)))
    ensures ParseCriteria("class" + (sp1 + ("=" + (sp2 + ("\"" + rx + "\""))))) == Some(Class(Pattern(rx)))
    ensures ParseCriteria("instance" + (sp1 + ("=" + (sp2 + ("\"" + rx + "\""))))) == Some(Instance(Pattern(rx)))
    ensures ParseCriteria("app_name" + (sp1 + ("=" + (sp2 + ("\"" + rx + "\""))))) == Some(AppName(Pattern(rx)))
    ensures ParseCriteria("title" + (sp1 + ("=" + (sp2 + ("\"" + rx + "\""))))) == Some(Title(Pattern(rx)))
    ensures ParseCriteria("workspace" + (sp1 + ("=" + (sp2 + ("\"" + rx + "\""))))) == Some(WorkspaceIs(Pattern(rx)))
    ensures ParseCriteria("con_mark" + (sp1 + ("=" + (sp2 + ("\"" + rx + "\""))))) == Some(ConMark(rx))
  {
    PlainParses(KAppId, sp1, sp2, Quoted(rx));
    PlainParses(KClass, sp1, sp2, Quoted(rx));
    PlainParses(KInstance, sp1, sp2, Quoted(rx));
    PlainParses(KAppName, sp1, sp2, Quoted(rx));
    PlainParses(KTitle, sp1, sp2, Quoted(rx));
    PlainParses(KWorkspace, sp1, sp2, Quoted(rx));
    PlainParses(KConMark, sp1, sp2, Quoted(rx));
  }

  /** Keys with the focused form. */
  lemma FocusedQueries(sp1: string, sp2: string)
    requires Spaces(sp1) && Spaces(sp2)
    ensures ParseCriteria("app_id" + (sp1 + ("=" + (sp2 + "__focused__")))) == Some(AppId(RegexFocused))
    ensures ParseCriteria("class" + (sp1 + ("=" + (sp2 + "__focused__")))) == Some(Class(RegexFocused))
    ensures ParseCriteria("instance" + (sp1 + ("=" + (sp2 + "__focused__")))) == Some(Instance(RegexFocused))
    ensures ParseCriteria("app_name" + (sp1 + ("=" + (sp2 + "__focused__")))) == Some(AppName(RegexFocused))
    ensures ParseCriteria("title" + (sp1 + ("=" + (sp2 + "__focused__")))) == Some(Title(RegexFocused))
    ensures ParseCriteria("workspace" + (sp1 + ("=" + (sp2 + "__focused__")))) == Some(WorkspaceIs(RegexFocused))
    ensures ParseCriteria("shell" + (sp1 + ("=" + (sp2 + "__focused__")))) == Some(ShellIs(ShellFocused))
    ensures ParseCriteria("con_id" + (sp1 + ("=" + (sp2 + "__focused__")))) == Some(ConId(I64Focused))
  {
    PlainParses(KAppId, sp1, sp2, FocusedArg);
    PlainParses(KClass, sp1, sp2, FocusedArg);
    PlainParses(KInstance, sp1, sp2, FocusedArg);
    PlainParses(KAppName, sp1, sp2, FocusedArg);
    PlainParses(KTitle, sp1, sp2, FocusedArg);
    PlainParses(KWorkspace, sp1, sp2, FocusedArg);
    PlainParses(KShell, sp1, sp2, FocusedArg);
    PlainParses(KConId, sp1, sp2, FocusedArg);
  }

  lemma ShellQuery(sp1: string, sp2: string)
    requires Spaces(sp1) && Spaces(sp2)
    ensures ParseCriteria("shell" + (sp1 + ("=" + (sp2 + ("\"" + "xdg_shell" + "\""))))) == Some(ShellIs(Shell(XdgShell)))
    ensures ParseCriteria("shell" + (sp1 + ("=" + (sp2 + ("\"" + "xwayland" + "\""))))) == Some(ShellIs(Shell(Xwayland)))
  {
    PlainParses(KShell, sp1, sp2, Quoted("xdg_shell"));
    assert |"xwayland"| != |"xdg_shell"|;
    PlainParses(KShell, sp1, sp2, Quoted("xwayland"));
  }

  // ---------------------------------------------------------------------------------------
  // Numbers

  function Sign(negative: bool): string {
    if negative then "-" else ""
  }

  /** A text that starts with a key is read by the rule of that key. */
  lemma KeyRule(key: Key, s: string)
    requires KeyText(key) <= s
    ensures Skip(s) == s && CriterionRule(s) == Simple(key, s)
  {
    KeyStarts(key);
    assert s[0] == KeyText(key)[0];
    NoCombinator(s);
    SimpleOfReads(KEYS, key, s);
  }

  /** What a key with an operand reads: the operand rule decides. */
  lemma OperandDecides(key: Key, sp1: string, sp2: string, a: string)
    requires Spaces(sp1) && Spaces(sp2) && !Bare(key) && Skip(a) == a
    ensures var r := Operand(key, a);
            ParseCriteria(KeyName(key) + (sp1 + ("=" + (sp2 + a))))
            == if r.Some? && r.value.1 == [] then Some(r.value.0) else None
  {
    KeysAgree(key);
    SimpleIsOperand(key, sp1, sp2, a);
    KeyRule(key, KeyText(key) + (sp1 + ("=" + (sp2 + a))));
  }

  lemma SimpleIsOperand(key: Key, sp1: string, sp2: string, a: string)
    requires Spaces(sp1) && Spaces(sp2) && !Bare(key) && Skip(a) == a
    ensures Simple(key, KeyText(key) + (sp1 + ("=" + (sp2 + a)))) == Operand(key, a)
  {
    KeysAgree(key);
    LitReads(KeyText(key), sp1 + ("=" + (sp2 + a)));
    SkipSpaces(sp1, "=" + (sp2 + a));
    assert Skip("=" + (sp2 + a)) == "=" + (sp2 + a);
    LitReads("=", sp2 + a);
    SkipSpaces(sp2, a);
  }

  lemma NumberText(negative: bool, ds: string)
    requires Numeral(ds)
    ensures Sign(negative) + ds == ArgText(Number(negative, ds)) && Skip(Sign(negative) + ds) == Sign(negative) + ds
    ensures Sign(negative) + ds + "" == Sign(negative) + ds
  {}

  /** A process id is a decimal number, with leading zeros or not, and must fit 32 bits. */
  lemma PidQuery(negative: bool, ds: string, sp1: string, sp2: string)
    requires Numeral(ds) && Spaces(sp1) && Spaces(sp2)
    ensures ParseCriteria("pid" + (sp1 + ("=" + (sp2 + (Sign(negative) + ds)))))
            == if -2147483648 <= Signed(negative, ds) <= 2147483647 then Some(Pid(Signed(negative, ds))) else None
  {
    NumberText(negative, ds);
    OperandDecides(KPid, sp1, sp2, Sign(negative) + ds);
    IntReads(negative, ds, "", I32_MIN, I32_MAX);
  }

  /** A container id is a decimal number that must fit 64 bits. */
  lemma ConIdQuery(negative: bool, ds: string, sp1: string, sp2: string)
    requires Numeral(ds) && Spaces(sp1) && Spaces(sp2)
    ensures ParseCriteria("con_id" + (sp1 + ("=" + (sp2 + (Sign(negative) + ds)))))
            == if -9223372036854775808 <= Signed(negative, ds) <= 9223372036854775807
               then Some(ConId(I64(Signed(negative, ds)))) else None
  {
    NumberText(negative, ds);
    OperandDecides(KConId, sp1, sp2, Sign(negative) + ds);
    NumberNotFocused(negative, ds, "");
    IntReads(negative, ds, "", I64_MIN, I64_MAX);
  }

  /** Places in base ten, on an example. */
  lemma BaseTen()
    ensures Numeral("4207") && Signed(false, "4207") == 4207 && Signed(true, "4207") == -4207
    ensures ParseCriteria("pid=4207") == Some(Pid(4207))
  {
    assert "4207"[1..] == "207" && "207"[1..] == "07" && "07"[1..] == "7" && "7"[1..] == "";
    assert Power10(1) == 10 && Power10(2) == 100 && Power10(3) == 1000;
    assert PlaceValue("7") == 7 && PlaceValue("07") == 7 && PlaceValue("207") == 207;
    PidQuery(false, "4207", "", "");
    assert "pid" + ("" + ("=" + ("" + (Sign(false) + "4207")))) == "pid=4207";
  }

  // ---------------------------------------------------------------------------------------
  // Combinators: queries are put together from queries

  /** The members of a group, each after a blank. */
  function Members(queries: seq<string>): string {
    if queries == [] then "" else " " + (queries[0] + Members(queries[1..]))
  }

  /** `cs` are the meanings of the queries. */
  ghost predicate Mean(queries: seq<string>, cs: seq<Criterion>) {
    |queries| == |cs| && forall i :: 0 <= i < |cs| ==> ParseCriteria(queries[i]) == Some(cs[i])
  }

  lemma QueryDoc(query: string, c: Criterion) returns (sp: string, d: Doc)
    requires ParseCriteria(query) == Some(c)
    ensures Spaces(sp) && Proper(d) && query == sp + Text(d) && Value(d) == c
  {
    ParserIsGrammar(query);
    assert Spells(query, c);
    sp, d :| Spaces(sp) && Proper(d) && query == sp + Text(d) && Value(d) == c;
  }

  /** Members in front of anything are space and the items of a group. */
  lemma {:induction false} MembersAreItems(queries: seq<string>, cs: seq<Criterion>) returns (sp: string, items: Items)
    requires Mean(queries, cs)
    ensures Spaces(sp) && ProperItems(items) && Values(items) == cs && Members(queries) == sp + ItemsText(items)
    decreases |queries|
  {
    if queries == [] {
      sp, items := "", Nil;
    } else {
      var sp1, d := QueryDoc(queries[0], cs[0]);
      var sp2, rest := MembersAreItems(queries[1..], cs[1..]);
      sp, items := " " + sp1, Cons(d, sp2, rest);
      JoinMembers(sp1, Text(d), sp2, ItemsText(rest));
      assert [cs[0]] + cs[1..] == cs;
    }
  }

  lemma JoinMembers(sp1: string, x: string, sp2: string, y: string)
    ensures " " + ((sp1 + x) + (sp2 + y)) == (" " + sp1) + (x + (sp2 + y))
  {}

  lemma GroupText(word: string, sp: string, x: string)
    ensures "[" + ("" + (word + (sp + (x + ("" + ("]" + "")))))) == ("[" + word) + ((sp + x) + "]")
  {
    assert x + ("" + ("]" + "")) == x + "]";
    assert sp + (x + "]") == (sp + x) + "]";
  }

  lemma GroupParses(op: Operation, queries: seq<string>, cs: seq<Criterion>)
    requires ProperOp(op) && Mean(queries, cs)
    ensures ParseCriteria(("[" + OpText(op)) + (Members(queries) + "]")) == Some(if op.OrWord? then Or(cs) else And(cs))
  {
    var sp, items := MembersAreItems(queries, cs);
    GroupText(OpText(op), sp, ItemsText(items));
    Parses(Group(op, "", sp, items, "", ""));
  }

  /** Conjunctions of any number of queries: four spellings. */
  lemma AndQueries(queries: seq<string>, cs: seq<Criterion>)
    requires Mean(queries, cs)
    ensures ParseCriteria(("[" + "") + (Members(queries) + "]")) == Some(And(cs))
    ensures ParseCriteria(("[" + "and") + (Members(queries) + "]")) == Some(And(cs))
    ensures ParseCriteria(("[" + "AND") + (Members(queries) + "]")) == Some(And(cs))
    ensures ParseCriteria(("[" + "&&") + (Members(queries) + "]")) == Some(And(cs))
  {
    GroupParses(Implicit, queries, cs);
    GroupParses(AndWord("and"), queries, cs);
    GroupParses(AndWord("AND"), queries, cs);
    GroupParses(AndWord("&&"), queries, cs);
  }

  /** Disjunctions: three spellings. */
  lemma OrQueries(queries: seq<string>, cs: seq<Criterion>)
    requires Mean(queries, cs)
    ensures ParseCriteria(("[" + "or") + (Members(queries) + "]")) == Some(Or(cs))
    ensures ParseCriteria(("[" + "OR") + (Members(queries) + "]")) == Some(Or(cs))
    ensures ParseCriteria(("[" + "||") + (Members(queries) + "]")) == Some(Or(cs))
  {
    GroupParses(OrWord("or"), queries, cs);
    GroupParses(OrWord("OR"), queries, cs);
    GroupParses(OrWord("||"), queries, cs);
  }

  lemma NegationParses(word: string, query: string, c: Criterion)
    requires ProperNot(word) && ParseCriteria(query) == Some(c)
    ensures ParseCriteria(word + query) == Some(Not(c))
  {
    var sp, d := QueryDoc(query, c);
    assert Text(d) + "" == Text(d);
    Parses(Negation(word, sp, d, ""));
  }

  /** Negations: three spellings, with or without space. */
  lemma NotQueries(query: string, c: Criterion)
    requires ParseCriteria(query) == Some(c)
    ensures ParseCriteria("not" + query) == Some(Not(c))
    ensures ParseCriteria("NOT" + query) == Some(Not(c))
    ensures ParseCriteria("!" + query) == Some(Not(c))
  {
    NegationParses("not", query, c);
    NegationParses("NOT", query, c);
    NegationParses("!", query, c);
  }

  /** Space in front of a query is ignored. */
  lemma LeadingSpace(sp: string, query: string)
    requires Spaces(sp)
    ensures ParseCriteria(sp + query) == ParseCriteria(query)
  {
    SkipSpaces(sp, query);
  }
}
