/** Every criterion has a spelling, so the parser is onto the criteria it can express (criteria.rs). */
module CriteriaPrinter {
  import opened Options
  import opened Criteria
  import opened CriteriaParser
  import opened CriteriaText
  import opened CriteriaTokens
  import opened CriteriaRoundTrip

  /** Strings without double quotes and integers within their types, throughout. */
  predicate Expressible(c: Criterion) {
    match c
    case And(cs) => forall i :: 0 <= i < |cs| ==> Expressible(cs[i])
    case Or(cs) => forall i :: 0 <= i < |cs| ==> Expressible(cs[i])
    case Not(c') => Expressible(c')
    case ConMark(rx) => NoQuote(rx)
    case ConId(I64(n)) => I64_MIN <= n <= I64_MAX
    case ConId(I64Focused) => true
    case Pid(n) => I32_MIN <= n <= I32_MAX
    case ShellIs(_) => true
    case Floating => true
    case Tiling => true
    case _ => c.rof.Pattern? ==> NoQuote(c.rof.rx)
  }

  function Digits(n: nat): (ds: string)
    ensures Numeral(ds) && PlaceValue(ds) == n
  {
    var last := ('0' as int + n % 10) as char;
    assert IsDigit(last);
    if n < 10 then
      PlaceValueAppend([], last);
      assert [] + [last] == [last];
      [last]
    else
      PlaceValueAppend(Digits(n / 10), last);
      Digits(n / 10) + [last]
  }

  function IntArg(n: int): (r: Arg)
    ensures r.Number? && Numeral(r.digits) && Signed(r.negative, r.digits) == n
  {
    if n < 0 then Number(true, Digits(-n)) else Number(false, Digits(n))
  }

  function RegexArg(rof: RegexOrFocused): Arg {
    match rof
    case Pattern(rx) => Quoted(rx)
    case RegexFocused => FocusedArg
  }

  function ShellArg(sof: ShellTypeOrFocused): (r: Arg)
    ensures ProperArg(KShell, r) && PlainValue(KShell, r) == ShellIs(sof)
  {
    match sof
    case ShellFocused => FocusedArg
    case Shell(XdgShell) => Quoted("xdg_shell")
    case Shell(Xwayland) =>
      assert |"xwayland"| != |"xdg_shell"|;
      Quoted("xwayland")
  }

  predicate HasRegex(c: Criterion) {
    c.AppId? || c.Class? || c.Instance? || c.AppName? || c.Title? || c.WorkspaceIs?
  }

  predicate IsPlain(c: Criterion) {
    !c.And? && !c.Or? && !c.Not?
  }

  function RegexKey(c: Criterion): (k: Key)
    requires HasRegex(c)
    ensures forall arg :: ProperArg(k, arg) && RegexValue(arg) == c.rof ==> PlainValue(k, arg) == c
    ensures !Bare(k) && !k.KShell? && !k.KConMark? && !k.KConId? && !k.KPid?
  {
    match c
    case AppId(_) => KAppId
    case Class(_) => KClass
    case Instance(_) => KInstance
    case AppName(_) => KAppName
    case Title(_) => KTitle
    case WorkspaceIs(_) => KWorkspace
  }

  lemma RegexArgProper(k: Key, rof: RegexOrFocused)
    requires !Bare(k) && !k.KShell? && !k.KConMark? && !k.KConId? && !k.KPid?
    requires rof.Pattern? ==> NoQuote(rof.rx)
    ensures ProperArg(k, RegexArg(rof)) && RegexValue(RegexArg(rof)) == rof
  {}

  /** The key and operand of a simple criterion without a regex-or-focused operand. */
  function OtherArg(c: Criterion): (r: (Key, Arg))
    requires Expressible(c) && IsPlain(c) && !HasRegex(c)
    ensures ProperArg(r.0, r.1) && PlainValue(r.0, r.1) == c
  {
    match c
    case ConMark(rx) => (KConMark, Quoted(rx))
    case ConId(iof) => (KConId, if iof.I64? then IntArg(iof.n) else FocusedArg)
    case Pid(n) => (KPid, IntArg(n))
    case ShellIs(sof) => (KShell, ShellArg(sof))
    case Floating => (KFloating, NoArg)
    case Tiling => (KTiling, NoArg)
  }

  /** The key and operand of a simple criterion. */
  function PlainArg(c: Criterion): (r: (Key, Arg))
    requires Expressible(c) && IsPlain(c)
    ensures ProperArg(r.0, r.1) && PlainValue(r.0, r.1) == c
  {
    if HasRegex(c) then
      RegexArgProper(RegexKey(c), c.rof);
      (RegexKey(c), RegexArg(c.rof))
    else OtherArg(c)
  }

  /** One spelling of a criterion: members separated by single blanks. */
  function Print(c: Criterion): (d: Doc)
    requires Expressible(c)
    ensures Proper(d) && Value(d) == c
    decreases c, 1
  {
    match c
    case And(cs) => Group(AndWord("and"), "", " ", PrintAll(cs), "", "")
    case Or(cs) => Group(OrWord("or"), "", " ", PrintAll(cs), "", "")
    case Not(c') => Negation("not", " ", Print(c'), "")
    case _ => Plain(PlainArg(c).0, "", "", PlainArg(c).1)
  }

  function PrintAll(cs: seq<Criterion>): (items: Items)
    requires forall i :: 0 <= i < |cs| ==> Expressible(cs[i])
    ensures ProperItems(items) && Values(items) == cs
    decreases cs, 0
  {
    if cs == [] then Nil else Cons(Print(cs[0]), " ", PrintAll(cs[1..]))
  }

  /** Printing and parsing a criterion gives it back. */
  lemma ParsePrinted(c: Criterion)
    requires Expressible(c)
    ensures ParseCriteria(Text(Print(c))) == Some(c)
  {
    ParserReadsEverySpelling(Print(c), "");
    assert "" + Text(Print(c)) == Text(Print(c));
  }

  /** The parser returns exactly the expressible criteria. */
  lemma {:induction false} ParsedIsExpressible(d: Doc)
    requires Proper(d)
    ensures Expressible(Value(d))
    decreases d, 1
  {
    match d
    case Plain(key, _, _, arg) =>
    case Group(_, _, _, items, _, _) => ParsedItemsExpressible(items);
    case Negation(_, _, doc, _) => ParsedIsExpressible(doc);
  }

  lemma {:induction false} ParsedItemsExpressible(items: Items)
    requires ProperItems(items)
    ensures forall i :: 0 <= i < |Values(items)| ==> Expressible(Values(items)[i])
    decreases items, 0
  {
    if items.Cons? {
      ParsedIsExpressible(items.doc);
      ParsedItemsExpressible(items.tail);
    }
  }

  /** The parser's range: a criterion is the result of some query exactly when it is expressible. */
  lemma ParserRange(c: Criterion)
    ensures Expressible(c) <==> exists s :: ParseCriteria(s) == Some(c)
  {
    if Expressible(c) {
      ParsePrinted(c);
    }
    if s :| ParseCriteria(s) == Some(c) {
      ParserIsGrammar(s);
      assert Spells(s, c);
      var sp, d :| Spaces(sp) && Proper(d) && s == sp + Text(d) && Value(d) == c;
      ParsedIsExpressible(d);
    }
  }
}
