/**
 Written criteria: every way a query may be spelled, with its meaning.  This is the declarative
 side of the query language, independent of the parser (the query language section of swayr's own
 README.md, lines 205-243): nothing here is shared with it but the criteria themselves.
 */
module CriteriaText {
  import opened Nodes
  import opened Criteria

  datatype Operation = Implicit | AndWord(word: string) | OrWord(word: string)

  datatype Arg = NoArg | Quoted(body: string) | FocusedArg | Number(negative: bool, digits: string)

  /** A spelled criterion; the `sp` fields are its runs of blanks and tabs. */
  datatype Doc =
    | Plain(key: Key, sp1: string, sp2: string, arg: Arg)
    | Group(op: Operation, sp1: string, sp2: string, items: Items, sp3: string, sp4: string)
    | Negation(word: string, sp1: string, doc: Doc, sp2: string)

  /** The members of a group, each with the space after it. */
  datatype Items = Nil | Cons(doc: Doc, sp: string, tail: Items)

  /** Only blanks and tabs. */
  predicate Spaces(s: string) {
    forall i :: 0 <= i < |s| ==> s[i] == ' ' || s[i] == '\t'
  }

  predicate NoQuote(s: string) {
    '"' !in s
  }

  /** One or more decimal digits. */
  predicate Numeral(digits: string) {
    digits != [] && forall i :: 0 <= i < |digits| ==> '0' <= digits[i] <= '9'
  }

  function Power10(n: nat): nat {
    if n == 0 then 1 else 10 * Power10(n - 1)
  }

  /** Each digit counts for its place: the first of n digits for 10 to the n - 1. */
  function PlaceValue(digits: string): int
    requires forall i :: 0 <= i < |digits| ==> '0' <= digits[i] <= '9'
  {
    if digits == [] then 0
    else (digits[0] as int - '0' as int) * Power10(|digits| - 1) + PlaceValue(digits[1..])
  }

  function Signed(negative: bool, digits: string): int
    requires Numeral(digits)
  {
    if negative then -PlaceValue(digits) else PlaceValue(digits)
  }

  predicate Bare(key: Key) {
    key == KTiling || key == KFloating
  }

  predicate ProperArg(key: Key, arg: Arg) {
    match arg
    case NoArg => Bare(key)
    case Quoted(body) =>
      && !Bare(key) && !key.KConId? && !key.KPid? && NoQuote(body)
      && (key.KShell? ==> body == "xdg_shell" || body == "xwayland")
    case FocusedArg => !Bare(key) && !key.KConMark? && !key.KPid?
    case Number(negative, digits) =>
      && Numeral(digits)
      && ((key.KConId? && -9223372036854775808 <= Signed(negative, digits) <= 9223372036854775807)
          || (key.KPid? && -2147483648 <= Signed(negative, digits) <= 2147483647))
  }

  predicate ProperOp(op: Operation) {
    match op
    case Implicit => true
    case AndWord(word) => word == "AND" || word == "and" || word == "&&"
    case OrWord(word) => word == "OR" || word == "or" || word == "||"
  }

  predicate ProperNot(word: string) {
    word == "NOT" || word == "not" || word == "!"
  }

  predicate Proper(d: Doc) {
    match d
    case Plain(key, sp1, sp2, arg) => Spaces(sp1) && Spaces(sp2) && ProperArg(key, arg)
    case Group(op, sp1, sp2, items, sp3, sp4) =>
      Spaces(sp1) && Spaces(sp2) && Spaces(sp3) && Spaces(sp4) && ProperItems(items) && ProperOp(op)
    case Negation(word, sp1, doc, sp2) => ProperNot(word) && Spaces(sp1) && Proper(doc) && Spaces(sp2)
  }

  predicate ProperItems(items: Items) {
    items.Cons? ==> Proper(items.doc) && Spaces(items.sp) && ProperItems(items.tail)
  }

  function KeyName(key: Key): string {
    match key
    case KTiling => "tiling"
    case KFloating => "floating"
    case KAppId => "app_id"
    case KClass => "class"
    case KInstance => "instance"
    case KAppName => "app_name"
    case KTitle => "title"
    case KShell => "shell"
    case KWorkspace => "workspace"
    case KConMark => "con_mark"
    case KConId => "con_id"
    case KPid => "pid"
  }

  function ArgText(arg: Arg): string {
    match arg
    case NoArg => ""
    case Quoted(body) => "\"" + body + "\""
    case FocusedArg => "__focused__"
    case Number(negative, digits) => if negative then "-" + digits else digits
  }

  function OpText(op: Operation): string {
    if op.Implicit? then "" else op.word
  }

  function Text(d: Doc): string {
    match d
    case Plain(key, sp1, sp2, arg) =>
      if Bare(key) then KeyName(key) else KeyName(key) + (sp1 + ("=" + (sp2 + ArgText(arg))))
    case Group(op, sp1, sp2, items, sp3, sp4) =>
      "[" + (sp1 + (OpText(op) + (sp2 + (ItemsText(items) + (sp3 + ("]" + sp4))))))
    case Negation(word, sp1, doc, sp2) => word + (sp1 + (Text(doc) + sp2))
  }

  function ItemsText(items: Items): string {
    if items.Nil? then "" else Text(items.doc) + (items.sp + ItemsText(items.tail))
  }

  function RegexValue(arg: Arg): RegexOrFocused {
    if arg.Quoted? then Pattern(arg.body) else RegexFocused
  }

  /** The meaning of a simple criterion. */
  function PlainValue(key: Key, arg: Arg): Criterion
    requires ProperArg(key, arg)
  {
    match key
    case KTiling => Tiling
    case KFloating => Floating
    case KAppId => AppId(RegexValue(arg))
    case KClass => Class(RegexValue(arg))
    case KInstance => Instance(RegexValue(arg))
    case KAppName => AppName(RegexValue(arg))
    case KTitle => Title(RegexValue(arg))
    case KShell =>
      ShellIs(if arg.FocusedArg? then ShellFocused else if arg.body == "xdg_shell" then Shell(XdgShell) else Shell(Xwayland))
    case KWorkspace => WorkspaceIs(RegexValue(arg))
    case KConMark => ConMark(arg.body)
    case KConId => ConId(if arg.FocusedArg? then I64Focused else I64(Signed(arg.negative, arg.digits)))
    case KPid => Pid(Signed(arg.negative, arg.digits))
  }

  function Value(d: Doc): Criterion
    requires Proper(d)
  {
    match d
    case Plain(key, _, _, arg) => PlainValue(key, arg)
    case Group(op, _, _, items, _, _) => if op.OrWord? then Or(Values(items)) else And(Values(items))
    case Negation(_, _, doc, _) => Not(Value(doc))
  }

  function Values(items: Items): seq<Criterion>
    requires ProperItems(items)
  {
    if items.Nil? then [] else [Value(items.doc)] + Values(items.tail)
  }
}
