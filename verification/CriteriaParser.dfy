/** The PEG of the query language (criteria.rs, `criteria_parser`), as functions on the remaining input. */
module CriteriaParser {
  import opened Options
  import opened Nodes
  import opened Criteria

  predicate IsSpace(c: char) {
    c == ' ' || c == '\t'
  }

  predicate IsDigit(c: char) {
    '0' <= c <= '9'
  }

  /** `space()`: any run of blanks and tabs, but no newline. */
  function Skip(s: string): (r: string)
    ensures |r| <= |s|
  {
    if s != [] && IsSpace(s[0]) then Skip(s[1..]) else s
  }

  /** A literal. */
  function Lit(s: string, lit: string): Option<string> {
    if lit <= s then Some(s[|lit|..]) else None
  }

  /** `e1 / e2 / e3` on literals. */
  function LitOf(s: string, lits: seq<string>): (r: Option<string>)
    requires forall i :: 0 <= i < |lits| ==> lits[i] != []
    ensures r.Some? ==> |r.value| < |s|
  {
    if lits == [] then None
    else if Lit(s, lits[0]).Some? then Lit(s, lits[0]) else LitOf(s, lits[1..])
  }

  /** The characters before the first double quote. */
  function BeforeQuote(s: string): (r: string)
    ensures |r| <= |s|
  {
    if s == [] || s[0] == '"' then [] else [s[0]] + BeforeQuote(s[1..])
  }

  function StringLiteral(s: string): (r: Option<(string, string)>)
    ensures r.Some? ==> |r.value.1| < |s|
  {
    if s == [] || s[0] != '"' then None
    else
      var body := BeforeQuote(s[1..]);
      if |body| + 1 < |s| then Some((body, s[|body| + 2..])) else None
  }

  predicate AllDigits(ds: string) {
    forall i :: 0 <= i < |ds| ==> IsDigit(ds[i])
  }

  function LeadingDigits(s: string): (r: string)
    ensures |r| <= |s| && AllDigits(r)
  {
    if s == [] || !IsDigit(s[0]) then [] else [s[0]] + LeadingDigits(s[1..])
  }

  /** The number written by a string of digits. */
  function DigitsValue(ds: string): nat
    requires AllDigits(ds)
  {
    if ds == [] then 0
    else
      assert IsDigit(ds[|ds| - 1]);
      10 * DigitsValue(ds[..|ds| - 1]) + (ds[|ds| - 1] as int - '0' as int)
  }

  function NumberValue(negative: bool, ds: string): int
    requires AllDigits(ds)
  {
    var v: int := DigitsValue(ds);
    if negative then -v else v
  }

  /** An optional minus sign and digits; the rule fails when the number does not fit the type. */
  function IntLiteral(s: string, lo: int, hi: int): (r: Option<(int, string)>)
    ensures r.Some? ==> |r.value.1| < |s|
  {
    var negative := s != [] && s[0] == '-';
    var t := if negative then s[1..] else s;
    var ds := LeadingDigits(t);
    if ds != [] && lo <= NumberValue(negative, ds) <= hi then Some((NumberValue(negative, ds), t[|ds|..])) else None
  }

  const FOCUSED := "__focused__"

  function RegexOrFocusedRule(s: string): (r: Option<(RegexOrFocused, string)>)
    ensures r.Some? ==> |r.value.1| < |s|
  {
    var f := Lit(s, FOCUSED);
    if f.Some? then Some((RegexFocused, f.value))
    else
      var q := StringLiteral(s);
      if q.Some? then Some((Pattern(q.value.0), q.value.1)) else None
  }

  function I64OrFocusedRule(s: string): (r: Option<(I64OrFocused, string)>)
    ensures r.Some? ==> |r.value.1| < |s|
  {
    var f := Lit(s, FOCUSED);
    if f.Some? then Some((I64Focused, f.value))
    else
      var n := IntLiteral(s, I64_MIN, I64_MAX);
      if n.Some? then Some((I64(n.value.0), n.value.1)) else None
  }

  const XDG_SHELL := "\"xdg_shell\""
  const XWAYLAND := "\"xwayland\""

  function ShellTypeOrFocusedRule(s: string): (r: Option<(ShellTypeOrFocused, string)>)
    ensures r.Some? ==> |r.value.1| < |s|
  {
    if Lit(s, XDG_SHELL).Some? then Some((Shell(XdgShell), Lit(s, XDG_SHELL).value))
    else if Lit(s, XWAYLAND).Some? then Some((Shell(Xwayland), Lit(s, XWAYLAND).value))
    else if Lit(s, FOCUSED).Some? then Some((ShellFocused, Lit(s, FOCUSED).value))
    else None
  }

  /** The simple criteria, in the order the grammar tries them. */
  const KEYS :=
    [KTiling, KFloating, KAppId, KClass, KInstance, KAppName, KTitle, KShell, KWorkspace, KConMark, KConId, KPid]

  function KeyText(k: Key): (r: string)
    ensures r != []
  {
    match k
    case KTiling => "tiling"
    case KFloating => "floating"
    case KAppId => "app_id"
    case KClass => "class"
    case KInstance => "instance"
    case KAppName => "app_name"
    case KTitle => "title"
    case KShell => "shell"
    case KWorkspace => "workspace"
    case KConMark => "con_mark"
    case KConId => "con_id"
    case KPid => "pid"
  }

  predicate IsFlag(k: Key) {
    k.KTiling? || k.KFloating?
  }

  function OfRegexOrFocused(k: Key, rof: RegexOrFocused): Criterion {
    match k
    case KAppId => AppId(rof)
    case KClass => Class(rof)
    case KInstance => Instance(rof)
    case KAppName => AppName(rof)
    case KTitle => Title(rof)
    case _ => WorkspaceIs(rof)
  }

  /** The operand of a key, after the equals sign. */
  function Operand(k: Key, s: string): (r: Option<(Criterion, string)>)
    ensures r.Some? ==> |r.value.1| < |s|
  {
    match k
    case KShell =>
      var r := ShellTypeOrFocusedRule(s);
      if r.Some? then Some((ShellIs(r.value.0), r.value.1)) else None
    case KConMark =>
      var r := StringLiteral(s);
      if r.Some? then Some((ConMark(r.value.0), r.value.1)) else None
    case KConId =>
      var r := I64OrFocusedRule(s);
      if r.Some? then Some((ConId(r.value.0), r.value.1)) else None
    case KPid =>
      var r := IntLiteral(s, I32_MIN, I32_MAX);
      if r.Some? then Some((Pid(r.value.0), r.value.1)) else None
    case _ =>
      var r := RegexOrFocusedRule(s);
      if r.Some? then Some((OfRegexOrFocused(k, r.value.0), r.value.1)) else None
  }

  /** One simple criterion: a flag, or `key space = space operand`. */
  function Simple(k: Key, s: string): (r: Option<(Criterion, string)>)
    ensures r.Some? ==> |r.value.1| < |s|
  {
    var t := Lit(s, KeyText(k));
    if t.None? then None
    else if IsFlag(k) then Some((if k.KTiling? then Tiling else Floating, t.value))
    else
      var e := Lit(Skip(t.value), "=");
      if e.None? then None else Operand(k, Skip(e.value))
  }

  /** Ordered choice among simple criteria. */
  function SimpleOf(keys: seq<Key>, s: string): (r: Option<(Criterion, string)>)
    ensures r.Some? ==> |r.value.1| < |s|
  {
    if keys == [] then None
    else if Simple(keys[0], s).Some? then Simple(keys[0], s) else SimpleOf(keys[1..], s)
  }

  const AND_WORDS := ["AND", "and", "&&"]
  const OR_WORDS := ["OR", "or", "||"]
  const NOT_WORDS := ["NOT", "not", "!"]

  /** `l:(criterion() ** space()) space() "]" space()`. */
  function GroupBody(s: string): (r: Option<(seq<Criterion>, string)>)
    ensures r.Some? ==> |r.value.1| < |s|
    decreases |s|, 2
  {
    var (cs, t) := List(s);
    var u := Lit(Skip(t), "]");
    if u.Some? then Some((cs, Skip(u.value))) else None
  }

  /** `criterion() ** space()`: possibly empty, separated by possibly empty space. */
  function List(s: string): (r: (seq<Criterion>, string))
    ensures |r.1| <= |s|
    decreases |s|, 1
  {
    var c := CriterionRule(s);
    if c.None? then ([], s)
    else
      var (cs, t) := More(c.value.1);
      ([c.value.0] + cs, t)
  }

  /** The rest of a list; a separator that no criterion follows is given back. */
  function More(s: string): (r: (seq<Criterion>, string))
    ensures |r.1| <= |s|
    decreases |s|, 1
  {
    var c := CriterionRule(Skip(s));
    if c.None? then ([], s)
    else
      var (cs, t) := More(c.value.1);
      ([c.value.0] + cs, t)
  }

  function AndRule(s: string): (r: Option<(Criterion, string)>)
    ensures r.Some? ==> |r.value.1| < |s|
    decreases |s|, 0, 0
  {
    var open := Lit(s, "[");
    if open.None? then None
    else
      var t := Skip(open.value);
      var word := LitOf(t, AND_WORDS);
      var body := GroupBody(Skip(if word.Some? then word.value else t));
      if body.Some? then Some((And(body.value.0), body.value.1)) else None
  }

  function OrRule(s: string): (r: Option<(Criterion, string)>)
    ensures r.Some? ==> |r.value.1| < |s|
    decreases |s|, 0, 0
  {
    var open := Lit(s, "[");
    if open.None? then None
    else
      var word := LitOf(Skip(open.value), OR_WORDS);
      if word.None? then None
      else
        var body := GroupBody(Skip(word.value));
        if body.Some? then Some((Or(body.value.0), body.value.1)) else None
  }

  function NotRule(s: string): (r: Option<(Criterion, string)>)
    ensures r.Some? ==> |r.value.1| < |s|
    decreases |s|, 0, 0
  {
    var word := LitOf(s, NOT_WORDS);
    if word.None? then None
    else
      var c := CriterionRule(Skip(word.value));
      if c.Some? then Some((Not(c.value.0), Skip(c.value.1))) else None
  }

  /** Ordered choice: groups and negations before the simple criteria; the rest gets shorter. */
  function CriterionRule(s: string): (r: Option<(Criterion, string)>)
    ensures r.Some? ==> |r.value.1| < |s|
    decreases |s|, 0, 1
  {
    if AndRule(s).Some? then AndRule(s)
    else if OrRule(s).Some? then OrRule(s)
    else if NotRule(s).Some? then NotRule(s)
    else SimpleOf(KEYS, s)
  }

  /** `parse_criteria`: leading space is allowed, and the whole input must be consumed. */
  function ParseCriteria(s: string): Option<Criterion> {
    var c := CriterionRule(Skip(s));
    if c.Some? && c.value.1 == [] then Some(c.value.0) else None
  }
}
