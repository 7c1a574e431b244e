/** How the parser reads single tokens of a written criterion. */
module CriteriaTokens {
  import opened Options
  import opened Criteria
  import opened CriteriaParser
  import opened CriteriaText

  // ---------------------------------------------------------------------------------------
  // The parser's tables are those of the text

  lemma KeysAgree(k: Key)
    ensures KeyText(k) == KeyName(k) && (IsFlag(k) <==> Bare(k))
  {}

  lemma {:induction false} PlaceValueAppend(ds: string, c: char)
    requires AllDigits(ds) && IsDigit(c)
    ensures AllDigits(ds + [c]) && PlaceValue(ds + [c]) == 10 * PlaceValue(ds) + (c as int - '0' as int)
  {
    var s := ds + [c];
    if ds == [] {
      assert s == [c] && [c][1..] == [];
      assert Power10(0) == 1;
    } else {
      assert s[0] == ds[0] && s[1..] == ds[1..] + [c];
      PlaceValueAppend(ds[1..], c);
      ShiftPlace(ds[0] as int - '0' as int, |ds| - 1);
    }
  }

  lemma ShiftPlace(d: int, n: nat)
    ensures d * Power10(n + 1) == 10 * (d * Power10(n))
  {}

  /** Reading digits from the left gives the value of their places. */
  lemma {:induction false} DigitsAgree(ds: string)
    requires AllDigits(ds)
    ensures DigitsValue(ds) == PlaceValue(ds)
  {
    if ds != [] {
      var n := |ds| - 1;
      assert ds == ds[..n] + [ds[n]];
      assert IsDigit(ds[n]);
      DigitsAgree(ds[..n]);
      PlaceValueAppend(ds[..n], ds[n]);
    }
  }

  lemma NumbersAgree(negative: bool, ds: string)
    requires Numeral(ds)
    ensures AllDigits(ds) && NumberValue(negative, ds) == Signed(negative, ds)
  {
    DigitsAgree(ds);
  }

  // ---------------------------------------------------------------------------------------
  // Space and literals

  lemma {:induction false} SkipSpaces(sp: string, t: string)
    requires Spaces(sp)
    ensures Skip(sp + t) == Skip(t)
  {
    if sp == [] {
      assert sp + t == t;
    } else {
      assert (sp + t)[0] == sp[0] && (sp + t)[1..] == sp[1..] + t;
      SkipSpaces(sp[1..], t);
    }
  }

  /** What `Skip` dropped was space. */
  lemma {:induction false} Skipped(s: string) returns (sp: string)
    ensures Spaces(sp) && s == sp + Skip(s)
    ensures Skip(s) != [] ==> !IsSpace(Skip(s)[0])
  {
    if s != [] && IsSpace(s[0]) {
      var rest := Skipped(s[1..]);
      sp := [s[0]] + rest;
    } else {
      sp := [];
    }
  }

  lemma LitReads(lit: string, t: string)
    ensures Lit(lit + t, lit) == Some(t)
  {}

  lemma LitRead(s: string, lit: string)
    requires Lit(s, lit).Some?
    ensures s == lit + Lit(s, lit).value
  {}

  lemma LitDiffers(s: string, lit: string, i: nat)
    requires i < |lit| && (i < |s| ==> s[i] != lit[i])
    ensures Lit(s, lit) == None
  {}

  /** The words of a choice are told apart by their first characters. */
  predicate Unlike(lits: seq<string>) {
    && (forall i :: 0 <= i < |lits| ==> lits[i] != [])
    && (forall i, j :: 0 <= i < j < |lits| ==> lits[i][0] != lits[j][0])
  }

  lemma {:induction false} LitOfReads(lits: seq<string>, word: string, t: string)
    requires Unlike(lits) && word in lits
    ensures LitOf(word + t, lits) == Some(t)
  {
    if word == lits[0] {
      LitReads(word, t);
    } else {
      assert word in lits[1..];
      var i :| 0 < i < |lits| && lits[i] == word;
      assert (word + t)[0] == word[0] != lits[0][0];
      LitDiffers(word + t, lits[0], 0);
      LitOfReads(lits[1..], word, t);
    }
  }

  lemma {:induction false} LitOfFails(lits: seq<string>, s: string)
    requires forall i :: 0 <= i < |lits| ==> lits[i] != []
    requires s != [] ==> forall i :: 0 <= i < |lits| ==> s[0] != lits[i][0]
    ensures LitOf(s, lits) == None
  {
    if lits != [] {
      LitDiffers(s, lits[0], 0);
      LitOfFails(lits[1..], s);
    }
  }

  lemma {:induction false} LitOfRead(lits: seq<string>, s: string) returns (word: string)
    requires forall i :: 0 <= i < |lits| ==> lits[i] != []
    requires LitOf(s, lits).Some?
    ensures word in lits && s == word + LitOf(s, lits).value
  {
    if Lit(s, lits[0]).Some? {
      LitRead(s, lits[0]);
      word := lits[0];
    } else {
      word := LitOfRead(lits[1..], s);
    }
  }

  // ---------------------------------------------------------------------------------------
  // Strings and numbers

  lemma {:induction false} BeforeQuoteReads(body: string, t: string)
    requires NoQuote(body)
    ensures BeforeQuote(body + ("\"" + t)) == body
  {
    var s := body + ("\"" + t);
    if body != [] {
      assert s[0] == body[0] && s[1..] == body[1..] + ("\"" + t);
      BeforeQuoteReads(body[1..], t);
    }
  }

  lemma StringReads(body: string, t: string)
    requires NoQuote(body)
    ensures StringLiteral(("\"" + body + "\"") + t) == Some((body, t))
  {
    var s := ("\"" + body + "\"") + t;
    assert s[1..] == body + ("\"" + t);
    BeforeQuoteReads(body, t);
    assert s[|body| + 2..] == t;
  }

  lemma {:induction false} BeforeQuoteRead(s: string)
    ensures NoQuote(BeforeQuote(s))
    ensures BeforeQuote(s) == s[..|BeforeQuote(s)|]
    ensures |BeforeQuote(s)| < |s| ==> s[|BeforeQuote(s)|] == '"'
  {
    if !(s == [] || s[0] == '"') {
      BeforeQuoteRead(s[1..]);
    }
  }

  lemma StringRead(s: string)
    requires StringLiteral(s).Some?
    ensures var (body, t) := StringLiteral(s).value; NoQuote(body) && s == ("\"" + body + "\"") + t
  {
    BeforeQuoteRead(s[1..]);
  }

  predicate NoDigitFirst(t: string) {
    t != [] ==> !IsDigit(t[0])
  }

  lemma {:induction false} DigitsReads(ds: string, t: string)
    requires AllDigits(ds) && NoDigitFirst(t)
    ensures LeadingDigits(ds + t) == ds
  {
    if ds == [] {
      assert ds + t == t;
    } else {
      assert (ds + t)[0] == ds[0] && (ds + t)[1..] == ds[1..] + t;
      DigitsReads(ds[1..], t);
    }
  }

  /** An integer is read exactly when it fits. */
  lemma IntReads(negative: bool, ds: string, t: string, lo: int, hi: int)
    requires Numeral(ds) && NoDigitFirst(t)
    ensures IntLiteral(ArgText(Number(negative, ds)) + t, lo, hi)
            == if lo <= Signed(negative, ds) <= hi then Some((Signed(negative, ds), t)) else None
  {
    NumbersAgree(negative, ds);
    DigitsReads(ds, t);
    DropPrefix(ds, t);
    SignText(negative, ds, t);
  }

  lemma DropPrefix(ds: string, t: string)
    ensures (ds + t)[|ds|..] == t
  {}

  /** The sign in front of the digits is seen, and what is after it. */
  lemma SignText(negative: bool, ds: string, t: string)
    requires Numeral(ds)
    ensures var s := ArgText(Number(negative, ds)) + t;
            s != [] && (s[0] == '-' <==> negative) && (if negative then s[1..] else s) == ds + t
  {
    if negative {
      assert (("-" + ds) + t)[1..] == ds + t;
    } else {
      assert (ds + t)[0] == ds[0];
    }
  }

  lemma {:induction false} LeadingDigitsArePrefix(s: string)
    ensures LeadingDigits(s) == s[..|LeadingDigits(s)|]
  {
    if !(s == [] || !IsDigit(s[0])) {
      LeadingDigitsArePrefix(s[1..]);
    }
  }

  lemma IntRead(s: string, lo: int, hi: int) returns (negative: bool, ds: string)
    requires IntLiteral(s, lo, hi).Some?
    ensures Numeral(ds) && lo <= Signed(negative, ds) <= hi
    ensures IntLiteral(s, lo, hi).value.0 == Signed(negative, ds)
    ensures s == ArgText(Number(negative, ds)) + IntLiteral(s, lo, hi).value.1
  {
    negative := s[0] == '-';
    var t := if negative then s[1..] else s;
    LeadingDigitsArePrefix(t);
    ds := LeadingDigits(t);
    NumbersAgree(negative, ds);
  }

  // ---------------------------------------------------------------------------------------
  // Operands

  lemma FocusedReads(t: string)
    ensures Lit(FOCUSED + t, FOCUSED) == Some(t)
    ensures Lit(FOCUSED + t, XDG_SHELL) == None && Lit(FOCUSED + t, XWAYLAND) == None
  {
    LitReads(FOCUSED, t);
    assert (FOCUSED + t)[0] == '_';
    LitDiffers(FOCUSED + t, XDG_SHELL, 0);
    LitDiffers(FOCUSED + t, XWAYLAND, 0);
  }

  lemma ShellReads(arg: Arg, t: string)
    requires ProperArg(KShell, arg)
    ensures Operand(KShell, ArgText(arg) + t) == Some((PlainValue(KShell, arg), t))
  {
    var s := ArgText(arg) + t;
    if arg.FocusedArg? {
      FocusedReads(t);
    } else if arg.body == "xdg_shell" {
      assert ArgText(arg) == XDG_SHELL;
      LitReads(XDG_SHELL, t);
    } else {
      assert ArgText(arg) == XWAYLAND;
      assert s[2] == 'w' && XDG_SHELL[2] == 'd';
      LitDiffers(s, XDG_SHELL, 2);
      LitReads(XWAYLAND, t);
    }
  }

  lemma QuotedNotFocused(body: string, t: string)
    ensures Lit(("\"" + body + "\"") + t, FOCUSED) == None
  {
    LitDiffers(("\"" + body + "\"") + t, FOCUSED, 0);
  }

  lemma NumberNotFocused(negative: bool, ds: string, t: string)
    requires Numeral(ds)
    ensures Lit(ArgText(Number(negative, ds)) + t, FOCUSED) == None
  {
    assert IsDigit(ds[0]);
    LitDiffers(ArgText(Number(negative, ds)) + t, FOCUSED, 0);
  }

  /** Every operand is read back, whatever follows it, unless a digit follows. */
  lemma OperandReads(key: Key, arg: Arg, t: string)
    requires ProperArg(key, arg) && !IsFlag(key) && NoDigitFirst(t)
    ensures Operand(key, ArgText(arg) + t) == Some((PlainValue(key, arg), t))
  {
    if key.KShell? {
      ShellReads(arg, t);
    } else {
      match arg
      case Quoted(body) =>
        StringReads(body, t);
        QuotedNotFocused(body, t);
      case FocusedArg =>
        FocusedReads(t);
      case Number(negative, ds) =>
        NumberNotFocused(negative, ds, t);
        if key.KPid? {
          IntReads(negative, ds, t, I32_MIN, I32_MAX);
        } else {
          IntReads(negative, ds, t, I64_MIN, I64_MAX);
        }
    }
  }

  lemma ShellRead(s: string) returns (arg: Arg)
    requires Operand(KShell, s).Some?
    ensures ProperArg(KShell, arg)
    ensures Operand(KShell, s).value.0 == PlainValue(KShell, arg) && s == ArgText(arg) + Operand(KShell, s).value.1
  {
    if Lit(s, XDG_SHELL).Some? {
      arg := Quoted("xdg_shell");
      LitRead(s, XDG_SHELL);
      assert ArgText(arg) == XDG_SHELL;
    } else if Lit(s, XWAYLAND).Some? {
      arg := Quoted("xwayland");
      LitRead(s, XWAYLAND);
      assert ArgText(arg) == XWAYLAND;
    } else {
      arg := FocusedArg;
      LitRead(s, FOCUSED);
    }
  }

  /** Whatever the operand rule accepts was a proper operand. */
  lemma OperandRead(key: Key, s: string) returns (arg: Arg)
    requires !IsFlag(key) && Operand(key, s).Some?
    ensures ProperArg(key, arg)
    ensures Operand(key, s).value.0 == PlainValue(key, arg) && s == ArgText(arg) + Operand(key, s).value.1
  {
    if key.KShell? {
      arg := ShellRead(s);
    } else if key.KPid? {
      var negative, ds := IntRead(s, I32_MIN, I32_MAX);
      arg := Number(negative, ds);
    } else if !key.KConMark? && Lit(s, FOCUSED).Some? {
      LitRead(s, FOCUSED);
      arg := FocusedArg;
    } else if key.KConId? {
      var negative, ds := IntRead(s, I64_MIN, I64_MAX);
      arg := Number(negative, ds);
    } else {
      StringRead(s);
      arg := Quoted(StringLiteral(s).value.0);
    }
  }

  // ---------------------------------------------------------------------------------------
  // Keys

  /** The text decides the key: by its first, second, third or fifth character. */
  function KeyOf(s: string): Option<Key> {
    if |s| < 3 then None
    else
      match s[0]
      case 't' => if s[2] == 'l' then Some(KTiling) else Some(KTitle)
      case 'f' => Some(KFloating)
      case 'a' => if |s| < 5 then None else if s[4] == 'i' then Some(KAppId) else Some(KAppName)
      case 'c' =>
        if s[1] == 'l' then Some(KClass)
        else if |s| < 5 then None else if s[4] == 'i' then Some(KConId) else Some(KConMark)
      case 'i' => Some(KInstance)
      case 's' => Some(KShell)
      case 'w' => Some(KWorkspace)
      case 'p' => Some(KPid)
      case _ => None
  }

  lemma KeyDecides(k: Key, s: string)
    requires KeyText(k) <= s
    ensures KeyOf(s) == Some(k)
  {}

  /** The ordered choice of keys acts as if only the matching key were tried. */
  lemma {:induction false} SimpleOfReads(keys: seq<Key>, k: Key, s: string)
    requires k in keys && KeyText(k) <= s
    ensures SimpleOf(keys, s) == Simple(k, s)
  {
    KeyDecides(k, s);
    if keys[0] != k {
      if KeyText(keys[0]) <= s {
        KeyDecides(keys[0], s);
      }
      SimpleOfReads(keys[1..], k, s);
    } else {
      SimpleOfRest(keys[1..], k, s);
    }
  }

  lemma {:induction false} SimpleOfRest(keys: seq<Key>, k: Key, s: string)
    requires KeyText(k) <= s
    ensures SimpleOf(keys, s).Some? ==> SimpleOf(keys, s) == Simple(k, s)
  {
    KeyDecides(k, s);
    if keys != [] {
      if KeyText(keys[0]) <= s {
        KeyDecides(keys[0], s);
      }
      SimpleOfRest(keys[1..], k, s);
    }
  }

  lemma {:induction false} SimpleOfRead(keys: seq<Key>, s: string) returns (k: Key)
    requires SimpleOf(keys, s).Some?
    ensures SimpleOf(keys, s) == Simple(k, s)
  {
    if Simple(keys[0], s).Some? {
      k := keys[0];
    } else {
      k := SimpleOfRead(keys[1..], s);
    }
  }
}
