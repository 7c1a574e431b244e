/**
 Newlines in queries.  The documentation separates criteria by a newline (swayr's own README.md,
 lines 241-242); the parser takes newlines only inside string literals.
 */
module CriteriaNewlines {
  import opened Options
  import opened Criteria
  import opened CriteriaParser
  import opened CriteriaText
  import opened CriteriaRoundTrip

  // ---------------------------------------------------------------------------------------
  // Scanning a text for quotes and newlines; `q` says whether the scan starts inside quotes

  /** Whether the text ends inside double quotes. */
  predicate InQuotes(s: string, q: bool) {
    if s == [] then q else InQuotes(s[1..], if s[0] == '"' then !q else q)
  }

  /** Some newline stands outside double quotes. */
  predicate Outside(s: string, q: bool) {
    s != [] && ((s[0] == '\n' && !q) || Outside(s[1..], if s[0] == '"' then !q else q))
  }

  /** The text with every newline outside double quotes turned into a blank. */
  function Blanked(s: string, q: bool): string {
    if s == [] then []
    else [if s[0] == '\n' && !q then ' ' else s[0]] + Blanked(s[1..], if s[0] == '"' then !q else q)
  }

  lemma {:induction false} ScanConcat(a: string, b: string, q: bool)
    ensures InQuotes(a + b, q) == InQuotes(b, InQuotes(a, q))
    ensures Outside(a + b, q) <==> Outside(a, q) || Outside(b, InQuotes(a, q))
    decreases |a|
  {
    if a == [] {
      assert a + b == b;
    } else {
      assert (a + b)[1..] == a[1..] + b;
      ScanConcat(a[1..], b, if a[0] == '"' then !q else q);
    }
  }

  lemma {:induction false} BlankedConcat(a: string, b: string, q: bool)
    ensures Blanked(a + b, q) == Blanked(a, q) + Blanked(b, InQuotes(a, q))
    decreases |a|
  {
    if a == [] {
      assert a + b == b;
    } else {
      assert (a + b)[1..] == a[1..] + b;
      BlankedConcat(a[1..], b, if a[0] == '"' then !q else q);
    }
  }

  lemma {:induction false} BlankedIsSame(s: string, q: bool)
    requires !Outside(s, q)
    ensures Blanked(s, q) == s
    decreases |s|
  {
    if s != [] {
      BlankedIsSame(s[1..], if s[0] == '"' then !q else q);
    }
  }

  // ---------------------------------------------------------------------------------------
  // What is written is clean

  /** Quotes are balanced and no newline is outside them. */
  predicate Clean(s: string) {
    !InQuotes(s, false) && !Outside(s, false)
  }

  lemma CleanConcat(a: string, b: string)
    requires Clean(a) && Clean(b)
    ensures Clean(a + b)
  {
    ScanConcat(a, b, false);
  }

  lemma {:induction false} Unquoted(s: string, q: bool)
    requires '"' !in s && (q || '\n' !in s)
    ensures InQuotes(s, q) == q && !Outside(s, q)
    decreases |s|
  {
    if s != [] {
      Unquoted(s[1..], q);
    }
  }

  lemma QuotedClean(body: string)
    requires NoQuote(body)
    ensures Clean("\"" + body + "\"")
  {
    Unquoted(body, true);
    ScanConcat("\"" + body, "\"", false);
    ScanConcat("\"", body, false);
  }

  lemma SpacesClean(sp: string)
    requires Spaces(sp)
    ensures Clean(sp)
  {
    Unquoted(sp, false);
  }

  lemma KeyClean(key: Key)
    ensures Clean(KeyName(key))
  {
    Unquoted(KeyName(key), false);
  }

  lemma WordClean(word: string)
    requires ProperOp(AndWord(word)) || ProperOp(OrWord(word)) || ProperNot(word)
    ensures Clean(word)
  {
    Unquoted(word, false);
  }

  lemma ArgClean(key: Key, arg: Arg)
    requires ProperArg(key, arg)
    ensures Clean(ArgText(arg))
  {
    match arg
    case Quoted(body) => QuotedClean(body);
    case _ => Unquoted(ArgText(arg), false);
  }

  /** Every spelling of a criterion is clean. */
  lemma {:induction false} TextClean(d: Doc)
    requires Proper(d)
    ensures Clean(Text(d))
    decreases d, 1
  {
    match d
    case Plain(key, sp1, sp2, arg) =>
      KeyClean(key);
      if !Bare(key) {
        OperandClean(key, sp1, sp2, arg);
        CleanConcat(KeyName(key), sp1 + ("=" + (sp2 + ArgText(arg))));
      }
    case Group(op, sp1, sp2, items, sp3, sp4) =>
      ItemsClean(items);
      GroupClean(op, sp1, sp2, ItemsText(items), sp3, sp4);
    case Negation(word, sp1, doc, sp2) =>
      TextClean(doc);
      WordClean(word);
      SpacesClean(sp1);
      SpacesClean(sp2);
      CleanConcat(Text(doc), sp2);
      CleanConcat(sp1, Text(doc) + sp2);
      CleanConcat(word, sp1 + (Text(doc) + sp2));
  }

  lemma OperandClean(key: Key, sp1: string, sp2: string, arg: Arg)
    requires Spaces(sp1) && Spaces(sp2) && ProperArg(key, arg)
    ensures Clean(sp1 + ("=" + (sp2 + ArgText(arg))))
  {
    ArgClean(key, arg);
    SpacesClean(sp1);
    SpacesClean(sp2);
    Unquoted("=", false);
    CleanConcat(sp2, ArgText(arg));
    CleanConcat("=", sp2 + ArgText(arg));
    CleanConcat(sp1, "=" + (sp2 + ArgText(arg)));
  }

  lemma OpeningClean(op: Operation, sp1: string, sp2: string)
    requires Spaces(sp1) && Spaces(sp2)
    requires ProperOp(op)
    ensures Clean("[" + (sp1 + (OpText(op) + sp2)))
  {
    SpacesClean(sp1);
    SpacesClean(sp2);
    if !op.Implicit? {
      WordClean(op.word);
    }
    Unquoted("[", false);
    CleanConcat(OpText(op), sp2);
    CleanConcat(sp1, OpText(op) + sp2);
    CleanConcat("[", sp1 + (OpText(op) + sp2));
  }

  lemma GroupClean(op: Operation, sp1: string, sp2: string, body: string, sp3: string, sp4: string)
    requires Spaces(sp1) && Spaces(sp2) && Spaces(sp3) && Spaces(sp4) && Clean(body)
    requires ProperOp(op)
    ensures Clean("[" + (sp1 + (OpText(op) + (sp2 + (body + (sp3 + ("]" + sp4)))))))
  {
    OpeningClean(op, sp1, sp2);
    SpacesClean(sp3);
    SpacesClean(sp4);
    Unquoted("]", false);
    CleanConcat("]", sp4);
    CleanConcat(sp3, "]" + sp4);
    CleanConcat(body, sp3 + ("]" + sp4));
    var rest := body + (sp3 + ("]" + sp4));
    CleanConcat("[" + (sp1 + (OpText(op) + sp2)), rest);
    assert "[" + (sp1 + (OpText(op) + sp2)) + rest == "[" + (sp1 + (OpText(op) + (sp2 + rest)));
  }

  lemma {:induction false} ItemsClean(items: Items)
    requires ProperItems(items)
    ensures Clean(ItemsText(items))
    decreases items, 0
  {
    if items.Cons? {
      TextClean(items.doc);
      SpacesClean(items.sp);
      ItemsClean(items.tail);
      CleanConcat(items.sp, ItemsText(items.tail));
      CleanConcat(Text(items.doc), items.sp + ItemsText(items.tail));
    }
  }

  // ---------------------------------------------------------------------------------------
  // The exact condition

  /** Whatever parses has balanced quotes and no newline outside them. */
  lemma ParsedIsClean(s: string)
    ensures ParseCriteria(s).Some? ==> Clean(s)
  {
    if ParseCriteria(s).Some? {
      var c := ParseCriteria(s).value;
      ParserIsGrammar(s);
      assert Spells(s, c);
      var sp, d :| Spaces(sp) && Proper(d) && s == sp + Text(d) && Value(d) == c;
      SpacesClean(sp);
      TextClean(d);
      CleanConcat(sp, Text(d));
    }
  }

  /**
   What a newline does, for every text: outside quotes one of them makes the query unreadable, and
   with none there the query means what it means with blanks instead.
   */
  lemma NewlinesExactly(s: string)
    ensures ParseCriteria(s) == if Outside(s, false) then None else ParseCriteria(Blanked(s, false))
  {
    if Outside(s, false) {
      ParsedIsClean(s);
    } else {
      BlankedIsSame(s, false);
    }
  }

  /** A newline counts as a blank, as documented, exactly where none is outside quotes or the query is bad anyway. */
  lemma NewlineAsBlankExactly(s: string)
    ensures ParseCriteria(s) == ParseCriteria(Blanked(s, false))
            <==> !Outside(s, false) || ParseCriteria(Blanked(s, false)) == None
    ensures forall c :: ParseCriteria(Blanked(s, false)) == Some(c) ==>
                          (ParseCriteria(s) == Some(c) <==> !Outside(s, false))
  {
    NewlinesExactly(s);
  }

  /** No text goes on after a newline behind clean text. */
  lemma NewlineEndsQuery(a: string, t: string)
    requires Clean(a)
    ensures Outside(a + ("\n" + t), false) && ParseCriteria(a + ("\n" + t)) == None
  {
    ScanConcat(a, "\n" + t, false);
    NewlinesExactly(a + ("\n" + t));
  }

  lemma Regroup(a: string, b: string, c: string, d: string, e: string, f: string)
    ensures a + (b + (c + d)) + e + f == a + (b + (c + (d + (e + f))))
  {
    assert a + (b + (c + d)) + e + f == a + ((b + (c + d)) + (e + f));
    assert (b + (c + d)) + (e + f) == b + ((c + d) + (e + f));
    assert (c + d) + (e + f) == c + (d + (e + f));
  }

  /** In particular no group parses whose first member is followed at once by a newline. */
  lemma NewlineIsNoSpace(op: Operation, sp1: string, sp2: string, d: Doc, t: string)
    requires Proper(d) && Spaces(sp1) && Spaces(sp2)
    requires ProperOp(op)
    ensures ParseCriteria("[" + (sp1 + (OpText(op) + (sp2 + (Text(d) + ("\n" + t)))))) == None
  {
    var opening := "[" + (sp1 + (OpText(op) + sp2));
    OpeningClean(op, sp1, sp2);
    TextClean(d);
    CleanConcat(opening, Text(d));
    NewlineEndsQuery(opening + Text(d), t);
    Regroup("[", sp1, OpText(op), sp2, Text(d), "\n" + t);
  }

  // ---------------------------------------------------------------------------------------
  // The documented layout: an or-group with its two members on two lines

  function TwoItems(a: Doc, sp: string, b: Doc): Items {
    Cons(a, sp, Cons(b, "", Nil))
  }

  lemma OneItemSpelled(b: Doc)
    requires Proper(b)
    ensures var items := Cons(b, "", Nil);
            ProperItems(items) && ItemsText(items) == Text(b) && Values(items) == [Value(b)]
  {
    assert ItemsText(Nil) == "" && Values(Nil) == [];
    assert Text(b) + ("" + "") == Text(b);
    assert [Value(b)] + [] == [Value(b)];
  }

  lemma TwoItemsSpelled(a: Doc, sp: string, b: Doc)
    requires Proper(a) && Proper(b) && Spaces(sp)
    ensures var items := TwoItems(a, sp, b);
            ProperItems(items) && ItemsText(items) == Text(a) + (sp + Text(b)) && Values(items) == [Value(a), Value(b)]
  {
    OneItemSpelled(b);
    assert [Value(a)] + [Value(b)] == [Value(a), Value(b)];
  }

  lemma OrText(x: string, y: string)
    ensures "[" + ("" + ("||" + (" " + ((x + y) + ("" + ("]" + "")))))) == ("[|| " + x) + (y + "]")
  {
    assert "[" + ("||" + " ") == "[|| ";
  }

  /** Two spelled criteria on one line. */
  lemma OneLineParses(a: Doc, sp: string, b: Doc)
    requires Proper(a) && Proper(b) && Spaces(sp)
    ensures ParseCriteria(("[|| " + Text(a)) + ((sp + Text(b)) + "]")) == Some(Or([Value(a), Value(b)]))
  {
    var items := TwoItems(a, sp, b);
    TwoItemsSpelled(a, sp, b);
    OrText(Text(a), sp + Text(b));
    var d := Group(OrWord("||"), "", " ", items, "", "");
    ParserReadsEverySpelling(d, "");
    assert "" + Text(d) == Text(d);
  }

  lemma LinesClean(a: Doc, sp: string, b: Doc)
    requires Proper(a) && Proper(b) && Spaces(sp)
    ensures Clean("[|| " + Text(a)) && Clean((sp + Text(b)) + "]")
  {
    TextClean(a);
    Unquoted("[|| ", false);
    CleanConcat("[|| ", Text(a));
    TextClean(b);
    SpacesClean(sp);
    Unquoted("]", false);
    CleanConcat(sp, Text(b));
    CleanConcat(sp + Text(b), "]");
  }

  /** A newline between two clean texts is turned into a blank. */
  lemma BlankedBetween(a: string, b: string)
    requires Clean(a) && Clean(b)
    ensures Blanked(a + ("\n" + b), false) == a + (" " + b)
  {
    BlankedConcat(a, "\n" + b, false);
    BlankedIsSame(a, false);
    BlankedIsSame(b, false);
    assert ("\n" + b)[1..] == b;
  }

  /** Two lines that make a query when joined by a blank make none when joined by a newline. */
  lemma JoinedByNewline(upper: string, lower: string, c: Criterion)
    requires Clean(upper) && Clean(lower) && ParseCriteria(upper + (" " + lower)) == Some(c)
    ensures ParseCriteria(upper + ("\n" + lower)) == None
    ensures ParseCriteria(Blanked(upper + ("\n" + lower), false)) == Some(c)
  {
    NewlineEndsQuery(upper, lower);
    BlankedBetween(upper, lower);
  }

  lemma JoinedByBlank(a: Doc, sp: string, b: Doc)
    requires Proper(a) && Proper(b) && Spaces(sp)
    ensures ParseCriteria(("[|| " + Text(a)) + (" " + ((sp + Text(b)) + "]"))) == Some(Or([Value(a), Value(b)]))
  {
    OneLineParses(a, " " + sp, b);
    MoveBlank(sp, Text(b));
  }

  lemma MoveBlank(sp: string, x: string)
    ensures " " + ((sp + x) + "]") == (" " + sp + x) + "]"
  {}

  /** Whatever its members and indentation, the documented layout never parses; with a blank for the newline it does. */
  lemma DocumentedLayout(a: Doc, sp: string, b: Doc)
    requires Proper(a) && Proper(b) && Spaces(sp)
    ensures var s := ("[|| " + Text(a)) + ("\n" + ((sp + Text(b)) + "]"));
            ParseCriteria(s) == None && ParseCriteria(Blanked(s, false)) == Some(Or([Value(a), Value(b)]))
  {
    LinesClean(a, sp, b);
    JoinedByBlank(a, sp, b);
    JoinedByNewline("[|| " + Text(a), (sp + Text(b)) + "]", Or([Value(a), Value(b)]));
  }

  const TILING := Plain(KTiling, "", "", NoArg)
  const FLOATING := Plain(KFloating, "", "", NoArg)

  lemma SmallTexts()
    ensures "[|| tiling\nfloating]" == ("[|| " + Text(TILING)) + ("\n" + (("" + Text(FLOATING)) + "]"))
    ensures "[|| tiling floating]" == ("[|| " + Text(TILING)) + ((" " + Text(FLOATING)) + "]")
  {
    assert Text(TILING) == "tiling" && Text(FLOATING) == "floating";
  }

  /** The smallest query of that layout. */
  lemma NewlineCounterexample()
    ensures ParseCriteria("[|| tiling\nfloating]") == None
    ensures ParseCriteria("[|| tiling floating]") == Some(Or([Tiling, Floating]))
  {
    SmallTexts();
    DocumentedLayout(TILING, "", FLOATING);
    OneLineParses(TILING, " ", FLOATING);
  }
}
