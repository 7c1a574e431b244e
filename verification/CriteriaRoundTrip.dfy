/** The parser accepts exactly the written criteria, and recovers their meaning (criteria.rs). */
module CriteriaRoundTrip {
  import opened Options
  import opened Criteria
  import opened CriteriaParser
  import opened CriteriaText
  import opened CriteriaTokens

  /** The characters a criterion can start with. */
  predicate Starts(c: char) {
    c in {'[', 'N', 'n', '!', 't', 'f', 'a', 'c', 'i', 's', 'w', 'p'}
  }

  predicate StartsKey(c: char) {
    c in {'t', 'f', 'a', 'c', 'i', 's', 'w', 'p'}
  }

  lemma KeyStarts(k: Key)
    ensures StartsKey(KeyText(k)[0])
  {}

  lemma TextStarts(d: Doc)
    requires Proper(d)
    ensures Text(d) != [] && Starts(Text(d)[0]) && !IsSpace(Text(d)[0]) && !IsDigit(Text(d)[0]) && Text(d)[0] != ']'
    ensures d.Group? <==> Text(d)[0] == '['
    ensures d.Negation? ==> Text(d)[0] in {'N', 'n', '!'}
    ensures d.Plain? ==> StartsKey(Text(d)[0])
  {}

  /** Nothing else is a criterion. */
  lemma NoCriterion(s: string)
    requires s == [] || !Starts(s[0])
    ensures CriterionRule(s) == None
  {
    LitDiffers(s, "[", 0);
    LitOfFails(NOT_WORDS, s);
    NoSimple(KEYS, s);
  }

  lemma {:induction false} NoSimple(keys: seq<Key>, s: string)
    requires s == [] || !StartsKey(s[0])
    ensures SimpleOf(keys, s) == None
  {
    if keys != [] {
      KeyStarts(keys[0]);
      LitDiffers(s, KeyText(keys[0]), 0);
      NoSimple(keys[1..], s);
    }
  }

  lemma NoGroup(s: string)
    requires s == [] || s[0] != '['
    ensures AndRule(s) == None && OrRule(s) == None
  {
    LitDiffers(s, "[", 0);
  }

  lemma NoNegation(s: string)
    requires s == [] || s[0] !in {'N', 'n', '!'}
    ensures NotRule(s) == None
  {
    LitOfFails(NOT_WORDS, s);
  }

  /** Where a key may start, no group or negation does. */
  lemma NoCombinator(s: string)
    requires s != [] && StartsKey(s[0])
    ensures Skip(s) == s && CriterionRule(s) == SimpleOf(KEYS, s)
  {
    NoGroup(s);
    NoNegation(s);
  }

  lemma WordsUnlike()
    ensures Unlike(AND_WORDS) && Unlike(OR_WORDS) && Unlike(NOT_WORDS)
  {}

  // ---------------------------------------------------------------------------------------
  // Every spelling is read back

  /** The criterion was read and what is left differs from `t` at most by leading space. */
  ghost predicate Reads(s: string, c: Criterion, t: string) {
    var r := CriterionRule(s);
    r.Some? && r.value.0 == c && |r.value.1| <= |t| && Skip(r.value.1) == Skip(t)
  }

  lemma AttributeReads(key: Key, sp1: string, sp2: string, arg: Arg, t: string)
    requires Spaces(sp1) && Spaces(sp2) && ProperArg(key, arg) && !IsFlag(key) && NoDigitFirst(t)
    ensures Simple(key, KeyText(key) + (sp1 + ("=" + (sp2 + (ArgText(arg) + t))))) == Some((PlainValue(key, arg), t))
  {
    var u := sp2 + (ArgText(arg) + t);
    LitReads(KeyText(key), sp1 + ("=" + u));
    SkipSpaces(sp1, "=" + u);
    assert Skip("=" + u) == "=" + u;
    LitReads("=", u);
    SkipSpaces(sp2, ArgText(arg) + t);
    ArgStarts(key, arg, t);
    OperandReads(key, arg, t);
  }

  lemma SimpleReads(d: Doc, t: string)
    requires Proper(d) && d.Plain? && NoDigitFirst(t)
    ensures KeyText(d.key) <= Text(d) + t && Simple(d.key, Text(d) + t) == Some((Value(d), t))
  {
    if IsFlag(d.key) {
      LitReads(KeyText(d.key), t);
    } else {
      AttributeReads(d.key, d.sp1, d.sp2, d.arg, t);
      assert Text(d) + t == KeyText(d.key) + (d.sp1 + ("=" + (d.sp2 + (ArgText(d.arg) + t))));
    }
  }

  lemma PlainReads(d: Doc, t: string)
    requires Proper(d) && d.Plain? && NoDigitFirst(t)
    ensures CriterionRule(Text(d) + t) == Some((Value(d), t))
  {
    var s := Text(d) + t;
    TextStarts(d);
    assert s[0] == Text(d)[0];
    NoCombinator(s);
    SimpleReads(d, t);
    SimpleOfReads(KEYS, d.key, s);
  }

  lemma ArgStarts(key: Key, arg: Arg, t: string)
    requires ProperArg(key, arg) && !IsFlag(key)
    ensures Skip(ArgText(arg) + t) == ArgText(arg) + t
  {}

  lemma SkipTwice(s: string)
    ensures Skip(Skip(s)) == Skip(s)
  {}

  lemma NoDigitAfterSpace(sp: string, t: string)
    requires Spaces(sp) && NoDigitFirst(t)
    ensures NoDigitFirst(sp + t)
  {}

  /** The group's end is next. */
  predicate Closes(z: string, rest: string) {
    Skip(z) == "]" + rest
  }

  lemma ClosingIsNoCriterion(z: string, rest: string)
    requires Closes(z, rest)
    ensures NoDigitFirst(z) && CriterionRule(z) == None
    ensures CriterionRule("]" + rest) == None && Skip("]" + rest) == "]" + rest
  {
    var sp := Skipped(z);
    NoDigitAfterSpace(sp, "]" + rest);
    NoCriterion("]" + rest);
    if sp != [] {
      assert z[0] == sp[0] && IsSpace(z[0]);
    }
    NoCriterion(z);
  }

  lemma ItemsStart(items: Items, z: string)
    requires ProperItems(items) && NoDigitFirst(z)
    ensures NoDigitFirst(ItemsText(items) + z)
    ensures items.Cons? ==> Skip(ItemsText(items) + z) == ItemsText(items) + z
  {
    if items.Cons? {
      TextStarts(items.doc);
      assert (ItemsText(items) + z)[0] == Text(items.doc)[0];
    } else {
      assert ItemsText(items) + z == z;
    }
  }

  lemma ItemsConcat(d: Doc, sp: string, tail: Items, t: string)
    ensures Text(d) + (sp + (ItemsText(tail) + t)) == ItemsText(Cons(d, sp, tail)) + t
  {}

  /** The first member of a list is read back, leaving the others. */
  lemma {:induction false} FirstReads(items: Items, z: string)
    requires ProperItems(items) && items.Cons? && NoDigitFirst(z)
    ensures var r := CriterionRule(ItemsText(items) + z);
            r.Some? && r.value.0 == Value(items.doc) && Skip(r.value.1) == Skip(ItemsText(items.tail) + z)
    decreases items, 0
  {
    var y := items.sp + (ItemsText(items.tail) + z);
    ItemsStart(items.tail, z);
    NoDigitAfterSpace(items.sp, ItemsText(items.tail) + z);
    ItemsConcat(items.doc, items.sp, items.tail, z);
    DocReads(items.doc, y);
    SkipSpaces(items.sp, ItemsText(items.tail) + z);
  }

  /** The remaining members of a group are read back, up to its end. */
  lemma {:induction false} MoreReads(r: string, items: Items, z: string, rest: string)
    requires ProperItems(items) && Closes(z, rest) && Skip(r) == Skip(ItemsText(items) + z)
    ensures More(r).0 == Values(items) && Closes(More(r).1, rest)
    decreases items, 1
  {
    ClosingIsNoCriterion(z, rest);
    if items.Nil? {
      assert ItemsText(items) + z == z;
    } else {
      ItemsStart(items, z);
      FirstReads(items, z);
      MoreReads(CriterionRule(Skip(r)).value.1, items.tail, z, rest);
    }
  }

  lemma {:induction false} ListReads(items: Items, z: string, rest: string)
    requires ProperItems(items) && Closes(z, rest)
    ensures var r := List(ItemsText(items) + z); r.0 == Values(items) && Closes(r.1, rest)
    decreases items, 1
  {
    ClosingIsNoCriterion(z, rest);
    if items.Nil? {
      assert ItemsText(items) + z == z;
    } else {
      FirstReads(items, z);
      MoreReads(CriterionRule(ItemsText(items) + z).value.1, items.tail, z, rest);
    }
  }

  /** What follows the operator word of a group. */
  function Body(items: Items, sp3: string, sp4: string, t: string): string {
    ItemsText(items) + (sp3 + ("]" + (sp4 + t)))
  }

  lemma BodyReads(items: Items, sp3: string, sp4: string, t: string)
    requires ProperItems(items) && Spaces(sp3) && Spaces(sp4)
    ensures GroupBody(Skip(Body(items, sp3, sp4, t))) == Some((Values(items), Skip(t)))
    decreases items, 2
  {
    var rest := sp4 + t;
    var z := sp3 + ("]" + rest);
    SkipSpaces(sp3, "]" + rest);
    assert Closes(z, rest);
    ClosingIsNoCriterion(z, rest);
    ItemsStart(items, z);
    SkipSpaces(sp4, t);
    LitReads("]", rest);
    if items.Cons? {
      ListReads(items, z, rest);
    } else {
      assert ItemsText(items) + z == z;
      assert List("]" + rest) == ([], "]" + rest);
    }
  }

  lemma EmptyBodyStarts(sp3: string, rest: string)
    requires Spaces(sp3)
    ensures Skip(Body(Nil, sp3, "", rest)) == "]" + rest
  {
    var z := sp3 + ("]" + ("" + rest));
    assert "" + rest == rest;
    assert Body(Nil, sp3, "", rest) == z;
    SkipSpaces(sp3, "]" + rest);
  }

  lemma BodyStarts(items: Items, sp3: string, sp4: string, t: string)
    requires ProperItems(items) && items.Cons?
    ensures Skip(Body(items, sp3, sp4, t)) == Text(items.doc) + (items.sp + Body(items.tail, sp3, sp4, t))
  {
    var y := items.sp + Body(items.tail, sp3, sp4, t);
    assert Body(items, sp3, sp4, t) == Text(items.doc) + y;
    TextStarts(items.doc);
    assert (Text(items.doc) + y)[0] == Text(items.doc)[0];
  }

  lemma NoAndWord(items: Items, sp3: string, sp4: string, t: string)
    requires ProperItems(items) && Spaces(sp3) && Spaces(sp4)
    ensures LitOf(Skip(Body(items, sp3, sp4, t)), AND_WORDS) == None
  {
    if items.Nil? {
      EmptyBodyStarts(sp3, sp4 + t);
      assert Body(items, sp3, sp4, t) == Body(Nil, sp3, "", sp4 + t);
      LitOfFails(AND_WORDS, "]" + (sp4 + t));
    } else {
      BodyStarts(items, sp3, sp4, t);
      TextIsNoAndWord(items.doc, items.sp + Body(items.tail, sp3, sp4, t));
    }
  }

  /** No criterion starts with an and-word. */
  lemma TextIsNoAndWord(d: Doc, y: string)
    requires Proper(d)
    ensures LitOf(Text(d) + y, AND_WORDS) == None
  {
    var x := Text(d) + y;
    TextStarts(d);
    assert x[0] == Text(d)[0];
    if x[0] == 'a' {
      assert Text(d)[1] == 'p' && x[1] == 'p';
      LitDiffers(x, "AND", 0);
      LitDiffers(x, "and", 1);
      LitDiffers(x, "&&", 0);
      assert LitOf(x, ["&&"]) == None && AND_WORDS[1..][1..] == ["&&"];
      assert LitOf(x, AND_WORDS[1..]) == None;
    } else {
      LitOfFails(AND_WORDS, x);
    }
  }

  lemma AndReads(d: Doc, t: string)
    requires Proper(d) && d.Group? && !d.op.OrWord?
    ensures AndRule("[" + (d.sp1 + (OpText(d.op) + (d.sp2 + Body(d.items, d.sp3, d.sp4, t))))) == Some((Value(d), Skip(t)))
    decreases d, 0, 0
  {
    var b := Body(d.items, d.sp3, d.sp4, t);
    var a := OpText(d.op) + (d.sp2 + b);
    LitReads("[", d.sp1 + a);
    SkipSpaces(d.sp1, a);
    SkipSpaces(d.sp2, b);
    BodyReads(d.items, d.sp3, d.sp4, t);
    if d.op.Implicit? {
      assert a == d.sp2 + b;
      SkipTwice(b);
      NoAndWord(d.items, d.sp3, d.sp4, t);
    } else {
      WordsUnlike();
      assert a[0] == d.op.word[0];
      assert Skip(a) == a;
      LitOfReads(AND_WORDS, d.op.word, d.sp2 + b);
    }
  }

  /** A group opened by an or-word is not an and-group. */
  lemma OrIsNotAnd(sp1: string, a: string)
    requires Spaces(sp1) && a != [] && a[0] in {'O', 'o', '|'}
    ensures AndRule("[" + (sp1 + a)) == None
  {
    LitReads("[", sp1 + a);
    SkipSpaces(sp1, a);
    LitOfFails(AND_WORDS, a);
    NoCriterion(a);
    LitDiffers(a, "]", 0);
    assert List(a) == ([], a);
  }

  lemma OrReads(d: Doc, t: string)
    requires Proper(d) && d.Group? && d.op.OrWord?
    ensures var s := "[" + (d.sp1 + (OpText(d.op) + (d.sp2 + Body(d.items, d.sp3, d.sp4, t))));
            AndRule(s) == None && OrRule(s) == Some((Value(d), Skip(t)))
    decreases d, 0, 0
  {
    var b := Body(d.items, d.sp3, d.sp4, t);
    var a := OpText(d.op) + (d.sp2 + b);
    assert a[0] == d.op.word[0];
    OrIsNotAnd(d.sp1, a);
    LitReads("[", d.sp1 + a);
    SkipSpaces(d.sp1, a);
    SkipSpaces(d.sp2, b);
    BodyReads(d.items, d.sp3, d.sp4, t);
    WordsUnlike();
    LitOfReads(OR_WORDS, d.op.word, d.sp2 + b);
  }

  lemma GroupReads(d: Doc, t: string)
    requires Proper(d) && d.Group?
    ensures CriterionRule(Text(d) + t) == Some((Value(d), Skip(t)))
    decreases d, 0, 1
  {
    GroupText(d, t);
    if d.op.OrWord? {
      OrReads(d, t);
    } else {
      AndReads(d, t);
    }
  }

  lemma GroupText(d: Doc, t: string)
    requires d.Group?
    ensures Text(d) + t == "[" + (d.sp1 + (OpText(d.op) + (d.sp2 + Body(d.items, d.sp3, d.sp4, t))))
  {}

  /** Every proper spelling is read back exactly, in any context that does not continue a number. */
  lemma {:induction false} DocReads(d: Doc, t: string)
    requires Proper(d) && NoDigitFirst(t)
    ensures Reads(Text(d) + t, Value(d), t)
    decreases d, 1
  {
    match d
    case Plain(_, _, _, _) =>
      PlainReads(d, t);
    case Group(_, _, _, _, _, _) =>
      GroupReads(d, t);
      SkipTwice(t);
    case Negation(word, sp1, doc, sp2) =>
      NoDigitAfterSpace(sp2, t);
      DocReads(doc, sp2 + t);
      NegationReads(d, t);
  }

  lemma NegationText(word: string, sp1: string, doc: Doc, sp2: string, t: string)
    ensures word + (sp1 + (Text(doc) + (sp2 + t))) == Text(Negation(word, sp1, doc, sp2)) + t
  {}

  lemma NegationReads(d: Doc, t: string)
    requires Proper(d) && d.Negation? && Reads(Text(d.doc) + (d.sp2 + t), Value(d.doc), d.sp2 + t)
    ensures Reads(Text(d) + t, Value(d), t)
  {
    var x := Text(d.doc) + (d.sp2 + t);
    var s := d.word + (d.sp1 + x);
    NegationText(d.word, d.sp1, d.doc, d.sp2, t);
    TextStarts(d.doc);
    assert s[0] == d.word[0] && Skip(x) == x;
    LitDiffers(s, "[", 0);
    WordsUnlike();
    LitOfReads(NOT_WORDS, d.word, d.sp1 + x);
    SkipSpaces(d.sp1, x);
    SkipSpaces(d.sp2, t);
    SkipTwice(t);
    assert NotRule(s) == Some((Value(d), Skip(t)));
  }

  /** Every proper spelling, with any leading space, parses to its meaning. */
  lemma ParserReadsEverySpelling(d: Doc, sp: string)
    requires Proper(d) && Spaces(sp)
    ensures ParseCriteria(sp + Text(d)) == Some(Value(d))
  {
    SkipSpaces(sp, Text(d));
    TextStarts(d);
    DocReads(d, "");
    assert Text(d) + "" == Text(d);
  }

  // ---------------------------------------------------------------------------------------
  // Only spellings are read

  lemma PlainRead(s: string) returns (d: Doc)
    requires SimpleOf(KEYS, s).Some?
    ensures Proper(d) && SimpleOf(KEYS, s).value.0 == Value(d) && s == Text(d) + SimpleOf(KEYS, s).value.1
  {
    var k := SimpleOfRead(KEYS, s);
    LitRead(s, KeyText(k));
    var t := Lit(s, KeyText(k)).value;
    if IsFlag(k) {
      d := Plain(k, "", "", NoArg);
    } else {
      var sp1 := Skipped(t);
      LitRead(Skip(t), "=");
      var u := Lit(Skip(t), "=").value;
      var sp2 := Skipped(u);
      var arg := OperandRead(k, Skip(u));
      d := Plain(k, sp1, sp2, arg);
      AttributeText(k, sp1, sp2, arg, SimpleOf(KEYS, s).value.1);
    }
  }

  lemma AttributeText(k: Key, sp1: string, sp2: string, arg: Arg, t: string)
    requires !IsFlag(k)
    ensures KeyText(k) + (sp1 + ("=" + (sp2 + (ArgText(arg) + t)))) == Text(Plain(k, sp1, sp2, arg)) + t
  {}

  lemma {:induction false} MoreRead(s: string) returns (sp: string, items: Items)
    ensures Spaces(sp) && ProperItems(items) && More(s).0 == Values(items)
    ensures s == sp + (ItemsText(items) + More(s).1)
    decreases |s|, 1
  {
    var c := CriterionRule(Skip(s));
    if c.None? {
      sp, items := "", Nil;
    } else {
      sp := Skipped(s);
      var d := CriterionRead(Skip(s));
      var sp', tail := MoreRead(c.value.1);
      items := Cons(d, sp', tail);
      ItemsConcat(d, sp', tail, More(s).1);
    }
  }

  lemma {:induction false} ListRead(s: string) returns (items: Items)
    ensures ProperItems(items) && List(s).0 == Values(items) && s == ItemsText(items) + List(s).1
    decreases |s|, 1
  {
    var c := CriterionRule(s);
    if c.None? {
      items := Nil;
    } else {
      var d := CriterionRead(s);
      var sp, tail := MoreRead(c.value.1);
      items := Cons(d, sp, tail);
      ItemsConcat(d, sp, tail, List(s).1);
    }
  }

  lemma {:induction false} BodyRead(s: string) returns (items: Items, sp3: string, sp4: string)
    requires GroupBody(s).Some?
    ensures ProperItems(items) && Spaces(sp3) && Spaces(sp4) && GroupBody(s).value.0 == Values(items)
    ensures s == Body(items, sp3, sp4, GroupBody(s).value.1)
    decreases |s|, 2
  {
    items := ListRead(s);
    var t := List(s).1;
    sp3 := Skipped(t);
    LitRead(Skip(t), "]");
    sp4 := Skipped(Lit(Skip(t), "]").value);
  }

  lemma {:induction false} AndRead(s: string) returns (d: Doc)
    requires AndRule(s).Some?
    ensures Proper(d) && AndRule(s).value.0 == Value(d) && s == Text(d) + AndRule(s).value.1
    decreases |s|, 0, 0
  {
    LitRead(s, "[");
    var o := Lit(s, "[").value;
    var sp1 := Skipped(o);
    var t := Skip(o);
    var word := LitOf(t, AND_WORDS);
    var u := if word.Some? then word.value else t;
    var sp2 := Skipped(u);
    var items, sp3, sp4 := BodyRead(Skip(u));
    if word.Some? {
      var w := LitOfRead(AND_WORDS, t);
      d := Group(AndWord(w), sp1, sp2, items, sp3, sp4);
    } else {
      d := Group(Implicit, sp1, sp2, items, sp3, sp4);
      assert t == OpText(Implicit) + u;
    }
    GroupText(d, AndRule(s).value.1);
  }

  lemma {:induction false} OrRead(s: string) returns (d: Doc)
    requires OrRule(s).Some?
    ensures Proper(d) && OrRule(s).value.0 == Value(d) && s == Text(d) + OrRule(s).value.1
    decreases |s|, 0, 0
  {
    LitRead(s, "[");
    var o := Lit(s, "[").value;
    var sp1 := Skipped(o);
    var w := LitOfRead(OR_WORDS, Skip(o));
    var u := LitOf(Skip(o), OR_WORDS).value;
    var sp2 := Skipped(u);
    var items, sp3, sp4 := BodyRead(Skip(u));
    d := Group(OrWord(w), sp1, sp2, items, sp3, sp4);
    GroupText(d, OrRule(s).value.1);
  }

  lemma {:induction false} NotRead(s: string) returns (d: Doc)
    requires NotRule(s).Some?
    ensures Proper(d) && NotRule(s).value.0 == Value(d) && s == Text(d) + NotRule(s).value.1
    decreases |s|, 0, 0
  {
    var word := LitOfRead(NOT_WORDS, s);
    var t := LitOf(s, NOT_WORDS).value;
    var sp1 := Skipped(t);
    var doc := CriterionRead(Skip(t));
    var u := CriterionRule(Skip(t)).value.1;
    var sp2 := Skipped(u);
    d := Negation(word, sp1, doc, sp2);
    NegationText(word, sp1, doc, sp2, Skip(u));
  }

  /** Whatever the parser accepts is a proper spelling of the criterion it returns. */
  lemma {:induction false} CriterionRead(s: string) returns (d: Doc)
    requires CriterionRule(s).Some?
    ensures Proper(d) && CriterionRule(s).value.0 == Value(d) && s == Text(d) + CriterionRule(s).value.1
    decreases |s|, 0, 1
  {
    if AndRule(s).Some? {
      d := AndRead(s);
    } else if OrRule(s).Some? {
      d := OrRead(s);
    } else if NotRule(s).Some? {
      d := NotRead(s);
    } else {
      d := PlainRead(s);
    }
  }

  /** The input spells the criterion, after any leading space. */
  ghost predicate Spells(s: string, c: Criterion) {
    exists sp, d :: Spaces(sp) && Proper(d) && s == sp + Text(d) && Value(d) == c
  }

  /** The parser accepts exactly the spellings of criteria, and each has one meaning. */
  lemma ParserIsGrammar(s: string)
    ensures forall c :: ParseCriteria(s) == Some(c) <==> Spells(s, c)
  {
    forall c
      ensures ParseCriteria(s) == Some(c) <==> Spells(s, c)
    {
      if ParseCriteria(s) == Some(c) {
        var sp := Skipped(s);
        var d := CriterionRead(Skip(s));
        assert Text(d) + "" == Text(d);
        assert s == sp + Text(d);
      }
      if Spells(s, c) {
        var sp, d :| Spaces(sp) && Proper(d) && s == sp + Text(d) && Value(d) == c;
        ParserReadsEverySpelling(d, sp);
      }
    }
  }
}
