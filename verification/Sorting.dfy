/** `slice::sort_by` of Rust: a stable sort driven by a strict weak order. */
module Sorting {
  import opened Seqs

  ghost predicate WeakOrder<T(!new)>(before: (T, T) -> bool) {
    && (forall a, b :: before(a, b) ==> !before(b, a))
    && (forall a, b, c :: !before(a, b) && !before(b, c) ==> !before(a, c))
  }

  predicate InOrder<T>(s: seq<T>, before: (T, T) -> bool) {
    forall i, j :: 0 <= i < j < |s| ==> !before(s[j], s[i])
  }

  function Insert<T>(x: T, s: seq<T>, before: (T, T) -> bool): seq<T> {
    if s == [] || !before(s[0], x) then [x] + s
    else [s[0]] + Insert(x, s[1..], before)
  }

  /** The list sorted by `before`; elements that neither precede the other keep their order. */
  function SortBy<T>(v: seq<T>, before: (T, T) -> bool): seq<T> {
    if v == [] then [] else Insert(v[0], SortBy(v[1..], before), before)
  }

  lemma {:induction false} InsertPermutes<T>(x: T, s: seq<T>, before: (T, T) -> bool)
    ensures multiset(Insert(x, s, before)) == multiset{x} + multiset(s)
  {
    if !(s == [] || !before(s[0], x)) {
      assert s == [s[0]] + s[1..];
      InsertPermutes(x, s[1..], before);
    }
  }

  lemma {:induction false} InsertKeepsOrder<T(!new)>(x: T, s: seq<T>, before: (T, T) -> bool)
    requires WeakOrder(before) && InOrder(s, before)
    ensures InOrder(Insert(x, s, before), before)
  {
    if s == [] {
    } else if !before(s[0], x) {
      var r := [x] + s;
      forall i, j | 0 <= i < j < |r|
        ensures !before(r[j], r[i])
      {
        if i == 0 && j > 1 {
          assert !before(s[j - 1], s[0]);
        } else if i > 0 {
          assert r[i] == s[i - 1] && r[j] == s[j - 1];
        }
      }
    } else {
      var t := Insert(x, s[1..], before);
      InsertKeepsOrder(x, s[1..], before);
      InsertPermutes(x, s[1..], before);
      var r := [s[0]] + t;
      forall i, j | 0 <= i < j < |r|
        ensures !before(r[j], r[i])
      {
        if i == 0 {
          assert r[j] == t[j - 1] && t[j - 1] in multiset(t);
          if t[j - 1] != x {
            assert t[j - 1] in s[1..];
          }
        } else {
          assert r[i] == t[i - 1] && r[j] == t[j - 1];
        }
      }
    }
  }

  /** The contract of `sort_by`: an ordered permutation. */
  lemma {:induction false} SortByCorrect<T(!new)>(v: seq<T>, before: (T, T) -> bool)
    requires WeakOrder(before)
    ensures multiset(SortBy(v, before)) == multiset(v)
    ensures |SortBy(v, before)| == |v|
    ensures InOrder(SortBy(v, before), before)
  {
    if v != [] {
      assert v == [v[0]] + v[1..];
      SortByCorrect(v[1..], before);
      InsertPermutes(v[0], SortBy(v[1..], before), before);
      InsertKeepsOrder(v[0], SortBy(v[1..], before), before);
    }
    SamePermutationSameMembers(SortBy(v, before), v);
  }

  lemma {:induction false} InsertStable<T(!new)>(x: T, s: seq<T>, before: (T, T) -> bool, tied: T -> bool)
    requires forall y :: y in s && tied(x) && tied(y) ==> !before(y, x)
    ensures Filter(Insert(x, s, before), tied) == if tied(x) then [x] + Filter(s, tied) else Filter(s, tied)
  {
    if s == [] || !before(s[0], x) {
      FilterConcat([x], s, tied);
      assert Filter([x], tied) == if tied(x) then [x] else [];
    } else {
      assert s[0] in s;
      InsertStable(x, s[1..], before, tied);
    }
  }

  /** Elements of which none precedes another keep their original order. */
  lemma {:induction false} SortByStable<T(!new)>(v: seq<T>, before: (T, T) -> bool, tied: T -> bool)
    requires forall x, y :: tied(x) && tied(y) ==> !before(x, y)
    ensures Filter(SortBy(v, before), tied) == Filter(v, tied)
  {
    if v != [] {
      SortByStable(v[1..], before, tied);
      InsertStable(v[0], SortBy(v[1..], before), before, tied);
    }
  }

  /** Two ordered permutations agree when no two different elements are tied. */
  lemma {:induction false} OrderedPermutationUnique<T(!new)>(a: seq<T>, b: seq<T>, before: (T, T) -> bool)
    requires multiset(a) == multiset(b)
    requires InOrder(a, before) && InOrder(b, before)
    requires forall x, y :: x in a && y in a && x != y ==> before(x, y) || before(y, x)
    ensures a == b
  {
    SamePermutationSameMembers(a, b);
    if a != [] {
      SameHead(a, b, before);
      TailsPermute(a, b);
      OrderedPermutationUnique(a[1..], b[1..], before);
    }
  }

  lemma SameHead<T(!new)>(a: seq<T>, b: seq<T>, before: (T, T) -> bool)
    requires a != [] && b != [] && b[0] in a && a[0] in b
    requires InOrder(a, before) && InOrder(b, before)
    requires a[0] != b[0] ==> before(a[0], b[0]) || before(b[0], a[0])
    ensures a[0] == b[0]
  {}

  lemma TailsPermute<T>(a: seq<T>, b: seq<T>)
    requires a != [] && b != [] && a[0] == b[0] && multiset(a) == multiset(b)
    ensures multiset(a[1..]) == multiset(b[1..])
  {
    assert a == [a[0]] + a[1..] && b == [b[0]] + b[1..];
    assert multiset(a[1..]) == multiset(a) - multiset{a[0]};
  }
}
