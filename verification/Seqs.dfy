/** Sequence vocabulary shared by the window lists, the trees and the event traces. */
module Seqs {
  import opened Options

  predicate Distinct<T(==)>(s: seq<T>) {
    forall i, j :: 0 <= i < j < |s| ==> s[i] != s[j]
  }

  /** `iter().filter(p).collect()`. */
  function Filter<T(!new)>(s: seq<T>, p: T -> bool): (r: seq<T>)
    ensures forall x :: x in r <==> x in s && p(x)
  {
    if s == [] then []
    else if p(s[0]) then [s[0]] + Filter(s[1..], p)
    else Filter(s[1..], p)
  }

  /** `iter().find(p)`: the first element satisfying `p`. */
  function Find<T>(s: seq<T>, p: T -> bool): Option<T> {
    if s == [] then None else if p(s[0]) then Some(s[0]) else Find(s[1..], p)
  }

  lemma {:induction false} FindFirst<T(!new)>(s: seq<T>, p: T -> bool)
    ensures Find(s, p).None? <==> forall x :: x in s ==> !p(x)
    ensures Find(s, p).Some? ==> Find(s, p).value in s && p(Find(s, p).value)
    ensures Find(s, p).Some? ==>
              exists i :: 0 <= i < |s| && s[i] == Find(s, p).value && forall j :: 0 <= j < i ==> !p(s[j])
  {
    if s != [] && !p(s[0]) {
      var t := s[1..];
      FindFirst(t, p);
      if Find(s, p).Some? {
        var i :| 0 <= i < |t| && t[i] == Find(t, p).value && forall j :: 0 <= j < i ==> !p(t[j]);
        assert s[i + 1] == Find(s, p).value && forall j :: 0 < j < i + 1 ==> s[j] == t[j - 1];
      }
    }
  }

  lemma {:induction false} FilterPreservesDistinct<T(!new)>(s: seq<T>, p: T -> bool)
    requires Distinct(s)
    ensures Distinct(Filter(s, p))
  {
    if s != [] {
      FilterPreservesDistinct(s[1..], p);
    }
  }

  lemma {:induction false} FilterConcat<T(!new)>(a: seq<T>, b: seq<T>, p: T -> bool)
    ensures Filter(a + b, p) == Filter(a, p) + Filter(b, p)
  {
    if a == [] {
      assert a + b == b;
    } else {
      assert (a + b)[1..] == a[1..] + b;
      FilterConcat(a[1..], b, p);
    }
  }

  /** Elements counted by a multiset are exactly the members of the sequence. */
  lemma SamePermutationSameMembers<T>(a: seq<T>, b: seq<T>)
    requires multiset(a) == multiset(b)
    ensures |a| == |b|
    ensures forall x :: x in a <==> x in b
  {
    assert |multiset(a)| == |multiset(b)|;
    forall x
      ensures x in a <==> x in b
    {
      assert x in a <==> x in multiset(a);
      assert x in b <==> x in multiset(b);
    }
  }

  lemma ConcatAssociative<T>(a: seq<T>, b: seq<T>, c: seq<T>, d: seq<T>)
    ensures a + b + c + d == a + (b + (c + d))
  {}

  /** Picking the head of `a` out of a permutation `b` of it leaves a permutation of the tail. */
  lemma PickPermutes<T>(a: seq<T>, b: seq<T>, k: nat)
    requires multiset(a) == multiset(b) && a != [] && k < |b| && b[k] == a[0]
    ensures multiset(a[1..]) == multiset(b[..k] + b[k + 1..])
  {
    assert b == b[..k] + [b[k]] + b[k + 1..];
    assert a == [a[0]] + a[1..];
    assert multiset(a) == multiset{a[0]} + multiset(a[1..]);
    assert multiset(b) == multiset{a[0]} + multiset(b[..k] + b[k + 1..]);
    assert multiset(a[1..]) == multiset(a) - multiset{a[0]};
  }

  /** A permutation of a duplicate-free sequence is duplicate-free. */
  lemma PermutationDistinct<T>(a: seq<T>, b: seq<T>)
    requires multiset(a) == multiset(b)
    requires Distinct(a)
    ensures Distinct(b)
  {
    forall i, j | 0 <= i < j < |b|
      ensures b[i] != b[j]
    {
      if b[i] == b[j] {
        DuplicateCounts(b, i, j);
        DistinctCounts(a, b[i]);
      }
    }
  }

  lemma DuplicateCounts<T>(s: seq<T>, i: nat, j: nat)
    requires i < j < |s| && s[i] == s[j]
    ensures multiset(s)[s[i]] >= 2
  {
    assert s == s[..i] + [s[i]] + s[i + 1..j] + [s[j]] + s[j + 1..];
  }

  lemma {:induction false} DistinctCounts<T>(s: seq<T>, x: T)
    requires Distinct(s)
    ensures multiset(s)[x] <= 1
  {
    if s != [] {
      assert s == [s[0]] + s[1..];
      DistinctCounts(s[1..], x);
      if s[0] == x {
        assert x !in s[1..];
      }
    }
  }

  /** Duplicate-free sequences with the same members are permutations of each other. */
  lemma SameMembersPermute<T(!new)>(a: seq<T>, b: seq<T>)
    requires Distinct(a) && Distinct(b)
    requires forall x :: x in a <==> x in b
    ensures multiset(a) == multiset(b)
  {
    forall x
      ensures multiset(a)[x] == multiset(b)[x]
    {
      DistinctCounts(a, x);
      DistinctCounts(b, x);
      assert x in a <==> x in multiset(a);
      assert x in b <==> x in multiset(b);
    }
  }

  // ---------------------------------------------------------------------------------------
  // Contiguous blocks

  /** `block` occurs in `s` as one contiguous stretch starting at `i`. */
  predicate BlockAt<T(==)>(s: seq<T>, i: int, block: seq<T>) {
    0 <= i && i + |block| <= |s| && s[i..i + |block|] == block
  }

  lemma BlockInLeft<T>(s: seq<T>, i: int, block: seq<T>, b: seq<T>)
    requires BlockAt(s, i, block)
    ensures BlockAt(s + b, i, block)
  {}

  lemma BlockInRight<T>(a: seq<T>, s: seq<T>, i: int, block: seq<T>)
    requires BlockAt(s, i, block)
    ensures BlockAt(a + s, |a| + i, block)
  {}

  lemma BlockElement<T>(s: seq<T>, o: int, block: seq<T>, i: nat)
    requires BlockAt(s, o, block) && i < |block|
    ensures s[o + i] == block[i]
  {
    assert s[o..o + |block|][i] == block[i];
  }

  /** In a duplicate-free list the block of a node starts at that node. */
  lemma BlockPosition<T>(s: seq<T>, o: int, block: seq<T>, j: nat, ix: nat)
    requires Distinct(s) && BlockAt(s, o, block) && j < |block| && ix < |s| && s[ix] == block[j]
    ensures ix == o + j
  {
    BlockElement(s, o, block, j);
  }
}
