/** Sequence facts the roster and the role assignment rest on: duplicate
    freedom, the two array filters the game uses, and what a permutation
    of a duplicate-free sequence looks like. */
module Seqs {

  /** No value occurs twice. */
  predicate NoDup<T(==)>(s: seq<T>) {
    forall i, j :: 0 <= i < j < |s| ==> s[i] != s[j]
  }

  function Elements<T>(s: seq<T>): set<T> {
    set x | x in s
  }

  /** `s.filter(x => keep.includes(x))`: the members of `s` that occur in
      `keep`, in the order of `s`. */
  function FilterIn<T(==,!new)>(s: seq<T>, keep: seq<T>): (r: seq<T>)
    ensures |r| <= |s|
    ensures forall x :: x in r <==> x in s && x in keep
  {
    if |s| == 0 then []
    else (if s[0] in keep then [s[0]] else []) + FilterIn(s[1..], keep)
  }

  /** `s.filter(x => x !== y)`: every occurrence of `y` removed, all other
      elements kept with their multiplicities. */
  function Without<T(==)>(s: seq<T>, y: T): (r: seq<T>)
    ensures multiset(r) == multiset(s)[y := 0]
  {
    if |s| == 0 then []
    else
      var t := Without(s[1..], y);
      assert s == [s[0]] + s[1..];
      if s[0] == y then t else [s[0]] + t
  }

  /** `order` is a rearrangement of `s` (what a shuffle produces). */
  predicate IsShuffleOf<T(==)>(order: seq<T>, s: seq<T>) {
    |order| == |s| && multiset(order) == multiset(s)
  }

  lemma {:induction false} NoDupAtMostOnce<T>(s: seq<T>, x: T)
    requires NoDup(s)
    ensures multiset(s)[x] <= 1
    decreases |s|
  {
    if |s| > 0 {
      assert s == [s[0]] + s[1..];
      assert NoDup(s[1..]);
      NoDupAtMostOnce(s[1..], x);
      if s[0] == x {
        assert x !in s[1..];
      }
    }
  }

  lemma TwiceCountsTwice<T>(s: seq<T>, i: int, j: int)
    requires 0 <= i < j < |s| && s[i] == s[j]
    ensures multiset(s)[s[i]] >= 2
  {
    assert s == s[..j] + s[j..];
    assert s[i] in s[..j];
    assert s[j] in s[j..];
  }

  /** Rearranging a duplicate-free sequence keeps it duplicate-free. */
  lemma PermutationKeepsNoDup<T>(a: seq<T>, b: seq<T>)
    requires multiset(a) == multiset(b) && NoDup(a)
    ensures NoDup(b)
  {
    forall i, j | 0 <= i < j < |b|
      ensures b[i] != b[j]
    {
      if b[i] == b[j] {
        TwiceCountsTwice(b, i, j);
        NoDupAtMostOnce(a, b[i]);
      }
    }
  }

  /** A duplicate-free sequence has as many distinct elements as entries. */
  lemma {:induction false} NoDupElements<T>(s: seq<T>)
    requires NoDup(s)
    ensures |Elements(s)| == |s|
    decreases |s|
  {
    if |s| > 0 {
      assert NoDup(s[1..]);
      NoDupElements(s[1..]);
      assert Elements(s) == {s[0]} + Elements(s[1..]);
      assert s[0] !in Elements(s[1..]);
    } else {
      assert Elements(s) == {};
    }
  }

  lemma {:induction false} FilterInKeepsNoDup<T(!new)>(s: seq<T>, keep: seq<T>)
    requires NoDup(s)
    ensures NoDup(FilterIn(s, keep))
    decreases |s|
  {
    if |s| > 0 {
      assert NoDup(s[1..]);
      FilterInKeepsNoDup(s[1..], keep);
      assert s[0] !in s[1..];
    }
  }

  /** Filtering a duplicate-free sequence by a duplicate-free selection of
      its own members keeps exactly one entry per selected value. */
  lemma FilterInSize<T(!new)>(s: seq<T>, keep: seq<T>)
    requires NoDup(s) && NoDup(keep)
    requires forall x :: x in keep ==> x in s
    ensures |FilterIn(s, keep)| == |keep|
    ensures Elements(FilterIn(s, keep)) == Elements(keep)
  {
    var r := FilterIn(s, keep);
    FilterInKeepsNoDup(s, keep);
    assert Elements(r) == Elements(keep);
    NoDupElements(r);
    NoDupElements(keep);
  }

  /** Removing a value that does not occur changes nothing. */
  lemma {:induction false} WithoutAbsent<T>(s: seq<T>, y: T)
    requires y !in s
    ensures Without(s, y) == s
    decreases |s|
  {
    if |s| > 0 {
      WithoutAbsent(s[1..], y);
    }
  }

  /** In a duplicate-free sequence, removing the value at position `p`
      leaves the entries before it and after it, in their original order. */
  lemma {:induction false} WithoutAt<T>(s: seq<T>, p: int)
    requires NoDup(s) && 0 <= p < |s|
    ensures Without(s, s[p]) == s[..p] + s[p + 1..]
    decreases p
  {
    NoDupTail(s);
    if p == 0 {
      WithoutAbsent(s[1..], s[0]);
    } else {
      WithoutAt(s[1..], p - 1);
      assert s[0] != s[p];
      WithoutStep(s, p);
    }
  }

  /** The tail of a duplicate-free sequence is duplicate-free and does not
      hold its head. */
  lemma NoDupTail<T>(s: seq<T>)
    requires NoDup(s) && |s| > 0
    ensures NoDup(s[1..]) && s[0] !in s[1..]
  {
    var t := s[1..];
    forall i, j | 0 <= i < j < |t|
      ensures t[i] != t[j]
    {
      assert t[i] == s[i + 1] && t[j] == s[j + 1];
    }
    forall j | 0 <= j < |t|
      ensures t[j] != s[0]
    {
      assert t[j] == s[j + 1];
    }
  }

  /** One inductive step of WithoutAt: removing a later entry keeps the head. */
  lemma WithoutStep<T>(s: seq<T>, p: int)
    requires 0 < p < |s| && s[0] != s[p]
    requires Without(s[1..], s[p]) == s[1..][..p - 1] + s[1..][p..]
    ensures Without(s, s[p]) == s[..p] + s[p + 1..]
  {
    var t, y := s[1..], s[p];
    var rest := t[..p - 1] + t[p..];
    assert Without(s, y) == [s[0]] + rest;
    SpliceHead(s, p);
  }

  /** Cutting out entry `p > 0` commutes with splitting off the head. */
  lemma SpliceHead<T>(s: seq<T>, p: int)
    requires 0 < p < |s|
    ensures [s[0]] + (s[1..][..p - 1] + s[1..][p..]) == s[..p] + s[p + 1..]
  {
    var a, b := s[1..][..p - 1], s[1..][p..];
    assert s[..p] == [s[0]] + a;
    assert s[p + 1..] == b;
  }

  /** Removing a value that occurs once in a duplicate-free sequence leaves
      exactly the other values, in their original order. */
  lemma WithoutOfNoDup<T>(s: seq<T>, y: T)
    requires NoDup(s) && y in s
    ensures |Without(s, y)| == |s| - 1
    ensures y !in Without(s, y)
    ensures forall x :: x in Without(s, y) <==> x in s && x != y
    ensures forall p :: 0 <= p < |s| && s[p] == y ==> Without(s, y) == s[..p] + s[p + 1..]
  {
    forall p | 0 <= p < |s| && s[p] == y
      ensures Without(s, y) == s[..p] + s[p + 1..]
    {
      WithoutAt(s, p);
    }
    var r := Without(s, y);
    NoDupAtMostOnce(s, y);
    assert multiset(s)[y] == 1;
    assert |multiset(r)| == |multiset(s)| - 1;
    forall x
      ensures x in r <==> x in s && x != y
    {
      assert x in r <==> x in multiset(r);
      assert x in s <==> x in multiset(s);
    }
  }

  /** Every prefix of a rearrangement of `s` draws only members of `s`. */
  lemma PermutationPrefixMembers<T>(s: seq<T>, order: seq<T>, k: nat)
    requires multiset(order) == multiset(s) && k <= |order|
    ensures forall x :: x in order[..k] ==> x in s
  {
    forall x | x in order[..k]
      ensures x in s
    {
      assert x in multiset(order);
    }
  }
}
