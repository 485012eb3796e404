/** Small facts about sequences used across the model. */
module Sequences {

  ghost predicate Distinct<T>(s: seq<T>) {
    forall i, j :: 0 <= i < j < |s| ==> s[i] != s[j]
  }

  /** First occurrences, in order. */
  function Unique<T(==,!new)>(s: seq<T>): (u: seq<T>)
    ensures Distinct(u)
    ensures forall x :: x in u <==> x in s
    ensures |u| <= |s|
  {
    if s == [] then []
    else
      var rest, last := Unique(s[..|s| - 1]), s[|s| - 1];
      assert s == s[..|s| - 1] + [last];
      if last in rest then rest else rest + [last]
  }

  /** How requests drop repeated names: keep each at its first occurrence. */
  method Dedup<T(==,!new)>(s: seq<T>) returns (unique: seq<T>)
    ensures unique == Unique(s)
  {
    unique := [];
    for i := 0 to |s|
      invariant unique == Unique(s[..i])
    {
      assert s[..i + 1][..i] == s[..i];
      if s[i] !in unique {
        unique := unique + [s[i]];
      }
    }
    assert s[..|s|] == s;
  }

  /** Where a member first occurs. */
  function FirstIndex<T(==)>(s: seq<T>, x: T): (i: nat)
    requires x in s
    ensures i < |s| && s[i] == x && x !in s[..i]
  {
    if s[0] == x then 0 else 1 + FirstIndex(s[1..], x)
  }

  /** Dropping repeats keeps the order of first occurrences. */
  lemma {:induction false} UniqueKeepsOrder<T(!new)>(s: seq<T>, i: nat, j: nat)
    requires i < j < |Unique(s)|
    ensures FirstIndex(s, Unique(s)[i]) < FirstIndex(s, Unique(s)[j])
  {
    var n := |s| - 1;
    var front, u := s[..n], Unique(s);
    assert s == front + [s[n]];
    assert u[i] in u && u[j] in u;
    if j < |Unique(front)| {
      UniqueKeepsOrder(front, i, j);
      SameFirstIndex(s, n, u[i]);
      SameFirstIndex(s, n, u[j]);
    } else {
      assert u[i] in Unique(front);
      SameFirstIndex(s, n, u[i]);
      assert FirstIndex(s, u[j]) == n;
    }
  }

  lemma SameFirstIndex<T(!new)>(s: seq<T>, n: nat, x: T)
    requires n <= |s| && x in s[..n]
    ensures FirstIndex(s, x) == FirstIndex(s[..n], x)
  {
    var i, k := FirstIndex(s, x), FirstIndex(s[..n], x);
    assert s[..n][..k] == s[..k];
    assert s[k] == x;
  }

  lemma DistinctSnoc<T>(s: seq<T>, x: T)
    requires Distinct(s) && x !in s
    ensures Distinct(s + [x])
  {}

  lemma Regroup<T>(a: seq<T>, b: seq<T>, c: seq<T>)
    ensures (a + b) + c == a + (b + c)
  {}

  lemma DropFront<T>(a: seq<T>, b: seq<T>)
    ensures (a + b)[|a|..] == b && (a + b)[..|a|] == a
  {}

  /** A slice of a slice is a slice. */
  lemma SliceOfSlice<T>(s: seq<T>, from: nat, to: nat, i: nat, n: nat)
    requires from <= to <= |s| && i + n <= to - from
    ensures s[from..to][i..i + n] == s[from + i..from + i + n]
  {
    var part, inner, outer := s[from..to], s[from..to][i..i + n], s[from + i..from + i + n];
    forall k | 0 <= k < n
      ensures inner[k] == outer[k]
    {
      assert inner[k] == part[i + k] == s[from + i + k];
    }
  }

  lemma SliceOfRest<T>(s: seq<T>, from: nat, i: nat, j: nat)
    requires i <= j && from + j <= |s|
    ensures s[from..][i..j] == s[from + i..from + j]
  {
    SliceOfSlice(s, from, |s|, i, j - i);
    assert s[from..|s|] == s[from..];
  }

  lemma RestOfRest<T>(s: seq<T>, from: nat, i: nat)
    requires from + i <= |s|
    ensures s[from..][i..] == s[from + i..]
  {
    SliceOfSlice(s, from, |s|, i, |s| - from - i);
    assert s[from..|s|] == s[from..];
  }

  lemma SliceOfFront<T>(s: seq<T>, cut: nat, i: nat, j: nat)
    requires i <= j <= cut <= |s|
    ensures s[..cut][i..j] == s[i..j]
  {
    SliceOfSlice(s, 0, cut, i, j - i);
    assert s[0..cut] == s[..cut];
  }

  lemma RestOfFront<T>(s: seq<T>, cut: nat, i: nat)
    requires i <= cut <= |s|
    ensures s[..cut][i..] == s[i..][..cut - i]
  {
    SliceOfFront(s, cut, i, cut);
    SliceOfRest(s, i, 0, cut - i);
  }

  lemma FrontOfConcat<T>(a: seq<T>, b: seq<T>, i: nat, j: nat)
    requires i <= j <= |a|
    ensures (a + b)[i..j] == a[i..j]
  {
    SliceOfFront(a + b, |a|, i, j);
    DropFront(a, b);
  }

  lemma RestOfConcat<T>(a: seq<T>, b: seq<T>, i: nat)
    requires i <= |a|
    ensures (a + b)[i..] == a[i..] + b
  {}

  // ── Ascending sequences ────────────────────────────────────────────────────

  ghost predicate Ascends<T>(s: seq<T>, less: (T, T) -> bool) {
    forall i, j :: 0 <= i < j < |s| ==> less(s[i], s[j])
  }

  ghost predicate Asymmetric<T(!new)>(less: (T, T) -> bool) {
    forall x, y :: less(x, y) ==> !less(y, x)
  }

  lemma HasMember<T>(s: seq<T>)
    requires s != []
    ensures exists x :: x in s
  {
    assert s[0] in s;
  }

  lemma NoMembers<T>(s: seq<T>)
    requires !exists x :: x in s
    ensures s == []
  {
    if s != [] {
      HasMember(s);
    }
  }

  lemma AscendsTail<T>(s: seq<T>, less: (T, T) -> bool)
    requires Ascends(s, less) && s != []
    ensures Ascends(s[1..], less)
    ensures forall x :: x in s[1..] ==> less(s[0], x)
  {
    assert forall k :: 0 <= k < |s| - 1 ==> s[1..][k] == s[k + 1];
  }

  lemma AscendsCons<T>(x: T, s: seq<T>, less: (T, T) -> bool)
    requires Ascends(s, less) && forall y :: y in s ==> less(x, y)
    ensures Ascends([x] + s, less)
  {
    assert forall k :: 0 <= k < |s| ==> s[k] in s;
  }

  /** The first of two ascending sequences with the same members is the same. */
  lemma SameFirst<T(!new)>(a: seq<T>, b: seq<T>, less: (T, T) -> bool)
    requires Asymmetric(less) && Ascends(a, less) && Ascends(b, less) && a != [] && b != [] && forall x :: x in a <==> x in b
    ensures a[0] == b[0]
  {
    AscendsTail(a, less);
    AscendsTail(b, less);
    assert a[0] in b && b[0] in a;
    assert a == [a[0]] + a[1..] && b == [b[0]] + b[1..];
  }

  /** Ascending sequences with the same members are the same. */
  lemma {:induction false} AscendsUnique<T(!new)>(a: seq<T>, b: seq<T>, less: (T, T) -> bool)
    requires Asymmetric(less) && Ascends(a, less) && Ascends(b, less) && forall x :: x in a <==> x in b
    ensures a == b
  {
    if a == [] {
      NoMembers(b);
    } else if b == [] {
      NoMembers(a);
    } else {
      SameFirst(a, b, less);
      AscendsTail(a, less);
      AscendsTail(b, less);
      assert a == [a[0]] + a[1..] && b == [b[0]] + b[1..];
      forall x
        ensures x in a[1..] <==> x in b[1..]
      {
        assert x in a <==> x == a[0] || x in a[1..];
        assert x in b <==> x == b[0] || x in b[1..];
      }
      AscendsUnique(a[1..], b[1..], less);
    }
  }
}
