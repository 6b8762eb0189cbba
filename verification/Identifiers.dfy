/** Identifiers as the composition and synthesis code uses them.

The program handles identifiers only through equality and the byte order of Go
strings, so an identifier is modelled by its place in that order. The empty
string is the least string and is the number 0. */
module Identifiers {

  type Id = nat

  const EMPTY: Id := 0

  /** The elements of a sequence. */
  function Elements<T>(s: seq<T>): (r: set<T>)
  {
    set x | x in s
  }

  predicate NoDuplicates<T(==)>(s: seq<T>)
  {
    forall i, j :: 0 <= i < j < |s| ==> s[i] != s[j]
  }

  predicate StrictlySorted(s: seq<Id>)
  {
    forall i, j :: 0 <= i < j < |s| ==> s[i] < s[j]
  }

  lemma {:induction false} ElementsAppend<T>(s: seq<T>, t: seq<T>)
    ensures Elements(s + t) == Elements(s) + Elements(t)
  {
  }

  /** A sequence without repetition is as long as its set of elements. */
  lemma {:induction false} NoDuplicatesSize<T>(s: seq<T>)
    requires NoDuplicates(s)
    ensures |Elements(s)| == |s|
  {
    if s == [] {
      assert Elements(s) == {};
    } else {
      NoDuplicatesSize(s[1..]);
      assert Elements(s) == {s[0]} + Elements(s[1..]);
    }
  }

  lemma {:induction false} ElementsSizeAtMost<T>(s: seq<T>)
    ensures |Elements(s)| <= |s|
  {
    if s == [] {
      assert Elements(s) == {};
    } else {
      ElementsSizeAtMost(s[1..]);
      assert Elements(s) == {s[0]} + Elements(s[1..]);
    }
  }

  lemma {:induction false} SubsetSize<T>(a: set<T>, b: set<T>)
    requires a <= b
    ensures |a| <= |b|
  {
    assert b == a + (b - a);
  }

  /** More positions than values: some value repeats. */
  lemma {:induction false} Pigeonhole<T>(s: seq<T>, universe: set<T>) returns (i: nat, j: nat)
    requires forall k :: 0 <= k < |s| ==> s[k] in universe
    requires |s| > |universe|
    ensures i < j < |s| && s[i] == s[j]
  {
    if NoDuplicates(s) {
      NoDuplicatesSize(s);
      SubsetSize(Elements(s), universe);
      assert false;
    }
    i, j :| 0 <= i < j < |s| && s[i] == s[j];
  }

  /** A non-empty set of identifiers has a least element. */
  lemma {:induction false} Least(s: set<Id>) returns (m: Id)
    requires s != {}
    ensures m in s && forall n :: n in s ==> m <= n
  {
    m :| m in s;
    var rest := s - {m};
    if rest != {} {
      var other := Least(rest);
      forall n | n in s
        ensures n == m || other <= n
      {
        assert n == m || n in rest;
      }
      m := if other < m then other else m;
    } else {
      assert s == {m};
    }
  }

  ghost function MinOf(s: set<Id>): (m: Id)
    requires s != {}
    ensures m in s && forall n :: n in s ==> m <= n
  {
    LeastExists(s);
    var m :| m in s && forall n :: n in s ==> m <= n;
    m
  }

  lemma {:induction false} LeastExists(s: set<Id>)
    requires s != {}
    ensures exists m :: m in s && forall n :: n in s ==> m <= n
  {
    var m := Least(s);
  }

  /** Two strictly sorted sequences with the same elements are the same. */
  lemma {:induction false} SortedUnique(a: seq<Id>, b: seq<Id>)
    requires StrictlySorted(a) && StrictlySorted(b)
    requires Elements(a) == Elements(b)
    ensures a == b
  {
    assert |b| > 0 ==> b[0] in Elements(b);
    if a == [] {
    } else {
      assert a[0] in Elements(b) && |b| > 0;
      assert b[0] in Elements(a);
      assert a[0] == b[0];
      forall x
        ensures x in Elements(a[1..]) <==> x in Elements(b[1..])
      {
        assert x in Elements(a) <==> x == a[0] || x in a[1..];
        assert x in Elements(b) <==> x == b[0] || x in b[1..];
      }
      SortedUnique(a[1..], b[1..]);
    }
  }

  lemma {:induction false} InsertKeepsOrder(s: seq<Id>, i: nat, x: Id)
    requires StrictlySorted(s) && i <= |s|
    requires forall k :: 0 <= k < i ==> s[k] < x
    requires forall k :: i <= k < |s| ==> x < s[k]
    ensures StrictlySorted(s[..i] + [x] + s[i..])
    ensures Elements(s[..i] + [x] + s[i..]) == Elements(s) + {x}
  {
    var r := s[..i] + [x] + s[i..];
    assert forall k :: 0 <= k < i ==> r[k] == s[k];
    assert r[i] == x;
    assert forall k :: i < k < |r| ==> r[k] == s[k - 1];
    forall y
      ensures y in r <==> y in s || y == x
    {
      if y in s {
        var k :| 0 <= k < |s| && s[k] == y;
        assert r[if k < i then k else k + 1] == y;
      }
    }
  }

  /** Where a new identifier goes in a sorted list. */
  method InsertSorted(s: seq<Id>, x: Id) returns (r: seq<Id>)
    requires StrictlySorted(s) && x !in s
    ensures StrictlySorted(r) && Elements(r) == Elements(s) + {x}
  {
    var i := 0;
    while i < |s| && s[i] < x
      invariant 0 <= i <= |s|
      invariant forall k :: 0 <= k < i ==> s[k] < x
    {
      i := i + 1;
    }
    forall k | i <= k < |s|
      ensures x < s[k]
    {
      assert s[k] in s;
    }
    InsertKeepsOrder(s, i, x);
    r := s[..i] + [x] + s[i..];
  }

  /** Collects the keys of a Go map, in any order, and sorts them. */
  method SortedSet(s: set<Id>) returns (r: seq<Id>)
    ensures StrictlySorted(r) && Elements(r) == s
  {
    r := [];
    var rest := s;
    while rest != {}
      invariant rest <= s
      invariant StrictlySorted(r) && Elements(r) == s - rest
      decreases |rest|
    {
      var x :| x in rest;
      r := InsertSorted(r, x);
      rest := rest - {x};
    }
  }
}
