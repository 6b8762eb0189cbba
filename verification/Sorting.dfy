/** Sorting by a comparison function, as sort.Slice is used throughout: the
comparison decides any two distinct elements, so the sorted order is unique. */
module Sorting {
  import opened Identifiers

  ghost predicate Orders<T(!new)>(less: (T, T) -> bool, elements: set<T>)
  {
    && (forall a, b :: a in elements && b in elements && a != b ==> less(a, b) || less(b, a))
    && (forall a, b :: a in elements && b in elements && less(a, b) ==> !less(b, a))
    && (forall a, b, c :: a in elements && b in elements && c in elements && less(a, b) && less(b, c) ==> less(a, c))
  }

  predicate SortedBy<T>(less: (T, T) -> bool, s: seq<T>)
  {
    forall i, j :: 0 <= i < j < |s| ==> less(s[i], s[j])
  }

  lemma {:induction false} SortedByUnique<T(!new)>(less: (T, T) -> bool, a: seq<T>, b: seq<T>)
    requires SortedBy(less, a) && SortedBy(less, b)
    requires Elements(a) == Elements(b) && Orders(less, Elements(a))
    ensures a == b
  {
    assert |b| > 0 ==> b[0] in Elements(b);
    if a != [] {
      assert a[0] in Elements(a);
      assert b != [];
      FirstIsLeast(less, b, a[0]);
      FirstIsLeast(less, a, b[0]);
      TailElements(less, a);
      TailElements(less, b);
      SortedByUnique(less, a[1..], b[1..]);
      assert a == [a[0]] + a[1..] && b == [b[0]] + b[1..];
    }
  }

  lemma {:induction false} FirstIsLeast<T>(less: (T, T) -> bool, s: seq<T>, x: T)
    requires SortedBy(less, s) && x in s
    ensures x == s[0] || less(s[0], x)
  {
    var i :| 0 <= i < |s| && s[i] == x;
  }

  lemma {:induction false} TailElements<T(!new)>(less: (T, T) -> bool, s: seq<T>)
    requires SortedBy(less, s) && s != [] && Orders(less, Elements(s))
    ensures Elements(s[1..]) == Elements(s) - {s[0]}
  {
    assert s == [s[0]] + s[1..];
    forall i | 0 < i < |s|
      ensures s[i] != s[0]
    {
      assert s[0] in Elements(s) && less(s[0], s[i]);
    }
  }

  /** The head of the sorted tail is moved past every smaller element. */
  method InsertBy<T(==, !new)>(less: (T, T) -> bool, s: seq<T>, x: T) returns (r: seq<T>)
    requires SortedBy(less, s) && x !in s && Orders(less, Elements(s) + {x})
    ensures SortedBy(less, r) && Elements(r) == Elements(s) + {x} && |r| == |s| + 1
  {
    var i := 0;
    while i < |s| && less(s[i], x)
      invariant 0 <= i <= |s|
      invariant forall k :: 0 <= k < i ==> less(s[k], x)
    {
      i := i + 1;
    }
    forall k | i <= k < |s|
      ensures less(x, s[k])
    {
      assert s[i] in Elements(s) && s[k] in Elements(s);
    }
    r := s[..i] + [x] + s[i..];
    InsertedElements(s, i, x);
  }

  lemma {:induction false} InsertedElements<T>(s: seq<T>, i: nat, x: T)
    requires i <= |s|
    ensures Elements(s[..i] + [x] + s[i..]) == Elements(s) + {x}
  {
    assert s == s[..i] + s[i..];
    ElementsAppend(s[..i], s[i..]);
    ElementsAppend(s[..i], [x]);
    ElementsAppend(s[..i] + [x], s[i..]);
  }

  method SortBy<T(==, !new)>(less: (T, T) -> bool, s: seq<T>) returns (r: seq<T>)
    requires NoDuplicates(s) && Orders(less, Elements(s))
    ensures SortedBy(less, r) && Elements(r) == Elements(s) && |r| == |s|
  {
    r := [];
    for i := 0 to |s|
      invariant SortedBy(less, r) && Elements(r) == Elements(s[..i]) && |r| == i
    {
      assert s[..i + 1] == s[..i] + [s[i]];
      assert Elements(s[..i]) + {s[i]} <= Elements(s);
      assert s[i] !in Elements(s[..i]);
      r := InsertBy(less, r, s[i]);
      ElementsAppend(s[..i], [s[i]]);
    }
    assert s[..|s|] == s;
  }

  /** Sorts the elements of a set, met in any order. */
  method SortSetBy<T(==, !new)>(less: (T, T) -> bool, s: set<T>) returns (r: seq<T>)
    requires Orders(less, s)
    ensures SortedBy(less, r) && Elements(r) == s
  {
    r := [];
    var rest := s;
    while rest != {}
      invariant rest <= s && SortedBy(less, r) && Elements(r) == s - rest
      decreases |rest|
    {
      var x :| x in rest;
      assert Elements(r) + {x} <= s;
      r := InsertBy(less, r, x);
      rest := rest - {x};
    }
  }

  // ----- sorting where elements may compare equal

  /** Asymmetric, and ties are transitive. */
  ghost predicate WeaklyOrders<T(!new)>(less: (T, T) -> bool)
  {
    && (forall a, b :: less(a, b) ==> !less(b, a))
    && (forall a, b, c :: !less(a, b) && !less(b, c) ==> !less(a, c))
  }

  /** No element stands before a smaller one. */
  predicate InOrder<T>(less: (T, T) -> bool, s: seq<T>)
  {
    forall i, j :: 0 <= i < j < |s| ==> !less(s[j], s[i])
  }

  method Place<T(!new)>(less: (T, T) -> bool, s: seq<T>, x: T) returns (r: seq<T>)
    requires WeaklyOrders(less) && InOrder(less, s)
    ensures InOrder(less, r) && multiset(r) == multiset(s) + multiset{x}
  {
    var i := 0;
    while i < |s| && less(s[i], x)
      invariant 0 <= i <= |s|
      invariant forall k :: 0 <= k < i ==> less(s[k], x)
    {
      i := i + 1;
    }
    forall k | i <= k < |s|
      ensures !less(s[k], x)
    {
      assert k == i || !less(s[k], s[i]);
    }
    r := s[..i] + [x] + s[i..];
    assert s == s[..i] + s[i..];
  }

  method Sort<T(!new)>(less: (T, T) -> bool, s: seq<T>) returns (r: seq<T>)
    requires WeaklyOrders(less)
    ensures InOrder(less, r) && multiset(r) == multiset(s)
  {
    r := [];
    for i := 0 to |s|
      invariant InOrder(less, r) && multiset(r) == multiset(s[..i])
    {
      assert s[..i + 1] == s[..i] + [s[i]];
      r := Place(less, r, s[i]);
    }
    assert s[..|s|] == s;
  }

  lemma {:induction false} SameMembers<T>(s: seq<T>, t: seq<T>, x: T)
    requires multiset(s) == multiset(t)
    ensures x in s <==> x in t
  {
    assert x in s <==> x in multiset(s);
    assert x in t <==> x in multiset(t);
  }

  lemma {:induction false} SameSize<T>(s: seq<T>, t: seq<T>)
    requires multiset(s) == multiset(t)
    ensures |s| == |t|
  {
    assert |multiset(s)| == |s| && |multiset(t)| == |t|;
  }

  /** Without repetition every element occurs once at most, and conversely. */
  lemma {:induction false} OccursOnce<T>(s: seq<T>, x: T)
    requires NoDuplicates(s)
    ensures multiset(s)[x] <= 1
  {
    if s != [] {
      var n := |s| - 1;
      assert s == s[..n] + [s[n]];
      OccursOnce(s[..n], x);
      assert multiset(s) == multiset(s[..n]) + multiset([s[n]]);
      if s[n] == x {
        assert x !in s[..n];
        assert multiset(s[..n])[x] == 0;
      }
    }
  }

  lemma {:induction false} RepeatOccurs<T>(s: seq<T>, i: nat, j: nat)
    requires i < j < |s| && s[i] == s[j]
    ensures multiset(s)[s[i]] >= 2
  {
    assert s == s[..j] + s[j..];
    assert s[i] in s[..j] && s[j] in s[j..];
    assert multiset(s) == multiset(s[..j]) + multiset(s[j..]);
    assert s[i] in multiset(s[..j]) && s[j] in multiset(s[j..]);
  }

  lemma {:induction false} SameWithoutDuplicates<T>(s: seq<T>, t: seq<T>)
    requires multiset(s) == multiset(t) && NoDuplicates(s)
    ensures NoDuplicates(t)
  {
    forall i, j | 0 <= i < j < |t|
      ensures t[i] != t[j]
    {
      OccursOnce(s, t[i]);
      if t[i] == t[j] {
        RepeatOccurs(t, i, j);
      }
    }
  }

  /** A list in strict order is the only such arrangement of its elements. */
  lemma {:induction false} StrictArrangementUnique<T(!new)>(less: (T, T) -> bool, s: seq<T>, t: seq<T>)
    requires multiset(s) == multiset(t) && SortedBy(less, s) && SortedBy(less, t) && Orders(less, Elements(s))
    ensures s == t
  {
    forall x
      ensures x in Elements(s) <==> x in Elements(t)
    {
      SameMembers(s, t, x);
    }
    assert Elements(s) == Elements(t);
    SortedByUnique(less, s, t);
  }

  /** If a list can be put in strict order, sorting can put it in no other. */
  lemma {:induction false} InOrderUnique<T(!new)>(less: (T, T) -> bool, s: seq<T>, t: seq<T>)
    requires WeaklyOrders(less) && SortedBy(less, s) && InOrder(less, t) && multiset(s) == multiset(t)
    ensures s == t
  {
    StrictOrders(less, s);
    assert NoDuplicates(s);
    SameWithoutDuplicates(s, t);
    forall i, j | 0 <= i < j < |t|
      ensures less(t[i], t[j])
    {
      SameMembers(s, t, t[i]);
      SameMembers(s, t, t[j]);
      assert t[i] in Elements(s) && t[j] in Elements(s);
    }
    StrictArrangementUnique(less, s, t);
  }

  lemma {:induction false} StrictOrders<T(!new)>(less: (T, T) -> bool, s: seq<T>)
    requires WeaklyOrders(less) && SortedBy(less, s)
    ensures Orders(less, Elements(s))
  {
    forall a, b | a in Elements(s) && b in Elements(s) && a != b
      ensures less(a, b) || less(b, a)
    {
      var i :| 0 <= i < |s| && s[i] == a;
      var j :| 0 <= j < |s| && s[j] == b;
    }
  }
}
