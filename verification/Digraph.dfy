/** Directed graphs over identifiers: topological orders, cycles, and the order
that Kahn's algorithm with a sorted ready list produces. */
module Digraph {
  import opened Identifiers

  datatype Arc = Arc(source: Id, target: Id)

  predicate Within(arcs: seq<Arc>, nodes: set<Id>)
  {
    forall a :: a in arcs ==> a.source in nodes && a.target in nodes
  }

  /** Every node once, and every arc between nodes points forward. */
  predicate IsTopological(order: seq<Id>, nodes: set<Id>, arcs: seq<Arc>)
  {
    && NoDuplicates(order)
    && Elements(order) == nodes
    && Forward(order, arcs)
  }

  predicate Forward(order: seq<Id>, arcs: seq<Arc>)
  {
    forall i, j :: 0 <= i < |order| && 0 <= j < |order| && Arc(order[i], order[j]) in arcs ==> i < j
  }

  predicate IsWalk(w: seq<Id>, nodes: set<Id>, arcs: seq<Arc>)
  {
    && (forall i :: 0 <= i < |w| ==> w[i] in nodes)
    && (forall i :: 0 <= i < |w| - 1 ==> Arc(w[i], w[i + 1]) in arcs)
  }

  /** A closed walk with at least one arc. */
  predicate IsCycle(w: seq<Id>, nodes: set<Id>, arcs: seq<Arc>)
  {
    |w| >= 2 && w[0] == w[|w| - 1] && IsWalk(w, nodes, arcs)
  }

  ghost predicate Cyclic(nodes: set<Id>, arcs: seq<Arc>)
  {
    exists w :: IsCycle(w, nodes, arcs)
  }

  /** A node of `rest` with no predecessor in `rest`. */
  predicate Free(n: Id, rest: set<Id>, arcs: seq<Arc>)
  {
    n in rest && forall a :: a in arcs && a.target == n ==> a.source !in rest
  }

  /** Repeatedly takes the least free node; stops when none is free. */
  ghost function KahnOrder(rest: set<Id>, arcs: seq<Arc>): (order: seq<Id>)
    decreases |rest|
  {
    var free := set n | n in rest && Free(n, rest, arcs);
    if free == {} then [] else
      var m := MinOf(free);
      [m] + KahnOrder(rest - {m}, arcs)
  }

  /** Lexicographic order on sequences of identifiers. */
  predicate LexAtMost(a: seq<Id>, b: seq<Id>)
  {
    a == [] || (b != [] && (a[0] < b[0] || (a[0] == b[0] && LexAtMost(a[1..], b[1..]))))
  }

  lemma {:induction false} LexAntisymmetric(a: seq<Id>, b: seq<Id>)
    requires LexAtMost(a, b) && LexAtMost(b, a)
    ensures a == b
  {
    if a != [] && b != [] {
      LexAntisymmetric(a[1..], b[1..]);
      assert a == [a[0]] + a[1..] && b == [b[0]] + b[1..];
    }
  }

  // ----- what KahnOrder visits

  /** No node of `rest` is free. */
  predicate Stuck(rest: set<Id>, arcs: seq<Arc>)
  {
    forall n :: n in rest ==> !Free(n, rest, arcs)
  }

  lemma {:induction false} ForwardCons(m: Id, tail: seq<Id>, rest: set<Id>, arcs: seq<Arc>)
    requires Free(m, rest, arcs)
    requires Forward(tail, arcs) && forall x :: x in tail ==> x in rest
    ensures Forward([m] + tail, arcs)
  {
    var order := [m] + tail;
    forall i, j | 0 <= i < |order| && 0 <= j < |order| && Arc(order[i], order[j]) in arcs
      ensures i < j
    {
      assert order[i] == m || order[i] == tail[i - 1];
      assert order[i] in rest;
      assert order[j] != m;
    }
  }

  lemma {:induction false} KahnVisits(rest: set<Id>, arcs: seq<Arc>)
    ensures NoDuplicates(KahnOrder(rest, arcs))
    ensures Elements(KahnOrder(rest, arcs)) <= rest
    ensures Forward(KahnOrder(rest, arcs), arcs)
    ensures Stuck(rest - Elements(KahnOrder(rest, arcs)), arcs)
    decreases |rest|
  {
    var free := set n | n in rest && Free(n, rest, arcs);
    var order := KahnOrder(rest, arcs);
    if free == {} {
      assert rest - Elements(order) == rest;
      assert forall n :: n in rest && Free(n, rest, arcs) ==> n in free;
    } else {
      var m := MinOf(free);
      var tail := KahnOrder(rest - {m}, arcs);
      KahnVisits(rest - {m}, arcs);
      assert forall x :: x in tail ==> x in Elements(tail);
      ForwardCons(m, tail, rest, arcs);
      assert Elements(order) == {m} + Elements(tail);
      assert rest - Elements(order) == (rest - {m}) - Elements(tail);
    }
  }

  /** When every node is visited the result is a topological order. */
  lemma {:induction false} KahnTopological(nodes: set<Id>, arcs: seq<Arc>)
    requires |KahnOrder(nodes, arcs)| == |nodes|
    ensures IsTopological(KahnOrder(nodes, arcs), nodes, arcs)
  {
    var order := KahnOrder(nodes, arcs);
    KahnVisits(nodes, arcs);
    NoDuplicatesSize(order);
    FullSubset(Elements(order), nodes);
  }

  lemma {:induction false} FullSubset<T>(a: set<T>, b: set<T>)
    requires a <= b && |a| == |b|
    ensures a == b
  {
    assert b == a + (b - a);
  }

  // ----- cycles

  /** A non-empty set in which every node has a predecessor contains walks of every length. */
  lemma {:induction false} BackwardWalk(stuck: set<Id>, arcs: seq<Arc>, length: nat) returns (w: seq<Id>)
    requires stuck != {} && Stuck(stuck, arcs)
    requires length > 0
    ensures |w| == length && IsWalk(w, stuck, arcs)
  {
    if length == 1 {
      var n :| n in stuck;
      w := [n];
    } else {
      var tail := BackwardWalk(stuck, arcs, length - 1);
      assert !Free(tail[0], stuck, arcs);
      var a :| a in arcs && a.target == tail[0] && a.source in stuck;
      w := [a.source] + tail;
      assert a == Arc(w[0], w[1]);
    }
  }

  lemma {:induction false} StuckIsCyclic(stuck: set<Id>, arcs: seq<Arc>)
    requires stuck != {} && Stuck(stuck, arcs)
    ensures Cyclic(stuck, arcs)
  {
    var w := BackwardWalk(stuck, arcs, |stuck| + 1);
    var i, j := Pigeonhole(w, stuck);
    var c := w[i..j + 1];
    assert forall k :: 0 <= k < |c| ==> c[k] == w[i + k];
    assert IsCycle(c, stuck, arcs);
  }

  lemma {:induction false} CyclicMonotone(small: set<Id>, large: set<Id>, arcs: seq<Arc>, more: seq<Arc>)
    requires small <= large && forall a :: a in arcs ==> a in more
    requires Cyclic(small, arcs)
    ensures Cyclic(large, more)
  {
    var w :| IsCycle(w, small, arcs);
    assert IsCycle(w, large, more);
  }

  /** Along a walk the position in a topological order grows. */
  lemma {:induction false} WalkAdvances(order: seq<Id>, nodes: set<Id>, arcs: seq<Arc>, w: seq<Id>)
    returns (first: nat, last: nat)
    requires IsTopological(order, nodes, arcs) && IsWalk(w, nodes, arcs) && |w| >= 1
    ensures first < |order| && order[first] == w[0]
    ensures last < |order| && order[last] == w[|w| - 1]
    ensures |w| >= 2 ==> first < last
    ensures first <= last
  {
    assert w[0] in Elements(order);
    first :| 0 <= first < |order| && order[first] == w[0];
    if |w| == 1 {
      last := first;
    } else {
      var middle;
      middle, last := WalkAdvances(order, nodes, arcs, w[1..]);
      assert order[middle] == w[1];
      assert Arc(w[0], w[1]) in arcs;
    }
  }

  lemma {:induction false} TopologicalIsAcyclic(order: seq<Id>, nodes: set<Id>, arcs: seq<Arc>)
    requires IsTopological(order, nodes, arcs)
    ensures !Cyclic(nodes, arcs)
  {
    forall w | IsWalk(w, nodes, arcs) && |w| >= 2
      ensures w[0] != w[|w| - 1]
    {
      var first, last := WalkAdvances(order, nodes, arcs, w);
    }
  }

  /** Kahn's algorithm visits every node exactly when there is no cycle. */
  lemma {:induction false} KahnCompleteIffAcyclic(nodes: set<Id>, arcs: seq<Arc>)
    ensures |KahnOrder(nodes, arcs)| == |nodes| <==> !Cyclic(nodes, arcs)
  {
    var order := KahnOrder(nodes, arcs);
    KahnVisits(nodes, arcs);
    NoDuplicatesSize(order);
    if |order| == |nodes| {
      KahnTopological(nodes, arcs);
      TopologicalIsAcyclic(order, nodes, arcs);
    } else {
      var stuck := nodes - Elements(order);
      assert nodes == Elements(order) + stuck;
      assert stuck == {} ==> Elements(order) == nodes;
      StuckIsCyclic(stuck, arcs);
      CyclicMonotone(stuck, nodes, arcs, arcs);
    }
  }

  // ----- the least topological order

  lemma {:induction false} TopologicalTail(order: seq<Id>, nodes: set<Id>, arcs: seq<Arc>)
    requires IsTopological(order, nodes, arcs) && order != []
    ensures Free(order[0], nodes, arcs)
    ensures IsTopological(order[1..], nodes - {order[0]}, arcs)
  {
    forall a | a in arcs && a.target == order[0]
      ensures a.source !in nodes
    {
      assert a == Arc(a.source, order[0]);
      assert forall i :: 0 <= i < |order| ==> order[i] != a.source;
      assert a.source !in Elements(order);
    }
    var tail := order[1..];
    assert forall i :: 0 <= i < |tail| ==> tail[i] == order[i + 1];
    forall x
      ensures x in tail <==> x in nodes && x != order[0]
    {
      assert x in Elements(order) <==> x in nodes;
      assert order == [order[0]] + tail;
    }
    forall i, j | 0 <= i < |tail| && 0 <= j < |tail| && Arc(tail[i], tail[j]) in arcs
      ensures i < j
    {
      assert Arc(order[i + 1], order[j + 1]) in arcs;
    }
  }

  /** KahnOrder comes first, lexicographically, among all topological orders. */
  lemma {:induction false} KahnIsLeast(nodes: set<Id>, arcs: seq<Arc>, other: seq<Id>)
    requires IsTopological(other, nodes, arcs)
    ensures LexAtMost(KahnOrder(nodes, arcs), other)
    decreases |nodes|
  {
    var free := set n | n in nodes && Free(n, nodes, arcs);
    if free != {} {
      var m := MinOf(free);
      assert m in Elements(other);
      TopologicalTail(other, nodes, arcs);
      assert other[0] in free;
      if m == other[0] {
        KahnIsLeast(nodes - {m}, arcs, other[1..]);
        var order := KahnOrder(nodes, arcs);
        assert order[1..] == KahnOrder(nodes - {m}, arcs);
      }
    }
  }

  ghost predicate IsLeastTopological(order: seq<Id>, nodes: set<Id>, arcs: seq<Arc>)
  {
    && IsTopological(order, nodes, arcs)
    && forall other :: IsTopological(other, nodes, arcs) ==> LexAtMost(order, other)
  }

  lemma {:induction false} LeastTopologicalUnique(a: seq<Id>, b: seq<Id>, nodes: set<Id>, arcs: seq<Arc>)
    requires IsLeastTopological(a, nodes, arcs) && IsLeastTopological(b, nodes, arcs)
    ensures a == b
  {
    LexAntisymmetric(a, b);
  }

  // ----- an acyclic graph is sparse

  datatype Span = Span(from: nat, to: nat)

  /** Every pair of positions i < j below n. */
  function ForwardPairs(n: nat): (pairs: set<Span>)
  {
    if n == 0 then {} else ForwardPairs(n - 1) + Column(n - 1, n - 1)
  }

  function Column(height: nat, j: nat): (pairs: set<Span>)
  {
    if height == 0 then {} else Column(height - 1, j) + {Span(height - 1, j)}
  }

  lemma {:induction false} ColumnMembers(height: nat, j: nat, p: Span)
    ensures p in Column(height, j) <==> p.from < height && p.to == j
  {
    if height > 0 {
      ColumnMembers(height - 1, j, p);
    }
  }

  lemma {:induction false} ColumnSize(height: nat, j: nat)
    ensures |Column(height, j)| == height
  {
    if height > 0 {
      ColumnSize(height - 1, j);
      ColumnMembers(height - 1, j, Span(height - 1, j));
    }
  }

  lemma {:induction false} ForwardPairsMembers(n: nat, p: Span)
    ensures p in ForwardPairs(n) <==> p.from < p.to < n
  {
    if n > 0 {
      ForwardPairsMembers(n - 1, p);
      ColumnMembers(n - 1, n - 1, p);
    }
  }

  function Triangle(n: nat): (t: nat)
  {
    if n == 0 then 0 else Triangle(n - 1) + (n - 1)
  }

  lemma {:induction false} TriangleDoubled(n: nat)
    ensures 2 * Triangle(n) == n * (n - 1)
  {
    if n > 0 {
      TriangleDoubled(n - 1);
      assert n * (n - 1) == (n - 1) * (n - 2) + 2 * (n - 1);
    }
  }

  lemma {:induction false} DisjointSize<T>(a: set<T>, b: set<T>)
    requires a !! b
    ensures |a + b| == |a| + |b|
  {
  }

  lemma {:induction false} ColumnApart(n: nat, pairs: set<Span>, column: set<Span>)
    requires pairs == ForwardPairs(n) && column == Column(n, n)
    ensures pairs !! column
  {
    forall p | p in pairs
      ensures p !in column
    {
      ForwardPairsMembers(n, p);
      ColumnMembers(n, n, p);
    }
  }

  lemma {:induction false} ForwardPairsSize(n: nat)
    ensures |ForwardPairs(n)| == Triangle(n)
  {
    if n > 0 {
      ForwardPairsSize(n - 1);
      ColumnSize(n - 1, n - 1);
      ColumnApart(n - 1, ForwardPairs(n - 1), Column(n - 1, n - 1));
      DisjointSize(ForwardPairs(n - 1), Column(n - 1, n - 1));
    }
  }

  function ArcsAt(pairs: set<Span>, order: seq<Id>): (arcs: set<Arc>)
    requires forall p :: p in pairs ==> p.from < |order| && p.to < |order|
  {
    set p | p in pairs :: Arc(order[p.from], order[p.to])
  }

  lemma {:induction false} ArcsAtSize(pairs: set<Span>, order: seq<Id>)
    requires forall p :: p in pairs ==> p.from < |order| && p.to < |order|
    ensures |ArcsAt(pairs, order)| <= |pairs|
  {
    if pairs == {} {
      assert ArcsAt(pairs, order) == {};
    } else {
      var p :| p in pairs;
      ArcsAtSize(pairs - {p}, order);
      assert ArcsAt(pairs, order) == ArcsAt(pairs - {p}, order) + {Arc(order[p.from], order[p.to])};
    }
  }

  /** Distinct arcs inside an acyclic graph on n nodes number at most n(n-1)/2. */
  lemma {:induction false} AcyclicIsSparse(order: seq<Id>, nodes: set<Id>, arcs: seq<Arc>)
    requires IsTopological(order, nodes, arcs)
    requires Within(arcs, nodes) && NoDuplicates(arcs)
    ensures 2 * |arcs| <= |nodes| * (|nodes| - 1)
  {
    var n := |order|;
    var pairs := ForwardPairs(n);
    NoDuplicatesSize(order);
    NoDuplicatesSize(arcs);
    ForwardPairsSize(n);
    TriangleDoubled(n);
    forall p: Span
      ensures p in pairs <==> p.from < p.to < n
    {
      ForwardPairsMembers(n, p);
    }
    hide ForwardPairs, Triangle;
    ArcsAtSize(pairs, order);
    forall a | a in Elements(arcs)
      ensures a in ArcsAt(pairs, order)
    {
      var p := SpanOf(order, nodes, arcs, a);
      assert p in pairs && a == Arc(order[p.from], order[p.to]);
    }
    SubsetSize(Elements(arcs), ArcsAt(pairs, order));
  }

  lemma {:induction false} SpanOf(order: seq<Id>, nodes: set<Id>, arcs: seq<Arc>, a: Arc) returns (p: Span)
    requires IsTopological(order, nodes, arcs) && Within(arcs, nodes) && a in arcs
    ensures p.from < p.to < |order| && a == Arc(order[p.from], order[p.to])
  {
    assert a.source in Elements(order) && a.target in Elements(order);
    var i: nat :| i < |order| && order[i] == a.source;
    var j: nat :| j < |order| && order[j] == a.target;
    assert a == Arc(order[i], order[j]);
    p := Span(i, j);
  }
}
