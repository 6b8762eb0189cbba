/** The two imperative forms of Kahn's algorithm: the planner's, with a ready list
that is kept sorted, and the causal graph builder's, with a plain queue. */
module Kahn {
  import opened Identifiers
  import opened Digraph

  datatype OrderResult = Ordered(order: seq<Id>) | CycleError

  /** How many arcs lead from `sources` to t, with multiplicity. */
  function CountInto(arcs: seq<Arc>, sources: set<Id>, t: Id): (n: nat)
  {
    if arcs == [] then 0 else
      var last := arcs[|arcs| - 1];
      CountInto(arcs[..|arcs| - 1], sources, t)
      + (if last.source in sources && last.target == t then 1 else 0)
  }

  /** The adjacency list of s. */
  function TargetsOf(arcs: seq<Arc>, s: Id): (ts: seq<Id>)
  {
    if arcs == [] then [] else
      var last := arcs[|arcs| - 1];
      TargetsOf(arcs[..|arcs| - 1], s) + (if last.source == s then [last.target] else [])
  }

  function FreeNodes(rest: set<Id>, arcs: seq<Arc>): (free: set<Id>)
  {
    set n | n in rest && Free(n, rest, arcs)
  }

  lemma {:induction false} CountZero(arcs: seq<Arc>, sources: set<Id>, t: Id)
    ensures CountInto(arcs, sources, t) == 0 <==> forall a :: a in arcs && a.target == t ==> a.source !in sources
  {
    if arcs != [] {
      var init := arcs[..|arcs| - 1];
      CountZero(init, sources, t);
      assert arcs == init + [arcs[|arcs| - 1]];
    }
  }

  lemma {:induction false} CountSplit(arcs: seq<Arc>, sources: set<Id>, x: Id, t: Id)
    requires x in sources
    ensures CountInto(arcs, sources, t) == CountInto(arcs, sources - {x}, t) + multiset(TargetsOf(arcs, x))[t]
  {
    if arcs != [] {
      CountSplit(arcs[..|arcs| - 1], sources, x, t);
    }
  }

  lemma {:induction false} TargetsAreArcs(arcs: seq<Arc>, s: Id)
    ensures forall t :: t in TargetsOf(arcs, s) <==> Arc(s, t) in arcs
  {
    if arcs != [] {
      var init := arcs[..|arcs| - 1];
      TargetsAreArcs(init, s);
      assert arcs == init + [arcs[|arcs| - 1]];
    }
  }

  /** Arcs into removed nodes come from removed nodes. */
  predicate Closed(rest: set<Id>, arcs: seq<Arc>)
  {
    forall a :: a in arcs && a.target !in rest ==> a.source !in rest
  }

  predicate Counted(indegree: map<Id, int>, rest: set<Id>, arcs: seq<Arc>)
  {
    rest <= indegree.Keys && forall n :: n in rest ==> indegree[n] == CountInto(arcs, rest, n)
  }

  /** Part way through the targets of a removed node. */
  predicate Counting(indegree: map<Id, int>, rest: set<Id>, arcs: seq<Arc>, pending: seq<Id>)
  {
    rest <= indegree.Keys
    && forall n :: n in rest ==> indegree[n] == CountInto(arcs, rest, n) + multiset(pending)[n]
  }

  predicate ZeroNodes(ready: set<Id>, indegree: map<Id, int>, rest: set<Id>)
    requires rest <= indegree.Keys
  {
    ready == set n | n in rest && indegree[n] == 0
  }

  lemma {:induction false} ZeroIsFree(indegree: map<Id, int>, rest: set<Id>, arcs: seq<Arc>, ready: set<Id>)
    requires Counted(indegree, rest, arcs)
    ensures ZeroNodes(ready, indegree, rest) <==> ready == FreeNodes(rest, arcs)
  {
    forall n | n in rest
      ensures indegree[n] == 0 <==> Free(n, rest, arcs)
    {
      CountZero(arcs, rest, n);
    }
    assert (set n | n in rest && indegree[n] == 0) == FreeNodes(rest, arcs);
  }

  /** Taking a free node out leaves its targets to be counted down. */
  lemma {:induction false} RemoveFree(indegree: map<Id, int>, rest: set<Id>, arcs: seq<Arc>, node: Id)
    requires Counted(indegree, rest, arcs) && Closed(rest, arcs) && Free(node, rest, arcs)
    ensures Counting(indegree, rest - {node}, arcs, TargetsOf(arcs, node))
    ensures forall t :: t in TargetsOf(arcs, node) ==> t in rest - {node}
    ensures Closed(rest - {node}, arcs)
  {
    forall n | n in rest - {node}
      ensures indegree[n] == CountInto(arcs, rest - {node}, n) + multiset(TargetsOf(arcs, node))[n]
    {
      CountSplit(arcs, rest, node, n);
    }
    TargetsAreArcs(arcs, node);
  }

  lemma {:induction false} CountDown(indegree: map<Id, int>, rest: set<Id>, arcs: seq<Arc>, pending: seq<Id>)
    requires Counting(indegree, rest, arcs, pending) && pending != [] && pending[0] in rest
    ensures indegree[pending[0]] > 0
    ensures Counting(indegree[pending[0] := indegree[pending[0]] - 1], rest, arcs, pending[1..])
  {
    assert pending == [pending[0]] + pending[1..];
    assert multiset(pending) == multiset{pending[0]} + multiset(pending[1..]);
  }

  predicate Tabulated(indegree: map<Id, int>, adjacency: map<Id, seq<Id>>, nodes: set<Id>, arcs: seq<Arc>)
  {
    && indegree.Keys == nodes && adjacency.Keys == nodes
    && (forall n :: n in nodes ==> indegree[n] == CountInto(arcs, nodes, n))
    && (forall n :: n in nodes ==> adjacency[n] == TargetsOf(arcs, n))
  }

  lemma {:induction false} TabulateStep(indegree: map<Id, int>, adjacency: map<Id, seq<Id>>, nodes: set<Id>,
                                        arcs: seq<Arc>, arc: Arc)
    requires Tabulated(indegree, adjacency, nodes, arcs) && arc.source in nodes && arc.target in nodes
    ensures Tabulated(indegree[arc.target := indegree[arc.target] + 1],
                      adjacency[arc.source := adjacency[arc.source] + [arc.target]], nodes, arcs + [arc])
  {
    assert (arcs + [arc])[..|arcs|] == arcs;
  }

  /** Counts arcs into each node and lists arcs out of it. */
  method Tabulate(nodes: set<Id>, arcs: seq<Arc>) returns (indegree: map<Id, int>, adjacency: map<Id, seq<Id>>)
    requires Within(arcs, nodes)
    ensures Tabulated(indegree, adjacency, nodes, arcs)
  {
    indegree := map n | n in nodes :: 0;
    adjacency := map n | n in nodes :: [];
    for i := 0 to |arcs|
      invariant Tabulated(indegree, adjacency, nodes, arcs[..i])
    {
      var arc := arcs[i];
      assert arc in arcs;
      assert arcs[..i + 1] == arcs[..i] + [arc];
      TabulateStep(indegree, adjacency, nodes, arcs[..i], arc);
      indegree := indegree[arc.target := indegree[arc.target] + 1];
      adjacency := adjacency[arc.source := adjacency[arc.source] + [arc.target]];
    }
    assert arcs[..|arcs|] == arcs;
  }

  /** Lowers the counts of the targets of a removed node and returns, in order of
      discovery, the nodes whose count reached zero. */
  method CountDownTargets(targets: seq<Id>, before: map<Id, int>, ghost rest: set<Id>, ghost arcs: seq<Arc>)
    returns (indegree: map<Id, int>, freed: seq<Id>)
    requires Counting(before, rest, arcs, targets) && forall t :: t in targets ==> t in rest
    ensures indegree.Keys == before.Keys && Counted(indegree, rest, arcs)
    ensures NoDuplicates(freed)
    ensures forall n :: n in freed <==> n in rest && before[n] != 0 && indegree[n] == 0
    ensures forall n :: n in rest && before[n] == 0 ==> indegree[n] == 0
  {
    indegree, freed := before, [];
    var k := 0;
    while k < |targets|
      invariant 0 <= k <= |targets|
      invariant indegree.Keys == before.Keys && Counting(indegree, rest, arcs, targets[k..])
      invariant NoDuplicates(freed)
      invariant forall n :: n in freed <==> n in rest && before[n] != 0 && indegree[n] == 0
      invariant forall n :: n in rest && before[n] == 0 ==> indegree[n] == 0
    {
      var target := targets[k];
      assert target in targets;
      assert targets[k..][1..] == targets[k + 1..] && targets[k..][0] == target;
      CountDown(indegree, rest, arcs, targets[k..]);
      indegree := indegree[target := indegree[target] - 1];
      if indegree[target] == 0 {
        freed := freed + [target];
      }
      k := k + 1;
    }
  }

  /** What holds between iterations: counts are right for the remaining nodes and
      the ready set is exactly the free ones. */
  predicate KahnState(rest: set<Id>, ready: set<Id>, indegree: map<Id, int>, arcs: seq<Arc>)
  {
    Counted(indegree, rest, arcs) && Closed(rest, arcs) && ready == FreeNodes(rest, arcs)
  }

  lemma {:induction false} KahnTake(rest: set<Id>, ready: set<Id>, indegree: map<Id, int>, arcs: seq<Arc>, node: Id)
    requires KahnState(rest, ready, indegree, arcs) && node in ready
    ensures Counting(indegree, rest - {node}, arcs, TargetsOf(arcs, node))
    ensures forall t :: t in TargetsOf(arcs, node) ==> t in rest - {node}
    ensures ZeroNodes(ready - {node}, indegree, rest - {node})
    ensures Closed(rest - {node}, arcs)
  {
    ZeroIsFree(indegree, rest, arcs, ready);
    RemoveFree(indegree, rest, arcs, node);
  }

  /** What a finished run of the planner's loop has computed. */
  lemma {:induction false} KahnFinished(nodes: set<Id>, arcs: seq<Arc>)
    ensures |KahnOrder(nodes, arcs)| == |nodes| <==> !Cyclic(nodes, arcs)
    ensures |KahnOrder(nodes, arcs)| == |nodes| ==> IsLeastTopological(KahnOrder(nodes, arcs), nodes, arcs)
  {
    KahnCompleteIffAcyclic(nodes, arcs);
    if |KahnOrder(nodes, arcs)| == |nodes| {
      KahnTopological(nodes, arcs);
      forall other | IsTopological(other, nodes, arcs)
        ensures LexAtMost(KahnOrder(nodes, arcs), other)
      {
        KahnIsLeast(nodes, arcs, other);
      }
    }
  }

  /** The planner's topologicalOrder. */
  method TopologicalOrder(nodes: set<Id>, arcs: seq<Arc>) returns (result: OrderResult)
    requires Within(arcs, nodes)
    ensures result.CycleError? <==> Cyclic(nodes, arcs)
    ensures result.Ordered? ==> result.order == KahnOrder(nodes, arcs) && IsLeastTopological(result.order, nodes, arcs)
  {
    var indegree, adjacency := Tabulate(nodes, arcs);
    var ready := SortedSet(set n | n in nodes && indegree[n] == 0);
    ZeroIsFree(indegree, nodes, arcs, Elements(ready));
    var ordered := [];
    ghost var rest := nodes;
    while |ready| > 0
      invariant rest <= nodes
      invariant ordered + KahnOrder(rest, arcs) == KahnOrder(nodes, arcs)
      invariant KahnState(rest, Elements(ready), indegree, arcs) && StrictlySorted(ready)
      decreases rest
    {
      var node := ready[0];
      LeastIsFirst(ready);
      KahnTake(rest, Elements(ready), indegree, arcs, node);
      KahnUnfold(rest, arcs, ordered, node);
      ready := ready[1..];
      ordered := ordered + [node];
      rest := rest - {node};
      ready, indegree := ReleaseSorted(ready, adjacency[node], indegree, rest, arcs);
    }
    assert FreeNodes(rest, arcs) == {};
    assert KahnOrder(rest, arcs) == [];
    KahnFinished(nodes, arcs);
    if |ordered| != |nodes| {
      return CycleError;
    }
    return Ordered(ordered);
  }

  lemma {:induction false} KahnUnfold(rest: set<Id>, arcs: seq<Arc>, ordered: seq<Id>, node: Id)
    requires FreeNodes(rest, arcs) != {} && node == MinOf(FreeNodes(rest, arcs))
    ensures ordered + KahnOrder(rest, arcs) == (ordered + [node]) + KahnOrder(rest - {node}, arcs)
  {
    assert KahnOrder(rest, arcs) == [node] + KahnOrder(rest - {node}, arcs);
  }

  lemma {:induction false} LeastIsFirst(ready: seq<Id>)
    requires StrictlySorted(ready) && ready != []
    ensures ready[0] in Elements(ready)
    ensures Elements(ready) != {} && MinOf(Elements(ready)) == ready[0]
    ensures Elements(ready[1..]) == Elements(ready) - {ready[0]}
    ensures StrictlySorted(ready[1..])
  {
    assert ready[0] in Elements(ready);
    assert ready == [ready[0]] + ready[1..];
  }

  /** Counts down the targets and puts each freed node into the sorted ready list. */
  method ReleaseSorted(before: seq<Id>, targets: seq<Id>, counts: map<Id, int>, ghost rest: set<Id>,
                       ghost arcs: seq<Arc>)
    returns (ready: seq<Id>, indegree: map<Id, int>)
    requires Counting(counts, rest, arcs, targets) && forall t :: t in targets ==> t in rest
    requires StrictlySorted(before) && ZeroNodes(Elements(before), counts, rest)
    ensures Counted(indegree, rest, arcs)
    ensures StrictlySorted(ready) && Elements(ready) == FreeNodes(rest, arcs)
  {
    var freed;
    indegree, freed := CountDownTargets(targets, counts, rest, arcs);
    ready := before;
    var k := 0;
    while k < |freed|
      invariant 0 <= k <= |freed|
      invariant StrictlySorted(ready) && Elements(ready) == Elements(before) + Elements(freed[..k])
    {
      assert freed[k] in freed;
      assert freed[k] !in Elements(before) && freed[k] !in freed[..k];
      ready := InsertSorted(ready, freed[k]);
      assert freed[..k + 1] == freed[..k] + [freed[k]];
      k := k + 1;
    }
    assert freed[..|freed|] == freed;
    ZeroIsFree(indegree, rest, arcs, Elements(ready));
  }

  /** Taking out a free node neither breaks nor makes a cycle. */
  lemma {:induction false} FreeNotOnCycle(rest: set<Id>, arcs: seq<Arc>, node: Id)
    requires Free(node, rest, arcs)
    ensures Cyclic(rest, arcs) <==> Cyclic(rest - {node}, arcs)
  {
    if Cyclic(rest - {node}, arcs) {
      CyclicMonotone(rest - {node}, rest, arcs, arcs);
    }
    if Cyclic(rest, arcs) {
      var w :| IsCycle(w, rest, arcs);
      forall i | 0 <= i < |w|
        ensures w[i] != node
      {
        var p := if i > 0 then i - 1 else |w| - 2;
        assert Arc(w[p], w[p + 1]) in arcs && w[p] in rest;
      }
      assert IsCycle(w, rest - {node}, arcs);
    }
  }

  /** The causal graph builder's hasCycle: a first-in first-out queue, and a count
      of the nodes taken from it. */
  method HasCycle(nodes: seq<Id>, arcs: seq<Arc>) returns (cyclic: bool)
    requires NoDuplicates(nodes) && Within(arcs, Elements(nodes))
    ensures cyclic <==> Cyclic(Elements(nodes), arcs)
  {
    var indegree, adjacency := Tabulate(Elements(nodes), arcs);
    var queue := ZeroQueue(nodes, indegree);
    NoDuplicatesSize(nodes);
    var visited := 0;
    ghost var rest := Elements(nodes);
    ZeroIsFree(indegree, rest, arcs, Elements(queue));
    while |queue| > 0
      invariant rest <= Elements(nodes)
      invariant visited + |rest| == |nodes|
      invariant Cyclic(rest, arcs) <==> Cyclic(Elements(nodes), arcs)
      invariant KahnState(rest, Elements(queue), indegree, arcs) && NoDuplicates(queue)
      decreases rest
    {
      var id := queue[0];
      FirstOf(queue);
      KahnTake(rest, Elements(queue), indegree, arcs, id);
      FreeNotOnCycle(rest, arcs, id);
      queue := queue[1..];
      visited := visited + 1;
      rest := rest - {id};
      queue, indegree := ReleaseQueued(queue, adjacency[id], indegree, rest, arcs);
    }
    cyclic := visited != |nodes|;
    EmptyQueue(rest, arcs);
  }

  lemma {:induction false} FirstOf(queue: seq<Id>)
    requires NoDuplicates(queue) && queue != []
    ensures queue[0] in Elements(queue)
    ensures Elements(queue[1..]) == Elements(queue) - {queue[0]} && NoDuplicates(queue[1..])
  {
    assert queue == [queue[0]] + queue[1..];
  }

  /** With nothing left to take, what remains is empty or cyclic. */
  lemma {:induction false} EmptyQueue(rest: set<Id>, arcs: seq<Arc>)
    requires FreeNodes(rest, arcs) == {}
    ensures Cyclic(rest, arcs) <==> rest != {}
  {
    assert forall n :: n in rest && Free(n, rest, arcs) ==> n in FreeNodes(rest, arcs);
    if rest != {} {
      StuckIsCyclic(rest, arcs);
    } else {
      assert forall w :: |w| >= 2 && IsWalk(w, rest, arcs) ==> w[0] in rest;
    }
  }

  /** The nodes with no incoming arc, in the order listed. */
  method ZeroQueue(nodes: seq<Id>, indegree: map<Id, int>) returns (queue: seq<Id>)
    requires NoDuplicates(nodes) && Elements(nodes) <= indegree.Keys
    ensures NoDuplicates(queue) && ZeroNodes(Elements(queue), indegree, Elements(nodes))
  {
    queue := [];
    for i := 0 to |nodes|
      invariant NoDuplicates(queue)
      invariant forall n :: n in queue <==> n in nodes[..i] && n in indegree && indegree[n] == 0
    {
      assert nodes[i] in Elements(nodes);
      assert nodes[..i + 1] == nodes[..i] + [nodes[i]];
      if indegree[nodes[i]] == 0 {
        queue := queue + [nodes[i]];
      }
    }
    assert nodes[..|nodes|] == nodes;
  }

  method ReleaseQueued(before: seq<Id>, targets: seq<Id>, counts: map<Id, int>, ghost rest: set<Id>,
                       ghost arcs: seq<Arc>)
    returns (queue: seq<Id>, indegree: map<Id, int>)
    requires Counting(counts, rest, arcs, targets) && forall t :: t in targets ==> t in rest
    requires NoDuplicates(before) && ZeroNodes(Elements(before), counts, rest)
    ensures Counted(indegree, rest, arcs)
    ensures NoDuplicates(queue) && Elements(queue) == FreeNodes(rest, arcs)
  {
    var freed;
    indegree, freed := CountDownTargets(targets, counts, rest, arcs);
    queue := before + freed;
    forall i, j | 0 <= i < |before| && 0 <= j < |freed|
      ensures before[i] != freed[j]
    {
      assert before[i] in Elements(before) && freed[j] in freed;
    }
    ElementsAppend(before, freed);
    ZeroIsFree(indegree, rest, arcs, Elements(queue));
  }
}
