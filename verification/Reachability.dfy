/** Which sets of versions the beam search can build, and what they have in common. */
module Reachability {
  import opened Identifiers
  import opened Sorting
  import opened Digraph
  import opened Kahn
  import opened Planning
  import opened SearchStates

  predicate IsSeedSet(p: Problem, chosen: set<Id>)
  {
    exists v :: v in chosen && v in p.byVersion && p.byVersion[v].seed && chosen == {v}
  }

  /** A state that the search goes on from, and a version it may add. */
  predicate Extends(p: Problem, chosen: set<Id>, v: Id)
  {
    && chosen <= p.byVersion.Keys && !Complete(p, chosen) && |chosen| < p.manifest.maximumProcedures
    && Adjacent(p.edges, chosen, v)
  }

  /** A seed, grown one adjacent version at a time through feasible incomplete sets. */
  ghost predicate Reachable(p: Problem, chosen: set<Id>)
    decreases |chosen|
  {
    && Feasible(p, chosen)
    && (IsSeedSet(p, chosen) || exists v :: v in chosen && Extends(p, chosen - {v}, v) && Reachable(p, chosen - {v}))
  }

  // ----- shape of reachable sets

  /** No way to cut the set in two without cutting a selected edge. */
  ghost predicate WeaklyConnected(p: Problem, chosen: set<Id>)
  {
    forall part {:trigger Bridged(p, part, chosen - part)} :: part < chosen && part != {} ==>
        Bridged(p, part, chosen - part)
  }

  predicate Bridged(p: Problem, left: set<Id>, right: set<Id>)
  {
    exists e :: e in p.edges && ((e.source in left && e.target in right) || (e.source in right && e.target in left))
  }

  predicate HasSeed(p: Problem, chosen: set<Id>)
  {
    exists v :: v in chosen && v in p.byVersion && p.byVersion[v].seed
  }

  lemma {:induction false} SeedConnected(p: Problem, v: Id)
    ensures WeaklyConnected(p, {v})
  {
    forall part | part < {v}
      ensures part == {}
    {
      assert v !in part;
    }
  }

  lemma {:induction false} GrownConnected(p: Problem, rest: set<Id>, v: Id)
    requires WeaklyConnected(p, rest) && Adjacent(p.edges, rest, v)
    ensures WeaklyConnected(p, rest + {v})
  {
    forall part | part < rest + {v} && part != {}
      ensures Bridged(p, part, (rest + {v}) - part)
    {
      CutGrows(p, rest, v, part);
    }
  }

  lemma {:induction false} SeedKept(p: Problem, rest: set<Id>, v: Id)
    requires HasSeed(p, rest)
    ensures HasSeed(p, rest + {v})
  {
    var seed :| seed in rest && seed in p.byVersion && p.byVersion[seed].seed;
    assert seed in rest + {v};
  }

  lemma {:induction false} LastAdded(p: Problem, chosen: set<Id>) returns (v: Id)
    requires Reachable(p, chosen) && !IsSeedSet(p, chosen)
    ensures v in chosen && Reachable(p, chosen - {v}) && Adjacent(p.edges, chosen - {v}, v)
    ensures |chosen - {v}| < p.manifest.maximumProcedures
  {
    v :| v in chosen && Extends(p, chosen - {v}, v) && Reachable(p, chosen - {v});
  }

  lemma {:induction false} SeedShape(p: Problem, chosen: set<Id>)
    requires IsSeedSet(p, chosen)
    ensures HasSeed(p, chosen) && WeaklyConnected(p, chosen) && |chosen| == 1
  {
    var v :| v in chosen && v in p.byVersion && p.byVersion[v].seed && chosen == {v};
    SeedConnected(p, v);
  }

  /** Every reachable set has a seed, hangs together, and is no larger than allowed. */
  lemma {:induction false} ReachableShape(p: Problem, chosen: set<Id>)
    requires p.manifest.maximumProcedures > 0 && Reachable(p, chosen)
    ensures HasSeed(p, chosen) && WeaklyConnected(p, chosen)
    ensures 1 <= |chosen| <= p.manifest.maximumProcedures
    decreases |chosen|
  {
    hide *;
    if IsSeedSet(p, chosen) {
      SeedShape(p, chosen);
    } else {
      var v := LastAdded(p, chosen);
      var rest := chosen - {v};
      ReachableShape(p, rest);
      SeedKept(p, rest, v);
      GrownConnected(p, rest, v);
      assert chosen == rest + {v};
    }
  }

  lemma {:induction false} CutGrows(p: Problem, rest: set<Id>, v: Id, part: set<Id>)
    requires WeaklyConnected(p, rest) && Adjacent(p.edges, rest, v)
    requires part < rest + {v} && part != {}
    ensures Bridged(p, part, (rest + {v}) - part)
  {
    var whole := rest + {v};
    var other := whole - part;
    if part == {v} {
      assert other == rest;
    } else if part == rest {
      assert other == {v};
    } else {
      var inner := part - {v};
      assert inner == rest ==> part == rest || part == whole;
      assert Bridged(p, inner, rest - inner);
      var e :| e in p.edges
          && ((e.source in inner && e.target in rest - inner) || (e.source in rest - inner && e.target in inner));
      assert rest - inner <= other;
    }
  }

  lemma {:induction false} NoneLarger(p: Problem, size: nat, chosen: set<Id>)
    requires size > 0 && forall other :: Reachable(p, other) ==> |other| != size
    requires |chosen| >= size
    ensures !Reachable(p, chosen)
    decreases |chosen|
  {
    if |chosen| > size {
      assert IsSeedSet(p, chosen) ==> |chosen| == 1;
      forall v | v in chosen
        ensures !Reachable(p, chosen - {v})
      {
        NoneLarger(p, size, chosen - {v});
      }
    }
  }

  // ----- states

  lemma {:induction false} OrderHolds(p: Problem, chosen: set<Id>)
    requires ValidProblem(p) && Feasible(p, chosen)
    ensures IsTopological(OrderOf(p, chosen), chosen, ChosenArcs(p, chosen))
    ensures |OrderOf(p, chosen)| == |chosen|
  {
    KahnFinished(chosen, ChosenArcs(p, chosen));
  }

  /** A set of versions has only one state. */
  lemma {:induction false} StateUnique(p: Problem, hash: Plan -> Id, a: State, b: State)
    requires ValidProblem(p) && IsState(p, hash, a) && IsState(p, hash, b) && a.nodes == b.nodes
    ensures a == b
  {
    SortedUnique(a.plan.satisfied, b.plan.satisfied);
    SortedUnique(a.plan.produced, b.plan.produced);
    SortedUnique(a.plan.covered, b.plan.covered);
    GapsAreOrdered(GapsOf(p, a.nodes));
    SortedByUnique(GapBefore, a.plan.gaps, b.plan.gaps);
  }

  /** States with one hash are one state, since the hash is injective and the plan lists its nodes. */
  lemma {:induction false} HashDetermines(p: Problem, hash: Plan -> Id, a: State, b: State)
    requires ValidProblem(p) && Injective(hash) && IsState(p, hash, a) && IsState(p, hash, b) && a.hash == b.hash
    ensures a == b
  {
    OrderHolds(p, a.nodes);
    OrderHolds(p, b.nodes);
    var order, other := OrderOf(p, a.nodes), OrderOf(p, b.nodes);
    assert |order| == |NodesOf(p, order)| == |other|;
    forall i | 0 <= i < |order|
      ensures order[i] == other[i]
    {
      assert NodesOf(p, order)[i].version == order[i] && NodesOf(p, other)[i].version == other[i];
    }
    assert order == other;
  }

  lemma {:induction false} StatesOrdered(p: Problem, hash: Plan -> Id, states: set<State>)
    requires ValidProblem(p) && Injective(hash) && forall s :: s in states ==> IsState(p, hash, s)
    ensures Orders(Better, states)
  {
    forall a, b | a in states && b in states
      ensures Better(a, b) ==> !Better(b, a)
      ensures a != b ==> Better(a, b) || Better(b, a)
    {
      BetterDecides(a, b);
      if a.hash == b.hash {
        HashDetermines(p, hash, a, b);
      }
    }
    forall a, b, c | a in states && b in states && c in states && Better(a, b) && Better(b, c)
      ensures Better(a, c)
    {
      BetterTransitive(a, b, c);
    }
  }

  lemma {:induction false} AtLeastTransitive(a: State, b: State, c: State)
    requires AtLeast(a, b) && AtLeast(b, c)
    ensures AtLeast(a, c)
  {
    if a != b && b != c {
      BetterTransitive(a, b, c);
    }
  }
}
