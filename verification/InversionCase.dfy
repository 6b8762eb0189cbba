/** A plan that the search builds and the scheduler accepts, and whose schedule runs a later node
before an earlier one it interferes with. Version 1 makes what 2 and 4 need, 2 makes what 3 needs,
and 3 and 4 write the same resource with no dependency between them. */
module InversionCase {
  import opened Identifiers
  import opened Sorting
  import opened Digraph
  import opened Compatibility
  import opened Planning
  import opened SearchStates
  import opened Reachability
  import opened CompatibilityGraph
  import opened ParallelSchedule
  import opened Execution
  import opened ScheduleMeaning
  import opened PlaceOrder
  import opened Scheduling

  const BASE := Resource(1, 1, 31)
  const MIDDLE := Resource(1, 1, 32)
  const CONTESTED := Resource(1, 1, 33)
  const NEEDS_BASE := Requirement(11, BASE, 1, [])
  const NEEDS_MIDDLE := Requirement(12, MIDDLE, 1, [])

  const FIRST := Candidate(1, [], [Provision(21, BASE, 1, [])])
  const SECOND := Candidate(2, [NEEDS_BASE], [Provision(22, MIDDLE, 1, [])])
  const THIRD := Candidate(3, [NEEDS_MIDDLE], [Provision(23, CONTESTED, 1, [])])
  const FOURTH := Candidate(4, [NEEDS_BASE], [Provision(24, CONTESTED, 1, [])])

  /** Reads and writes as the issuer derives them: the identities required and provided. */
  const FACTS := map[1 := ParallelFacts([], [31], [], [], false, false),
                     2 := ParallelFacts([31], [32], [], [], false, false),
                     3 := ParallelFacts([32], [33], [], [], false, false), 4 := ParallelFacts([31], [33], [], [], false,
                         false)]

  const ONE_TO_TWO := Edge(51, 1, 2, [21], [11])
  const ONE_TO_FOUR := Edge(52, 1, 4, [21], [11])
  const TWO_TO_THREE := Edge(53, 2, 3, [22], [12])
  const EDGES := [ONE_TO_TWO, ONE_TO_FOUR, TWO_TO_THREE]
  const ARCS := [Arc(1, 2), Arc(1, 4), Arc(2, 3)]

  function Member(contract: Candidate, goals: seq<Id>): (c: PlannerCandidate)
    requires contract.version in FACTS
  {
    PlannerCandidate(contract, true, goals, FACTS[contract.version], 0, true, 1, 1)
  }

  const MEMBERS := map[1 := Member(FIRST, []), 2 := Member(SECOND, []), 3 := Member(THIRD, [7]),
                       4 := Member(FOURTH, [8])]
  const REQUEST := Problem(Manifest(4, 2, 1, 6, 4, 4, 0, 4, 64, 256, 0, 0, 2, 2, 8), EDGES, [7, 8], [], MEMBERS,
                           [1, 2, 3, 4])
  const ALL: set<Id> := {1, 2, 3, 4}
  const PLAN_ORDER: seq<Id> := [1, 2, 3, 4]

  // ----- the request is one the builder and the planner accept

  predicate GoodMember(v: Id, c: PlannerCandidate)
  {
    && c.contract.version == v && c.toolCost == 1 && c.risk == 1 && c.evidence == 0 && c.seed && c.observed
    && ValidInterface(c.contract) && |c.contract.requirements| + |c.contract.provisions| <= 2
  }

  lemma {:induction false} GoodMembers()
    ensures GoodMember(1, Member(FIRST, [])) && GoodMember(2, Member(SECOND, []))
    ensures GoodMember(3, Member(THIRD, [7])) && GoodMember(4, Member(FOURTH, [8]))
  {
  }

  lemma {:induction false} MembersAre()
    ensures MEMBERS.Keys == ALL && |MEMBERS| == 4 && forall v :: v in MEMBERS ==> GoodMember(v, MEMBERS[v])
  {
    GoodMembers();
    hide GoodMember, Member;
    assert MEMBERS.Keys == ALL && |ALL| == 4;
  }

  lemma {:induction false} Assembled(p: Problem)
    requires ValidManifest(p.manifest) && ValidEdges(p.edges) && p.byVersion.Keys == ALL
             && |p.byVersion| == 4 <= p.manifest.maximumCandidates
    requires StrictlySorted(p.goals) && StrictlySorted(p.satisfied) && StrictlySorted(p.seeds)
    requires 0 < |p.goals| <= p.manifest.maximumGoals && |p.satisfied| <= p.manifest.maximumSatisfied && 0 < |p.seeds|
    requires forall e :: e in p.edges ==> e.source in ALL && e.target in ALL
    requires forall v :: v in p.byVersion ==> GoodMember(v, p.byVersion[v])
    requires Elements(p.seeds) == set v | v in p.byVersion && p.byVersion[v].seed
    ensures ValidProblem(p) && EntriesBounded(p)
  {
    hide ValidManifest, ValidEdges, StrictlySorted, ValidInterface, Elements;
  }

  lemma {:induction false} RequestValid()
    ensures ValidProblem(REQUEST) && EntriesBounded(REQUEST)
  {
    hide ValidProblem, EntriesBounded, MEMBERS, EDGES, ValidEdges, ValidInterface, Elements, GoodMember;
    MembersAre();
    EdgesValid();
    EdgesInside();
    SeedsAre();
    Assembled(REQUEST);
  }

  lemma {:induction false} SeedsAre()
    ensures Elements(REQUEST.seeds) == set v | v in REQUEST.byVersion && REQUEST.byVersion[v].seed
  {
    MembersAre();
    hide MEMBERS, EDGES, ValidInterface;
    assert Elements([1, 2, 3, 4]) == ALL;
    assert (set v | v in REQUEST.byVersion && REQUEST.byVersion[v].seed) == ALL;
  }

  lemma {:induction false} EdgesInside()
    ensures forall e :: e in EDGES ==> e.source in ALL && e.target in ALL
  {
  }

  lemma {:induction false} EdgesValid()
    ensures ValidEdges(EDGES)
  {
    assert forall e :: e in EDGES ==> e == ONE_TO_TWO || e == ONE_TO_FOUR || e == TWO_TO_THREE;
  }

  lemma {:induction false} HitsAre(q: Quad)
    ensures q in AllQuads(Contracts(REQUEST)) && Hit(q, []) <==> IsHit(q)
  {
    assert 1 in MEMBERS && 2 in MEMBERS && 3 in MEMBERS && 4 in MEMBERS;
    assert Contracts(REQUEST) == {FIRST, SECOND, THIRD, FOURTH};
    assert FIRST.provisions[0] in FIRST.provisions && SECOND.provisions[0] in SECOND.provisions;
    assert NEEDS_BASE in SECOND.requirements && NEEDS_BASE in FOURTH.requirements && NEEDS_MIDDLE in THIRD.requirements;
  }

  ghost predicate IsHit(q: Quad)
  {
    || q == Quad(FIRST, FIRST.provisions[0], SECOND, NEEDS_BASE)
    || q == Quad(FIRST, FIRST.provisions[0], FOURTH, NEEDS_BASE)
    || q == Quad(SECOND, SECOND.provisions[0], THIRD, NEEDS_MIDDLE)
  }

  lemma {:induction false} PairIds(quads: set<Quad>, q: Quad)
    requires forall x :: x in quads && Hit(x, []) <==> IsHit(x)
    requires IsHit(q)
    ensures var pair := PairOf(q);
            pair in Collect(quads, []) && Collect(quads, [])[pair] == Match({q.provision.id}, {q.requirement.id})
  {
    hide Hit;
    var pair := PairOf(q);
    forall x | x in quads && Hit(x, []) && PairOf(x) == pair
      ensures x == q
    {
      assert IsHit(x);
    }
    hide IsHit;
    assert pair in HitPairs(quads, []);
    assert ProvisionIds(quads, [], pair) == {q.provision.id} && RequirementIds(quads, [], pair) == {q.requirement.id};
  }

  lemma {:induction false} PairsAre(quads: set<Quad>, pair: VersionPair)
    requires forall x :: x in quads && Hit(x, []) <==> IsHit(x)
    requires pair in Collect(quads, [])
    ensures pair == VersionPair(1, 2) || pair == VersionPair(1, 4) || pair == VersionPair(2, 3)
  {
    hide Hit;
    assert pair in HitPairs(quads, []);
    var q :| q in quads && Hit(q, []) && PairOf(q) == pair;
    assert IsHit(q);
  }

  lemma {:induction false} RequestBuilt()
    ensures BuiltFrom(REQUEST, [])
  {
    var quads := AllQuads(Contracts(REQUEST));
    forall q ensures q in quads && Hit(q, []) <==> IsHit(q) {
      HitsAre(q);
    }
    hide AllQuads, Hit, Collect, MEMBERS;
    PairIds(quads, Quad(FIRST, FIRST.provisions[0], SECOND, NEEDS_BASE));
    PairIds(quads, Quad(FIRST, FIRST.provisions[0], FOURTH, NEEDS_BASE));
    PairIds(quads, Quad(SECOND, SECOND.provisions[0], THIRD, NEEDS_MIDDLE));
    var matches := Collect(quads, []);
    forall pair | pair in matches
      ensures pair == VersionPair(1, 2) || pair == VersionPair(1, 4) || pair == VersionPair(2, 3)
    {
      PairsAre(quads, pair);
    }
    EdgesMatch(matches);
  }

  lemma {:induction false} EdgesMatch(matches: map<VersionPair, Match>)
    requires forall pair :: pair in matches <==>
                 pair == VersionPair(1, 2) || pair == VersionPair(1, 4) || pair == VersionPair(2, 3)
    requires matches[VersionPair(1, 2)] == Match({21}, {11}) && matches[VersionPair(1, 4)] == Match({21}, {11})
    requires matches[VersionPair(2, 3)] == Match({22}, {12})
    ensures GraphOf(EDGES, matches)
  {
    assert Elements([21]) == {21} && Elements([22]) == {22} && Elements([11]) == {11} && Elements([12]) == {12};
    assert EdgeOf(ONE_TO_TWO, matches) && EdgeOf(ONE_TO_FOUR, matches) && EdgeOf(TWO_TO_THREE, matches);
    hide EdgeOf;
    assert ONE_TO_TWO == EDGES[0] && ONE_TO_FOUR == EDGES[1] && TWO_TO_THREE == EDGES[2];
  }

  // ----- the plan

  /** Arcs that only go up leave no cycle, and the least order is the sorted one. */
  ghost predicate Ascending(arcs: seq<Arc>)
  {
    forall a :: a in arcs ==> a.source < a.target
  }

  lemma {:induction false} AscendingWalk(w: seq<Id>, nodes: set<Id>, arcs: seq<Arc>)
    requires Ascending(arcs) && IsWalk(w, nodes, arcs) && |w| >= 2
    ensures w[0] < w[|w| - 1]
  {
    assert Arc(w[0], w[0 + 1]) in arcs;
    if |w| > 2 {
      var tail := w[1..];
      assert forall i :: 0 <= i < |tail| ==> tail[i] == w[i + 1];
      AscendingWalk(tail, nodes, arcs);
    }
  }

  lemma {:induction false} AscendingAcyclic(nodes: set<Id>, arcs: seq<Arc>)
    requires Ascending(arcs)
    ensures !Cyclic(nodes, arcs)
  {
    forall w | |w| >= 2 && IsWalk(w, nodes, arcs)
      ensures w[0] != w[|w| - 1]
    {
      AscendingWalk(w, nodes, arcs);
    }
  }

  lemma {:induction false} LeastIsFree(nodes: set<Id>, arcs: seq<Arc>)
    requires Ascending(arcs) && nodes != {}
    ensures KahnOrder(nodes, arcs) == [MinOf(nodes)] + KahnOrder(nodes - {MinOf(nodes)}, arcs)
  {
    var least := MinOf(nodes);
    var free := set n | n in nodes && Free(n, nodes, arcs);
    assert Free(least, nodes, arcs);
    assert least in free;
    assert MinOf(free) == least;
  }

  lemma {:induction false} NoOrder(arcs: seq<Arc>)
    ensures KahnOrder({}, arcs) == []
  {
    var nodes: set<Id> := {};
    assert (set n | n in nodes && Free(n, nodes, arcs)) == {};
  }

  lemma {:induction false} Prepended(least: Id, rest: set<Id>, tail: seq<Id>)
    requires StrictlySorted(tail) && Elements(tail) == rest && forall n :: n in rest ==> least < n
    ensures StrictlySorted([least] + tail) && Elements([least] + tail) == {least} + rest
  {
    assert forall i :: 0 <= i < |tail| ==> tail[i] in Elements(tail);
  }

  lemma {:induction false} AscendingSorted(nodes: set<Id>, arcs: seq<Arc>)
    requires Ascending(arcs)
    ensures StrictlySorted(KahnOrder(nodes, arcs)) && Elements(KahnOrder(nodes, arcs)) == nodes
    decreases |nodes|
  {
    hide KahnOrder, Ascending;
    if nodes == {} {
      NoOrder(arcs);
    } else {
      LeastIsFree(nodes, arcs);
      var least := MinOf(nodes);
      var rest := nodes - {least};
      AscendingSorted(rest, arcs);
      Prepended(least, rest, KahnOrder(rest, arcs));
      assert {least} + rest == nodes;
    }
  }

  lemma {:induction false} SelectedFrom(edges: seq<Edge>, chosen: set<Id>)
    ensures forall e :: e in Selected(edges, chosen) ==> e in edges
  {
    if edges != [] {
      SelectedFrom(edges[..|edges| - 1], chosen);
    }
  }

  lemma {:induction false} ChosenAscend(chosen: set<Id>)
    ensures Ascending(ChosenArcs(REQUEST, chosen))
  {
    SelectedFrom(EDGES, chosen);
    var selected := Selected(EDGES, chosen);
    forall a | a in ArcsOf(selected)
      ensures a.source < a.target
    {
      var i :| 0 <= i < |selected| && ArcsOf(selected)[i] == a;
      assert selected[i] in selected && selected[i] in EDGES;
    }
  }

  lemma {:induction false} SumsAre(order: seq<Id>)
    requires Elements(order) <= REQUEST.byVersion.Keys
    ensures BridgeCount(REQUEST, order) == 0 && ToolSum(REQUEST, order) == |order|
  {
    if order != [] {
      assert order[|order| - 1] in Elements(order);
      SumsAre(Init(order));
    }
  }

  lemma {:induction false} AnyFeasible(chosen: set<Id>)
    requires chosen <= ALL
    ensures Feasible(REQUEST, chosen) && StrictlySorted(OrderOf(REQUEST, chosen))
            && Elements(OrderOf(REQUEST, chosen)) == chosen
  {
    ChosenAscend(chosen);
    AscendingAcyclic(chosen, ChosenArcs(REQUEST, chosen));
    AscendingSorted(chosen, ChosenArcs(REQUEST, chosen));
    assert REQUEST.byVersion.Keys == ALL;
    var order := OrderOf(REQUEST, chosen);
    SumsAre(order);
    SortedNoRepeats(order);
    NoDuplicatesSize(order);
    SubsetSize(chosen, ALL);
    assert |ALL| == 4;
  }

  lemma {:induction false} SortedNoRepeats(s: seq<Id>)
    requires StrictlySorted(s)
    ensures NoDuplicates(s)
  {
  }

  lemma {:induction false} AllSelected()
    ensures Selected(EDGES, ALL) == EDGES && ChosenArcs(REQUEST, ALL) == ARCS
  {
    assert EDGES[..2] == [ONE_TO_TWO, ONE_TO_FOUR] && EDGES[..2][..1] == [ONE_TO_TWO] && EDGES[..2][..1][..0] == [];
    assert Selected(EDGES[..2][..1], ALL) == [ONE_TO_TWO];
    assert Selected(EDGES[..2], ALL) == [ONE_TO_TWO, ONE_TO_FOUR];
  }

  lemma {:induction false} OrderIs()
    ensures OrderOf(REQUEST, ALL) == PLAN_ORDER
  {
    AnyFeasible(ALL);
    assert Elements(PLAN_ORDER) == ALL;
    SortedUnique(OrderOf(REQUEST, ALL), PLAN_ORDER);
  }

  /** Until version 4 is in, goal 8 is open. */
  lemma {:induction false} Incomplete(chosen: set<Id>)
    requires chosen <= {1, 2, 3}
    ensures chosen <= REQUEST.byVersion.Keys && !Complete(REQUEST, chosen)
  {
    assert REQUEST.byVersion.Keys == ALL;
    assert 8 in REQUEST.goals && 8 !in CoveredGoals(REQUEST, chosen);
    assert UncoveredGoal(8) in GapsOf(REQUEST, chosen);
  }

  lemma {:induction false} Whole()
    ensures ALL <= REQUEST.byVersion.Keys && Complete(REQUEST, ALL)
    ensures SatisfiedIds(REQUEST, ALL) == {11, 12} && CoveredGoals(REQUEST, ALL) == {7, 8}
  {
    AllSelected();
    assert REQUEST.byVersion.Keys == ALL;
    assert 11 in ONE_TO_TWO.requirements && ONE_TO_TWO == EDGES[0] && 12 in TWO_TO_THREE.requirements
           && TWO_TO_THREE == EDGES[2];
    assert EdgeRequirements(EDGES) == {11, 12};
    assert SatisfiedIds(REQUEST, ALL) == {11, 12};
    assert 7 in REQUEST.goals && 8 in REQUEST.goals && 7 in MEMBERS[3].goals && 8 in MEMBERS[4].goals;
    assert CoveredGoals(REQUEST, ALL) == {7, 8};
    assert RequirementGaps(REQUEST, ALL, {11, 12}) == {};
  }

  lemma {:induction false} WholeProduces()
    ensures ALL <= REQUEST.byVersion.Keys && ProducedIds(REQUEST, ALL) == {21, 22, 23, 24}
  {
    assert REQUEST.byVersion.Keys == ALL;
    assert 1 in ALL && 2 in ALL && 3 in ALL && 4 in ALL;
    assert FIRST.provisions[0] in FIRST.provisions && SECOND.provisions[0] in SECOND.provisions;
    assert THIRD.provisions[0] in THIRD.provisions && FOURTH.provisions[0] in FOURTH.provisions;
    assert ProducedIds(REQUEST, ALL) == {21, 22, 23, 24};
  }

  /** The search grows the plan from version 1, one adjacent version at a time. */
  lemma {:induction false} WholeReachable()
    ensures Reachable(REQUEST, ALL)
  {
    hide Reachable, REQUEST;
    SeedReachable();
    assert ONE_TO_TWO == EDGES[0] && ONE_TO_FOUR == EDGES[1] && TWO_TO_THREE == EDGES[2];
    GrowsBy({1}, 2, ONE_TO_TWO);
    assert {1} + {2} == {1, 2};
    GrowsBy({1, 2}, 3, TWO_TO_THREE);
    assert {1, 2} + {3} == {1, 2, 3};
    GrowsBy({1, 2, 3}, 4, ONE_TO_FOUR);
    assert {1, 2, 3} + {4} == ALL;
  }

  lemma {:induction false} SeedReachable()
    ensures Reachable(REQUEST, {1})
  {
    AnyFeasible({1});
    MembersAre();
    hide Feasible, MEMBERS, EDGES;
    assert 1 in REQUEST.byVersion && REQUEST.byVersion[1].seed;
    assert IsSeedSet(REQUEST, {1});
  }

  lemma {:induction false} GrowsBy(chosen: set<Id>, v: Id, e: Edge)
    requires chosen <= {1, 2, 3} && v in ALL && v !in chosen && Reachable(REQUEST, chosen)
    requires e in EDGES && e.source in chosen && e.target == v
    ensures Reachable(REQUEST, chosen + {v})
  {
    hide Feasible, Complete, MEMBERS, EDGES, Reachable;
    var grown := chosen + {v};
    AnyFeasible(grown);
    Incomplete(chosen);
    assert |{1, 2, 3}| == 3;
    SubsetSize(chosen, {1, 2, 3});
    assert Adjacent(REQUEST.edges, chosen, v);
    assert Extends(REQUEST, chosen, v);
    Grown(chosen, v);
  }

  lemma {:induction false} Grown(chosen: set<Id>, v: Id)
    requires v !in chosen && Reachable(REQUEST, chosen) && Extends(REQUEST, chosen, v)
             && Feasible(REQUEST, chosen + {v})
    ensures Reachable(REQUEST, chosen + {v})
  {
    hide Feasible, Extends, REQUEST;
    assert (chosen + {v}) - {v} == chosen;
  }

  const WHOLE_PLAN := Plan(
    [PlanNode(0, 1, false), PlanNode(1, 2, false), PlanNode(2, 3, false), PlanNode(3, 4, false)], EDGES, [], [11,
        12], [21, 22, 23, 24],
    [7, 8], [7, 8], [1, 2, 3, 4], [], {}, true, 0, true, 4, 4)

  lemma {:induction false} RisksAre(order: seq<Id>)
    requires Elements(order) <= REQUEST.byVersion.Keys
    ensures RiskSum(REQUEST, order) == |order| && WeakestEvidence(REQUEST, order) == if order == [] then MAX_INT64
            else 0
  {
    if order != [] {
      assert order[|order| - 1] in Elements(order);
      RisksAre(Init(order));
    }
  }

  lemma {:induction false} WholeIsPlan()
    ensures ValidProblem(REQUEST) && Feasible(REQUEST, ALL) && IsPlan(REQUEST, ALL, WHOLE_PLAN)
  {
    hide ValidProblem, Feasible, SatisfiedIds, ProducedIds, CoveredGoals, WeakestEvidence, RiskSum, ToolSum,
         BridgeCount, UnobservedEdges, OrderOf, Selected, GapsOf, NodesOf, SelectedKnown, MEMBERS, EDGES, Elements,
         StrictlySorted, SortedBy;
    RequestValid();
    AnyFeasible(ALL);
    OrderIs();
    AllSelected();
    Whole();
    WholeProduces();
    RisksAre(PLAN_ORDER);
    SumsAre(PLAN_ORDER);
    ObservedAll();
    NodesAre();
    ListsAre();
    NoGaps();
  }

  lemma {:induction false} NodesAre()
    ensures Elements(PLAN_ORDER) <= REQUEST.byVersion.Keys && NodesOf(REQUEST, PLAN_ORDER) == WHOLE_PLAN.nodes
  {
    MembersAre();
    hide MEMBERS, EDGES, ValidInterface;
    assert Elements(PLAN_ORDER) == ALL;
  }

  lemma {:induction false} ListsAre()
    ensures Elements(WHOLE_PLAN.satisfied) == {11, 12} && Elements(WHOLE_PLAN.produced) == {21, 22, 23, 24}
            && Elements(WHOLE_PLAN.covered) == {7, 8}
    ensures StrictlySorted(WHOLE_PLAN.satisfied) && StrictlySorted(WHOLE_PLAN.produced)
            && StrictlySorted(WHOLE_PLAN.covered)
  {
  }

  lemma {:induction false} NoGaps()
    ensures SortedBy(GapBefore, WHOLE_PLAN.gaps) && Elements(WHOLE_PLAN.gaps) == {}
  {
  }

  lemma {:induction false} ObservedAll()
    ensures SelectedKnown(REQUEST, EDGES)
    ensures forall v :: v in PLAN_ORDER ==> v in REQUEST.byVersion && REQUEST.byVersion[v].observed
  {
  }

  // ----- its schedule

  const GROUPS: seq<seq<Id>> := [[1], [2, 4], [3]]
  const PLACES: map<Id, nat> := map[1 := 0, 2 := 1, 4 := 1, 3 := 2]

  lemma {:induction false} FactsAre()
    ensures FactsOf(REQUEST) == FACTS
  {
  }

  lemma {:induction false} GroupsPlaced()
    ensures Placed(GROUPS, PLACES)
  {
    assert 1 in [1] && 2 in [2, 4] && 4 in [2, 4] && 3 in [3];
    assert PLACES.Keys == ALL;
  }

  lemma {:induction false} GroupsFree()
    ensures ConflictFree(GROUPS, FACTS)
  {
    assert !Conflict(FACTS[2], FACTS[4]) && !Conflict(FACTS[4], FACTS[2]);
    assert PairwiseFree([1], FACTS) && PairwiseFree([2, 4], FACTS) && PairwiseFree([3], FACTS);
  }

  lemma {:induction false} GroupsFirstFit()
    ensures FirstFit(GROUPS, PLACES, PLAN_ORDER, ARCS, FACTS)
  {
    assert ARCS[0] == Arc(1, 2) && ARCS[1] == Arc(1, 4) && ARCS[2] == Arc(2, 3);
    assert Blocked(GROUPS, PLACES, PLAN_ORDER, ARCS, FACTS, 1, 0);
    assert Blocked(GROUPS, PLACES, PLAN_ORDER, ARCS, FACTS, 2, 0)
           && Blocked(GROUPS, PLACES, PLAN_ORDER, ARCS, FACTS, 2, 1);
    assert Blocked(GROUPS, PLACES, PLAN_ORDER, ARCS, FACTS, 3, 0);
    hide Blocked;
  }

  lemma {:induction false} GroupsInverted()
    ensures Inverted(PLAN_ORDER, PLACES, FACTS, 2, 3)
  {
    assert 33 in WriteSet(FACTS[3]) * WriteSet(FACTS[4]);
    hide WriteSet, ReadSet;
  }

  lemma {:induction false} PlacesNamed()
    ensures PLACES.Keys == Elements(PLAN_ORDER) && Layered(PLACES, ARCS)
  {
    assert Elements(PLAN_ORDER) == ALL && PLACES.Keys == ALL;
  }

  lemma {:induction false} GroupsScheduled()
    ensures Scheduled(GROUPS, PLACES, PLAN_ORDER, ARCS, FACTS)
  {
    hide PLACES, PLAN_ORDER, GROUPS, ARCS, FACTS, Placed, Layered, ConflictFree, FirstFit, Elements;
    GroupsPlaced();
    GroupsFree();
    GroupsFirstFit();
    PlacesNamed();
  }

  /** The search reaches the four versions as a complete plan, the scheduler accepts that plan and
      gives the groups [1], [2, 4], [3], and some procedures within their declarations then leave
      another store than the plan order does. */
  lemma {:induction false} InversionHappens(hash: Plan -> Id)
    ensures ValidProblem(REQUEST) && BuiltFrom(REQUEST, []) && Reachable(REQUEST, ALL)
    ensures IsState(REQUEST, hash, State(WHOLE_PLAN, ALL, hash(WHOLE_PLAN))) && WHOLE_PLAN.complete
    ensures Schedulable(REQUEST.manifest, WHOLE_PLAN, REQUEST.edges, FactsOf(REQUEST))
    ensures Versions(WHOLE_PLAN.nodes) == PLAN_ORDER && ChosenArcs(REQUEST, ALL) == ARCS
    ensures Scheduled(GROUPS, PLACES, PLAN_ORDER, ARCS, FactsOf(REQUEST))
            && !AlwaysLikePlan(GROUPS, PLAN_ORDER, FactsOf(REQUEST))
  {
    RequestValid();
    RequestBuilt();
    WholeReachable();
    WholeIsPlan();
    AllSelected();
    FactsAre();
    GroupsScheduled();
    GroupsInverted();
    hide ValidProblem, BuiltFrom, Reachable, IsPlan, Feasible, Schedulable, Scheduled, Inverted, EntriesBounded,
         IdsAuthentic;
    var s := State(WHOLE_PLAN, ALL, hash(WHOLE_PLAN));
    PlannerPlanSchedulable(REQUEST, [], hash, s, {});
    assert WHOLE_PLAN.(limitCodes := {}) == WHOLE_PLAN;
    assert Versions(WHOLE_PLAN.nodes) == PLAN_ORDER;
    var run, store := InversionShows(GROUPS, PLACES, PLAN_ORDER, ARCS, FACTS, 2, 3);
    assert RunGroups(run, GROUPS, store) != Run(run, PLAN_ORDER, store);
  }
}
