/** A complete plan, returned by the planner, one of whose procedures needs what only it makes. */
module SelfProvisionCase {
  import opened Identifiers
  import opened Digraph
  import opened Kahn
  import opened Compatibility
  import opened Planning
  import opened SearchStates
  import opened Reachability
  import opened CompatibilityGraph
  import opened SearchLimits
  import opened PlanRequests
  import opened Planner

  const SHARED := Requirement(10, Resource(1, 1, 1), 1, [])
  const MADE := Provision(20, Resource(1, 1, 1), 1, [])
  const NO_FACTS := ParallelFacts([], [], [], [], false, false)
  const MAKER := PlannerCandidate(Candidate(1, [SHARED], [MADE]), true, [7], NO_FACTS, 0, true, 1, 1)
  const USER := PlannerCandidate(Candidate(2, [SHARED], []), true, [], NO_FACTS, 0, true, 1, 1)
  const EXAMPLE := Problem(Manifest(2, 1, 1, 2, 2, 2, 0, 2, 4, 64, 0, 0, 1, 1, 1), [Edge(5, 1, 2, [20], [10])], [7], [],
                           map[1 := MAKER, 2 := USER], [1, 2])

  /** A procedure that needs what only it makes counts as satisfied once another
      procedure needs the same thing. */
  lemma {:induction false} SelfProvisionExample()
    ensures ValidProblem(EXAMPLE) && BuiltFrom(EXAMPLE, []) && IdsAuthentic(EXAMPLE)
    ensures Reachable(EXAMPLE, {1, 2}) && Complete(EXAMPLE, {1, 2})
    ensures Carries(EXAMPLE, 1, SHARED) && !MetInTime(EXAMPLE, [], {1, 2}, 1, SHARED)
  {
    hide ValidProblem, BuiltFrom, IdsAuthentic, Reachable, Complete, MetInTime;
    ExampleValid();
    ExampleAuthentic();
    ExampleBuilt();
    ExampleReachable();
    ExampleComplete();
    ExampleNotMet();
  }

  lemma {:induction false} ExampleNotMet()
    ensures !MetInTime(EXAMPLE, [], {1, 2}, 1, SHARED)
  {
    hide Earlier;
    forall s | s in {1, 2} && Earlier(EXAMPLE, {1, 2}, s, 1)
      ensures !Provides(EXAMPLE, [], s, SHARED)
    {
      EarlierDiffers(EXAMPLE, {1, 2}, s, 1);
      assert s == 2;
    }
  }

  lemma {:induction false} ExampleAuthentic()
    ensures IdsAuthentic(EXAMPLE)
  {
  }

  lemma {:induction false} ExampleValid()
    ensures ValidProblem(EXAMPLE)
  {
    hide ValidEdges, ValidInterface, Elements, MAKER, USER;
    ExampleEdges();
    ExampleMembers();
    assert EXAMPLE.byVersion.Keys == {1, 2};
  }

  lemma {:induction false} ExampleEdges()
    ensures ValidEdges(EXAMPLE.edges) && forall e :: e in EXAMPLE.edges ==> e.source == 1 && e.target == 2
  {
    assert forall e :: e in EXAMPLE.edges ==> e == Edge(5, 1, 2, [20], [10]);
  }

  lemma {:induction false} ExampleMembers()
    ensures ValidInterface(MAKER.contract) && ValidInterface(USER.contract)
    ensures MAKER.contract.version == 1 && USER.contract.version == 2 && MAKER.evidence == 0 && USER.evidence == 0
    ensures MAKER.toolCost == 1 && USER.toolCost == 1
    ensures Elements(EXAMPLE.seeds) == set v | v in EXAMPLE.byVersion && EXAMPLE.byVersion[v].seed
  {
    assert Elements([1, 2]) == {1, 2} && EXAMPLE.byVersion.Keys == {1, 2};
  }

  lemma {:induction false} ExampleBuilt()
    ensures BuiltFrom(EXAMPLE, [])
  {
    var quads := AllQuads(Contracts(EXAMPLE));
    var hit := Quad(MAKER.contract, MADE, USER.contract, SHARED);
    assert 1 in EXAMPLE.byVersion && 2 in EXAMPLE.byVersion;
    assert Contracts(EXAMPLE) == {MAKER.contract, USER.contract};
    assert MADE in MAKER.contract.provisions && SHARED in USER.contract.requirements;
    assert hit in quads && Hit(hit, []);
    assert forall q :: q in quads && Hit(q, []) ==> q == hit;
    assert PairOf(hit) == VersionPair(1, 2);
    assert HitPairs(quads, []) == {VersionPair(1, 2)};
    assert ProvisionIds(quads, [], VersionPair(1, 2)) == {20};
    assert RequirementIds(quads, [], VersionPair(1, 2)) == {10};
    assert Elements([10]) == {10} && Elements([20]) == {20};
    assert EdgeOf(EXAMPLE.edges[0], Collect(quads, []));
    assert EXAMPLE.edges[0] in EXAMPLE.edges;
  }

  lemma {:induction false} ExampleFeasible()
    ensures Feasible(EXAMPLE, {1, 2})
  {
    var e := EXAMPLE.edges[0];
    assert Selected(EXAMPLE.edges[..0], {1, 2}) == [];
    assert EXAMPLE.edges[..|EXAMPLE.edges| - 1] == EXAMPLE.edges[..0];
    assert Selected(EXAMPLE.edges, {1, 2}) == [e];
    var arcs := ChosenArcs(EXAMPLE, {1, 2});
    assert arcs == [Arc(1, 2)];
    assert Elements([1, 2]) == {1, 2};
    assert IsTopological([1, 2], {1, 2}, arcs);
    TopologicalIsAcyclic([1, 2], {1, 2}, arcs);
    KahnFinished({1, 2}, arcs);
    LeastTopologicalUnique(OrderOf(EXAMPLE, {1, 2}), OrderOf(EXAMPLE, {1, 2}), {1, 2}, arcs);
    var order := OrderOf(EXAMPLE, {1, 2});
    assert |order| == 2;
    assert order[0] in Elements(order) && order[1] in Elements(order);
    assert order[0] in {1, 2} && order[1] in {1, 2};
    assert Init(order) == [order[0]] && Init(Init(order)) == [];
    assert BridgeCount(EXAMPLE, Init(order)) == 0 && BridgeCount(EXAMPLE, order) == 0;
    assert ToolSum(EXAMPLE, Init(order)) == 1 && ToolSum(EXAMPLE, order) == 2;
  }

  lemma {:induction false} ExampleComplete()
    ensures Complete(EXAMPLE, {1, 2})
  {
    var e := EXAMPLE.edges[0];
    assert EXAMPLE.edges[..|EXAMPLE.edges| - 1] == [];
    assert Selected(EXAMPLE.edges, {1, 2}) == [e];
    assert 10 in e.requirements && e in [e];
    assert 10 in SatisfiedIds(EXAMPLE, {1, 2});
    assert RequirementGaps(EXAMPLE, {1, 2}, SatisfiedIds(EXAMPLE, {1, 2})) == {};
    assert 7 in MAKER.goals;
    assert CoveredGoals(EXAMPLE, {1, 2}) == {7};
  }

  lemma {:induction false} SeedFeasible()
    ensures Feasible(EXAMPLE, {1})
  {
    NoEdgeInside(EXAMPLE.edges, {1});
    var arcs := ChosenArcs(EXAMPLE, {1});
    assert arcs == [] && Elements([1]) == {1};
    assert IsTopological([1], {1}, arcs);
    TopologicalIsAcyclic([1], {1}, arcs);
    KahnFinished({1}, arcs);
    var order := OrderOf(EXAMPLE, {1});
    assert |order| == 1;
    assert order[0] in Elements(order);
    assert order == [1] && Init(order) == [];
    assert BridgeCount(EXAMPLE, order) == 0 && ToolSum(EXAMPLE, order) == 1;
  }

  /** From version 1 the search adds its neighbour. */
  lemma {:induction false} ExampleReachable()
    ensures Reachable(EXAMPLE, {1, 2})
  {
    SeedFeasible();
    ExampleFeasible();
    NeedsBoth({1});
    hide Feasible, Complete;
    assert EXAMPLE.byVersion.Keys == {1, 2} && EXAMPLE.byVersion[1].seed;
    assert IsSeedSet(EXAMPLE, {1});
    assert EXAMPLE.edges[0] in EXAMPLE.edges && Adjacent(EXAMPLE.edges, {1}, 2);
    assert {1, 2} - {2} == {1};
    assert Extends(EXAMPLE, {1}, 2);
    assert Reachable(EXAMPLE, {1});
  }

  /** The maker alone lacks what it makes, and the user alone lacks the goal. */
  lemma {:induction false} NeedsBoth(chosen: set<Id>)
    requires chosen <= EXAMPLE.byVersion.Keys
    ensures Complete(EXAMPLE, chosen) ==> chosen == {1, 2}
  {
    if Complete(EXAMPLE, chosen) {
      MakerTaken(chosen);
      UserTaken(chosen);
      assert EXAMPLE.byVersion.Keys == {1, 2};
    }
  }

  lemma {:induction false} MakerTaken(chosen: set<Id>)
    requires chosen <= EXAMPLE.byVersion.Keys && Complete(EXAMPLE, chosen)
    ensures 1 in chosen
  {
    assert 7 in EXAMPLE.goals && UncoveredGoal(7) !in GapsOf(EXAMPLE, chosen);
    assert 7 in CoveredGoals(EXAMPLE, chosen);
    hide GapsOf, Complete;
  }

  lemma {:induction false} UserTaken(chosen: set<Id>)
    requires chosen <= EXAMPLE.byVersion.Keys && Complete(EXAMPLE, chosen) && 1 in chosen
    ensures 2 in chosen
  {
    assert SHARED in MAKER.contract.requirements && UnsatisfiedRequirement(1, 10) !in GapsOf(EXAMPLE, chosen);
    assert 10 in SatisfiedIds(EXAMPLE, chosen);
    hide GapsOf, Complete;
    SelectedHolds(EXAMPLE.edges, chosen);
    hide Selected;
    var e :| e in Selected(EXAMPLE.edges, chosen) && 10 in e.requirements;
    assert e == EXAMPLE.edges[0];
  }

  // ----- the planner on this request

  const RAW := Request(EXAMPLE.edges, [7], [], [MAKER, USER])

  lemma {:induction false} RawCharges()
    ensures GoalTotal(RAW.candidates) == 1 && EntryTotal(RAW.candidates) == 0 && InputCharge(RAW) == 8
  {
    var one := RAW.candidates[..1];
    assert one == [MAKER] && one[..0] == [];
    assert GoalTotal(one) == 1 && EntryTotal(one) == 0;
  }

  lemma {:induction false} RawVersions()
    ensures SeedVersions(RAW.candidates) == {1, 2} && VersionSet(RAW.candidates) == {1, 2}
    ensures |SeedVersions(RAW.candidates)| == 2
    ensures |RAW.candidates| == 2 && |RAW.edges| == 1
    ensures EXAMPLE.manifest == Manifest(2, 1, 1, 2, 2, 2, 0, 2, 4, 64, 0, 0, 1, 1, 1)
  {
    assert RAW.candidates[0] == MAKER && RAW.candidates[1] == USER;
    assert |{1, 2}| == 2;
  }

  lemma {:induction false} AmpleTwo(m: Manifest, r: Request)
    requires |r.candidates| == 2 && |r.edges| == 1 && InputCharge(r) == 8 && |SeedVersions(r.candidates)| == 2
    requires m.maximumDepth == 2 && m.beamWidth == 2 && m.maximumExpansions == 4 && m.maximumWork == 64
    ensures Ample(m, r)
  {
    hide Choose, Scans, Expansions, InputCharge, SeedVersions;
    ChooseTwo();
    assert Product(1, 4) == 4;
    hide Product;
  }

  lemma {:induction false} RawAmple()
    ensures Ample(EXAMPLE.manifest, RAW)
  {
    hide Ample, InputCharge, SeedVersions, VersionSet, GoalTotal, EntryTotal, MAKER, USER, RAW, EXAMPLE;
    RawCharges();
    RawVersions();
    AmpleTwo(EXAMPLE.manifest, RAW);
  }

  lemma {:induction false} MembersClean()
    ensures forall c :: c in RAW.candidates ==>
              CleanCandidate(c) && |c.goals| <= 1 && Entries(c.facts) <= 1
    ensures PlanRequests.DistinctVersions(RAW.candidates) && exists c :: c in RAW.candidates && c.seed
  {
    assert CleanCandidate(MAKER) && CleanCandidate(USER);
    assert RAW.candidates[0] == MAKER && RAW.candidates[1] == USER;
    hide CleanCandidate;
  }

  lemma {:induction false} RawFormed()
    ensures WellFormed(EXAMPLE.manifest, RAW)
  {
    hide CleanCandidate, PlanRequests.DistinctVersions, GoalTotal, EntryTotal, Entries, MAKER, USER, VersionSet,
         ValidEdges, CleanIds, InputCharge, SeedVersions, RAW, EXAMPLE;
    MembersClean();
    RawCharges();
    RawVersions();
    RawLists();
  }

  lemma {:induction false} RawLists()
    ensures CleanIds(RAW.goals) && CleanIds(RAW.satisfied) && |RAW.goals| == 1 && |RAW.satisfied| == 0
    ensures ValidEdges(RAW.edges) && forall e :: e in RAW.edges ==> e.source in {1, 2} && e.target in {1, 2}
  {
    assert forall e :: e in RAW.edges ==> e == Edge(5, 1, 2, [20], [10]);
  }

  lemma {:induction false} ChooseTwo()
    ensures Choose(2, 1) == 2 && Choose(2, 2) == 1 && Scans(2, 2) == 2 && Expansions(2, 2) == 2
  {
    assert Choose(1, 1) == 1 && Choose(1, 2) == 0;
  }

  lemma {:induction false} RawDescribed()
    ensures Describes(EXAMPLE, EXAMPLE.manifest, RAW)
  {
    assert RAW.candidates[0] == MAKER && RAW.candidates[1] == USER;
    assert VersionSet(RAW.candidates) == {1, 2} && EXAMPLE.byVersion.Keys == {1, 2};
    assert Keeps(MAKER, MAKER) && Keeps(USER, USER);
    hide Keeps, VersionSet;
  }

  /** Unless it is cancelled, the planner returns both versions as a complete plan. */
  method RunSelfProvided(hash: Plan -> Id) returns (answer: Answer)
    requires Injective(hash)
    ensures answer.Plans? || answer.PlanningCancelled?
    ensures answer.Plans? ==> answer.plan.complete && answer.plan.limitCodes == {} && |answer.plan.nodes| == 2
  {
    hide ValidProblem, Describes, WellFormed, Ample, IsState, Reachable, Optimal, Injective, Feasible, MAKER, USER,
         EXAMPLE, RAW;
    ghost var p, best;
    answer, p, best := BuildPlan(EXAMPLE.manifest, RAW, hash);
    RawAmple();
    RawFormed();
    if answer.NotPlanned? {
      MakerPlanted(p);
    }
    if answer.Plans? {
      BothReturned(hash, p, best);
    }
  }

  lemma {:induction false} MakerPlanted(p: Problem)
    requires ValidProblem(p) && Describes(p, EXAMPLE.manifest, RAW)
    ensures exists v :: v in p.seeds && Feasible(p, {v})
  {
    hide ValidProblem, Describes, Feasible;
    ExampleValid();
    RawDescribed();
    DescribesUnique(p, EXAMPLE, EXAMPLE.manifest, RAW);
    SeedFeasible();
    assert 1 in EXAMPLE.seeds;
  }

  lemma {:induction false} BothReturned(hash: Plan -> Id, p: Problem, best: State)
    requires ValidProblem(p) && Describes(p, EXAMPLE.manifest, RAW) && IsState(p, hash, best) && Optimal(p, hash, best)
    ensures p == EXAMPLE && best.nodes == {1, 2} && best.plan.complete && |best.plan.nodes| == 2
  {
    hide ValidProblem, Describes, IsState, Optimal, Complete, Reachable, MAKER, USER;
    ExampleValid();
    RawDescribed();
    DescribesUnique(p, EXAMPLE, EXAMPLE.manifest, RAW);
    ExampleReachable();
    ExampleComplete();
    forall chosen | chosen <= EXAMPLE.byVersion.Keys && Complete(EXAMPLE, chosen)
      ensures chosen == {1, 2}
    {
      NeedsBoth(chosen);
    }
    assert |{1, 2}| == 2 && EXAMPLE.byVersion.Keys == {1, 2};
    OnlyComplete(EXAMPLE, hash, best, {1, 2});
    PlanSize(EXAMPLE, hash, best);
  }

  lemma {:induction false} PlanSize(p: Problem, hash: Plan -> Id, s: State)
    requires ValidProblem(p) && IsState(p, hash, s)
    ensures s.nodes <= p.byVersion.Keys && s.plan.complete == Complete(p, s.nodes) && |s.plan.nodes| == |s.nodes|
  {
    OrderHolds(p, s.nodes);
  }
}
