/** DeriveParallelSchedule with its input checks, and why a planner's plan passes them. */
module Scheduling {
  import opened Identifiers
  import opened Sorting
  import opened Digraph
  import opened Budgets
  import opened Compatibility
  import opened Planning
  import opened SearchStates
  import opened Reachability
  import opened CompatibilityGraph
  import opened SearchLimits
  import opened ParallelSchedule
  import opened PlanRequests

  const MAXIMUM_PLAN_EDGES := 32 * 31 / 2
  const MAXIMUM_INTERFACE_ENTRIES := 1024

  function Versions(nodes: seq<PlanNode>): (versions: seq<Id>)
  {
    seq(|nodes|, i requires 0 <= i < |nodes| => nodes[i].version)
  }

  function EdgeIds(edges: seq<Edge>): (ids: set<Id>)
  {
    set e | e in edges :: e.id
  }

  // ----- ValidatePlan

  /** The structural half of ValidatePlan. */
  predicate ValidPlan(plan: Plan)
  {
    var versions := Versions(plan.nodes);
    && plan.nodes != [] && plan.requestedGoals != [] && plan.seeds != [] && plan.toolCost > 0
    && StrictlySorted(plan.requestedGoals) && StrictlySorted(plan.seeds) && StrictlySorted(plan.externallySatisfied)
    && StrictlySorted(plan.satisfied) && StrictlySorted(plan.produced) && StrictlySorted(plan.covered)
    && (plan.complete <==> plan.gaps == [])
    && (forall i :: 0 <= i < |plan.nodes| ==>
            plan.nodes[i].ordinal == i && (plan.nodes[i].bridge <==> plan.nodes[i].version !in plan.seeds))
    && NoDuplicates(versions)
    && (forall i, j :: 0 <= i < j < |plan.dependencies| ==> plan.dependencies[i].id < plan.dependencies[j].id)
    && (forall d :: d in plan.dependencies ==> DependencyForward(versions, d))
    && Elements(plan.covered) <= Elements(plan.requestedGoals)
    && SortedBy(GapBefore, plan.gaps)
  }

  predicate DependencyForward(versions: seq<Id>, d: Edge)
  {
    && (exists i, j :: 0 <= i < j < |versions| && versions[i] == d.source && versions[j] == d.target)
    && StrictlySorted(d.provisions) && StrictlySorted(d.requirements)
  }

  // ----- validateParallelInputs

  predicate WithinScheduleLimits(m: Manifest, plan: Plan)
  {
    && |plan.nodes| <= m.maximumProcedures && |plan.requestedGoals| <= m.maximumGoals
    && |plan.externallySatisfied| <= m.maximumSatisfied
    && |plan.satisfied| <= m.maximumSatisfied + 32 * MAXIMUM_INTERFACE_ENTRIES
    && |plan.produced| <= 32 * MAXIMUM_INTERFACE_ENTRIES && |plan.covered| <= m.maximumGoals
    && |plan.seeds| <= m.maximumCandidates && |plan.dependencies| <= MAXIMUM_PLAN_EDGES
    && plan.gaps == [] && ValidPlan(plan) && plan.complete
  }

  /** The plan records exactly the graph edges between its nodes. */
  predicate RecordsEdges(plan: Plan, edges: seq<Edge>)
  {
    var chosen := Elements(Versions(plan.nodes));
    && (forall e :: e in edges ==> ((e.source in chosen && e.target in chosen) <==> e.id in EdgeIds(plan.dependencies)))
    && EdgeIds(plan.dependencies) <= EdgeIds(edges)
  }

  predicate Schedulable(m: Manifest, plan: Plan, edges: seq<Edge>, facts: map<Id, ParallelFacts>)
  {
    && WithinScheduleLimits(m, plan)
    && (forall v :: v in Versions(plan.nodes) ==> v in facts)
    && RecordsEdges(plan, edges)
    && Forward(Versions(plan.nodes), ArcsOf(Selected(edges, Elements(Versions(plan.nodes)))))
  }

  /** The checks the scheduler repeats on the graph and the candidates. */
  predicate InputsSchedulable(m: Manifest, edges: seq<Edge>, candidates: seq<PlannerCandidate>)
  {
    && ValidManifest(m) && |edges| <= MAXIMUM_GRAPH_EDGES
    && 0 < |candidates| <= m.maximumCandidates && WithinCandidateLimits(m, candidates)
    && (forall c :: c in candidates ==> CleanIds(c.goals) && CleanFacts(c.facts))
    && PlanRequests.DistinctVersions(candidates)
  }

  /** The normalized facts of the candidates, by version. */
  predicate FactsFrom(candidates: seq<PlannerCandidate>, facts: map<Id, ParallelFacts>)
  {
    && facts.Keys == VersionSet(candidates)
    && (forall c :: c in candidates ==> c.contract.version in facts && Normalizes(c.facts, facts[c.contract.version]))
  }

  datatype FactsResult = Facts(facts: map<Id, ParallelFacts>) | FactsRejected | FactsWorkLimit | FactsCancelled

  /** The loop over the candidates: limits, charges, and one normalized entry each. */
  method FactsByVersion(m: Manifest, candidates: seq<PlannerCandidate>, budget: WorkBudget)
    returns (result: FactsResult)
    requires budget.Valid()
    modifies budget
    ensures budget.Valid()
    ensures result.Facts? ==>
            FactsFrom(candidates, result.facts) && PlanRequests.DistinctVersions(candidates)
            && WithinCandidateLimits(m, candidates)
                              && forall c :: c in candidates ==> CleanIds(c.goals) && CleanFacts(c.facts)
    ensures result.FactsRejected? ==>
              !(PlanRequests.DistinctVersions(candidates) && WithinCandidateLimits(m, candidates)
                && forall c :: c in candidates ==> CleanIds(c.goals) && CleanFacts(c.facts))
    ensures Spends(old(budget.used), budget.used, budget.maximum, CandidateCharge(candidates), result.FactsWorkLimit?)
  {
    hide FactsFrom, PlanRequests.DistinctVersions, VersionSet, GoalTotal, EntryTotal, Entries, Normalizes, CleanFacts,
         CleanIds;
    var facts: map<Id, ParallelFacts> := map[];
    var goals, entries := 0, 0;
    IndexNothing();
    FactsNothing();
    for i := 0 to |candidates|
      invariant budget.Valid() && budget.used == old(budget.used) + 2 * (goals + entries) + i
      invariant FactsFrom(candidates[..i], facts) && PlanRequests.DistinctVersions(candidates[..i])
      invariant forall k :: 0 <= k < i ==> CleanIds(candidates[k].goals) && CleanFacts(candidates[k].facts)
      invariant forall k :: 0 <= k < i ==>
                    |candidates[k].goals| <= m.maximumGoals && Entries(candidates[k].facts) <= m.maximumEntries
      invariant goals == GoalTotal(candidates[..i]) <= m.maximumTotalGoals
                && entries == EntryTotal(candidates[..i]) <= m.maximumTotalEntries
    {
      TotalsGrow(candidates, i);
      TotalsGrow(candidates, i + 1);
      if i % 256 == 0 {
        if * {
          return FactsCancelled;
        }
      }
      var c := candidates[i];
      assert c in candidates;
      if Entries(c.facts) > m.maximumEntries || entries + Entries(c.facts) > m.maximumTotalEntries
         || |c.goals| > m.maximumGoals || goals + |c.goals| > m.maximumTotalGoals {
        return FactsRejected;
      }
      entries := entries + Entries(c.facts);
      goals := goals + |c.goals|;
      var ok := budget.Consume((Entries(c.facts) + |c.goals|) * 2 + 1);
      if !ok {
        return FactsWorkLimit;
      }
      var ids, goalsOk := NormalizedIds(c.goals);
      var n, factsOk := NormalizedFacts(c.facts);
      if !goalsOk || !factsOk || c.contract.version in facts {
        FactsRepeated(facts, candidates, i);
        return FactsRejected;
      }
      FactsNext(facts, candidates, i, n);
      facts := facts[c.contract.version := n];
    }
    assert candidates[..|candidates|] == candidates;
    return Facts(facts);
  }

  lemma {:induction false} FactsNothing()
    ensures FactsFrom([], map[])
  {
    assert VersionSet([]) == {};
  }

  lemma {:induction false} FactsRepeated(facts: map<Id, ParallelFacts>, candidates: seq<PlannerCandidate>, i: nat)
    requires i < |candidates| && FactsFrom(candidates[..i], facts) && PlanRequests.DistinctVersions(candidates[..i])
    ensures candidates[i].contract.version in facts ==> !PlanRequests.DistinctVersions(candidates)
  {
    VersionsDistinctNext(candidates, i);
    NotDistinct(candidates, i);
  }

  lemma {:induction false} FactsNext(facts: map<Id, ParallelFacts>, candidates: seq<PlannerCandidate>, i: nat,
                                     n: ParallelFacts)
    requires i < |candidates| && FactsFrom(candidates[..i], facts) && PlanRequests.DistinctVersions(candidates[..i])
    requires candidates[i].contract.version !in facts && Normalizes(candidates[i].facts, n)
    ensures PlanRequests.DistinctVersions(candidates[..i + 1])
    ensures FactsFrom(candidates[..i + 1], facts[candidates[i].contract.version := n])
  {
    hide Normalizes;
    var c := candidates[i];
    assert candidates[..i + 1] == candidates[..i] + [c];
    VersionsDistinctNext(candidates, i);
    VersionSetNext(candidates[..i], c);
    hide VersionSet, PlanRequests.DistinctVersions;
    var after := facts[c.contract.version := n];
    assert after.Keys == facts.Keys + {c.contract.version};
    assert forall x :: x in candidates[..i + 1] <==> x in candidates[..i] || x == c;
  }

  lemma {:induction false} FactsAreNormal(candidates: seq<PlannerCandidate>, facts: map<Id, ParallelFacts>)
    requires FactsFrom(candidates, facts)
    ensures NormalMap(facts)
  {
    forall v | v in facts
      ensures NormalFacts(facts[v])
    {
      var c :| c in candidates && c.contract.version == v;
    }
  }

  datatype ScheduleResult = Schedule(groups: seq<seq<Id>>) | InvalidRequest | ScheduleWorkLimit | ScheduleCancelled

  /** Collects the graph edges between plan nodes, checking each against the recorded ids. */
  method RecordedEdges(plan: Plan, edges: seq<Edge>, budget: WorkBudget)
    returns (result: ScanResult<seq<Edge>>, valid: bool)
    requires ValidEdges(edges) && budget.Valid()
    modifies budget
    ensures budget.Valid()
    ensures result.Scanned? && valid ==>
            RecordsEdges(plan, edges) && result.value == Selected(edges, Elements(Versions(plan.nodes)))
    ensures result.Scanned? && !valid ==> !RecordsEdges(plan, edges)
    ensures Spends(old(budget.used), budget.used, budget.maximum, |edges|, result.ScanWorkLimit?)
  {
    var chosen := Elements(Versions(plan.nodes));
    var ids := EdgeIds(plan.dependencies);
    var selected := [];
    var open := ids;
    for i := 0 to |edges|
      invariant budget.Valid() && budget.used == old(budget.used) + i
      invariant selected == Selected(edges[..i], chosen)
      invariant forall k :: 0 <= k < i ==>
                    ((edges[k].source in chosen && edges[k].target in chosen) <==> edges[k].id in ids)
      invariant forall x :: x in open <==> x in ids && forall k :: 0 <= k < i ==> edges[k].id != x
    {
      if i % 256 == 0 {
        if * {
          return ScanCancelled, true;
        }
      }
      var ok := budget.Consume(1);
      if !ok {
        return ScanWorkLimit, true;
      }
      var e := edges[i];
      assert e in edges;
      assert edges[..i + 1][..i] == edges[..i];
      var inside := e.source in chosen && e.target in chosen;
      if inside != (e.id in ids) {
        return Scanned(selected), false;
      }
      if inside {
        selected := selected + [e];
      }
      open := open - {e.id};
    }
    assert edges[..|edges|] == edges;
    valid := open == {};
    if valid {
      forall x | x in ids
        ensures x in EdgeIds(edges)
      {
        assert x !in open;
        var k :| 0 <= k < |edges| && edges[k].id == x;
        assert edges[k] in edges;
      }
    } else {
      var x :| x in open;
      assert x !in EdgeIds(edges);
    }
    result := Scanned(selected);
  }

  /** What scheduling can cost: three passes over the edges, one over the candidates, and a conflict
      test for every pair of nodes. */
  function ScheduleCost(m: Manifest, plan: Plan, edges: seq<Edge>, candidates: seq<PlannerCandidate>): (n: nat)
  {
    3 * |edges| + 1 + CandidateCharge(candidates) + Product(1 + 6 * m.maximumEntries, PairCount(|plan.nodes|))
  }

  lemma {:induction false} NormalSize(f: ParallelFacts, n: ParallelFacts)
    requires Normalizes(f, n)
    ensures Entries(n) <= Entries(f)
  {
    hide StrictlySorted, Elements;
    NoLonger(f.readIds, n.readIds);
    NoLonger(f.writeIds, n.writeIds);
    NoLonger(f.exclusiveIds, n.exclusiveIds);
    NoLonger(f.mutexKeys, n.mutexKeys);
  }

  lemma {:induction false} NoLonger(source: seq<Id>, sorted: seq<Id>)
    requires Sorts(source, sorted)
    ensures |sorted| <= |source|
  {
    NoDuplicatesSize(sorted);
    ElementsSizeAtMost(source);
  }

  /** Within the limits on parallel entries no conflict test costs more than the limits say. */
  lemma {:induction false} TestsBounded(m: Manifest, candidates: seq<PlannerCandidate>, facts: map<Id, ParallelFacts>)
    requires FactsFrom(candidates, facts) && WithinCandidateLimits(m, candidates)
    ensures TestsCost(facts, 1 + 6 * m.maximumEntries)
  {
    forall v | v in facts
      ensures Entries(facts[v]) <= m.maximumEntries
    {
      var c :| c in candidates && c.contract.version == v;
      NormalSize(c.facts, facts[v]);
    }
    hide FactsFrom, WithinCandidateLimits, Entries;
  }

  /** The checks on the plan, the graph and the candidates, then the greedy loop. */
  method DeriveParallelSchedule(m: Manifest, plan: Plan, edges: seq<Edge>, candidates: seq<PlannerCandidate>,
                                budget: WorkBudget)
    returns (result: ScheduleResult, facts: map<Id, ParallelFacts>, where: map<Id, nat>)
    requires ValidEdges(edges) && budget.Valid()
    modifies budget
    ensures budget.Valid()
    ensures result.InvalidRequest? ==>
            !(InputsSchedulable(m, edges, candidates) && PlanSchedulable(m, plan, edges, candidates))
    ensures result.Schedule? ==>
              && InputsSchedulable(m, edges, candidates) && FactsFrom(candidates, facts)
              && Schedulable(m, plan, edges, facts)
              && Scheduled(result.groups, where, Versions(plan.nodes),
                           ArcsOf(Selected(edges, Elements(Versions(plan.nodes)))), facts)
    ensures result.ScheduleWorkLimit? ==> old(budget.used) + ScheduleCost(m, plan, edges, candidates) > budget.maximum
  {
    hide ValidPlan, Scheduled, NormalMap, RecordsEdges, FactsFrom, PlanRequests.DistinctVersions, WithinCandidateLimits,
         CleanIds, CleanFacts, ValidManifest, WithinScheduleLimits, ValidEdges, TestsCost, Product, CandidateCharge,
         PairCount;
    where, facts := map[], map[];
    if * {
      return ScheduleCancelled, facts, where;
    }
    if !ValidManifest(m) || !WithinScheduleLimits(m, plan) || |candidates| == 0 || |candidates| > m.maximumCandidates
       || |edges| > MAXIMUM_GRAPH_EDGES {
      return InvalidRequest, facts, where;
    }
    var ok := budget.Consume(|edges| + 1);
    if ok {
      ok := budget.Consume(|edges|);
    }
    if !ok {
      return ScheduleWorkLimit, facts, where;
    }
    var index := FactsByVersion(m, candidates, budget);
    if !index.Facts? {
      return if index.FactsRejected? then InvalidRequest else if index.FactsWorkLimit? then ScheduleWorkLimit
             else ScheduleCancelled, facts, where;
    }
    facts := index.facts;
    FactsAreNormal(candidates, facts);
    FactsAreOne(candidates, facts);
    WithinMeansValid(m, plan);
    PlanDistinct(plan);
    var versions := Versions(plan.nodes);
    if exists v :: v in versions && v !in facts {
      return InvalidRequest, facts, where;
    }
    var scan, valid := RecordedEdges(plan, edges, budget);
    if !scan.Scanned? {
      return if scan.ScanWorkLimit? then ScheduleWorkLimit else ScheduleCancelled, facts, where;
    }
    if !valid {
      return InvalidRequest, facts, where;
    }
    var arcs := ArcsOf(scan.value);
    if !Forward(versions, arcs) {
      return InvalidRequest, facts, where;
    }
    var groups;
    TestsBounded(m, candidates, facts);
    groups, where := DeriveGroups(versions, arcs, facts, budget, 1 + 6 * m.maximumEntries);
    match groups {
      case GroupsWorkLimit => result := ScheduleWorkLimit;
      case GroupsCancelled => result := ScheduleCancelled;
      case Groups(list) => result := Schedule(list);
    }
  }

  /** The plan is schedulable with the facts of the candidates, of which there is one normal form. */
  ghost predicate PlanSchedulable(m: Manifest, plan: Plan, edges: seq<Edge>, candidates: seq<PlannerCandidate>)
  {
    exists facts :: FactsFrom(candidates, facts) && Schedulable(m, plan, edges, facts)
  }

  lemma {:induction false} FactsAreOne(candidates: seq<PlannerCandidate>, facts: map<Id, ParallelFacts>)
    requires FactsFrom(candidates, facts)
    ensures forall other :: FactsFrom(candidates, other) ==> other == facts
  {
    forall other | FactsFrom(candidates, other)
      ensures other == facts
    {
      forall v | v in facts
        ensures other[v] == facts[v]
      {
        var c :| c in candidates && c.contract.version == v;
        NormalizesUnique(c.facts, facts[v], other[v]);
      }
    }
  }

  lemma {:induction false} WithinMeansValid(m: Manifest, plan: Plan)
    requires WithinScheduleLimits(m, plan)
    ensures ValidPlan(plan)
  {
    hide ValidPlan;
  }

  lemma {:induction false} PlanDistinct(plan: Plan)
    requires ValidPlan(plan)
    ensures NoDuplicates(Versions(plan.nodes))
  {
  }

  // ----- a planner's plan is schedulable

  function FactsOf(p: Problem): (facts: map<Id, ParallelFacts>)
  {
    map v | v in p.byVersion :: p.byVersion[v].facts
  }

  /** Interface sizes as the graph builder's limits bound them. */
  predicate EntriesBounded(p: Problem)
  {
    forall v :: v in p.byVersion ==>
      |p.byVersion[v].contract.requirements| + |p.byVersion[v].contract.provisions| <= MAXIMUM_INTERFACE_ENTRIES
  }

  lemma {:induction false} VersionsOf(p: Problem, order: seq<Id>)
    requires Elements(order) <= p.byVersion.Keys
    ensures Versions(NodesOf(p, order)) == order
  {
  }

  lemma {:induction false} AppendedEdges(init: seq<Edge>, last: Edge)
    requires ValidEdges(init + [last])
    ensures ValidEdges(init) && ValidEdges([last])
    ensures forall e :: e in init ==> e.id < last.id && (e.source != last.source || e.target != last.target)
  {
    var edges := init + [last];
    forall e | e in init
      ensures e in edges && e.id < last.id && (e.source != last.source || e.target != last.target)
    {
      var k :| 0 <= k < |init| && init[k] == e;
      assert edges[k] == e && edges[|init|] == last;
    }
    assert last in edges;
    assert forall i :: 0 <= i < |init| ==> edges[i] == init[i];
  }

  lemma {:induction false} AppendEdge(edges: seq<Edge>, last: Edge)
    requires ValidEdges(edges) && ValidEdges([last])
    requires forall e :: e in edges ==> e.id < last.id && (e.source != last.source || e.target != last.target)
    ensures ValidEdges(edges + [last])
  {
    assert last in [last];
    assert forall i :: 0 <= i < |edges| ==> edges[i] in edges;
  }

  lemma {:induction false} SelectedValid(edges: seq<Edge>, chosen: set<Id>)
    requires ValidEdges(edges)
    ensures ValidEdges(Selected(edges, chosen))
  {
    hide ValidEdges;
    if edges != [] {
      var init, last := edges[..|edges| - 1], edges[|edges| - 1];
      assert edges == init + [last];
      AppendedEdges(init, last);
      SelectedValid(init, chosen);
      SelectedHolds(init, chosen);
      if last.source in chosen && last.target in chosen {
        AppendEdge(Selected(init, chosen), last);
      } else {
        assert Selected(edges, chosen) == Selected(init, chosen);
      }
    } else {
      NoEdgesValid();
    }
  }

  lemma {:induction false} NoEdgesValid()
    ensures ValidEdges([])
  {
  }

  lemma {:induction false} ArcsDistinct(edges: seq<Edge>)
    requires ValidEdges(edges)
    ensures NoDuplicates(ArcsOf(edges)) && |ArcsOf(edges)| == |edges|
  {
  }

  /** At most 31 procedures' worth of forward pairs: the edge limit cannot be hit. */
  lemma {:induction false} EdgeLimitNeverHit(p: Problem, chosen: set<Id>)
    requires ValidProblem(p) && Reachable(p, chosen)
    ensures |Selected(p.edges, chosen)| <= MAXIMUM_PLAN_EDGES
  {
    hide ValidEdges, SelectedKnown;
    SelectedValid(p.edges, chosen);
    ArcsDistinct(Selected(p.edges, chosen));
    ChosenWithin(p, chosen);
    OrderHolds(p, chosen);
    ReachableShape(p, chosen);
    AcyclicIsSparse(OrderOf(p, chosen), chosen, ChosenArcs(p, chosen));
    FewPairs(|chosen|);
  }

  lemma {:induction false} FewPairs(n: nat)
    requires n <= 32
    ensures n * (n - 1) <= 32 * 31
  {
    if n > 0 {
      assert n * (n - 1) <= 32 * (n - 1);
    }
  }

  function RequirementIdSet(requirements: seq<Requirement>): (ids: set<Id>)
  {
    set r | r in requirements :: r.id
  }

  function ProvisionIdSet(provisions: seq<Provision>): (ids: set<Id>)
  {
    set x | x in provisions :: x.id
  }

  /** Identifiers listed by a version's own interface. */
  function OwnIds(p: Problem, v: Id): (ids: set<Id>)
    requires v in p.byVersion
  {
    RequirementIdSet(p.byVersion[v].contract.requirements) + ProvisionIdSet(p.byVersion[v].contract.provisions)
  }

  function AllOwnIds(p: Problem, chosen: set<Id>): (ids: set<Id>)
    requires chosen <= p.byVersion.Keys
  {
    set v, x | v in chosen && x in OwnIds(p, v) :: x
  }

  lemma {:induction false} RequirementIdsFew(requirements: seq<Requirement>)
    ensures |RequirementIdSet(requirements)| <= |requirements|
  {
    if requirements == [] {
      assert RequirementIdSet(requirements) == {};
    } else {
      RequirementIdsFew(requirements[1..]);
      assert RequirementIdSet(requirements) == {requirements[0].id} + RequirementIdSet(requirements[1..]);
    }
  }

  lemma {:induction false} ProvisionIdsFew(provisions: seq<Provision>)
    ensures |ProvisionIdSet(provisions)| <= |provisions|
  {
    if provisions == [] {
      assert ProvisionIdSet(provisions) == {};
    } else {
      ProvisionIdsFew(provisions[1..]);
      assert ProvisionIdSet(provisions) == {provisions[0].id} + ProvisionIdSet(provisions[1..]);
    }
  }

  lemma {:induction false} OwnIdsSmall(p: Problem, v: Id)
    requires v in p.byVersion && EntriesBounded(p)
    ensures |OwnIds(p, v)| <= MAXIMUM_INTERFACE_ENTRIES
  {
    var c := p.byVersion[v].contract;
    RequirementIdsFew(c.requirements);
    ProvisionIdsFew(c.provisions);
    UnionSmall(RequirementIdSet(c.requirements), ProvisionIdSet(c.provisions));
  }

  lemma {:induction false} UnionSmall<T>(a: set<T>, b: set<T>)
    ensures |a + b| <= |a| + |b|
  {
    assert a + b == a + (b - a);
    SubsetSize(b - a, b);
  }

  lemma {:induction false} AllOwnIdsSmall(p: Problem, chosen: set<Id>)
    requires chosen <= p.byVersion.Keys && EntriesBounded(p)
    ensures |AllOwnIds(p, chosen)| <= MAXIMUM_INTERFACE_ENTRIES * |chosen|
    decreases |chosen|
  {
    hide EntriesBounded;
    if chosen == {} {
      assert AllOwnIds(p, chosen) == {};
    } else {
      var v :| v in chosen;
      AllOwnIdsSmall(p, chosen - {v});
      OwnIdsSmall(p, v);
      assert AllOwnIds(p, chosen) == AllOwnIds(p, chosen - {v}) + OwnIds(p, v);
      UnionSmall(AllOwnIds(p, chosen - {v}), OwnIds(p, v));
    }
  }

  lemma {:induction false} MarkedAreOwn(p: Problem, rules: seq<Rule>, chosen: set<Id>)
    requires ValidProblem(p) && BuiltFrom(p, rules) && chosen <= p.byVersion.Keys
    ensures EdgeRequirements(Selected(p.edges, chosen)) <= AllOwnIds(p, chosen)
    ensures ProducedIds(p, chosen) <= AllOwnIds(p, chosen)
  {
    hide ValidProblem, BuiltFrom;
    SelectedHolds(p.edges, chosen);
    forall id | id in EdgeRequirements(Selected(p.edges, chosen))
      ensures id in AllOwnIds(p, chosen)
    {
      var e :| e in Selected(p.edges, chosen) && id in e.requirements;
      var r := EdgeHasProvider(p, rules, e, id);
      assert id in OwnIds(p, e.target);
    }
    forall id | id in ProducedIds(p, chosen)
      ensures id in AllOwnIds(p, chosen)
    {
      var v, x :| v in chosen && x in p.byVersion[v].contract.provisions && x.id == id;
      assert id in OwnIds(p, v);
    }
  }

  lemma {:induction false} SortedSize(s: seq<Id>)
    requires StrictlySorted(s)
    ensures |s| == |Elements(s)|
  {
    NoDuplicatesSize(s);
  }

  /** The marked and produced lists stay inside the scheduler's size limits. */
  lemma {:induction false} ListsSmall(p: Problem, rules: seq<Rule>, chosen: set<Id>, satisfied: seq<Id>,
                                      produced: seq<Id>, covered: seq<Id>)
    requires ValidProblem(p) && BuiltFrom(p, rules) && EntriesBounded(p) && chosen <= p.byVersion.Keys && |chosen| <= 32
    requires StrictlySorted(satisfied) && Elements(satisfied) == SatisfiedIds(p, chosen)
    requires StrictlySorted(produced) && Elements(produced) == ProducedIds(p, chosen)
    requires StrictlySorted(covered) && Elements(covered) == CoveredGoals(p, chosen)
    ensures |satisfied| <= |p.satisfied| + 32 * MAXIMUM_INTERFACE_ENTRIES
    ensures |produced| <= 32 * MAXIMUM_INTERFACE_ENTRIES && |covered| <= |p.goals|
  {
    AllOwnIdsSmall(p, chosen);
    MarkedAreOwn(p, rules, chosen);
    var own, marked := AllOwnIds(p, chosen), EdgeRequirements(Selected(p.edges, chosen));
    SubsetSize(marked, own);
    SubsetSize(ProducedIds(p, chosen), own);
    SortedSize(satisfied);
    SortedSize(produced);
    SortedSize(covered);
    UnionSmall(Elements(p.satisfied), marked);
    ElementsSizeAtMost(p.satisfied);
    assert Elements(covered) <= Elements(p.goals);
    SubsetSize(Elements(covered), Elements(p.goals));
    ElementsSizeAtMost(p.goals);
  }

  /** Plan nodes carry their position and say whether they are seeds. */
  lemma {:induction false} NodesValid(p: Problem, order: seq<Id>)
    requires ValidProblem(p) && Elements(order) <= p.byVersion.Keys
    ensures forall i :: 0 <= i < |order| ==> NodesOf(p, order)[i] == PlanNode(i, order[i], order[i] !in p.seeds)
  {
    forall i | 0 <= i < |order|
      ensures NodesOf(p, order)[i] == PlanNode(i, order[i], order[i] !in p.seeds)
    {
      assert order[i] in Elements(order);
      assert order[i] in p.seeds <==> order[i] in Elements(p.seeds);
    }
  }

  lemma {:induction false} DependenciesValid(p: Problem, chosen: set<Id>)
    requires ValidProblem(p) && Feasible(p, chosen)
    ensures ValidEdges(Selected(p.edges, chosen))
    ensures forall d :: d in Selected(p.edges, chosen) ==> DependencyForward(OrderOf(p, chosen), d)
  {
    SelectedHolds(p.edges, chosen);
    SelectedValid(p.edges, chosen);
    hide Feasible;
    forall d | d in Selected(p.edges, chosen)
      ensures DependencyForward(OrderOf(p, chosen), d)
    {
      EdgeOrders(p, chosen, d);
    }
  }

  lemma {:induction false} GapsEmptyIff(p: Problem, hash: Plan -> Id, s: State)
    requires ValidProblem(p) && IsState(p, hash, s)
    ensures s.plan.complete <==> s.plan.gaps == []
  {
    assert |s.plan.gaps| > 0 ==> s.plan.gaps[0] in Elements(s.plan.gaps);
  }

  lemma {:induction false} CoveredRequested(p: Problem, hash: Plan -> Id, s: State)
    requires ValidProblem(p) && IsState(p, hash, s)
    ensures Elements(s.plan.covered) <= Elements(s.plan.requestedGoals)
  {
  }

  lemma {:induction false} PlannerPlanValid(p: Problem, hash: Plan -> Id, s: State)
    requires ValidProblem(p) && IsState(p, hash, s) && s.nodes != {}
    ensures ValidPlan(s.plan)
  {
    hide IsState, IsPlan, Feasible, DependencyForward, Forward, ValidProblem, ProducedIds, CoveredGoals, SatisfiedIds,
         NodesOf;
    var order := OrderOf(p, s.nodes);
    PlanFields(p, hash, s);
    ProblemFacts(p);
    OrderHolds(p, s.nodes);
    VersionsOf(p, order);
    NodesValid(p, order);
    DependenciesValid(p, s.nodes);
    ToolPositive(p, order);
    GapsEmptyIff(p, hash, s);
    CoveredRequested(p, hash, s);
    NodesListed(s.plan, order, p.seeds);
  }

  lemma {:induction false} NodesListed(plan: Plan, order: seq<Id>, seeds: seq<Id>)
    requires Versions(plan.nodes) == order && plan.seeds == seeds
    requires forall i :: 0 <= i < |order| ==>
                 i < |plan.nodes| && plan.nodes[i] == PlanNode(i, order[i], order[i] !in seeds)
    ensures forall i :: 0 <= i < |plan.nodes| ==>
                plan.nodes[i].ordinal == i && (plan.nodes[i].bridge <==> plan.nodes[i].version !in plan.seeds)
  {
    assert |plan.nodes| == |order|;
  }

  lemma {:induction false} ProblemFacts(p: Problem)
    requires ValidProblem(p)
    ensures 0 < p.manifest.maximumProcedures <= 32
    ensures StrictlySorted(p.goals) && StrictlySorted(p.satisfied) && StrictlySorted(p.seeds) && ValidEdges(p.edges)
    ensures 0 < |p.goals| <= p.manifest.maximumGoals && |p.satisfied| <= p.manifest.maximumSatisfied && 0 < |p.seeds|
  {
  }

  lemma {:induction false} ToolPositive(p: Problem, order: seq<Id>)
    requires ValidProblem(p) && Elements(order) <= p.byVersion.Keys && order != []
    ensures ToolSum(p, order) > 0
  {
    assert order[|order| - 1] in Elements(order);
  }

  lemma {:induction false} SelectedRecorded(p: Problem, chosen: set<Id>)
    requires ValidProblem(p)
    ensures forall e :: e in p.edges ==>
                ((e.source in chosen && e.target in chosen) <==> e.id in EdgeIds(Selected(p.edges, chosen)))
    ensures EdgeIds(Selected(p.edges, chosen)) <= EdgeIds(p.edges)
  {
    var selected := Selected(p.edges, chosen);
    SelectedHolds(p.edges, chosen);
    forall e | e in p.edges
      ensures (e.source in chosen && e.target in chosen) <==> e.id in EdgeIds(selected)
    {
      forall d | d in selected && d.id == e.id
        ensures d == e
      {
        OneEdgePerId(p.edges, d, e);
      }
    }
  }

  lemma {:induction false} PlannerRecordsEdges(p: Problem, hash: Plan -> Id, s: State)
    requires ValidProblem(p) && IsState(p, hash, s)
    ensures Versions(s.plan.nodes) == OrderOf(p, s.nodes) && Elements(OrderOf(p, s.nodes)) == s.nodes
    ensures RecordsEdges(s.plan, p.edges)
    ensures Forward(Versions(s.plan.nodes), ArcsOf(Selected(p.edges, s.nodes)))
  {
    OrderHolds(p, s.nodes);
    VersionsOf(p, OrderOf(p, s.nodes));
    PlanFields(p, hash, s);
    SelectedRecorded(p, s.nodes);
    hide IsPlan, Feasible, ValidProblem, IsState;
  }

  lemma {:induction false} PlanFields(p: Problem, hash: Plan -> Id, s: State)
    requires ValidProblem(p) && IsState(p, hash, s)
    ensures Feasible(p, s.nodes) && Elements(OrderOf(p, s.nodes)) <= p.byVersion.Keys
    ensures s.plan.dependencies == Selected(p.edges, s.nodes) && s.plan.nodes == NodesOf(p, OrderOf(p, s.nodes))
    ensures s.plan.externallySatisfied == p.satisfied && s.plan.requestedGoals == p.goals && s.plan.seeds == p.seeds
    ensures StrictlySorted(s.plan.satisfied) && Elements(s.plan.satisfied) == SatisfiedIds(p, s.nodes)
    ensures s.nodes <= p.byVersion.Keys
    ensures StrictlySorted(s.plan.produced) && Elements(s.plan.produced) == ProducedIds(p, s.nodes)
    ensures StrictlySorted(s.plan.covered) && Elements(s.plan.covered) == CoveredGoals(p, s.nodes)
    ensures SortedBy(GapBefore, s.plan.gaps) && s.plan.toolCost == ToolSum(p, OrderOf(p, s.nodes))
  {
  }

  lemma {:induction false} OneEdgePerId(edges: seq<Edge>, d: Edge, e: Edge)
    requires ValidEdges(edges) && d in edges && e in edges && d.id == e.id
    ensures d == e
  {
    var i :| 0 <= i < |edges| && edges[i] == d;
    var j :| 0 <= j < |edges| && edges[j] == e;
  }

  lemma {:induction false} SeedsFew(p: Problem)
    requires ValidProblem(p)
    ensures |p.seeds| <= p.manifest.maximumCandidates
  {
    SortedSize(p.seeds);
    SubsetSize(Elements(p.seeds), p.byVersion.Keys);
  }

  /** Every complete plan of the search, whatever its limit codes, passes all the
      scheduler's checks: scheduling it can only be cancelled or run out of work. */
  lemma {:induction false} PlannerPlanSchedulable(p: Problem, rules: seq<Rule>, hash: Plan -> Id, s: State,
                                                  codes: set<LimitCode>)
    requires ValidProblem(p) && BuiltFrom(p, rules) && EntriesBounded(p)
    requires IsState(p, hash, s) && Reachable(p, s.nodes) && s.plan.complete
    ensures Schedulable(p.manifest, s.plan.(limitCodes := codes), p.edges, FactsOf(p))
  {
    hide IsState, IsPlan, ValidPlan, RecordsEdges, Reachable, BuiltFrom, EntriesBounded, ProducedIds, CoveredGoals,
         SatisfiedIds, ValidProblem, Feasible, WeaklyConnected, HasSeed, Forward, NodesOf, ValidEdges;
    var plan := s.plan.(limitCodes := codes);
    ProblemFacts(p);
    PlanFields(p, hash, s);
    ReachableShape(p, s.nodes);
    PlannerPlanValid(p, hash, s);
    PlannerRecordsEdges(p, hash, s);
    EdgeLimitNeverHit(p, s.nodes);
    SeedsFew(p);
    GapsEmptyIff(p, hash, s);
    PlanSize(p, hash, s);
    ListsSmall(p, rules, s.nodes, s.plan.satisfied, s.plan.produced, s.plan.covered);
    CodesIrrelevant(s.plan, codes, p.edges);
    forall v | v in Versions(plan.nodes)
      ensures v in FactsOf(p)
    {
      assert v in Elements(OrderOf(p, s.nodes));
    }
    assert WithinScheduleLimits(p.manifest, plan);
  }

  lemma {:induction false} PlanSize(p: Problem, hash: Plan -> Id, s: State)
    requires ValidProblem(p) && IsState(p, hash, s)
    ensures |s.plan.nodes| == |s.nodes|
  {
    OrderHolds(p, s.nodes);
  }

  lemma {:induction false} CodesIrrelevant(plan: Plan, codes: set<LimitCode>, edges: seq<Edge>)
    ensures ValidPlan(plan.(limitCodes := codes)) == ValidPlan(plan)
    ensures RecordsEdges(plan.(limitCodes := codes), edges) == RecordsEdges(plan, edges)
  {
  }
}
