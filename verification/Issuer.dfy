/** Request validation, the coverage re-check of a selection draft, and the whole
pipeline from candidates to a scheduled plan. */
module Issuer {
  import opened Identifiers
  import opened Digraph
  import opened Budgets
  import opened Compatibility
  import CompatibilityJoin
  import opened CompatibilityGraph
  import opened Planning
  import opened SearchStates
  import opened Reachability
  import opened PlannerSearch
  import opened ParallelSchedule
  import opened Execution
  import opened ScheduleMeaning
  import opened Scheduling
  import opened PlanRequests
  import opened Planner

  // ----- scheduleCoversPlan

  /** The plan repeats no node, the groups hold each node once, and every dependency crosses to a later group. */
  predicate CoversPlan(groups: seq<seq<Id>>, plan: Plan)
  {
    && CoversNodes(groups, plan)
    && DependenciesCross(groups, plan.dependencies)
  }

  predicate CoversNodes(groups: seq<seq<Id>>, plan: Plan)
  {
    && NoDuplicates(Versions(plan.nodes))
    && NoDuplicates(Flatten(groups)) && Elements(Flatten(groups)) == Elements(Versions(plan.nodes))
  }

  predicate DependenciesCross(groups: seq<seq<Id>>, dependencies: seq<Edge>)
  {
    forall d :: d in dependencies ==> Crosses(groups, d)
  }

  /** The target is in a group after the source's; a source in no group counts as being in the first. */
  predicate Crosses(groups: seq<seq<Id>>, d: Edge)
  {
    exists h :: 0 < h < |groups| && d.target in groups[h]
        && forall g :: 0 <= g < |groups| && d.source in groups[g] ==> g < h
  }

  /** A list as long as its set of elements repeats nothing. */
  lemma {:induction false} FullSizeDistinct(s: seq<Id>)
    requires |Elements(s)| == |s|
    ensures NoDuplicates(s)
  {
    forall i, j | 0 <= i < j < |s|
      ensures s[i] != s[j]
    {
      var rest := s[..j] + s[j + 1..];
      ElementsSizeAtMost(rest);
      assert s == s[..j] + [s[j]] + s[j + 1..];
      if s[i] == s[j] {
        RepeatDropped(s, i, j);
      }
    }
  }

  lemma {:induction false} RepeatDropped(s: seq<Id>, i: nat, j: nat)
    requires i < j < |s| && s[i] == s[j]
    ensures Elements(s[..j] + s[j + 1..]) == Elements(s)
  {
    var rest := s[..j] + s[j + 1..];
    forall k | 0 <= k < |s|
      ensures s[k] in rest
    {
      assert rest[i] == s[i];
      if k < j {
        assert rest[k] == s[k];
      } else if k > j {
        assert rest[k - 1] == s[k];
      }
    }
  }

  lemma {:induction false} FlattenNext(groups: seq<seq<Id>>, i: nat)
    requires i < |groups|
    ensures Flatten(groups[..i + 1]) == Flatten(groups[..i]) + groups[i]
  {
    if i == 0 {
      assert groups[..1] == [groups[0]] && groups[..1][1..] == [];
    } else {
      FlattenNext(groups[1..], i - 1);
      assert groups[..i + 1][1..] == groups[1..][..i] && groups[..i][1..] == groups[1..][..i - 1];
    }
  }

  lemma {:induction false} FlattenPrefix(groups: seq<seq<Id>>, i: nat, j: nat)
    requires i < |groups| && j <= |groups[i]|
    ensures Flatten(groups[..i]) + groups[i][..j] <= Flatten(groups)
    decreases |groups| - i
  {
    FlattenNext(groups, i);
    assert groups[i][..j] <= groups[i];
    assert Flatten(groups[..i]) + groups[i][..j] <= Flatten(groups[..i + 1]);
    if i + 1 == |groups| {
      assert groups[..i + 1] == groups;
    } else {
      FlattenPrefix(groups, i + 1, 0);
      assert Flatten(groups[..i + 1]) + groups[i + 1][..0] == Flatten(groups[..i + 1]);
    }
  }

  /** The state of the coverage loop after the members `seen`. */
  predicate Covering(groups: seq<seq<Id>>, wanted: set<Id>, where: map<Id, nat>, seen: seq<Id>, versions: set<Id>)
  {
    && NoDuplicates(seen) && Elements(seen) <= versions && wanted == versions - Elements(seen)
    && where.Keys == Elements(seen)
    && forall v :: v in where ==> where[v] < |groups| && v in groups[where[v]]
  }

  /** The first loop: every member is struck off the wanted list. */
  method CoverNodes(groups: seq<seq<Id>>, plan: Plan) returns (covers: bool, where: map<Id, nat>)
    ensures covers <==> CoversNodes(groups, plan)
    ensures covers ==> where.Keys == Elements(Versions(plan.nodes))
    ensures covers ==> forall v :: v in where ==> where[v] < |groups| && v in groups[where[v]]
  {
    var versions := Elements(Versions(plan.nodes));
    var wanted := versions;
    where := map[];
    var count := 0;
    ghost var seen: seq<Id> := [];
    for i := 0 to |groups|
      invariant seen == Flatten(groups[..i]) && count == |seen|
      invariant Covering(groups, wanted, where, seen, versions)
    {
      FlattenNext(groups, i);
      for j := 0 to |groups[i]|
        invariant seen == Flatten(groups[..i]) + groups[i][..j] && count == |seen|
        invariant Covering(groups, wanted, where, seen, versions)
      {
        hide Covering, Elements, Flatten, NoDuplicates;
        var v := groups[i][j];
        assert groups[i][..j + 1] == groups[i][..j] + [v];
        assert Flatten(groups[..i]) + groups[i][..j + 1] == seen + [v];
        FlattenPrefix(groups, i, j + 1);
        if v !in wanted {
          NotCovered(groups, wanted, where, seen, versions, v);
          return false, where;
        }
        CoveringNext(groups, wanted, where, seen, versions, v, i);
        wanted := wanted - {v};
        where := where[v := i];
        count := count + 1;
        seen := seen + [v];
      }
      assert groups[i][..|groups[i]|] == groups[i];
    }
    assert groups[..|groups|] == groups;
    NoDuplicatesSize(seen);
    covers := count == |plan.nodes| && |wanted| == 0;
    if wanted == {} {
      assert Elements(seen) == versions;
      if count == |plan.nodes| {
        FullSizeDistinct(Versions(plan.nodes));
      }
      if NoDuplicates(Versions(plan.nodes)) {
        NoDuplicatesSize(Versions(plan.nodes));
      }
    } else {
      var v :| v in wanted;
      assert v !in Elements(seen);
    }
  }

  /** scheduleCoversPlan. */
  method ScheduleCoversPlan(groups: seq<seq<Id>>, plan: Plan) returns (covers: bool)
    ensures covers <==> CoversPlan(groups, plan)
  {
    var where;
    covers, where := CoverNodes(groups, plan);
    if !covers {
      return false;
    }
    OneGroupEach(groups, where);
    for k := 0 to |plan.dependencies|
      invariant forall i :: 0 <= i < k ==> Crosses(groups, plan.dependencies[i])
    {
      hide NoDuplicates, Flatten, Crosses;
      var d := plan.dependencies[k];
      assert d in plan.dependencies;
      CrossesWhere(groups, where, plan, d);
      var source := if d.source in where then where[d.source] else 0;
      var target := if d.target in where then where[d.target] else 0;
      if source >= target {
        return false;
      }
    }
    return true;
  }

  /** The comparison of the two table entries, absent ones read as zero. */
  lemma {:induction false} CrossesWhere(groups: seq<seq<Id>>, where: map<Id, nat>, plan: Plan, d: Edge)
    requires CoversNodes(groups, plan) && where.Keys == Elements(Versions(plan.nodes))
    requires forall v :: v in where ==> where[v] < |groups| && v in groups[where[v]]
    requires forall v, g :: v in where && 0 <= g < |groups| && v in groups[g] ==> where[v] == g
    ensures Crosses(groups, d) <==>
            (if d.source in where then where[d.source] else 0) < (if d.target in where then where[d.target] else 0)
  {
    FlattenElements(groups);
    forall v, g | 0 <= g < |groups| && v in groups[g]
      ensures v in where
    {
      assert v in Elements(Flatten(groups));
    }
    hide NoDuplicates, Flatten, Elements;
  }

  lemma {:induction false} CoveringNext(groups: seq<seq<Id>>, wanted: set<Id>, where: map<Id, nat>, seen: seq<Id>,
                                        versions: set<Id>, v: Id, i: nat)
    requires Covering(groups, wanted, where, seen, versions) && v in wanted && i < |groups| && v in groups[i]
    ensures Covering(groups, wanted - {v}, where[v := i], seen + [v], versions)
  {
    assert v !in Elements(seen);
    ElementsAppend(seen, [v]);
    assert Elements([v]) == {v};
  }

  lemma {:induction false} NotCovered(groups: seq<seq<Id>>, wanted: set<Id>, where: map<Id, nat>, seen: seq<Id>,
                                      versions: set<Id>, v: Id)
    requires Covering(groups, wanted, where, seen, versions) && v !in wanted && seen + [v] <= Flatten(groups)
    ensures !(NoDuplicates(Flatten(groups)) && Elements(Flatten(groups)) == versions)
  {
    var flat := Flatten(groups);
    assert flat[|seen|] == (seen + [v])[|seen|] == v;
    if v in Elements(seen) {
      var i :| 0 <= i < |seen| && seen[i] == v;
      assert flat[i] == (seen + [v])[i] == v;
    } else {
      assert v in flat;
      assert v in Elements(flat);
    }
  }

  /** With no repetition in the flattened groups, a node is in one group only. */
  lemma {:induction false} OneGroupEach(groups: seq<seq<Id>>, where: map<Id, nat>)
    requires NoDuplicates(Flatten(groups)) && forall v :: v in where ==> where[v] < |groups| && v in groups[where[v]]
    ensures forall v, g :: v in where && 0 <= g < |groups| && v in groups[g] ==> where[v] == g
  {
    forall v, g | v in where && 0 <= g < |groups| && v in groups[g]
      ensures where[v] == g
    {
      if where[v] < g {
        SameGroup(groups, where[v], g, v);
      } else if g < where[v] {
        SameGroup(groups, g, where[v], v);
      }
    }
  }

  lemma {:induction false} FlattenAt(groups: seq<seq<Id>>, g: nat, a: nat)
    requires g < |groups| && a < |groups[g]|
    ensures |Flatten(groups[..g])| + a < |Flatten(groups)|
    ensures Flatten(groups)[|Flatten(groups[..g])| + a] == groups[g][a]
  {
    FlattenPrefix(groups, g, a + 1);
    var prefix := Flatten(groups[..g]) + groups[g][..a + 1];
    assert prefix[|prefix| - 1] == groups[g][a];
  }

  lemma {:induction false} SameGroup(groups: seq<seq<Id>>, g: nat, h: nat, v: Id)
    requires g < h < |groups| && v in groups[g] && v in groups[h]
    ensures !NoDuplicates(Flatten(groups))
  {
    var a :| 0 <= a < |groups[g]| && groups[g][a] == v;
    var b :| 0 <= b < |groups[h]| && groups[h][b] == v;
    FlattenAt(groups, g, a);
    FlattenAt(groups, h, b);
    PrefixLonger(groups, g, h);
  }

  lemma {:induction false} PrefixLonger(groups: seq<seq<Id>>, g: nat, h: nat)
    requires g < h <= |groups|
    ensures |Flatten(groups[..g])| + |groups[g]| <= |Flatten(groups[..h])|
    decreases h - g
  {
    FlattenNext(groups, h - 1);
    if g + 1 < h {
      PrefixLonger(groups, g, h - 1);
    }
  }

  lemma {:induction false} ArcCrosses(groups: seq<seq<Id>>, where: map<Id, nat>, order: seq<Id>, arcs: seq<Arc>,
                                      facts: map<Id, ParallelFacts>, d: Edge)
    requires Scheduled(groups, where, order, arcs, facts) && ArcOf(d) in arcs && d.source in order && d.target in order
    ensures Crosses(groups, d)
  {
    assert d.source in Elements(order) && d.target in Elements(order);
    assert d.target in groups[where[d.target]];
  }

  /** Every schedule derived from a plan passes the coverage check. */
  lemma {:induction false} ScheduleCovers(m: Manifest, plan: Plan, edges: seq<Edge>, facts: map<Id, ParallelFacts>,
                                          groups: seq<seq<Id>>, where: map<Id, nat>)
    requires ValidEdges(edges) && Schedulable(m, plan, edges, facts)
    requires Scheduled(groups, where, Versions(plan.nodes), ArcsOf(Selected(edges, Elements(Versions(plan.nodes)))),
                       facts)
    requires forall d :: d in plan.dependencies ==> d in Selected(edges, Elements(Versions(plan.nodes)))
    ensures CoversPlan(groups, plan)
  {
    var order, selected := Versions(plan.nodes), Selected(edges, Elements(Versions(plan.nodes)));
    WithinMeansValid(m, plan);
    PlanDistinct(plan);
    SelectedInside(edges, Elements(order), order);
    hide Scheduled, Schedulable, ValidEdges, Selected, ValidPlan;
    ScheduleIsTopological(groups, where, order, ArcsOf(selected), facts);
    forall d | d in plan.dependencies
      ensures Crosses(groups, d)
    {
      var i :| 0 <= i < |selected| && selected[i] == d;
      assert ArcsOf(selected)[i] == ArcOf(d);
      ArcCrosses(groups, where, order, ArcsOf(selected), facts, d);
    }
  }

  // ----- the pipeline

  /** parallelismFacts: requirements are read, provisions are written. */
  method ParallelismFactsOf(c: Candidate) returns (f: ParallelFacts)
    ensures NormalFacts(f) && ReadSet(f) == (set r | r in c.requirements :: r.resource.identity)
    ensures WriteSet(f) == set x | x in c.provisions :: x.resource.identity
    ensures !f.compensationBoundary && !f.policySerial && f.mutexKeys == []
  {
    var readIds := SortedSet(set r | r in c.requirements :: r.resource.identity);
    var writeIds := SortedSet(set x | x in c.provisions :: x.resource.identity);
    f := ParallelFacts(readIds, writeIds, [], [], false, false);
  }

  function ContractList(candidates: seq<PlannerCandidate>): (contracts: seq<Candidate>)
  {
    seq(|candidates|, i requires 0 <= i < |candidates| => candidates[i].contract)
  }

  /** Requirement ids are content hashes across the request's candidates. */
  predicate AuthenticRequest(candidates: seq<PlannerCandidate>)
  {
    forall c, d, r, s ::
      c in candidates && d in candidates && r in c.contract.requirements && s in d.contract.requirements && r.id == s.id
      ==> r == s
  }

  predicate SmallInterfaces(candidates: seq<PlannerCandidate>)
  {
    forall c :: c in candidates ==> |c.contract.requirements| + |c.contract.provisions| <= MAXIMUM_INTERFACE_ENTRIES
  }

  datatype IssueResult = Issued(plan: Plan, groups: seq<seq<Id>>) | IssuedPartial(plan: Plan)
                       | Refused | Interrupted | Inconsistent

  lemma {:induction false} ContractsAgree(p: Problem, m: Manifest, r: Request)
    requires Describes(p, m, r)
    ensures Contracts(p) == Elements(ContractList(r.candidates))
  {
    var list := ContractList(r.candidates);
    forall x | x in Contracts(p)
      ensures x in list
    {
      var v :| v in p.byVersion && p.byVersion[v].contract == x;
      var c :| c in r.candidates && c.contract.version == v;
      var i :| 0 <= i < |r.candidates| && r.candidates[i] == c;
      assert list[i] == x;
    }
    forall x | x in list
      ensures x in Contracts(p)
    {
      var i :| 0 <= i < |list| && list[i] == x;
      assert r.candidates[i] in r.candidates;
    }
  }

  lemma {:induction false} CandidateOf(p: Problem, m: Manifest, r: Request, v: Id) returns (c: PlannerCandidate)
    requires Describes(p, m, r) && v in p.byVersion
    ensures c in r.candidates && Keeps(c, p.byVersion[v])
  {
    c :| c in r.candidates && c.contract.version == v;
  }

  lemma {:induction false} RequestFacts(p: Problem, m: Manifest, r: Request)
    requires Describes(p, m, r)
    ensures AuthenticRequest(r.candidates) ==> IdsAuthentic(p)
    ensures SmallInterfaces(r.candidates) ==> EntriesBounded(p)
    ensures FactsFrom(r.candidates, FactsOf(p))
  {
    forall v | v in p.byVersion
      ensures exists c :: c in r.candidates && p.byVersion[v].contract == c.contract
    {
      var c := CandidateOf(p, m, r, v);
    }
    forall c | c in r.candidates
      ensures c.contract.version in FactsOf(p) && Normalizes(c.facts, FactsOf(p)[c.contract.version])
    {
      assert Keeps(c, p.byVersion[c.contract.version]);
    }
    hide Normalizes, Keeps;
  }

  /** A well-formed request passes the checks the scheduler repeats. */
  lemma {:induction false} RepeatPasses(m: Manifest, r: Request)
    requires WellFormed(m, r)
    ensures InputsSchedulable(m, r.edges, r.candidates)
  {
    hide ValidManifest, ValidEdges, WithinCandidateLimits, CleanIds, CleanFacts, PlanRequests.DistinctVersions,
         KnownEnds;
  }

  lemma {:induction false} MatchedApart(candidates: set<Candidate>, rules: seq<Rule>)
    ensures forall pair :: pair in Collect(AllQuads(candidates), rules) ==> pair.source != pair.target
  {
  }

  /** From candidates to a scheduled plan. A complete plan is always scheduled
      unless the work budget or the caller stops it, the schedule always passes the
      coverage check, and every requirement of every member is accounted for. */
  method Issue(m: Manifest, rules: seq<Rule>, limits: Limits, candidates: seq<PlannerCandidate>, goals: seq<Id>,
               satisfied: seq<Id>, edgeHash: EdgeContent -> Id, planHash: Plan -> Id)
    returns (result: IssueResult, ghost p: Problem, ghost best: State)
    requires SortedRules(rules) && InjectiveEdges(edgeHash) && Injective(planHash)
    requires AuthenticRequest(candidates)
    ensures !result.Inconsistent?
    ensures result.Issued? || result.IssuedPartial? ==>
              && ValidProblem(p) && BuiltFrom(p, rules) && IdsAuthentic(p)
              && Describes(p, m, Request(p.edges, goals, satisfied, candidates))
              && IsState(p, planHash, best) && Reachable(p, best.nodes) && best.nodes <= p.byVersion.Keys
              && result.plan == best.plan.(limitCodes := result.plan.limitCodes)
              && (result.Issued? <==> Complete(p, best.nodes))
    ensures result.Issued? ==>
              && CoversPlan(result.groups, result.plan) && ConflictFree(result.groups, FactsOf(p))
              && (forall g :: 0 <= g < |result.groups| ==> result.groups[g] != [])
              && IsTopological(Flatten(result.groups), best.nodes, ChosenArcs(p, best.nodes))
  {
    hide Describes, ValidProblem, BuiltFrom, IdsAuthentic, IsState, Reachable, Complete, AuthenticRequest, SortedRules,
         InjectiveEdges, Injective, ValidCandidates, SmallInterfaces, ValidEdges, Schedulable, Scheduled, Explored,
         AtLeast, CoversPlan, ConflictFree, IsTopological, EntriesBounded, GraphOf, WellFormed, Exhausted, Has,
         Unlimited, FactsFrom, InputsSchedulable, Keeps;
    var noPlan := Plan([], [], [], [], [], [], [], [], [], {}, false, 0, false, 0, 0);
    p, best := Problem(m, [], [], [], map[], []), State(noPlan, {}, 0);
    var contracts := ContractList(candidates);
    if !ValidCandidates(contracts) || !SmallInterfaces(candidates) {
      return Refused, p, best;
    }
    var join := CompatibilityJoin.IndexCompatibilityMatches(contracts, rules, limits);
    if !join.Joined? {
      return if join.LimitExceeded? then Refused else Interrupted, p, best;
    }
    MatchedApart(Elements(contracts), rules);
    var edges := BuildEdges(join.matches, edgeHash);
    var request := Request(edges, goals, satisfied, candidates);
    var answer;
    answer, p, best := BuildPlan(m, request, planHash);
    if !answer.Plans? {
      return if answer.NotPlanned? then Refused else Interrupted, p, best;
    }
    var plan := answer.plan;
    ContractsAgree(p, m, request);
    RequestFacts(p, m, request);
    DescribedGraph(m, request, p);
    BuiltFromJoin(p, rules, contracts, edges, join.matches);
    BestState(p, planHash, best);
    if !plan.complete {
      return IssuedPartial(plan), p, best;
    }
    PlannerPlanSchedulable(p, rules, planHash, best, plan.limitCodes);
    var second := new WorkBudget(m.maximumWork);
    ghost var facts := FactsOf(p);
    ManifestKept(p, m, request);
    RepeatPasses(m, request);
    var scheduled, used, where := DeriveParallelSchedule(m, plan, edges, candidates, second);
    assert PlanSchedulable(m, plan, edges, candidates);
    FactsAreOne(candidates, facts);
    match scheduled {
      case ScheduleWorkLimit => result := Interrupted;
      case ScheduleCancelled => result := Interrupted;
      case InvalidRequest => result := Inconsistent;
      case Schedule(groups) =>
        DraftHolds(p, rules, planHash, best, plan, facts, groups, where);
        var covers := ScheduleCoversPlan(groups, plan);
        result := if covers then Issued(plan, groups) else Inconsistent;
    }
  }

  lemma {:induction false} ManifestKept(p: Problem, m: Manifest, r: Request)
    requires Describes(p, m, r) && ValidProblem(p)
    ensures p.manifest == m && ValidEdges(p.edges)
  {
  }

  lemma {:induction false} BuiltFromJoin(p: Problem, rules: seq<Rule>, contracts: seq<Candidate>, edges: seq<Edge>,
                                         matches: map<VersionPair, Match>)
    requires Contracts(p) == Elements(contracts) && p.edges == edges
    requires matches == Collect(AllQuads(Elements(contracts)), rules) && GraphOf(edges, matches)
    ensures BuiltFrom(p, rules)
  {
    hide GraphOf, Collect, AllQuads;
  }

  lemma {:induction false} BestState(p: Problem, hash: Plan -> Id, best: State)
    requires ValidProblem(p) && IsState(p, hash, best)
    ensures best.nodes <= p.byVersion.Keys
    ensures best.plan.complete == Complete(p, best.nodes)
  {
  }

  /** What the draft relies on: distinct nodes, dependencies inside the plan, a covering schedule. */
  lemma {:induction false} DraftHolds(p: Problem, rules: seq<Rule>, hash: Plan -> Id, best: State, plan: Plan,
                                      facts: map<Id, ParallelFacts>, groups: seq<seq<Id>>, where: map<Id, nat>)
    requires ValidProblem(p) && IsState(p, hash, best) && plan == best.plan.(limitCodes := plan.limitCodes)
    requires Schedulable(p.manifest, plan, p.edges, facts)
    requires Scheduled(groups, where, Versions(plan.nodes), ArcsOf(Selected(p.edges, Elements(Versions(plan.nodes)))),
                       facts)
    ensures NoDuplicates(Versions(plan.nodes))
    ensures forall d :: d in plan.dependencies ==> d.source in Versions(plan.nodes) && d.target in Versions(plan.nodes)
    ensures CoversPlan(groups, plan) && ConflictFree(groups, facts)
            && (forall g :: 0 <= g < |groups| ==> groups[g] != [])
    ensures IsTopological(Flatten(groups), best.nodes, ChosenArcs(p, best.nodes))
  {
    hide IsState, ValidPlan, RecordsEdges, Feasible, IsTopological, CoversPlan, ConflictFree;
    PlanFields(p, hash, best);
    PlannerRecordsEdges(p, hash, best);
    PlanDistinct(plan);
    ProblemFacts(p);
    ScheduleIsTopological(groups, where, Versions(plan.nodes), ArcsOf(Selected(p.edges, best.nodes)), facts);
    ScheduleCovers(p.manifest, plan, p.edges, facts, groups, where);
    SelectedInside(p.edges, best.nodes, Versions(plan.nodes));
  }

  lemma {:induction false} SelectedInside(edges: seq<Edge>, chosen: set<Id>, versions: seq<Id>)
    requires Elements(versions) == chosen
    ensures forall d :: d in Selected(edges, chosen) ==> d.source in versions && d.target in versions
  {
    SelectedHolds(edges, chosen);
    assert forall v :: v in chosen ==> v in versions by {
      assert forall v :: v in Elements(versions) ==> v in versions;
    }
  }
}
