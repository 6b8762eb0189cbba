/** The planner as its callers see it: validation and search on one work budget, and limits a caller
can check beforehand under which neither is cut short. */
module Planner {
  import opened Identifiers
  import opened Budgets
  import opened Planning
  import opened Reachability
  import opened SearchLimits
  import opened PlanMeaning
  import opened PlannerSearch
  import opened PlanRequests

  datatype Answer = Plans(plan: Plan) | NotPlanned | OutOfWork | PlanningCancelled

  function SeedVersions(candidates: seq<PlannerCandidate>): (versions: set<Id>)
  {
    set c | c in candidates && c.seed :: c.contract.version
  }

  /** The beam holds every level, and the expansions and the work suffice for every set of candidates
      within the depth. */
  predicate Ample(m: Manifest, r: Request)
  {
    var n, depth := |r.candidates|, m.maximumDepth;
    && (forall k :: 1 <= k <= depth ==> Choose(n, k) <= m.beamWidth)
    && Expansions(n, depth) < m.maximumExpansions
    && InputCharge(r) + |SeedVersions(r.candidates)| + Product(|r.edges|, Scans(n, depth) + Expansions(n, depth))
       <= m.maximumWork
  }

  ghost predicate NoBetter(p: Problem, hash: Plan -> Id, best: State, chosen: set<Id>)
    requires ValidProblem(p)
  {
    exists s :: IsState(p, hash, s) && s.nodes == chosen && AtLeast(best, s)
  }

  /** No set that can be reached within the depth has a better plan. */
  ghost predicate Optimal(p: Problem, hash: Plan -> Id, best: State)
    requires ValidProblem(p)
  {
    forall chosen :: Reachable(p, chosen) && |chosen| <= p.manifest.maximumDepth ==> NoBetter(p, hash, best, chosen)
  }

  /** Every set that can be reached within the depth has a plan that does not outdo this one. */
  ghost predicate Unsurpassed(p: Problem, plan: Plan)
  {
    forall chosen :: Reachable(p, chosen) && |chosen| <= p.manifest.maximumDepth ==>
        chosen <= p.byVersion.Keys && exists other :: Means(p, chosen, other) && NotOutdone(plan, other)
  }

  /** Limits that are ample are never reported, so the plan is the best there is. */
  method BuildPlan(m: Manifest, r: Request, hash: Plan -> Id)
    returns (answer: Answer, ghost p: Problem, ghost best: State)
    requires Injective(hash)
    ensures answer.Plans? ==>
              && WellFormed(m, r) && ValidProblem(p) && Describes(p, m, r)
              && IsState(p, hash, best) && Reachable(p, best.nodes)
              && answer.plan == best.plan.(limitCodes := answer.plan.limitCodes)
              && best.nodes <= p.byVersion.Keys && Means(p, best.nodes, answer.plan)
    ensures answer.Plans? && Unlimited(answer.plan.limitCodes) ==>
              Optimal(p, hash, best) && Unsurpassed(p, answer.plan)
    ensures answer.Plans? && DepthExhausted in answer.plan.limitCodes ==> !answer.plan.complete
    ensures Ample(m, r) ==> !answer.OutOfWork?
    ensures Ample(m, r) && answer.Plans? ==> Unlimited(answer.plan.limitCodes)
    ensures Ample(m, r) && answer.NotPlanned? && WellFormed(m, r) ==>
              ValidProblem(p) && Describes(p, m, r) && forall v :: v in p.seeds ==> !Feasible(p, {v})
  {
    hide WellFormed, ValidProblem, Describes, IsState, Reachable, Explored, Exhausted, Feasible, AtLeast, Ample, Roomy,
         Injective, InputCharge, Optimal, Means, NotOutdone, Unsurpassed;
    p := Problem(m, [], [], [], map[], []);
    best := State(Plan([], [], [], [], [], [], [], [], [], {}, false, 0, false, 0, 0), {}, 0);
    var budget := new WorkBudget(m.maximumWork);
    AmpleForInput(m, r);
    var input := ValidatePlanInputs(m, r, budget);
    match input {
      case Rejected => return NotPlanned, p, best;
      case InputWorkLimit => return OutOfWork, p, best;
      case InputCancelled => return PlanningCancelled, p, best;
      case Accepted(problem) =>
        p := problem;
        AmpleIsRoomy(m, r, p);
        var result;
        ghost var built;
        result, best, built := PlanProcedures(problem, hash, budget);
        match result {
          case NoPlan => return NotPlanned, p, best;
          case PlanCancelled => return PlanningCancelled, p, best;
          case Planned(plan) =>
            BuiltState(p, hash, built, best);
            PlanMeans(p, hash, best);
            CodesMeanNothing(p, best.nodes, best.plan, plan.limitCodes);
            if Unlimited(plan.limitCodes) {
              ExhaustedIsOptimal(p, hash, built, best);
              OptimalUnsurpassed(p, hash, best, plan);
            }
            return Plans(plan), p, best;
        }
    }
  }

  lemma {:induction false} CodesMeanNothing(p: Problem, chosen: set<Id>, plan: Plan, codes: set<LimitCode>)
    requires chosen <= p.byVersion.Keys && Means(p, chosen, plan)
    ensures Means(p, chosen, plan.(limitCodes := codes))
  {
    hide Credits, Sum, Risks, ToolCosts, Covers, Met, Joins;
  }

  lemma {:induction false} OptimalUnsurpassed(p: Problem, hash: Plan -> Id, best: State, plan: Plan)
    requires ValidProblem(p) && Optimal(p, hash, best) && plan == best.plan.(limitCodes := plan.limitCodes)
    ensures Unsurpassed(p, plan)
  {
    hide ValidProblem, IsState, Reachable, AtLeast, Means, NotOutdone;
    forall chosen | Reachable(p, chosen) && |chosen| <= p.manifest.maximumDepth
      ensures chosen <= p.byVersion.Keys && exists other :: Means(p, chosen, other) && NotOutdone(plan, other)
    {
      assert NoBetter(p, hash, best, chosen);
      var s :| IsState(p, hash, s) && s.nodes == chosen && AtLeast(best, s);
      PlanMeans(p, hash, s);
      AtLeastMeans(best, s);
      CodesAside(best.plan, plan.limitCodes, s.plan);
    }
  }

  lemma {:induction false} BuiltState(p: Problem, hash: Plan -> Id, built: set<State>, best: State)
    requires ValidProblem(p) && Explored(p, hash, built) && best in built
    ensures IsState(p, hash, best) && Reachable(p, best.nodes)
  {
  }

  lemma {:induction false} ExhaustedIsOptimal(p: Problem, hash: Plan -> Id, built: set<State>, best: State)
    requires ValidProblem(p) && Explored(p, hash, built) && Exhausted(p, built, p.manifest.maximumDepth)
    requires forall s :: s in built ==> AtLeast(best, s)
    ensures Optimal(p, hash, best)
  {
    hide ValidProblem, IsState, Reachable, AtLeast;
    forall chosen | Reachable(p, chosen) && |chosen| <= p.manifest.maximumDepth
      ensures NoBetter(p, hash, best, chosen)
    {
      assert Has(built, chosen);
      var s :| s in built && s.nodes == chosen;
    }
  }

  /** Where one set of versions alone makes a complete plan, that plan is the best. */
  lemma {:induction false} OnlyComplete(p: Problem, hash: Plan -> Id, best: State, whole: set<Id>)
    requires ValidProblem(p) && IsState(p, hash, best) && Optimal(p, hash, best)
    requires Reachable(p, whole) && |whole| <= p.manifest.maximumDepth
    requires whole <= p.byVersion.Keys && Complete(p, whole)
    requires forall chosen :: chosen <= p.byVersion.Keys && Complete(p, chosen) ==> chosen == whole
    ensures best.nodes == whole
  {
    hide ValidProblem, IsState, Reachable, Complete;
    CompletePlan(p, hash, best);
    assert NoBetter(p, hash, best, whole);
    var s :| IsState(p, hash, s) && s.nodes == whole && AtLeast(best, s);
    CompletePlan(p, hash, s);
  }

  lemma {:induction false} CompletePlan(p: Problem, hash: Plan -> Id, s: State)
    requires ValidProblem(p) && IsState(p, hash, s)
    ensures s.nodes <= p.byVersion.Keys && s.plan.complete == Complete(p, s.nodes)
  {
  }

  lemma {:induction false} AmpleForInput(m: Manifest, r: Request)
    ensures Ample(m, r) ==> InputCharge(r) <= m.maximumWork
  {
  }

  /** What is ample for a request leaves room for the search of its problem. */
  lemma {:induction false} AmpleIsRoomy(m: Manifest, r: Request, p: Problem)
    requires ValidProblem(p) && Describes(p, m, r) && WellFormed(m, r)
    ensures Ample(m, r) ==> Roomy(p, InputCharge(r), m.maximumWork)
  {
    hide ValidProblem, Describes, WellFormed, InputCharge, Choose, Expansions, Scans, Product, SeedVersions,
         PlanRequests.DistinctVersions;
    FormedApart(m, r);
    CandidatesCounted(m, r, p);
    SeedsCounted(m, r, p);
    DescribedGraph(m, r, p);
  }

  lemma {:induction false} FormedApart(m: Manifest, r: Request)
    requires WellFormed(m, r)
    ensures PlanRequests.DistinctVersions(r.candidates)
  {
  }

  lemma {:induction false} DescribedGraph(m: Manifest, r: Request, p: Problem)
    requires Describes(p, m, r)
    ensures p.manifest == m && p.edges == r.edges
  {
  }

  lemma {:induction false} CandidatesCounted(m: Manifest, r: Request, p: Problem)
    requires Describes(p, m, r) && PlanRequests.DistinctVersions(r.candidates)
    ensures |p.byVersion| == |r.candidates|
  {
    assert |p.byVersion| == |p.byVersion.Keys|;
    VersionsCounted(r.candidates);
  }

  lemma {:induction false} VersionsCounted(candidates: seq<PlannerCandidate>)
    requires PlanRequests.DistinctVersions(candidates)
    ensures |VersionSet(candidates)| == |candidates|
  {
    hide VersionSet, PlanRequests.DistinctVersions;
    if candidates == [] {
      NoVersions();
    } else {
      var n := |candidates| - 1;
      var init := candidates[..n];
      LastIsNew(candidates);
      VersionsCounted(init);
      VersionSetNext(init, candidates[n]);
      assert candidates == init + [candidates[n]];
    }
  }

  lemma {:induction false} NoVersions()
    ensures VersionSet([]) == {}
  {
  }

  lemma {:induction false} LastIsNew(candidates: seq<PlannerCandidate>)
    requires candidates != [] && PlanRequests.DistinctVersions(candidates)
    ensures candidates[|candidates| - 1].contract.version !in VersionSet(candidates[..|candidates| - 1])
    ensures PlanRequests.DistinctVersions(candidates[..|candidates| - 1])
  {
    var n := |candidates| - 1;
    var init := candidates[..n];
    forall c | c in init
      ensures c.contract.version != candidates[n].contract.version
    {
      var k :| 0 <= k < n && init[k] == c;
      assert candidates[k] == c;
    }
  }

  lemma {:induction false} SeedsCounted(m: Manifest, r: Request, p: Problem)
    requires ValidProblem(p) && Describes(p, m, r)
    ensures |p.seeds| == |SeedVersions(r.candidates)|
  {
    NoDuplicatesSize(p.seeds);
    forall v
      ensures v in Elements(p.seeds) <==> v in SeedVersions(r.candidates)
    {
      if v in Elements(p.seeds) {
        assert v in VersionSet(r.candidates);
        var c :| c in r.candidates && c.contract.version == v;
        assert Keeps(c, p.byVersion[v]);
      }
      if v in SeedVersions(r.candidates) {
        var c :| c in r.candidates && c.seed && c.contract.version == v;
        assert Keeps(c, p.byVersion[v]);
      }
    }
    assert Elements(p.seeds) == SeedVersions(r.candidates);
  }
}
