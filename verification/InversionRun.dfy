/** The planner and the scheduler on the request of `InversionCase`: unless it is cancelled, the
planner returns the plan of all four versions, and whatever schedule comes back of it inverts two
writers. */
module InversionRun {
  import opened Identifiers
  import opened Budgets
  import opened Compatibility
  import opened Planning
  import opened SearchStates
  import opened Reachability
  import opened SearchLimits
  import opened Digraph
  import opened PlanRequests
  import opened Planner
  import opened PlannerSearch
  import opened ParallelSchedule
  import opened PlaceOrder
  import opened Scheduling
  import opened Issuer
  import opened InversionCase

  const MEMBER_LIST := [MEMBERS[1], MEMBERS[2], MEMBERS[3], MEMBERS[4]]
  const RAW := Request(EDGES, [7, 8], [], MEMBER_LIST)

  // ----- the request is well formed and its limits are ample

  lemma {:induction false} ChooseFour()
    ensures Choose(4, 1) == 4 && Choose(4, 2) == 6 && Choose(4, 3) == 4 && Choose(4, 4) == 1
    ensures Scans(4, 4) == 14 && Expansions(4, 4) == 28
  {
    assert Choose(1, 1) == 1 && Choose(1, 2) == 0;
    assert Choose(2, 1) == 2 && Choose(2, 2) == 1 && Choose(2, 3) == 0;
    assert Choose(3, 1) == 3 && Choose(3, 2) == 3 && Choose(3, 3) == 1 && Choose(3, 4) == 0;
    assert Scans(4, 2) == 4 && Scans(4, 3) == 10;
    assert Expansions(4, 2) == 12 && Expansions(4, 3) == 24;
  }

  lemma {:induction false} ChargesAre()
    ensures GoalTotal(MEMBER_LIST) == 2 && EntryTotal(MEMBER_LIST) == 7 && InputCharge(RAW) == 32
  {
    var three, two, one := MEMBER_LIST[..3], MEMBER_LIST[..2], MEMBER_LIST[..1];
    assert MEMBER_LIST[..0] == [] && one[..0] == [] && two[..1] == one && three[..2] == two;
    assert GoalTotal(one) == 0 && EntryTotal(one) == 1;
    assert GoalTotal(two) == 0 && EntryTotal(two) == 3;
    assert GoalTotal(three) == 1 && EntryTotal(three) == 5;
  }

  lemma {:induction false} ListIs()
    ensures forall c :: c in MEMBER_LIST <==> c == MEMBERS[1] || c == MEMBERS[2] || c == MEMBERS[3] || c == MEMBERS[4]
    ensures VersionSet(MEMBER_LIST) == ALL && SeedVersions(MEMBER_LIST) == ALL
    ensures forall v :: v in MEMBERS ==> MEMBERS[v] in MEMBER_LIST
  {
    MembersAre();
    hide GoodMember;
    assert MEMBER_LIST[0] in MEMBER_LIST && MEMBER_LIST[1] in MEMBER_LIST;
    assert MEMBER_LIST[2] in MEMBER_LIST && MEMBER_LIST[3] in MEMBER_LIST;
    VersionsAre();
    hide MEMBERS, MEMBER_LIST;
  }

  lemma {:induction false} VersionsAre()
    ensures VersionSet(MEMBER_LIST) == ALL && SeedVersions(MEMBER_LIST) == ALL
  {
    assert MEMBER_LIST[0].contract.version == 1 && MEMBER_LIST[1].contract.version == 2;
    assert MEMBER_LIST[2].contract.version == 3 && MEMBER_LIST[3].contract.version == 4;
  }

  lemma {:induction false} SizesAre()
    ensures |RAW.candidates| == 4 && |RAW.edges| == 3 && |ALL| == 4 && RAW.candidates == MEMBER_LIST
    ensures REQUEST.manifest == Manifest(4, 2, 1, 6, 4, 4, 0, 4, 64, 256, 0, 0, 2, 2, 8)
  {
  }

  lemma {:induction false} RequestAmple()
    ensures Ample(REQUEST.manifest, RAW)
  {
    hide Choose, Scans, Expansions, InputCharge, SeedVersions, VersionSet, MEMBERS, EDGES, MEMBER_LIST, REQUEST, RAW,
         ALL;
    ChooseFour();
    ChargesAre();
    ListIs();
    SizesAre();
  }

  lemma {:induction false} MemberClean(v: Id)
    requires v in MEMBERS
    ensures CleanCandidate(MEMBERS[v]) && Keeps(MEMBERS[v], MEMBERS[v])
    ensures |MEMBERS[v].goals| <= 2 && Entries(MEMBERS[v].facts) <= 2
  {
  }

  lemma {:induction false} ListClean()
    ensures forall c :: c in MEMBER_LIST ==>
              && CleanCandidate(c) && Keeps(c, c) && |c.goals| <= 2 && Entries(c.facts) <= 2
              && c.contract.version in MEMBERS && MEMBERS[c.contract.version] == c
  {
    hide MEMBERS, MEMBER_LIST, CleanCandidate, Keeps, Entries, ValidInterface, VersionSet, SeedVersions;
    ListIs();
    MembersAre();
    MemberClean(1);
    MemberClean(2);
    MemberClean(3);
    MemberClean(4);
    forall c | c in MEMBER_LIST
      ensures CleanCandidate(c) && Keeps(c, c) && |c.goals| <= 2 && Entries(c.facts) <= 2
      ensures c.contract.version in MEMBERS && MEMBERS[c.contract.version] == c
    {
      assert GoodMember(1, MEMBERS[1]) && GoodMember(2, MEMBERS[2]) && GoodMember(3, MEMBERS[3])
             && GoodMember(4, MEMBERS[4]);
    }
  }

  lemma {:induction false} RequestFormed()
    ensures WellFormed(REQUEST.manifest, RAW)
  {
    hide ValidEdges, CleanCandidate, Keeps, GoodMember, MEMBERS, MEMBER_LIST, EDGES, GoalTotal, EntryTotal, Entries,
         VersionSet, PlanRequests.DistinctVersions, REQUEST, ALL;
    EdgesValid();
    EdgesInside();
    ListIs();
    ListClean();
    ChargesAre();
    ListApart();
    MembersAre();
    SizesAre();
    FirstIsSeed();
  }

  lemma {:induction false} FirstIsSeed()
    ensures MEMBERS[1] in MEMBER_LIST && MEMBERS[1].seed
  {
    assert MEMBER_LIST[0] == MEMBERS[1];
  }

  lemma {:induction false} ListApart()
    ensures PlanRequests.DistinctVersions(MEMBER_LIST) && |EDGES| == 3
  {
  }

  lemma {:induction false} RequestDescribed()
    ensures Describes(REQUEST, REQUEST.manifest, RAW)
  {
    ListIs();
    ListClean();
    MembersAre();
    hide CleanCandidate, Keeps, GoodMember, MEMBERS, MEMBER_LIST, EDGES, VersionSet;
  }

  // ----- the planner has only one complete plan to return

  /** Goal 7 needs version 3, goal 8 version 4; they need what 2 and 1 make. */
  lemma {:induction false} OnlyWhole(chosen: set<Id>)
    requires chosen <= REQUEST.byVersion.Keys && Complete(REQUEST, chosen)
    ensures chosen == ALL
  {
    hide Complete, MEMBERS, GoodMember, EDGES;
    MembersAre();
    GoalsTaken(chosen);
    NeedsMet(chosen);
  }

  lemma {:induction false} GoalsTaken(chosen: set<Id>)
    requires chosen <= REQUEST.byVersion.Keys && Complete(REQUEST, chosen)
    ensures 3 in chosen && 4 in chosen
  {
    assert 7 in REQUEST.goals && 8 in REQUEST.goals;
    assert UncoveredGoal(7) !in GapsOf(REQUEST, chosen) && UncoveredGoal(8) !in GapsOf(REQUEST, chosen);
    assert 7 in CoveredGoals(REQUEST, chosen) && 8 in CoveredGoals(REQUEST, chosen);
    hide GapsOf, Complete;
  }

  lemma {:induction false} NeedsMet(chosen: set<Id>)
    requires chosen <= REQUEST.byVersion.Keys && Complete(REQUEST, chosen) && 3 in chosen && 4 in chosen
    ensures 1 in chosen && 2 in chosen
  {
    NeedsSatisfied(chosen);
    hide GapsOf, Complete, MEMBERS, RequirementGaps, CoveredGoals, Selected;
    SelectedHolds(EDGES, chosen);
    var e :| e in Selected(EDGES, chosen) && 12 in e.requirements;
    var d :| d in Selected(EDGES, chosen) && 11 in d.requirements;
    assert e == TWO_TO_THREE;
  }

  lemma {:induction false} NeedsSatisfied(chosen: set<Id>)
    requires chosen <= REQUEST.byVersion.Keys && Complete(REQUEST, chosen) && 3 in chosen && 4 in chosen
    ensures 11 in SatisfiedIds(REQUEST, chosen) && 12 in SatisfiedIds(REQUEST, chosen)
  {
    hide SatisfiedIds, CoveredGoals, EDGES;
    assert NEEDS_MIDDLE in MEMBERS[3].contract.requirements && NEEDS_BASE in MEMBERS[4].contract.requirements;
    assert UnsatisfiedRequirement(3, 12) !in GapsOf(REQUEST, chosen);
    assert UnsatisfiedRequirement(4, 11) !in GapsOf(REQUEST, chosen);
  }

  /** So the best of all reachable plans is the whole plan. */
  lemma {:induction false} BestIsWhole(hash: Plan -> Id, best: State)
    requires ValidProblem(REQUEST) && IsState(REQUEST, hash, best) && Optimal(REQUEST, hash, best)
    ensures best.nodes == ALL && best.plan == WHOLE_PLAN
  {
    hide ValidProblem, Reachable, IsPlan, Feasible, ALL, WHOLE_PLAN, Complete, Optimal, MEMBERS, EDGES, REQUEST;
    var whole := State(WHOLE_PLAN, ALL, hash(WHOLE_PLAN));
    WholeIsPlan();
    WholeReachable();
    Whole();
    SizesAre();
    forall chosen | chosen <= REQUEST.byVersion.Keys && Complete(REQUEST, chosen)
      ensures chosen == ALL
    {
      OnlyWhole(chosen);
    }
    assert IsState(REQUEST, hash, whole);
    OnlyComplete(REQUEST, hash, best, ALL);
    StateUnique(REQUEST, hash, best, whole);
  }

  // ----- the run

  /** The planner on this request, and the scheduler on its plan. */
  method RunInverted(hash: Plan -> Id) returns (answer: Answer, schedule: ScheduleResult)
    requires Injective(hash)
    ensures answer.Plans? || answer.PlanningCancelled?
    ensures answer.Plans? ==> answer.plan == WHOLE_PLAN && (schedule.Schedule? || schedule.ScheduleCancelled?)
    ensures answer.Plans? && schedule.Schedule? ==> !AlwaysLikePlan(schedule.groups, PLAN_ORDER, FACTS)
  {
    hide ValidProblem, Describes, WellFormed, Ample, IsState, Reachable, Optimal, Injective, Feasible, MEMBERS, EDGES,
         WHOLE_PLAN, AlwaysLikePlan, ScheduleCost, MEMBER_LIST, InputsSchedulable, Schedulable, FactsFrom, Scheduled,
         ValidEdges;
    schedule := ScheduleCancelled;
    ghost var p, best;
    answer, p, best := BuildPlan(REQUEST.manifest, RAW, hash);
    RequestAmple();
    RequestFormed();
    if answer.NotPlanned? {
      SeedFeasible(p);
    }
    if !answer.Plans? {
      return;
    }
    PlanReturned(hash, p, best, answer.plan);
    EdgesValid();
    ScheduleAccepts(hash);
    SchedulePays();
    var budget := new WorkBudget(REQUEST.manifest.maximumWork);
    var facts, where;
    schedule, facts, where := DeriveParallelSchedule(REQUEST.manifest, answer.plan, EDGES, MEMBER_LIST, budget);
    if schedule.Schedule? {
      AnyScheduleInverts(hash, schedule.groups, where, facts);
    }
  }

  /** Every version of the request is a feasible seed. */
  lemma {:induction false} SeedFeasible(p: Problem)
    requires ValidProblem(p) && Describes(p, REQUEST.manifest, RAW)
    ensures exists v :: v in p.seeds && Feasible(p, {v})
  {
    RequestValid();
    RequestDescribed();
    DescribesUnique(p, REQUEST, REQUEST.manifest, RAW);
    AnyFeasible({1});
    hide Feasible, ValidProblem, Describes;
    assert 1 in REQUEST.seeds;
  }

  lemma {:induction false} PlanReturned(hash: Plan -> Id, p: Problem, best: State, plan: Plan)
    requires ValidProblem(p) && Describes(p, REQUEST.manifest, RAW) && IsState(p, hash, best) && Optimal(p, hash, best)
    requires plan == best.plan.(limitCodes := plan.limitCodes) && Unlimited(plan.limitCodes)
    requires DepthExhausted in plan.limitCodes ==> !plan.complete
    ensures plan == WHOLE_PLAN
  {
    hide ValidProblem, Describes, IsState, Optimal;
    RequestValid();
    RequestDescribed();
    DescribesUnique(p, REQUEST, REQUEST.manifest, RAW);
    BestIsWhole(hash, best);
  }

  lemma {:induction false} SchedulePays()
    ensures ScheduleCost(REQUEST.manifest, WHOLE_PLAN, EDGES, MEMBER_LIST) == 110 && REQUEST.manifest.maximumWork == 256
  {
    hide GoalTotal, EntryTotal, MEMBERS, MEMBER_LIST, REQUEST;
    ChargesAre();
    SizesAre();
    assert |WHOLE_PLAN.nodes| == 4 && RAW.edges == EDGES && RAW.candidates == MEMBER_LIST;
    assert PairCount(2) == 1 && PairCount(4) == 6;
    assert Product(13, 6) == 78;
  }

  lemma {:induction false} ScheduleAccepts(hash: Plan -> Id)
    ensures InputsSchedulable(REQUEST.manifest, EDGES, MEMBER_LIST)
    ensures PlanSchedulable(REQUEST.manifest, WHOLE_PLAN, EDGES, MEMBER_LIST)
  {
    hide WellFormed, Describes, InputsSchedulable, Schedulable, FactsFrom, MEMBERS, MEMBER_LIST, WHOLE_PLAN, Scheduled,
         AlwaysLikePlan;
    RequestFormed();
    RepeatPasses(REQUEST.manifest, RAW);
    RequestDescribed();
    RequestFacts(REQUEST, REQUEST.manifest, RAW);
    InversionHappens(hash);
  }

  /** Any schedule of this plan puts 4 before 3. */
  lemma {:induction false} AnyScheduleInverts(hash: Plan -> Id, groups: seq<seq<Id>>, where: map<Id, nat>,
                                              facts: map<Id, ParallelFacts>)
    requires FactsFrom(MEMBER_LIST, facts)
    requires Scheduled(groups, where, Versions(WHOLE_PLAN.nodes),
                       ArcsOf(Selected(EDGES, Elements(Versions(WHOLE_PLAN.nodes)))), facts)
    ensures !AlwaysLikePlan(groups, PLAN_ORDER, FACTS)
  {
    hide Describes, FactsFrom, MEMBERS, MEMBER_LIST, Scheduled, AlwaysLikePlan, PlacesKeepOrder, Reachable,
         ValidProblem;
    RequestDescribed();
    RequestFacts(REQUEST, REQUEST.manifest, RAW);
    FactsAreOne(MEMBER_LIST, facts);
    FactsAre();
    InversionHappens(hash);
    OrderShape();
    LikePlanExactly(GROUPS, PLACES, PLAN_ORDER, ARCS, FACTS);
    LikePlanExactly(groups, where, PLAN_ORDER, ARCS, FACTS);
  }

  lemma {:induction false} OrderShape()
    ensures Elements(PLAN_ORDER) == ALL && NoDuplicates(PLAN_ORDER) && Forward(PLAN_ORDER, ARCS)
    ensures Within(ARCS, Elements(PLAN_ORDER)) && forall v :: v in PLAN_ORDER ==> v in FACTS
  {
  }
}
