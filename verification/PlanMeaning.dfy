/** What a plan of a set of versions says about them, field by field, and which of two plans the planner
prefers. Nothing here depends on the order in which the planner tallies its nodes. */
module PlanMeaning {
  import opened Identifiers
  import opened Sorting
  import opened Digraph
  import opened Kahn
  import opened Planning
  import opened SearchStates
  import opened Reachability

  // ----- preference

  predicate SameGoals(a: Plan, b: Plan)
  {
    a.complete == b.complete && |a.covered| == |b.covered|
  }

  predicate SameEvidence(a: Plan, b: Plan)
  {
    SameGoals(a, b) && a.evidence == b.evidence && a.allObserved == b.allObserved && |a.satisfied| == |b.satisfied|
  }

  /** Nothing speaks for the other plan: completeness first, then the number of goals covered, the
      evidence, whether all was observed, the number of requirements met, less risk, less tool cost,
      fewer nodes. */
  predicate NotOutdone(plan: Plan, other: Plan)
  {
    && (other.complete ==> plan.complete)
    && (other.complete == plan.complete ==> |other.covered| <= |plan.covered|)
    && (SameGoals(plan, other) ==> other.evidence <= plan.evidence)
    && (SameGoals(plan, other) && plan.evidence == other.evidence ==> (other.allObserved ==> plan.allObserved))
    && (SameGoals(plan, other) && plan.evidence == other.evidence && plan.allObserved == other.allObserved ==>
          |other.satisfied| <= |plan.satisfied|)
    && (SameEvidence(plan, other) ==> plan.risk <= other.risk)
    && (SameEvidence(plan, other) && plan.risk == other.risk ==> plan.toolCost <= other.toolCost)
    && (SameEvidence(plan, other) && plan.risk == other.risk && plan.toolCost == other.toolCost ==>
          |plan.nodes| <= |other.nodes|)
  }

  /** The plans differ in something the planner looks at. */
  predicate Distinguished(a: Plan, b: Plan)
  {
    !SameEvidence(a, b) || a.risk != b.risk || a.toolCost != b.toolCost || |a.nodes| != |b.nodes|
  }

  /** What it means that a state is preferred; the hash decides between plans that are alike. */
  lemma {:induction false} AtLeastMeans(a: State, b: State)
    requires AtLeast(a, b)
    ensures NotOutdone(a.plan, b.plan) && (!Distinguished(a.plan, b.plan) ==> a.hash <= b.hash)
  {
  }

  // ----- the fields of a plan

  /** Costs added over a set, taking the least version first. */
  ghost function Sum(versions: set<Id>, cost: map<Id, nat>): (n: nat)
    requires versions <= cost.Keys
    decreases |versions|
  {
    if versions == {} then 0 else
      var v := MinOf(versions);
      cost[v] + Sum(versions - {v}, cost)
  }

  lemma {:induction false} SumWithout(versions: set<Id>, cost: map<Id, nat>, v: Id)
    requires versions <= cost.Keys && v in versions
    ensures Sum(versions, cost) == cost[v] + Sum(versions - {v}, cost)
    decreases |versions|
  {
    var least := MinOf(versions);
    if v != least {
      SumWithout(versions - {least}, cost, v);
      assert versions - {least} - {v} == versions - {v} - {least};
      assert MinOf(versions - {v}) == least;
    }
  }

  function Risks(p: Problem): (costs: map<Id, nat>)
  {
    map v | v in p.byVersion :: p.byVersion[v].risk
  }

  function ToolCosts(p: Problem): (costs: map<Id, nat>)
  {
    map v | v in p.byVersion :: p.byVersion[v].toolCost
  }

  /** An edge between chosen versions. */
  predicate Joins(p: Problem, chosen: set<Id>, e: Edge)
  {
    e in p.edges && e.source in chosen && e.target in chosen
  }

  predicate Covers(p: Problem, chosen: set<Id>, goal: Id)
    requires chosen <= p.byVersion.Keys
  {
    exists v :: v in chosen && goal in p.byVersion[v].goals
  }

  /** Met from outside, or along an edge between chosen versions. */
  ghost predicate Met(p: Problem, chosen: set<Id>, requirement: Id)
  {
    requirement in p.satisfied || exists e :: Joins(p, chosen, e) && requirement in e.requirements
  }

  predicate Unseen(p: Problem, e: Edge)
  {
    && e.source in p.byVersion && e.target in p.byVersion
    && !(p.byVersion[e.source].observed && p.byVersion[e.target].observed)
  }

  ghost predicate Credits(p: Problem, chosen: set<Id>, evidence: nat)
    requires chosen <= p.byVersion.Keys
  {
    var bridges := |set v | v in chosen && !p.byVersion[v].seed|;
    var unseen := |set e | e in p.edges && Joins(p, chosen, e) && Unseen(p, e)|;
    exists least :: && (exists v :: v in chosen && p.byVersion[v].evidence == least)
                    && (forall v :: v in chosen ==> least <= p.byVersion[v].evidence)
                    && Credited(p.manifest, least, bridges, unseen, evidence)
  }

  /** The least evidence less so much for each bridge and each edge not seen whole, and never below zero. */
  predicate Credited(m: Manifest, least: nat, bridges: nat, unseen: nat, evidence: nat)
  {
    var penalty := bridges * m.noveltyPenalty + unseen * m.unobservedPenalty;
    if penalty <= least then evidence + penalty == least else evidence == 0
  }

  ghost predicate Lists(p: Problem, chosen: set<Id>, plan: Plan)
    requires chosen <= p.byVersion.Keys
  {
    && (forall e :: e in plan.dependencies <==> Joins(p, chosen, e))
    && (forall g :: g in plan.covered <==> g in p.goals && Covers(p, chosen, g))
    && (forall r :: r in plan.satisfied <==> Met(p, chosen, r))
    && (forall x :: x in plan.produced <==>
          exists v, made :: v in chosen && made in p.byVersion[v].contract.provisions && made.id == x)
    && (forall g :: UncoveredGoal(g) in plan.gaps <==> g in p.goals && !Covers(p, chosen, g))
    && (forall v, x :: UnsatisfiedRequirement(v, x) in plan.gaps <==>
          v in chosen && !Met(p, chosen, x) && exists r :: r in p.byVersion[v].contract.requirements && r.id == x)
    && NoDuplicates(plan.covered) && NoDuplicates(plan.satisfied)
    && GapsAscend(plan.gaps)
  }

  /** Uncovered goals come first, in order; then requirements, in order of version and identifier. */
  predicate GapsAscend(gaps: seq<Gap>)
  {
    && (forall i, j :: 0 <= i < j < |gaps| && gaps[j].UncoveredGoal? ==>
          gaps[i].UncoveredGoal? && gaps[i].goal < gaps[j].goal)
    && (forall i, j :: 0 <= i < j < |gaps| && gaps[i].UnsatisfiedRequirement? ==>
          gaps[j].UnsatisfiedRequirement? && gaps[i].version <= gaps[j].version
          && (gaps[i].version == gaps[j].version ==> gaps[i].requirement < gaps[j].requirement))
  }

  lemma {:induction false} GapsSorted(gaps: seq<Gap>)
    requires SortedBy(GapBefore, gaps)
    ensures GapsAscend(gaps)
  {
  }

  ghost predicate Numbers(p: Problem, chosen: set<Id>, plan: Plan)
    requires chosen <= p.byVersion.Keys
  {
    && |plan.nodes| == |chosen|
    && (forall i :: 0 <= i < |plan.nodes| ==>
          var v := plan.nodes[i].version;
          v in chosen && plan.nodes[i].ordinal == i && plan.nodes[i].bridge == !p.byVersion[v].seed)
    && plan.risk == Sum(chosen, Risks(p)) && plan.toolCost == Sum(chosen, ToolCosts(p))
    && (plan.allObserved <==> forall v :: v in chosen ==> p.byVersion[v].observed)
    && (chosen != {} ==> Credits(p, chosen, plan.evidence))
  }

  /** What the plan says of the chosen versions. */
  ghost predicate Means(p: Problem, chosen: set<Id>, plan: Plan)
    requires chosen <= p.byVersion.Keys
  {
    && Lists(p, chosen, plan) && Numbers(p, chosen, plan)
    && (plan.complete <==>
          && (forall g :: g in p.goals ==> Covers(p, chosen, g))
          && (forall v, r :: v in chosen && r in p.byVersion[v].contract.requirements ==> Met(p, chosen, r.id)))
    && plan.externallySatisfied == p.satisfied && plan.requestedGoals == p.goals && plan.seeds == p.seeds
  }

  // ----- why it does

  lemma {:induction false} SatisfiedMeans(p: Problem, chosen: set<Id>, x: Id)
    ensures x in SatisfiedIds(p, chosen) <==> Met(p, chosen, x)
  {
    var selected := Selected(p.edges, chosen);
    SelectedHolds(p.edges, chosen);
    hide Selected;
    if e :| e in selected && x in e.requirements {
      assert Joins(p, chosen, e);
    }
    if e :| Joins(p, chosen, e) && x in e.requirements {
      assert e in selected;
      assert x in EdgeRequirements(selected);
    }
  }

  lemma {:induction false} CoveredMeans(p: Problem, chosen: set<Id>, g: Id)
    requires chosen <= p.byVersion.Keys
    ensures g in CoveredGoals(p, chosen) <==> g in p.goals && Covers(p, chosen, g)
  {
  }

  lemma {:induction false} GapsMean(p: Problem, chosen: set<Id>)
    requires chosen <= p.byVersion.Keys
    ensures forall g :: UncoveredGoal(g) in GapsOf(p, chosen) <==> g in p.goals && !Covers(p, chosen, g)
    ensures forall v, x :: UnsatisfiedRequirement(v, x) in GapsOf(p, chosen) <==>
              v in chosen && !Met(p, chosen, x) && exists r :: r in p.byVersion[v].contract.requirements && r.id == x
  {
    forall g
      ensures g in CoveredGoals(p, chosen) <==> g in p.goals && Covers(p, chosen, g)
    {
      CoveredMeans(p, chosen, g);
    }
    forall x
      ensures x in SatisfiedIds(p, chosen) <==> Met(p, chosen, x)
    {
      SatisfiedMeans(p, chosen, x);
    }
    hide CoveredGoals, SatisfiedIds, Met, Covers;
  }

  lemma {:induction false} CompleteMeans(p: Problem, chosen: set<Id>)
    requires chosen <= p.byVersion.Keys
    ensures Complete(p, chosen) <==>
            && (forall g :: g in p.goals ==> Covers(p, chosen, g))
            && (forall v, r :: v in chosen && r in p.byVersion[v].contract.requirements ==> Met(p, chosen, r.id))
  {
    GapsMean(p, chosen);
    hide GapsOf, Met, Covers;
    var gaps := GapsOf(p, chosen);
    if Complete(p, chosen) {
      forall g | g in p.goals
        ensures Covers(p, chosen, g)
      {
        assert UncoveredGoal(g) !in gaps;
      }
      forall v, r | v in chosen && r in p.byVersion[v].contract.requirements
        ensures Met(p, chosen, r.id)
      {
        assert UnsatisfiedRequirement(v, r.id) !in gaps;
      }
    } else {
      var gap :| gap in gaps;
      assert gap == (match gap case UncoveredGoal(g) => UncoveredGoal(g)
                               case UnsatisfiedRequirement(v, x) => UnsatisfiedRequirement(v, x));
    }
  }

  lemma {:induction false} PlanLists(p: Problem, hash: Plan -> Id, s: State)
    requires ValidProblem(p) && IsState(p, hash, s)
    ensures s.nodes <= p.byVersion.Keys && s.plan.dependencies == Selected(p.edges, s.nodes)
    ensures StrictlySorted(s.plan.covered) && Elements(s.plan.covered) == CoveredGoals(p, s.nodes)
    ensures StrictlySorted(s.plan.satisfied) && Elements(s.plan.satisfied) == SatisfiedIds(p, s.nodes)
    ensures Elements(s.plan.produced) == ProducedIds(p, s.nodes) && Elements(s.plan.gaps) == GapsOf(p, s.nodes)
    ensures SortedBy(GapBefore, s.plan.gaps)
    ensures s.plan.complete == Complete(p, s.nodes) && s.plan.externallySatisfied == p.satisfied
    ensures s.plan.requestedGoals == p.goals && s.plan.seeds == p.seeds
  {
  }

  lemma {:induction false} ListsMean(p: Problem, hash: Plan -> Id, s: State)
    requires ValidProblem(p) && IsState(p, hash, s)
    ensures s.nodes <= p.byVersion.Keys && Lists(p, s.nodes, s.plan)
  {
    hide ValidProblem, IsState, Selected, CoveredGoals, SatisfiedIds, GapsOf, Met, Covers, Joins, Elements, GapsAscend;
    PlanLists(p, hash, s);
    GapsSorted(s.plan.gaps);
    var plan := s.plan;
    forall e
      ensures e in Selected(p.edges, s.nodes) <==> Joins(p, s.nodes, e)
    {
      SelectedMeans(p, s.nodes, e);
    }
    GapsMean(p, s.nodes);
    forall g
      ensures g in CoveredGoals(p, s.nodes) <==> g in p.goals && Covers(p, s.nodes, g)
    {
      CoveredMeans(p, s.nodes, g);
    }
    forall x
      ensures x in SatisfiedIds(p, s.nodes) <==> Met(p, s.nodes, x)
    {
      SatisfiedMeans(p, s.nodes, x);
    }
    InElements(plan.covered);
    InElements(plan.satisfied);
    InElements(plan.produced);
    InElements(plan.gaps);
    SortedOnce(plan.covered);
    SortedOnce(plan.satisfied);
  }

  lemma {:induction false} SelectedMeans(p: Problem, chosen: set<Id>, e: Edge)
    ensures e in Selected(p.edges, chosen) <==> Joins(p, chosen, e)
  {
    SelectedHolds(p.edges, chosen);
  }

  lemma {:induction false} SortedOnce(s: seq<Id>)
    requires StrictlySorted(s)
    ensures NoDuplicates(s)
  {
  }

  lemma {:induction false} InElements<T>(s: seq<T>)
    ensures forall x :: x in s <==> x in Elements(s)
  {
  }

  /** Sums along an order are sums over its elements. */
  lemma {:induction false} RiskAdds(p: Problem, order: seq<Id>)
    requires NoDuplicates(order) && Elements(order) <= p.byVersion.Keys
    ensures RiskSum(p, order) == Sum(Elements(order), Risks(p))
    ensures ToolSum(p, order) == Sum(Elements(order), ToolCosts(p))
  {
    if order != [] {
      var init, last := Init(order), order[|order| - 1];
      OrderSplit(order);
      RiskAdds(p, init);
      SumWithout(Elements(order), Risks(p), last);
      SumWithout(Elements(order), ToolCosts(p), last);
    }
  }

  lemma {:induction false} OrderSplit(order: seq<Id>)
    requires NoDuplicates(order) && order != []
    ensures var init, last := Init(order), order[|order| - 1];
            && NoDuplicates(init) && last in Elements(order) && last !in Elements(init)
            && Elements(order) - {last} == Elements(init) && Elements(order) == Elements(init) + {last}
  {
    assert order == Init(order) + [order[|order| - 1]];
  }

  ghost function Bridges(p: Problem, versions: set<Id>): (bridges: set<Id>)
    requires versions <= p.byVersion.Keys
  {
    set v | v in versions && !p.byVersion[v].seed
  }

  lemma {:induction false} BridgesNext(p: Problem, versions: set<Id>, v: Id)
    requires versions <= p.byVersion.Keys && v in p.byVersion && v !in versions
    ensures |Bridges(p, versions + {v})| == |Bridges(p, versions)| + (if p.byVersion[v].seed then 0 else 1)
  {
    assert Bridges(p, versions + {v}) == Bridges(p, versions) + (if p.byVersion[v].seed then {} else {v});
  }

  lemma {:induction false} BridgesMean(p: Problem, order: seq<Id>)
    requires NoDuplicates(order) && Elements(order) <= p.byVersion.Keys
    ensures BridgeCount(p, order) == |Bridges(p, Elements(order))|
  {
    if order == [] {
      assert Bridges(p, Elements(order)) == {};
    } else {
      var init, last := Init(order), order[|order| - 1];
      OrderSplit(order);
      hide Bridges, NoDuplicates, Elements;
      BridgesMean(p, init);
      BridgesNext(p, Elements(init), last);
    }
  }

  lemma {:induction false} WeakestMeans(p: Problem, order: seq<Id>)
    requires Elements(order) <= p.byVersion.Keys && order != []
    requires forall v :: v in p.byVersion ==> p.byVersion[v].evidence <= MAX_INT64
    ensures exists v :: v in Elements(order) && p.byVersion[v].evidence == WeakestEvidence(p, order)
    ensures forall v :: v in Elements(order) ==> WeakestEvidence(p, order) <= p.byVersion[v].evidence
  {
    var init, last := Init(order), order[|order| - 1];
    LastElement(order);
    hide Elements;
    if init != [] {
      WeakestMeans(p, init);
      var v :| v in Elements(init) && p.byVersion[v].evidence == WeakestEvidence(p, init);
      assert v in Elements(order);
    } else {
      assert WeakestEvidence(p, init) == MAX_INT64;
      assert WeakestEvidence(p, order) == p.byVersion[last].evidence;
    }
  }

  lemma {:induction false} LastElement(order: seq<Id>)
    requires order != []
    ensures Elements(order) == Elements(Init(order)) + {order[|order| - 1]}
    ensures Init(order) == [] ==> Elements(order) == {order[|order| - 1]}
  {
    assert order == Init(order) + [order[|order| - 1]];
  }

  ghost function UnseenOf(p: Problem, edges: set<Edge>): (unseen: set<Edge>)
  {
    set e | e in edges && Unseen(p, e)
  }

  lemma {:induction false} UnseenNext(p: Problem, edges: set<Edge>, e: Edge)
    requires e !in edges
    ensures |UnseenOf(p, edges + {e})| == |UnseenOf(p, edges)| + (if Unseen(p, e) then 1 else 0)
  {
    assert UnseenOf(p, edges + {e}) == UnseenOf(p, edges) + (if Unseen(p, e) then {e} else {});
  }

  lemma {:induction false} UnseenMean(p: Problem, edges: seq<Edge>)
    requires NoDuplicates(edges) && forall e :: e in edges ==> e.source in p.byVersion && e.target in p.byVersion
    ensures UnobservedEdges(p, edges) == |UnseenOf(p, Elements(edges))|
  {
    if edges == [] {
      assert UnseenOf(p, Elements(edges)) == {};
    } else {
      var n := |edges| - 1;
      var init, last := edges[..n], edges[n];
      assert edges == init + [last] && last !in init;
      assert Elements(edges) == Elements(init) + {last};
      hide UnseenOf, NoDuplicates;
      UnseenMean(p, init);
      UnseenNext(p, Elements(init), last);
    }
  }

  lemma {:induction false} SelectedOnce(edges: seq<Edge>, chosen: set<Id>)
    requires NoDuplicates(edges)
    ensures NoDuplicates(Selected(edges, chosen))
  {
    if edges != [] {
      var n := |edges| - 1;
      SelectedOnce(edges[..n], chosen);
      SelectedHolds(edges[..n], chosen);
      assert edges[n] !in edges[..n];
    }
  }

  lemma {:induction false} NodesMean(p: Problem, hash: Plan -> Id, s: State)
    requires ValidProblem(p) && IsState(p, hash, s)
    ensures NoDuplicates(OrderOf(p, s.nodes)) && Elements(OrderOf(p, s.nodes)) == s.nodes
    ensures |s.plan.nodes| == |s.nodes|
    ensures forall i :: 0 <= i < |s.plan.nodes| ==>
              var v := s.plan.nodes[i].version;
              v in s.nodes && v in p.byVersion && s.plan.nodes[i].ordinal == i
                && s.plan.nodes[i].bridge == !p.byVersion[v].seed
  {
    OrderHolds(p, s.nodes);
    var order := OrderOf(p, s.nodes);
    forall i | 0 <= i < |s.plan.nodes|
      ensures s.plan.nodes[i].version in s.nodes
    {
      assert order[i] in Elements(order);
    }
    hide KahnOrder;
  }

  lemma {:induction false} CreditsMean(p: Problem, hash: Plan -> Id, s: State)
    requires ValidProblem(p) && IsState(p, hash, s) && s.nodes != {}
    ensures s.nodes <= p.byVersion.Keys && Credits(p, s.nodes, s.plan.evidence)
  {
    var order, selected := OrderOf(p, s.nodes), Selected(p.edges, s.nodes);
    NodesMean(p, hash, s);
    assert order != [];
    WeakestMeans(p, order);
    BridgesMean(p, order);
    SelectedHolds(p.edges, s.nodes);
    assert NoDuplicates(p.edges);
    SelectedOnce(p.edges, s.nodes);
    UnseenMean(p, selected);
    var unseen := set e | e in p.edges && Joins(p, s.nodes, e) && Unseen(p, e);
    assert unseen == UnseenOf(p, Elements(selected));
    assert (set v | v in s.nodes && !p.byVersion[v].seed) == Bridges(p, s.nodes);
    var least := WeakestEvidence(p, order);
    CreditedMeans(p.manifest, least, BridgeCount(p, order), UnobservedEdges(p, selected));
    hide WeakestEvidence, BridgeCount, UnobservedEdges, CreditedEvidence, Credited, Selected, OrderOf, Feasible,
         ValidProblem;
  }

  lemma {:induction false} CreditedMeans(m: Manifest, least: nat, bridges: nat, unseen: nat)
    ensures Credited(m, least, bridges, unseen, CreditedEvidence(m, least, bridges, unseen))
  {
  }

  lemma {:induction false} NumbersMean(p: Problem, hash: Plan -> Id, s: State)
    requires ValidProblem(p) && IsState(p, hash, s)
    ensures s.nodes <= p.byVersion.Keys && Numbers(p, s.nodes, s.plan)
  {
    var order := OrderOf(p, s.nodes);
    NodesMean(p, hash, s);
    RiskAdds(p, order);
    if s.nodes != {} {
      CreditsMean(p, hash, s);
    }
    assert forall v :: v in order <==> v in Elements(order);
    hide Feasible, ValidProblem, Credits, RiskSum, ToolSum, Sum, Risks, ToolCosts, WeakestEvidence, BridgeCount,
         NodesOf, Selected;
  }

  lemma {:induction false} PlanMeans(p: Problem, hash: Plan -> Id, s: State)
    requires ValidProblem(p) && IsState(p, hash, s)
    ensures s.nodes <= p.byVersion.Keys && Means(p, s.nodes, s.plan)
  {
    ListsMean(p, hash, s);
    NumbersMean(p, hash, s);
    CompleteMeans(p, s.nodes);
    hide Lists, Numbers, Feasible, ValidProblem, Complete, Covers, Met;
  }

  // ----- which sets are plans at all, and which the search comes to

  /** A way along edges between chosen versions. */
  predicate Route(p: Problem, chosen: set<Id>, w: seq<Id>)
  {
    |w| >= 2 && forall i :: 0 <= i < |w| - 1 ==> Linked(p, chosen, w[i], w[i + 1])
  }

  /** No way around along edges between chosen versions, and no more bridges and tool cost than allowed. */
  ghost predicate Allowed(p: Problem, chosen: set<Id>)
    requires chosen <= p.byVersion.Keys
  {
    && (forall w :: Route(p, chosen, w) ==> w[0] != w[|w| - 1])
    && |Bridges(p, chosen)| <= p.manifest.maximumBridges
    && Sum(chosen, ToolCosts(p)) <= p.manifest.maximumToolCost
  }

  predicate Linked(p: Problem, chosen: set<Id>, v: Id, w: Id)
  {
    exists e :: e in p.edges && Joins(p, chosen, e) && e.source == v && e.target == w
  }

  lemma {:induction false} LinkedMeans(p: Problem, chosen: set<Id>, v: Id, w: Id)
    ensures Linked(p, chosen, v, w) <==> Arc(v, w) in ChosenArcs(p, chosen)
  {
    SelectedHolds(p.edges, chosen);
    var selected := Selected(p.edges, chosen);
    if e :| e in p.edges && Joins(p, chosen, e) && e.source == v && e.target == w {
      var i :| 0 <= i < |selected| && selected[i] == e;
      assert ArcsOf(selected)[i] == Arc(v, w);
    }
    if Arc(v, w) in ArcsOf(selected) {
      var i :| 0 <= i < |selected| && ArcsOf(selected)[i] == Arc(v, w);
      assert selected[i] in selected;
    }
  }

  lemma {:induction false} WalkMeans(p: Problem, chosen: set<Id>, w: seq<Id>)
    requires |w| >= 2
    ensures IsWalk(w, chosen, ChosenArcs(p, chosen)) <==> Route(p, chosen, w)
  {
    forall i | 0 <= i < |w| - 1
      ensures Linked(p, chosen, w[i], w[i + 1]) <==> Arc(w[i], w[i + 1]) in ChosenArcs(p, chosen)
      ensures Linked(p, chosen, w[i], w[i + 1]) ==> w[i] in chosen && w[i + 1] in chosen
    {
      LinkedMeans(p, chosen, w[i], w[i + 1]);
    }
    hide Linked, ChosenArcs;
    if forall i :: 0 <= i < |w| - 1 ==> Linked(p, chosen, w[i], w[i + 1]) {
      forall i | 0 <= i < |w|
        ensures w[i] in chosen
      {
        assert Linked(p, chosen, w[if i < |w| - 1 then i else i - 1], w[if i < |w| - 1 then i + 1 else i]);
      }
    }
  }

  lemma {:induction false} RoundMeans(p: Problem, chosen: set<Id>)
    ensures Cyclic(chosen, ChosenArcs(p, chosen)) <==> exists w :: Route(p, chosen, w) && w[0] == w[|w| - 1]
  {
    hide ChosenArcs, Route;
    forall w: seq<Id> | |w| >= 2
      ensures IsWalk(w, chosen, ChosenArcs(p, chosen)) <==> Route(p, chosen, w)
    {
      WalkMeans(p, chosen, w);
    }
    hide IsWalk;
    RoutesLong(p, chosen);
    if w: seq<Id> :| Route(p, chosen, w) && w[0] == w[|w| - 1] {
      assert IsCycle(w, chosen, ChosenArcs(p, chosen));
    }
    if w: seq<Id> :| IsCycle(w, chosen, ChosenArcs(p, chosen)) {
      assert Route(p, chosen, w);
    }
  }

  lemma {:induction false} RoutesLong(p: Problem, chosen: set<Id>)
    ensures forall w :: Route(p, chosen, w) ==> |w| >= 2
  {
  }

  lemma {:induction false} FeasibleMeans(p: Problem, chosen: set<Id>)
    requires ValidProblem(p) && chosen <= p.byVersion.Keys
    ensures Feasible(p, chosen) <==> Allowed(p, chosen)
  {
    RoundMeans(p, chosen);
    RoutesLong(p, chosen);
    hide Route, ChosenArcs, ToolSum, BridgeCount, Bridges, Sum, ToolCosts, ValidProblem, Cyclic;
    if !Cyclic(chosen, ChosenArcs(p, chosen)) {
      OrderIs(p, chosen);
    }
  }

  lemma {:induction false} OrderIs(p: Problem, chosen: set<Id>)
    requires ValidProblem(p) && chosen <= p.byVersion.Keys && !Cyclic(chosen, ChosenArcs(p, chosen))
    ensures Elements(OrderOf(p, chosen)) == chosen && BridgeCount(p, OrderOf(p, chosen)) == |Bridges(p, chosen)|
    ensures ToolSum(p, OrderOf(p, chosen)) == Sum(chosen, ToolCosts(p))
  {
    KahnFinished(chosen, ChosenArcs(p, chosen));
    RiskAdds(p, OrderOf(p, chosen));
    BridgesMean(p, OrderOf(p, chosen));
  }

  /** A chosen set that lacks something: a goal no member covers, or a requirement not met. */
  ghost predicate Lacks(p: Problem, chosen: set<Id>)
    requires chosen <= p.byVersion.Keys
  {
    || (exists g :: g in p.goals && !Covers(p, chosen, g))
    || (exists v, r :: v in chosen && r in p.byVersion[v].contract.requirements && !Met(p, chosen, r.id))
  }

  /** One version more, joined to the rest by an edge in either direction. */
  ghost predicate Grows(p: Problem, rest: set<Id>, v: Id)
  {
    && rest <= p.byVersion.Keys && v !in rest && |rest| < p.manifest.maximumProcedures && Lacks(p, rest)
    && exists e :: e in p.edges && ((e.source == v && e.target in rest) || (e.target == v && e.source in rest))
  }

  /** The search comes to exactly the allowed sets that are one seed, or a set it came to that lacks
      something with one neighbour more. */
  lemma {:induction false} ReachableExactly(p: Problem, chosen: set<Id>)
    requires ValidProblem(p)
    ensures Reachable(p, chosen) <==>
            && chosen <= p.byVersion.Keys && Allowed(p, chosen)
            && (|| (exists v :: v in chosen && chosen == {v} && p.byVersion[v].seed)
                || (exists v :: v in chosen && Reachable(p, chosen - {v}) && Grows(p, chosen - {v}, v)))
  {
    if chosen <= p.byVersion.Keys {
      FeasibleMeans(p, chosen);
      forall v | v in chosen
        ensures Extends(p, chosen - {v}, v) <==> Grows(p, chosen - {v}, v)
      {
        ExtendsMeans(p, chosen - {v}, v);
      }
    }
    hide Allowed, Extends, Grows, ValidProblem;
    assert Feasible(p, chosen) ==> chosen <= p.byVersion.Keys;
    hide Feasible;
  }

  lemma {:induction false} ExtendsMeans(p: Problem, rest: set<Id>, v: Id)
    requires rest <= p.byVersion.Keys
    ensures Extends(p, rest, v) <==> Grows(p, rest, v)
  {
    CompleteMeans(p, rest);
    hide Complete, Covers, Met;
  }
}
