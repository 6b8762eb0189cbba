/** buildSearchState and the edge scans of the planner, with their budget charges. */
module SearchStates {
  import opened Identifiers
  import opened Sorting
  import opened Digraph
  import opened Kahn
  import opened Planning
  import opened Budgets

  datatype BuildResult = Built(state: State) | Cycle | PlanLimit | WorkLimit | Cancelled | Invalid

  datatype ScanResult<T> = Scanned(value: T) | ScanWorkLimit | ScanCancelled

  // ----- edge scans

  lemma {:induction false} SelectedHolds(edges: seq<Edge>, chosen: set<Id>)
    ensures forall e :: e in Selected(edges, chosen) <==> e in edges && e.source in chosen && e.target in chosen
  {
    if edges != [] {
      var init := edges[..|edges| - 1];
      SelectedHolds(init, chosen);
      assert edges == init + [edges[|edges| - 1]];
    }
  }

  lemma {:induction false} NoEdgeInside(edges: seq<Edge>, chosen: set<Id>)
    requires |chosen| < 2 && forall e :: e in edges ==> e.source != e.target
    ensures Selected(edges, chosen) == []
  {
    SelectedHolds(edges, chosen);
    if Selected(edges, chosen) != [] {
      var e := Selected(edges, chosen)[0];
      assert e in Selected(edges, chosen);
      SubsetSize({e.source, e.target}, chosen);
    }
  }

  /** selectedEdges. The final sort by id changes nothing: graph edges come in id order. */
  method SelectedEdges(edges: seq<Edge>, nodes: set<Id>, budget: WorkBudget) returns (result: ScanResult<seq<Edge>>)
    requires ValidEdges(edges) && budget.Valid()
    modifies budget
    ensures budget.Valid()
    ensures result.Scanned? ==> result.value == Selected(edges, nodes)
    ensures result.Scanned? ==> budget.used == old(budget.used) + (if |nodes| < 2 then 0 else |edges|)
    ensures result.ScanWorkLimit? ==> |nodes| >= 2 && old(budget.used) + |edges| > budget.maximum
    ensures |nodes| < 2 ==> budget.used == old(budget.used)
    ensures budget.used <= old(budget.used) + |edges|
  {
    if |nodes| < 2 {
      NoEdgeInside(edges, nodes);
      return Scanned([]);
    }
    var selected := [];
    for i := 0 to |edges|
      invariant budget.Valid() && budget.used == old(budget.used) + i
      invariant selected == Selected(edges[..i], nodes)
    {
      if i % 256 == 0 {
        if * {
          return ScanCancelled;
        }
      }
      var ok := budget.Consume(1);
      if !ok {
        return ScanWorkLimit;
      }
      assert edges[..i + 1][..i] == edges[..i];
      if edges[i].source in nodes && edges[i].target in nodes {
        selected := selected + [edges[i]];
      }
    }
    assert edges[..|edges|] == edges;
    return Scanned(selected);
  }

  /** A version outside the set with an edge to or from it. */
  predicate Adjacent(edges: seq<Edge>, nodes: set<Id>, v: Id)
  {
    v !in nodes && exists e :: e in edges
                       && ((e.source in nodes && e.target == v) || (e.target in nodes && e.source == v))
  }

  /** adjacentVersions. */
  method AdjacentVersions(edges: seq<Edge>, nodes: set<Id>, budget: WorkBudget) returns (result: ScanResult<seq<Id>>)
    requires budget.Valid()
    modifies budget
    ensures budget.Valid()
    ensures result.Scanned? ==>
            StrictlySorted(result.value) && forall v :: v in result.value <==> Adjacent(edges, nodes, v)
    ensures result.ScanWorkLimit? ==> old(budget.used) + |edges| > budget.maximum
    ensures budget.used <= old(budget.used) + |edges|
  {
    var found: set<Id> := {};
    for i := 0 to |edges|
      invariant budget.Valid() && budget.used == old(budget.used) + i
      invariant forall v :: v in found <==> Adjacent(edges[..i], nodes, v)
    {
      if i % 256 == 0 {
        if * {
          return ScanCancelled;
        }
      }
      var ok := budget.Consume(1);
      if !ok {
        return ScanWorkLimit;
      }
      var e := edges[i];
      AdjacentNext(edges, i, nodes);
      if (e.source in nodes) != (e.target in nodes) {
        found := found + {if e.source in nodes then e.target else e.source};
      }
    }
    assert edges[..|edges|] == edges;
    var sorted := SortedSet(found);
    assert forall v :: v in sorted <==> v in Elements(sorted);
    return Scanned(sorted);
  }

  lemma {:induction false} AdjacentNext(edges: seq<Edge>, i: nat, nodes: set<Id>)
    requires i < |edges|
    ensures forall v :: Adjacent(edges[..i + 1], nodes, v) <==>
                        Adjacent(edges[..i], nodes, v)
                        || ((edges[i].source in nodes) != (edges[i].target in nodes)
                            && v == if edges[i].source in nodes then edges[i].target else edges[i].source)
  {
    assert edges[..i + 1] == edges[..i] + [edges[i]];
    forall v
      ensures Adjacent(edges[..i + 1], nodes, v) <==>
              Adjacent(edges[..i], nodes, v)
              || ((edges[i].source in nodes) != (edges[i].target in nodes)
                  && v == if edges[i].source in nodes then edges[i].target else edges[i].source)
    {
      assert edges[i] in edges[..i + 1];
      assert forall e :: e in edges[..i] ==> e in edges[..i + 1];
    }
  }

  // ----- one state

  datatype Totals = Totals(nodes: seq<PlanNode>, risk: nat, toolCost: nat, bridges: nat, weakest: int,
                           allObserved: bool,
                           covered: set<Id>, produced: set<Id>, gaps: set<Gap>)

  ghost predicate TotalsOf(p: Problem, order: seq<Id>, met: set<Id>, t: Totals)
    requires Elements(order) <= p.byVersion.Keys
  {
    && t.nodes == NodesOf(p, order)
    && t.risk == RiskSum(p, order) && t.toolCost == ToolSum(p, order) && t.bridges == BridgeCount(p, order)
    && t.weakest == WeakestEvidence(p, order)
    && t.allObserved == (forall v :: v in order ==> p.byVersion[v].observed)
    && t.covered == CoveredGoals(p, Elements(order))
    && t.produced == ProducedIds(p, Elements(order))
    && t.gaps == RequirementGaps(p, Elements(order), met)
  }

  /** One more node of the order. */
  function Tally(p: Problem, t: Totals, ordinal: nat, v: Id, met: set<Id>): (next: Totals)
    requires v in p.byVersion
  {
    var c := p.byVersion[v];
    Totals(t.nodes + [PlanNode(ordinal, v, !c.seed)], t.risk + c.risk, t.toolCost + c.toolCost,
           t.bridges + (if c.seed then 0 else 1), if c.evidence < t.weakest then c.evidence else t.weakest,
           t.allObserved && c.observed,
           t.covered + (set g | g in c.goals && g in p.goals),
           t.produced + (set x | x in c.contract.provisions :: x.id),
           t.gaps + (set r | r in c.contract.requirements && r.id !in met :: UnsatisfiedRequirement(v, r.id)))
  }

  lemma {:induction false} TallySets(p: Problem, versions: set<Id>, v: Id, met: set<Id>)
    requires versions <= p.byVersion.Keys && v in p.byVersion
    ensures CoveredGoals(p, versions + {v})
            == CoveredGoals(p, versions) + (set g | g in p.byVersion[v].goals && g in p.goals)
    ensures ProducedIds(p, versions + {v})
         == ProducedIds(p, versions) + (set x | x in p.byVersion[v].contract.provisions :: x.id)
    ensures RequirementGaps(p, versions + {v}, met)
         == RequirementGaps(p, versions, met)
            + (set r | r in p.byVersion[v].contract.requirements && r.id !in met :: UnsatisfiedRequirement(v, r.id))
  {
  }

  lemma {:induction false} TallyNext(p: Problem, order: seq<Id>, v: Id, met: set<Id>, t: Totals)
    requires Elements(order) <= p.byVersion.Keys && v in p.byVersion && TotalsOf(p, order, met, t)
    ensures Elements(order + [v]) <= p.byVersion.Keys
    ensures TotalsOf(p, order + [v], met, Tally(p, t, |order|, v, met))
  {
    ElementsAppend(order, [v]);
    assert Elements([v]) == {v};
    var longer := order + [v];
    assert Elements(longer) == Elements(order) + {v};
    assert Init(longer) == order;
    TallySets(p, Elements(order), v, met);
    assert NodesOf(p, longer) == NodesOf(p, order) + [PlanNode(|order|, v, !p.byVersion[v].seed)];
  }

  method TallyOrder(p: Problem, order: seq<Id>, met: set<Id>) returns (t: Totals)
    requires Elements(order) <= p.byVersion.Keys
    ensures TotalsOf(p, order, met, t)
  {
    t := Totals([], 0, 0, 0, MAX_INT64, true, {}, {}, {});
    assert order[..0] == [];
    for i := 0 to |order|
      invariant Elements(order[..i]) <= p.byVersion.Keys
      invariant TotalsOf(p, order[..i], met, t)
    {
      assert order[i] in Elements(order);
      assert order[..i + 1] == order[..i] + [order[i]];
      TallyNext(p, order[..i], order[i], met, t);
      t := Tally(p, t, i, order[i], met);
    }
    assert order[..|order|] == order;
  }

  /** checkedPlannerMul on its callers' non-negative operands. */
  function CheckedPlannerMul(left: nat, right: nat): (r: (int, bool))
    ensures r.1 <==> left * right <= MAX_INT64
    ensures r.1 ==> r.0 == left * right
  {
    if left == 0 || right == 0 then (0, true)
    else if left > MAX_INT64 / right then
      ProductTooLarge(left, right);
      (0, false)
    else
      ProductFits(left, right);
      (left * right, true)
  }

  lemma {:induction false} ProductFits(left: nat, right: nat)
    requires right > 0 && left <= MAX_INT64 / right
    ensures left * right <= MAX_INT64
  {
    assert left * right <= (MAX_INT64 / right) * right;
  }

  lemma {:induction false} ProductTooLarge(left: nat, right: nat)
    requires right > 0 && left > MAX_INT64 / right
    ensures left * right > MAX_INT64
  {
    var q := MAX_INT64 / right;
    assert (q + 1) * right == q * right + right > MAX_INT64;
    assert left * right >= (q + 1) * right;
  }

  lemma {:induction false} ProductBound(a: nat, aMax: nat, b: nat, bMax: nat)
    requires a <= aMax && b <= bMax
    ensures a * b <= aMax * bMax
  {
    assert a * b <= aMax * b;
    assert aMax * b <= aMax * bMax;
  }

  /** The penalties, computed in 64 bits, give exactly the unbounded credit. */
  method Credit(m: Manifest, weakest: nat, bridges: nat, unobserved: nat) returns (evidence: nat, ok: bool)
    requires weakest <= MAX_INT64
    ensures ok <==> bridges * m.noveltyPenalty <= MAX_INT64
    ensures ok ==> evidence == CreditedEvidence(m, weakest, bridges, unobserved)
  {
    var (penalty, penaltyOk) := CheckedPlannerMul(bridges, m.noveltyPenalty);
    if !penaltyOk {
      return 0, false;
    }
    var (edgePenalty, edgeOk) := CheckedPlannerMul(unobserved, m.unobservedPenalty);
    if !edgeOk || weakest < penalty || weakest - penalty < edgePenalty {
      return 0, true;
    }
    return weakest - (penalty + edgePenalty), true;
  }

  lemma {:induction false} WeakestInRange(p: Problem, order: seq<Id>)
    requires ValidProblem(p) && Elements(order) <= p.byVersion.Keys
    ensures 0 <= WeakestEvidence(p, order) <= MAX_INT64
  {
    if order != [] {
      WeakestInRange(p, Init(order));
    }
  }

  /** Marks the requirements of selected edges satisfied and counts edges that touch an unobserved version. */
  method MarkSatisfied(p: Problem, selected: seq<Edge>) returns (met: set<Id>, unobserved: nat)
    requires SelectedKnown(p, selected)
    ensures met == Elements(p.satisfied) + EdgeRequirements(selected)
    ensures unobserved == UnobservedEdges(p, selected)
  {
    met, unobserved := Elements(p.satisfied), 0;
    for i := 0 to |selected|
      invariant met == Elements(p.satisfied) + EdgeRequirements(selected[..i])
      invariant SelectedKnown(p, selected[..i]) && unobserved == UnobservedEdges(p, selected[..i])
    {
      var e := selected[i];
      assert selected[..i + 1] == selected[..i] + [e] && selected[..i + 1][..i] == selected[..i];
      assert EdgeRequirements(selected[..i + 1]) == EdgeRequirements(selected[..i]) + Elements(e.requirements);
      met := met + Elements(e.requirements);
      if !p.byVersion[e.source].observed || !p.byVersion[e.target].observed {
        unobserved := unobserved + 1;
      }
    }
    assert selected[..|selected|] == selected;
  }

  lemma {:induction false} ChosenWithin(p: Problem, chosen: set<Id>)
    requires ValidProblem(p)
    ensures Within(ChosenArcs(p, chosen), chosen)
    ensures SelectedKnown(p, Selected(p.edges, chosen))
  {
    SelectedHolds(p.edges, chosen);
    var selected := Selected(p.edges, chosen);
    forall a | a in ArcsOf(selected)
      ensures a.source in chosen && a.target in chosen
    {
      var i :| 0 <= i < |selected| && a == ArcOf(selected[i]);
      assert selected[i] in selected;
    }
  }

  /** buildSearchState: the one state of the chosen versions, or why there is none. */
  method BuildSearchState(p: Problem, hash: Plan -> Id, chosen: set<Id>, budget: WorkBudget)
    returns (result: BuildResult)
    requires ValidProblem(p) && chosen <= p.byVersion.Keys && budget.Valid()
    modifies budget
    ensures budget.Valid()
    ensures result.Built? ==> result.state.nodes == chosen && IsState(p, hash, result.state)
    ensures result.Cycle? ==> Cyclic(chosen, ChosenArcs(p, chosen))
    ensures result.PlanLimit? ==> !Feasible(p, chosen)
    ensures result.WorkLimit? ==> |chosen| >= 2 && old(budget.used) + |p.edges| > budget.maximum
    ensures !result.Invalid?
    ensures |chosen| < 2 ==> budget.used == old(budget.used)
    ensures budget.used <= old(budget.used) + |p.edges|
  {
    if * {
      return Cancelled;
    }
    var scan := SelectedEdges(p.edges, chosen, budget);
    if !scan.Scanned? {
      return if scan.ScanWorkLimit? then WorkLimit else Cancelled;
    }
    ChosenWithin(p, chosen);
    var ordering := TopologicalOrder(chosen, ArcsOf(scan.value));
    if ordering.CycleError? {
      return Cycle;
    }
    var order := ordering.order;
    var met, unobserved := MarkSatisfied(p, scan.value);
    var t := TallyOrder(p, order, met);
    if t.bridges > p.manifest.maximumBridges || t.toolCost > p.manifest.maximumToolCost {
      return PlanLimit;
    }
    WeakestInRange(p, order);
    ProductBound(t.bridges, 32, p.manifest.noveltyPenalty, MAX_INT32);
    var evidence, ok := Credit(p.manifest, t.weakest, t.bridges, unobserved);
    if !ok {
      return Invalid;
    }
    var plan := AssemblePlan(p, chosen, scan.value, order, met, t, evidence);
    if * {
      return Cancelled;
    }
    return Built(State(plan, chosen, hash(plan)));
  }

  /** Sorts the collected sets into the plan. */
  method AssemblePlan(p: Problem, chosen: set<Id>, selected: seq<Edge>, order: seq<Id>, met: set<Id>, t: Totals,
                      evidence: nat)
    returns (plan: Plan)
    requires ValidProblem(p) && chosen <= p.byVersion.Keys
    requires selected == Selected(p.edges, chosen) && order == OrderOf(p, chosen) && Elements(order) == chosen
    requires met == SatisfiedIds(p, chosen) && TotalsOf(p, order, met, t) && SelectedKnown(p, selected)
    requires evidence == CreditedEvidence(p.manifest, t.weakest, t.bridges, UnobservedEdges(p, selected))
    ensures IsPlan(p, chosen, plan)
  {
    var satisfied := SortedSet(met);
    var produced := SortedSet(t.produced);
    var covered := SortedSet(t.covered);
    var gapSet := t.gaps + (set g | g in p.goals && g !in t.covered :: UncoveredGoal(g));
    GapsAreOrdered(gapSet);
    var gaps := SortSetBy(GapBefore, gapSet);
    assert |gaps| > 0 ==> gaps[0] in Elements(gaps);
    plan := Plan(t.nodes, selected, p.satisfied, satisfied, produced, covered, p.goals, p.seeds, gaps, {}, |gaps| == 0,
                 evidence, t.allObserved, t.risk, t.toolCost);
  }
}
