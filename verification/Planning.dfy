/** Plans: what a set of procedure versions amounts to as a plan, which sets the
search can reach, and the order in which plans are preferred. */
module Planning {
  import opened Identifiers
  import opened Sorting
  import opened Digraph
  import Compatibility

  const MAX_INT64: int := 0x7FFF_FFFF_FFFF_FFFF
  const MAX_INT32: int := 0x7FFF_FFFF

  datatype ParallelFacts = ParallelFacts(readIds: seq<Id>, writeIds: seq<Id>, exclusiveIds: seq<Id>, mutexKeys: seq<Id>,
                                         compensationBoundary: bool, policySerial: bool)

  function Entries(f: ParallelFacts): (n: nat)
  {
    |f.readIds| + |f.writeIds| + |f.exclusiveIds| + |f.mutexKeys|
  }

  datatype PlannerCandidate = PlannerCandidate(
    contract: Compatibility.Candidate, seed: bool, goals: seq<Id>, facts: ParallelFacts,
    evidence: nat, observed: bool, risk: nat, toolCost: nat)

  datatype Edge = Edge(id: Id, source: Id, target: Id, provisions: seq<Id>, requirements: seq<Id>)

  datatype Manifest = Manifest(
    maximumCandidates: nat, maximumGoals: nat, maximumSatisfied: nat,
    beamWidth: nat, maximumDepth: nat, maximumProcedures: nat, maximumBridges: nat, maximumToolCost: nat,
    maximumExpansions: nat, maximumWork: nat, noveltyPenalty: nat, unobservedPenalty: nat,
    maximumTotalGoals: nat, maximumEntries: nat, maximumTotalEntries: nat)

  predicate ValidManifest(m: Manifest)
  {
    && 0 < m.maximumCandidates <= 10000 && 0 < m.maximumGoals <= 1024 && 0 < m.maximumSatisfied <= 100000
    && 0 < m.beamWidth <= 1024 && 0 < m.maximumDepth <= 32
    && 0 < m.maximumProcedures <= 32 && m.maximumBridges < m.maximumProcedures
    && 0 < m.maximumToolCost <= 1000000
    && m.beamWidth <= m.maximumExpansions <= 100000
    && m.maximumExpansions <= m.maximumWork <= 10000000
    && m.noveltyPenalty <= MAX_INT32 && m.unobservedPenalty <= MAX_INT32
    && m.maximumGoals <= m.maximumTotalGoals <= 1000000
    && 0 < m.maximumEntries <= 16384 && m.maximumEntries <= m.maximumTotalEntries <= 1000000
  }

  /** A validated planning request. */
  datatype Problem = Problem(manifest: Manifest, edges: seq<Edge>, goals: seq<Id>, satisfied: seq<Id>,
                             byVersion: map<Id, PlannerCandidate>, seeds: seq<Id>)

  /** Edges as graph validation leaves them: no loops, increasing ids, one edge per pair. */
  predicate ValidEdges(edges: seq<Edge>)
  {
    && (forall e :: e in edges ==>
            e.source != e.target && StrictlySorted(e.provisions) && StrictlySorted(e.requirements))
    && (forall i, j :: 0 <= i < j < |edges| ==> edges[i].id < edges[j].id)
    && (forall i, j :: 0 <= i < j < |edges| ==>
            edges[i].source != edges[j].source || edges[i].target != edges[j].target)
  }

  predicate ValidProblem(p: Problem)
  {
    && ValidManifest(p.manifest) && ValidEdges(p.edges)
    && StrictlySorted(p.goals) && StrictlySorted(p.satisfied) && StrictlySorted(p.seeds)
    && 0 < |p.goals| <= p.manifest.maximumGoals && |p.satisfied| <= p.manifest.maximumSatisfied
    && 0 < |p.seeds| && |p.byVersion| <= p.manifest.maximumCandidates
    && (forall e :: e in p.edges ==> e.source in p.byVersion && e.target in p.byVersion)
    && (forall v :: v in p.byVersion ==> p.byVersion[v].contract.version == v && p.byVersion[v].toolCost > 0)
    && (forall v :: v in p.byVersion ==> p.byVersion[v].evidence <= MAX_INT64)
    && (forall v :: v in p.byVersion ==> Compatibility.ValidInterface(p.byVersion[v].contract))
    && Elements(p.seeds) == set v | v in p.byVersion && p.byVersion[v].seed
  }

  // ----- plans

  datatype PlanNode = PlanNode(ordinal: nat, version: Id, bridge: bool)

  datatype Gap = UncoveredGoal(goal: Id) | UnsatisfiedRequirement(version: Id, requirement: Id)

  datatype LimitCode = BeamTruncated | DepthExhausted | ExpansionBudgetExhausted | WorkBudgetExhausted

  datatype Plan = Plan(
    nodes: seq<PlanNode>, dependencies: seq<Edge>, externallySatisfied: seq<Id>, satisfied: seq<Id>, produced: seq<Id>,
    covered: seq<Id>, requestedGoals: seq<Id>, seeds: seq<Id>, gaps: seq<Gap>, limitCodes: set<LimitCode>,
    complete: bool, evidence: nat, allObserved: bool, risk: nat, toolCost: nat)

  /** Gap keys in string order: uncovered goals sort before unsatisfied requirements. */
  predicate GapBefore(a: Gap, b: Gap)
  {
    match (a, b)
    case (UncoveredGoal(g), UncoveredGoal(h)) => g < h
    case (UncoveredGoal(_), UnsatisfiedRequirement(_, _)) => true
    case (UnsatisfiedRequirement(_, _), UncoveredGoal(_)) => false
    case (UnsatisfiedRequirement(v, r), UnsatisfiedRequirement(w, s)) => v < w || (v == w && r < s)
  }

  lemma {:induction false} GapsAreOrdered(gaps: set<Gap>)
    ensures Orders(GapBefore, gaps)
  {
  }

  /** The graph edges with both ends chosen, in graph order. */
  function Selected(edges: seq<Edge>, chosen: set<Id>): (selected: seq<Edge>)
  {
    if edges == [] then [] else
      var last := edges[|edges| - 1];
      Selected(edges[..|edges| - 1], chosen) + (if last.source in chosen && last.target in chosen then [last] else [])
  }

  function ArcOf(e: Edge): (a: Arc)
  {
    Arc(e.source, e.target)
  }

  function ArcsOf(edges: seq<Edge>): (arcs: seq<Arc>)
  {
    seq(|edges|, i requires 0 <= i < |edges| => ArcOf(edges[i]))
  }

  function ChosenArcs(p: Problem, chosen: set<Id>): (arcs: seq<Arc>)
  {
    ArcsOf(Selected(p.edges, chosen))
  }

  ghost function OrderOf(p: Problem, chosen: set<Id>): (order: seq<Id>)
  {
    KahnOrder(chosen, ChosenArcs(p, chosen))
  }

  /** Requirement ids marked satisfied: the external ones and those of every selected edge. */
  function SatisfiedIds(p: Problem, chosen: set<Id>): (ids: set<Id>)
  {
    Elements(p.satisfied) + EdgeRequirements(Selected(p.edges, chosen))
  }

  function EdgeRequirements(edges: seq<Edge>): (ids: set<Id>)
  {
    set e, r | e in edges && r in e.requirements :: r
  }

  function CoveredGoals(p: Problem, versions: set<Id>): (goals: set<Id>)
    requires versions <= p.byVersion.Keys
  {
    set g | g in p.goals && exists v :: v in versions && g in p.byVersion[v].goals
  }

  function ProducedIds(p: Problem, versions: set<Id>): (ids: set<Id>)
    requires versions <= p.byVersion.Keys
  {
    set v, x | v in versions && x in p.byVersion[v].contract.provisions :: x.id
  }

  /** Requirements left unsatisfied by `met`, over some of the chosen versions. */
  function RequirementGaps(p: Problem, versions: set<Id>, met: set<Id>): (gaps: set<Gap>)
    requires versions <= p.byVersion.Keys
  {
    set v, r | v in versions && r in p.byVersion[v].contract.requirements
      && r.id !in met :: UnsatisfiedRequirement(v, r.id)
  }

  function GapsOf(p: Problem, chosen: set<Id>): (gaps: set<Gap>)
    requires chosen <= p.byVersion.Keys
  {
    RequirementGaps(p, chosen, SatisfiedIds(p, chosen))
    + (set g | g in p.goals && g !in CoveredGoals(p, chosen) :: UncoveredGoal(g))
  }

  predicate Complete(p: Problem, chosen: set<Id>)
    requires chosen <= p.byVersion.Keys
  {
    GapsOf(p, chosen) == {}
  }

  function RiskSum(p: Problem, order: seq<Id>): (n: nat)
    requires Elements(order) <= p.byVersion.Keys
  {
    if order == [] then 0 else
      assert order[|order| - 1] in Elements(order);
      RiskSum(p, Init(order)) + p.byVersion[order[|order| - 1]].risk
  }

  function ToolSum(p: Problem, order: seq<Id>): (n: nat)
    requires Elements(order) <= p.byVersion.Keys
  {
    if order == [] then 0 else
      assert order[|order| - 1] in Elements(order);
      ToolSum(p, Init(order)) + p.byVersion[order[|order| - 1]].toolCost
  }

  function Init(order: seq<Id>): (init: seq<Id>)
    requires order != []
    ensures Elements(init) <= Elements(order) && |init| == |order| - 1
  {
    order[..|order| - 1]
  }

  function BridgeCount(p: Problem, order: seq<Id>): (n: nat)
    requires Elements(order) <= p.byVersion.Keys
    ensures n <= |order|
  {
    if order == [] then 0 else
      assert order[|order| - 1] in Elements(order);
      BridgeCount(p, Init(order)) + (if p.byVersion[order[|order| - 1]].seed then 0 else 1)
  }

  function WeakestEvidence(p: Problem, order: seq<Id>): (n: int)
    requires Elements(order) <= p.byVersion.Keys
  {
    if order == [] then MAX_INT64 else
      assert order[|order| - 1] in Elements(order);
      var rest := WeakestEvidence(p, Init(order));
      var own := p.byVersion[order[|order| - 1]].evidence;
      if own < rest then own else rest
  }

  function UnobservedEdges(p: Problem, edges: seq<Edge>): (n: nat)
    requires forall e :: e in edges ==> e.source in p.byVersion && e.target in p.byVersion
    ensures n <= |edges|
  {
    if edges == [] then 0 else
      var last := edges[|edges| - 1];
      UnobservedEdges(p, edges[..|edges| - 1])
      + (if p.byVersion[last.source].observed && p.byVersion[last.target].observed then 0 else 1)
  }

  /** The evidence a plan is credited with: the weakest member's, less a penalty for
      each bridge and each unobserved edge, and never below zero. */
  function CreditedEvidence(m: Manifest, weakest: int, bridges: nat, unobserved: nat): (n: nat)
  {
    var rest := weakest - bridges * m.noveltyPenalty - unobserved * m.unobservedPenalty;
    if rest < 0 then 0 else rest
  }

  function NodesOf(p: Problem, order: seq<Id>): (nodes: seq<PlanNode>)
    requires Elements(order) <= p.byVersion.Keys
  {
    seq(|order|, i requires 0 <= i < |order| =>
      assert order[i] in Elements(order); PlanNode(i, order[i], !p.byVersion[order[i]].seed))
  }

  /** The chosen versions form a plan: acyclic and within the bridge and tool-cost limits. */
  ghost predicate Feasible(p: Problem, chosen: set<Id>)
  {
    && chosen <= p.byVersion.Keys
    && !Cyclic(chosen, ChosenArcs(p, chosen))
    && Elements(OrderOf(p, chosen)) <= p.byVersion.Keys
    && BridgeCount(p, OrderOf(p, chosen)) <= p.manifest.maximumBridges
    && ToolSum(p, OrderOf(p, chosen)) <= p.manifest.maximumToolCost
  }

  /** `plan` is the plan of the chosen versions, before limit codes are added. */
  ghost predicate IsPlan(p: Problem, chosen: set<Id>, plan: Plan)
    requires ValidProblem(p) && chosen <= p.byVersion.Keys && Elements(OrderOf(p, chosen)) <= p.byVersion.Keys
  {
    var order := OrderOf(p, chosen);
    var selected := Selected(p.edges, chosen);
    && plan.nodes == NodesOf(p, order)
    && plan.dependencies == selected
    && plan.externallySatisfied == p.satisfied && plan.requestedGoals == p.goals && plan.seeds == p.seeds
    && StrictlySorted(plan.satisfied) && Elements(plan.satisfied) == SatisfiedIds(p, chosen)
    && StrictlySorted(plan.produced) && Elements(plan.produced) == ProducedIds(p, chosen)
    && StrictlySorted(plan.covered) && Elements(plan.covered) == CoveredGoals(p, chosen)
    && SortedBy(GapBefore, plan.gaps) && Elements(plan.gaps) == GapsOf(p, chosen)
    && plan.complete == Complete(p, chosen)
    && plan.limitCodes == {}
    && plan.risk == RiskSum(p, order) && plan.toolCost == ToolSum(p, order)
    && plan.allObserved == (forall v :: v in order ==> p.byVersion[v].observed)
    && SelectedKnown(p, selected)
    && plan.evidence == CreditedEvidence(p.manifest, WeakestEvidence(p, order), BridgeCount(p, order),
                                         UnobservedEdges(p, selected))
  }

  predicate SelectedKnown(p: Problem, selected: seq<Edge>)
  {
    forall e :: e in selected ==> e.source in p.byVersion && e.target in p.byVersion
  }

  datatype State = State(plan: Plan, nodes: set<Id>, hash: Id)

  /** The search state of a set of versions. */
  ghost predicate IsState(p: Problem, hash: Plan -> Id, s: State)
    requires ValidProblem(p)
  {
    && Feasible(p, s.nodes) && IsPlan(p, s.nodes, s.plan) && s.hash == hash(s.plan)
  }

  ghost predicate Injective(hash: Plan -> Id)
  {
    forall a, b :: hash(a) == hash(b) ==> a == b
  }

  // ----- preference

  /** betterState. */
  predicate Better(l: State, r: State)
  {
    if l.plan.complete != r.plan.complete then l.plan.complete
    else if |l.plan.covered| != |r.plan.covered| then |l.plan.covered| > |r.plan.covered|
    else if l.plan.evidence != r.plan.evidence then l.plan.evidence > r.plan.evidence
    else if l.plan.allObserved != r.plan.allObserved then l.plan.allObserved
    else if |l.plan.satisfied| != |r.plan.satisfied| then |l.plan.satisfied| > |r.plan.satisfied|
    else if l.plan.risk != r.plan.risk then l.plan.risk < r.plan.risk
    else if l.plan.toolCost != r.plan.toolCost then l.plan.toolCost < r.plan.toolCost
    else if |l.plan.nodes| != |r.plan.nodes| then |l.plan.nodes| < |r.plan.nodes|
    else l.hash < r.hash
  }

  /** At least as good: the same state or a better one. */
  predicate AtLeast(l: State, r: State)
  {
    l == r || Better(l, r)
  }

  lemma {:induction false} BetterTransitive(a: State, b: State, c: State)
    requires Better(a, b) && Better(b, c)
    ensures Better(a, c)
  {
  }

  lemma {:induction false} BetterDecides(a: State, b: State)
    ensures Better(a, b) ==> !Better(b, a)
    ensures a.hash != b.hash ==> Better(a, b) || Better(b, a)
  {
  }
}
