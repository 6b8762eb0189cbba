/** Cutting the causal slice of a trace: backward closure from the goals, the steps kept, and the
edges between them. */
module Synthesis {
  import opened Identifiers
  import opened Sorting
  import opened CausalGraph

  /** Goals are merged by predicate. A branch is `wellFormed` when its predicate and scope are. */
  datatype Branch = Branch(wellFormed: bool, events: seq<Id>)

  datatype Request = Request(
    nodes: seq<Node>,
    edges: seq<Edge>,
    verified: bool,
    goals: map<Id, set<Id>>,
    requiredEffects: seq<Id>,
    irrelevant: seq<Id>,
    failedBranches: seq<Branch>
  )

  datatype Step = Step(event: Id, ordinal: nat, position: nat, uncertain: bool, node: Node)

  datatype Code = OutcomeNotVerified | OpaqueTool | UncoveredGoal | FailedRequiredEffect | FailedPrerequisite

  datatype Synthesized = Procedure(steps: seq<Step>, edges: seq<Edge>) | Abstained(code: Code) | InvalidSynthesis

  // ----- the specification

  /** The node of each identifier, the last one if an identifier repeats. */
  function Table(nodes: seq<Node>): (t: map<Id, Node>)
  {
    if nodes == [] then map[] else Table(nodes[..|nodes| - 1])[nodes[|nodes| - 1].id := nodes[|nodes| - 1]]
  }

  lemma {:induction false} TableHolds(nodes: seq<Node>, id: Id)
    requires id in Table(nodes)
    ensures Table(nodes)[id] in nodes && Table(nodes)[id].id == id
  {
    if nodes[|nodes| - 1].id != id {
      TableHolds(nodes[..|nodes| - 1], id);
    }
  }

  lemma {:induction false} TableFinds(nodes: seq<Node>, i: nat)
    requires i < |nodes|
    ensures nodes[i].id in Table(nodes)
    ensures (forall j, k :: 0 <= j < k < |nodes| ==> nodes[j].id != nodes[k].id) ==>
            Table(nodes)[nodes[i].id] == nodes[i]
  {
    var n := |nodes| - 1;
    if i < n {
      TableFinds(nodes[..n], i);
      assert nodes[..n][i] == nodes[i];
    }
  }

  predicate Succeeded(q: Request, id: Id)
  {
    id in Table(q.nodes) && Table(q.nodes)[id].succeeded
  }

  predicate Known(q: Request, id: Id)
  {
    id in Table(q.nodes)
  }

  /** The verifier nodes of the goals that succeeded, and the required effects. */
  predicate Seed(q: Request, id: Id)
  {
    (Succeeded(q, id) && exists p :: p in q.goals && id in q.goals[p]) || id in q.requiredEffects
  }

  predicate GoalCovered(q: Request, p: Id)
    requires p in q.goals
  {
    p != EMPTY && (forall id :: id in q.goals[p] ==> Known(q, id)) && exists id :: id in q.goals[p] && Succeeded(q, id)
  }

  predicate IsEdgeIn(q: Request, source: Id, target: Id)
  {
    exists e :: e in q.edges && e.source == source && e.target == target
  }

  /** A chain of edges from the first event to the last. */
  ghost predicate Chain(q: Request, w: seq<Id>)
  {
    w != [] && forall i :: 0 <= i < |w| - 1 ==> IsEdgeIn(q, w[i], w[i + 1])
  }

  /** The event is needed: a chain of edges leads from it to a seed. */
  ghost predicate Needed(q: Request, id: Id)
  {
    exists w :: Chain(q, w) && w[0] == id && Seed(q, w[|w| - 1])
  }

  predicate Numbered(nodes: seq<Node>)
  {
    forall i :: 0 <= i < |nodes| ==> nodes[i].id != EMPTY && nodes[i].position == i
  }

  predicate InBranch(q: Request, id: Id)
  {
    exists b :: b in q.failedBranches && id in b.events
  }

  predicate ValidBranches(q: Request)
  {
    forall b :: b in q.failedBranches ==> b.wellFormed && b.events != [] && forall id :: id in b.events ==> Known(q, id)
  }

  /** What the request must satisfy up to the closure. */
  predicate SeedsReady(q: Request)
  {
    && q.nodes != [] && q.goals != map[] && q.verified
    && (forall n :: n in q.nodes ==> !n.isOpaque)
    && Numbered(q.nodes)
    && (forall p :: p in q.goals ==> GoalCovered(q, p))
    && (forall id :: id in q.requiredEffects ==> Succeeded(q, id))
    && (forall e :: e in q.edges ==> Known(q, e.source) && Known(q, e.target))
  }

  /** Which nodes become steps, given the needed events. */
  predicate Kept(q: Request, needed: set<Id>, n: Node)
  {
    !InBranch(q, n.id) && (n.id in needed || (n.id !in q.irrelevant && n.succeeded))
  }

  /** The same, of the request alone. */
  ghost predicate BecomesStep(q: Request, n: Node)
  {
    n in q.nodes && !InBranch(q, n.id) && (Needed(q, n.id) || (n.id !in q.irrelevant && n.succeeded))
  }

  predicate Touches(n: Node, r: Resource)
  {
    r in n.inputs || r in n.writes
  }

  predicate ValidResource(r: Resource)
  {
    r.id != EMPTY && r.name != EMPTY && r.family != EMPTY
  }

  /** A precondition has an identifier and names a resource of its node or none; one identifier
      stands for one precondition. */
  predicate ValidPreconditions(n: Node)
  {
    && (forall p :: p in n.preconditions ==>
            p.id != EMPTY && (p.resourceName == EMPTY || NamesResource(n, p.resourceName)))
    && (forall p, t :: p in n.preconditions && t in n.preconditions && p.id == t.id ==> p == t)
  }

  predicate NamesResource(n: Node, name: Id)
  {
    (exists r :: r in n.inputs && r.name == name) || (exists r :: r in n.writes && r.name == name)
  }

  /** What canonicalStepMetadata asks of a node by itself. */
  predicate ValidMetadata(n: Node)
  {
    && n.wellFormed
    && (forall r :: r in n.inputs ==> ValidResource(r)) && (forall r :: r in n.writes ==> ValidResource(r))
    && EMPTY !in n.effects && EMPTY !in n.successPredicates && EMPTY !in n.verificationMethods
    && ValidPreconditions(n)
  }

  /** Over all steps, one resource identifier stands for one resource: name, family and schema agree. */
  ghost predicate OneResourcePerId(q: Request)
  {
    forall n, m, r, t :: BecomesStep(q, n) && BecomesStep(q, m) && Touches(n, r) && Touches(m, t) && r.id == t.id ==>
        r == t
  }

  /** The requests from which a procedure is synthesized. */
  ghost predicate Synthesizable(q: Request)
  {
    && SeedsReady(q)
    && (forall id :: Needed(q, id) ==> Succeeded(q, id))
    && (forall id :: id in q.irrelevant ==> Known(q, id))
    && ValidBranches(q)
    && (forall n :: BecomesStep(q, n) ==> ValidMetadata(n))
    && OneResourcePerId(q)
  }

  function StepsOf(q: Request, needed: set<Id>, nodes: seq<Node>): (steps: seq<Step>)
  {
    if nodes == [] then []
    else
      var before := StepsOf(q, needed, nodes[..|nodes| - 1]);
      var n := nodes[|nodes| - 1];
      if Kept(q, needed, n) then before + [Step(n.id, |before|, n.position, n.id !in needed, n)] else before
  }

  predicate IsStep(steps: seq<Step>, id: Id)
  {
    exists s :: s in steps && s.event == id
  }

  function Induced(steps: seq<Step>, edges: seq<Edge>): (r: seq<Edge>)
  {
    if edges == [] then []
    else
      var before := Induced(steps, edges[..|edges| - 1]);
      var e := edges[|edges| - 1];
      if IsStep(steps, e.source) && IsStep(steps, e.target) then before + [e] else before
  }

  ghost predicate IsNeededSet(q: Request, needed: set<Id>)
  {
    forall id :: id in needed <==> Needed(q, id)
  }

  // ----- why a request is refused

  predicate Hollow(q: Request)
  {
    q.nodes == [] || q.goals == map[]
  }

  predicate Admitted(q: Request)
  {
    !Hollow(q) && q.verified && (forall n :: n in q.nodes ==> !n.isOpaque) && Numbered(q.nodes)
  }

  /** The first goal, in the order of the predicates, that is not covered. */
  predicate FirstOpen(q: Request, p: Id)
  {
    p in q.goals && !GoalCovered(q, p) && forall r :: r in q.goals && r < p ==> GoalCovered(q, r)
  }

  /** Without a name, without verifiers, or with none that succeeded among known ones. */
  predicate Vacant(q: Request, p: Id)
    requires p in q.goals
  {
    p == EMPTY || q.goals[p] == {} || forall id :: id in q.goals[p] ==> Known(q, id) && !Succeeded(q, id)
  }

  ghost predicate StopsAtGoal(q: Request)
  {
    exists p :: FirstOpen(q, p) && Vacant(q, p)
  }

  /** The first required effect that did not succeed is a known event. */
  predicate StopsAtEffect(q: Request)
  {
    exists k :: 0 <= k < |q.requiredEffects| && Known(q, q.requiredEffects[k]) && !Succeeded(q, q.requiredEffects[k])
                && forall j :: 0 <= j < k ==> Succeeded(q, q.requiredEffects[j])
  }

  predicate AllCovered(q: Request)
  {
    forall p :: p in q.goals ==> GoalCovered(q, p)
  }

  /** When each code is given; whatever else keeps a request from being synthesized makes it invalid. */
  ghost predicate Codes(q: Request, o: Synthesized)
  {
    && (o == Abstained(OutcomeNotVerified) <==> !Hollow(q) && !q.verified)
    && (o == Abstained(OpaqueTool) <==> !Hollow(q) && q.verified && exists n :: n in q.nodes && n.isOpaque)
    && (o == Abstained(UncoveredGoal) <==> Admitted(q) && StopsAtGoal(q))
    && (o == Abstained(FailedRequiredEffect) <==> Admitted(q) && AllCovered(q) && StopsAtEffect(q))
    && (o == Abstained(FailedPrerequisite) <==> SeedsReady(q) && exists id :: Needed(q, id) && !Succeeded(q, id))
  }

  /** The codes before the closure, for a request that stops there or is ready for it. */
  ghost predicate EarlyCodes(q: Request, stopped: bool, o: Synthesized)
  {
    && (stopped && o == Abstained(OutcomeNotVerified) <==> !Hollow(q) && !q.verified)
    && (stopped && o == Abstained(OpaqueTool) <==> !Hollow(q) && q.verified && exists n :: n in q.nodes && n.isOpaque)
    && (stopped && o == Abstained(UncoveredGoal) <==> Admitted(q) && StopsAtGoal(q))
    && (stopped && o == Abstained(FailedRequiredEffect) <==> Admitted(q) && AllCovered(q) && StopsAtEffect(q))
  }

  /** What Synthesize answers. */
  ghost predicate Slices(q: Request, o: Synthesized)
  {
    && (o.Procedure? <==> Synthesizable(q))
    && (o.Procedure? ==> exists needed :: IsNeededSet(q, needed) && o.steps == StepsOf(q, needed, q.nodes)
                                          && multiset(o.edges) == multiset(Induced(o.steps, q.edges)))
    && Codes(q, o)
  }

  // ----- Synthesize

  method Synthesize(q: Request) returns (o: Synthesized)
    ensures Slices(q, o)
  {
    hide Needed, StepsOf, Induced, BecomesStep, ValidMetadata, OneResourcePerId, Hollow, Admitted, StopsAtGoal,
         StopsAtEffect, AllCovered;
    var ready, seeds, reason := CollectSeeds(q);
    if !ready {
      return reason;
    }
    var known := CheckEdges(q);
    if !known {
      return InvalidSynthesis;
    }
    var needed := Close(q, seeds);
    if exists id :: id in needed && !Succeeded(q, id) {
      return Abstained(FailedPrerequisite);
    }
    if exists id :: id in q.irrelevant && !Known(q, id) {
      return InvalidSynthesis;
    }
    var valid, failed := FailedNodes(q);
    if !valid {
      return InvalidSynthesis;
    }
    var canonical, steps := SelectSteps(q, needed, failed);
    if !canonical {
      return InvalidSynthesis;
    }
    var edges := SelectEdges(q, steps);
    EdgeOrderWeak(Positions(q.nodes));
    edges := Sort(EdgeOrder(Positions(q.nodes)), edges);
    o := Procedure(steps, edges);
    assert IsNeededSet(q, needed);
  }

  function Positions(nodes: seq<Node>): (p: map<Id, nat>)
  {
    if nodes == [] then map[] else Positions(nodes[..|nodes| - 1])[nodes[|nodes| - 1].id := |nodes| - 1]
  }

  lemma {:induction false} EdgeOrderWeak(positions: map<Id, nat>)
    ensures WeaklyOrders(EdgeOrder(positions))
  {
  }

  /** The checks before the closure, with the seeds they collect. */
  method CollectSeeds(q: Request) returns (ready: bool, seeds: set<Id>, reason: Synthesized)
    ensures ready ==> (forall id :: id in seeds <==> Seed(q, id))
    ensures ready && (forall e :: e in q.edges ==> Known(q, e.source) && Known(q, e.target)) ==> SeedsReady(q)
    ensures !ready ==> !SeedsReady(q) && !reason.Procedure? && reason != Abstained(FailedPrerequisite)
    ensures EarlyCodes(q, !ready, reason)
  {
    hide Table, Numbered, GoalCovered, StopsAtGoal, StopsAtEffect, AllCovered;
    reason := InvalidSynthesis;
    if q.nodes == [] || q.goals == map[] {
      return false, {}, InvalidSynthesis;
    }
    if !q.verified {
      return false, {}, Abstained(OutcomeNotVerified);
    }
    if exists n :: n in q.nodes && n.isOpaque {
      return false, {}, Abstained(OpaqueTool);
    }
    if !Numbered(q.nodes) {
      return false, {}, InvalidSynthesis;
    }
    ready, seeds, reason := GoalSeeds(q);
    CoveredNotStopped(q);
    if !ready {
      return;
    }
    ghost var goalSeeds := seeds;
    hide Succeeded, Known;
    for i := 0 to |q.requiredEffects|
      invariant forall k :: 0 <= k < i ==> Succeeded(q, q.requiredEffects[k])
      invariant seeds == goalSeeds + Elements(q.requiredEffects[..i])
    {
      var id := q.requiredEffects[i];
      assert q.requiredEffects[..i + 1] == q.requiredEffects[..i] + [id];
      if !Succeeded(q, id) {
        StoppedHere(q, i);
        return false, {}, if Known(q, id) then Abstained(FailedRequiredEffect) else InvalidSynthesis;
      }
      seeds := seeds + {id};
    }
    assert q.requiredEffects[..|q.requiredEffects|] == q.requiredEffects;
    SucceededNotStopped(q);
    ready := true;
  }

  lemma {:induction false} CoveredNotStopped(q: Request)
    ensures AllCovered(q) ==> !StopsAtGoal(q)
  {
    hide GoalCovered;
  }

  lemma {:induction false} SucceededNotStopped(q: Request)
    ensures (forall id :: id in q.requiredEffects ==> Succeeded(q, id)) ==> !StopsAtEffect(q)
  {
    hide Succeeded, Known;
  }

  lemma {:induction false} StoppedHere(q: Request, i: nat)
    requires i < |q.requiredEffects| && !Succeeded(q, q.requiredEffects[i])
    requires forall k :: 0 <= k < i ==> Succeeded(q, q.requiredEffects[k])
    ensures StopsAtEffect(q) <==> Known(q, q.requiredEffects[i])
  {
    hide Succeeded, Known;
  }

  /** The goal at which the loop stops is the first open one, and the only such. */
  lemma {:induction false} OpenHere(q: Request, predicates: seq<Id>, i: nat)
    requires StrictlySorted(predicates) && Elements(predicates) == q.goals.Keys && i < |predicates|
    requires forall k :: 0 <= k < i ==> predicates[k] in q.goals && GoalCovered(q, predicates[k])
    requires predicates[i] in q.goals && !GoalCovered(q, predicates[i])
    ensures StopsAtGoal(q) <==> Vacant(q, predicates[i])
    ensures !AllCovered(q)
  {
    hide GoalCovered, Vacant;
    var p := predicates[i];
    forall r | r in q.goals && r < p
      ensures GoalCovered(q, r)
    {
      assert r in Elements(predicates);
      var k :| 0 <= k < |predicates| && predicates[k] == r;
      assert k < i;
    }
    assert FirstOpen(q, p);
    if t :| FirstOpen(q, t) && Vacant(q, t) {
      assert !(t < p) && !(p < t);
    }
  }

  lemma {:induction false} NotCovered(q: Request, p: Id)
    requires p in q.goals && (p == EMPTY || q.goals[p] == {} || exists id :: id in q.goals[p] && !Known(q, id))
    ensures !GoalCovered(q, p)
  {
  }

  lemma {:induction false} CoveredMeans(q: Request, p: Id, covered: set<Id>)
    requires p in q.goals && p != EMPTY && (forall id :: id in q.goals[p] ==> Known(q, id))
    requires forall id :: id in covered <==> id in q.goals[p] && Succeeded(q, id)
    ensures covered == {} <==> !GoalCovered(q, p)
  {
    if covered != {} {
      var id :| id in covered;
    }
  }

  /** One of the goals names the event. */
  ghost predicate Wanted(q: Request, predicates: seq<Id>, id: Id)
  {
    exists p :: p in predicates && p in q.goals && id in q.goals[p]
  }

  lemma {:induction false} WantedNext(q: Request, predicates: seq<Id>, i: nat)
    requires i < |predicates| && predicates[i] in q.goals
    ensures forall id :: Wanted(q, predicates[..i + 1], id) <==>
                Wanted(q, predicates[..i], id) || id in q.goals[predicates[i]]
  {
    assert predicates[..i + 1] == predicates[..i] + [predicates[i]];
    assert forall p :: p in predicates[..i + 1] <==> p in predicates[..i] || p == predicates[i];
  }

  lemma {:induction false} WantedAll(q: Request, predicates: seq<Id>)
    requires Elements(predicates) == q.goals.Keys
    ensures forall id :: Wanted(q, predicates[..|predicates|], id) <==> exists p :: p in q.goals && id in q.goals[p]
  {
    assert predicates[..|predicates|] == predicates;
    assert forall p :: p in predicates <==> p in Elements(predicates);
  }

  lemma {:induction false} VacantMeans(q: Request, p: Id)
    requires p in q.goals
    ensures p == EMPTY || q.goals[p] == {} ==> Vacant(q, p)
    ensures p != EMPTY && q.goals[p] != {} ==>
              (Vacant(q, p) <==> forall id :: id in q.goals[p] ==> Known(q, id) && !Succeeded(q, id))
  {
    hide Known, Succeeded;
  }

  method GoalSeeds(q: Request) returns (ready: bool, seeds: set<Id>, reason: Synthesized)
    ensures ready <==> forall p :: p in q.goals ==> GoalCovered(q, p)
    ensures ready ==> forall id :: id in seeds <==> Succeeded(q, id) && exists p :: p in q.goals && id in q.goals[p]
    ensures !ready ==> reason == if StopsAtGoal(q) then Abstained(UncoveredGoal) else InvalidSynthesis
    ensures ready <==> AllCovered(q)
  {
    hide StopsAtGoal, Vacant;
    seeds, reason := {}, InvalidSynthesis;
    var predicates := SortedSet(q.goals.Keys);
    assert forall p :: p in q.goals <==> p in Elements(predicates);
    hide Succeeded, Known, GoalCovered;
    for i := 0 to |predicates|
      invariant forall k :: 0 <= k < i ==> predicates[k] in q.goals && GoalCovered(q, predicates[k])
      invariant forall id :: id in seeds <==> Succeeded(q, id) && Wanted(q, predicates[..i], id)
    {
      var p := predicates[i];
      assert p in Elements(predicates);
      if p == EMPTY || q.goals[p] == {} {
        NotCovered(q, p);
        OpenHere(q, predicates, i);
        VacantMeans(q, p);
        return false, {}, Abstained(UncoveredGoal);
      }
      if exists id :: id in q.goals[p] && !Known(q, id) {
        NotCovered(q, p);
        OpenHere(q, predicates, i);
        VacantMeans(q, p);
        return false, {}, InvalidSynthesis;
      }
      var covered := set id | id in q.goals[p] && Succeeded(q, id);
      CoveredMeans(q, p, covered);
      if covered == {} {
        OpenHere(q, predicates, i);
        VacantMeans(q, p);
        assert forall id :: id in q.goals[p] && Succeeded(q, id) ==> id in covered;
        return false, {}, Abstained(UncoveredGoal);
      }
      WantedNext(q, predicates, i);
      hide Wanted;
      seeds := seeds + covered;
    }
    WantedAll(q, predicates);
    return true, seeds, InvalidSynthesis;
  }

  method CheckEdges(q: Request) returns (known: bool)
    ensures known <==> forall e :: e in q.edges ==> Known(q, e.source) && Known(q, e.target)
  {
    hide Known;
    for i := 0 to |q.edges|
      invariant forall k :: 0 <= k < i ==> Known(q, q.edges[k].source) && Known(q, q.edges[k].target)
    {
      if !Known(q, q.edges[i].source) || !Known(q, q.edges[i].target) {
        return false;
      }
    }
    return true;
  }

  // ----- the closure

  function Prerequisites(edges: seq<Edge>, id: Id): (r: seq<Id>)
    ensures forall p :: p in r <==> exists e :: e in edges && e.source == p && e.target == id
  {
    if edges == [] then []
    else
      var e := edges[|edges| - 1];
      var before := Prerequisites(edges[..|edges| - 1], id);
      assert edges == edges[..|edges| - 1] + [e];
      if e.target == id then before + [e.source] else before
  }

  /** The map from an event to the sources of its edges. */
  method Reverse(edges: seq<Edge>) returns (reverse: map<Id, seq<Id>>)
    ensures forall id :: Prerequisites(edges, id) == if id in reverse then reverse[id] else []
  {
    reverse := map[];
    for i := 0 to |edges|
      invariant forall id :: Prerequisites(edges[..i], id) == if id in reverse then reverse[id] else []
    {
      var e := edges[i];
      assert edges[..i + 1][..i] == edges[..i];
      var earlier := if e.target in reverse then reverse[e.target] else [];
      reverse := reverse[e.target := earlier + [e.source]];
    }
    assert edges[..|edges|] == edges;
  }

  lemma {:induction false} NeededSeed(q: Request, id: Id)
    requires Seed(q, id)
    ensures Needed(q, id)
  {
    assert Chain(q, [id]) && Seed(q, [id][0]);
  }

  lemma {:induction false} NeededStep(q: Request, source: Id, target: Id)
    requires Needed(q, target) && IsEdgeIn(q, source, target)
    ensures Needed(q, source)
  {
    hide Seed;
    var w :| Chain(q, w) && w[0] == target && Seed(q, w[|w| - 1]);
    var v := [source] + w;
    assert forall i :: 0 < i < |v| ==> v[i] == w[i - 1];
    assert Chain(q, v) && v[|v| - 1] == w[|w| - 1];
  }

  /** A set that holds the seeds and the sources of its members' edges holds every needed event. */
  lemma {:induction false} ClosedHolds(q: Request, closed: set<Id>, w: seq<Id>)
    requires forall id :: Seed(q, id) ==> id in closed
    requires forall p, id :: id in closed && IsEdgeIn(q, p, id) ==> p in closed
    requires Chain(q, w) && Seed(q, w[|w| - 1])
    ensures w[0] in closed
  {
    if |w| > 1 {
      hide Seed;
      assert forall i :: 0 <= i < |w| - 2 ==> IsEdgeIn(q, w[1..][i], w[1..][i + 1]) by {
        assert forall i :: 0 <= i < |w| - 1 ==> w[1..][i] == w[i + 1];
      }
      ClosedHolds(q, closed, w[1..]);
      assert IsEdgeIn(q, w[0], w[0 + 1]);
    }
  }

  /** Where the worklist stands: what is in is needed, and only events on the list may lack a source. */
  ghost predicate Closing(q: Request, needed: set<Id>, queue: seq<Id>, partial: set<Id>)
  {
    && (forall id :: Seed(q, id) ==> id in needed)
    && (forall id :: id in needed ==> Needed(q, id))
    && (forall p, id :: id in needed && IsEdgeIn(q, p, id) ==> p in needed || id in queue || id in partial)
  }

  lemma {:induction false} ClosingTake(q: Request, needed: set<Id>, queue: seq<Id>, id: Id)
    requires Closing(q, needed, queue + [id], {})
    ensures Closing(q, needed, queue, {id})
  {
    hide Needed, Seed, IsEdgeIn;
  }

  lemma {:induction false} ClosingAdd(q: Request, needed: set<Id>, queue: seq<Id>, id: Id, p: Id)
    requires Closing(q, needed, queue, {id}) && Needed(q, p)
    ensures Closing(q, needed + {p}, queue + [p], {id})
  {
    hide Needed, Seed, IsEdgeIn;
  }

  lemma {:induction false} ClosingDone(q: Request, needed: set<Id>, queue: seq<Id>, id: Id)
    requires Closing(q, needed, queue, {id}) && forall p :: IsEdgeIn(q, p, id) ==> p in needed
    ensures Closing(q, needed, queue, {})
  {
    hide Needed, Seed, IsEdgeIn;
  }

  lemma {:induction false} ClosingStart(q: Request, seeds: set<Id>, queue: seq<Id>)
    requires (forall id :: id in seeds <==> Seed(q, id)) && Elements(queue) == seeds
    ensures Closing(q, seeds, queue, {}) && forall id :: id in queue ==> id in seeds
  {
    assert forall id :: id in queue ==> id in Elements(queue);
    forall id | id in seeds
      ensures Needed(q, id) && id in queue
    {
      NeededSeed(q, id);
      assert id in Elements(queue);
    }
    hide Needed, Seed;
  }

  lemma {:induction false} SeedsKnown(q: Request, seeds: set<Id>)
    requires (forall id :: id in seeds ==> Seed(q, id)) && SeedsReady(q)
    ensures seeds <= Table(q.nodes).Keys
  {
  }

  /** Backward closure with a worklist taken in any order. */
  method Close(q: Request, seeds: set<Id>) returns (needed: set<Id>)
    requires (forall id :: id in seeds <==> Seed(q, id)) && SeedsReady(q)
    ensures IsNeededSet(q, needed)
  {
    hide *;
    ghost var universe := Table(q.nodes).Keys;
    SeedsKnown(q, seeds);
    var reverse := Reverse(q.edges);
    needed := seeds;
    var queue := SortedSet(seeds);
    ClosingStart(q, seeds, queue);
    while |queue| > 0
      invariant needed <= universe && Closing(q, needed, queue, {})
      invariant forall id :: id in queue ==> id in needed
      decreases |universe - needed|, |queue|
    {
      var id := queue[|queue| - 1];
      assert queue == queue[..|queue| - 1] + [id];
      queue := queue[..|queue| - 1];
      ClosingTake(q, needed, queue, id);
      var sources := if id in reverse then reverse[id] else [];
      SourcesOf(q, id, sources);
      ghost var before := needed;
      needed, queue := AddSources(q, universe, needed, queue, id, sources);
      ShrinksOrSame(universe, before, needed);
    }
    assert queue == [];
    ClosedIsNeeded(q, needed);
  }

  lemma {:induction false} ClosedIsNeeded(q: Request, needed: set<Id>)
    requires Closing(q, needed, [], {})
    ensures IsNeededSet(q, needed)
  {
    hide Needed, Closing;
    forall id | id in needed ensures Needed(q, id) {
      ClosingNeeded(q, needed, [], {}, id);
    }
    forall id | Needed(q, id) ensures id in needed {
      ChainOf(q, needed, id);
    }
  }

  lemma {:induction false} SourcesOf(q: Request, id: Id, sources: seq<Id>)
    requires sources == Prerequisites(q.edges, id)
    ensures forall p :: p in sources <==> IsEdgeIn(q, p, id)
  {
  }

  lemma {:induction false} ClosingNeeded(q: Request, needed: set<Id>, queue: seq<Id>, partial: set<Id>, id: Id)
    requires Closing(q, needed, queue, partial) && id in needed
    ensures Needed(q, id)
  {
  }

  lemma {:induction false} ShrinksOrSame(universe: set<Id>, before: set<Id>, after: set<Id>)
    requires before <= after <= universe
    ensures after == before || |universe - after| < |universe - before|
  {
    if after != before {
      var x :| x in after && x !in before;
      SubsetSize(universe - after, (universe - before) - {x});
    }
  }

  lemma {:induction false} ChainOf(q: Request, closed: set<Id>, id: Id)
    requires Needed(q, id) && Closing(q, closed, [], {})
    ensures id in closed
  {
    var w :| Chain(q, w) && w[0] == id && Seed(q, w[|w| - 1]);
    hide Seed, Needed;
    ClosedHolds(q, closed, w);
  }

  /** The inner loop: the sources of one event that were not in yet. */
  method AddSources(q: Request, ghost universe: set<Id>, before: set<Id>, list: seq<Id>, id: Id, sources: seq<Id>)
    returns (needed: set<Id>, queue: seq<Id>)
    requires universe == Table(q.nodes).Keys && SeedsReady(q)
    requires before <= universe && Closing(q, before, list, {id}) && id in before
    requires (forall x :: x in list ==> x in before) && (forall p :: p in sources <==> IsEdgeIn(q, p, id))
    ensures before <= needed <= universe && Closing(q, needed, queue, {}) && (forall x :: x in queue ==> x in needed)
    ensures needed == before ==> queue == list
  {
    hide *;
    ClosingNeeded(q, before, list, {id}, id);
    needed, queue := before, list;
    for k := 0 to |sources|
      invariant before <= needed <= universe && Closing(q, needed, queue, {id})
      invariant forall x :: x in queue ==> x in needed
      invariant forall j :: 0 <= j < k ==> sources[j] in needed
      invariant needed == before ==> queue == list
    {
      var p := sources[k];
      if p !in needed {
        SourceIsNeeded(q, p, id);
        ClosingAdd(q, needed, queue, id, p);
        needed := needed + {p};
        queue := queue + [p];
      }
    }
    ClosingDone(q, needed, queue, id);
  }

  lemma {:induction false} SourceIsNeeded(q: Request, p: Id, id: Id)
    requires SeedsReady(q) && IsEdgeIn(q, p, id) && Needed(q, id)
    ensures Needed(q, p) && p in Table(q.nodes)
  {
    NeededStep(q, p, id);
    var e :| e in q.edges && e.source == p && e.target == id;
    assert Known(q, e.source);
  }

  // ----- the steps and their edges

  method FailedNodes(q: Request) returns (valid: bool, failed: set<Id>)
    ensures valid <==> ValidBranches(q)
    ensures valid ==> forall id :: id in failed <==> InBranch(q, id)
  {
    hide Known;
    failed := {};
    for i := 0 to |q.failedBranches|
      invariant forall k :: 0 <= k < i ==>
                    q.failedBranches[k].wellFormed && q.failedBranches[k].events != []
                    && forall id :: id in q.failedBranches[k].events ==> Known(q, id)
      invariant forall id :: id in failed <==> exists k :: 0 <= k < i && id in q.failedBranches[k].events
    {
      var b := q.failedBranches[i];
      if !b.wellFormed || b.events == [] || exists id :: id in b.events && !Known(q, id) {
        assert b in q.failedBranches;
        return false, {};
      }
      failed := failed + Elements(b.events);
    }
    return true, failed;
  }

  lemma {:induction false} BecomesKept(q: Request, needed: set<Id>, n: Node)
    requires IsNeededSet(q, needed)
    ensures BecomesStep(q, n) <==> n in q.nodes && Kept(q, needed, n)
  {
    hide Needed, InBranch;
  }

  /** The catalog holds exactly the resources of the nodes kept so far, one for each identifier. */
  ghost predicate Catalogs(q: Request, needed: set<Id>, nodes: seq<Node>, catalog: map<Id, Resource>)
  {
    && (forall n, r :: n in nodes && Kept(q, needed, n) && Touches(n, r) ==> r.id in catalog && catalog[r.id] == r)
    && (forall id :: id in catalog ==>
            catalog[id].id == id && exists n :: n in nodes && Kept(q, needed, n) && Touches(n, catalog[id]))
  }

  /** The loop over the nodes, with the resources met so far. */
  method SelectSteps(q: Request, needed: set<Id>, failed: set<Id>) returns (canonical: bool, steps: seq<Step>)
    requires (forall id :: id in failed <==> InBranch(q, id)) && IsNeededSet(q, needed)
    ensures canonical <==> (forall n :: BecomesStep(q, n) ==> ValidMetadata(n)) && OneResourcePerId(q)
    ensures canonical ==> steps == StepsOf(q, needed, q.nodes)
  {
    hide InBranch, BecomesStep, OneResourcePerId, ValidMetadata, Catalogs, IsNeededSet;
    steps := [];
    var catalog: map<Id, Resource> := map[];
    NothingCatalogued(q, needed);
    for i := 0 to |q.nodes|
      invariant steps == StepsOf(q, needed, q.nodes[..i])
      invariant forall k :: 0 <= k < i && Kept(q, needed, q.nodes[k]) ==> ValidMetadata(q.nodes[k])
      invariant Catalogs(q, needed, q.nodes[..i], catalog)
    {
      var n := q.nodes[i];
      assert q.nodes[..i + 1][..i] == q.nodes[..i];
      var proven := n.id in needed;
      if n.id in failed || (!proven && n.id in q.irrelevant) || (!proven && !n.succeeded) {
        SkippedCatalogued(q, needed, i, catalog);
      } else {
        BecomesKept(q, needed, n);
        var ok;
        ok, catalog := StepMetadata(q, needed, i, catalog);
        if !ok {
          return false, [];
        }
        steps := steps + [Step(n.id, |steps|, n.position, !proven, n)];
      }
    }
    assert q.nodes[..|q.nodes|] == q.nodes;
    AllCatalogued(q, needed, catalog);
    forall n | BecomesStep(q, n) ensures ValidMetadata(n) {
      BecomesKept(q, needed, n);
      var k :| 0 <= k < |q.nodes| && q.nodes[k] == n;
    }
    return true, steps;
  }

  lemma {:induction false} NothingCatalogued(q: Request, needed: set<Id>)
    ensures Catalogs(q, needed, q.nodes[..0], map[])
  {
  }

  lemma {:induction false} SkippedCatalogued(q: Request, needed: set<Id>, i: nat, catalog: map<Id, Resource>)
    requires i < |q.nodes| && Catalogs(q, needed, q.nodes[..i], catalog) && !Kept(q, needed, q.nodes[i])
    ensures Catalogs(q, needed, q.nodes[..i + 1], catalog)
  {
    hide Kept, Touches;
    assert forall n :: n in q.nodes[..i + 1] <==> n in q.nodes[..i] || n == q.nodes[i] by {
      assert q.nodes[..i + 1] == q.nodes[..i] + [q.nodes[i]];
    }
  }

  lemma {:induction false} AllCatalogued(q: Request, needed: set<Id>, catalog: map<Id, Resource>)
    requires IsNeededSet(q, needed) && Catalogs(q, needed, q.nodes, catalog)
    ensures OneResourcePerId(q)
  {
    hide Kept, Touches, BecomesStep, IsNeededSet;
    forall n, m, r, t | BecomesStep(q, n) && BecomesStep(q, m) && Touches(n, r) && Touches(m, t) && r.id == t.id
      ensures r == t
    {
      BecomesKept(q, needed, n);
      BecomesKept(q, needed, m);
    }
  }

  /** Part of one node's resources is in the catalog. */
  ghost predicate CatalogsPart(before: map<Id, Resource>, done: seq<Resource>, catalog: map<Id, Resource>)
  {
    && (forall id :: id in before ==> id in catalog && catalog[id] == before[id])
    && (forall r :: r in done ==> r.id in catalog && catalog[r.id] == r)
    && (forall id :: id in catalog ==> catalog[id].id == id && (id in before || catalog[id] in done))
  }

  /** canonicalProcedureResources: adds a list to the catalog unless an identifier already stands for something else. */
  method AddResources(ghost before: map<Id, Resource>, ghost earlier: seq<Resource>, resources: seq<Resource>,
                      catalog0: map<Id, Resource>)
    returns (ok: bool, catalog: map<Id, Resource>)
    requires CatalogsPart(before, earlier, catalog0)
    ensures ok ==> CatalogsPart(before, earlier + resources, catalog) && forall r :: r in resources ==> ValidResource(r)
    ensures !ok ==> (exists r :: r in resources && !ValidResource(r))
                    || exists r, t :: r in resources
                           && (t in earlier + resources || (t.id in before && before[t.id] == t)) && r.id == t.id
                           && r != t
  {
    catalog := catalog0;
    assert earlier + resources[..0] == earlier;
    for i := 0 to |resources|
      invariant CatalogsPart(before, earlier + resources[..i], catalog)
      invariant forall k :: 0 <= k < i ==> ValidResource(resources[k])
    {
      var r := resources[i];
      assert resources[..i + 1] == resources[..i] + [r];
      assert earlier + resources[..i + 1] == (earlier + resources[..i]) + [r];
      if !ValidResource(r) {
        return false, catalog;
      }
      if r.id in catalog && catalog[r.id] != r {
        ghost var t := catalog[r.id];
        assert t in earlier + resources[..i] ==> t in earlier + resources;
        return false, catalog;
      }
      catalog := catalog[r.id := r];
    }
    assert resources[..|resources|] == resources;
    return true, catalog;
  }

  /** canonicalStepMetadata for the i-th node. */
  method StepMetadata(q: Request, ghost needed: set<Id>, i: nat, catalog0: map<Id, Resource>)
    returns (ok: bool, catalog: map<Id, Resource>)
    requires i < |q.nodes| && IsNeededSet(q, needed) && Kept(q, needed, q.nodes[i])
             && Catalogs(q, needed, q.nodes[..i], catalog0)
    ensures ok ==> ValidMetadata(q.nodes[i]) && Catalogs(q, needed, q.nodes[..i + 1], catalog)
    ensures !ok ==> !((forall n :: BecomesStep(q, n) ==> ValidMetadata(n)) && OneResourcePerId(q))
  {
    hide BecomesStep, OneResourcePerId, Kept, IsNeededSet, ValidResource, ValidPreconditions, Catalogs;
    var n := q.nodes[i];
    BecomesKept(q, needed, n);
    StartsPart(q, needed, q.nodes[..i], catalog0);
    if !n.wellFormed {
      return false, catalog0;
    }
    ok, catalog := AddResources(catalog0, [], n.inputs, catalog0);
    if !ok {
      RefusedResources(q, needed, i, catalog0, n.inputs);
      return;
    }
    assert [] + n.inputs == n.inputs;
    ok, catalog := AddResources(catalog0, n.inputs, n.writes, catalog);
    if !ok {
      RefusedResources(q, needed, i, catalog0, n.writes);
      return;
    }
    if EMPTY in n.effects || !ValidPreconditions(n) || EMPTY in n.successPredicates || EMPTY in n.verificationMethods {
      return false, catalog;
    }
    FinishesPart(q, needed, i, catalog0, catalog);
  }

  lemma {:induction false} StartsPart(q: Request, needed: set<Id>, nodes: seq<Node>, catalog: map<Id, Resource>)
    requires Catalogs(q, needed, nodes, catalog)
    ensures CatalogsPart(catalog, [], catalog)
  {
  }

  lemma {:induction false} FinishesPart(q: Request, needed: set<Id>, i: nat, before: map<Id, Resource>,
                                        catalog: map<Id, Resource>)
    requires i < |q.nodes| && Kept(q, needed, q.nodes[i]) && Catalogs(q, needed, q.nodes[..i], before)
    requires CatalogsPart(before, q.nodes[i].inputs + q.nodes[i].writes, catalog)
    ensures Catalogs(q, needed, q.nodes[..i + 1], catalog)
  {
    hide Kept;
    var node := q.nodes[i];
    assert forall n :: n in q.nodes[..i + 1] <==> n in q.nodes[..i] || n == node by {
      assert q.nodes[..i + 1] == q.nodes[..i] + [node];
    }
    forall id | id in catalog
      ensures exists n :: n in q.nodes[..i + 1] && Kept(q, needed, n) && Touches(n, catalog[id])
    {
      if id in before {
        var n :| n in q.nodes[..i] && Kept(q, needed, n) && Touches(n, before[id]);
      } else {
        assert Touches(node, catalog[id]);
      }
    }
  }

  /** A refused list really breaks one of the two rules. */
  lemma {:induction false} RefusedResources(q: Request, needed: set<Id>, i: nat, before: map<Id, Resource>,
                                            resources: seq<Resource>)
    requires i < |q.nodes| && IsNeededSet(q, needed) && Kept(q, needed, q.nodes[i])
             && Catalogs(q, needed, q.nodes[..i], before)
    requires forall r :: r in resources ==> Touches(q.nodes[i], r)
    requires (exists r :: r in resources && !ValidResource(r))
             || exists r, t :: r in resources && (Touches(q.nodes[i], t) || (t.id in before && before[t.id] == t))
                    && r.id == t.id && r != t
    ensures !((forall n :: BecomesStep(q, n) ==> ValidMetadata(n)) && OneResourcePerId(q))
  {
    hide Kept, BecomesStep, IsNeededSet, ValidResource, ValidPreconditions;
    var node := q.nodes[i];
    BecomesKept(q, needed, node);
    if r :| r in resources && !ValidResource(r) {
      assert !ValidMetadata(node);
    } else {
      var r, t :| r in resources && (Touches(node, t) || (t.id in before && before[t.id] == t)) && r.id == t.id
          && r != t;
      assert BecomesStep(q, node) && Touches(node, r);
      if !Touches(node, t) {
        var m :| m in q.nodes[..i] && Kept(q, needed, m) && Touches(m, before[t.id]);
        BecomesKept(q, needed, m);
        assert BecomesStep(q, m) && Touches(m, t);
      }
    }
  }

  method SelectEdges(q: Request, steps: seq<Step>) returns (edges: seq<Edge>)
    ensures edges == Induced(steps, q.edges)
  {
    var selected := set s | s in steps :: s.event;
    assert forall id :: id in selected <==> IsStep(steps, id);
    edges := [];
    for i := 0 to |q.edges|
      invariant edges == Induced(steps, q.edges[..i])
    {
      hide IsStep;
      assert q.edges[..i + 1][..i] == q.edges[..i];
      if q.edges[i].source in selected && q.edges[i].target in selected {
        edges := edges + [q.edges[i]];
      }
    }
    assert q.edges[..|q.edges|] == q.edges;
  }
}
