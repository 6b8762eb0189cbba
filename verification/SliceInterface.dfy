/** From the trace to the interface: what the three stages guarantee together. */
module SliceInterface {
  import opened Identifiers
  import opened CausalGraph
  import opened Synthesis
  import opened SliceLaws
  import opened Interface
  import opened Digraph

  /** The slice was cut from the graph built for its trace. */
  ghost predicate FromTrace(control: seq<Dependency>, verifier: seq<Dependency>, q: Request, o: Synthesized)
  {
    Cut(q, o) && Builds(q.nodes, control, verifier, Graph(q.edges))
  }

  /** Synthesis refuses steps with unnamed resources. */
  lemma {:induction false} StepResourceNamed(q: Request, o: Synthesized, n: Node, r: Resource)
    requires Cut(q, o) && n in q.nodes && CertainStep(o.steps, n.id) && r in n.inputs
    ensures r.id != EMPTY
  {
    CertainWhen(q, o, n.id);
    hide Needed, InBranch, SeedsReady, ValidBranches, StepsOf, Induced, OneResourcePerId, ValidPreconditions;
    assert BecomesStep(q, n);
    assert ValidMetadata(n);
    assert ValidResource(r);
  }

  lemma {:induction false} GraphEdges(nodes: seq<Node>, control: seq<Dependency>, verifier: seq<Dependency>,
                                      edges: seq<Edge>)
    requires ValidTrace(nodes) && Builds(nodes, control, verifier, Graph(edges))
    ensures ListsEdges(nodes, control, verifier, edges)
  {
    hide ValidTrace, Refused;
    RefusalIsNoGraph(nodes, control + verifier, edges);
  }

  lemma {:induction false} RefusalIsNoGraph(nodes: seq<Node>, deps: seq<Dependency>, edges: seq<Edge>)
    ensures !FirstRefused(nodes, deps, Graph(edges))
  {
  }

  lemma {:induction false} StepTableFinds(steps: seq<Step>, k: nat)
    requires k < |steps| && forall i, j :: 0 <= i < j < |steps| ==> steps[i].event != steps[j].event
    ensures steps[k].event in StepTable(steps) && StepTable(steps)[steps[k].event] == steps[k]
  {
    var n := |steps| - 1;
    if k < n {
      StepTableFinds(steps[..n], k);
      assert steps[..n][k] == steps[k];
    }
  }

  /** The step of an event, found in the table, is the event's node. */
  lemma {:induction false} StepOfNode(q: Request, o: Synthesized, i: nat)
    requires Cut(q, o) && i < |q.nodes| && IsStep(o.steps, q.nodes[i].id)
    ensures var t := StepTable(o.steps); var id := q.nodes[i].id;
            id in t && t[id].node == q.nodes[i] && t[id] in o.steps && t[id].event == id && t[id].position == i
  {
    hide Slices;
    var id := q.nodes[i].id;
    var s :| s in o.steps && s.event == id;
    var k :| 0 <= k < |o.steps| && o.steps[k] == s;
    forall a, b | 0 <= a < b < |o.steps| ensures o.steps[a].event != o.steps[b].event {
      StepsOrdered(q, o, a, b);
    }
    StepTableFinds(o.steps, k);
    StepsSucceeded(q, o, k);
    SameNode(q, s.node, i);
  }

  lemma {:induction false} SameNode(q: Request, n: Node, i: nat)
    requires ValidTrace(q.nodes) && n in q.nodes && i < |q.nodes| && n.id == q.nodes[i].id
    ensures n == q.nodes[i]
  {
    NodeOf(q, n);
    NodeOf(q, q.nodes[i]);
  }

  /** A flow of the graph between the events it names. */
  lemma {:induction false} FlowOfGraph(control: seq<Dependency>, verifier: seq<Dependency>, q: Request, o: Synthesized,
                                       e: Edge)
    returns (i: nat, j: nat)
    requires FromTrace(control, verifier, q, o) && e in q.edges && Flow(e)
    ensures j < i < |q.nodes| && e.source == q.nodes[j].id && e.target == q.nodes[i].id
    ensures HasResource(q.nodes[j].writes, e.resource) && HasResource(q.nodes[i].inputs, e.resource)
    ensures LatestWriter(q.nodes, i, e.resource, j)
  {
    hide Slices, Builds;
    GraphEdges(q.nodes, control, verifier, q.edges);
    assert IsEdge(q.nodes, control, verifier, e);
    assert IsFlow(q.nodes, e);
    i :| FlowsInto(q.nodes, i, e);
    var r, w: int :| r in q.nodes[i].inputs && LatestWriter(q.nodes, i, r.id, w)
        && e == FlowEdge(q.nodes[w].id, q.nodes[i].id, r);
    j := w;
  }

  /** The interface never refuses the flows of a slice: each joins a writer and a reader of its resource. */
  lemma {:induction false} SliceFlowsValid(control: seq<Dependency>, verifier: seq<Dependency>, q: Request,
                                           o: Synthesized)
    requires FromTrace(control, verifier, q, o)
    ensures ValidFlows(o.steps, o.edges)
  {
    forall e | e in o.edges && Flow(e)
      ensures ValidFlow(o.steps, e)
    {
      EdgesExactly(q, o, e);
      var i, j := FlowOfGraph(control, verifier, q, o, e);
      hide Slices;
      StepOfNode(q, o, i);
      StepOfNode(q, o, j);
    }
  }

  /** Some event before i writes the resource: then one of them wrote it last. */
  lemma {:induction false} LatestExists(nodes: seq<Node>, i: nat, resource: Id, k: nat) returns (j: nat)
    requires k < i <= |nodes| && Writes(nodes[k], resource)
    ensures LatestWriter(nodes, i, resource, j)
    decreases i
  {
    if Writes(nodes[i - 1], resource) {
      j := i - 1;
    } else {
      j := LatestExists(nodes, i - 1, resource, k);
    }
  }

  /** A certain step reads from outside the slice only what nothing earlier in the trace wrote: with
      the caller's guarantee, no producer of a needed event is ever left out. */
  lemma {:induction false} OutsideMeansUnwritten(control: seq<Dependency>, verifier: seq<Dependency>, q: Request,
                                                 o: Synthesized, i: nat, r: Resource, k: nat)
    requires FromTrace(control, verifier, q, o) && NamesOnlyFailed(q)
    requires i < |q.nodes| && CertainStep(o.steps, q.nodes[i].id) && r in q.nodes[i].inputs
             && !Fed(o.edges, q.nodes[i].id, r.id)
    requires k < i
    ensures !Writes(q.nodes[k], r.id)
  {
    hide Slices, Builds, CertainStep;
    if Writes(q.nodes[k], r.id) {
      WrittenMeansFed(control, verifier, q, o, i, r, k);
    }
  }

  lemma {:induction false} WrittenMeansFed(control: seq<Dependency>, verifier: seq<Dependency>, q: Request,
                                           o: Synthesized, i: nat, r: Resource, k: nat)
    requires FromTrace(control, verifier, q, o) && NamesOnlyFailed(q)
    requires i < |q.nodes| && CertainStep(o.steps, q.nodes[i].id) && r in q.nodes[i].inputs
    requires k < i && Writes(q.nodes[k], r.id)
    ensures Fed(o.edges, q.nodes[i].id, r.id)
  {
    StepResourceNamed(q, o, q.nodes[i], r);
    hide Slices, Builds;
    GraphEdges(q.nodes, control, verifier, q.edges);
    var j := LatestExists(q.nodes, i, r.id, k);
    var e := FlowEdge(q.nodes[j].id, q.nodes[i].id, r);
    assert FlowsInto(q.nodes, i, e);
    assert IsEdge(q.nodes, control, verifier, e);
    NothingNeededLost(q, o);
    assert CertainStep(o.steps, e.source);
    EdgesExactly(q, o, e);
  }

  /** A read that is fed comes from the step that wrote the resource last before it. */
  lemma {:induction false} FedByLatest(control: seq<Dependency>, verifier: seq<Dependency>, q: Request, o: Synthesized,
                                       i: nat, resource: Id)
    returns (j: nat)
    requires FromTrace(control, verifier, q, o) && i < |q.nodes| && Fed(o.edges, q.nodes[i].id, resource)
    ensures LatestWriter(q.nodes, i, resource, j) && IsStep(o.steps, q.nodes[j].id)
  {
    hide Slices, Builds;
    var e :| e in o.edges && Flow(e) && e.target == q.nodes[i].id && e.resource == resource;
    EdgesExactly(q, o, e);
    var target, source := FlowOfGraph(control, verifier, q, o, e);
    assert target == i;
    j := source;
  }

  // ----- the ordinals of the stored procedure

  /** buildProcedure's check: every edge joins two steps, the earlier one first. */
  predicate OrdinalCheck(steps: seq<Step>, edges: seq<Edge>)
  {
    forall e :: e in edges ==>
      var t := StepTable(steps);
      e.source in t && e.target in t && t[e.source].ordinal < t[e.target].ordinal
  }

  /** The first event stands before the second in the trace. */
  ghost predicate Before(nodes: seq<Node>, x: Id, y: Id)
  {
    exists i, j :: 0 <= i < j < |nodes| && nodes[i].id == x && nodes[j].id == y
  }

  /** A slice passes the ordinal check exactly when every declared dependency between two of its
      steps has its prerequisite earlier in the trace. */
  lemma {:induction false} OrdinalCheckExactly(control: seq<Dependency>, verifier: seq<Dependency>, q: Request,
                                               o: Synthesized)
    requires FromTrace(control, verifier, q, o)
    ensures OrdinalCheck(o.steps, o.edges) <==>
            forall d :: d in control + verifier && IsStep(o.steps, d.prerequisite) && IsStep(o.steps, d.dependent) ==>
              Before(q.nodes, d.prerequisite, d.dependent)
  {
    GraphEdges(q.nodes, control, verifier, q.edges);
    hide Slices, Builds, StepTable, IsStep, IsFlow;
    forall e | e in o.edges
      ensures e.source in StepTable(o.steps) && e.target in StepTable(o.steps)
      ensures StepTable(o.steps)[e.source].ordinal < StepTable(o.steps)[e.target].ordinal <==>
              Before(q.nodes, e.source, e.target)
      ensures IsEdge(q.nodes, control, verifier, e) && IsStep(o.steps, e.source) && IsStep(o.steps, e.target)
      ensures IsFlow(q.nodes, e) ==> Before(q.nodes, e.source, e.target)
    {
      EdgesExactly(q, o, e);
      OrdinalsFollow(q, o, e);
      if IsFlow(q.nodes, e) {
        FlowBefore(q, e);
      }
    }
    forall d | d in control + verifier && IsStep(o.steps, d.prerequisite) && IsStep(o.steps, d.dependent)
      ensures exists e :: e in o.edges && e.source == d.prerequisite && e.target == d.dependent
    {
      var e := DeclaredEdge(d, if d in control then Control else Verifier);
      assert IsEdge(q.nodes, control, verifier, e);
      EdgesExactly(q, o, e);
    }
    hide Before;
    if OrdinalCheck(o.steps, o.edges) {
      forall d | d in control + verifier && IsStep(o.steps, d.prerequisite) && IsStep(o.steps, d.dependent)
        ensures Before(q.nodes, d.prerequisite, d.dependent)
      {
        var e :| e in o.edges && e.source == d.prerequisite && e.target == d.dependent;
      }
    }
  }

  lemma {:induction false} FlowBefore(q: Request, e: Edge)
    requires ValidTrace(q.nodes) && IsFlow(q.nodes, e)
    ensures Before(q.nodes, e.source, e.target)
  {
    FlowEnds(q.nodes, e);
    var i :| 0 <= i < |q.nodes| && Ids(q.nodes)[i] == e.source;
    var j :| 0 <= j < |q.nodes| && Ids(q.nodes)[j] == e.target;
    FlowsForward(q.nodes, e, i, j);
  }

  lemma {:induction false} OrdinalsFollow(q: Request, o: Synthesized, e: Edge)
    requires Cut(q, o) && IsStep(o.steps, e.source) && IsStep(o.steps, e.target)
    ensures var t := StepTable(o.steps);
            e.source in t && e.target in t
              && (t[e.source].ordinal < t[e.target].ordinal <==> Before(q.nodes, e.source, e.target))
  {
    var i := StepPlace(q, o, e.source);
    var j := StepPlace(q, o, e.target);
    hide Slices, IsStep;
    StepOfNode(q, o, i);
    StepOfNode(q, o, j);
    var s, t := StepTable(o.steps)[e.source], StepTable(o.steps)[e.target];
    hide StepTable;
    assert Before(q.nodes, e.source, e.target) <==> i < j;
    var a :| 0 <= a < |o.steps| && o.steps[a] == s;
    var b :| 0 <= b < |o.steps| && o.steps[b] == t;
    StepsSucceeded(q, o, a);
    StepsSucceeded(q, o, b);
    if a < b {
      StepsOrdered(q, o, a, b);
    } else if b < a {
      StepsOrdered(q, o, b, a);
    }
  }

  lemma {:induction false} StepPlace(q: Request, o: Synthesized, id: Id) returns (i: nat)
    requires Cut(q, o) && IsStep(o.steps, id)
    ensures i < |q.nodes| && q.nodes[i].id == id
  {
    hide Slices;
    var s :| s in o.steps && s.event == id;
    var k :| 0 <= k < |o.steps| && o.steps[k] == s;
    StepsSucceeded(q, o, k);
    i :| 0 <= i < |q.nodes| && q.nodes[i] == s.node;
  }

  // ----- a dependency declared against the trace

  /** Two successful events; the first is declared to depend on the second. */
  function BackwardRequest(): (q: Request)
  {
    Request([PlainNode(1, 0), PlainNode(2, 1)], [DeclaredEdge(Dependency(2, 1), Control)], true, map[7 := {1}], [], [],
            [])
  }

  lemma {:induction false} BackwardGraph()
    ensures Builds(BackwardRequest().nodes, [Dependency(2, 1)], [], Graph(BackwardRequest().edges))
  {
    var q := BackwardRequest();
    var d := Dependency(2, 1);
    var none: seq<Dependency> := [];
    var control := [d];
    assert control + none == control;
    assert Ids(q.nodes) == [1, 2] && Elements([1, 2]) == {1, 2};
    assert !Refused(q.nodes, d);
    forall e ensures !IsFlow(q.nodes, e) {
      NoInputsNoFlow(q.nodes, e);
    }
    assert ListsEdges(q.nodes, control, none, q.edges) by {
      assert d in control && q.edges[0] in q.edges;
    }
    assert ArcsOf(q.edges) == [Arc(2, 1)];
    assert Elements([2, 1]) == {1, 2} && IsTopological([2, 1], {1, 2}, [Arc(2, 1)]);
    TopologicalIsAcyclic([2, 1], {1, 2}, [Arc(2, 1)]);
    hide IsTopological, Cyclic, ListsEdges, Refused;
    assert ValidTrace(q.nodes) && NoDuplicates(q.edges);
    assert forall x :: x in control + none ==> x == d;
    assert Elements(Ids(q.nodes)) == {1, 2};
    assert !Cyclic(Elements(Ids(q.nodes)), ArcsOf(q.edges));
  }

  lemma {:induction false} NoInputsNoFlow(nodes: seq<Node>, e: Edge)
    requires forall i :: 0 <= i < |nodes| ==> nodes[i].inputs == []
    ensures !IsFlow(nodes, e)
  {
  }

  lemma {:induction false} BackwardReady()
    ensures SeedsReady(BackwardRequest()) && ValidBranches(BackwardRequest())
            && forall id :: !InBranch(BackwardRequest(), id)
    ensures Succeeded(BackwardRequest(), 1) && Succeeded(BackwardRequest(), 2) && BackwardRequest().irrelevant == []
    ensures forall id :: Needed(BackwardRequest(), id) ==> id == 1 || id == 2
  {
    var q := BackwardRequest();
    DroppedTable();
    assert q.nodes == DroppedRequest().nodes;
    assert 7 in q.goals && 1 in q.goals[7] && Succeeded(q, 1);
    assert GoalCovered(q, 7);
    hide Table;
    forall id | Needed(q, id) ensures id == 1 || id == 2 {
      var w :| Chain(q, w) && w[0] == id && Seed(q, w[|w| - 1]);
      if |w| > 1 {
        assert IsEdgeIn(q, w[0], w[0 + 1]);
      }
    }
  }

  lemma {:induction false} BackwardSteps(o: Synthesized)
    requires Slices(BackwardRequest(), o)
    ensures Cut(BackwardRequest(), o) && IsStep(o.steps, 1) && IsStep(o.steps, 2)
  {
    var q := BackwardRequest();
    BackwardReady();
    DroppedMetadata();
    assert q.nodes == DroppedRequest().nodes;
    assert ValidTrace(q.nodes);
    hide SeedsReady, ValidBranches, InBranch, Succeeded, Needed, ValidMetadata, Touches, IsStep, BackwardRequest,
         DroppedRequest;
    assert Synthesizable(q);
    StepWhen(q, o, 1);
    StepWhen(q, o, 2);
  }

  /** The graph builder accepts it, synthesis keeps both events, and the ordinal check refuses the slice. */
  lemma {:induction false} BackwardExample(o: Synthesized)
    requires Slices(BackwardRequest(), o)
    ensures FromTrace([Dependency(2, 1)], [], BackwardRequest(), o) && !OrdinalCheck(o.steps, o.edges)
  {
    var q := BackwardRequest();
    BackwardGraph();
    BackwardSteps(o);
    assert !Before(q.nodes, 2, 1);
    hide Cut, Slices, Builds, IsStep, OrdinalCheck, BackwardRequest, Before;
    var none: seq<Dependency> := [];
    OrdinalCheckExactly([Dependency(2, 1)], none, q, o);
    assert Dependency(2, 1) in [Dependency(2, 1)] + none;
  }
}
