/** What a synthesized slice is: the events its goals need, plus the successful events nobody
called irrelevant, in trace order with the edges between them. */
module SliceLaws {
  import opened Identifiers
  import opened Sorting
  import opened CausalGraph
  import opened Synthesis

  /** The guarantee of the caller: failed branches name failed events only. */
  ghost predicate NamesOnlyFailed(q: Request)
  {
    forall id :: InBranch(q, id) ==> !Succeeded(q, id)
  }

  // ----- the steps

  lemma {:induction false} StepMembers(q: Request, needed: set<Id>, nodes: seq<Node>, id: Id)
    ensures IsStep(StepsOf(q, needed, nodes), id) <==> exists n :: n in nodes && n.id == id && Kept(q, needed, n)
  {
    if nodes != [] {
      hide Kept;
      var last := |nodes| - 1;
      StepMembers(q, needed, nodes[..last], id);
      assert nodes == nodes[..last] + [nodes[last]];
      var before := StepsOf(q, needed, nodes[..last]);
      if Kept(q, needed, nodes[last]) {
        var s := Step(nodes[last].id, |before|, nodes[last].position, nodes[last].id !in needed, nodes[last]);
        assert StepsOf(q, needed, nodes) == before + [s];
        assert forall t :: t in before + [s] <==> t in before || t == s;
      }
    }
  }

  lemma {:induction false} StepShape(q: Request, needed: set<Id>, nodes: seq<Node>, k: nat)
    requires k < |StepsOf(q, needed, nodes)|
    ensures var s := StepsOf(q, needed, nodes)[k];
            && s == Step(s.node.id, k, s.node.position, s.node.id !in needed, s.node)
            && s.node in nodes && Kept(q, needed, s.node)
  {
    hide Kept;
    var last := |nodes| - 1;
    if k < |StepsOf(q, needed, nodes[..last])| {
      StepShape(q, needed, nodes[..last], k);
    }
  }

  /** Steps are numbered from zero and stand in the order of the trace. */
  lemma {:induction false} StepsInTraceOrder(q: Request, needed: set<Id>, nodes: seq<Node>, i: nat, j: nat)
    requires Numbered(nodes) && i < j < |StepsOf(q, needed, nodes)|
    ensures StepsOf(q, needed, nodes)[i].position < StepsOf(q, needed, nodes)[j].position
  {
    hide Kept;
    var last := |nodes| - 1;
    var before := StepsOf(q, needed, nodes[..last]);
    if j < |before| {
      StepsInTraceOrder(q, needed, nodes[..last], i, j);
    } else {
      StepShape(q, needed, nodes[..last], i);
    }
  }

  lemma {:induction false} InducedMembers(steps: seq<Step>, edges: seq<Edge>, e: Edge)
    ensures e in Induced(steps, edges) <==> e in edges && IsStep(steps, e.source) && IsStep(steps, e.target)
  {
    if edges != [] {
      hide IsStep;
      var last := |edges| - 1;
      InducedMembers(steps, edges[..last], e);
      assert edges == edges[..last] + [edges[last]];
    }
  }

  // ----- a synthesized procedure

  ghost predicate Cut(q: Request, o: Synthesized)
  {
    Slices(q, o) && o.Procedure? && ValidTrace(q.nodes)
  }

  /** The node of an identifier in a valid trace. */
  lemma {:induction false} NodeOf(q: Request, n: Node)
    requires ValidTrace(q.nodes) && n in q.nodes
    ensures Known(q, n.id) && Table(q.nodes)[n.id] == n && (Succeeded(q, n.id) <==> n.succeeded)
  {
    var i :| 0 <= i < |q.nodes| && q.nodes[i] == n;
    TableFinds(q.nodes, i);
  }

  lemma {:induction false} KnownNode(q: Request, id: Id)
    requires Known(q, id)
    ensures exists n :: n in q.nodes && n.id == id
  {
    TableHolds(q.nodes, id);
  }

  /** An event is a step exactly when no branch names it and it is needed, or succeeded and is not irrelevant. */
  lemma {:induction false} StepWhen(q: Request, o: Synthesized, id: Id)
    requires Cut(q, o)
    ensures IsStep(o.steps, id) <==> !InBranch(q, id) && (Needed(q, id) || (Succeeded(q, id) && id !in q.irrelevant))
  {
    hide Needed, InBranch, IsStep, StepsOf, Induced, SeedsReady, ValidBranches, Table;
    var needed :| IsNeededSet(q, needed) && o.steps == StepsOf(q, needed, q.nodes);
    StepMembers(q, needed, q.nodes, id);
    if Known(q, id) {
      KnownNode(q, id);
      var n :| n in q.nodes && n.id == id;
      NodeOf(q, n);
      forall m | m in q.nodes && m.id == id ensures m == n { NodeOf(q, m); }
    } else {
      forall n | n in q.nodes ensures n.id != id { NodeOf(q, n); }
    }
  }

  /** With the caller's guarantee: the needed events and the successful ones that are not irrelevant. */
  lemma {:induction false} StepsExactly(q: Request, o: Synthesized, id: Id)
    requires Cut(q, o) && NamesOnlyFailed(q)
    ensures IsStep(o.steps, id) <==> Needed(q, id) || (Succeeded(q, id) && id !in q.irrelevant)
  {
    StepWhen(q, o, id);
    hide Needed, InBranch, IsStep, StepsOf, Induced, SeedsReady, ValidBranches, Succeeded;
    if Needed(q, id) {
      assert Succeeded(q, id);
    }
  }

  /** Every step succeeded; a step is certain exactly when it is needed. */
  lemma {:induction false} StepsSucceeded(q: Request, o: Synthesized, k: nat)
    requires Cut(q, o) && k < |o.steps|
    ensures var s := o.steps[k];
            && s.ordinal == k && s.node in q.nodes && s.event == s.node.id && s.position == s.node.position
            && s.node.succeeded && (s.uncertain <==> !Needed(q, s.event))
  {
    hide Needed, InBranch, StepsOf, Induced, SeedsReady, ValidBranches, Table;
    var needed :| IsNeededSet(q, needed) && o.steps == StepsOf(q, needed, q.nodes);
    StepShape(q, needed, q.nodes, k);
    NodeOf(q, o.steps[k].node);
  }

  lemma {:induction false} StepsOrdered(q: Request, o: Synthesized, i: nat, j: nat)
    requires Cut(q, o) && i < j < |o.steps|
    ensures o.steps[i].position < o.steps[j].position && o.steps[i].event != o.steps[j].event
  {
    hide Needed, InBranch, StepsOf, Induced, SeedsReady, ValidBranches, Table;
    var needed :| IsNeededSet(q, needed) && o.steps == StepsOf(q, needed, q.nodes);
    StepsInTraceOrder(q, needed, q.nodes, i, j);
    StepShape(q, needed, q.nodes, i);
    StepShape(q, needed, q.nodes, j);
  }

  /** The edges are the induced subgraph. */
  lemma {:induction false} EdgesExactly(q: Request, o: Synthesized, e: Edge)
    requires Cut(q, o)
    ensures e in o.edges <==> e in q.edges && IsStep(o.steps, e.source) && IsStep(o.steps, e.target)
  {
    hide Needed, InBranch, IsStep, StepsOf, Induced, Synthesizable;
    SameMembers(o.edges, Induced(o.steps, q.edges), e);
    InducedMembers(o.steps, q.edges, e);
  }

  // ----- closure

  predicate CertainStep(steps: seq<Step>, id: Id)
  {
    exists s :: s in steps && s.event == id && !s.uncertain
  }

  /** The sources of a certain step's edges are certain steps. */
  ghost predicate PrerequisiteClosed(q: Request, o: Synthesized)
    requires o.Procedure?
  {
    forall e :: e in q.edges && CertainStep(o.steps, e.target) ==> CertainStep(o.steps, e.source)
  }

  lemma {:induction false} CertainWhen(q: Request, o: Synthesized, id: Id)
    requires Cut(q, o)
    ensures CertainStep(o.steps, id) <==> Needed(q, id) && !InBranch(q, id)
  {
    StepWhen(q, o, id);
    hide Needed, InBranch, Slices;
    if s :| s in o.steps && s.event == id {
      forall t | t in o.steps && t.event == id
        ensures t.uncertain <==> !Needed(q, id)
      {
        var k :| 0 <= k < |o.steps| && o.steps[k] == t;
        StepsSucceeded(q, o, k);
      }
    }
  }

  /** The certain steps are closed under prerequisites exactly when no branch names the source of
      an edge into a needed event that no branch names. */
  lemma {:induction false} ClosedExactly(q: Request, o: Synthesized)
    requires Cut(q, o)
    ensures PrerequisiteClosed(q, o) <==>
            forall e :: e in q.edges && Needed(q, e.target) && !InBranch(q, e.target) ==> !InBranch(q, e.source)
  {
    hide Needed, InBranch, Slices, CertainStep;
    forall e | e in q.edges
      ensures CertainStep(o.steps, e.target) <==> Needed(q, e.target) && !InBranch(q, e.target)
      ensures Needed(q, e.target) ==> (CertainStep(o.steps, e.source) <==> !InBranch(q, e.source))
    {
      CertainWhen(q, o, e.target);
      CertainWhen(q, o, e.source);
      if Needed(q, e.target) {
        assert IsEdgeIn(q, e.source, e.target);
        NeededStep(q, e.source, e.target);
      }
    }
  }

  /** With the caller's guarantee nothing needed is lost and the certain steps are closed. */
  lemma {:induction false} NothingNeededLost(q: Request, o: Synthesized)
    requires Cut(q, o) && NamesOnlyFailed(q)
    ensures PrerequisiteClosed(q, o) && forall id :: Needed(q, id) ==> CertainStep(o.steps, id)
  {
    hide Needed, InBranch, Succeeded, CertainStep, SeedsReady, ValidBranches, Induced, StepsOf;
    forall id | Needed(q, id) ensures CertainStep(o.steps, id) && !InBranch(q, id) {
      assert Succeeded(q, id);
      CertainWhen(q, o, id);
    }
    forall e | e in q.edges && Needed(q, e.target) ensures !InBranch(q, e.source) {
      assert IsEdgeIn(q, e.source, e.target);
      NeededStep(q, e.source, e.target);
    }
    ClosedExactly(q, o);
  }

  /** Every needed event is a step exactly when no branch names a needed event. */
  lemma {:induction false} KeptExactly(q: Request, o: Synthesized)
    requires Cut(q, o)
    ensures (forall id :: Needed(q, id) ==> IsStep(o.steps, id)) <==> forall id :: Needed(q, id) ==> !InBranch(q, id)
  {
    hide Needed, InBranch, IsStep, Slices;
    forall id | Needed(q, id) ensures IsStep(o.steps, id) <==> !InBranch(q, id) {
      StepWhen(q, o, id);
    }
  }

  // ----- a branch that names a proven event

  function PlainNode(id: Id, position: nat): (n: Node)
  {
    Node(id, position, [], [], true, false, [], {}, {}, {}, true)
  }

  /** Two successful events, the goal on the second, which depends on the first; a branch names the first. */
  function DroppedRequest(): (q: Request)
  {
    Request([PlainNode(1, 0), PlainNode(2, 1)], [DeclaredEdge(Dependency(1, 2), Control)], true, map[7 := {2}], [], [],
            [Branch(true, [1])])
  }

  lemma {:induction false} DroppedTable()
    ensures Table(DroppedRequest().nodes) == map[1 := PlainNode(1, 0), 2 := PlainNode(2, 1)]
  {
    var a, b := PlainNode(1, 0), PlainNode(2, 1);
    assert [a, b][..1] == [a] && [a][..0] == [];
    assert Table([a]) == map[1 := a];
  }

  lemma {:induction false} DroppedNeeds()
    ensures forall id :: Needed(DroppedRequest(), id) <==> id == 1 || id == 2
  {
    var q := DroppedRequest();
    DroppedTable();
    assert Seed(q, 2) by { assert 7 in q.goals && 2 in q.goals[7]; }
    NeededSeed(q, 2);
    assert q.edges[0] in q.edges;
    assert IsEdgeIn(q, 1, 2);
    NeededStep(q, 1, 2);
    assert forall id :: Seed(q, id) ==> id == 2;
    forall id | Needed(q, id) ensures id == 1 || id == 2 {
      var w :| Chain(q, w) && w[0] == id && Seed(q, w[|w| - 1]);
      if |w| > 1 {
        assert IsEdgeIn(q, w[0], w[0 + 1]);
      }
    }
  }

  lemma {:induction false} DroppedReady()
    ensures SeedsReady(DroppedRequest()) && ValidBranches(DroppedRequest())
    ensures Succeeded(DroppedRequest(), 1) && Succeeded(DroppedRequest(), 2)
    ensures InBranch(DroppedRequest(), 1) && !InBranch(DroppedRequest(), 2)
  {
    var q := DroppedRequest();
    DroppedTable();
    assert q.failedBranches[0] in q.failedBranches;
    assert 7 in q.goals && 2 in q.goals[7] && Succeeded(q, 2);
    assert GoalCovered(q, 7);
    hide Table;
  }

  lemma {:induction false} DroppedMetadata()
    ensures forall n :: n in DroppedRequest().nodes ==> ValidMetadata(n) && forall r :: !Touches(n, r)
  {
  }

  lemma {:induction false} DroppedSynthesizable()
    ensures Synthesizable(DroppedRequest()) && Needed(DroppedRequest(), 1) && Needed(DroppedRequest(), 2)
    ensures InBranch(DroppedRequest(), 1) && !InBranch(DroppedRequest(), 2)
  {
    hide SeedsReady, ValidBranches, InBranch, Succeeded, Needed, ValidMetadata, Touches, DroppedRequest;
    var q := DroppedRequest();
    DroppedNeeds();
    DroppedReady();
    DroppedMetadata();
    NothingIrrelevant();
  }

  lemma {:induction false} NothingIrrelevant()
    ensures DroppedRequest().irrelevant == [] && ValidTrace(DroppedRequest().nodes)
    ensures exists e :: e in DroppedRequest().edges && e.source == 1 && e.target == 2
  {
    var q := DroppedRequest();
    assert q.edges[0] in q.edges;
  }

  /** Then the second event stays a certain step although its prerequisite is gone. */
  lemma {:induction false} DroppedExample(o: Synthesized)
    requires Slices(DroppedRequest(), o)
    ensures o.Procedure? && !PrerequisiteClosed(DroppedRequest(), o)
  {
    hide Needed, InBranch, Synthesizable, DroppedRequest;
    var q := DroppedRequest();
    DroppedSynthesizable();
    NothingIrrelevant();
    assert o.Procedure?;
    ClosedExactly(q, o);
  }
}
