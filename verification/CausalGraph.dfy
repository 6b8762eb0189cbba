/** The causal graph of a trace: who wrote last what each event read, and the declared dependencies. */
module CausalGraph {
  import opened Identifiers
  import opened Sorting
  import opened Digraph
  import opened Kahn

  /** `family` stands for the resource's type and namespace. */
  datatype Resource = Resource(id: Id, name: Id, family: Id, schema: Id)

  /** A predicate; an empty resource name means it concerns every resource. */
  datatype Precondition = Precondition(id: Id, resourceName: Id)

  /** `wellFormed` stands for the side-effect and risk texts, the lengths of the texts and the shape
      of the identity hashes. */
  datatype Node = Node(
    id: Id,
    position: nat,
    inputs: seq<Resource>,
    writes: seq<Resource>,
    succeeded: bool,
    isOpaque: bool,
    preconditions: seq<Precondition>,
    effects: set<Id>,
    successPredicates: set<Id>,
    verificationMethods: set<Id>,
    wellFormed: bool
  )

  datatype Kind = Control | ResourceFlow | Verifier

  /** Control and verifier edges carry no resource. */
  datatype Edge = Edge(source: Id, target: Id, kind: Kind, resource: Id, family: Id, name: Id)

  datatype Dependency = Dependency(prerequisite: Id, dependent: Id)

  datatype Outcome = Graph(edges: seq<Edge>) | InvalidRequest | UnknownDependency | CausalCycle

  // ----- the specification

  function Ids(nodes: seq<Node>): (ids: seq<Id>)
    ensures |ids| == |nodes|
  {
    seq(|nodes|, i requires 0 <= i < |nodes| => nodes[i].id)
  }

  predicate ValidTrace(nodes: seq<Node>)
  {
    && nodes != []
    && (forall i :: 0 <= i < |nodes| ==> nodes[i].id != EMPTY && nodes[i].position == i)
    && (forall i, j :: 0 <= i < j < |nodes| ==> nodes[i].id != nodes[j].id)
  }

  predicate Writes(n: Node, resource: Id)
  {
    exists r :: r in n.writes && r.id == resource
  }

  /** j is the last event before i that wrote the resource. */
  predicate LatestWriter(nodes: seq<Node>, i: nat, resource: Id, j: int)
  {
    0 <= j < i <= |nodes| && Writes(nodes[j], resource) && forall k :: j < k < i ==> !Writes(nodes[k], resource)
  }

  function FlowEdge(producer: Id, consumer: Id, r: Resource): (e: Edge)
  {
    Edge(producer, consumer, ResourceFlow, r.id, r.family, r.name)
  }

  /** The edge is the flow of something event i read from the event that wrote it last. */
  ghost predicate FlowsInto(nodes: seq<Node>, i: nat, e: Edge)
  {
    i < |nodes| && exists r, j: int :: r in nodes[i].inputs && LatestWriter(nodes, i, r.id, j)
                       && e == FlowEdge(nodes[j].id, nodes[i].id, r)
  }

  ghost predicate IsFlow(nodes: seq<Node>, e: Edge)
  {
    exists i: nat :: FlowsInto(nodes, i, e)
  }

  function DeclaredEdge(d: Dependency, kind: Kind): (e: Edge)
  {
    Edge(d.prerequisite, d.dependent, kind, EMPTY, EMPTY, EMPTY)
  }

  ghost predicate IsEdge(nodes: seq<Node>, control: seq<Dependency>, verifier: seq<Dependency>, e: Edge)
  {
    || IsFlow(nodes, e)
    || (exists d :: d in control && e == DeclaredEdge(d, Control))
    || (exists d :: d in verifier && e == DeclaredEdge(d, Verifier))
  }

  function ArcsOf(edges: seq<Edge>): (arcs: seq<Arc>)
    ensures |arcs| == |edges|
  {
    seq(|edges|, i requires 0 <= i < |edges| => Arc(edges[i].source, edges[i].target))
  }

  /** A dependency that is refused before the graph is looked at. */
  predicate Refused(nodes: seq<Node>, d: Dependency)
  {
    d.prerequisite == d.dependent || d.prerequisite !in Ids(nodes) || d.dependent !in Ids(nodes)
  }

  function Verdict(d: Dependency): (o: Outcome)
  {
    if d.prerequisite == d.dependent then CausalCycle else UnknownDependency
  }

  /** The answer of the first refused dependency. */
  ghost predicate FirstRefused(nodes: seq<Node>, deps: seq<Dependency>, o: Outcome)
  {
    exists k :: 0 <= k < |deps| && Refused(nodes, deps[k]) && o == Verdict(deps[k])
        && forall j :: 0 <= j < k ==> !Refused(nodes, deps[j])
  }

  ghost predicate AllKnown(nodes: seq<Node>, deps: seq<Dependency>)
  {
    forall d :: d in deps ==> d.prerequisite in Ids(nodes) && d.dependent in Ids(nodes)
  }

  // ----- the order of edges

  function KindRank(k: Kind): (n: nat)
  {
    match k
    case Control => 0
    case ResourceFlow => 1
    case Verifier => 2
  }

  function PositionOf(positions: map<Id, nat>, id: Id): (p: nat)
  {
    if id in positions then positions[id] else 0
  }

  /** Lexicographic: by the positions of the ends, then by the rest of the key. */
  predicate EdgeBefore(positions: map<Id, nat>, a: Edge, b: Edge)
  {
    var p, q := PositionOf(positions, a.source), PositionOf(positions, b.source);
    var r, t := PositionOf(positions, a.target), PositionOf(positions, b.target);
    if p != q then p < q
    else if r != t then r < t
    else if a.source != b.source then a.source < b.source
    else if a.target != b.target then a.target < b.target
    else if a.kind != b.kind then KindRank(a.kind) < KindRank(b.kind)
    else if a.resource != b.resource then a.resource < b.resource
    else if a.family != b.family then a.family < b.family
    else a.name < b.name
  }

  function EdgeOrder(positions: map<Id, nat>): (less: (Edge, Edge) -> bool)
    ensures forall a, b :: less(a, b) == EdgeBefore(positions, a, b)
  {
    (a, b) => EdgeBefore(positions, a, b)
  }

  lemma {:induction false} EdgeOrderTotal(positions: map<Id, nat>, edges: set<Edge>)
    ensures Orders(EdgeOrder(positions), edges)
  {
  }

  // ----- Build

  ghost predicate TracksWriters(nodes: seq<Node>, i: nat, lastWriter: map<Id, Id>)
  {
    && i <= |nodes|
    && (forall r :: r in lastWriter ==> exists j :: LatestWriter(nodes, i, r, j) && lastWriter[r] == nodes[j].id)
    && (forall r, j :: 0 <= j < i && Writes(nodes[j], r) ==> r in lastWriter)
  }

  ghost predicate FlowsUpTo(nodes: seq<Node>, i: nat, edges: set<Edge>)
  {
    forall e :: e in edges <==> exists k: nat :: k < i && FlowsInto(nodes, k, e)
  }

  ghost predicate ListsEdges(nodes: seq<Node>, control: seq<Dependency>, verifier: seq<Dependency>, edges: seq<Edge>)
  {
    forall e :: e in edges <==> IsEdge(nodes, control, verifier, e)
  }

  /** What Build answers: the first refused dependency decides, then cycles do. */
  ghost predicate Builds(nodes: seq<Node>, control: seq<Dependency>, verifier: seq<Dependency>, o: Outcome)
  {
    if !ValidTrace(nodes) then o == InvalidRequest
    else if exists d :: d in control + verifier && Refused(nodes, d) then FirstRefused(nodes, control + verifier, o)
    else if o.Graph? then
      ListsEdges(nodes, control, verifier, o.edges) && NoDuplicates(o.edges)
        && !Cyclic(Elements(Ids(nodes)), ArcsOf(o.edges))
    else
      o == CausalCycle && exists edges :: ListsEdges(nodes, control, verifier, edges)
                              && Cyclic(Elements(Ids(nodes)), ArcsOf(edges))
  }

  method Build(nodes: seq<Node>, control: seq<Dependency>, verifier: seq<Dependency>) returns (o: Outcome)
    ensures Builds(nodes, control, verifier, o)
    ensures o.Graph? ==> forall e :: e in o.edges <==> Records(nodes, control, verifier, e)
    ensures o.Graph? ==> forall x, y :: 0 <= x < y < |o.edges| ==> InTraceOrder(nodes, o.edges[x], o.edges[y])
  {
    if nodes == [] {
      return InvalidRequest;
    }
    var valid, positions, edges := Flows(nodes);
    if !valid {
      return InvalidRequest;
    }
    hide FlowsUpTo, ValidTrace, IsFlow, FirstRefused, Refused;
    ghost var flows := edges;
    FlowsAll(nodes, flows);
    assert forall id :: id in Ids(nodes) <==> id in positions;
    var refusal: Outcome;
    refusal, edges := AddDeclared(nodes, edges, positions, control, Control);
    if !refusal.Graph? {
      RefusedFirst(nodes, control, verifier, refusal);
      return refusal;
    }
    refusal, edges := AddDeclared(nodes, edges, positions, verifier, Verifier);
    if !refusal.Graph? {
      RefusedSecond(nodes, control, verifier, refusal);
      return refusal;
    }
    EdgeOrderTotal(positions, edges);
    var list := SortSetBy(EdgeOrder(positions), edges);
    SortedNoDuplicates(positions, list);
    assert forall e :: e in list <==> e in Elements(list);
    assert ListsEdges(nodes, control, verifier, list);
    EdgesWithin(nodes, control, verifier, list);
    IdsDistinct(nodes);
    var cyclic := HasCycle(Ids(nodes), ArcsOf(list));
    if cyclic {
      return CausalCycle;
    }
    RecordsMeans(nodes, control, verifier, list);
    ListInOrder(nodes, positions, list);
    return Graph(list);
  }

  // ----- what the edges record, field by field

  /** Event i read a resource that event j was the last to write before, and the edge says so. */
  ghost predicate Carries(nodes: seq<Node>, e: Edge, i: int, j: int, r: Resource)
  {
    && 0 <= j < i < |nodes|
    && r in nodes[i].inputs
    && (exists w :: w in nodes[j].writes && w.id == r.id)
    && (forall k, w :: j < k < i && w in nodes[k].writes ==> w.id != r.id)
    && e.source == nodes[j].id && e.target == nodes[i].id && e.kind.ResourceFlow?
    && e.resource == r.id && e.family == r.family && e.name == r.name
  }

  /** The edge runs from the prerequisite to the dependent of the declaration. */
  predicate Declares(e: Edge, d: Dependency)
  {
    e.source == d.prerequisite && e.target == d.dependent && e.resource == EMPTY && e.family == EMPTY && e.name == EMPTY
  }

  ghost predicate Records(nodes: seq<Node>, control: seq<Dependency>, verifier: seq<Dependency>, e: Edge)
  {
    || (exists i, j, r :: Carries(nodes, e, i, j, r))
    || (e.kind.Control? && exists d :: d in control && Declares(e, d))
    || (e.kind.Verifier? && exists d :: d in verifier && Declares(e, d))
  }

  lemma {:induction false} RecordsMeans(nodes: seq<Node>, control: seq<Dependency>, verifier: seq<Dependency>,
                                        edges: seq<Edge>)
    requires ListsEdges(nodes, control, verifier, edges)
    ensures forall e :: e in edges <==> Records(nodes, control, verifier, e)
  {
    forall e
      ensures IsEdge(nodes, control, verifier, e) <==> Records(nodes, control, verifier, e)
    {
      FlowCarries(nodes, e);
      DeclaredMeans(control, Control, e);
      DeclaredMeans(verifier, Verifier, e);
      hide IsFlow, Carries, Declares;
    }
    hide IsEdge, Records;
  }

  lemma {:induction false} FlowCarries(nodes: seq<Node>, e: Edge)
    ensures IsFlow(nodes, e) <==> exists i, j, r :: Carries(nodes, e, i, j, r)
  {
    if IsFlow(nodes, e) {
      var i: nat :| FlowsInto(nodes, i, e);
      var r, j: int :| r in nodes[i].inputs && LatestWriter(nodes, i, r.id, j)
          && e == FlowEdge(nodes[j].id, nodes[i].id, r);
      LatestMeans(nodes, i, r.id, j);
      assert Carries(nodes, e, i, j, r);
    }
    if i, j, r :| Carries(nodes, e, i, j, r) {
      LatestMeans(nodes, i, r.id, j);
      assert e == FlowEdge(nodes[j].id, nodes[i].id, r);
      assert FlowsInto(nodes, i, e);
    }
  }

  lemma {:induction false} LatestMeans(nodes: seq<Node>, i: nat, resource: Id, j: int)
    requires 0 <= j < i < |nodes|
    ensures LatestWriter(nodes, i, resource, j) <==>
            (exists w :: w in nodes[j].writes && w.id == resource)
            && forall k, w :: j < k < i && w in nodes[k].writes ==> w.id != resource
  {
  }

  lemma {:induction false} DeclaredMeans(deps: seq<Dependency>, kind: Kind, e: Edge)
    ensures (exists d :: d in deps && e == DeclaredEdge(d, kind)) <==>
            e.kind == kind && exists d :: d in deps && Declares(e, d)
  {
    if e.kind == kind {
      assert forall d :: Declares(e, d) ==> e == DeclaredEdge(d, kind);
    }
  }

  /** The ends decide by their places in the trace; between the same ends control comes before flow and flow before
      verifier, and edges of one kind are in order of resource, then family, then name. */
  ghost predicate InTraceOrder(nodes: seq<Node>, a: Edge, b: Edge)
  {
    forall i, j, k, l ::
      0 <= i < |nodes| && 0 <= j < |nodes| && 0 <= k < |nodes| && 0 <= l < |nodes|
      && nodes[i].id == a.source && nodes[j].id == a.target && nodes[k].id == b.source && nodes[l].id == b.target ==>
        i < k || (i == k && (j < l || (j == l && InKindOrder(a, b))))
  }

  predicate InKindOrder(a: Edge, b: Edge)
  {
    || (a.kind.Control? && !b.kind.Control?)
    || (b.kind.Verifier? && !a.kind.Verifier?)
    || (a.kind == b.kind
        && (a.resource < b.resource
            || (a.resource == b.resource && (a.family < b.family || (a.family == b.family && a.name < b.name)))))
  }

  lemma {:induction false} ListInOrder(nodes: seq<Node>, positions: map<Id, nat>, list: seq<Edge>)
    requires SortedBy(EdgeOrder(positions), list)
    requires forall i :: 0 <= i < |nodes| ==> nodes[i].id in positions && positions[nodes[i].id] == i
    ensures forall x, y :: 0 <= x < y < |list| ==> InTraceOrder(nodes, list[x], list[y])
  {
    forall x, y | 0 <= x < y < |list|
      ensures InTraceOrder(nodes, list[x], list[y])
    {
      assert EdgeOrder(positions)(list[x], list[y]);
      BeforeInTrace(nodes, positions, list[x], list[y]);
    }
  }

  lemma {:induction false} BeforeInTrace(nodes: seq<Node>, positions: map<Id, nat>, a: Edge, b: Edge)
    requires EdgeBefore(positions, a, b)
    requires forall i :: 0 <= i < |nodes| ==> nodes[i].id in positions && positions[nodes[i].id] == i
    ensures InTraceOrder(nodes, a, b)
  {
  }

  /** Dependency n names an event the trace does not have; those before it name two different events of the trace. */
  ghost predicate Unknown(nodes: seq<Node>, deps: seq<Dependency>, n: nat)
    requires n < |deps|
  {
    && deps[n].prerequisite != deps[n].dependent
    && (Absent(nodes, deps[n].prerequisite) || Absent(nodes, deps[n].dependent))
    && forall m :: 0 <= m < n ==>
           deps[m].prerequisite != deps[m].dependent
           && !Absent(nodes, deps[m].prerequisite) && !Absent(nodes, deps[m].dependent)
  }

  predicate Absent(nodes: seq<Node>, id: Id)
  {
    forall i :: 0 <= i < |nodes| ==> nodes[i].id != id
  }

  /** With a valid trace, the unknown event is reported exactly when the first dependency to be refused names one. */
  lemma {:induction false} UnknownExactly(nodes: seq<Node>, control: seq<Dependency>, verifier: seq<Dependency>,
                                          o: Outcome)
    requires Builds(nodes, control, verifier, o)
    ensures o == UnknownDependency <==>
            ValidTrace(nodes) && exists n: nat :: n < |control + verifier| && Unknown(nodes, control + verifier, n)
  {
    hide ValidTrace, ListsEdges, NoDuplicates, Cyclic;
    var deps := control + verifier;
    forall d
      ensures Refused(nodes, d) <==>
              d.prerequisite == d.dependent || Absent(nodes, d.prerequisite) || Absent(nodes, d.dependent)
    {
      RefusedMeans(nodes, d);
    }
    hide Refused, Absent;
    if ValidTrace(nodes) {
      if d :| d in deps && Refused(nodes, d) {
        var k :| 0 <= k < |deps| && Refused(nodes, deps[k]) && o == Verdict(deps[k])
            && forall j :: 0 <= j < k ==> !Refused(nodes, deps[j]);
        assert o == UnknownDependency ==> Unknown(nodes, deps, k);
        forall n: nat | n < |deps| && Unknown(nodes, deps, n)
          ensures n == k
        {
          assert Refused(nodes, deps[n]);
        }
      } else {
        assert forall n :: 0 <= n < |deps| ==> deps[n] in deps;
      }
    }
  }

  lemma {:induction false} RefusedMeans(nodes: seq<Node>, d: Dependency)
    ensures Refused(nodes, d) <==>
            d.prerequisite == d.dependent || Absent(nodes, d.prerequisite) || Absent(nodes, d.dependent)
  {
    AbsentMeans(nodes, d.prerequisite);
    AbsentMeans(nodes, d.dependent);
  }

  lemma {:induction false} AbsentMeans(nodes: seq<Node>, id: Id)
    ensures id in Ids(nodes) <==> !Absent(nodes, id)
  {
    if i :| 0 <= i < |nodes| && nodes[i].id == id {
      assert Ids(nodes)[i] == id;
    }
  }

  lemma {:induction false} IdsDistinct(nodes: seq<Node>)
    requires ValidTrace(nodes)
    ensures NoDuplicates(Ids(nodes))
  {
  }

  lemma {:induction false} SortedNoDuplicates(positions: map<Id, nat>, list: seq<Edge>)
    requires SortedBy(EdgeOrder(positions), list)
    ensures NoDuplicates(list)
  {
    forall i, j | 0 <= i < j < |list|
      ensures list[i] != list[j]
    {
      assert EdgeOrder(positions)(list[i], list[j]);
      assert EdgeBefore(positions, list[i], list[j]);
    }
  }

  lemma {:induction false} RefusedFirst(nodes: seq<Node>, control: seq<Dependency>, verifier: seq<Dependency>,
                                        o: Outcome)
    requires FirstRefused(nodes, control, o)
    ensures FirstRefused(nodes, control + verifier, o) && exists d :: d in control + verifier && Refused(nodes, d)
  {
    var deps := control + verifier;
    var k :| 0 <= k < |control| && Refused(nodes, control[k]) && o == Verdict(control[k])
        && forall j :: 0 <= j < k ==> !Refused(nodes, control[j]);
    assert deps[k] == control[k] && deps[k] in deps && forall j :: 0 <= j < k ==> deps[j] == control[j];
  }

  lemma {:induction false} RefusedSecond(nodes: seq<Node>, control: seq<Dependency>, verifier: seq<Dependency>,
                                         o: Outcome)
    requires FirstRefused(nodes, verifier, o) && forall d :: d in control ==> !Refused(nodes, d)
    ensures FirstRefused(nodes, control + verifier, o) && exists d :: d in control + verifier && Refused(nodes, d)
  {
    var deps := control + verifier;
    var k :| 0 <= k < |verifier| && Refused(nodes, verifier[k]) && o == Verdict(verifier[k])
        && forall j :: 0 <= j < k ==> !Refused(nodes, verifier[j]);
    var m := |control| + k;
    assert deps[m] == verifier[k] && deps[m] in deps;
    forall j | 0 <= j < m ensures !Refused(nodes, deps[j]) {
      if j < |control| {
        assert deps[j] == control[j] && control[j] in control;
      } else {
        assert deps[j] == verifier[j - |control|];
      }
    }
  }

  lemma {:induction false} EdgesWithin(nodes: seq<Node>, control: seq<Dependency>, verifier: seq<Dependency>,
                                       edges: seq<Edge>)
    requires forall e :: e in edges ==> IsEdge(nodes, control, verifier, e)
    requires (forall d :: d in control ==> !Refused(nodes, d)) && (forall d :: d in verifier ==> !Refused(nodes, d))
    ensures Within(ArcsOf(edges), Elements(Ids(nodes)))
  {
    forall a | a in ArcsOf(edges)
      ensures a.source in Ids(nodes) && a.target in Ids(nodes)
    {
      var k :| 0 <= k < |edges| && ArcsOf(edges)[k] == a;
      assert edges[k] in edges;
      if IsFlow(nodes, edges[k]) {
        FlowEnds(nodes, edges[k]);
      }
    }
  }

  lemma {:induction false} FlowEnds(nodes: seq<Node>, e: Edge)
    requires IsFlow(nodes, e)
    ensures e.source in Ids(nodes) && e.target in Ids(nodes)
  {
    var i: nat :| FlowsInto(nodes, i, e);
    var r, j: int :| r in nodes[i].inputs && LatestWriter(nodes, i, r.id, j)
        && e == FlowEdge(nodes[j].id, nodes[i].id, r);
    assert Ids(nodes)[i] == e.target && Ids(nodes)[j] == e.source;
  }

  lemma {:induction false} FlowsAll(nodes: seq<Node>, edges: set<Edge>)
    requires FlowsUpTo(nodes, |nodes|, edges)
    ensures forall e :: e in edges <==> IsFlow(nodes, e)
  {
    forall e | IsFlow(nodes, e) ensures e in edges {
      var i: nat :| FlowsInto(nodes, i, e);
      assert i < |nodes|;
    }
  }

  /** The loop over the events. */
  method Flows(nodes: seq<Node>) returns (valid: bool, positions: map<Id, nat>, edges: set<Edge>)
    requires nodes != []
    ensures valid <==> ValidTrace(nodes)
    ensures valid ==> FlowsUpTo(nodes, |nodes|, edges)
    ensures valid ==> (forall i :: 0 <= i < |nodes| ==> nodes[i].id in positions && positions[nodes[i].id] == i)
                      && (forall id :: id in positions <==> id in Ids(nodes))
  {
    positions, edges := map[], {};
    var lastWriter: map<Id, Id> := map[];
    for i := 0 to |nodes|
      invariant forall k :: 0 <= k < i ==>
                    nodes[k].id != EMPTY && nodes[k].position == k && nodes[k].id in positions
                    && positions[nodes[k].id] == k
      invariant forall id :: id in positions ==> positions[id] < i && nodes[positions[id]].id == id
      invariant FlowsUpTo(nodes, i, edges)
      invariant TracksWriters(nodes, i, lastWriter)
    {
      hide FlowsUpTo, TracksWriters;
      var node := nodes[i];
      if node.id == EMPTY || node.position != i || node.id in positions {
        return false, map[], {};
      }
      positions := positions[node.id := i];
      FlowsNext(nodes, i, edges, lastWriter);
      edges := AddReads(edges, lastWriter, node);
      ghost var before := lastWriter;
      lastWriter := AddWrites(lastWriter, node);
      WritersNext(nodes, i, before, lastWriter);
    }
    forall id | id in positions ensures id in Ids(nodes) {
      assert Ids(nodes)[positions[id]] == id;
    }
    return true, positions, edges;
  }

  function NewFlows(lastWriter: map<Id, Id>, node: Node): (edges: set<Edge>)
  {
    set r | r in node.inputs && r.id in lastWriter :: FlowEdge(lastWriter[r.id], node.id, r)
  }

  method AddReads(before: set<Edge>, lastWriter: map<Id, Id>, node: Node) returns (edges: set<Edge>)
    ensures edges == before + NewFlows(lastWriter, node)
  {
    edges := before;
    for k := 0 to |node.inputs|
      invariant edges == before + set r | r in node.inputs[..k]
                                      && r.id in lastWriter :: FlowEdge(lastWriter[r.id], node.id, r)
    {
      var r := node.inputs[k];
      assert node.inputs[..k + 1] == node.inputs[..k] + [r];
      if r.id in lastWriter {
        edges := edges + {FlowEdge(lastWriter[r.id], node.id, r)};
      }
    }
    assert node.inputs[..|node.inputs|] == node.inputs;
  }

  method AddWrites(before: map<Id, Id>, node: Node) returns (lastWriter: map<Id, Id>)
    ensures forall r :: r in lastWriter <==> r in before || Writes(node, r)
    ensures forall r :: r in lastWriter ==> lastWriter[r] == if Writes(node, r) then node.id else before[r]
  {
    lastWriter := before;
    for k := 0 to |node.writes|
      invariant forall r :: r in lastWriter <==> r in before || exists w :: w in node.writes[..k] && w.id == r
      invariant forall r :: r in lastWriter ==>
                    lastWriter[r] == if exists w :: w in node.writes[..k] && w.id == r then node.id else before[r]
    {
      assert node.writes[..k + 1] == node.writes[..k] + [node.writes[k]];
      lastWriter := lastWriter[node.writes[k].id := node.id];
    }
    assert node.writes[..|node.writes|] == node.writes;
  }

  lemma {:induction false} FlowsNext(nodes: seq<Node>, i: nat, edges: set<Edge>, lastWriter: map<Id, Id>)
    requires i < |nodes| && FlowsUpTo(nodes, i, edges) && TracksWriters(nodes, i, lastWriter)
    ensures FlowsUpTo(nodes, i + 1, edges + NewFlows(lastWriter, nodes[i]))
  {
    var added := NewFlows(lastWriter, nodes[i]);
    forall e
      ensures e in added <==> FlowsInto(nodes, i, e)
    {
      if e in added {
        var r :| r in nodes[i].inputs && r.id in lastWriter && e == FlowEdge(lastWriter[r.id], nodes[i].id, r);
        var j :| LatestWriter(nodes, i, r.id, j) && lastWriter[r.id] == nodes[j].id;
      }
      if FlowsInto(nodes, i, e) {
        var r, j: int :| r in nodes[i].inputs && LatestWriter(nodes, i, r.id, j)
            && e == FlowEdge(nodes[j].id, nodes[i].id, r);
        assert Writes(nodes[j], r.id);
        var k :| LatestWriter(nodes, i, r.id, k) && lastWriter[r.id] == nodes[k].id;
        LatestUnique(nodes, i, r.id, j, k);
      }
    }
    hide FlowsInto, TracksWriters;
    forall e
      ensures (e in edges || e in added) <==> exists k: nat :: k < i + 1 && FlowsInto(nodes, k, e)
    {
      assert e in edges <==> exists k: nat :: k < i && FlowsInto(nodes, k, e);
    }
  }

  lemma {:induction false} LatestUnique(nodes: seq<Node>, i: nat, resource: Id, j: int, k: int)
    requires LatestWriter(nodes, i, resource, j) && LatestWriter(nodes, i, resource, k)
    ensures j == k
  {
  }

  lemma {:induction false} WritersNext(nodes: seq<Node>, i: nat, before: map<Id, Id>, after: map<Id, Id>)
    requires i < |nodes| && TracksWriters(nodes, i, before)
    requires forall r :: r in after <==> r in before || Writes(nodes[i], r)
    requires forall r :: r in after ==> after[r] == if Writes(nodes[i], r) then nodes[i].id else before[r]
    ensures TracksWriters(nodes, i + 1, after)
  {
    hide Writes;
    forall r | r in after
      ensures exists j :: LatestWriter(nodes, i + 1, r, j) && after[r] == nodes[j].id
    {
      if Writes(nodes[i], r) {
        assert LatestWriter(nodes, i + 1, r, i);
      } else {
        var j :| LatestWriter(nodes, i, r, j) && before[r] == nodes[j].id;
        assert LatestWriter(nodes, i + 1, r, j);
      }
    }
  }

  /** addDeclaredEdges; a graph outcome means nothing was refused. */
  method AddDeclared(ghost nodes: seq<Node>, before: set<Edge>, positions: map<Id, nat>, deps: seq<Dependency>,
                     kind: Kind)
    returns (o: Outcome, edges: set<Edge>)
    requires forall id :: id in Ids(nodes) <==> id in positions
    ensures !o.Graph? ==> FirstRefused(nodes, deps, o)
    ensures o.Graph? ==>
            (forall d :: d in deps ==> !Refused(nodes, d))
            && edges == before + set d | d in deps :: DeclaredEdge(d, kind)
  {
    edges := before;
    for i := 0 to |deps|
      invariant forall k :: 0 <= k < i ==> !Refused(nodes, deps[k])
      invariant edges == before + set d | d in deps[..i] :: DeclaredEdge(d, kind)
    {
      var d := deps[i];
      assert deps[..i + 1] == deps[..i] + [d];
      if d.prerequisite == d.dependent {
        return CausalCycle, {};
      }
      if d.prerequisite !in positions || d.dependent !in positions {
        return UnknownDependency, {};
      }
      edges := edges + {DeclaredEdge(d, kind)};
    }
    assert deps[..|deps|] == deps;
    return Graph([]), edges;
  }

  // ----- cycles

  lemma {:induction false} SameArcs(a: seq<Edge>, b: seq<Edge>)
    requires forall e :: e in a ==> e in b
    ensures forall x :: x in ArcsOf(a) ==> x in ArcsOf(b)
  {
    forall x | x in ArcsOf(a) ensures x in ArcsOf(b) {
      var i :| 0 <= i < |a| && ArcsOf(a)[i] == x;
      assert a[i] in b;
      var j :| 0 <= j < |b| && b[j] == a[i];
      assert ArcsOf(b)[j] == x;
    }
  }

  /** With every endpoint known, the build fails for a cycle exactly when the combined edges have one. */
  lemma {:induction false} CycleExactly(nodes: seq<Node>, control: seq<Dependency>, verifier: seq<Dependency>,
                                        o: Outcome, edges: seq<Edge>)
    requires Builds(nodes, control, verifier, o) && ValidTrace(nodes) && AllKnown(nodes, control + verifier)
    requires ListsEdges(nodes, control, verifier, edges)
    ensures o == CausalCycle <==> Cyclic(Elements(Ids(nodes)), ArcsOf(edges))
  {
    hide ValidTrace, IsFlow;
    if d :| d in control + verifier && Refused(nodes, d) {
      var kind := if d in control then Control else Verifier;
      var e := DeclaredEdge(d, kind);
      assert IsEdge(nodes, control, verifier, e);
      SelfDependencyCycles(nodes, edges, e);
      var k :| 0 <= k < |control + verifier| && Refused(nodes, (control + verifier)[k])
          && o == Verdict((control + verifier)[k]);
      assert (control + verifier)[k] in control + verifier;
    } else if o.Graph? {
      SameArcs(edges, o.edges);
      SameArcs(o.edges, edges);
      SameCycles(nodes, edges, o.edges);
    } else {
      var listed :| ListsEdges(nodes, control, verifier, listed) && Cyclic(Elements(Ids(nodes)), ArcsOf(listed));
      SameCycles(nodes, edges, listed);
    }
  }

  lemma {:induction false} SameCycles(nodes: seq<Node>, a: seq<Edge>, b: seq<Edge>)
    requires forall e :: e in a <==> e in b
    ensures Cyclic(Elements(Ids(nodes)), ArcsOf(a)) <==> Cyclic(Elements(Ids(nodes)), ArcsOf(b))
  {
    SameArcs(a, b);
    SameArcs(b, a);
    if Cyclic(Elements(Ids(nodes)), ArcsOf(a)) {
      CyclicMonotone(Elements(Ids(nodes)), Elements(Ids(nodes)), ArcsOf(a), ArcsOf(b));
    }
    if Cyclic(Elements(Ids(nodes)), ArcsOf(b)) {
      CyclicMonotone(Elements(Ids(nodes)), Elements(Ids(nodes)), ArcsOf(b), ArcsOf(a));
    }
  }

  lemma {:induction false} SelfDependencyCycles(nodes: seq<Node>, edges: seq<Edge>, e: Edge)
    requires e in edges && e.source == e.target && e.source in Ids(nodes)
    ensures Cyclic(Elements(Ids(nodes)), ArcsOf(edges))
  {
    var k :| 0 <= k < |edges| && edges[k] == e;
    assert ArcsOf(edges)[k] == Arc(e.source, e.source);
    assert IsCycle([e.source, e.source], Elements(Ids(nodes)), ArcsOf(edges));
  }

  /** Flow edges point forward in the trace, so a cycle needs a declared dependency. */
  lemma {:induction false} FlowsForward(nodes: seq<Node>, e: Edge, i: nat, j: nat)
    requires ValidTrace(nodes) && IsFlow(nodes, e) && i < |nodes| && j < |nodes| && e.source == nodes[i].id
             && e.target == nodes[j].id
    ensures i < j
  {
    var k: nat :| FlowsInto(nodes, k, e);
    var r, l: int :| r in nodes[k].inputs && LatestWriter(nodes, k, r.id, l)
        && e == FlowEdge(nodes[l].id, nodes[k].id, r);
    assert k == j && l == i;
  }
}
