/** From matches to graph edges, and what a complete plan over such a graph means
for each requirement of each of its procedures. */
module CompatibilityGraph {
  import opened Identifiers
  import opened Sorting
  import opened Digraph
  import opened Compatibility
  import opened Planning
  import opened SearchStates
  import opened Reachability

  datatype EdgeContent = EdgeContent(source: Id, target: Id, provisions: seq<Id>, requirements: seq<Id>)

  function ContentOf(e: Edge): (c: EdgeContent)
  {
    EdgeContent(e.source, e.target, e.provisions, e.requirements)
  }

  predicate EdgeBefore(a: Edge, b: Edge)
  {
    a.id < b.id
  }

  /** One edge per matched pair, listing the match's ids in order. */
  predicate EdgeOf(e: Edge, matches: map<VersionPair, Match>)
  {
    && VersionPair(e.source, e.target) in matches
    && StrictlySorted(e.provisions) && Elements(e.provisions) == matches[VersionPair(e.source, e.target)].provisionIds
    && StrictlySorted(e.requirements)
    && Elements(e.requirements) == matches[VersionPair(e.source, e.target)].requirementIds
  }

  ghost predicate GraphOf(edges: seq<Edge>, matches: map<VersionPair, Match>)
  {
    && (forall e :: e in edges ==> EdgeOf(e, matches))
    && (forall pair :: pair in matches ==> exists e :: e in edges && e.source == pair.source && e.target == pair.target)
  }

  ghost predicate InjectiveEdges(hash: EdgeContent -> Id)
  {
    forall a, b :: hash(a) == hash(b) ==> a == b
  }

  /** The edge list of BuildCompatibilityGraphContext: a content-addressed edge for
      each pair, sorted by id. */
  method BuildEdges(matches: map<VersionPair, Match>, hash: EdgeContent -> Id) returns (edges: seq<Edge>)
    requires InjectiveEdges(hash)
    requires forall pair :: pair in matches ==> pair.source != pair.target
    ensures GraphOf(edges, matches) && ValidEdges(edges)
    ensures forall e :: e in edges ==> e.id == hash(ContentOf(e))
  {
    var list: seq<Edge> := [];
    var rest := matches.Keys;
    while rest != {}
      invariant rest <= matches.Keys
      invariant forall e :: e in list ==>
                    EdgeOf(e, matches) && e.id == hash(ContentOf(e)) && VersionPair(e.source, e.target) !in rest
      invariant forall pair :: pair in matches && pair !in rest ==>
                    exists e :: e in list && e.source == pair.source && e.target == pair.target
      invariant forall i, j :: 0 <= i < j < |list| ==>
                    VersionPair(list[i].source, list[i].target) != VersionPair(list[j].source, list[j].target)
      decreases |rest|
    {
      var pair :| pair in rest;
      var provisions := SortedSet(matches[pair].provisionIds);
      var requirements := SortedSet(matches[pair].requirementIds);
      var id := hash(EdgeContent(pair.source, pair.target, provisions, requirements));
      var edge := Edge(id, pair.source, pair.target, provisions, requirements);
      assert forall e :: e in list ==> e in list + [edge];
      assert edge in list + [edge];
      list := list + [edge];
      rest := rest - {pair};
    }
    EdgesDistinct(list, hash);
    edges := SortBy(EdgeBefore, list);
    assert forall e :: e in edges <==> e in Elements(edges);
    assert forall e :: e in list <==> e in Elements(list);
    SortedEdgesValid(edges, matches, hash);
  }

  lemma {:induction false} EdgesDistinct(list: seq<Edge>, hash: EdgeContent -> Id)
    requires InjectiveEdges(hash) && forall e :: e in list ==> e.id == hash(ContentOf(e))
    requires forall i, j :: 0 <= i < j < |list| ==>
                 VersionPair(list[i].source, list[i].target) != VersionPair(list[j].source, list[j].target)
    ensures NoDuplicates(list) && Orders(EdgeBefore, Elements(list))
  {
    forall a, b | a in list && b in list && a != b
      ensures a.id != b.id
    {
      assert hash(ContentOf(a)) == hash(ContentOf(b)) ==> ContentOf(a) == ContentOf(b);
    }
  }

  lemma {:induction false} SortedEdgesValid(edges: seq<Edge>, matches: map<VersionPair, Match>, hash: EdgeContent -> Id)
    requires SortedBy(EdgeBefore, edges)
             && (forall e :: e in edges ==> EdgeOf(e, matches) && e.id == hash(ContentOf(e)))
    requires forall pair :: pair in matches ==> pair.source != pair.target
    ensures ValidEdges(edges)
  {
    forall e | e in edges
      ensures e.source != e.target
    {
      assert VersionPair(e.source, e.target) in matches;
    }
    forall i, j | 0 <= i < j < |edges|
      ensures edges[i].source != edges[j].source || edges[i].target != edges[j].target
    {
      assert edges[i] in edges && edges[j] in edges && EdgeBefore(edges[i], edges[j]);
      if edges[i].source == edges[j].source && edges[i].target == edges[j].target {
        SortedUnique(edges[i].provisions, edges[j].provisions);
        SortedUnique(edges[i].requirements, edges[j].requirements);
      }
    }
  }

  // ----- requirements of a complete plan

  /** The graph of the request was built from the request's own candidates. */
  ghost predicate BuiltFrom(p: Problem, rules: seq<Rule>)
  {
    GraphOf(p.edges, Collect(AllQuads(Contracts(p)), rules))
  }

  function Contracts(p: Problem): (candidates: set<Candidate>)
  {
    set v | v in p.byVersion :: p.byVersion[v].contract
  }

  /** An edge lists, each once and in order, exactly the provisions of its source that suit a
      requirement of its target, and the requirements they suit; there is one for every pair of versions with any. */
  lemma {:induction false} EdgesMean(p: Problem, rules: seq<Rule>)
    requires BuiltFrom(p, rules)
    ensures forall e, x :: e in p.edges ==>
              (x in e.provisions <==>
                 exists q :: Supplies(Contracts(p), rules, VersionPair(e.source, e.target), q) && q.provision.id == x)
    ensures forall e, x :: e in p.edges ==>
              (x in e.requirements <==>
                 exists q :: Supplies(Contracts(p), rules, VersionPair(e.source, e.target), q) && q.requirement.id == x)
    ensures forall e :: e in p.edges ==> StrictlySorted(e.provisions) && StrictlySorted(e.requirements)
    ensures forall pair, q :: Supplies(Contracts(p), rules, pair, q) ==>
              exists e :: e in p.edges && e.source == pair.source && e.target == pair.target
  {
    var matches := Collect(AllQuads(Contracts(p)), rules);
    CollectMeans(Contracts(p), rules);
    hide Supplies, Collect, Contracts, AllQuads;
    forall e, x | e in p.edges
      ensures x in e.provisions <==> x in matches[VersionPair(e.source, e.target)].provisionIds
      ensures x in e.requirements <==> x in matches[VersionPair(e.source, e.target)].requirementIds
    {
      assert EdgeOf(e, matches);
      assert x in e.provisions <==> x in Elements(e.provisions);
      assert x in e.requirements <==> x in Elements(e.requirements);
    }
    assert forall e :: e in p.edges ==> EdgeOf(e, matches);
    forall pair, q | Supplies(Contracts(p), rules, pair, q)
      ensures exists e :: e in p.edges && e.source == pair.source && e.target == pair.target
    {
      assert pair in matches;
    }
  }

  /** Requirement ids are content hashes: one id, one requirement. */
  predicate IdsAuthentic(p: Problem)
  {
    forall v, w, r, s :: v in p.byVersion && w in p.byVersion
                         && r in p.byVersion[v].contract.requirements && s in p.byVersion[w].contract.requirements
                         && r.id == s.id
                         ==> r == s
  }

  predicate Provides(p: Problem, rules: seq<Rule>, v: Id, r: Requirement)
  {
    v in p.byVersion && exists x :: x in p.byVersion[v].contract.provisions && Satisfies(x, r, rules)
  }

  predicate Carries(p: Problem, v: Id, r: Requirement)
  {
    v in p.byVersion && r in p.byVersion[v].contract.requirements
  }

  /** A provider and another carrier of a requirement are joined by an edge that names it. */
  lemma {:induction false} ProviderHasEdge(p: Problem, rules: seq<Rule>, s: Id, v: Id, r: Requirement) returns (e: Edge)
    requires ValidProblem(p) && BuiltFrom(p, rules)
    requires s != v && Provides(p, rules, s, r) && Carries(p, v, r)
    ensures e in p.edges && e.source == s && e.target == v && r.id in e.requirements
  {
    var quads := AllQuads(Contracts(p));
    var x :| x in p.byVersion[s].contract.provisions && Satisfies(x, r, rules);
    var q := Quad(p.byVersion[s].contract, x, p.byVersion[v].contract, r);
    assert q in quads && Hit(q, rules);
    var pair := VersionPair(s, v);
    assert PairOf(q) == pair && pair in HitPairs(quads, rules);
    assert q.requirement.id in RequirementIds(quads, rules, pair);
    e :| e in p.edges && e.source == pair.source && e.target == pair.target;
    assert EdgeOf(e, Collect(quads, rules));
    assert r.id in Elements(e.requirements);
  }

  /** Conversely, an edge that names a requirement comes from a provider and goes to a carrier. */
  lemma {:induction false} EdgeHasProvider(p: Problem, rules: seq<Rule>, e: Edge, id: Id) returns (r: Requirement)
    requires ValidProblem(p) && BuiltFrom(p, rules) && e in p.edges && id in e.requirements
    ensures r.id == id && Provides(p, rules, e.source, r) && Carries(p, e.target, r)
  {
    var quads := AllQuads(Contracts(p));
    var pair := VersionPair(e.source, e.target);
    assert EdgeOf(e, Collect(quads, rules));
    assert id in Elements(e.requirements);
    assert id in RequirementIds(quads, rules, pair);
    var q :| q in quads && Hit(q, rules) && PairOf(q) == pair && q.requirement.id == id;
    assert q.source in Contracts(p) && q.target in Contracts(p);
    r := q.requirement;
    assert q.source == p.byVersion[e.source].contract && q.target == p.byVersion[e.target].contract;
  }

  lemma {:induction false} SelectedAt(edges: seq<Edge>, chosen: set<Id>, e: Edge) returns (i: nat)
    requires e in edges && e.source in chosen && e.target in chosen
    ensures i < |Selected(edges, chosen)| && Selected(edges, chosen)[i] == e
  {
    SelectedHolds(edges, chosen);
    i :| 0 <= i < |Selected(edges, chosen)| && Selected(edges, chosen)[i] == e;
  }

  /** v comes strictly after s in the plan order. */
  ghost predicate Earlier(p: Problem, chosen: set<Id>, s: Id, v: Id)
  {
    exists i, j :: 0 <= i < j < |OrderOf(p, chosen)| && OrderOf(p, chosen)[i] == s && OrderOf(p, chosen)[j] == v
  }

  lemma {:induction false} EdgeOrders(p: Problem, chosen: set<Id>, e: Edge)
    requires ValidProblem(p) && Feasible(p, chosen) && e in p.edges && e.source in chosen && e.target in chosen
    ensures Earlier(p, chosen, e.source, e.target)
  {
    OrderHolds(p, chosen);
    var order := OrderOf(p, chosen);
    var k := SelectedAt(p.edges, chosen, e);
    assert ChosenArcs(p, chosen)[k] == ArcOf(e);
    assert e.source in Elements(order) && e.target in Elements(order);
    var i :| 0 <= i < |order| && order[i] == e.source;
    var j :| 0 <= j < |order| && order[j] == e.target;
    assert Arc(order[i], order[j]) in ChosenArcs(p, chosen);
  }

  /** In any feasible set, another version that provides a requirement runs before the one that carries it. */
  lemma {:induction false} ProviderRunsEarlier(p: Problem, rules: seq<Rule>, chosen: set<Id>, s: Id, v: Id,
                                               r: Requirement)
    requires ValidProblem(p) && BuiltFrom(p, rules) && Feasible(p, chosen)
    requires s in chosen && v in chosen && s != v && Provides(p, rules, s, r) && Carries(p, v, r)
    ensures Earlier(p, chosen, s, v)
  {
    var e := ProviderHasEdge(p, rules, s, v, r);
    EdgeOrders(p, chosen, e);
  }

  /** In a complete plan every requirement is marked by some selected edge or from outside. */
  lemma {:induction false} CompleteMarks(p: Problem, chosen: set<Id>, v: Id, r: Requirement) returns (e: Edge)
    requires chosen <= p.byVersion.Keys && Complete(p, chosen) && v in chosen && Carries(p, v, r)
             && r.id !in p.satisfied
    ensures e in p.edges && e.source in chosen && e.target in chosen && r.id in e.requirements
  {
    var met := SatisfiedIds(p, chosen);
    var open := RequirementGaps(p, chosen, met);
    assert open <= GapsOf(p, chosen);
    assert r.id !in met ==> UnsatisfiedRequirement(v, r.id) in open;
    SelectedHolds(p.edges, chosen);
    e :| e in Selected(p.edges, chosen) && r.id in e.requirements;
  }

  /** ... so unless it is met from outside some member provides it, to another member that carries it. */
  lemma {:induction false} CompleteHasProvider(p: Problem, rules: seq<Rule>, chosen: set<Id>, v: Id, r: Requirement)
    returns (s: Id, t: Id)
    requires ValidProblem(p) && BuiltFrom(p, rules) && IdsAuthentic(p) && Feasible(p, chosen) && Complete(p, chosen)
    requires v in chosen && Carries(p, v, r) && r.id !in p.satisfied
    ensures s in chosen && Provides(p, rules, s, r)
    ensures t in chosen && t != s && Carries(p, t, r)
  {
    hide Complete, BuiltFrom, Provides;
    var e := CompleteMarks(p, chosen, v, r);
    var named := EdgeHasProvider(p, rules, e, r.id);
    assert named == r;
    s, t := e.source, e.target;
  }

  /** A requirement of a plan member is met in time: from outside or by an earlier member. */
  ghost predicate MetInTime(p: Problem, rules: seq<Rule>, chosen: set<Id>, v: Id, r: Requirement)
  {
    r.id in p.satisfied || exists s :: s in chosen && Provides(p, rules, s, r) && Earlier(p, chosen, s, v)
  }

  /** The member provides the requirement itself and another member carries it too. */
  predicate SelfProvided(p: Problem, rules: seq<Rule>, chosen: set<Id>, v: Id, r: Requirement)
  {
    Provides(p, rules, v, r) && exists t :: t in chosen && t != v && Carries(p, t, r)
  }

  /** Each requirement of a complete plan is met in time, or is one the member provides
      itself and another member also carries. It is met in time exactly when it is met
      from outside or some other member provides it. */
  lemma {:induction false} CompletePlanRequirements(p: Problem, rules: seq<Rule>, chosen: set<Id>, v: Id,
                                                    r: Requirement)
    requires ValidProblem(p) && BuiltFrom(p, rules) && IdsAuthentic(p) && Feasible(p, chosen) && Complete(p, chosen)
    requires v in chosen && Carries(p, v, r)
    ensures MetInTime(p, rules, chosen, v, r) || SelfProvided(p, rules, chosen, v, r)
    ensures MetInTime(p, rules, chosen, v, r) <==>
              r.id in p.satisfied || exists s :: s in chosen && s != v && Provides(p, rules, s, r)
  {
    hide Provides, Carries, Complete, Feasible, ValidProblem, BuiltFrom, IdsAuthentic;
    forall s | s in chosen && s != v && Provides(p, rules, s, r)
      ensures Earlier(p, chosen, s, v)
    {
      ProviderRunsEarlier(p, rules, chosen, s, v, r);
    }
    forall s | Earlier(p, chosen, s, v)
      ensures s != v
    {
      EarlierDiffers(p, chosen, s, v);
    }
    if r.id !in p.satisfied {
      var s, t := CompleteHasProvider(p, rules, chosen, v, r);
    }
  }

  lemma {:induction false} EarlierDiffers(p: Problem, chosen: set<Id>, s: Id, v: Id)
    requires Earlier(p, chosen, s, v)
    ensures s != v
  {
    KahnVisits(chosen, ChosenArcs(p, chosen));
  }
}
