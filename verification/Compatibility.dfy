/** The compatibility join: which procedure's provisions satisfy which other
procedure's requirements. The program indexes provisions by resource, looks
schema rules up by binary search and checks predicate cover by merging; the
reference is the plain nested loop over all pairs. */
module Compatibility {
  import opened Identifiers

  datatype Resource = Resource(kind: Id, namespace: Id, identity: Id)

  datatype Requirement = Requirement(id: Id, resource: Resource, schema: Id, predicates: seq<Id>)

  datatype Provision = Provision(id: Id, resource: Resource, schema: Id, successPredicates: seq<Id>)

  datatype Candidate = Candidate(version: Id, requirements: seq<Requirement>, provisions: seq<Provision>)

  datatype Rule = Rule(kind: Id, namespace: Id, provided: Id, required: Id)

  datatype Limits = Limits(maximumProviders: nat, maximumEdges: nat, maximumComparisons: nat)

  /** What interface validation guarantees: identifiers and predicate lists strictly increase. */
  predicate ValidInterface(c: Candidate)
  {
    && (forall i, j :: 0 <= i < j < |c.requirements| ==> c.requirements[i].id < c.requirements[j].id)
    && (forall i, j :: 0 <= i < j < |c.provisions| ==> c.provisions[i].id < c.provisions[j].id)
    && (forall r :: r in c.requirements ==> StrictlySorted(r.predicates))
    && (forall p :: p in c.provisions ==> StrictlySorted(p.successPredicates))
  }

  /** Candidates as the builder accepts them: versions are distinct. */
  predicate ValidCandidates(candidates: seq<Candidate>)
  {
    && (forall c :: c in candidates ==> ValidInterface(c))
    && (forall i, j :: 0 <= i < j < |candidates| ==> candidates[i].version != candidates[j].version)
  }

  // ----- the reference definition

  datatype Quad = Quad(source: Candidate, provision: Provision, target: Candidate, requirement: Requirement)

  datatype VersionPair = VersionPair(source: Id, target: Id)

  datatype Match = Match(provisionIds: set<Id>, requirementIds: set<Id>)

  predicate SchemaFits(p: Provision, r: Requirement, rules: seq<Rule>)
  {
    p.schema == r.schema || Rule(p.resource.kind, p.resource.namespace, p.schema, r.schema) in rules
  }

  predicate Satisfies(p: Provision, r: Requirement, rules: seq<Rule>)
  {
    && p.schema != EMPTY && r.schema != EMPTY
    && p.resource == r.resource
    && SchemaFits(p, r, rules)
    && Elements(r.predicates) <= Elements(p.successPredicates)
  }

  predicate Hit(q: Quad, rules: seq<Rule>)
  {
    q.source.version != q.target.version && Satisfies(q.provision, q.requirement, rules)
  }

  /** Every provision against every requirement. */
  function AllQuads(candidates: set<Candidate>): (quads: set<Quad>)
  {
    set s, p, t, r | s in candidates && p in s.provisions && t in candidates && r in t.requirements :: Quad(s, p, t, r)
  }

  function PairOf(q: Quad): (pair: VersionPair)
  {
    VersionPair(q.source.version, q.target.version)
  }

  function HitPairs(quads: set<Quad>, rules: seq<Rule>): (pairs: set<VersionPair>)
  {
    set q | q in quads && Hit(q, rules) :: PairOf(q)
  }

  function ProvisionIds(quads: set<Quad>, rules: seq<Rule>, pair: VersionPair): (ids: set<Id>)
  {
    set q | q in quads && Hit(q, rules) && PairOf(q) == pair :: q.provision.id
  }

  function RequirementIds(quads: set<Quad>, rules: seq<Rule>, pair: VersionPair): (ids: set<Id>)
  {
    set q | q in quads && Hit(q, rules) && PairOf(q) == pair :: q.requirement.id
  }

  /** The matches that a set of examined quads yields. */
  function Collect(quads: set<Quad>, rules: seq<Rule>): (matches: map<VersionPair, Match>)
  {
    map pair | pair in HitPairs(quads, rules) ::
      Match(ProvisionIds(quads, rules, pair), RequirementIds(quads, rules, pair))
  }

  // ----- what a match means

  /** The provision is of the resource required, in the same schema or one a rule accepts for it, and
      guarantees every predicate required. */
  predicate Suits(p: Provision, r: Requirement, rules: seq<Rule>)
  {
    && p.resource.kind == r.resource.kind && p.resource.namespace == r.resource.namespace
    && p.resource.identity == r.resource.identity && p.schema != EMPTY && r.schema != EMPTY
    && (|| p.schema == r.schema
        || exists rule :: rule in rules && rule.kind == r.resource.kind && rule.namespace == r.resource.namespace
                          && rule.provided == p.schema && rule.required == r.schema)
    && forall x :: x in r.predicates ==> x in p.successPredicates
  }

  /** The source's provision suits the target's requirement. */
  predicate Supplies(candidates: set<Candidate>, rules: seq<Rule>, pair: VersionPair, q: Quad)
  {
    && q.source in candidates && q.target in candidates && q.source.version == pair.source
    && q.target.version == pair.target && pair.source != pair.target
    && q.provision in q.source.provisions && q.requirement in q.target.requirements
    && Suits(q.provision, q.requirement, rules)
  }

  /** A pair is matched exactly when something is supplied, with exactly the ids of what is. */
  ghost predicate MatchesMean(candidates: set<Candidate>, rules: seq<Rule>, matches: map<VersionPair, Match>)
  {
    && (forall pair :: pair in matches <==> exists q :: Supplies(candidates, rules, pair, q))
    && (forall pair, x :: pair in matches ==>
          (x in matches[pair].provisionIds <==>
             exists q :: Supplies(candidates, rules, pair, q) && q.provision.id == x))
    && (forall pair, x :: pair in matches ==>
          (x in matches[pair].requirementIds <==>
             exists q :: Supplies(candidates, rules, pair, q) && q.requirement.id == x))
  }

  lemma {:induction false} SuitsMeans(p: Provision, r: Requirement, rules: seq<Rule>)
    ensures Suits(p, r, rules) <==> Satisfies(p, r, rules)
  {
    assert forall x :: x in Elements(r.predicates) <==> x in r.predicates;
    assert forall x :: x in Elements(p.successPredicates) <==> x in p.successPredicates;
    if rule :| rule in rules && rule.kind == r.resource.kind && rule.namespace == r.resource.namespace
               && rule.provided == p.schema && rule.required == r.schema {
      assert rule == Rule(r.resource.kind, r.resource.namespace, p.schema, r.schema);
    }
  }

  lemma {:induction false} SuppliesMeans(candidates: set<Candidate>, rules: seq<Rule>, pair: VersionPair, q: Quad)
    ensures Supplies(candidates, rules, pair, q) <==>
            q in AllQuads(candidates) && Hit(q, rules) && PairOf(q) == pair
  {
    SuitsMeans(q.provision, q.requirement, rules);
    hide Suits, Satisfies;
  }

  lemma {:induction false} CollectMeans(candidates: set<Candidate>, rules: seq<Rule>)
    ensures MatchesMean(candidates, rules, Collect(AllQuads(candidates), rules))
  {
    var quads := AllQuads(candidates);
    var matches := Collect(quads, rules);
    forall pair, q
      ensures Supplies(candidates, rules, pair, q) <==> q in quads && Hit(q, rules) && PairOf(q) == pair
    {
      SuppliesMeans(candidates, rules, pair, q);
    }
    hide Supplies, Hit, AllQuads;
    forall pair
      ensures pair in matches <==> exists q :: Supplies(candidates, rules, pair, q)
    {
      if pair in matches {
        var q :| q in quads && Hit(q, rules) && PairOf(q) == pair;
        assert Supplies(candidates, rules, pair, q);
      }
    }
    forall pair, x | pair in matches
      ensures x in matches[pair].provisionIds <==>
              exists q :: Supplies(candidates, rules, pair, q) && q.provision.id == x
      ensures x in matches[pair].requirementIds <==>
              exists q :: Supplies(candidates, rules, pair, q) && q.requirement.id == x
    {
      if x in matches[pair].provisionIds {
        var q :| q in quads && Hit(q, rules) && PairOf(q) == pair && q.provision.id == x;
        assert Supplies(candidates, rules, pair, q);
      }
      if x in matches[pair].requirementIds {
        var q :| q in quads && Hit(q, rules) && PairOf(q) == pair && q.requirement.id == x;
        assert Supplies(candidates, rules, pair, q);
      }
    }
  }

  /** Only quads on one resource with known schemas are ever compared. */
  predicate Comparable(q: Quad)
  {
    q.provision.schema != EMPTY && q.requirement.schema != EMPTY && q.provision.resource == q.requirement.resource
  }

  function Compared(candidates: set<Candidate>): (quads: set<Quad>)
  {
    set q | q in AllQuads(candidates) && Comparable(q)
  }

  datatype Reference = Reference(source: Candidate, provision: Provision)

  function Providers(candidates: set<Candidate>, resource: Resource): (references: set<Reference>)
  {
    set c, p | c in candidates && p in c.provisions && p.schema != EMPTY && p.resource == resource :: Reference(c, p)
  }

  /** The three size limits of the join, stated on sets so that order cannot matter. */
  ghost predicate ExceedsLimits(candidates: set<Candidate>, rules: seq<Rule>, limits: Limits)
  {
    || (exists resource :: |Providers(candidates, resource)| > limits.maximumProviders)
    || |Compared(candidates)| > limits.maximumComparisons
    || |Collect(AllQuads(candidates), rules)| > limits.maximumEdges
  }

  // ----- rule lookup

  function Compare(l: Rule, r: Rule): (c: int)
  {
    if l.kind != r.kind then (if l.kind < r.kind then -1 else 1)
    else if l.namespace != r.namespace then (if l.namespace < r.namespace then -1 else 1)
    else if l.provided != r.provided then (if l.provided < r.provided then -1 else 1)
    else if l.required != r.required then (if l.required < r.required then -1 else 1)
    else 0
  }

  predicate SortedRules(rules: seq<Rule>)
  {
    forall i, j :: 0 <= i < j < |rules| ==> Compare(rules[i], rules[j]) < 0
  }

  /** Binary search for the first rule not below the key. */
  method ExplicitlyCompatible(p: Provision, r: Requirement, rules: seq<Rule>) returns (found: bool)
    requires SortedRules(rules)
    ensures found <==> Rule(p.resource.kind, p.resource.namespace, p.schema, r.schema) in rules
  {
    var key := Rule(p.resource.kind, p.resource.namespace, p.schema, r.schema);
    var low, high := 0, |rules|;
    while low < high
      invariant 0 <= low <= high <= |rules|
      invariant forall k :: 0 <= k < low ==> Compare(rules[k], key) < 0
      invariant forall k :: high <= k < |rules| ==> Compare(rules[k], key) >= 0
    {
      var middle := (low + high) / 2;
      if Compare(rules[middle], key) >= 0 {
        high := middle;
      } else {
        low := middle + 1;
      }
    }
    found := low < |rules| && Compare(rules[low], key) == 0;
    if key in rules {
      var k :| 0 <= k < |rules| && rules[k] == key;
      FirstRule(rules, low, k);
    }
  }

  lemma {:induction false} FirstRule(rules: seq<Rule>, low: nat, k: nat)
    requires SortedRules(rules) && low <= k < |rules| && Compare(rules[low], rules[k]) >= 0
    ensures low == k
  {
  }

  /** One forward pass over both sorted lists. */
  method PredicateGuaranteesCover(provided: seq<Id>, required: seq<Id>) returns (covers: bool)
    requires StrictlySorted(provided) && StrictlySorted(required)
    ensures covers <==> Elements(required) <= Elements(provided)
  {
    var next := 0;
    for k := 0 to |required|
      invariant 0 <= next <= |provided|
      invariant forall i :: 0 <= i < k ==> required[i] in provided
      invariant forall i, j :: 0 <= i < next && k <= j < |required| ==> provided[i] < required[j]
    {
      var predicateId := required[k];
      while next < |provided| && provided[next] < predicateId
        invariant 0 <= next <= |provided|
        invariant forall i, j :: 0 <= i < next && k <= j < |required| ==> provided[i] < required[j]
      {
        next := next + 1;
      }
      if next == |provided| || provided[next] != predicateId {
        assert predicateId in Elements(required) && predicateId !in provided;
        return false;
      }
    }
    return true;
  }
}
