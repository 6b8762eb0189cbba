/** indexCompatibilityMatches: the indexed join, proved equal to the nested loop. */
module CompatibilityJoin {
  import opened Identifiers
  import opened Compatibility

  datatype Status = Running | Exceeded | Cancelled

  datatype JoinResult = Joined(matches: map<VersionPair, Match>) | LimitExceeded | JoinCancelled

  /** Records one hit, creating the entry of its pair when it is the first. */
  function Record(matches: map<VersionPair, Match>, q: Quad): (updated: map<VersionPair, Match>)
  {
    var pair := PairOf(q);
    var prior := if pair in matches then matches[pair] else Match({}, {});
    matches[pair := Match(prior.provisionIds + {q.provision.id}, prior.requirementIds + {q.requirement.id})]
  }

  /** Only hits matter to the collected matches. */
  lemma {:induction false} CollectSame(quads: set<Quad>, other: set<Quad>, rules: seq<Rule>)
    requires forall q :: Hit(q, rules) ==> (q in quads <==> q in other)
    ensures Collect(quads, rules) == Collect(other, rules)
  {
    assert HitPairs(quads, rules) == HitPairs(other, rules);
    forall pair
      ensures ProvisionIds(quads, rules, pair) == ProvisionIds(other, rules, pair)
      ensures RequirementIds(quads, rules, pair) == RequirementIds(other, rules, pair)
    {
    }
  }

  lemma {:induction false} IdsAfterHit(quads: set<Quad>, q: Quad, rules: seq<Rule>, pair: VersionPair)
    requires Hit(q, rules)
    ensures ProvisionIds(quads + {q}, rules, pair)
         == ProvisionIds(quads, rules, pair) + (if pair == PairOf(q) then {q.provision.id} else {})
    ensures RequirementIds(quads + {q}, rules, pair)
         == RequirementIds(quads, rules, pair) + (if pair == PairOf(q) then {q.requirement.id} else {})
  {
  }

  lemma {:induction false} NoIdsBeforeHit(quads: set<Quad>, rules: seq<Rule>, pair: VersionPair)
    requires pair !in HitPairs(quads, rules)
    ensures ProvisionIds(quads, rules, pair) == {} && RequirementIds(quads, rules, pair) == {}
  {
    assert forall x :: x in quads && Hit(x, rules) ==> PairOf(x) in HitPairs(quads, rules);
  }

  lemma {:induction false} PairsAfterHit(quads: set<Quad>, q: Quad, rules: seq<Rule>)
    requires Hit(q, rules)
    ensures HitPairs(quads + {q}, rules) == HitPairs(quads, rules) + {PairOf(q)}
  {
  }

  lemma {:induction false} CollectHit(quads: set<Quad>, q: Quad, rules: seq<Rule>)
    requires Hit(q, rules)
    ensures Collect(quads + {q}, rules) == Record(Collect(quads, rules), q)
  {
    var now, next := Collect(quads, rules), Collect(quads + {q}, rules);
    PairsAfterHit(quads, q, rules);
    assert now.Keys == HitPairs(quads, rules) && next.Keys == now.Keys + {PairOf(q)};
    forall pair | pair in next.Keys
      ensures next[pair] == Record(now, q)[pair]
    {
      hide HitPairs, ProvisionIds, RequirementIds, Hit;
      IdsAfterHit(quads, q, rules, pair);
      if pair !in now.Keys {
        NoIdsBeforeHit(quads, rules, pair);
      }
    }
  }

  /** The number of pairs grows only when a hit opens a new one. */
  lemma {:induction false} RecordSize(matches: map<VersionPair, Match>, q: Quad)
    ensures |Record(matches, q)| == |matches| + (if PairOf(q) in matches then 0 else 1)
  {
    assert Record(matches, q).Keys == matches.Keys + {PairOf(q)};
  }

  lemma {:induction false} CollectSize(quads: set<Quad>, more: set<Quad>, rules: seq<Rule>)
    requires quads <= more
    ensures |Collect(quads, rules)| <= |Collect(more, rules)|
  {
    assert Collect(quads, rules).Keys == HitPairs(quads, rules);
    assert Collect(more, rules).Keys == HitPairs(more, rules);
    SubsetSize(HitPairs(quads, rules), HitPairs(more, rules));
  }

  // ----- the resource index

  function Entry(index: map<Resource, seq<Reference>>, resource: Resource): (references: seq<Reference>)
  {
    if resource in index then index[resource] else []
  }

  /** What the index lists for a resource: references in the order the loops meet them. */
  function OwnReferences(c: Candidate, provisions: seq<Provision>, resource: Resource): (references: seq<Reference>)
  {
    if provisions == [] then [] else
      var last := provisions[|provisions| - 1];
      OwnReferences(c, provisions[..|provisions| - 1], resource)
      + (if last.schema != EMPTY && last.resource == resource then [Reference(c, last)] else [])
  }

  function References(candidates: seq<Candidate>, resource: Resource): (references: seq<Reference>)
  {
    if candidates == [] then [] else
      var last := candidates[|candidates| - 1];
      References(candidates[..|candidates| - 1], resource) + OwnReferences(last, last.provisions, resource)
  }

  lemma {:induction false} OwnReferencesListed(c: Candidate, provisions: seq<Provision>, resource: Resource)
    requires NoDuplicates(provisions)
    ensures NoDuplicates(OwnReferences(c, provisions, resource))
    ensures forall x :: x in OwnReferences(c, provisions, resource) <==>
                          x.source == c && x.provision in provisions && x.provision.schema != EMPTY
                            && x.provision.resource == resource
  {
    if provisions != [] {
      var init := provisions[..|provisions| - 1];
      OwnReferencesListed(c, init, resource);
      assert provisions == init + [provisions[|provisions| - 1]];
    }
  }

  /** Each provider of a resource is listed exactly once. */
  lemma {:induction false} ReferencesListed(candidates: seq<Candidate>, resource: Resource)
    requires ValidCandidates(candidates)
    ensures NoDuplicates(References(candidates, resource))
    ensures forall x :: x in References(candidates, resource) <==>
                          x.source in candidates && x.provision in x.source.provisions
                          && x.provision.schema != EMPTY && x.provision.resource == resource
  {
    if candidates != [] {
      var init, last := candidates[..|candidates| - 1], candidates[|candidates| - 1];
      assert candidates == init + [last];
      ReferencesListed(init, resource);
      assert last in candidates;
      OwnReferencesListed(last, last.provisions, resource);
      assert last !in init;
    }
  }

  lemma {:induction false} ReferencesAreProviders(candidates: seq<Candidate>, resource: Resource)
    requires ValidCandidates(candidates)
    ensures Elements(References(candidates, resource)) == Providers(Elements(candidates), resource)
    ensures |References(candidates, resource)| == |Providers(Elements(candidates), resource)|
  {
    ReferencesListed(candidates, resource);
    var listed, providers := Elements(References(candidates, resource)), Providers(Elements(candidates), resource);
    forall x
      ensures x in listed <==> x in providers
    {
      assert x == Reference(x.source, x.provision);
    }
    NoDuplicatesSize(References(candidates, resource));
  }

  /** The index after some whole candidates and a prefix of the provisions of the next. */
  ghost predicate Indexed(index: map<Resource, seq<Reference>>, candidates: seq<Candidate>, c: Candidate,
                          provisions: seq<Provision>, maximum: nat)
  {
    forall resource ::
      && Entry(index, resource) == References(candidates, resource) + OwnReferences(c, provisions, resource)
      && |Entry(index, resource)| <= maximum
  }

  lemma {:induction false} OwnReferencesGrow(c: Candidate, provisions: seq<Provision>, j: nat, resource: Resource)
    requires j <= |provisions|
    ensures |OwnReferences(c, provisions[..j], resource)| <= |OwnReferences(c, provisions, resource)|
    decreases |provisions| - j
  {
    if j == |provisions| {
      assert provisions[..j] == provisions;
    } else {
      assert provisions[..j + 1][..j] == provisions[..j];
      OwnReferencesGrow(c, provisions, j + 1, resource);
    }
  }

  lemma {:induction false} ReferencesGrow(candidates: seq<Candidate>, i: nat, resource: Resource)
    requires i <= |candidates|
    ensures |References(candidates[..i], resource)| <= |References(candidates, resource)|
    decreases |candidates| - i
  {
    if i == |candidates| {
      assert candidates[..i] == candidates;
    } else {
      assert candidates[..i + 1][..i] == candidates[..i];
      ReferencesGrow(candidates, i + 1, resource);
    }
  }

  /** A prefix that is already too long makes the whole listing too long. */
  lemma {:induction false} TooManyProviders(candidates: seq<Candidate>, i: nat, j: nat, resource: Resource,
                                            maximum: nat)
    requires ValidCandidates(candidates) && i < |candidates| && j <= |candidates[i].provisions|
    requires |References(candidates[..i], resource)
              + OwnReferences(candidates[i], candidates[i].provisions[..j], resource)| > maximum
    ensures |Providers(Elements(candidates), resource)| > maximum
  {
    OwnReferencesGrow(candidates[i], candidates[i].provisions, j, resource);
    assert candidates[..i + 1][..i] == candidates[..i];
    ReferencesGrow(candidates, i + 1, resource);
    ReferencesAreProviders(candidates, resource);
  }

  /** One provision: appended under its resource unless its schema is empty. */
  method IndexProvision(before: map<Resource, seq<Reference>>, ghost candidates: seq<Candidate>, c: Candidate, j: nat,
                        maximum: nat)
    returns (index: map<Resource, seq<Reference>>, ok: bool)
    requires j < |c.provisions|
    requires Indexed(before, candidates, c, c.provisions[..j], maximum)
    ensures ok ==> Indexed(index, candidates, c, c.provisions[..j + 1], maximum)
    ensures !ok ==> exists resource ::
              |References(candidates, resource) + OwnReferences(c, c.provisions[..j + 1], resource)| > maximum
  {
    var p := c.provisions[j];
    assert c.provisions[..j + 1][..j] == c.provisions[..j];
    index, ok := before, true;
    if p.schema != EMPTY {
      var entry := Entry(before, p.resource) + [Reference(c, p)];
      index := before[p.resource := entry];
      ok := |entry| <= maximum;
      assert entry == References(candidates, p.resource) + OwnReferences(c, c.provisions[..j + 1], p.resource);
    }
  }

  method IndexProvisions(candidates: seq<Candidate>, maximum: nat)
    returns (status: Status, index: map<Resource, seq<Reference>>)
    requires ValidCandidates(candidates)
    ensures status.Running? ==> forall resource ::
              Entry(index, resource) == References(candidates, resource) && |Entry(index, resource)| <= maximum
    ensures status.Exceeded? ==> exists resource :: |Providers(Elements(candidates), resource)| > maximum
  {
    hide *;
    index := map[];
    IndexStarts(candidates, maximum);
    for i := 0 to |candidates|
      invariant IndexedAll(index, candidates[..i], maximum)
    {
      if * {
        return Cancelled, index;
      }
      var c := candidates[i];
      IndexNext(index, candidates[..i], c, maximum);
      for j := 0 to |c.provisions|
        invariant Indexed(index, candidates[..i], c, c.provisions[..j], maximum)
      {
        var ok;
        index, ok := IndexProvision(index, candidates[..i], c, j, maximum);
        if !ok {
          ghost var resource :|
            |References(candidates[..i], resource) + OwnReferences(c, c.provisions[..j + 1], resource)| > maximum;
          TooManyProviders(candidates, i, j + 1, resource, maximum);
          return Exceeded, index;
        }
      }
      assert c.provisions[..|c.provisions|] == c.provisions;
      IndexedWhole(index, candidates, i, maximum);
    }
    assert candidates[..|candidates|] == candidates;
    IndexedMeans(index, candidates, maximum);
    status := Running;
  }

  ghost predicate IndexedAll(index: map<Resource, seq<Reference>>, candidates: seq<Candidate>, maximum: nat)
  {
    forall resource :: Entry(index, resource) == References(candidates, resource) && |Entry(index, resource)| <= maximum
  }

  lemma {:induction false} IndexedMeans(index: map<Resource, seq<Reference>>, candidates: seq<Candidate>, maximum: nat)
    requires IndexedAll(index, candidates, maximum)
    ensures forall resource :: Entry(index, resource) == References(candidates, resource)
                && |Entry(index, resource)| <= maximum
  {
  }

  lemma {:induction false} IndexStarts(candidates: seq<Candidate>, maximum: nat)
    ensures IndexedAll(map[], candidates[..0], maximum)
  {
  }

  lemma {:induction false} IndexNext(index: map<Resource, seq<Reference>>, candidates: seq<Candidate>, c: Candidate,
                                     maximum: nat)
    requires IndexedAll(index, candidates, maximum)
    ensures Indexed(index, candidates, c, c.provisions[..0], maximum)
  {
    hide References;
  }

  lemma {:induction false} IndexedWhole(index: map<Resource, seq<Reference>>, candidates: seq<Candidate>, i: nat,
                                        maximum: nat)
    requires i < |candidates| && Indexed(index, candidates[..i], candidates[i], candidates[i].provisions, maximum)
    ensures IndexedAll(index, candidates[..i + 1], maximum)
  {
    hide OwnReferences;
    assert candidates[..i + 1][..i] == candidates[..i];
  }

  // ----- the join

  /** The quads of one requirement against a list of references. */
  function QuadsFor(target: Candidate, requirement: Requirement, references: set<Reference>): (quads: set<Quad>)
  {
    set r | r in references :: Quad(r.source, r.provision, target, requirement)
  }

  predicate SortedReferences(references: seq<Reference>)
  {
    forall r :: r in references ==> StrictlySorted(r.provision.successPredicates)
  }

  /** The test the loop makes on one reference. */
  method Compatible(reference: Reference, target: Candidate, requirement: Requirement, rules: seq<Rule>)
    returns (hit: bool)
    requires SortedRules(rules)
    requires StrictlySorted(reference.provision.successPredicates) && StrictlySorted(requirement.predicates)
    requires Comparable(Quad(reference.source, reference.provision, target, requirement))
    ensures hit <==> Hit(Quad(reference.source, reference.provision, target, requirement), rules)
  {
    if reference.source.version == target.version {
      return false;
    }
    if reference.provision.schema != requirement.schema {
      var explicit := ExplicitlyCompatible(reference.provision, requirement, rules);
      if !explicit {
        return false;
      }
    }
    hit := PredicateGuaranteesCover(reference.provision.successPredicates, requirement.predicates);
  }

  /** The state of the join: matches and comparison count of the quads examined so far. */
  ghost predicate JoinState(matches: map<VersionPair, Match>, comparisons: nat, examined: set<Quad>, rules: seq<Rule>,
                            limits: Limits)
  {
    && matches == Collect(examined, rules) && comparisons == |examined|
    && comparisons <= limits.maximumComparisons && |matches| <= limits.maximumEdges
  }

  ghost predicate TooLarge(quads: set<Quad>, rules: seq<Rule>, limits: Limits)
  {
    |quads| > limits.maximumComparisons || |Collect(quads, rules)| > limits.maximumEdges
  }

  lemma {:induction false} TooLargeGrows(quads: set<Quad>, more: set<Quad>, rules: seq<Rule>, limits: Limits)
    requires quads <= more && TooLarge(quads, rules, limits)
    ensures TooLarge(more, rules, limits)
  {
    SubsetSize(quads, more);
    CollectSize(quads, more, rules);
  }

  /** One comparison. */
  method CompareReference(reference: Reference, target: Candidate, requirement: Requirement, rules: seq<Rule>,
                          limits: Limits, before: map<VersionPair, Match>, spent: nat, ghost examined: set<Quad>)
    returns (status: Status, matches: map<VersionPair, Match>, comparisons: nat)
    requires SortedRules(rules)
    requires StrictlySorted(reference.provision.successPredicates) && StrictlySorted(requirement.predicates)
    requires Comparable(Quad(reference.source, reference.provision, target, requirement))
    requires Quad(reference.source, reference.provision, target, requirement) !in examined
    requires JoinState(before, spent, examined, rules, limits)
    ensures var reached := examined + {Quad(reference.source, reference.provision, target, requirement)};
            && (status.Running? ==> JoinState(matches, comparisons, reached, rules, limits))
            && (status.Exceeded? ==> TooLarge(reached, rules, limits))
  {
    matches, comparisons := before, spent + 1;
    ghost var q := Quad(reference.source, reference.provision, target, requirement);
    if comparisons % 256 == 0 {
      if * {
        return Cancelled, matches, comparisons;
      }
    }
    if comparisons > limits.maximumComparisons {
      return Exceeded, matches, comparisons;
    }
    var hit := Compatible(reference, target, requirement, rules);
    if hit {
      CollectHit(examined, q, rules);
      RecordSize(before, q);
      var pair := VersionPair(reference.source.version, target.version);
      if pair !in matches && |matches| >= limits.maximumEdges {
        return Exceeded, matches, comparisons;
      }
      var prior := if pair in matches then matches[pair] else Match({}, {});
      matches := matches[pair := Match(prior.provisionIds + {reference.provision.id},
                                       prior.requirementIds + {requirement.id})];
    } else {
      CollectSame(examined + {q}, examined, rules);
    }
    status := Running;
  }

  /** All references of one requirement. */
  method CompareReferences(references: seq<Reference>, target: Candidate, requirement: Requirement, rules: seq<Rule>,
                           limits: Limits, before: map<VersionPair, Match>, spent: nat, ghost quads: set<Quad>)
    returns (status: Status, matches: map<VersionPair, Match>, comparisons: nat)
    requires SortedRules(rules) && SortedReferences(references) && StrictlySorted(requirement.predicates)
    requires NoDuplicates(references) && QuadsFor(target, requirement, Elements(references)) !! quads
    requires forall r :: r in references ==> Comparable(Quad(r.source, r.provision, target, requirement))
    requires JoinState(before, spent, quads, rules, limits)
    ensures var reached := quads + QuadsFor(target, requirement, Elements(references));
            && (status.Running? ==> JoinState(matches, comparisons, reached, rules, limits))
            && (status.Exceeded? ==> TooLarge(reached, rules, limits))
  {
    status, matches, comparisons := Running, before, spent;
    assert quads + QuadsFor(target, requirement, Elements(references[..0])) == quads;
    for k := 0 to |references|
      invariant status.Running?
      invariant JoinState(matches, comparisons, quads + QuadsFor(target, requirement, Elements(references[..k])), rules,
                          limits)
    {
      NextQuad(references, k, target, requirement, quads);
      ghost var examined := quads + QuadsFor(target, requirement, Elements(references[..k]));
      assert references[k] in references;
      status, matches, comparisons :=
        CompareReference(references[k], target, requirement, rules, limits, matches, comparisons, examined);
      if !status.Running? {
        if status.Exceeded? {
          TooLargeGrows(examined + {Quad(references[k].source, references[k].provision, target, requirement)},
                        quads + QuadsFor(target, requirement, Elements(references)), rules, limits);
        }
        return;
      }
    }
    assert references[..|references|] == references;
  }

  lemma {:induction false} NextQuad(references: seq<Reference>, k: nat, target: Candidate, requirement: Requirement,
                                    quads: set<Quad>)
    requires k < |references| && NoDuplicates(references)
    requires QuadsFor(target, requirement, Elements(references)) !! quads
    ensures var q := Quad(references[k].source, references[k].provision, target, requirement);
            var examined := quads + QuadsFor(target, requirement, Elements(references[..k]));
            && q !in examined
            && examined + {q} == quads + QuadsFor(target, requirement, Elements(references[..k + 1]))
            && examined + {q} <= quads + QuadsFor(target, requirement, Elements(references))
  {
    var q := Quad(references[k].source, references[k].provision, target, requirement);
    assert references[k] in Elements(references);
    assert references[k] == Reference(q.source, q.provision);
    assert q in QuadsFor(target, requirement, Elements(references));
    assert Elements(references[..k + 1]) == Elements(references[..k]) + {references[k]} by {
      assert references[..k + 1] == references[..k] + [references[k]];
      ElementsAppend(references[..k], [references[k]]);
    }
    assert QuadsFor(target, requirement, Elements(references[..k + 1]))
        == QuadsFor(target, requirement, Elements(references[..k])) + {q};
    assert QuadsFor(target, requirement, Elements(references[..k]))
           <= QuadsFor(target, requirement, Elements(references));
  }

  /** Compared quads of whole targets, and of one target's first requirements. */
  function WholeTargets(all: set<Candidate>, targets: seq<Candidate>): (quads: set<Quad>)
  {
    set q | q in Compared(all) && q.target in targets
  }

  function PartTarget(all: set<Candidate>, target: Candidate, requirements: seq<Requirement>): (quads: set<Quad>)
  {
    set q | q in Compared(all) && q.target == target && q.requirement in requirements
  }

  lemma {:induction false} InCompared(all: set<Candidate>, q: Quad)
    ensures q in Compared(all) <==>
              q.source in all && q.provision in q.source.provisions && q.target in all
                && q.requirement in q.target.requirements
              && Comparable(q)
  {
    assert q == Quad(q.source, q.provision, q.target, q.requirement);
  }

  lemma {:induction false} InQuadsFor(all: set<Candidate>, target: Candidate, requirement: Requirement, q: Quad)
    ensures q in QuadsFor(target, requirement, Providers(all, requirement.resource)) <==>
              q.target == target && q.requirement == requirement && q.source in all
                && q.provision in q.source.provisions
              && q.provision.schema != EMPTY && q.provision.resource == requirement.resource
  {
    if q.source in all && q.provision in q.source.provisions && q.provision.schema != EMPTY
       && q.provision.resource == requirement.resource {
      assert Reference(q.source, q.provision) in Providers(all, requirement.resource);
    }
  }

  /** Handling one more requirement examines exactly its quads. */
  lemma {:induction false} PartTargetNext(all: set<Candidate>, target: Candidate, j: nat)
    requires target in all && ValidInterface(target) && j < |target.requirements|
    ensures var r := target.requirements[j];
            && (r.schema == EMPTY ==>
                PartTarget(all, target, target.requirements[..j + 1])
                == PartTarget(all, target, target.requirements[..j]))
            && (r.schema != EMPTY ==>
                  && QuadsFor(target, r, Providers(all, r.resource))
                    !! PartTarget(all, target, target.requirements[..j])
                  && PartTarget(all, target, target.requirements[..j + 1])
                     == PartTarget(all, target, target.requirements[..j]) + QuadsFor(target, r,
                         Providers(all, r.resource)))
  {
    var r := target.requirements[j];
    assert target.requirements[..j + 1] == target.requirements[..j] + [r];
    assert r !in target.requirements[..j] by {
      assert forall i :: 0 <= i < j ==> target.requirements[i].id < r.id;
    }
    forall q
      ensures q in PartTarget(all, target, target.requirements[..j + 1]) <==>
                q in PartTarget(all, target, target.requirements[..j])
                || (r.schema != EMPTY && q in QuadsFor(target, r, Providers(all, r.resource)))
    {
      InCompared(all, q);
      InQuadsFor(all, target, r, q);
    }
    forall q | q in QuadsFor(target, r, Providers(all, r.resource))
      ensures q !in PartTarget(all, target, target.requirements[..j])
    {
    }
  }

  /** The quads examined once the first j requirements of a target are handled. */
  function Examined(quads: set<Quad>, all: set<Candidate>, target: Candidate, j: nat): (examined: set<Quad>)
    requires j <= |target.requirements|
  {
    quads + PartTarget(all, target, target.requirements[..j])
  }

  lemma {:induction false} ExaminedNext(quads: set<Quad>, candidates: seq<Candidate>, target: Candidate, j: nat)
    requires ValidCandidates(candidates) && target in candidates && j < |target.requirements|
    requires forall q :: q in quads ==> q.target != target
    ensures var r := target.requirements[j];
            var references := References(candidates, r.resource);
            var examined := Examined(quads, Elements(candidates), target, j);
            && (r.schema == EMPTY ==> Examined(quads, Elements(candidates), target, j + 1) == examined)
            && (r.schema != EMPTY ==>
                  && QuadsFor(target, r, Elements(references)) !! examined
                  && Examined(quads, Elements(candidates), target, j + 1)
                    == examined + QuadsFor(target, r, Elements(references)))
            && Examined(quads, Elements(candidates), target, j + 1)
               <= quads + PartTarget(Elements(candidates), target, target.requirements)
  {
    var r := target.requirements[j];
    PartTargetNext(Elements(candidates), target, j);
    ReferencesAreProviders(candidates, r.resource);
    assert forall x :: x in target.requirements[..j + 1] ==> x in target.requirements;
  }

  lemma {:induction false} RequirementSorted(candidates: seq<Candidate>, target: Candidate, requirement: Requirement)
    requires ValidCandidates(candidates) && target in candidates && requirement in target.requirements
    ensures StrictlySorted(requirement.predicates)
  {
  }

  lemma {:induction false} ReferencesFit(candidates: seq<Candidate>, target: Candidate, requirement: Requirement)
    requires ValidCandidates(candidates) && requirement.schema != EMPTY
    ensures var references := References(candidates, requirement.resource);
            && SortedReferences(references) && NoDuplicates(references)
            && forall r :: r in references ==> Comparable(Quad(r.source, r.provision, target, requirement))
  {
    ReferencesListed(candidates, requirement.resource);
  }

  /** All requirements of one target. */
  method MatchTarget(target: Candidate, index: map<Resource, seq<Reference>>, rules: seq<Rule>, limits: Limits,
                     before: map<VersionPair, Match>, spent: nat, ghost candidates: seq<Candidate>,
                     ghost quads: set<Quad>)
    returns (status: Status, matches: map<VersionPair, Match>, comparisons: nat)
    requires ValidCandidates(candidates) && SortedRules(rules) && target in candidates
    requires forall resource :: Entry(index, resource) == References(candidates, resource)
    requires forall q :: q in quads ==> q.target != target
    requires JoinState(before, spent, quads, rules, limits)
    ensures var reached := quads + PartTarget(Elements(candidates), target, target.requirements);
            && (status.Running? ==> JoinState(matches, comparisons, reached, rules, limits))
            && (status.Exceeded? ==> TooLarge(reached, rules, limits))
  {
    hide *;
    ghost var all := Elements(candidates);
    status, matches, comparisons := Running, before, spent;
    ExaminedEnds(quads, all, target);
    for j := 0 to |target.requirements|
      invariant status.Running?
      invariant JoinState(matches, comparisons, Examined(quads, all, target, j), rules, limits)
    {
      ExaminedNext(quads, candidates, target, j);
      var requirement := target.requirements[j];
      RequirementSorted(candidates, target, requirement);
      if requirement.schema != EMPTY {
        ReferencesFit(candidates, target, requirement);
        status, matches, comparisons :=
          CompareReferences(Entry(index, requirement.resource), target, requirement, rules, limits, matches,
                            comparisons, Examined(quads, all, target, j));
        if !status.Running? {
          if status.Exceeded? {
            TooLargeGrows(Examined(quads, all, target, j + 1),
                          quads + PartTarget(all, target, target.requirements), rules, limits);
          }
          return;
        }
      }
    }
  }

  lemma {:induction false} ExaminedEnds(quads: set<Quad>, all: set<Candidate>, target: Candidate)
    ensures Examined(quads, all, target, 0) == quads
    ensures Examined(quads, all, target, |target.requirements|) == quads + PartTarget(all, target, target.requirements)
  {
    assert target.requirements[..|target.requirements|] == target.requirements;
  }

  lemma {:induction false} WholeTargetsNext(candidates: seq<Candidate>, i: nat)
    requires i < |candidates|
    ensures var all := Elements(candidates);
            && WholeTargets(all, candidates[..i]) + PartTarget(all, candidates[i], candidates[i].requirements)
               == WholeTargets(all, candidates[..i + 1])
            && WholeTargets(all, candidates[..i + 1]) <= Compared(all)
  {
    var all := Elements(candidates);
    assert candidates[..i + 1] == candidates[..i] + [candidates[i]];
    forall q | q in Compared(all)
      ensures q.requirement in q.target.requirements
    {
      InCompared(all, q);
    }
  }

  lemma {:induction false} AllTargets(candidates: seq<Candidate>)
    ensures WholeTargets(Elements(candidates), candidates) == Compared(Elements(candidates))
  {
    forall q | q in Compared(Elements(candidates))
      ensures q.target in candidates
    {
      InCompared(Elements(candidates), q);
    }
  }

  lemma {:induction false} JoinedAll(candidates: set<Candidate>, rules: seq<Rule>)
    ensures Collect(Compared(candidates), rules) == Collect(AllQuads(candidates), rules)
  {
    forall q | Hit(q, rules)
      ensures q in Compared(candidates) <==> q in AllQuads(candidates)
    {
    }
    CollectSame(Compared(candidates), AllQuads(candidates), rules);
  }

  lemma {:induction false} FreshTarget(candidates: seq<Candidate>, i: nat)
    requires ValidCandidates(candidates) && i < |candidates|
    ensures candidates[i] in candidates
            && forall q :: q in WholeTargets(Elements(candidates), candidates[..i]) ==> q.target != candidates[i]
  {
    assert candidates[i] !in candidates[..i];
  }

  lemma {:induction false} TooLargeExceeds(all: set<Candidate>, rules: seq<Rule>, limits: Limits)
    requires TooLarge(Compared(all), rules, limits)
    ensures ExceedsLimits(all, rules, limits)
  {
    JoinedAll(all, rules);
    hide Compared, AllQuads, Collect;
  }

  /** The indexed join. Unless cancelled, it reports a limit exactly when the
      nested loop's own sizes exceed one, and otherwise returns exactly the
      nested loop's pairs, provision sets and requirement sets. */
  method IndexCompatibilityMatches(candidates: seq<Candidate>, rules: seq<Rule>, limits: Limits)
    returns (result: JoinResult)
    requires ValidCandidates(candidates) && SortedRules(rules)
    ensures result.Joined? ==> result.matches == Collect(AllQuads(Elements(candidates)), rules)
    ensures result.Joined? ==> MatchesMean(Elements(candidates), rules, result.matches)
    ensures result.Joined? ==> !ExceedsLimits(Elements(candidates), rules, limits)
    ensures result.LimitExceeded? ==> ExceedsLimits(Elements(candidates), rules, limits)
  {
    hide *;
    ghost var all := Elements(candidates);
    var status, index := IndexProvisions(candidates, limits.maximumProviders);
    if !status.Running? {
      if status.Exceeded? {
        TooManyExceeds(all, rules, limits);
        return LimitExceeded;
      }
      return JoinCancelled;
    }
    var matches: map<VersionPair, Match> := map[];
    var comparisons := 0;
    JoinStarts(candidates, rules, limits);
    for i := 0 to |candidates|
      invariant JoinState(matches, comparisons, WholeTargets(all, candidates[..i]), rules, limits)
    {
      if * {
        return JoinCancelled;
      }
      WholeTargetsNext(candidates, i);
      FreshTarget(candidates, i);
      status, matches, comparisons := MatchTarget(candidates[i], index, rules, limits, matches, comparisons,
                                                  candidates, WholeTargets(all, candidates[..i]));
      if status.Exceeded? {
        TooLargeGrows(WholeTargets(all, candidates[..i + 1]), Compared(all), rules, limits);
        TooLargeExceeds(all, rules, limits);
        return LimitExceeded;
      } else if status.Cancelled? {
        return JoinCancelled;
      }
    }
    assert candidates[..|candidates|] == candidates;
    JoinFinished(candidates, rules, limits, index, matches, comparisons);
    CollectMeans(all, rules);
    return Joined(matches);
  }

  lemma {:induction false} TooManyExceeds(all: set<Candidate>, rules: seq<Rule>, limits: Limits)
    requires exists resource :: |Providers(all, resource)| > limits.maximumProviders
    ensures ExceedsLimits(all, rules, limits)
  {
    hide Providers;
  }

  lemma {:induction false} JoinStarts(candidates: seq<Candidate>, rules: seq<Rule>, limits: Limits)
    ensures JoinState(map[], 0, WholeTargets(Elements(candidates), candidates[..0]), rules, limits)
  {
    assert WholeTargets(Elements(candidates), candidates[..0]) == {} && HitPairs({}, rules) == {};
  }

  lemma {:induction false} JoinFinished(candidates: seq<Candidate>, rules: seq<Rule>, limits: Limits,
                                        index: map<Resource, seq<Reference>>, matches: map<VersionPair, Match>,
                                        comparisons: nat)
    requires ValidCandidates(candidates)
    requires JoinState(matches, comparisons, WholeTargets(Elements(candidates), candidates), rules, limits)
    requires forall resource :: Entry(index, resource) == References(candidates, resource)
                 && |Entry(index, resource)| <= limits.maximumProviders
    ensures matches == Collect(AllQuads(Elements(candidates)), rules)
            && !ExceedsLimits(Elements(candidates), rules, limits)
  {
    var all := Elements(candidates);
    JoinedAll(all, rules);
    AllTargets(candidates);
    hide ValidCandidates, Collect, Compared, AllQuads, Providers, References, WholeTargets;
    forall resource
      ensures |Providers(all, resource)| <= limits.maximumProviders
    {
      ReferencesAreProviders(candidates, resource);
    }
  }

  /** Reordering the candidates changes neither the outcome nor the matches. */
  lemma {:induction false} JoinIgnoresOrder(candidates: seq<Candidate>, permuted: seq<Candidate>, rules: seq<Rule>,
                                            limits: Limits)
    requires multiset(candidates) == multiset(permuted)
    ensures Collect(AllQuads(Elements(candidates)), rules) == Collect(AllQuads(Elements(permuted)), rules)
    ensures ExceedsLimits(Elements(candidates), rules, limits) <==> ExceedsLimits(Elements(permuted), rules, limits)
  {
    forall c
      ensures c in candidates <==> c in permuted
    {
      assert c in multiset(candidates) <==> c in multiset(permuted);
    }
    assert Elements(candidates) == Elements(permuted);
  }
}
