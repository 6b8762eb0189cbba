/** The interface a synthesized procedure exports: what it reads from outside, what it leaves behind. */
module Interface {
  import opened Identifiers
  import opened CausalGraph
  import opened Synthesis

  /** A resource as seen from outside; its identifier stands for its identity hash. */
  datatype Key = Key(family: Id, identity: Id, schema: Id)

  datatype Provision = Provision(effects: set<Id>, successPredicates: set<Id>)

  datatype Built = Exports(requirements: map<Key, set<Id>>, provisions: map<Key, Provision>) | InvalidBuild

  function KeyOf(r: Resource): (k: Key)
  {
    Key(r.family, r.id, r.schema)
  }

  predicate HasResource(resources: seq<Resource>, id: Id)
  {
    exists r :: r in resources && r.id == id
  }

  // ----- the specification

  predicate Flow(e: Edge)
  {
    e.kind == ResourceFlow && e.resource != EMPTY
  }

  /** Some edge of the slice feeds the event with the resource. */
  predicate Fed(edges: seq<Edge>, event: Id, resource: Id)
  {
    exists e :: e in edges && Flow(e) && e.target == event && e.resource == resource
  }

  /** Some edge of the slice takes the resource from the event. */
  predicate Taken(edges: seq<Edge>, event: Id, resource: Id)
  {
    exists e :: e in edges && Flow(e) && e.source == event && e.resource == resource
  }

  function StepTable(steps: seq<Step>): (t: map<Id, Step>)
  {
    if steps == [] then map[] else StepTable(steps[..|steps| - 1])[steps[|steps| - 1].event := steps[|steps| - 1]]
  }

  predicate ValidFlow(steps: seq<Step>, e: Edge)
  {
    var t := StepTable(steps);
    && e.source in t && e.target in t
    && HasResource(t[e.source].node.writes, e.resource)
    && HasResource(t[e.target].node.inputs, e.resource)
  }

  predicate ValidFlows(steps: seq<Step>, edges: seq<Edge>)
  {
    forall e :: e in edges && Flow(e) ==> ValidFlow(steps, e)
  }

  /** The step reads the resource from outside the slice. */
  predicate ReadsOutside(edges: seq<Edge>, s: Step, r: Resource)
  {
    r in s.node.inputs && !Fed(edges, s.event, r.id)
  }

  /** The step leaves the resource behind: no step of the slice takes it from there. */
  predicate Leaves(edges: seq<Edge>, s: Step, r: Resource)
  {
    r in s.node.writes && !Taken(edges, s.event, r.id)
  }

  ghost predicate Required(steps: seq<Step>, edges: seq<Edge>, k: Key)
  {
    exists s, r :: s in steps && ReadsOutside(edges, s, r) && KeyOf(r) == k
  }

  predicate Concerns(p: Precondition, r: Resource)
  {
    p.id != EMPTY && (p.resourceName == EMPTY || p.resourceName == r.name)
  }

  ghost predicate Demanded(steps: seq<Step>, edges: seq<Edge>, k: Key, demanded: Id)
  {
    exists s, r, p :: s in steps && ReadsOutside(edges, s, r) && KeyOf(r) == k && p in s.node.preconditions
        && Concerns(p, r) && p.id == demanded
  }

  function ProvisionOf(s: Step): (p: Provision)
  {
    Provision(s.node.effects - {EMPTY}, s.node.successPredicates - {EMPTY})
  }

  ghost predicate Provides(steps: seq<Step>, edges: seq<Edge>, k: Key, s: Step)
  {
    s in steps && exists r :: Leaves(edges, s, r) && KeyOf(r) == k
  }

  /** Two events leave the same resource behind. */
  ghost predicate Contested(steps: seq<Step>, edges: seq<Edge>)
  {
    exists s, t, k :: Provides(steps, edges, k, s) && Provides(steps, edges, k, t) && s.event != t.event
  }

  ghost predicate RequirementsAre(steps: seq<Step>, edges: seq<Edge>, requirements: map<Key, set<Id>>)
  {
    && (forall k :: k in requirements <==> Required(steps, edges, k))
    && (forall k, p :: k in requirements ==> (p in requirements[k] <==> Demanded(steps, edges, k, p)))
  }

  ghost predicate ProvisionsAre(steps: seq<Step>, edges: seq<Edge>, provisions: map<Key, Provision>)
  {
    && (forall k :: k in provisions <==> exists s :: Provides(steps, edges, k, s))
    && (forall k :: k in provisions ==> exists s :: Provides(steps, edges, k, s) && provisions[k] == ProvisionOf(s))
  }

  /** What buildProcedureInterface answers. */
  ghost predicate Describes(steps: seq<Step>, edges: seq<Edge>, o: Built)
  {
    if !ValidFlows(steps, edges) || Contested(steps, edges) then o == InvalidBuild
    else o.Exports? && RequirementsAre(steps, edges, o.requirements) && ProvisionsAre(steps, edges, o.provisions)
  }

  // ----- buildProcedureInterface

  type Pair = (Id, Id)

  method BuildProcedureInterface(steps: seq<Step>, edges: seq<Edge>) returns (o: Built)
    ensures Describes(steps, edges, o)
    ensures o.Exports? ==> Exposes(steps, edges, o)
  {
    var valid, internalRead, consumedWrite := ReadEdges(steps, edges);
    if !valid {
      return InvalidBuild;
    }
    var requirements: map<Key, set<Id>>, provisions: map<Key, Provision>, owner: map<Key, Id> := map[], map[], map[];
    for i := 0 to |steps|
      invariant RequirementsAre(steps[..i], edges, requirements)
      invariant ProvisionsAre(steps[..i], edges, provisions) && Owners(steps[..i], edges, owner)
    {
      hide *;
      var s := steps[i];
      assert steps[..i + 1] == steps[..i] + [s];
      requirements := AddRequirements(steps[..i], edges, s, internalRead, requirements);
      var ok: bool;
      ok, provisions, owner := AddProvisions(steps[..i], edges, s, consumedWrite, provisions, owner);
      if !ok {
        ContestedLater(steps, edges, i + 1);
        AnswersContested(steps, edges);
        return InvalidBuild;
      }
    }
    assert steps[..|steps|] == steps;
    OwnersUncontested(steps, edges, owner);
    o := Exports(requirements, provisions);
    InterfaceMeans(steps, edges, o);
    hide *;
  }

  lemma {:induction false} AnswersContested(steps: seq<Step>, edges: seq<Edge>)
    requires Contested(steps, edges)
    ensures Describes(steps, edges, InvalidBuild)
  {
  }

  lemma {:induction false} ContestedLater(steps: seq<Step>, edges: seq<Edge>, i: nat)
    requires i <= |steps| && Contested(steps[..i], edges)
    ensures Contested(steps, edges)
  {
    var s, t, k :| Provides(steps[..i], edges, k, s) && Provides(steps[..i], edges, k, t) && s.event != t.event;
    assert Provides(steps, edges, k, s) && Provides(steps, edges, k, t);
  }

  /** The first loop: which reads are fed and which writes are taken inside the slice. */
  method ReadEdges(steps: seq<Step>, edges: seq<Edge>)
    returns (valid: bool, internalRead: set<Pair>, consumedWrite: set<Pair>)
    ensures valid <==> ValidFlows(steps, edges)
    ensures valid ==> forall event: Id, resource: Id :: (event, resource) in internalRead <==>
                          Fed(edges, event, resource)
    ensures valid ==> forall event: Id, resource: Id :: (event, resource) in consumedWrite <==>
                          Taken(edges, event, resource)
  {
    internalRead, consumedWrite := {}, {};
    for i := 0 to |edges|
      invariant ValidFlows(steps, edges[..i])
      invariant forall event: Id, resource: Id :: (event, resource) in internalRead <==>
                    Fed(edges[..i], event, resource)
      invariant forall event: Id, resource: Id :: (event, resource) in consumedWrite <==>
                    Taken(edges[..i], event, resource)
    {
      hide ValidFlow;
      var e := edges[i];
      assert e in edges && edges[..i + 1] == edges[..i] + [e];
      if Flow(e) {
        if !ValidFlow(steps, e) {
          return false, {}, {};
        }
        internalRead := internalRead + {(e.target, e.resource)};
        consumedWrite := consumedWrite + {(e.source, e.resource)};
      }
    }
    assert edges[..|edges|] == edges;
    return true, internalRead, consumedWrite;
  }

  function ConcernedBy(s: Step, r: Resource): (ids: set<Id>)
  {
    set p | p in s.node.preconditions && Concerns(p, r) :: p.id
  }

  /** Of step s the first n reads are in. */
  ghost predicate RequirementsUpTo(steps: seq<Step>, edges: seq<Edge>, s: Step, n: nat, requirements: map<Key, set<Id>>)
    requires n <= |s.node.inputs|
  {
    && (forall k :: k in requirements <==>
            Required(steps, edges, k)
            || exists r :: r in s.node.inputs[..n] && ReadsOutside(edges, s, r) && KeyOf(r) == k)
    && (forall k, p :: k in requirements ==>
          (p in requirements[k] <==> Demanded(steps, edges, k, p)
                                     || exists r :: r in s.node.inputs[..n] && ReadsOutside(edges, s, r)
                                            && KeyOf(r) == k && p in ConcernedBy(s, r)))
  }

  method AddRequirements(ghost steps: seq<Step>, ghost edges: seq<Edge>, s: Step, internalRead: set<Pair>,
                         before: map<Key, set<Id>>)
    returns (requirements: map<Key, set<Id>>)
    requires RequirementsAre(steps, edges, before)
    requires forall event: Id, resource: Id :: (event, resource) in internalRead <==> Fed(edges, event, resource)
    ensures RequirementsAre(steps + [s], edges, requirements)
  {
    requirements := before;
    assert RequirementsUpTo(steps, edges, s, 0, requirements);
    for n := 0 to |s.node.inputs|
      invariant RequirementsUpTo(steps, edges, s, n, requirements)
    {
      hide RequirementsUpTo, Fed, RequirementsAre, ConcernedBy;
      var r := s.node.inputs[n];
      if (s.event, r.id) !in internalRead {
        var earlier := if KeyOf(r) in requirements then requirements[KeyOf(r)] else {};
        RequirementOutside(steps, edges, s, n, requirements);
        requirements := requirements[KeyOf(r) := earlier + ConcernedBy(s, r)];
      } else {
        RequirementInside(steps, edges, s, n, requirements);
      }
    }
    hide Fed;
    RequirementsNext(steps, edges, s, requirements);
  }

  lemma {:induction false} RequirementInside(steps: seq<Step>, edges: seq<Edge>, s: Step, n: nat,
                                             requirements: map<Key, set<Id>>)
    requires n < |s.node.inputs| && RequirementsUpTo(steps, edges, s, n, requirements)
             && Fed(edges, s.event, s.node.inputs[n].id)
    ensures RequirementsUpTo(steps, edges, s, n + 1, requirements)
  {
    hide Required, Demanded, Fed, ConcernedBy;
    var r := s.node.inputs[n];
    assert s.node.inputs[..n + 1] == s.node.inputs[..n] + [r];
    assert !ReadsOutside(edges, s, r);
    assert forall x :: x in s.node.inputs[..n + 1] <==> x in s.node.inputs[..n] || x == r;
    hide ReadsOutside;
  }

  lemma {:induction false} RequirementOutside(steps: seq<Step>, edges: seq<Edge>, s: Step, n: nat,
                                              requirements: map<Key, set<Id>>)
    requires n < |s.node.inputs| && RequirementsUpTo(steps, edges, s, n, requirements)
             && !Fed(edges, s.event, s.node.inputs[n].id)
    ensures var r := s.node.inputs[n];
            RequirementsUpTo(steps, edges, s, n + 1,
                             requirements[KeyOf(r) := (if KeyOf(r) in requirements then requirements[KeyOf(r)]
                                                       else {}) + ConcernedBy(s, r)])
  {
    var r := s.node.inputs[n];
    var key := KeyOf(r);
    var earlier := if key in requirements then requirements[key] else {};
    var after := requirements[key := earlier + ConcernedBy(s, r)];
    assert forall x :: x in s.node.inputs[..n + 1] <==> x in s.node.inputs[..n] || x == r by {
      assert s.node.inputs[..n + 1] == s.node.inputs[..n] + [r];
    }
    assert ReadsOutside(edges, s, r);
    NotRequiredNotDemanded(steps, edges, key);
    hide Required, Demanded, Fed, ConcernedBy, ReadsOutside;
    forall k, p | k in after
      ensures p in after[k] <==> Demanded(steps, edges, k, p)
                                 || exists x :: x in s.node.inputs[..n + 1] && ReadsOutside(edges, s, x)
                                        && KeyOf(x) == k && p in ConcernedBy(s, x)
    {
      if k != key {
        assert k in requirements && after[k] == requirements[k];
      }
    }
  }

  lemma {:induction false} NotRequiredNotDemanded(steps: seq<Step>, edges: seq<Edge>, k: Key)
    ensures !Required(steps, edges, k) ==> forall p :: !Demanded(steps, edges, k, p)
  {
    hide ReadsOutside, Concerns;
  }

  lemma {:induction false} RequirementsNext(steps: seq<Step>, edges: seq<Edge>, s: Step,
                                            requirements: map<Key, set<Id>>)
    requires RequirementsUpTo(steps, edges, s, |s.node.inputs|, requirements)
    ensures RequirementsAre(steps + [s], edges, requirements)
  {
    assert s.node.inputs[..|s.node.inputs|] == s.node.inputs;
    assert forall x :: x in steps + [s] <==> x in steps || x == s;
    forall k
      ensures Required(steps + [s], edges, k) <==>
              Required(steps, edges, k) || exists r :: r in s.node.inputs && ReadsOutside(edges, s, r) && KeyOf(r) == k
    {
      RequiredStep(steps, edges, s, k);
    }
    forall k, p
      ensures Demanded(steps + [s], edges, k, p) <==>
              (Demanded(steps, edges, k, p)
               || exists r :: r in s.node.inputs && ReadsOutside(edges, s, r) && KeyOf(r) == k
                      && p in ConcernedBy(s, r))
    {
      DemandedStep(steps, edges, s, k, p);
    }
    hide Required, Demanded, ReadsOutside, ConcernedBy;
  }

  lemma {:induction false} RequiredStep(steps: seq<Step>, edges: seq<Edge>, s: Step, k: Key)
    ensures Required(steps + [s], edges, k) <==>
            Required(steps, edges, k) || exists r :: r in s.node.inputs && ReadsOutside(edges, s, r) && KeyOf(r) == k
  {
    hide Fed;
    assert forall x :: x in steps + [s] <==> x in steps || x == s;
  }

  lemma {:induction false} DemandedStep(steps: seq<Step>, edges: seq<Edge>, s: Step, k: Key, p: Id)
    ensures Demanded(steps + [s], edges, k, p) <==>
            (Demanded(steps, edges, k, p)
             || exists r :: r in s.node.inputs && ReadsOutside(edges, s, r) && KeyOf(r) == k && p in ConcernedBy(s, r))
  {
    hide Fed, Concerns;
    assert forall x :: x in steps + [s] <==> x in steps || x == s;
    if Demanded(steps + [s], edges, k, p) {
      var t, r, c :| t in steps + [s] && ReadsOutside(edges, t, r) && KeyOf(r) == k && c in t.node.preconditions
          && Concerns(c, r) && c.id == p;
      if t == s {
        assert p in ConcernedBy(s, r);
      }
    }
    if r :| r in s.node.inputs && ReadsOutside(edges, s, r) && KeyOf(r) == k && p in ConcernedBy(s, r) {
      var c :| c in s.node.preconditions && Concerns(c, r) && c.id == p;
      assert s in steps + [s];
    }
  }

  // ----- provisions

  /** Each provided key has the one event that provides it. */
  ghost predicate Owners(steps: seq<Step>, edges: seq<Edge>, owner: map<Key, Id>)
  {
    && (forall k :: k in owner <==> exists s :: Provides(steps, edges, k, s))
    && (forall k, s :: Provides(steps, edges, k, s) ==> k in owner && owner[k] == s.event)
  }

  lemma {:induction false} OwnersUncontested(steps: seq<Step>, edges: seq<Edge>, owner: map<Key, Id>)
    requires Owners(steps, edges, owner)
    ensures !Contested(steps, edges)
  {
    hide Provides;
  }

  /** Of step s the first n writes are in. */
  ghost predicate ProvisionsUpTo(steps: seq<Step>, edges: seq<Edge>, s: Step, n: nat, provisions: map<Key, Provision>,
                                 owner: map<Key, Id>)
    requires n <= |s.node.writes|
  {
    && provisions.Keys == owner.Keys
    && (forall k :: k in owner <==>
            (exists t :: Provides(steps, edges, k, t)) || LeftBy(edges, s, s.node.writes[..n], k))
    && (forall k, t :: Provides(steps, edges, k, t) ==> k in owner && owner[k] == t.event)
    && (forall k :: LeftBy(edges, s, s.node.writes[..n], k) ==> k in owner && owner[k] == s.event)
    && (forall k :: k in provisions ==> (LeftBy(edges, s, s.node.writes[..n], k) && provisions[k] == ProvisionOf(s))
                                        || exists t :: Provides(steps, edges, k, t) && provisions[k] == ProvisionOf(t))
  }

  ghost predicate LeftBy(edges: seq<Edge>, s: Step, writes: seq<Resource>, k: Key)
  {
    exists r :: r in writes && Leaves(edges, s, r) && KeyOf(r) == k
  }

  method AddProvisions(ghost steps: seq<Step>, ghost edges: seq<Edge>, s: Step, consumedWrite: set<Pair>,
                       before: map<Key, Provision>, beforeOwner: map<Key, Id>)
    returns (ok: bool, provisions: map<Key, Provision>, owner: map<Key, Id>)
    requires ProvisionsAre(steps, edges, before) && Owners(steps, edges, beforeOwner)
    requires forall event: Id, resource: Id :: (event, resource) in consumedWrite <==> Taken(edges, event, resource)
    ensures ok ==> ProvisionsAre(steps + [s], edges, provisions) && Owners(steps + [s], edges, owner)
    ensures !ok ==> Contested(steps + [s], edges)
  {
    provisions, owner := before, beforeOwner;
    ProvisionsStart(steps, edges, s, provisions, owner);
    for n := 0 to |s.node.writes|
      invariant ProvisionsUpTo(steps, edges, s, n, provisions, owner)
    {
      hide *;
      var r := s.node.writes[n];
      if (s.event, r.id) !in consumedWrite {
        if KeyOf(r) in owner && owner[KeyOf(r)] != s.event {
          ContestedHere(steps, edges, s, n, provisions, owner);
          return false, provisions, owner;
        }
        ProvisionLeft(steps, edges, s, n, provisions, owner);
        owner := owner[KeyOf(r) := s.event];
        provisions := provisions[KeyOf(r) := ProvisionOf(s)];
      } else {
        ProvisionTaken(steps, edges, s, n, provisions, owner);
      }
    }
    ProvisionsNext(steps, edges, s, provisions, owner);
    return true, provisions, owner;
  }

  lemma {:induction false} ProvisionsStart(steps: seq<Step>, edges: seq<Edge>, s: Step, provisions: map<Key, Provision>,
                                           owner: map<Key, Id>)
    requires ProvisionsAre(steps, edges, provisions) && Owners(steps, edges, owner)
    ensures ProvisionsUpTo(steps, edges, s, 0, provisions, owner)
  {
    hide Provides;
    assert forall k :: k in provisions <==> k in owner;
  }

  lemma {:induction false} ContestedHere(steps: seq<Step>, edges: seq<Edge>, s: Step, n: nat,
                                         provisions: map<Key, Provision>, owner: map<Key, Id>)
    requires n < |s.node.writes| && ProvisionsUpTo(steps, edges, s, n, provisions, owner)
    requires var r := s.node.writes[n]; !Taken(edges, s.event, r.id) && KeyOf(r) in owner && owner[KeyOf(r)] != s.event
    ensures Contested(steps + [s], edges)
  {
    hide Taken;
    var r := s.node.writes[n];
    var k := KeyOf(r);
    var t :| Provides(steps, edges, k, t);
    assert Provides(steps + [s], edges, k, t) && t.event != s.event;
    assert Leaves(edges, s, r) && s in steps + [s];
    assert Provides(steps + [s], edges, k, s);
  }

  lemma {:induction false} ProvisionTaken(steps: seq<Step>, edges: seq<Edge>, s: Step, n: nat,
                                          provisions: map<Key, Provision>, owner: map<Key, Id>)
    requires n < |s.node.writes| && ProvisionsUpTo(steps, edges, s, n, provisions, owner)
             && Taken(edges, s.event, s.node.writes[n].id)
    ensures ProvisionsUpTo(steps, edges, s, n + 1, provisions, owner)
  {
    hide Taken, Provides;
    var r := s.node.writes[n];
    assert s.node.writes[..n + 1] == s.node.writes[..n] + [r];
    assert !Leaves(edges, s, r);
    forall k ensures LeftBy(edges, s, s.node.writes[..n + 1], k) <==> LeftBy(edges, s, s.node.writes[..n], k) {
      assert forall x :: x in s.node.writes[..n + 1] <==> x in s.node.writes[..n] || x == r;
    }
    hide LeftBy;
  }

  lemma {:induction false} ProvisionLeft(steps: seq<Step>, edges: seq<Edge>, s: Step, n: nat,
                                         provisions: map<Key, Provision>, owner: map<Key, Id>)
    requires n < |s.node.writes| && ProvisionsUpTo(steps, edges, s, n, provisions, owner)
             && !Taken(edges, s.event, s.node.writes[n].id)
    requires KeyOf(s.node.writes[n]) in owner ==> owner[KeyOf(s.node.writes[n])] == s.event
    ensures var k := KeyOf(s.node.writes[n]);
            ProvisionsUpTo(steps, edges, s, n + 1, provisions[k := ProvisionOf(s)], owner[k := s.event])
  {
    hide Taken, Provides;
    var r := s.node.writes[n];
    assert s.node.writes[..n + 1] == s.node.writes[..n] + [r];
    assert Leaves(edges, s, r);
    forall k ensures LeftBy(edges, s, s.node.writes[..n + 1], k) <==>
        LeftBy(edges, s, s.node.writes[..n], k) || k == KeyOf(r) {
      assert forall x :: x in s.node.writes[..n + 1] <==> x in s.node.writes[..n] || x == r;
    }
    hide LeftBy, ProvisionOf;
  }

  lemma {:induction false} ProvisionsNext(steps: seq<Step>, edges: seq<Edge>, s: Step, provisions: map<Key, Provision>,
                                          owner: map<Key, Id>)
    requires ProvisionsUpTo(steps, edges, s, |s.node.writes|, provisions, owner)
    ensures ProvisionsAre(steps + [s], edges, provisions) && Owners(steps + [s], edges, owner)
  {
    hide Provides, LeftBy, ProvisionOf;
    assert s.node.writes[..|s.node.writes|] == s.node.writes;
    forall k
      ensures k in owner <==> exists t :: Provides(steps + [s], edges, k, t)
    {
      ProvidedNext(steps, edges, s, k);
    }
    forall k, t | Provides(steps + [s], edges, k, t)
      ensures k in owner && owner[k] == t.event
    {
      ProvidesStep(steps, edges, s, k, t);
    }
    forall k | k in provisions
      ensures exists t :: Provides(steps + [s], edges, k, t) && provisions[k] == ProvisionOf(t)
    {
      if LeftBy(edges, s, s.node.writes, k) && provisions[k] == ProvisionOf(s) {
        ProvidesStep(steps, edges, s, k, s);
      } else {
        var t :| Provides(steps, edges, k, t) && provisions[k] == ProvisionOf(t);
        ProvidesStep(steps, edges, s, k, t);
      }
    }
  }

  lemma {:induction false} ProvidedNext(steps: seq<Step>, edges: seq<Edge>, s: Step, k: Key)
    ensures (exists t :: Provides(steps + [s], edges, k, t)) <==>
            (exists t :: Provides(steps, edges, k, t)) || LeftBy(edges, s, s.node.writes, k)
  {
    hide Provides, LeftBy;
    ProvidesStep(steps, edges, s, k, s);
    if t :| Provides(steps, edges, k, t) {
      ProvidesStep(steps, edges, s, k, t);
    }
    if t :| Provides(steps + [s], edges, k, t) {
      ProvidesStep(steps, edges, s, k, t);
    }
  }

  lemma {:induction false} ProvidesStep(steps: seq<Step>, edges: seq<Edge>, s: Step, k: Key, t: Step)
    ensures Provides(steps + [s], edges, k, t) <==>
            Provides(steps, edges, k, t) || (t == s && LeftBy(edges, s, s.node.writes, k))
  {
    hide Taken;
    assert t in steps + [s] <==> t in steps || t == s;
  }

  // ----- what the interface says, field by field

  /** The step reads the resource and no flow of the slice carries it there. */
  predicate Imports(edges: seq<Edge>, s: Step, r: Resource)
  {
    && r in s.node.inputs
    && forall e :: e in edges && e.kind.ResourceFlow? && e.target == s.event && e.resource == r.id ==> r.id == EMPTY
  }

  /** The step writes the resource and no flow of the slice carries it on from there. */
  predicate Hands(edges: seq<Edge>, s: Step, r: Resource)
  {
    && r in s.node.writes
    && forall e :: e in edges && e.kind.ResourceFlow? && e.source == s.event && e.resource == r.id ==> r.id == EMPTY
  }

  predicate Names(k: Key, r: Resource)
  {
    k.family == r.family && k.identity == r.id && k.schema == r.schema
  }

  /** A precondition of the step speaks of the resource by its name or of every resource. */
  predicate Asks(s: Step, r: Resource, p: Id)
  {
    p != EMPTY && exists c :: c in s.node.preconditions && c.id == p && c.resourceName in {EMPTY, r.name}
  }

  ghost predicate Imported(steps: seq<Step>, edges: seq<Edge>, k: Key, required: set<Id>)
  {
    && (exists s, r :: s in steps && Imports(edges, s, r) && Names(k, r))
    && forall p :: p in required <==> exists s, r :: s in steps && Imports(edges, s, r) && Names(k, r) && Asks(s, r, p)
  }

  /** The effects and success predicates are those of a step that hands the resource on. */
  ghost predicate Exported(steps: seq<Step>, edges: seq<Edge>, k: Key, p: Provision)
  {
    exists s, r :: s in steps && Hands(edges, s, r) && Names(k, r) && Shows(s, p)
  }

  ghost predicate Shows(s: Step, p: Provision)
  {
    && (forall x :: x in p.effects <==> x in s.node.effects && x != EMPTY)
    && forall x :: x in p.successPredicates <==> x in s.node.successPredicates && x != EMPTY
  }

  /** Every key listed is that of a resource imported or handed on, with what the steps ask or show; and every such
      resource has its key listed. */
  ghost predicate Exposes(steps: seq<Step>, edges: seq<Edge>, o: Built)
    requires o.Exports?
  {
    && (forall k :: k in o.requirements ==> Imported(steps, edges, k, o.requirements[k]))
    && (forall k :: k in o.provisions ==> Exported(steps, edges, k, o.provisions[k]))
    && forall s, r :: s in steps ==>
           (Imports(edges, s, r) ==> Key(r.family, r.id, r.schema) in o.requirements)
           && (Hands(edges, s, r) ==> Key(r.family, r.id, r.schema) in o.provisions)
  }

  lemma {:induction false} InterfaceMeans(steps: seq<Step>, edges: seq<Edge>, o: Built)
    requires Describes(steps, edges, o) && o.Exports?
    ensures Exposes(steps, edges, o)
  {
    hide ValidFlows, Contested, Required, Demanded, Provides, Imports, Hands, Imported, Exported;
    forall k | k in o.requirements ensures Imported(steps, edges, k, o.requirements[k]) {
      RequirementImported(steps, edges, k, o.requirements[k]);
    }
    forall k | k in o.provisions ensures Exported(steps, edges, k, o.provisions[k]) {
      var s :| Provides(steps, edges, k, s) && o.provisions[k] == ProvisionOf(s);
      ProvisionExported(steps, edges, k, s);
    }
    forall s, r | s in steps
      ensures Imports(edges, s, r) ==> Key(r.family, r.id, r.schema) in o.requirements
      ensures Hands(edges, s, r) ==> Key(r.family, r.id, r.schema) in o.provisions
    {
      StepListed(steps, edges, s, r);
    }
  }

  lemma {:induction false} BoundaryMeans(edges: seq<Edge>, s: Step, r: Resource)
    ensures ReadsOutside(edges, s, r) <==> Imports(edges, s, r)
    ensures Leaves(edges, s, r) <==> Hands(edges, s, r)
  {
  }

  lemma {:induction false} KeyMeans(k: Key, r: Resource)
    ensures KeyOf(r) == k <==> Names(k, r)
  {
  }

  lemma {:induction false} StepListed(steps: seq<Step>, edges: seq<Edge>, s: Step, r: Resource)
    requires s in steps
    ensures Imports(edges, s, r) ==> Required(steps, edges, Key(r.family, r.id, r.schema))
    ensures Hands(edges, s, r) ==> Provides(steps, edges, Key(r.family, r.id, r.schema), s)
  {
    BoundaryMeans(edges, s, r);
    KeyMeans(Key(r.family, r.id, r.schema), r);
    hide Imports, Hands, ReadsOutside, Leaves, KeyOf;
  }

  lemma {:induction false} RequirementImported(steps: seq<Step>, edges: seq<Edge>, k: Key, required: set<Id>)
    requires Required(steps, edges, k) && forall p :: p in required <==> Demanded(steps, edges, k, p)
    ensures Imported(steps, edges, k, required)
  {
    forall s, r
      ensures ReadsOutside(edges, s, r) <==> Imports(edges, s, r)
      ensures KeyOf(r) == k <==> Names(k, r)
    {
      BoundaryMeans(edges, s, r);
      KeyMeans(k, r);
    }
    hide Imports, ReadsOutside, KeyOf, Names;
    forall p
      ensures Demanded(steps, edges, k, p) <==>
              exists s, r :: s in steps && Imports(edges, s, r) && Names(k, r) && Asks(s, r, p)
    {
      if Demanded(steps, edges, k, p) {
        var s, r, c :| s in steps && ReadsOutside(edges, s, r) && KeyOf(r) == k && c in s.node.preconditions
            && Concerns(c, r) && c.id == p;
        assert Asks(s, r, p);
      }
      if s, r :| s in steps && Imports(edges, s, r) && Names(k, r) && Asks(s, r, p) {
        var c :| c in s.node.preconditions && c.id == p && c.resourceName in {EMPTY, r.name};
        assert Concerns(c, r);
      }
    }
    hide Demanded, Asks;
  }

  lemma {:induction false} ProvisionExported(steps: seq<Step>, edges: seq<Edge>, k: Key, s: Step)
    requires Provides(steps, edges, k, s)
    ensures Exported(steps, edges, k, ProvisionOf(s))
  {
    var r :| Leaves(edges, s, r) && KeyOf(r) == k;
    BoundaryMeans(edges, s, r);
    KeyMeans(k, r);
    assert Shows(s, ProvisionOf(s));
    hide Hands, Leaves, KeyOf, Names, Shows;
  }
}
