/** PlanProcedures: the budgeted beam search. */
module PlannerSearch {
  import opened Identifiers
  import opened Sorting
  import opened Digraph
  import opened Planning
  import opened SearchStates
  import opened Reachability
  import opened SearchLimits
  import opened PlanMeaning
  import opened Budgets

  datatype Step = Continue | WorkExhausted | StepCancelled

  /** Every state built so far is the state of a reachable set. */
  ghost predicate Explored(p: Problem, hash: Plan -> Id, built: set<State>)
    requires ValidProblem(p)
  {
    forall s :: s in built ==> IsState(p, hash, s) && Reachable(p, s.nodes)
  }

  /** `best` is the best state built, and `seen` holds the hashes of exactly the states built. */
  ghost predicate Tracked(built: set<State>, seen: set<Id>, best: State)
  {
    && best in built && (forall s :: s in built ==> AtLeast(best, s))
    && seen == set s | s in built :: s.hash
  }

  /** `level` lists each built state of the given size once. */
  ghost predicate Level(built: set<State>, level: seq<State>, size: nat)
  {
    && NoDuplicates(level)
    && (forall s :: s in level <==> s in built && |s.nodes| == size)
    && (forall s :: s in built ==> |s.nodes| <= size)
  }

  ghost predicate Has(built: set<State>, chosen: set<Id>)
  {
    exists s :: s in built && s.nodes == chosen
  }

  lemma {:induction false} BestAfter(built: set<State>, best: State, s: State)
    requires best in built && (forall t :: t in built ==> AtLeast(best, t))
    requires Better(s, best)
    ensures forall t :: t in built + {s} ==> AtLeast(s, t)
  {
    forall t | t in built
      ensures AtLeast(s, t)
    {
      AtLeastTransitive(s, best, t);
    }
  }

  lemma {:induction false} KeepTracked(built: set<State>, seen: set<Id>, best: State, s: State)
    requires Tracked(built, seen, best) && s.hash !in seen
    ensures Tracked(built + {s}, seen + {s.hash}, if Better(s, best) then s else best)
  {
    if Better(s, best) {
      BestAfter(built, best, s);
    } else {
      BetterDecides(s, best);
    }
    assert (set t | t in built + {s} :: t.hash) == seen + {s.hash};
  }

  lemma {:induction false} KeepLevel(built: set<State>, seen: set<Id>, best: State, level: seq<State>, size: nat,
                                     s: State)
    requires Tracked(built, seen, best) && s.hash !in seen && Level(built, level, size) && |s.nodes| == size
    ensures Level(built + {s}, level + [s], size)
  {
    assert s !in built;
    assert s !in level;
  }

  lemma {:induction false} KeepExplored(p: Problem, hash: Plan -> Id, built: set<State>, state: State, v: Id, s: State)
    requires ValidProblem(p) && Explored(p, hash, built) && state in built && Extends(p, state.nodes, v)
    requires IsState(p, hash, s) && s.nodes == state.nodes + {v}
    ensures Explored(p, hash, built + {s})
  {
    hide IsState, Reachable, Extends, Feasible, ValidProblem;
    FeasibleState(p, hash, s);
    GrownReachable(p, state.nodes, v);
    assert Reachable(p, s.nodes);
  }

  lemma {:induction false} FeasibleState(p: Problem, hash: Plan -> Id, s: State)
    requires ValidProblem(p) && IsState(p, hash, s)
    ensures Feasible(p, s.nodes)
  {
  }

  lemma {:induction false} GrownReachable(p: Problem, chosen: set<Id>, v: Id)
    requires Reachable(p, chosen) && Extends(p, chosen, v) && Feasible(p, chosen + {v})
    ensures Reachable(p, chosen + {v})
  {
    assert (chosen + {v}) - {v} == chosen;
  }

  /** A state whose hash was seen has been built before. */
  lemma {:induction false} SeenBefore(p: Problem, hash: Plan -> Id, built: set<State>, seen: set<Id>, best: State,
                                      s: State)
    requires ValidProblem(p) && Injective(hash) && Explored(p, hash, built) && Tracked(built, seen, best)
    requires IsState(p, hash, s) && s.hash in seen
    ensures Has(built, s.nodes)
  {
    var twin :| twin in built && twin.hash == s.hash;
    HashDetermines(p, hash, s, twin);
  }

  /** Keeps a newly built state unless its hash was seen. */
  method Keep(s: State, seen0: set<Id>, level0: seq<State>, best0: State, ghost built0: set<State>, ghost size: nat)
    returns (seen: set<Id>, level: seq<State>, best: State, ghost built: set<State>)
    requires Tracked(built0, seen0, best0) && Level(built0, level0, size) && |s.nodes| == size
    ensures Tracked(built, seen, best) && Level(built, level, size)
    ensures built == if s.hash in seen0 then built0 else built0 + {s}
  {
    seen, level, best, built := seen0, level0, best0, built0;
    if s.hash !in seen0 {
      KeepTracked(built0, seen0, best0, s);
      KeepLevel(built0, seen0, best0, level0, size, s);
      seen := seen + {s.hash};
      level := level + [s];
      if Better(s, best) {
        best := s;
      }
      built := built + {s};
    }
  }

  /** One expansion. */
  method Expand(p: Problem, hash: Plan -> Id, state: State, v: Id, budget: WorkBudget, seen0: set<Id>,
                level0: seq<State>, best0: State, ghost built0: set<State>)
    returns (step: Step, seen: set<Id>, level: seq<State>, best: State, ghost built: set<State>)
    requires ValidProblem(p) && Injective(hash) && budget.Valid()
    requires Explored(p, hash, built0) && Tracked(built0, seen0, best0) && Level(built0, level0, |state.nodes| + 1)
    requires state in built0 && Extends(p, state.nodes, v) && v in p.byVersion
    modifies budget
    ensures budget.Valid()
    ensures built0 <= built && Explored(p, hash, built) && Tracked(built, seen, best)
            && Level(built, level, |state.nodes| + 1)
    ensures step.Continue? && Feasible(p, state.nodes + {v}) ==> Has(built, state.nodes + {v})
    ensures budget.used <= old(budget.used) + |p.edges|
    ensures step.WorkExhausted? ==> old(budget.used) + |p.edges| > budget.maximum
  {
    step, seen, level, best, built := Continue, seen0, level0, best0, built0;
    var result := BuildSearchState(p, hash, state.nodes + {v}, budget);
    if result.WorkLimit? {
      step := WorkExhausted;
    } else if result.Cancelled? || result.Invalid? {
      step := StepCancelled;
    } else if result.Built? {
      var s := result.state;
      if s.hash in seen {
        SeenBefore(p, hash, built0, seen0, best0, s);
      } else {
        KeepExplored(p, hash, built0, state, v, s);
      }
      seen, level, best, built := Keep(s, seen0, level0, best0, built0, |state.nodes| + 1);
    }
  }

  // ----- one level of the beam

  /** Every feasible one-version extension of the set has been built. */
  ghost predicate Grown(p: Problem, built: set<State>, chosen: set<Id>)
  {
    forall v {:trigger Extends(p, chosen, v)} :: Extends(p, chosen, v) && Feasible(p, chosen + {v}) ==>
        Has(built, chosen + {v})
  }

  lemma {:induction false} HasGrows(built: set<State>, more: set<State>, chosen: set<Id>)
    requires built <= more && Has(built, chosen)
    ensures Has(more, chosen)
  {
    var s :| s in built && s.nodes == chosen;
    assert s in more;
  }

  lemma {:induction false} GrownGrows(p: Problem, built: set<State>, more: set<State>, chosen: set<Id>)
    requires built <= more && Grown(p, built, chosen)
    ensures Grown(p, more, chosen)
  {
    forall v | Extends(p, chosen, v) && Feasible(p, chosen + {v})
      ensures Has(more, chosen + {v})
    {
      HasGrows(built, more, chosen + {v});
    }
  }

  lemma {:induction false} AdjacentKnown(p: Problem, chosen: set<Id>, v: Id)
    requires ValidProblem(p) && Adjacent(p.edges, chosen, v)
    ensures v in p.byVersion
  {
  }

  /** So many edge scans were paid for from `start`, or the last of them could not be. */
  ghost predicate Costs(p: Problem, start: nat, used: nat, maximum: nat, scans: nat, short: bool)
  {
    used <= start + Product(|p.edges|, scans) && (short ==> start + Product(|p.edges|, scans) > maximum)
  }

  lemma {:induction false} CostsOne(p: Problem, start: nat, used: nat, maximum: nat, short: bool)
    requires used <= start + |p.edges| && (short ==> start + |p.edges| > maximum)
    ensures Costs(p, start, used, maximum, 1, short)
  {
    assert Product(|p.edges|, 1) == |p.edges|;
  }

  lemma {:induction false} CostsMore(p: Problem, start: nat, before: nat, used: nat, maximum: nat, scans: nat,
                                     short: bool)
    requires Costs(p, start, before, maximum, scans, false)
    requires used <= before + |p.edges| && (short ==> before + |p.edges| > maximum)
    ensures Costs(p, start, used, maximum, scans + 1, short)
  {
    ProductGrows(|p.edges|, scans, 1);
    assert Product(|p.edges|, 1) == |p.edges|;
  }

  lemma {:induction false} CostsAdd(p: Problem, start: nat, before: nat, used: nat, maximum: nat, scans: nat, more: nat,
                                    short: bool)
    requires Costs(p, start, before, maximum, scans, false) && Costs(p, before, used, maximum, more, short)
    ensures Costs(p, start, used, maximum, scans + more, short)
  {
    ProductGrows(|p.edges|, scans, more);
  }

  lemma {:induction false} CostsUpTo(p: Problem, start: nat, used: nat, maximum: nat, scans: nat, more: nat,
                                     short: bool)
    requires Costs(p, start, used, maximum, scans, short) && scans <= more
    ensures Costs(p, start, used, maximum, more, short)
  {
    ProductKeepsOrder(|p.edges|, scans, more);
  }

  /** A set has no more neighbours than there are versions outside it. */
  lemma {:induction false} AdjacentFits(p: Problem, chosen: set<Id>, adjacent: seq<Id>)
    requires ValidProblem(p) && chosen <= p.byVersion.Keys
    requires StrictlySorted(adjacent) && forall v :: v in adjacent ==> Adjacent(p.edges, chosen, v)
    ensures |adjacent| <= Room(|p.byVersion|, |chosen|)
  {
    forall v | v in Elements(adjacent)
      ensures v in p.byVersion.Keys - chosen
    {
      AdjacentKnown(p, chosen, v);
    }
    NoDuplicatesSize(adjacent);
    SubsetSize(Elements(adjacent), p.byVersion.Keys - chosen);
    SubsetSize(chosen, p.byVersion.Keys);
    assert p.byVersion.Keys == chosen + (p.byVersion.Keys - chosen);
  }

  /** All the expansions of one frontier state, until a limit. */
  method ExpandState(p: Problem, hash: Plan -> Id, state: State, budget: WorkBudget, expansions0: nat,
                     codes0: set<LimitCode>, seen0: set<Id>, level0: seq<State>, best0: State, ghost built0: set<State>)
    returns (step: Step, expansions: nat, codes: set<LimitCode>,
             seen: set<Id>, level: seq<State>, best: State, ghost built: set<State>)
    requires ValidProblem(p) && Injective(hash) && budget.Valid()
    requires Explored(p, hash, built0) && Tracked(built0, seen0, best0) && Level(built0, level0, |state.nodes| + 1)
    requires state in built0 && state.nodes <= p.byVersion.Keys
    requires !Complete(p, state.nodes) && |state.nodes| < p.manifest.maximumProcedures
    modifies budget
    ensures budget.Valid()
    ensures built0 <= built && Explored(p, hash, built) && Tracked(built, seen, best)
            && Level(built, level, |state.nodes| + 1)
    ensures codes == codes0 || codes == codes0 + {ExpansionBudgetExhausted}
    ensures expansions0 <= expansions && (expansions <= p.manifest.maximumExpansions || expansions == expansions0)
    ensures step.Continue? && ExpansionBudgetExhausted !in codes ==> Grown(p, built, state.nodes)
    ensures expansions <= expansions0 + Room(|p.byVersion|, |state.nodes|)
    ensures codes != codes0 ==> expansions >= p.manifest.maximumExpansions
    ensures Costs(p, old(budget.used), budget.used, budget.maximum, 1 + (expansions - expansions0), step.WorkExhausted?)
  {
    hide Explored, Tracked, Level, Feasible, Has, Complete, ValidProblem, Costs, Product;
    ghost var start := budget.used;
    expansions, codes := expansions0, codes0;
    step, seen, level, best, built := Continue, seen0, level0, best0, built0;
    var scan := AdjacentVersions(p.edges, state.nodes, budget);
    CostsOne(p, start, budget.used, budget.maximum, scan.ScanWorkLimit?);
    if !scan.Scanned? {
      step := if scan.ScanWorkLimit? then WorkExhausted else StepCancelled;
      return;
    }
    var adjacent := scan.value;
    AdjacentFits(p, state.nodes, adjacent);
    for i := 0 to |adjacent|
      invariant budget.Valid() && step.Continue? && codes == codes0 && expansions == expansions0 + i
      invariant Costs(p, start, budget.used, budget.maximum, 1 + (expansions - expansions0), false)
      invariant expansions0 <= expansions && (expansions <= p.manifest.maximumExpansions || expansions == expansions0)
      invariant built0 <= built && Explored(p, hash, built) && Tracked(built, seen, best)
                && Level(built, level, |state.nodes| + 1)
      invariant forall k :: 0 <= k < i && Feasible(p, state.nodes + {adjacent[k]}) ==>
                    Has(built, state.nodes + {adjacent[k]})
    {
      if expansions >= p.manifest.maximumExpansions {
        codes := codes + {ExpansionBudgetExhausted};
        return;
      }
      expansions := expansions + 1;
      assert adjacent[i] in adjacent;
      AdjacentKnown(p, state.nodes, adjacent[i]);
      ghost var before, spent := built, budget.used;
      step, seen, level, best, built := Expand(p, hash, state, adjacent[i], budget, seen, level, best, built);
      CostsMore(p, start, spent, budget.used, budget.maximum, 1 + i, step.WorkExhausted?);
      if !step.Continue? {
        return;
      }
      forall k | 0 <= k < i && Feasible(p, state.nodes + {adjacent[k]})
        ensures Has(built, state.nodes + {adjacent[k]})
      {
        HasGrows(before, built, state.nodes + {adjacent[k]});
      }
    }
    assert forall v :: Extends(p, state.nodes, v) ==> v in adjacent;
  }

  /** The frontier loop. */
  method ExpandFrontier(p: Problem, hash: Plan -> Id, frontier: seq<State>, budget: WorkBudget, expansions0: nat,
                        codes0: set<LimitCode>, seen0: set<Id>, best0: State, ghost built0: set<State>, ghost size: nat)
    returns (step: Step, expansions: nat, codes: set<LimitCode>,
             seen: set<Id>, level: seq<State>, best: State, ghost built: set<State>)
    requires ValidProblem(p) && Injective(hash) && budget.Valid()
    requires Explored(p, hash, built0) && Tracked(built0, seen0, best0)
    requires forall s :: s in built0 ==> |s.nodes| <= size
    requires forall s :: s in frontier ==> s in built0 && |s.nodes| == size
    modifies budget
    ensures budget.Valid()
    ensures built0 <= built && Explored(p, hash, built) && Tracked(built, seen, best) && Level(built, level, size + 1)
    ensures codes == codes0 || codes == codes0 + {ExpansionBudgetExhausted}
    ensures expansions0 <= expansions && (expansions <= p.manifest.maximumExpansions || expansions == expansions0)
    ensures step.Continue? && ExpansionBudgetExhausted !in codes ==>
            forall s :: s in frontier ==> Grown(p, built, s.nodes)
    ensures expansions <= expansions0 + Product(|frontier|, Room(|p.byVersion|, size))
    ensures codes != codes0 ==> expansions >= p.manifest.maximumExpansions
    ensures Costs(p, old(budget.used), budget.used, budget.maximum, |frontier| + (expansions - expansions0),
                  step.WorkExhausted?)
  {
    hide Explored, Tracked, Feasible, Has, Complete, ValidProblem, Extends, Costs, Product, Room, Level, Grown;
    ghost var start, room := budget.used, Room(|p.byVersion|, size);
    FreshLevel(built0, size);
    CostsNothing(p, start, budget.maximum);
    RoomStep(0, |frontier|, room);
    expansions, codes := expansions0, codes0;
    step, seen, level, best, built := Continue, seen0, [], best0, built0;
    for i := 0 to |frontier|
      invariant budget.Valid() && step.Continue?
      invariant expansions0 <= expansions && (expansions <= p.manifest.maximumExpansions || expansions == expansions0)
      invariant codes == codes0 || codes == codes0 + {ExpansionBudgetExhausted}
      invariant codes != codes0 ==> expansions >= p.manifest.maximumExpansions
      invariant expansions <= expansions0 + Product(i, room)
      invariant Costs(p, start, budget.used, budget.maximum, i + (expansions - expansions0), false)
      invariant built0 <= built && Explored(p, hash, built) && Tracked(built, seen, best)
                && Level(built, level, size + 1)
      invariant ExpansionBudgetExhausted !in codes ==> forall k :: 0 <= k < i ==> Grown(p, built, frontier[k].nodes)
    {
      RoomStep(i, |frontier|, room);
      CostsUpTo(p, start, budget.used, budget.maximum, i + (expansions - expansions0),
                i + 1 + (expansions - expansions0), false);
      if expansions >= p.manifest.maximumExpansions {
        codes := codes + {ExpansionBudgetExhausted};
        CostsUpTo(p, start, budget.used, budget.maximum, i + (expansions - expansions0),
                  |frontier| + (expansions - expansions0), false);
        return;
      }
      var state := frontier[i];
      assert state in frontier;
      StateFacts(p, hash, built, state);
      ghost var before, spent, sofar := built, budget.used, expansions;
      NothingToGrow(p, built, state);
      if !state.plan.complete && |state.nodes| < p.manifest.maximumProcedures {
        step, expansions, codes, seen, level, best, built :=
          ExpandState(p, hash, state, budget, expansions, codes, seen, level, best, built);
        CostsAdd(p, start, spent, budget.used, budget.maximum, i + (sofar - expansions0), 1 + (expansions - sofar),
                 step.WorkExhausted?);
        if !step.Continue? {
          CostsUpTo(p, start, budget.used, budget.maximum, i + 1 + (expansions - expansions0),
                    |frontier| + (expansions - expansions0), step.WorkExhausted?);
          return;
        }
      }
      forall k | 0 <= k < i && Grown(p, before, frontier[k].nodes)
        ensures Grown(p, built, frontier[k].nodes)
      {
        GrownGrows(p, before, built, frontier[k].nodes);
      }
    }
  }

  lemma {:induction false} FreshLevel(built: set<State>, size: nat)
    requires forall s :: s in built ==> |s.nodes| <= size
    ensures Level(built, [], size + 1)
  {
  }

  lemma {:induction false} CostsNothing(p: Problem, start: nat, maximum: nat)
    ensures Costs(p, start, start, maximum, 0, false)
  {
  }

  lemma {:induction false} RoomStep(i: nat, width: nat, room: nat)
    requires i <= width
    ensures Product(0, room) == 0 && Product(i, room) <= Product(width, room)
    ensures i < width ==>
            Product(i + 1, room) == Product(i, room) + room && Product(i + 1, room) <= Product(width, room)
  {
    ProductKeepsOrder(room, i, width);
    if i < width {
      ProductKeepsOrder(room, i + 1, width);
    }
  }

  lemma {:induction false} NothingToGrow(p: Problem, built: set<State>, s: State)
    requires s.nodes <= p.byVersion.Keys && s.plan.complete == Complete(p, s.nodes)
    ensures s.plan.complete || |s.nodes| >= p.manifest.maximumProcedures ==> Grown(p, built, s.nodes)
  {
  }

  lemma {:induction false} StateFacts(p: Problem, hash: Plan -> Id, built: set<State>, s: State)
    requires ValidProblem(p) && Explored(p, hash, built) && s in built
    ensures s.nodes <= p.byVersion.Keys && s.plan.complete == Complete(p, s.nodes)
  {
  }

  // ----- the seeds

  datatype SeedResult = Planted(frontier: seq<State>, seen: set<Id>, best: State) | NoFeasibleSeed | SeedsCancelled

  lemma {:induction false} SizeOne(p: Problem, chosen: set<Id>)
    requires Reachable(p, chosen) && |chosen| == 1
    ensures IsSeedSet(p, chosen)
  {
    if !IsSeedSet(p, chosen) {
      var v := LastAdded(p, chosen);
    }
  }

  lemma {:induction false} FirstTracked(s: State)
    ensures Tracked({s}, {s.hash}, s) && Level({s}, [s], |s.nodes|)
  {
    assert (set t | t in {s} :: t.hash) == {s.hash};
  }

  lemma {:induction false} SeedExplored(p: Problem, hash: Plan -> Id, built: set<State>, v: Id, s: State)
    requires ValidProblem(p) && Explored(p, hash, built) && v in p.seeds && IsState(p, hash, s) && s.nodes == {v}
    ensures Explored(p, hash, built + {s})
  {
    assert v in Elements(p.seeds);
    assert IsSeedSet(p, {v});
  }

  /** Each seed state is new: no state built so far has its node. */
  lemma {:induction false} SeedUnseen(p: Problem, hash: Plan -> Id, built: set<State>, seen: set<Id>, best: State,
                                      s: State)
    requires ValidProblem(p) && Injective(hash) && Explored(p, hash, built) && Tracked(built, seen, best)
    requires IsState(p, hash, s) && forall t :: t in built ==> t.nodes != s.nodes
    ensures s.hash !in seen
  {
    if s.hash in seen {
      SeenBefore(p, hash, built, seen, best, s);
    }
  }

  ghost predicate SeedsBuilt(p: Problem, built: set<State>, seeds: seq<Id>)
  {
    && (forall s :: s in built ==> |s.nodes| == 1 && exists v :: v in seeds && s.nodes == {v})
    && (forall v :: v in seeds && Feasible(p, {v}) ==> Has(built, {v}))
  }

  lemma {:induction false} SeedsBuiltNext(p: Problem, built: set<State>, more: set<State>, seeds: seq<Id>, v: Id)
    requires SeedsBuilt(p, built, seeds) && built <= more
    requires forall s :: s in more ==> s in built || s.nodes == {v}
    requires Feasible(p, {v}) ==> Has(more, {v})
    ensures SeedsBuilt(p, more, seeds + [v])
  {
    hide Feasible;
    forall s | s in more
      ensures |s.nodes| == 1 && exists x :: x in seeds + [v] && s.nodes == {x}
    {
      if s in built {
        var x :| x in seeds && s.nodes == {x};
        assert x in seeds + [v];
      } else {
        assert v in seeds + [v];
      }
    }
    forall x | x in seeds + [v] && Feasible(p, {x})
      ensures Has(more, {x})
    {
      if x in seeds {
        HasGrows(built, more, {x});
      }
    }
  }

  /** One state per feasible seed, in version order. */
  method PlantSeeds(p: Problem, hash: Plan -> Id, budget: WorkBudget)
    returns (result: SeedResult, codes: set<LimitCode>, ghost built: set<State>)
    requires ValidProblem(p) && Injective(hash) && budget.Valid()
    modifies budget
    ensures budget.Valid()
    ensures codes == {} || codes == {WorkBudgetExhausted}
    ensures result.Planted? ==>
            Explored(p, hash, built) && Tracked(built, result.seen, result.best) && Level(built, result.frontier, 1)
    ensures result.Planted? && codes == {} ==> SeedsBuilt(p, built, p.seeds)
    ensures result.NoFeasibleSeed? && codes == {} ==> forall v :: v in p.seeds ==> !Feasible(p, {v})
    ensures result.Planted? || result.NoFeasibleSeed? ==> budget.used <= old(budget.used) + |p.seeds|
    ensures codes != {} ==> old(budget.used) + |p.seeds| > budget.maximum
  {
    hide Explored, Tracked, Level, Feasible, IsState, SeedsBuilt, Has, Injective, ValidProblem;
    codes, built := {}, {};
    var frontier, seen, best := [], {}, State(Plan([], [], [], [], [], [], [], [], [], {}, false, 0, false, 0, 0), {},
                                              0);
    var hasBest := false;
    NothingBuilt(p, hash);
    for i := 0 to |p.seeds|
      invariant budget.Valid() && codes == {} && budget.used == old(budget.used) + i
      invariant Explored(p, hash, built) && SeedsBuilt(p, built, p.seeds[..i])
      invariant hasBest ==> Tracked(built, seen, best) && Level(built, frontier, 1)
      invariant !hasBest ==> built == {}
    {
      var ok := budget.Consume(1);
      if !ok {
        codes := {WorkBudgetExhausted};
        break;
      }
      var v := p.seeds[i];
      SeedKnown(p, i);
      assert p.seeds[..i + 1] == p.seeds[..i] + [v];
      ghost var before := built;
      var r := BuildSearchState(p, hash, {v}, budget);
      SeedAcyclic(p, v);
      if r.Cancelled? || r.WorkLimit? || r.Cycle? || r.Invalid? {
        return SeedsCancelled, codes, built;
      }
      if r.Built? {
        var s := r.state;
        SeedExplored(p, hash, built, v, s);
        SeedNew(p, built, i);
        if hasBest {
          SeedUnseen(p, hash, built, seen, best, s);
          seen, frontier, best, built := Keep(s, seen, frontier, best, built, 1);
        } else {
          FirstTracked(s);
          frontier, seen, best, hasBest, built := [s], {s.hash}, s, true, {s};
          assert before + {s} == built;
        }
        SeedHas(built, s);
      }
      SeedsBuiltNext(p, before, built, p.seeds[..i], v);
    }
    assert p.seeds[..|p.seeds|] == p.seeds;
    if !hasBest {
      NoSeedBuilt(p, p.seeds);
      return NoFeasibleSeed, codes, built;
    }
    return Planted(frontier, seen, best), codes, built;
  }

  /** No state built from earlier seeds has the next seed's node. */
  lemma {:induction false} SeedNew(p: Problem, built: set<State>, i: nat)
    requires ValidProblem(p) && i < |p.seeds| && SeedsBuilt(p, built, p.seeds[..i])
    ensures forall t :: t in built ==> t.nodes != {p.seeds[i]}
  {
    hide Feasible, ValidProblem;
    SeedKnown(p, i);
    forall t | t in built
      ensures t.nodes != {p.seeds[i]}
    {
      var x :| x in p.seeds[..i] && t.nodes == {x};
      assert x in t.nodes;
    }
  }

  lemma {:induction false} SeedHas(built: set<State>, s: State)
    ensures s in built ==> Has(built, s.nodes)
  {
  }

  lemma {:induction false} NoSeedBuilt(p: Problem, seeds: seq<Id>)
    ensures SeedsBuilt(p, {}, seeds) ==> forall v :: v in seeds ==> !Feasible(p, {v})
  {
    hide Feasible;
  }

  lemma {:induction false} NothingBuilt(p: Problem, hash: Plan -> Id)
    requires ValidProblem(p)
    ensures Explored(p, hash, {}) && SeedsBuilt(p, {}, [])
  {
  }

  lemma {:induction false} SeedKnown(p: Problem, i: nat)
    requires ValidProblem(p) && i < |p.seeds|
    ensures p.seeds[i] in p.byVersion
    ensures forall k :: 0 <= k < i ==> p.seeds[k] != p.seeds[i]
  {
    assert p.seeds[i] in Elements(p.seeds);
  }

  lemma {:induction false} SeedAcyclic(p: Problem, v: Id)
    requires ValidProblem(p)
    ensures ChosenArcs(p, {v}) == [] && !Cyclic({v}, ChosenArcs(p, {v}))
  {
    NoEdgeInside(p.edges, {v});
    var arcs := ChosenArcs(p, {v});
    forall w | |w| >= 2
      ensures !IsWalk(w, {v}, arcs)
    {
      assert Arc(w[0], w[1]) !in arcs;
    }
  }

  // ----- the search

  datatype PlanResult = Planned(plan: Plan) | NoPlan | PlanCancelled

  /** No limit other than the depth has cut the search short. */
  predicate Unlimited(codes: set<LimitCode>)
  {
    codes <= {DepthExhausted}
  }

  /** Every reachable set of at most this size has been built. */
  ghost predicate Exhausted(p: Problem, built: set<State>, size: nat)
  {
    forall chosen {:trigger Reachable(p, chosen)} :: Reachable(p, chosen) && |chosen| <= size ==> Has(built, chosen)
  }

  lemma {:induction false} SeedsExhaust(p: Problem, built: set<State>)
    requires ValidProblem(p) && SeedsBuilt(p, built, p.seeds)
    ensures Exhausted(p, built, 1)
  {
    forall chosen | Reachable(p, chosen) && |chosen| <= 1
      ensures Has(built, chosen)
    {
      ReachableShape(p, chosen);
      SizeOne(p, chosen);
      var v :| v in chosen && v in p.byVersion && p.byVersion[v].seed && chosen == {v};
      assert v in Elements(p.seeds);
    }
  }

  /** Growing every state of one size exhausts the next. */
  lemma {:induction false} LevelExhausts(p: Problem, before: set<State>, built: set<State>, frontier: seq<State>,
                                         size: nat)
    requires size >= 1 && before <= built && Exhausted(p, before, size)
    requires forall s :: s in before && |s.nodes| == size ==> s in frontier
    requires forall s :: s in frontier ==> Grown(p, built, s.nodes)
    ensures Exhausted(p, built, size + 1)
  {
    hide Feasible;
    forall chosen | Reachable(p, chosen) && |chosen| <= size + 1
      ensures Has(built, chosen)
    {
      if |chosen| <= size {
        HasGrows(before, built, chosen);
      } else {
        GrownFromLevel(p, before, built, frontier, size, chosen);
      }
    }
  }

  lemma {:induction false} GrownFromLevel(p: Problem, before: set<State>, built: set<State>, frontier: seq<State>,
                                          size: nat, chosen: set<Id>)
    requires size >= 1 && Exhausted(p, before, size) && Reachable(p, chosen) && |chosen| == size + 1
    requires forall s :: s in before && |s.nodes| == size ==> s in frontier
    requires forall s :: s in frontier ==> Grown(p, built, s.nodes)
    ensures Has(built, chosen)
  {
    hide Feasible, Extends, Reachable;
    var v := LastExtended(p, chosen);
    var rest := chosen - {v};
    assert Has(before, rest);
    var s :| s in before && s.nodes == rest;
    assert Grown(p, built, rest);
    assert rest + {v} == chosen;
  }

  lemma {:induction false} LastExtended(p: Problem, chosen: set<Id>) returns (v: Id)
    requires Reachable(p, chosen) && |chosen| >= 2
    ensures v in chosen && Extends(p, chosen - {v}, v) && Reachable(p, chosen - {v}) && Feasible(p, chosen)
  {
    hide Feasible, Extends;
    assert IsSeedSet(p, chosen) ==> |chosen| == 1;
    v :| v in chosen && Extends(p, chosen - {v}, v) && Reachable(p, chosen - {v});
  }

  lemma {:induction false} EmptyLevelExhausts(p: Problem, built: set<State>, size: nat)
    requires size >= 1 && Exhausted(p, built, size) && forall s :: s in built ==> |s.nodes| != size
    ensures forall chosen :: Reachable(p, chosen) ==> Has(built, chosen)
  {
    forall chosen | Reachable(p, chosen)
      ensures |chosen| != size
    {
      if |chosen| <= size {
        assert Has(built, chosen);
      }
    }
    forall chosen | Reachable(p, chosen)
      ensures Has(built, chosen)
    {
      if |chosen| > size {
        NoneLarger(p, size, chosen);
      }
    }
  }

  lemma {:induction false} BetterFields(s: State, t: State)
    ensures Better(s, t) ==> NotOutdone(s.plan, t.plan)
  {
    if Better(s, t) {
      AtLeastMeans(s, t);
    }
  }

  /** A level has no more states than there are sets of its size. */
  lemma {:induction false} LevelSize(p: Problem, hash: Plan -> Id, built: set<State>, level: seq<State>, size: nat)
    requires ValidProblem(p) && Explored(p, hash, built) && Level(built, level, size)
    ensures |level| <= Choose(|p.byVersion|, size)
  {
    hide Feasible, Reachable, IsPlan, Choose;
    forall i, j | 0 <= i < j < |level|
      ensures level[i].nodes != level[j].nodes
    {
      assert level[i] in level && level[j] in level;
      if level[i].nodes == level[j].nodes {
        StateUnique(p, hash, level[i], level[j]);
      }
    }
    var family := FamilyOf(level);
    forall x | x in family
      ensures x <= p.byVersion.Keys && |x| == size
    {
      var s :| s in level && s.nodes == x;
      StateFacts(p, hash, built, s);
    }
    SubsetsCounted(p.byVersion.Keys, size, family);
    FamilyCounted(level);
  }

  ghost function FamilyOf(level: seq<State>): (family: set<set<Id>>)
  {
    set s | s in level :: s.nodes
  }

  lemma {:induction false} FamilyCounted(level: seq<State>)
    requires forall i, j :: 0 <= i < j < |level| ==> level[i].nodes != level[j].nodes
    ensures |FamilyOf(level)| == |level|
  {
    if level != [] {
      var n := |level| - 1;
      var last := level[n];
      FamilyCounted(level[..n]);
      assert level == level[..n] + [last];
      assert FamilyOf(level) == FamilyOf(level[..n]) + {last.nodes};
      assert last.nodes !in FamilyOf(level[..n]);
    }
  }

  /** Sorts a level by preference and keeps the beam. */
  method Truncate(p: Problem, ghost hash: Plan -> Id, level: seq<State>, ghost built: set<State>, ghost size: nat)
    returns (kept: seq<State>, truncated: bool)
    requires ValidProblem(p) && Injective(hash) && Explored(p, hash, built) && Level(built, level, size)
    ensures forall s :: s in kept ==> s in built && |s.nodes| == size
    ensures !truncated ==> forall s :: s in built && |s.nodes| == size ==> s in kept
    ensures truncated <==> |level| > p.manifest.beamWidth
    ensures |kept| <= p.manifest.beamWidth && |kept| <= |level| && SortedBy(Better, kept)
    ensures forall s, t :: s in kept && t in level && t !in kept ==> Better(s, t) && NotOutdone(s.plan, t.plan)
  {
    hide IsState, Reachable, Feasible, ValidProblem, Better;
    StatesOrdered(p, hash, Elements(level));
    var sorted := SortBy(Better, level);
    assert forall s :: s in sorted <==> s in Elements(sorted);
    assert forall s :: s in level <==> s in Elements(level);
    truncated := |level| > p.manifest.beamWidth;
    kept := if truncated then sorted[..p.manifest.beamWidth] else sorted;
    hide NotOutdone;
    forall s, t | s in kept && t in level && t !in kept
      ensures Better(s, t) && NotOutdone(s.plan, t.plan)
    {
      BetterFields(s, t);
    }
  }

  /** Where the search stands when it comes to a depth: what is built has at most that size, the
      frontier is some of its largest states, and all of them unless a limit was hit. */
  ghost predicate AtDepth(p: Problem, hash: Plan -> Id, built: set<State>, seen: set<Id>, top: State,
                          frontier: seq<State>, depth: nat, codes: set<LimitCode>)
    requires ValidProblem(p)
  {
    && 1 <= depth <= p.manifest.maximumDepth
    && Explored(p, hash, built) && Tracked(built, seen, top)
    && DepthExhausted !in codes && WorkBudgetExhausted !in codes
    && (forall s :: s in built ==> |s.nodes| <= depth)
    && (forall s :: s in frontier ==> s in built && |s.nodes| == depth)
    && (Unlimited(codes) ==>
          Exhausted(p, built, depth) && forall s :: s in built && |s.nodes| == depth ==> s in frontier)
  }

  /** One round of the search: expands the frontier, sorts the next level and keeps the beam. */
  method Deepen(p: Problem, hash: Plan -> Id, frontier0: seq<State>, depth: nat, budget: WorkBudget, expansions0: nat,
                codes0: set<LimitCode>, seen0: set<Id>, top0: State, ghost built0: set<State>, ghost start: nat)
    returns (step: Step, frontier: seq<State>, expansions: nat, codes: set<LimitCode>,
             seen: set<Id>, top: State, ghost built: set<State>)
    requires ValidProblem(p) && Injective(hash) && budget.Valid() && depth < p.manifest.maximumDepth
    requires AtDepth(p, hash, built0, seen0, top0, frontier0, depth, codes0)
    requires Accounted(p, start, budget.maximum, depth, |frontier0|, expansions0, budget.used, codes0)
    modifies budget
    ensures budget.Valid()
    ensures built0 <= built && Explored(p, hash, built) && Tracked(built, seen, top)
            && (forall s :: s in built ==> |s.nodes| <= depth + 1)
    ensures step.Continue? ==>
              && AtDepth(p, hash, built, seen, top, frontier, depth + 1, codes)
              && Accounted(p, start, budget.maximum, depth + 1, |frontier|, expansions, budget.used, codes)
    ensures step.WorkExhausted? ==> !Roomy(p, start, budget.maximum) && DepthExhausted !in codes
  {
    hide IsState, Reachable, Feasible, Better, AtLeast, Grown, Has, Explored, Tracked, Exhausted, Roomy, Accounted,
         Costs, Choose, Product, Room, Injective, ValidProblem;
    ghost var spent := budget.used;
    var next;
    frontier := [];
    step, expansions, codes, seen, next, top, built :=
      ExpandFrontier(p, hash, frontier0, budget, expansions0, codes0, seen0, top0, built0, depth);
    LevelBounds(built, next, depth + 1);
    if step.WorkExhausted? {
      ShortOf(p, start, budget.maximum, depth, |frontier0|, expansions0, spent, codes0, expansions, budget.used);
    }
    if !step.Continue? {
      return;
    }
    if Unlimited(codes) {
      LevelExhausts(p, built0, built, frontier0, depth);
    }
    LevelSize(p, hash, built, next, depth + 1);
    var truncated;
    frontier, truncated := Truncate(p, hash, next, built, depth + 1);
    if truncated {
      codes := codes + {BeamTruncated};
    }
    Reached(p, start, budget.maximum, depth, |frontier0|, expansions0, spent, codes0, expansions, budget.used, |next|,
            |frontier|, codes);
  }

  lemma {:induction false} LevelBounds(built: set<State>, level: seq<State>, size: nat)
    requires Level(built, level, size)
    ensures forall s :: s in built ==> |s.nodes| <= size
  {
  }

  /** The seeds' level, sorted and cut to the beam. */
  method Start(p: Problem, hash: Plan -> Id, level: seq<State>, codes0: set<LimitCode>, seen: set<Id>, top: State,
               ghost built: set<State>, ghost start: nat, ghost used: nat, ghost maximum: nat)
    returns (frontier: seq<State>, codes: set<LimitCode>)
    requires ValidProblem(p) && Injective(hash) && Explored(p, hash, built) && Tracked(built, seen, top)
    requires Level(built, level, 1) && (codes0 == {} || codes0 == {WorkBudgetExhausted})
    requires codes0 == {} ==> SeedsBuilt(p, built, p.seeds)
    requires used <= start + |p.seeds| && (codes0 != {} ==> start + |p.seeds| > maximum)
    ensures codes == codes0 || codes == codes0 + {BeamTruncated}
    ensures codes0 == {} ==> AtDepth(p, hash, built, seen, top, frontier, 1, codes)
    ensures Accounted(p, start, maximum, 1, |frontier|, 0, used, codes)
    ensures forall s :: s in built ==> |s.nodes| <= 1
  {
    hide IsState, Reachable, Feasible, Better, AtLeast, Has, Explored, Tracked, SeedsBuilt, Roomy, Accounted, Choose,
         Injective, Exhausted;
    codes := codes0;
    if codes0 == {} {
      SeedsExhaust(p, built);
    }
    LevelBounds(built, level, 1);
    LevelSize(p, hash, built, level, 1);
    var truncated;
    frontier, truncated := Truncate(p, hash, level, built, 1);
    if truncated {
      codes := codes + {BeamTruncated};
    }
    FirstLevel(p, start, maximum, |level|, |frontier|, used, codes);
  }

  /** The rounds of the search, level by level, until a limit or an empty level. */
  method SearchDown(p: Problem, hash: Plan -> Id, frontier0: seq<State>, budget: WorkBudget, codes0: set<LimitCode>,
                    seen0: set<Id>, top0: State, ghost built0: set<State>, ghost start: nat)
    returns (step: Step, frontier: seq<State>, expansions: nat, codes: set<LimitCode>,
             seen: set<Id>, top: State, ghost built: set<State>)
    requires ValidProblem(p) && Injective(hash) && budget.Valid()
    requires AtDepth(p, hash, built0, seen0, top0, frontier0, 1, codes0)
    requires Accounted(p, start, budget.maximum, 1, |frontier0|, 0, budget.used, codes0)
    modifies budget
    ensures budget.Valid() && (step.WorkExhausted? ==> WorkBudgetExhausted in codes)
    ensures !step.StepCancelled? ==>
              && Explored(p, hash, built) && Tracked(built, seen, top)
              && (forall s :: s in built ==> |s.nodes| <= p.manifest.maximumDepth)
              && DepthExhausted !in codes
              && (expansions >= p.manifest.maximumExpansions && step.Continue? ==> ExpansionBudgetExhausted in codes)
              && (Roomy(p, start, budget.maximum) ==> codes == {})
              && (Unlimited(codes) ==> Exhausted(p, built, p.manifest.maximumDepth))
              && (Unlimited(codes) && |frontier| == 0 ==> forall chosen :: Reachable(p, chosen) ==> Has(built, chosen))
  {
    hide IsState, Reachable, Feasible, Better, AtLeast, Has, Explored, Roomy, Accounted, Injective, Exhausted, Tracked,
         ValidProblem;
    step, frontier, expansions, codes, seen, top, built := Continue, frontier0, 0, codes0, seen0, top0, built0;
    var depth: nat := 1;
    RoomNow(p, start, budget.maximum, depth, |frontier|, expansions, budget.used, codes);
    while depth < p.manifest.maximumDepth && |frontier| > 0
      invariant budget.Valid() && step.Continue?
      invariant AtDepth(p, hash, built, seen, top, frontier, depth, codes)
      invariant Accounted(p, start, budget.maximum, depth, |frontier|, expansions, budget.used, codes)
      invariant expansions >= p.manifest.maximumExpansions ==> ExpansionBudgetExhausted in codes
      invariant Roomy(p, start, budget.maximum) ==> codes == {}
    {
      if * {
        step := StepCancelled;
        return;
      }
      step, frontier, expansions, codes, seen, top, built :=
        Deepen(p, hash, frontier, depth, budget, expansions, codes, seen, top, built, start);
      if step.StepCancelled? {
        return;
      }
      if step.WorkExhausted? {
        codes := codes + {WorkBudgetExhausted};
        return;
      }
      depth := depth + 1;
      RoomNow(p, start, budget.maximum, depth, |frontier|, expansions, budget.used, codes);
      if expansions >= p.manifest.maximumExpansions {
        codes := codes + {ExpansionBudgetExhausted};
        break;
      }
    }
    if Unlimited(codes) && |frontier| == 0 {
      EmptyLevelExhausts(p, built, depth);
      AllExhaust(p, built, p.manifest.maximumDepth);
    }
  }

  lemma {:induction false} RoomNow(p: Problem, start: nat, maximum: nat, depth: nat, width: nat, expansions: nat,
                                   used: nat, codes: set<LimitCode>)
    requires ValidProblem(p) && depth <= p.manifest.maximumDepth
    requires Accounted(p, start, maximum, depth, width, expansions, used, codes)
    ensures p.manifest.maximumExpansions > 0
    ensures Roomy(p, start, maximum) ==> codes == {} && expansions < p.manifest.maximumExpansions
  {
    ExpansionsLeft(p, start, maximum, depth, width, expansions, used, codes);
  }

  lemma {:induction false} RoomAtStart(p: Problem, start: nat, maximum: nat, width: nat, used: nat,
                                       codes: set<LimitCode>)
    requires Accounted(p, start, maximum, 1, width, 0, used, codes)
    ensures Roomy(p, start, maximum) ==> codes == {}
  {
  }

  /** PlanProcedures on a validated request. Whatever the budgets and whenever it is
      cancelled, the plan returned is the plan of a reachable set and the best of all
      states built; unless the beam, expansion or work limit is reported, it is the best
      of all reachable sets up to the depth limit, and an incomplete plan with no limit
      code at all is the best of all reachable sets. Limits with room for all the sets of
      candidates within the depth are never reported. */
  method PlanProcedures(p: Problem, hash: Plan -> Id, budget: WorkBudget)
    returns (result: PlanResult, ghost best: State, ghost built: set<State>)
    requires ValidProblem(p) && Injective(hash) && budget.Valid()
    modifies budget
    ensures budget.Valid()
    ensures result.Planned? ==>
              && Explored(p, hash, built) && best in built && (forall s :: s in built ==> AtLeast(best, s))
              && result.plan == best.plan.(limitCodes := result.plan.limitCodes)
              && |best.nodes| <= p.manifest.maximumDepth
              && (forall s :: s in built ==> NotOutdone(result.plan, s.plan))
    ensures result.Planned? && Unlimited(result.plan.limitCodes) ==> Exhausted(p, built, p.manifest.maximumDepth)
    ensures result.Planned? && result.plan.limitCodes == {} && !result.plan.complete ==>
              forall chosen :: Reachable(p, chosen) ==> Has(built, chosen)
    ensures result.Planned? && Roomy(p, old(budget.used), budget.maximum) ==> Unlimited(result.plan.limitCodes)
    ensures result.Planned? && DepthExhausted in result.plan.limitCodes ==> !result.plan.complete
    ensures result.NoPlan? && Roomy(p, old(budget.used), budget.maximum) ==>
              forall v :: v in p.seeds ==> !Feasible(p, {v})
  {
    assert p.manifest.maximumDepth >= 1;
    hide IsState, Reachable, Feasible, Better, AtLeast, SeedsBuilt, Grown, Has, Explored, Roomy, Accounted, Level,
         Injective, Exhausted, Tracked, ValidProblem, NotOutdone;
    ghost var start, maximum := budget.used, budget.maximum;
    var planted, codes;
    planted, codes, built := PlantSeeds(p, hash, budget);
    best := State(Plan([], [], [], [], [], [], [], [], [], {}, false, 0, false, 0, 0), {}, 0);
    RoomForSeeds(p, start, maximum);
    if !planted.Planted? {
      return if planted.NoFeasibleSeed? then NoPlan else PlanCancelled, best, built;
    }
    var seen, top := planted.seen, planted.best;
    var workExhausted := WorkBudgetExhausted in codes;
    var frontier;
    frontier, codes := Start(p, hash, planted.frontier, codes, seen, top, built, start, budget.used, maximum);
    var expansions: nat := 0;
    RoomAtStart(p, start, maximum, |frontier|, budget.used, codes);
    if !workExhausted {
      var step;
      step, frontier, expansions, codes, seen, top, built :=
        SearchDown(p, hash, frontier, budget, codes, seen, top, built, start);
      if step.StepCancelled? {
        return PlanCancelled, best, built;
      }
      workExhausted := WorkBudgetExhausted in codes;
    }
    if |frontier| > 0 && !top.plan.complete && !workExhausted && expansions < p.manifest.maximumExpansions {
      codes := codes + {DepthExhausted};
    }
    if * {
      return PlanCancelled, best, built;
    }
    TopIsBest(built, seen, top);
    best := top;
    return Planned(top.plan.(limitCodes := codes)), best, built;
  }

  lemma {:induction false} TopIsBest(built: set<State>, seen: set<Id>, top: State)
    requires Tracked(built, seen, top)
    ensures top in built && forall s :: s in built ==> AtLeast(top, s)
    ensures forall codes, s :: s in built ==> NotOutdone(top.plan.(limitCodes := codes), s.plan)
  {
    forall codes, s | s in built
      ensures NotOutdone(top.plan.(limitCodes := codes), s.plan)
    {
      AtLeastMeans(top, s);
      CodesAside(top.plan, codes, s.plan);
    }
  }

  lemma {:induction false} CodesAside(plan: Plan, codes: set<LimitCode>, other: Plan)
    requires NotOutdone(plan, other)
    ensures NotOutdone(plan.(limitCodes := codes), other)
  {
  }

  lemma {:induction false} RoomForSeeds(p: Problem, start: nat, maximum: nat)
    ensures Roomy(p, start, maximum) ==> start + |p.seeds| <= maximum
  {
  }

  lemma {:induction false} ShortOf(p: Problem, start: nat, maximum: nat, depth: nat, width: nat, expansions: nat,
                                   used: nat, codes: set<LimitCode>, more: nat, spent: nat)
    requires Accounted(p, start, maximum, depth, width, expansions, used, codes) && 1 <= depth < p.manifest.maximumDepth
    requires expansions <= more <= expansions + Product(width, Room(|p.byVersion|, depth))
    requires Costs(p, used, spent, maximum, width + (more - expansions), true)
    ensures !Roomy(p, start, maximum)
  {
    hide Accounted, Roomy, Product, Room;
    NeverShort(p, start, maximum, depth, width, expansions, used, codes, more);
  }

  lemma {:induction false} Reached(p: Problem, start: nat, maximum: nat, depth: nat, width: nat, expansions: nat,
                                   used: nat, codes: set<LimitCode>, more: nat, spent: nat, level: nat, kept: nat,
                                   after: set<LimitCode>)
    requires Accounted(p, start, maximum, depth, width, expansions, used, codes) && 1 <= depth < p.manifest.maximumDepth
    requires expansions <= more <= expansions + Product(width, Room(|p.byVersion|, depth))
    requires Costs(p, used, spent, maximum, width + (more - expansions), false)
    requires kept <= level <= Choose(|p.byVersion|, depth + 1)
    requires after != codes ==> more >= p.manifest.maximumExpansions || level > p.manifest.beamWidth
    ensures Accounted(p, start, maximum, depth + 1, kept, more, spent, after)
  {
    hide Accounted, Product, Room, Choose;
    NextLevel(p, start, maximum, depth, width, expansions, used, codes, more, spent, level, kept, after);
  }

  lemma {:induction false} AllExhaust(p: Problem, built: set<State>, size: nat)
    requires forall chosen :: Reachable(p, chosen) ==> Has(built, chosen)
    ensures Exhausted(p, built, size)
  {
  }

  /** What exhaustion means for the answer: it is at least as good as the state of any
      reachable set, however that state came about. */
  lemma {:induction false} BestIsOptimal(p: Problem, hash: Plan -> Id, built: set<State>, best: State, size: nat,
                                         other: State)
    requires ValidProblem(p) && Explored(p, hash, built) && Exhausted(p, built, size)
    requires forall s :: s in built ==> AtLeast(best, s)
    requires IsState(p, hash, other) && Reachable(p, other.nodes) && |other.nodes| <= size
    ensures AtLeast(best, other) && NotOutdone(best.plan, other.plan)
  {
    hide Feasible, Reachable, IsPlan, NotOutdone;
    assert Has(built, other.nodes);
    var s :| s in built && s.nodes == other.nodes;
    StateUnique(p, hash, s, other);
    AtLeastMeans(best, other);
  }

  /** What every returned plan satisfies, limits or not. */
  lemma {:induction false} PlanWithinLimits(p: Problem, hash: Plan -> Id, built: set<State>, best: State)
    requires ValidProblem(p) && Explored(p, hash, built) && best in built
    ensures HasSeed(p, best.nodes) && WeaklyConnected(p, best.nodes)
    ensures |best.plan.nodes| == |best.nodes| <= p.manifest.maximumProcedures
    ensures best.plan.toolCost <= p.manifest.maximumToolCost
    ensures |set i | 0 <= i < |best.plan.nodes| && best.plan.nodes[i].bridge| <= p.manifest.maximumBridges
    ensures IsTopological(OrderOf(p, best.nodes), best.nodes, ChosenArcs(p, best.nodes))
    ensures forall i :: 0 <= i < |best.plan.nodes| ==>
              best.plan.nodes[i].ordinal == i && best.plan.nodes[i].version == OrderOf(p, best.nodes)[i]
  {
    ReachableShape(p, best.nodes);
    OrderHolds(p, best.nodes);
    BridgesCounted(p, OrderOf(p, best.nodes));
  }

  lemma {:induction false} NodesExtend(p: Problem, order: seq<Id>)
    requires order != [] && Elements(order) <= p.byVersion.Keys
    ensures order[|order| - 1] in p.byVersion
    ensures NodesOf(p, order)
            == NodesOf(p, Init(order)) + [PlanNode(|order| - 1, order[|order| - 1],
                                                   !p.byVersion[order[|order| - 1]].seed)]
  {
    assert order[|order| - 1] in Elements(order);
  }

  lemma {:induction false} BridgesCounted(p: Problem, order: seq<Id>)
    requires Elements(order) <= p.byVersion.Keys
    ensures |set i | 0 <= i < |NodesOf(p, order)| && NodesOf(p, order)[i].bridge| == BridgeCount(p, order)
  {
    var bridges := set i | 0 <= i < |NodesOf(p, order)| && NodesOf(p, order)[i].bridge;
    if order == [] {
      assert bridges == {};
    } else {
      var init := Init(order);
      var fewer := set i | 0 <= i < |NodesOf(p, init)| && NodesOf(p, init)[i].bridge;
      BridgesCounted(p, init);
      var last := |order| - 1;
      assert order[last] in Elements(order);
      NodesExtend(p, order);
      hide NodesOf;
      assert bridges == fewer + (if p.byVersion[order[last]].seed then {} else {last});
    }
  }
}
