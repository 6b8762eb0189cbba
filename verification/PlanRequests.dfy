/** validatePlanInputs: from a raw request to a planning problem. */
module PlanRequests {
  import opened Identifiers
  import opened Budgets
  import opened Compatibility
  import opened Planning

  const MAXIMUM_GRAPH_EDGES := 100000

  datatype Request = Request(edges: seq<Edge>, goals: seq<Id>, satisfied: seq<Id>, candidates: seq<PlannerCandidate>)

  datatype InputResult = Accepted(problem: Problem) | Rejected | InputWorkLimit | InputCancelled

  /** A list of identifiers the request may carry: none empty, none twice. */
  predicate CleanIds(ids: seq<Id>)
  {
    NoDuplicates(ids) && EMPTY !in ids
  }

  predicate CleanCandidate(c: PlannerCandidate)
  {
    && c.contract.version != EMPTY && c.evidence <= MAX_INT64 && c.toolCost > 0
    && ValidInterface(c.contract) && CleanIds(c.goals) && CleanFacts(c.facts)
  }

  predicate CleanFacts(f: ParallelFacts)
  {
    CleanIds(f.readIds) && CleanIds(f.writeIds) && CleanIds(f.exclusiveIds) && CleanIds(f.mutexKeys)
  }

  function GoalTotal(candidates: seq<PlannerCandidate>): (n: nat)
  {
    if candidates == [] then 0 else GoalTotal(candidates[..|candidates| - 1]) + |candidates[|candidates| - 1].goals|
  }

  function EntryTotal(candidates: seq<PlannerCandidate>): (n: nat)
  {
    if candidates == [] then 0
       else EntryTotal(candidates[..|candidates| - 1]) + Entries(candidates[|candidates| - 1].facts)
  }

  /** What the candidate loop charges: normalizing and hashing each pass over goals and entries. */
  function CandidateCharge(candidates: seq<PlannerCandidate>): (n: nat)
  {
    2 * (GoalTotal(candidates) + EntryTotal(candidates)) + |candidates|
  }

  /** What validation charges in all, with three passes over the graph's edges. */
  function InputCharge(r: Request): (n: nat)
  {
    3 * |r.edges| + 1 + CandidateCharge(r.candidates)
  }

  /** The limits on goals and parallel entries, for each candidate and for all together. */
  predicate WithinCandidateLimits(m: Manifest, candidates: seq<PlannerCandidate>)
  {
    && (forall c :: c in candidates ==> |c.goals| <= m.maximumGoals && Entries(c.facts) <= m.maximumEntries)
    && GoalTotal(candidates) <= m.maximumTotalGoals && EntryTotal(candidates) <= m.maximumTotalEntries
  }

  lemma {:induction false} TotalsGrow(candidates: seq<PlannerCandidate>, i: nat)
    requires i <= |candidates|
    ensures GoalTotal(candidates[..i]) <= GoalTotal(candidates) && EntryTotal(candidates[..i]) <= EntryTotal(candidates)
    ensures i < |candidates| ==> GoalTotal(candidates[..i + 1]) == GoalTotal(candidates[..i]) + |candidates[i].goals|
    ensures i < |candidates| ==>
            EntryTotal(candidates[..i + 1]) == EntryTotal(candidates[..i]) + Entries(candidates[i].facts)
    decreases |candidates| - i
  {
    if i < |candidates| {
      TotalsGrow(candidates, i + 1);
      assert candidates[..i + 1][..i] == candidates[..i];
    } else {
      assert candidates[..i] == candidates;
    }
  }

  /** Sorted, with the same entries. */
  predicate Sorts(source: seq<Id>, sorted: seq<Id>)
  {
    StrictlySorted(sorted) && Elements(sorted) == Elements(source)
  }

  predicate Normalizes(f: ParallelFacts, n: ParallelFacts)
  {
    && Sorts(f.readIds, n.readIds) && Sorts(f.writeIds, n.writeIds) && Sorts(f.exclusiveIds, n.exclusiveIds)
    && Sorts(f.mutexKeys, n.mutexKeys)
    && n.compensationBoundary == f.compensationBoundary && n.policySerial == f.policySerial
  }

  /** Facts have one normal form. */
  lemma {:induction false} NormalizesUnique(f: ParallelFacts, a: ParallelFacts, b: ParallelFacts)
    requires Normalizes(f, a) && Normalizes(f, b)
    ensures a == b
  {
    hide StrictlySorted, Elements;
    SortedUnique(a.readIds, b.readIds);
    SortedUnique(a.writeIds, b.writeIds);
    SortedUnique(a.exclusiveIds, b.exclusiveIds);
    SortedUnique(a.mutexKeys, b.mutexKeys);
  }

  /** normalizedParallelism. */
  method NormalizedFacts(f: ParallelFacts) returns (n: ParallelFacts, ok: bool)
    ensures ok <==> CleanFacts(f)
    ensures ok ==> Normalizes(f, n)
  {
    hide CleanIds, StrictlySorted, Elements;
    n := f;
    var readIds, writeIds, exclusiveIds, mutexKeys;
    readIds, ok := NormalizedIds(f.readIds);
    if !ok {
      return;
    }
    writeIds, ok := NormalizedIds(f.writeIds);
    if !ok {
      return;
    }
    exclusiveIds, ok := NormalizedIds(f.exclusiveIds);
    if !ok {
      return;
    }
    mutexKeys, ok := NormalizedIds(f.mutexKeys);
    if !ok {
      return;
    }
    n := ParallelFacts(readIds, writeIds, exclusiveIds, mutexKeys, f.compensationBoundary, f.policySerial);
  }

  predicate DistinctVersions(candidates: seq<PlannerCandidate>)
  {
    forall i, j :: 0 <= i < j < |candidates| ==> candidates[i].contract.version != candidates[j].contract.version
  }

  function VersionSet(candidates: seq<PlannerCandidate>): (versions: set<Id>)
  {
    set c | c in candidates :: c.contract.version
  }

  predicate KnownEnds(edges: seq<Edge>, versions: set<Id>)
  {
    forall e :: e in edges ==> e.source in versions && e.target in versions
  }

  /** What a request must satisfy to be planned at all. */
  predicate WellFormed(m: Manifest, r: Request)
  {
    && ValidManifest(m) && |r.edges| <= MAXIMUM_GRAPH_EDGES && ValidEdges(r.edges)
    && 0 < |r.candidates| <= m.maximumCandidates && |r.goals| <= m.maximumGoals && |r.satisfied| <= m.maximumSatisfied
    && CleanIds(r.goals) && r.goals != [] && CleanIds(r.satisfied)
    && (forall c :: c in r.candidates ==> CleanCandidate(c)) && DistinctVersions(r.candidates)
    && WithinCandidateLimits(m, r.candidates)
    && (exists c :: c in r.candidates && c.seed)
    && KnownEnds(r.edges, VersionSet(r.candidates))
  }

  /** A candidate as the planner keeps it: the same but for the order of its parallel entries. */
  predicate Keeps(c: PlannerCandidate, kept: PlannerCandidate)
  {
    kept == c.(facts := kept.facts) && Normalizes(c.facts, kept.facts)
  }

  /** The problem describes the request: same graph, same ids, one entry per candidate. */
  predicate Describes(p: Problem, m: Manifest, r: Request)
  {
    && p.manifest == m && p.edges == r.edges
    && Elements(p.goals) == Elements(r.goals) && Elements(p.satisfied) == Elements(r.satisfied)
    && (forall c :: c in r.candidates ==>
            c.contract.version in p.byVersion && Keeps(c, p.byVersion[c.contract.version]))
    && p.byVersion.Keys == VersionSet(r.candidates)
  }

  /** A request describes one problem. */
  lemma {:induction false} DescribesUnique(p: Problem, q: Problem, m: Manifest, r: Request)
    requires ValidProblem(p) && ValidProblem(q) && Describes(p, m, r) && Describes(q, m, r)
    ensures p == q
  {
    forall v | v in p.byVersion
      ensures p.byVersion[v] == q.byVersion[v]
    {
      KeptOnce(p, q, m, r, v);
    }
    assert p.byVersion == q.byVersion;
    SortedUnique(p.goals, q.goals);
    SortedUnique(p.satisfied, q.satisfied);
    SortedUnique(p.seeds, q.seeds);
  }

  lemma {:induction false} KeptOnce(p: Problem, q: Problem, m: Manifest, r: Request, v: Id)
    requires Describes(p, m, r) && Describes(q, m, r) && v in p.byVersion
    ensures v in q.byVersion && p.byVersion[v] == q.byVersion[v]
  {
    hide Normalizes;
    var c :| c in r.candidates && c.contract.version == v;
    assert Keeps(c, p.byVersion[v]) && Keeps(c, q.byVersion[v]);
    NormalizesUnique(c.facts, p.byVersion[v].facts, q.byVersion[v].facts);
  }

  /** normalizedIDs: trims to itself here, sorts, and refuses empties and repetitions. */
  method NormalizedIds(source: seq<Id>) returns (ids: seq<Id>, ok: bool)
    ensures ok <==> CleanIds(source)
    ensures ok ==> StrictlySorted(ids) && Elements(ids) == Elements(source) && |ids| == |source|
  {
    ids := [];
    for i := 0 to |source|
      invariant StrictlySorted(ids) && Elements(ids) == Elements(source[..i]) && |ids| == i
      invariant NoDuplicates(source[..i]) && EMPTY !in source[..i]
    {
      assert source[..i + 1] == source[..i] + [source[i]];
      ElementsAppend(source[..i], [source[i]]);
      if source[i] == EMPTY {
        return [], false;
      }
      if source[i] in ids {
        assert source[i] in Elements(ids);
        var k :| 0 <= k < i && source[..i][k] == source[i];
        assert source[k] == source[i];
        return [], false;
      }
      assert source[i] !in Elements(ids);
      var longer := InsertSorted(ids, source[i]);
      NoDuplicatesSize(ids);
      NoDuplicatesSize(longer);
      ids := longer;
    }
    assert source[..|source|] == source;
    ok := true;
  }

  /** The candidates indexed by version. */
  predicate IndexedByVersion(byVersion: map<Id, PlannerCandidate>, candidates: seq<PlannerCandidate>)
  {
    && (forall c :: c in candidates ==> c.contract.version in byVersion && Keeps(c, byVersion[c.contract.version]))
    && byVersion.Keys == VersionSet(candidates)
    && |byVersion| == |candidates|
  }

  lemma {:induction false} VersionSetNext(candidates: seq<PlannerCandidate>, c: PlannerCandidate)
    ensures VersionSet(candidates + [c]) == VersionSet(candidates) + {c.contract.version}
  {
    var longer := candidates + [c];
    assert forall x :: x in longer <==> x in candidates || x == c;
  }

  lemma {:induction false} IndexNext(byVersion: map<Id, PlannerCandidate>, candidates: seq<PlannerCandidate>,
                                     c: PlannerCandidate, kept: PlannerCandidate)
    requires IndexedByVersion(byVersion, candidates) && c.contract.version !in byVersion && Keeps(c, kept)
    ensures IndexedByVersion(byVersion[c.contract.version := kept], candidates + [c])
  {
    VersionSetNext(candidates, c);
    hide VersionSet, Keeps;
    var next := byVersion[c.contract.version := kept];
    assert next.Keys == byVersion.Keys + {c.contract.version};
    assert |next| == |next.Keys| && |byVersion| == |byVersion.Keys|;
    assert forall x :: x in candidates + [c] <==> x in candidates || x == c;
  }

  lemma {:induction false} VersionsDistinctNext(candidates: seq<PlannerCandidate>, i: nat)
    requires i < |candidates| && DistinctVersions(candidates[..i])
    ensures candidates[i].contract.version !in VersionSet(candidates[..i]) <==> DistinctVersions(candidates[..i + 1])
  {
    var prefix := candidates[..i + 1];
    assert prefix == candidates[..i] + [candidates[i]];
    if candidates[i].contract.version in VersionSet(candidates[..i]) {
      var c :| c in candidates[..i] && c.contract.version == candidates[i].contract.version;
      var k :| 0 <= k < i && candidates[..i][k] == c;
      assert prefix[k].contract.version == prefix[i].contract.version;
    } else {
      forall k | 0 <= k < i
        ensures prefix[k].contract.version != prefix[i].contract.version
      {
        assert prefix[k] == candidates[..i][k] && prefix[k] in candidates[..i];
      }
    }
  }

  datatype IndexResult = Index(byVersion: map<Id, PlannerCandidate>) | IndexRejected | IndexWorkLimit | IndexCancelled

  predicate Acceptable(m: Manifest, candidates: seq<PlannerCandidate>)
  {
    (forall c :: c in candidates ==> CleanCandidate(c)) && DistinctVersions(candidates)
      && WithinCandidateLimits(m, candidates)
  }

  /** The candidate loop: limits, charges, checks and indexes each candidate. */
  method IndexCandidates(m: Manifest, candidates: seq<PlannerCandidate>, budget: WorkBudget)
    returns (result: IndexResult)
    requires budget.Valid()
    modifies budget
    ensures budget.Valid()
    ensures result.Index? ==> IndexedByVersion(result.byVersion, candidates) && Acceptable(m, candidates)
    ensures result.IndexRejected? ==> !Acceptable(m, candidates)
    ensures result.Index? ==> budget.used == old(budget.used) + CandidateCharge(candidates)
    ensures result.IndexWorkLimit? ==> old(budget.used) + CandidateCharge(candidates) > budget.maximum
  {
    hide CleanCandidate, IndexedByVersion, DistinctVersions, VersionSet, GoalTotal, EntryTotal, Entries, Keeps,
         Normalizes, CleanFacts, CleanIds;
    var byVersion: map<Id, PlannerCandidate> := map[];
    var goals, entries := 0, 0;
    IndexNothing();
    for i := 0 to |candidates|
      invariant budget.Valid() && budget.used == old(budget.used) + 2 * (goals + entries) + i
      invariant IndexedByVersion(byVersion, candidates[..i]) && DistinctVersions(candidates[..i])
      invariant forall k :: 0 <= k < i ==> CleanCandidate(candidates[k])
      invariant forall k :: 0 <= k < i ==>
                    |candidates[k].goals| <= m.maximumGoals && Entries(candidates[k].facts) <= m.maximumEntries
      invariant goals == GoalTotal(candidates[..i]) <= m.maximumTotalGoals
                && entries == EntryTotal(candidates[..i]) <= m.maximumTotalEntries
    {
      if i % 256 == 0 {
        if * {
          return IndexCancelled;
        }
      }
      var c := candidates[i];
      assert c in candidates;
      TotalsGrow(candidates, i);
      TotalsGrow(candidates, i + 1);
      if |c.goals| > m.maximumGoals || goals + |c.goals| > m.maximumTotalGoals {
        return IndexRejected;
      }
      goals := goals + |c.goals|;
      if Entries(c.facts) > m.maximumEntries || entries + Entries(c.facts) > m.maximumTotalEntries {
        return IndexRejected;
      }
      entries := entries + Entries(c.facts);
      var ok := budget.Consume((|c.goals| + Entries(c.facts)) * 2 + 1);
      if !ok {
        return IndexWorkLimit;
      }
      var facts;
      facts, ok := NormalizedFacts(c.facts);
      CleanMeans(c);
      if !ok || !CleanCandidate(c) || c.contract.version in byVersion {
        IndexRepeated(byVersion, candidates, i);
        return IndexRejected;
      }
      IndexStep(byVersion, candidates, i, facts);
      byVersion := byVersion[c.contract.version := c.(facts := facts)];
    }
    assert candidates[..|candidates|] == candidates;
    return Index(byVersion);
  }

  lemma {:induction false} CleanMeans(c: PlannerCandidate)
    ensures CleanCandidate(c) ==> CleanFacts(c.facts)
  {
  }

  lemma {:induction false} IndexNothing()
    ensures IndexedByVersion(map[], []) && DistinctVersions([]) && GoalTotal([]) == 0 && EntryTotal([]) == 0
  {
    assert VersionSet([]) == {};
  }

  lemma {:induction false} IndexStep(byVersion: map<Id, PlannerCandidate>, candidates: seq<PlannerCandidate>, i: nat,
                                     facts: ParallelFacts)
    requires i < |candidates| && IndexedByVersion(byVersion, candidates[..i]) && DistinctVersions(candidates[..i])
    requires candidates[i].contract.version !in byVersion && Normalizes(candidates[i].facts, facts)
    ensures DistinctVersions(candidates[..i + 1])
    ensures IndexedByVersion(byVersion[candidates[i].contract.version := candidates[i].(facts := facts)],
                             candidates[..i + 1])
  {
    hide Normalizes;
    var c := candidates[i];
    assert candidates[..i + 1] == candidates[..i] + [c];
    VersionsDistinctNext(candidates, i);
    IndexNext(byVersion, candidates[..i], c, c.(facts := facts));
  }

  lemma {:induction false} IndexRepeated(byVersion: map<Id, PlannerCandidate>, candidates: seq<PlannerCandidate>,
                                         i: nat)
    requires i < |candidates| && IndexedByVersion(byVersion, candidates[..i]) && DistinctVersions(candidates[..i])
    ensures candidates[i].contract.version in byVersion ==> !DistinctVersions(candidates)
  {
    VersionsDistinctNext(candidates, i);
    NotDistinct(candidates, i);
  }

  lemma {:induction false} NotDistinct(candidates: seq<PlannerCandidate>, i: nat)
    requires i < |candidates|
    ensures !DistinctVersions(candidates[..i + 1]) ==> !DistinctVersions(candidates)
  {
    if !DistinctVersions(candidates[..i + 1]) {
      var a, b :| 0 <= a < b < i + 1
          && candidates[..i + 1][a].contract.version == candidates[..i + 1][b].contract.version;
      assert candidates[a].contract.version == candidates[b].contract.version;
    }
  }

  /** validatePlanInputs: accepted exactly when well formed, unless work runs out or the
      call is cancelled. */
  method ValidatePlanInputs(m: Manifest, r: Request, budget: WorkBudget) returns (result: InputResult)
    requires budget.Valid()
    modifies budget
    ensures budget.Valid()
    ensures result.Accepted? ==> ValidProblem(result.problem) && Describes(result.problem, m, r) && WellFormed(m, r)
    ensures result.Rejected? ==> !WellFormed(m, r)
    ensures result.Accepted? ==> budget.used == old(budget.used) + InputCharge(r)
    ensures result.InputWorkLimit? ==> old(budget.used) + InputCharge(r) > budget.maximum
  {
    hide CleanCandidate, ValidManifest, ValidEdges, CleanIds, DistinctVersions, WithinCandidateLimits, Keeps,
         CandidateCharge;
    if !ValidManifest(m) {
      return Rejected;
    }
    if * {
      return InputCancelled;
    }
    if |r.edges| > MAXIMUM_GRAPH_EDGES {
      return Rejected;
    }
    var ok := budget.Consume(|r.edges| + 1);
    if ok {
      ok := budget.Consume(|r.edges|);
    }
    if !ok {
      return InputWorkLimit;
    }
    if !ValidEdges(r.edges) || |r.candidates| == 0 || |r.candidates| > m.maximumCandidates
       || |r.goals| > m.maximumGoals || |r.satisfied| > m.maximumSatisfied {
      return Rejected;
    }
    var goals, goalsOk := NormalizedIds(r.goals);
    var satisfied, satisfiedOk := NormalizedIds(r.satisfied);
    if !goalsOk || |goals| == 0 || !satisfiedOk {
      return Rejected;
    }
    var index := IndexCandidates(m, r.candidates, budget);
    if !index.Index? {
      return if index.IndexRejected? then Rejected else if index.IndexWorkLimit? then InputWorkLimit
             else InputCancelled;
    }
    var byVersion := index.byVersion;
    if !(exists c :: c in r.candidates && c.seed) {
      return Rejected;
    }
    ok := budget.Consume(|r.edges|);
    if !ok {
      return InputWorkLimit;
    }
    if !KnownEnds(r.edges, byVersion.Keys) {
      return Rejected;
    }
    var seeds := SortedSet(set v | v in byVersion && byVersion[v].seed);
    var p := Problem(m, r.edges, goals, satisfied, byVersion, seeds);
    SeedListed(r.candidates, byVersion, seeds);
    ProblemValid(p, r.candidates);
    return Accepted(p);
  }

  lemma {:induction false} SeedListed(candidates: seq<PlannerCandidate>, byVersion: map<Id, PlannerCandidate>,
                                      seeds: seq<Id>)
    requires IndexedByVersion(byVersion, candidates) && Elements(seeds) == (set v | v in byVersion && byVersion[v].seed)
    requires exists c :: c in candidates && c.seed
    ensures seeds != []
  {
    var c :| c in candidates && c.seed;
    assert c.contract.version in Elements(seeds);
  }

  lemma {:induction false} SortedIsClean(f: ParallelFacts, n: ParallelFacts)
    requires CleanFacts(f) && Normalizes(f, n)
    ensures CleanFacts(n)
  {
    CleanList(f.readIds, n.readIds);
    CleanList(f.writeIds, n.writeIds);
    CleanList(f.exclusiveIds, n.exclusiveIds);
    CleanList(f.mutexKeys, n.mutexKeys);
  }

  lemma {:induction false} CleanList(source: seq<Id>, sorted: seq<Id>)
    requires CleanIds(source) && Sorts(source, sorted)
    ensures CleanIds(sorted)
  {
    assert EMPTY in sorted ==> EMPTY in Elements(sorted);
  }

  lemma {:induction false} ProblemValid(p: Problem, candidates: seq<PlannerCandidate>)
    requires ValidManifest(p.manifest) && ValidEdges(p.edges) && KnownEnds(p.edges, p.byVersion.Keys)
    requires StrictlySorted(p.goals) && StrictlySorted(p.satisfied) && StrictlySorted(p.seeds)
    requires 0 < |p.goals| <= p.manifest.maximumGoals && |p.satisfied| <= p.manifest.maximumSatisfied
    requires p.seeds != [] && |candidates| <= p.manifest.maximumCandidates
    requires Elements(p.seeds) == (set v | v in p.byVersion && p.byVersion[v].seed)
    requires IndexedByVersion(p.byVersion, candidates) && forall c :: c in candidates ==> CleanCandidate(c)
    ensures ValidProblem(p)
  {
    hide ValidManifest, ValidEdges;
    forall v | v in p.byVersion
      ensures p.byVersion[v].contract.version == v && CleanCandidate(p.byVersion[v])
    {
      var c :| c in candidates && c.contract.version == v;
      assert Keeps(c, p.byVersion[c.contract.version]);
      SortedIsClean(c.facts, p.byVersion[v].facts);
    }
  }
}
