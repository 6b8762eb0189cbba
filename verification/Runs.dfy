/** The stored record of a retrieval decision, and its one canonical form. */
module Runs {
  import opened Identifiers
  import opened Sorting
  import opened Ranking
  import opened SemanticRanking

  datatype Disposition = Selected | Abstained | Failed

  datatype Index = Index(manifest: Id, approximate: bool)

  /** The serving snapshot; its indexes are keyed by channel. */
  datatype Snapshot = Snapshot(epoch: nat, config: Id, indexes: map<Id, Index>)

  /** The five channels in the order of their names: exact, facet, graph, lexical and vector. */
  const CHANNELS: set<Id> := {1, 2, 3, 4, 5}

  const VECTOR_CHANNEL: Id := 5

  /** validateSnapshot: one to five known channels, each with a manifest; only the vector index is approximate. */
  predicate ValidSnapshot(s: Snapshot)
  {
    && s.epoch > 0 && s.config != EMPTY && 0 < |s.indexes| <= 5
    && forall ch :: ch in s.indexes ==>
         ch in CHANNELS && s.indexes[ch].manifest != EMPTY && s.indexes[ch].approximate == (ch == VECTOR_CHANNEL)
  }

  datatype Execution = Execution(channel: Id, manifest: Id, hitCount: nat, approximate: bool, complete: bool, code: Id,
                                 latency: nat)

  datatype PersistedHit = PersistedHit(channel: Id, version: Id, rank: nat, rawScore: int, manifest: Id,
                                       approximate: bool)

  datatype Gate = Gate(version: Id, eligible: bool, advisoryOnly: bool, codes: set<Id>)

  datatype Run = Run(
    id: Id,
    queryHash: Id,
    contextHash: Id,
    snapshot: Snapshot,
    executions: seq<Execution>,
    hits: seq<PersistedHit>,
    gates: seq<Gate>,
    ranked: seq<PersistedRank>,
    judgments: seq<Judgment>,
    disposition: Disposition,
    code: string,
    selected: seq<Id>,
    createdAt: int
  )

  // ----- the orders of the canonical form

  predicate ExecutionBefore(a: Execution, b: Execution) { a.channel < b.channel }

  predicate HitBefore(a: PersistedHit, b: PersistedHit)
  {
    if a.channel != b.channel then a.channel < b.channel else a.rank < b.rank
  }

  predicate GateBefore(a: Gate, b: Gate) { a.version < b.version }

  predicate RankBefore(a: PersistedRank, b: PersistedRank) { a.rank < b.rank }

  predicate JudgmentBefore(a: Judgment, b: Judgment) { a.version < b.version }

  predicate IdBefore(a: Id, b: Id) { a < b }

  // ----- what a canonical run must satisfy

  predicate ValidOutcome(r: Run)
  {
    && |r.executions| <= 5 && |r.hits| <= 5000 && |r.gates| <= 1000 && |r.ranked| <= 1000 && |r.judgments| <= 32
    && |r.code| <= 128
    && (r.disposition == Selected ==> r.code == [] && r.selected != [])
    && (r.disposition != Selected ==> r.code != [] && r.selected == [])
  }

  predicate ValidExecutions(r: Run)
  {
    && SortedBy(ExecutionBefore, r.executions)
    && (forall e :: e in r.executions ==>
          && e.channel in r.snapshot.indexes
          && r.snapshot.indexes[e.channel] == Index(e.manifest, e.approximate)
          && e.complete == (e.code == EMPTY))
    && (r.disposition != Failed ==> |r.executions| == |r.snapshot.indexes|)
  }

  function LastRank(hits: seq<PersistedHit>, channel: Id): (rank: nat)
  {
    if hits == [] then 0
    else if hits[|hits| - 1].channel == channel then hits[|hits| - 1].rank
    else LastRank(hits[..|hits| - 1], channel)
  }

  function HitCount(hits: seq<PersistedHit>, channel: Id): (n: nat)
  {
    if hits == [] then 0
    else HitCount(hits[..|hits| - 1], channel) + if hits[|hits| - 1].channel == channel then 1 else 0
  }

  predicate ValidHitList(r: Run)
  {
    && (forall k :: 0 <= k < |r.hits| ==>
          && r.hits[k].version != EMPTY
          && r.hits[k].rank == LastRank(r.hits[..k], r.hits[k].channel) + 1
          && exists e :: e in r.executions && e.channel == r.hits[k].channel && e.complete
                         && e.manifest == r.hits[k].manifest && e.approximate == r.hits[k].approximate)
    && (forall e :: e in r.executions ==> e.hitCount == HitCount(r.hits, e.channel))
  }

  function Candidates(r: Run): (versions: set<Id>)
  {
    set h | h in r.hits :: h.version
  }

  predicate ValidGates(r: Run)
  {
    && SortedBy(GateBefore, r.gates)
    && (forall g :: g in r.gates ==>
            g.version != EMPTY && (g.advisoryOnly ==> g.eligible) && g.eligible == (g.codes == {}) && EMPTY !in g.codes)
    && (r.disposition != Failed ==> (set g | g in r.gates :: g.version) == Candidates(r))
  }

  predicate NamesGiven(features: seq<FeatureValue>)
  {
    forall f :: f in features ==> f.name != EMPTY
  }

  predicate ValidRank(r: Run, p: PersistedRank)
  {
    && p.version != EMPTY && p.strength >= 0 && NamesGiven(p.features) && EMPTY !in p.missing
    && SortedBy(NameBefore, p.features) && SortedBy(IdBefore, p.missing)
    && (exists g :: g in r.gates && g.version == p.version && g.eligible)
    && p.version in Candidates(r)
  }

  predicate ValidRanks(r: Run)
  {
    && (forall i :: 0 <= i < |r.ranked| ==> r.ranked[i].rank == i + 1 && ValidRank(r, r.ranked[i]))
    && (forall i, j :: 0 <= i < j < |r.ranked| ==> r.ranked[i].version != r.ranked[j].version)
  }

  predicate ValidJudgmentList(r: Run)
  {
    && SortedBy(JudgmentBefore, r.judgments)
    && (forall j :: j in r.judgments ==>
          && j.version != EMPTY && j.wellFormed && SortedBy(NameBefore, j.features) && NamesGiven(j.features)
          && (exists p :: p in r.ranked && p.version == j.version)
          && (j.contentHash == EMPTY ==> j.features == []))
  }

  /** The rank stored for a version, and 0 for one that is not ranked. */
  function RankIn(ranked: seq<PersistedRank>, version: Id): (rank: nat)
  {
    if ranked == [] then 0
    else if ranked[|ranked| - 1].version == version then ranked[|ranked| - 1].rank
    else RankIn(ranked[..|ranked| - 1], version)
  }

  predicate RisesAt(ranked: seq<PersistedRank>, selected: seq<Id>, i: nat)
    requires i < |selected|
  {
    RankIn(ranked, selected[i]) > if i == 0 then 0 else RankIn(ranked, selected[i - 1])
  }

  /** Selected versions are ranked, and stand in the order of their ranks. */
  predicate ValidSelection(r: Run)
  {
    forall i :: 0 <= i < |r.selected| ==> RisesAt(r.ranked, r.selected, i)
  }

  /** validateCanonicalRun. */
  predicate ValidRun(r: Run)
  {
    && ValidOutcome(r)
    && ValidSnapshot(r.snapshot)
    && ValidExecutions(r)
    && ValidHitList(r)
    && ValidGates(r)
    && ValidRanks(r)
    && ValidJudgmentList(r)
    && ValidSelection(r)
  }

  // ----- the canonical form

  /** A ranked entry with its features and missing names sorted. */
  ghost predicate ArrangesRank(p: PersistedRank, q: PersistedRank)
  {
    && q == p.(features := q.features, missing := q.missing)
    && multiset(q.features) == multiset(p.features) && InOrder(NameBefore, q.features)
    && multiset(q.missing) == multiset(p.missing) && InOrder(IdBefore, q.missing)
  }

  ghost predicate ArrangesJudgment(p: Judgment, q: Judgment)
  {
    q == p.(features := q.features) && multiset(q.features) == multiset(p.features) && InOrder(NameBefore, q.features)
  }

  ghost predicate ArrangesRanks(before: seq<PersistedRank>, after: seq<PersistedRank>)
  {
    |before| == |after| && forall i :: 0 <= i < |before| ==> ArrangesRank(before[i], after[i])
  }

  ghost predicate ArrangesJudgments(before: seq<Judgment>, after: seq<Judgment>)
  {
    |before| == |after| && forall i :: 0 <= i < |before| ==> ArrangesJudgment(before[i], after[i])
  }

  ghost predicate SortedFrom<T(!new)>(less: (T, T) -> bool, before: seq<T>, after: seq<T>)
  {
    multiset(after) == multiset(before) && InOrder(less, after)
  }

  /** What the sorts of canonicalizeRun may produce; ties may fall either way. */
  ghost predicate CanonicalOf(input: Run, ranks: seq<PersistedRank>, judgments: seq<Judgment>, r: Run)
  {
    && r == input.(executions := r.executions, hits := r.hits, gates := r.gates, ranked := r.ranked,
                   judgments := r.judgments)
    && SortedFrom(ExecutionBefore, input.executions, r.executions)
    && SortedFrom(HitBefore, input.hits, r.hits)
    && SortedFrom(GateBefore, input.gates, r.gates)
    && ArrangesRanks(input.ranked, ranks) && SortedFrom(RankBefore, ranks, r.ranked)
    && ArrangesJudgments(input.judgments, judgments) && SortedFrom(JudgmentBefore, judgments, r.judgments)
  }

  ghost predicate Canonical(input: Run, r: Run)
  {
    exists ranks, judgments :: CanonicalOf(input, ranks, judgments, r)
  }

  datatype RunOutcome = Built(run: Run) | InvalidRun

  /** canonicalizeRun: sorts every list, then validates. */
  method CanonicalizeRun(input: Run) returns (o: RunOutcome)
    ensures o.Built? ==> Canonical(input, o.run) && ValidRun(o.run)
    ensures o.InvalidRun? ==> forall r :: Canonical(input, r) ==> !ValidRun(r)
    ensures exists r :: Canonical(input, r)
  {
    var executions := Sort(ExecutionBefore, input.executions);
    var hits := Sort(HitBefore, input.hits);
    var gates := Sort(GateBefore, input.gates);
    var ranks := ArrangeRanks(input.ranked);
    var ranked := Sort(RankBefore, ranks);
    var arranged := ArrangeJudgments(input.judgments);
    var judgments := Sort(JudgmentBefore, arranged);
    var run := input.(executions := executions, hits := hits, gates := gates, ranked := ranked, judgments := judgments);
    assert CanonicalOf(input, ranks, arranged, run);
    assert Canonical(input, run);
    if ValidRun(run) {
      return Built(run);
    }
    hide ValidRun, CanonicalOf;
    forall r | Canonical(input, r) && ValidRun(r)
      ensures r == run
    {
      CanonicalUnique(input, r, run);
    }
    return InvalidRun;
  }

  method ArrangeRanks(before: seq<PersistedRank>) returns (after: seq<PersistedRank>)
    ensures ArrangesRanks(before, after)
  {
    after := [];
    for i := 0 to |before|
      invariant |after| == i && forall k :: 0 <= k < i ==> ArrangesRank(before[k], after[k])
    {
      var features := Sort(NameBefore, before[i].features);
      var missing := Sort(IdBefore, before[i].missing);
      after := after + [before[i].(features := features, missing := missing)];
    }
  }

  method ArrangeJudgments(before: seq<Judgment>) returns (after: seq<Judgment>)
    ensures ArrangesJudgments(before, after)
  {
    after := [];
    for i := 0 to |before|
      invariant |after| == i && forall k :: 0 <= k < i ==> ArrangesJudgment(before[k], after[k])
    {
      var features := Sort(NameBefore, before[i].features);
      after := after + [before[i].(features := features)];
    }
  }

  // ----- a valid canonical form is the only one

  lemma {:induction false} SortUnique<T(!new)>(less: (T, T) -> bool, before: seq<T>, s: seq<T>, t: seq<T>)
    requires WeaklyOrders(less) && SortedFrom(less, before, s) && SortedFrom(less, before, t) && SortedBy(less, s)
    ensures s == t
  {
    InOrderUnique(less, s, t);
  }

  lemma {:induction false} HitsAscend(r: Run)
    requires ValidHitList(r) && InOrder(HitBefore, r.hits)
    ensures SortedBy(HitBefore, r.hits)
  {
    forall i, j | 0 <= i < j < |r.hits|
      ensures HitBefore(r.hits[i], r.hits[j])
    {
      assert !HitBefore(r.hits[j], r.hits[i]);
      if r.hits[i].channel == r.hits[j].channel {
        LastRankAtLeast(r, i, j);
      }
    }
  }

  /** Ranks of one channel go up by one, so a later hit of the channel has a greater rank. */
  lemma {:induction false} LastRankAtLeast(r: Run, i: nat, j: nat)
    requires ValidHitList(r) && i < j <= |r.hits|
    ensures LastRank(r.hits[..j], r.hits[i].channel) >= r.hits[i].rank
    decreases j
  {
    var prefix := r.hits[..j];
    assert prefix[..j - 1] == r.hits[..j - 1] && prefix[j - 1] == r.hits[j - 1];
    if i < j - 1 {
      LastRankAtLeast(r, i, j - 1);
    }
  }

  lemma {:induction false} RanksAscend(r: Run)
    requires ValidRanks(r)
    ensures SortedBy(RankBefore, r.ranked)
  {
    hide ValidRank;
  }

  lemma {:induction false} SameArrangedRanks(before: seq<PersistedRank>, a: seq<PersistedRank>, b: seq<PersistedRank>)
    requires ArrangesRanks(before, a) && ArrangesRanks(before, b)
    requires forall p :: p in a ==> SortedBy(NameBefore, p.features) && SortedBy(IdBefore, p.missing)
    ensures a == b
  {
    forall i | 0 <= i < |a|
      ensures a[i] == b[i]
    {
      assert ArrangesRank(before[i], a[i]) && ArrangesRank(before[i], b[i]) && a[i] in a;
      InOrderUnique(NameBefore, a[i].features, b[i].features);
      InOrderUnique(IdBefore, a[i].missing, b[i].missing);
    }
  }

  lemma {:induction false} SameArrangedJudgments(before: seq<Judgment>, a: seq<Judgment>, b: seq<Judgment>)
    requires ArrangesJudgments(before, a) && ArrangesJudgments(before, b)
    requires forall p :: p in a ==> SortedBy(NameBefore, p.features)
    ensures a == b
  {
    forall i | 0 <= i < |a|
      ensures a[i] == b[i]
    {
      assert ArrangesJudgment(before[i], a[i]) && ArrangesJudgment(before[i], b[i]) && a[i] in a;
      InOrderUnique(NameBefore, a[i].features, b[i].features);
    }
  }

  lemma {:induction false} RankedUnique(before: seq<PersistedRank>, a: seq<PersistedRank>, b: seq<PersistedRank>,
                                        r: Run, t: seq<PersistedRank>)
    requires ArrangesRanks(before, a) && ArrangesRanks(before, b) && ValidRanks(r)
    requires SortedFrom(RankBefore, a, r.ranked) && SortedFrom(RankBefore, b, t)
    ensures t == r.ranked
  {
    forall p | p in a
      ensures SortedBy(NameBefore, p.features) && SortedBy(IdBefore, p.missing)
    {
      SameMembers(a, r.ranked, p);
      var i :| 0 <= i < |r.ranked| && r.ranked[i] == p;
      assert ValidRank(r, r.ranked[i]);
    }
    SameArrangedRanks(before, a, b);
    RanksAscend(r);
    SortUnique(RankBefore, a, r.ranked, t);
  }

  lemma {:induction false} JudgmentsUnique(before: seq<Judgment>, a: seq<Judgment>, b: seq<Judgment>, r: Run,
                                           t: seq<Judgment>)
    requires ArrangesJudgments(before, a) && ArrangesJudgments(before, b) && ValidJudgmentList(r)
    requires SortedFrom(JudgmentBefore, a, r.judgments) && SortedFrom(JudgmentBefore, b, t)
    ensures t == r.judgments
  {
    forall p | p in a
      ensures SortedBy(NameBefore, p.features)
    {
      SameMembers(a, r.judgments, p);
    }
    SameArrangedJudgments(before, a, b);
    SortUnique(JudgmentBefore, a, r.judgments, t);
  }

  lemma {:induction false} ExecutionsUnique(before: seq<Execution>, r: Run, t: seq<Execution>)
    requires ValidExecutions(r) && SortedFrom(ExecutionBefore, before, r.executions)
             && SortedFrom(ExecutionBefore, before, t)
    ensures t == r.executions
  {
    SortUnique(ExecutionBefore, before, r.executions, t);
  }

  lemma {:induction false} HitsUnique(before: seq<PersistedHit>, r: Run, t: seq<PersistedHit>)
    requires ValidHitList(r) && SortedFrom(HitBefore, before, r.hits) && SortedFrom(HitBefore, before, t)
    ensures t == r.hits
  {
    HitsAscend(r);
    hide ValidHitList;
    SortUnique(HitBefore, before, r.hits, t);
  }

  lemma {:induction false} GatesUnique(before: seq<Gate>, r: Run, t: seq<Gate>)
    requires ValidGates(r) && SortedFrom(GateBefore, before, r.gates) && SortedFrom(GateBefore, before, t)
    ensures t == r.gates
  {
    SortUnique(GateBefore, before, r.gates, t);
  }

  /** However ties are broken, a run has one canonical form if it has a valid one. */
  lemma {:induction false} CanonicalUnique(input: Run, r: Run, other: Run)
    requires Canonical(input, r) && ValidRun(r) && Canonical(input, other)
    ensures r == other
  {
    hide ValidOutcome, ValidHitList, ValidGates, ValidRanks, ValidJudgmentList, ValidSelection, ValidExecutions,
         ArrangesRanks, ArrangesJudgments, SortedFrom;
    var ranks, judgments :| CanonicalOf(input, ranks, judgments, r);
    var ranks', judgments' :| CanonicalOf(input, ranks', judgments', other);
    ExecutionsUnique(input.executions, r, other.executions);
    HitsUnique(input.hits, r, other.hits);
    GatesUnique(input.gates, r, other.gates);
    RankedUnique(input.ranked, ranks, ranks', r, other.ranked);
    JudgmentsUnique(input.judgments, judgments, judgments', r, other.judgments);
  }

  /** The check on stored runs follows the ranks channel by channel, so it accepts runs whose
      channels interleave. A valid run is its own canonical form exactly when its hits are in order. */
  lemma {:induction false} ValidIsCanonical(r: Run)
    requires ValidRun(r)
    ensures Canonical(r, r) <==> InOrder(HitBefore, r.hits)
  {
    OwnArrangement(r);
    hide ValidRun, ArrangesRanks, ArrangesJudgments, SortedBy, InOrder;
    if InOrder(HitBefore, r.hits) {
      assert CanonicalOf(r, r.ranked, r.judgments, r);
    }
  }

  /** Apart from its hits, every list of a valid run is in order. */
  lemma {:induction false} OwnArrangement(r: Run)
    requires ValidRun(r)
    ensures ArrangesRanks(r.ranked, r.ranked) && ArrangesJudgments(r.judgments, r.judgments)
    ensures InOrder(ExecutionBefore, r.executions) && InOrder(GateBefore, r.gates)
    ensures InOrder(RankBefore, r.ranked) && InOrder(JudgmentBefore, r.judgments)
  {
    RanksAscend(r);
    forall i | 0 <= i < |r.ranked| ensures ArrangesRank(r.ranked[i], r.ranked[i]) {
      assert ValidRank(r, r.ranked[i]);
      hide ValidHitList, ValidGates, ValidSelection, ValidExecutions, ValidJudgmentList, ValidRanks;
    }
    hide ValidHitList, ValidSelection, ValidRanks;
  }

  /** One hit on each of two channels, the second channel's first. */
  const INTERLEAVED := Run(
    1, 2, 3, Snapshot(1, 1, map[1 := Index(11, false), 2 := Index(12, false)]),
    [Execution(1, 11, 1, false, true, EMPTY, 0), Execution(2, 12, 1, false, true, EMPTY, 0)],
    [PersistedHit(2, 6, 1, 0, 12, false), PersistedHit(1, 5, 1, 0, 11, false)],
    [], [], [], Failed, "x", [], 1)

  lemma {:induction false} InterleavedHits()
    ensures ValidHitList(INTERLEAVED) && !InOrder(HitBefore, INTERLEAVED.hits)
  {
    var hits := INTERLEAVED.hits;
    assert hits[..0] == [] && hits[..|hits| - 1] == hits[..1] == [hits[0]] && [hits[0]][..0] == [];
    assert LastRank([hits[0]][..0], 1) == 0;
    assert LastRank(hits[..1], 1) == 0;
    assert HitCount([hits[0]][..0], 1) == 0 && HitCount([hits[0]][..0], 2) == 0;
    assert HitCount([hits[0]], 1) == 0 && HitCount([hits[0]], 2) == 1;
    assert HitCount(hits, 1) == 1;
    assert HitCount(hits, 2) == 1;
    assert INTERLEAVED.executions[0] in INTERLEAVED.executions && INTERLEAVED.executions[1] in INTERLEAVED.executions;
    assert HitBefore(hits[1], hits[0]);
  }

  /** Such a run passes the check and is not canonical. */
  lemma {:induction false} InterleavedExample()
    ensures ValidRun(INTERLEAVED) && !Canonical(INTERLEAVED, INTERLEAVED)
  {
    InterleavedHits();
    hide ValidHitList, InOrder;
    ValidIsCanonical(INTERLEAVED);
  }
}
