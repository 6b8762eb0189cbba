/** Exactly when a run with a ranking passes the check on stored runs. */
module StorableRanking {
  import opened Identifiers
  import opened Sorting
  import opened Ranking
  import opened RankOrder
  import opened SemanticRanking
  import opened Runs
  import opened Retrieval
  import opened Audits
  import opened Selections
  import opened Storability
  import Collection

  /** The ranking of a run is that of the eligible candidates, whichever features were added. */
  ghost predicate RanksEligible(s: Setting, c: Collection.Collected, final: seq<Candidate>, results: seq<Result>,
                                ranked: seq<PersistedRank>)
  {
    && DocumentsFound(s, c) && SameButFeatures(Eligible(s, c.candidates), final)
    && IsOutcome(s.ranker, final, Ranked(results))
    && |ranked| == |results| && forall i :: 0 <= i < |results| ==> Backed(final, results[i], ranked[i])
  }

  // ----- ranked entries

  lemma {:induction false} NamesStrict(features: seq<FeatureValue>, sorted: seq<FeatureValue>)
    requires DistinctNames(features) && multiset(sorted) == multiset(features) && InOrder(NameBefore, sorted)
    ensures SortedBy(NameBefore, sorted)
  {
    SameDistinctNames(features, sorted);
    forall i, j | 0 <= i < j < |sorted|
      ensures NameBefore(sorted[i], sorted[j])
    {
      assert !NameBefore(sorted[j], sorted[i]) && sorted[i].name != sorted[j].name;
    }
  }

  lemma {:induction false} MissingStrict(missing: seq<Id>, sorted: seq<Id>)
    requires StrictlySorted(missing) && multiset(sorted) == multiset(missing) && InOrder(IdBefore, sorted)
    ensures SortedBy(IdBefore, sorted)
  {
    assert SortedBy(IdBefore, missing);
    InOrderUnique(IdBefore, missing, sorted);
  }

  /** The candidate a ranked entry stands for. */
  lemma {:induction false} EntryCandidate(s: Setting, c: Collection.Collected, final: seq<Candidate>,
                                          results: seq<Result>, ranked: seq<PersistedRank>, k: nat)
    returns (i: nat)
    requires RanksEligible(s, c, final, results, ranked) && k < |ranked|
    ensures i < |final| && final[i].version == ranked[k].version && final[i].strength == ranked[k].strength
    ensures final[i].features == ranked[k].features && DistinctNames(final[i].features)
            && StrictlySorted(ranked[k].missing)
    ensures NamesGiven(ranked[k].features) && EMPTY !in ranked[k].missing
  {
    OutcomeShape(s.ranker, final, results);
    assert Backed(final, results[k], ranked[k]);
    var x :| x in final && IsPersisted(results[k], x, ranked[k]);
    i :| 0 <= i < |final| && final[i] == x;
    var l := PlaceOf(s.ranker, final, results, i);
    if l < k {
      ResultsDistinct(s.ranker, final, results, l, k);
    } else if k < l {
      ResultsDistinct(s.ranker, final, results, k, l);
    }
    assert ValidManifest(s.ranker) && ValidCandidate(s.ranker, x);
    FeaturesNamed(s.ranker, x.features);
    MissingNamed(s.ranker, final, results, k);
    NotElement(ranked[k].missing, EMPTY);
  }

  lemma {:induction false} NotElement(s: seq<Id>, x: Id)
    requires x !in Elements(s)
    ensures x !in s
  {
  }

  /** Features within a valid manifest have names. */
  lemma {:induction false} FeaturesNamed(m: Manifest, features: seq<FeatureValue>)
    requires ValidManifest(m) && forall f :: f in features ==> GoodFeature(m, f)
    ensures NamesGiven(features)
  {
    forall f | f in features
      ensures f.name != EMPTY
    {
      SpecsHold(m.features, f.name);
    }
  }

  lemma {:induction false} MissingNamed(m: Manifest, cs: seq<Candidate>, results: seq<Result>, k: nat)
    requires IsOutcome(m, cs, Ranked(results)) && k < |results|
    ensures EMPTY !in results[k].missing
  {
    ResultHasCandidate(m, cs, results, k);
    hide IsOutcome;
    var c :| c in cs && ValidCandidate(m, c) && Score(m, c) == results[k].(rank := 0);
    assert results[k].missing == Missing(m, c);
  }

  lemma {:induction false} StillNamed(features: seq<FeatureValue>, sorted: seq<FeatureValue>)
    requires NamesGiven(features) && multiset(sorted) == multiset(features)
    ensures NamesGiven(sorted)
  {
    forall f | f in sorted ensures f.name != EMPTY {
      SameMembers(features, sorted, f);
    }
  }

  /** The ranked entry of a candidate. */
  lemma {:induction false} CandidateEntry(s: Setting, c: Collection.Collected, final: seq<Candidate>,
                                          results: seq<Result>, ranked: seq<PersistedRank>, i: nat)
    returns (k: nat)
    requires RanksEligible(s, c, final, results, ranked) && i < |final|
    ensures k < |ranked| && ranked[k].version == final[i].version && ranked[k].strength == final[i].strength
  {
    hide IsOutcome, Eligible;
    k := PlaceOf(s.ranker, final, results, i);
    assert Backed(final, results[k], ranked[k]);
  }

  /** Of what the check asks of a ranked entry, only the strength can fail. */
  lemma {:induction false} RankExactly(s: Setting, g: Collection.Gathering, c: Collection.Collected,
                                       final: seq<Candidate>, results: seq<Result>, input: Run, run: Run, k: nat)
    requires Collection.Gathers(g, c) && RanksEligible(s, c, final, results, input.ranked)
    requires ArrangesRanks(input.ranked, run.ranked) && k < |run.ranked|
    requires Gated(s, c.candidates, run.gates) && multiset(run.hits) == multiset(AllHits(c.candidates))
    ensures ValidRank(run, run.ranked[k]) <==> run.ranked[k].strength >= 0
  {
    hide Collection.Gathers, IsOutcome, Eligible, Backed, AllHits, Candidates;
    var p, q := input.ranked[k], run.ranked[k];
    assert ArrangesRank(p, q);
    var i := EntryCandidate(s, c, final, results, input.ranked, k);
    NamesStrict(p.features, q.features);
    MissingStrict(p.missing, q.missing);
    StillNamed(p.features, q.features);
    SameMembers(p.missing, q.missing, EMPTY);
    EligibleMembers(s, c.candidates, Eligible(s, c.candidates)[i]);
    var x :| x in c.candidates && VerdictOf(s, x.version).eligible
             && Eligible(s, c.candidates)[i] == CandidateFor(x, s.library[x.version]);
    hide SortedBy, InOrder, NamesGiven;
    VersionNamed(g, c, x);
    CandidatesAre(g, c, run, x.version);
    var n :| 0 <= n < |c.candidates| && c.candidates[n] == x;
    assert run.gates[n] == GateFor(s, x.version) && run.gates[n] in run.gates;
  }

  lemma {:induction false} StrengthsExactly(s: Setting, c: Collection.Collected, final: seq<Candidate>,
                                            results: seq<Result>, input: Run, run: Run)
    requires RanksEligible(s, c, final, results, input.ranked) && ArrangesRanks(input.ranked, run.ranked)
    ensures (forall k :: 0 <= k < |run.ranked| ==> run.ranked[k].strength >= 0) <==> Measured(Eligible(s, c.candidates))
  {
    hide IsOutcome, Eligible, Backed;
    var cs := Eligible(s, c.candidates);
    assert forall k :: 0 <= k < |run.ranked| ==> ArrangesRank(input.ranked[k], run.ranked[k]);
    if Measured(cs) {
      forall k | 0 <= k < |run.ranked|
        ensures run.ranked[k].strength >= 0
      {
        var i := EntryCandidate(s, c, final, results, input.ranked, k);
        assert cs[i] in cs;
      }
    }
    if forall k :: 0 <= k < |run.ranked| ==> run.ranked[k].strength >= 0 {
      forall x | x in cs
        ensures x.strength >= 0
      {
        var i :| 0 <= i < |cs| && cs[i] == x;
        var k := CandidateEntry(s, c, final, results, input.ranked, i);
      }
    }
  }

  lemma {:induction false} RanksNumbered(before: seq<PersistedRank>, after: seq<PersistedRank>)
    requires ArrangesRanks(before, after) && DistinctRanked(before)
             && forall i :: 0 <= i < |before| ==> before[i].rank == i + 1
    ensures DistinctRanked(after) && forall i :: 0 <= i < |after| ==> after[i].rank == i + 1
  {
    assert forall k :: 0 <= k < |before| ==> ArrangesRank(before[k], after[k]);
    hide ArrangesRanks;
  }

  lemma {:induction false} RanksExactly(s: Setting, g: Collection.Gathering, c: Collection.Collected,
                                        final: seq<Candidate>, results: seq<Result>, input: Run, run: Run)
    requires Collection.Gathers(g, c) && RanksEligible(s, c, final, results, input.ranked)
    requires ArrangesRanks(input.ranked, run.ranked) && DistinctRanked(input.ranked)
    requires forall i :: 0 <= i < |input.ranked| ==> input.ranked[i].rank == i + 1
    requires Gated(s, c.candidates, run.gates) && multiset(run.hits) == multiset(AllHits(c.candidates))
    ensures ValidRanks(run) <==> Measured(Eligible(s, c.candidates))
  {
    hide Collection.Gathers, IsOutcome, Eligible, Backed, AllHits, Candidates, Gated, ValidRank, SameButFeatures,
         ArrangesRank;
    forall k | 0 <= k < |run.ranked|
      ensures ValidRank(run, run.ranked[k]) <==> run.ranked[k].strength >= 0
    {
      RankExactly(s, g, c, final, results, input, run, k);
    }
    StrengthsExactly(s, c, final, results, input, run);
    assert DocumentsFound(s, c);
    hide Collection.Gathers, RanksEligible, AllHits, Gated, ValidRank, Measured, Eligible;
    RanksNumbered(input.ranked, run.ranked);
  }

  // ----- judgments

  lemma {:induction false} RankedIsEligible(s: Setting, c: Collection.Collected, final: seq<Candidate>,
                                            results: seq<Result>, input: Run, run: Run, version: Id)
    requires RanksEligible(s, c, final, results, input.ranked) && ArrangesRanks(input.ranked, run.ranked)
    ensures (exists p :: p in run.ranked && p.version == version) <==> IsCandidate(Eligible(s, c.candidates), version)
  {
    hide IsOutcome, Eligible, Backed;
    var cs := Eligible(s, c.candidates);
    assert forall k :: 0 <= k < |run.ranked| ==> ArrangesRank(input.ranked[k], run.ranked[k]);
    if p :| p in run.ranked && p.version == version {
      var k :| 0 <= k < |run.ranked| && run.ranked[k] == p;
      var i := EntryCandidate(s, c, final, results, input.ranked, k);
      assert cs[i] in cs;
    }
    if x :| x in cs && x.version == version {
      var i :| 0 <= i < |cs| && cs[i] == x;
      var k := CandidateEntry(s, c, final, results, input.ranked, i);
      assert run.ranked[k] in run.ranked;
    }
  }

  predicate GoodJudgment(j: Judgment)
  {
    j.version != EMPTY && j.wellFormed && SortedBy(NameBefore, j.features) && NamesGiven(j.features)
      && (j.contentHash == EMPTY ==> j.features == [])
  }

  lemma {:induction false} JudgmentGood(m: Manifest, names: seq<Id>, j: Judgment, arranged: Judgment)
    requires ValidManifest(m) && ValidJudgment(m, names, j) && ArrangesJudgment(j, arranged)
    ensures GoodJudgment(arranged)
  {
    if j.contentHash == EMPTY {
      SameSize(j.features, arranged.features);
    } else {
      NamesStrict(j.features, arranged.features);
      FeaturesNamed(m, j.features);
      StillNamed(j.features, arranged.features);
    }
  }

  predicate DistinctJudged(judgments: seq<Judgment>)
  {
    forall a, b :: 0 <= a < b < |judgments| ==> judgments[a].version != judgments[b].version
  }

  /** Sorting by version is strict exactly when no version is judged twice. */
  lemma {:induction false} JudgedOnce(before: seq<Judgment>, arranged: seq<Judgment>, stored: seq<Judgment>)
    requires ArrangesJudgments(before, arranged) && SortedFrom(JudgmentBefore, arranged, stored)
    ensures SortedBy(JudgmentBefore, stored) <==> DistinctJudged(before)
  {
    assert forall a :: 0 <= a < |before| ==> ArrangesJudgment(before[a], arranged[a]);
    if SortedBy(JudgmentBefore, stored) {
      assert NoDuplicates(stored);
      SameWithoutDuplicates(stored, arranged);
      DistinctPasses(stored, arranged);
    }
    if DistinctJudged(before) {
      assert NoDuplicates(arranged);
      SameWithoutDuplicates(arranged, stored);
      DistinctPasses(arranged, stored);
      forall i, j | 0 <= i < j < |stored|
        ensures JudgmentBefore(stored[i], stored[j])
      {
        assert !JudgmentBefore(stored[j], stored[i]);
      }
    }
  }

  lemma {:induction false} DistinctPasses(s: seq<Judgment>, t: seq<Judgment>)
    requires DistinctJudged(s) && multiset(s) == multiset(t) && NoDuplicates(t)
    ensures DistinctJudged(t)
  {
    forall a, b | 0 <= a < b < |t|
      ensures t[a].version != t[b].version
    {
      SameMembers(s, t, t[a]);
      SameMembers(s, t, t[b]);
      var k :| 0 <= k < |s| && s[k] == t[a];
      var l :| 0 <= l < |s| && s[l] == t[b];
      assert k < l || l < k;
    }
  }

  lemma {:induction false} JudgmentsExactly(m: Manifest, names: seq<Id>, cs: seq<Candidate>, before: seq<Judgment>,
                                            arranged: seq<Judgment>, run: Run)
    requires ValidManifest(m) && forall j :: j in before ==> ValidJudgment(m, names, j)
    requires ArrangesJudgments(before, arranged) && SortedFrom(JudgmentBefore, arranged, run.judgments)
    requires forall v :: (exists p :: p in run.ranked && p.version == v) <==> IsCandidate(cs, v)
    ensures ValidJudgmentList(run) <==> JudgmentsFit(cs, before)
  {
    JudgedOnce(before, arranged, run.judgments);
    JudgmentsCorrespond(m, names, before, arranged, run.judgments);
    hide SortedBy, ArrangesJudgments, SortedFrom, ValidJudgment, ValidManifest, IsCandidate, ValidJudgmentList,
         JudgmentsFit;
    JudgmentsListed(cs, before, run);
  }

  lemma {:induction false} JudgmentsCorrespond(m: Manifest, names: seq<Id>, before: seq<Judgment>,
                                               arranged: seq<Judgment>, stored: seq<Judgment>)
    requires ValidManifest(m) && forall j :: j in before ==> ValidJudgment(m, names, j)
    requires ArrangesJudgments(before, arranged) && multiset(stored) == multiset(arranged)
    ensures forall j :: j in stored ==> GoodJudgment(j) && Judges(before, j.version)
    ensures forall a :: 0 <= a < |before| ==> Judges(stored, before[a].version)
  {
    hide ValidJudgment, ValidManifest, SortedBy, InOrder;
    forall a | 0 <= a < |before|
      ensures Judges(stored, before[a].version)
    {
      assert ArrangesJudgment(before[a], arranged[a]);
      SameMembers(arranged, stored, arranged[a]);
    }
    forall j | j in stored
      ensures GoodJudgment(j) && Judges(before, j.version)
    {
      SameMembers(arranged, stored, j);
      var a :| 0 <= a < |arranged| && arranged[a] == j;
      assert ArrangesJudgment(before[a], arranged[a]) && before[a] in before;
      JudgmentGood(m, names, before[a], arranged[a]);
    }
  }

  predicate Judges(judgments: seq<Judgment>, version: Id)
  {
    exists j :: j in judgments && j.version == version
  }

  lemma {:induction false} JudgmentsListed(cs: seq<Candidate>, before: seq<Judgment>, run: Run)
    requires SortedBy(JudgmentBefore, run.judgments) <==> DistinctJudged(before)
    requires forall j :: j in run.judgments ==> GoodJudgment(j) && Judges(before, j.version)
    requires forall a :: 0 <= a < |before| ==> Judges(run.judgments, before[a].version)
    requires forall v :: (exists p :: p in run.ranked && p.version == v) <==> IsCandidate(cs, v)
    ensures ValidJudgmentList(run) <==> JudgmentsFit(cs, before)
  {
    hide SortedBy, IsCandidate, NamesGiven;
    if ValidJudgmentList(run) {
      forall a | 0 <= a < |before|
        ensures IsCandidate(cs, before[a].version)
      {
        assert Judges(run.judgments, before[a].version);
        var j :| j in run.judgments && j.version == before[a].version;
      }
    }
    if JudgmentsFit(cs, before) {
      forall j | j in run.judgments
        ensures IsCandidate(cs, j.version)
      {
        assert Judges(before, j.version);
        var x :| x in before && x.version == j.version;
        var a :| 0 <= a < |before| && before[a] == x;
      }
    }
  }

  // ----- the judgments that are kept

  /** The admitted versions are different ones among the candidates, and not too many. */
  predicate Admits(admission: Admission, cs: seq<Candidate>)
  {
    && admission.Admitted? && 0 < |admission.versions| <= MAXIMUM_ADMITTED
    && (forall v :: v in admission.versions ==> IsCandidate(cs, v)) && NoDuplicates(admission.versions)
  }

  /** The judgments stored with the ranking of `cs`. */
  function Kept(s: Setting, cs: seq<Candidate>, semantic: Semantic): (r: seq<Judgment>)
  {
    if semantic.Consulted? && Admits(semantic.admission, cs) then ValidOnes(s.ranker, s.names, semantic.judgments)
       else []
  }

  lemma {:induction false} AdmissionAgrees(m: Manifest, admission: Admission, cs: seq<Candidate>,
                                           preliminary: seq<Result>)
    requires IsOutcome(m, cs, Ranked(preliminary))
    ensures GoodAdmission(admission, preliminary) <==> Admits(admission, cs)
  {
    forall v
      ensures IsCandidate(cs, v) <==> exists r :: r in preliminary && r.version == v
    {
      ResultsName(m, cs, preliminary, v);
    }
    hide IsOutcome, IsCandidate, NoDuplicates;
  }

  lemma {:induction false} ResultsName(m: Manifest, cs: seq<Candidate>, results: seq<Result>, v: Id)
    requires IsOutcome(m, cs, Ranked(results))
    ensures IsCandidate(cs, v) <==> exists r :: r in results && r.version == v
  {
    hide IsOutcome;
    if x :| x in cs && x.version == v {
      var i :| 0 <= i < |cs| && cs[i] == x;
      assert results[PlaceOf(m, cs, results, i)] in results;
    }
    if r :| r in results && r.version == v {
      var k :| 0 <= k < |results| && results[k] == r;
      ResultHasCandidate(m, cs, results, k);
    }
  }

  lemma {:induction false} ValidOnesValid(m: Manifest, names: seq<Id>, judgments: seq<Judgment>)
    ensures forall j :: j in ValidOnes(m, names, judgments) ==> ValidJudgment(m, names, j)
  {
    if judgments != [] {
      hide ValidJudgment;
      ValidOnesValid(m, names, judgments[..|judgments| - 1]);
    }
  }

  lemma {:induction false} KeptValid(s: Setting, cs: seq<Candidate>, semantic: Semantic)
    requires semantic.Consulted? && semantic.admission.Admitted? ==>
             |semantic.judgments| == |semantic.admission.versions|
    ensures |Kept(s, cs, semantic)| <= 32
            && forall j :: j in Kept(s, cs, semantic) ==> ValidJudgment(s.ranker, s.names, j)
  {
    if semantic.Consulted? {
      ValidOnesValid(s.ranker, s.names, semantic.judgments);
    }
  }

  // ----- the selection

  lemma {:induction false} RankInRange(ranked: seq<PersistedRank>, version: Id)
    requires forall i :: 0 <= i < |ranked| ==> ranked[i].rank == i + 1
    ensures RankIn(ranked, version) <= |ranked|
  {
    if ranked != [] {
      RankInRange(ranked[..|ranked| - 1], version);
    }
  }

  /** The loop takes the versions in the order of their ranks. */
  lemma {:induction false} WalkAscends(s: Setting, ranked: seq<PersistedRank>)
    requires (forall p :: p in ranked ==> p.version in s.library) && DistinctRanked(ranked)
    requires forall i :: 0 <= i < |ranked| ==> ranked[i].rank == i + 1
    ensures forall i :: 0 <= i < |Walk(s, ranked).0| ==> RisesAt(ranked, Walk(s, ranked).0, i)
  {
    if ranked != [] {
      var n := |ranked| - 1;
      var prefix := ranked[..n];
      WalkAscends(s, prefix);
      WalkSelectsRanked(s, prefix);
      var before, selected := Walk(s, prefix).0, Walk(s, ranked).0;
      assert forall i :: 0 <= i < |before| ==> RisesAt(prefix, before, i);
      assert before <= selected;
      forall i | 0 <= i < |before|
        ensures RankIn(ranked, selected[i]) == RankIn(prefix, before[i]) <= n
      {
        assert before[i] in before;
        var k :| 0 <= k < n && prefix[k].version == before[i];
        assert ranked[k].version != ranked[n].version;
        RankInRange(prefix, before[i]);
      }
      assert RankIn(ranked, ranked[n].version) == n + 1;
      forall i | 0 <= i < |selected|
        ensures RisesAt(ranked, selected, i)
      {
        if i < |before| {
          assert RisesAt(prefix, before, i);
          assert RankIn(ranked, selected[i]) == RankIn(prefix, before[i]);
          assert i > 0 ==> RankIn(ranked, selected[i - 1]) == RankIn(prefix, before[i - 1]);
        } else {
          assert selected == before + [ranked[n].version];
          assert i > 0 ==> RankIn(ranked, selected[i - 1]) <= n;
        }
      }
    }
  }

  lemma {:induction false} RankInArranged(before: seq<PersistedRank>, after: seq<PersistedRank>, version: Id)
    requires ArrangesRanks(before, after)
    ensures RankIn(after, version) == RankIn(before, version)
  {
    if before != [] {
      var n := |before| - 1;
      assert ArrangesRank(before[n], after[n]);
      RankInArranged(before[..n], after[..n], version);
    }
  }

  lemma {:induction false} SelectionValid(s: Setting, input: Run, run: Run)
    requires (forall p :: p in input.ranked ==> p.version in s.library) && DistinctRanked(input.ranked)
    requires forall i :: 0 <= i < |input.ranked| ==> input.ranked[i].rank == i + 1
    requires ArrangesRanks(input.ranked, run.ranked) && run.selected == Walk(s, input.ranked).0
    ensures ValidSelection(run)
  {
    WalkAscends(s, input.ranked);
    hide Walk;
    forall v
      ensures RankIn(run.ranked, v) == RankIn(input.ranked, v)
    {
      RankInArranged(input.ranked, run.ranked, v);
    }
    hide ArrangesRanks, RankIn;
    forall i | 0 <= i < |run.selected|
      ensures RisesAt(run.ranked, run.selected, i)
    {
      assert RisesAt(input.ranked, run.selected, i);
    }
  }

  // ----- the whole run

  lemma {:induction false} EligibleSize(s: Setting, sets: seq<Collection.CandidateSet>)
    requires forall x :: x in sets ==> x.version in s.library
    ensures |Eligible(s, sets)| <= |sets|
  {
    if sets != [] {
      EligibleSize(s, sets[..|sets| - 1]);
    }
  }

  lemma {:induction false} RankedSizes(s: Setting, c: Collection.Collected, final: seq<Candidate>, results: seq<Result>,
                                       input: Run, run: Run)
    requires Canonical(input, run) && Gated(s, c.candidates, input.gates) && Records(c, input.executions)
    requires RanksEligible(s, c, final, results, input.ranked)
    ensures |run.executions| == |c.results| + |c.degraded| && |run.hits| == |input.hits|
            && |run.gates| == |c.candidates|
    ensures |run.ranked| <= |c.candidates| && |run.judgments| == |input.judgments|
  {
    OutcomeShape(s.ranker, final, results);
    EligibleSize(s, c.candidates);
    RecordsSize(c, input.executions);
    hide RanksEligible, InOrder, Records;
    var ranks: seq<PersistedRank>, judgments: seq<Judgment> :| CanonicalOf(input, ranks, judgments, run);
    SameSize(input.executions, run.executions);
    SameSize(input.hits, run.hits);
    SameSize(input.gates, run.gates);
    SameSize(ranks, run.ranked);
    SameSize(judgments, run.judgments);
  }

  /** A ranked run is valid exactly when the channels were served within the limits, the verdicts
      are proper, the strengths are not negative, and the judgments kept name different eligible
      candidates. */
  lemma {:induction false} RankedExactly(s: Setting, g: Collection.Gathering, c: Collection.Collected,
                                         final: seq<Candidate>, results: seq<Result>, input: Run, run: Run)
    requires Collection.Gathers(g, c) && Assembled(s, c, input) && Canonical(input, run)
    requires RanksEligible(s, c, final, results, input.ranked) && DistinctRanked(input.ranked)
    requires (forall p :: p in input.ranked ==> p.version in s.library) && input.selected == Walk(s, input.ranked).0
    requires Gated(s, c.candidates, input.gates)
    requires (forall j :: j in input.judgments ==> ValidJudgment(s.ranker, s.names, j)) && |input.judgments| <= 32
    requires input.disposition == (if input.selected == [] then Abstained else Selected)
    requires input.code == (if input.selected == [] then "below_confidence_threshold" else [])
    ensures ValidRun(run) <==>
            && FullyServed(s, c) && Measured(Eligible(s, c.candidates))
            && JudgmentsFit(Eligible(s, c.candidates), input.judgments)
  {
    hide Collection.Gathers, Records, RanksEligible, AllHits, Gated, Walk, Eligible, DistinctRanked, SortedFrom,
         ArrangesJudgments, ArrangesRanks, ValidExecutions, ValidHitList, ValidGates, ValidRanks, ValidJudgmentList,
         ValidSelection, Served, Measured, JudgmentsFit, ValidJudgment, Proper, VerdictOf, ValidSnapshot;
    RankedSizes(s, c, final, results, input, run);
    StoredRanks(input, run);
    PartsExactly(s, g, c, final, results, input, run);
    var ranks: seq<PersistedRank>, judgments: seq<Judgment> :| CanonicalOf(input, ranks, judgments, run);
  }

  lemma {:induction false} PartsExactly(s: Setting, g: Collection.Gathering, c: Collection.Collected,
                                        final: seq<Candidate>, results: seq<Result>, input: Run, run: Run)
    requires Collection.Gathers(g, c) && Assembled(s, c, input) && Canonical(input, run)
             && ArrangesRanks(input.ranked, run.ranked)
    requires RanksEligible(s, c, final, results, input.ranked) && DistinctRanked(input.ranked)
    requires (forall p :: p in input.ranked ==> p.version in s.library) && input.selected == Walk(s, input.ranked).0
    requires Gated(s, c.candidates, input.gates)
    requires forall j :: j in input.judgments ==> ValidJudgment(s.ranker, s.names, j)
    ensures ValidExecutions(run) <==>
            Served(s, c) && (run.disposition != Failed ==> |c.results| + |c.degraded| == |s.snapshot.indexes|)
    ensures ValidHitList(run) && ValidSelection(run)
    ensures ValidGates(run) <==> forall x :: x in c.candidates ==> Proper(VerdictOf(s, x.version))
    ensures ValidRanks(run) <==> Measured(Eligible(s, c.candidates))
    ensures ValidJudgmentList(run) <==> JudgmentsFit(Eligible(s, c.candidates), input.judgments)
  {
    assert DocumentsFound(s, c);
    hide Collection.Gathers, Records, RanksEligible, AllHits, Gated, Walk, Eligible, DistinctRanked, ArrangesJudgments,
         InOrder, ArrangesRanks, ValidExecutions, ValidHitList, ValidGates, ValidRanks, ValidJudgmentList,
         ValidSelection, Served, Measured, JudgmentsFit, ValidJudgment, Proper, VerdictOf;
    var ranks: seq<PersistedRank>, judgments: seq<Judgment> :| CanonicalOf(input, ranks, judgments, run);
    hide Canonical;
    ExecutionsExactly(s, g, c, input, run);
    HitListValid(g, c, input, run);
    GatesExactly(s, g, c, input, run);
    RanksExactly(s, g, c, final, results, input, run);
    SelectionValid(s, input, run);
    RankedJudgments(s, c, final, results, input, judgments, run);
  }

  lemma {:induction false} RankedJudgments(s: Setting, c: Collection.Collected, final: seq<Candidate>,
                                           results: seq<Result>, input: Run, arranged: seq<Judgment>, run: Run)
    requires RanksEligible(s, c, final, results, input.ranked) && ArrangesRanks(input.ranked, run.ranked)
    requires forall j :: j in input.judgments ==> ValidJudgment(s.ranker, s.names, j)
    requires ArrangesJudgments(input.judgments, arranged) && SortedFrom(JudgmentBefore, arranged, run.judgments)
    ensures ValidJudgmentList(run) <==> JudgmentsFit(Eligible(s, c.candidates), input.judgments)
  {
    assert DocumentsFound(s, c);
    assert ValidManifest(s.ranker);
    hide ValidManifest, RanksEligible, ArrangesRanks, ValidJudgment, ArrangesJudgments, SortedFrom, ValidJudgmentList,
         JudgmentsFit, Eligible, IsCandidate;
    forall v
      ensures (exists p :: p in run.ranked && p.version == v) <==> IsCandidate(Eligible(s, c.candidates), v)
    {
      RankedIsEligible(s, c, final, results, input, run, v);
    }
    JudgmentsExactly(s.ranker, s.names, Eligible(s, c.candidates), input.judgments, arranged, run);
  }
}
