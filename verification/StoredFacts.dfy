/** What a stored run records of the channels, the verdicts, the documents and the selection, told in
terms of those alone. */
module StoredFacts {
  import opened Identifiers
  import opened Sorting
  import opened Ranking
  import opened RankOrder
  import opened SemanticRanking
  import opened Runs
  import opened Retrieval
  import opened RunValidity
  import opened Selections
  import opened Storability
  import opened StorableRanking
  import Audits
  import Collection

  // ----- the channels

  predicate Answered(e: Execution, r: Collection.ChannelResult)
  {
    && e.channel == r.channel && e.manifest == r.manifest && e.hitCount == r.hitCount && e.approximate == r.approximate
    && e.complete && e.code == EMPTY && e.latency == r.latency
  }

  predicate Failing(e: Execution, d: Collection.Degraded)
  {
    && e.channel == d.channel && e.manifest == d.manifest && e.hitCount == 0 && e.approximate == d.approximate
    && !e.complete && e.code == d.code && e.latency == d.latency
  }

  predicate Hits(h: PersistedHit, version: Id, x: Collection.RankedHit)
  {
    && h.version == version && h.channel == x.channel && h.rank == x.rank && h.rawScore == x.rawScore
    && h.manifest == x.manifest && h.approximate == x.approximate
  }

  /** Every channel that answered or failed has its execution, and every hit of every candidate is
      listed; there is nothing else. */
  ghost predicate Hears(c: Collection.Collected, run: Run)
  {
    && |run.executions| == |c.results| + |c.degraded|
    && (forall r :: r in c.results ==> exists e :: e in run.executions && Answered(e, r))
    && (forall d :: d in c.degraded ==> exists e :: e in run.executions && Failing(e, d))
    && (forall x, h :: x in c.candidates && h in x.hits ==> exists y :: y in run.hits && Hits(y, x.version, h))
    && (forall y :: y in run.hits ==> exists x, h :: x in c.candidates && h in x.hits && Hits(y, x.version, h))
  }

  lemma {:induction false} RunHears(s: Setting, c: Collection.Collected, input: Run, run: Run)
    requires Assembled(s, c, input) && multiset(run.executions) == multiset(input.executions)
    requires multiset(run.hits) == multiset(input.hits)
    ensures Hears(c, run)
  {
    hide Records, AllHits;
    RecordsSize(c, input.executions);
    SameSize(input.executions, run.executions);
    forall r | r in c.results
      ensures exists e :: e in run.executions && Answered(e, r)
    {
      RecordedIn(c, input.executions, ResultExecution(r));
      SameMembers(input.executions, run.executions, ResultExecution(r));
      assert Answered(ResultExecution(r), r);
    }
    forall d | d in c.degraded
      ensures exists e :: e in run.executions && Failing(e, d)
    {
      RecordedIn(c, input.executions, DegradedExecution(d));
      SameMembers(input.executions, run.executions, DegradedExecution(d));
      assert Failing(DegradedExecution(d), d);
    }
    forall x, h | x in c.candidates && h in x.hits
      ensures exists y :: y in run.hits && Hits(y, x.version, h)
    {
      var y := PersistedHit(h.channel, x.version, h.rank, h.rawScore, h.manifest, h.approximate);
      HitListed(c, x, y);
      SameMembers(input.hits, run.hits, y);
      assert Hits(y, x.version, h);
    }
    forall y | y in run.hits
      ensures exists x, h :: x in c.candidates && h in x.hits && Hits(y, x.version, h)
    {
      SameMembers(input.hits, run.hits, y);
      var x := HitFrom(c, y);
      assert Hits(y, x.version, RankedOf(y));
    }
  }

  lemma {:induction false} HitListed(c: Collection.Collected, x: Collection.CandidateSet, y: PersistedHit)
    requires x in c.candidates && y.version == x.version && RankedOf(y) in x.hits
    ensures y in AllHits(c.candidates)
  {
    var k :| 0 <= k < |c.candidates| && c.candidates[k] == x;
    HitsOfMembers(x, y);
    AllHitsMembers(c.candidates, y);
  }

  lemma {:induction false} HitFrom(c: Collection.Collected, y: PersistedHit) returns (x: Collection.CandidateSet)
    requires y in AllHits(c.candidates)
    ensures x in c.candidates && x.version == y.version && RankedOf(y) in x.hits
  {
    AllHitsMembers(c.candidates, y);
    var k :| 0 <= k < |c.candidates| && y in HitsOf(c.candidates[k]);
    x := c.candidates[k];
    HitsOfMembers(x, y);
  }

  // ----- the gates

  /** The gate repeats the verdict; a version that was not evaluated is not eligible. */
  predicate Repeats(s: Setting, gate: Gate)
  {
    if gate.version in s.verdicts
    then
      && gate.eligible == s.verdicts[gate.version].eligible && gate.codes == s.verdicts[gate.version].codes
      && gate.advisoryOnly == s.verdicts[gate.version].advisoryOnly
    else !gate.eligible && !gate.advisoryOnly && gate.codes == {}
  }

  /** One gate for each candidate, in order. */
  predicate Marks(s: Setting, c: Collection.Collected, run: Run)
  {
    && |run.gates| == |c.candidates|
    && (forall i :: 0 <= i < |run.gates| ==>
            run.gates[i].version == c.candidates[i].version && Repeats(s, run.gates[i]))
  }

  lemma {:induction false} RunMarks(s: Setting, g: Collection.Gathering, c: Collection.Collected, input: Run, run: Run)
    requires Collection.Gathers(g, c) && Gated(s, c.candidates, input.gates)
    requires SortedFrom(GateBefore, input.gates, run.gates)
    ensures Marks(s, c, run)
  {
    GatesAscend(g, c, s, input.gates);
    InOrderUnique(GateBefore, input.gates, run.gates);
    hide Collection.Gathers, InOrder, SortedBy;
    forall i | 0 <= i < |run.gates|
      ensures run.gates[i].version == c.candidates[i].version && Repeats(s, run.gates[i])
    {
      assert run.gates[i] == GateFor(s, c.candidates[i].version);
    }
  }

  // ----- the documents

  /** A ranked entry carries the strength of its document and whether it was observed. */
  predicate Carries(s: Setting, p: PersistedRank)
  {
    p.version in s.library && p.strength == s.library[p.version].strength && p.observed == s.library[p.version].observed
  }

  lemma {:induction false} EntryCarries(s: Setting, c: Collection.Collected, final: seq<Candidate>,
                                        results: seq<Result>, ranked: seq<PersistedRank>, k: nat)
    requires RanksEligible(s, c, final, results, ranked) && k < |ranked|
    ensures Carries(s, ranked[k])
  {
    hide IsOutcome, Eligible, Backed;
    var i := EntryCandidate(s, c, final, results, ranked, k);
    EligibleMembers(s, c.candidates, Eligible(s, c.candidates)[i]);
    EntryObserved(s, c, final, results, ranked, k, i);
  }

  lemma {:induction false} EntryObserved(s: Setting, c: Collection.Collected, final: seq<Candidate>,
                                         results: seq<Result>, ranked: seq<PersistedRank>, k: nat, i: nat)
    requires RanksEligible(s, c, final, results, ranked) && k < |ranked| && i < |final|
    requires final[i].version == ranked[k].version
    ensures ranked[k].observed == final[i].observed
  {
    hide Eligible, IsOutcome;
    var l := PlaceOfCandidate(s, final, results, i);
    assert Backed(final, results[k], ranked[k]);
    assert results[k].version == results[l].version;
    SamePlace(s, final, results, k, l);
  }

  lemma {:induction false} PlaceOfCandidate(s: Setting, final: seq<Candidate>, results: seq<Result>, i: nat)
    returns (l: nat)
    requires IsOutcome(s.ranker, final, Ranked(results)) && i < |final|
    ensures l < |results| && results[l].version == final[i].version && results[l].observed == final[i].observed
  {
    hide IsOutcome;
    l := Audits.PlaceOf(s.ranker, final, results, i);
  }

  lemma {:induction false} SamePlace(s: Setting, final: seq<Candidate>, results: seq<Result>, k: nat, l: nat)
    requires IsOutcome(s.ranker, final, Ranked(results)) && k < |results| && l < |results|
    requires results[k].version == results[l].version
    ensures k == l
  {
    hide IsOutcome;
    if k < l {
      Audits.ResultsDistinct(s.ranker, final, results, k, l);
    } else if l < k {
      Audits.ResultsDistinct(s.ranker, final, results, l, k);
    }
  }

  // ----- the selection

  /** Eligible in full, and with at least the minimum score. */
  predicate Worthy(s: Setting, p: PersistedRank)
  {
    p.finalScore >= s.minimumScore && !(p.version in s.verdicts && s.verdicts[p.version].advisoryOnly)
  }

  ghost function WorthyBefore(s: Setting, ranked: seq<PersistedRank>, i: nat): (places: set<nat>)
    requires i <= |ranked|
  {
    set j: nat | j < i && Worthy(s, ranked[j])
  }

  /** Selected are the worthy entries before which fewer than the maximum are worthy. */
  ghost predicate Chooses(s: Setting, run: Run)
  {
    && (forall i :: 0 <= i < |run.ranked| ==>
          (run.ranked[i].version in run.selected <==>
             Worthy(s, run.ranked[i]) && |WorthyBefore(s, run.ranked, i)| < s.maximumSelections))
    && (forall v :: v in run.selected ==> exists i :: 0 <= i < |run.ranked| && run.ranked[i].version == v)
  }

  lemma {:induction false} QualifyingCounts(s: Setting, ranked: seq<PersistedRank>, i: nat)
    requires i <= |ranked|
    ensures |Qualifying(s, ranked[..i])| == |WorthyBefore(s, ranked, i)|
  {
    if i == 0 {
      assert WorthyBefore(s, ranked, 0) == {};
    } else {
      QualifyingCounts(s, ranked, i - 1);
      assert ranked[..i][..i - 1] == ranked[..i - 1] && ranked[..i][i - 1] == ranked[i - 1];
      WorthyNext(s, ranked, i - 1);
      hide WorthyBefore;
      assert Worthy(s, ranked[i - 1]) <==> Qualified(s, ranked[i - 1]);
    }
  }

  lemma {:induction false} WorthyNext(s: Setting, ranked: seq<PersistedRank>, i: nat)
    requires i < |ranked|
    ensures |WorthyBefore(s, ranked, i + 1)| == |WorthyBefore(s, ranked, i)| + (if Worthy(s, ranked[i]) then 1 else 0)
  {
    assert WorthyBefore(s, ranked, i + 1) == WorthyBefore(s, ranked, i) + (if Worthy(s, ranked[i]) then {i} else {});
  }

  lemma {:induction false} RunChooses(s: Setting, run: Run)
    requires (forall p :: p in run.ranked ==> p.version in s.library) && DistinctRanked(run.ranked)
    requires run.selected == Walk(s, run.ranked).0
    ensures Chooses(s, run)
  {
    WalkSelectsRanked(s, run.ranked);
    forall i | 0 <= i < |run.ranked|
      ensures run.ranked[i].version in run.selected <==>
              Worthy(s, run.ranked[i]) && |WorthyBefore(s, run.ranked, i)| < s.maximumSelections
    {
      SelectedWhere(s, run.ranked, i);
      SelectionIsBest(s, run.ranked[..i]);
      QualifyingCounts(s, run.ranked, i);
      hide Walk, Qualifying, WorthyBefore;
    }
  }

  // ----- the code

  /** Why a run has the outcome it has. */
  ghost predicate Explains(s: Setting, c: Collection.Collected, run: Run)
  {
    var missing := exists k :: 0 <= k < |s.required| && FirstMissing(s, c, k);
    if missing then
      exists k :: 0 <= k < |s.required| && FirstMissing(s, c, k)
                  && run.code == "required_channel_unavailable:" + TextOf(s, s.required[k])
    else if c.candidates == [] then run.code == "no_candidates"
    else if !s.readable || exists x :: x in c.candidates && x.version !in s.library
    then run.code == "candidate_snapshot_missing"
    else if run.ranked == [] then run.code == "no_eligible_candidates"
    else if run.selected == [] then run.code == "below_confidence_threshold"
    else run.code == []
  }

  /** The k-th required channel is the first to be degraded. */
  ghost predicate FirstMissing(s: Setting, c: Collection.Collected, k: nat)
    requires k < |s.required|
  {
    && (exists d :: d in c.degraded && d.channel == s.required[k])
    && forall j :: 0 <= j < k ==> !exists d :: d in c.degraded && d.channel == s.required[j]
  }

  /** A failed run holds no gates and no ranking. */
  ghost predicate Facts(s: Setting, c: Collection.Collected, run: Run)
  {
    && Hears(c, run) && Explains(s, c, run)
    && (run.disposition == Failed ==> run.gates == [] && run.ranked == [] && run.judgments == [])
    && (run.disposition == Failed ==>
          run.code != "no_candidates" && run.code != "no_eligible_candidates"
            && run.code != "below_confidence_threshold")
    && (run.disposition != Failed ==>
          Marks(s, c, run) && Chooses(s, run) && forall p :: p in run.ranked ==> Carries(s, p))
  }
}
