/** A stored run explains its own ranking: ranking the candidates rebuilt from its hits and
features gives the ranks and scores it holds. */
module Audits {
  import opened Identifiers
  import opened Sorting
  import opened Ranking
  import opened RankOrder
  import opened SemanticRanking
  import opened Runs
  import opened Retrieval
  import Collection

  /** The channel ranks of a version among stored hits. */
  function HitRanks(hits: seq<PersistedHit>, version: Id): (r: seq<ChannelRank>)
  {
    if hits == [] then []
    else
      var before := HitRanks(hits[..|hits| - 1], version);
      var h := hits[|hits| - 1];
      if h.version == version then before + [ChannelRank(h.channel, h.rank)] else before
  }

  function RebuiltFrom(run: Run, p: PersistedRank): (c: Candidate)
  {
    Candidate(p.version, HitRanks(run.hits, p.version), p.features, p.strength, p.observed)
  }

  /** The candidates as the run records them. */
  function Rebuilt(run: Run): (cs: seq<Candidate>)
    ensures |cs| == |run.ranked|
  {
    seq(|run.ranked|, i requires 0 <= i < |run.ranked| => RebuiltFrom(run, run.ranked[i]))
  }

  ghost predicate Matches(r: Result, p: PersistedRank)
  {
    && r == Result(p.version, p.rank, p.rrfScore, p.finalScore, p.strength, p.observed, r.missing)
    && Elements(p.missing) == r.missing
  }

  /** Ranking the rebuilt candidates succeeds and gives the stored ranking. */
  ghost predicate Reproducible(m: Manifest, run: Run)
  {
    forall o :: IsOutcome(m, Rebuilt(run), o) ==>
      o.Ranked? && |o.results| == |run.ranked|
        && forall i :: 0 <= i < |run.ranked| ==> Matches(o.results[i], run.ranked[i])
  }

  // ----- hits

  lemma {:induction false} HitRanksAppend(a: seq<PersistedHit>, b: seq<PersistedHit>, version: Id)
    ensures HitRanks(a + b, version) == HitRanks(a, version) + HitRanks(b, version)
  {
    if b == [] {
      assert a + b == a;
    } else {
      var n := |b| - 1;
      HitRanksAppend(a, b[..n], version);
      assert (a + b)[..|a + b| - 1] == a + b[..n];
    }
  }

  /** The order of the hits does not change which ranks a version has. */
  lemma {:induction false} HitRanksIgnoreOrder(s: seq<PersistedHit>, t: seq<PersistedHit>, version: Id)
    requires multiset(s) == multiset(t)
    ensures multiset(HitRanks(s, version)) == multiset(HitRanks(t, version))
    decreases |s|
  {
    SameSize(s, t);
    if s != [] {
      var n := |s| - 1;
      SameMembers(s, t, s[n]);
      var i :| 0 <= i < |t| && t[i] == s[n];
      WithoutCounts(t, i);
      WithoutCounts(s, n);
      assert Without(s, n) == s[..n];
      HitRanksIgnoreOrder(s[..n], Without(t, i), version);
      HitRanksWithout(t, i, version);
      HitRanksWithout(s, n, version);
    }
  }

  /** One hit more or less. */
  lemma {:induction false} HitRanksWithout(t: seq<PersistedHit>, i: nat, version: Id)
    requires i < |t|
    ensures multiset(HitRanks(t, version))
            == multiset(HitRanks(Without(t, i), version)) + multiset(HitRanks([t[i]], version))
  {
    HitRanksAppend(t[..i], t[i + 1..], version);
    HitRanksAppend(t[..i], [t[i]], version);
    HitRanksAppend(t[..i] + [t[i]], t[i + 1..], version);
    assert t == t[..i] + [t[i]] + t[i + 1..];
  }

  lemma {:induction false} HitRanksOfSet(version: Id, hits: seq<Collection.RankedHit>, wanted: Id)
    ensures HitRanks(HitsOf(Collection.CandidateSet(version, hits)), wanted)
         == if version == wanted then seq(|hits|,
                                          i requires 0 <= i < |hits| => ChannelRank(hits[i].channel, hits[i].rank))
                                          else []
  {
    if hits != [] {
      var n := |hits| - 1;
      HitRanksOfSet(version, hits[..n], wanted);
      assert HitsOf(Collection.CandidateSet(version, hits))[..n] == HitsOf(Collection.CandidateSet(version, hits[..n]));
    }
  }

  /** Before they are sorted, a version's hits are those of its candidate set. */
  lemma {:induction false} HitRanksOfAll(sets: seq<Collection.CandidateSet>, k: nat)
    requires k < |sets| && forall i, j :: 0 <= i < j < |sets| ==> sets[i].version < sets[j].version
    ensures HitRanks(AllHits(sets), sets[k].version)
         == seq(|sets[k].hits|,
                i requires 0 <= i < |sets[k].hits| => ChannelRank(sets[k].hits[i].channel, sets[k].hits[i].rank))
  {
    var n := |sets| - 1;
    HitRanksAppend(AllHits(sets[..n]), HitsOf(sets[n]), sets[k].version);
    HitRanksOfSet(sets[n].version, sets[n].hits, sets[k].version);
    assert sets[n] == Collection.CandidateSet(sets[n].version, sets[n].hits);
    if k < n {
      HitRanksOfAll(sets[..n], k);
    } else {
      NoHitRanks(sets[..n], sets[k].version);
    }
  }

  lemma {:induction false} NoHitRanks(sets: seq<Collection.CandidateSet>, version: Id)
    requires forall i :: 0 <= i < |sets| ==> sets[i].version != version
    ensures HitRanks(AllHits(sets), version) == []
  {
    if sets != [] {
      var n := |sets| - 1;
      NoHitRanks(sets[..n], version);
      HitRanksAppend(AllHits(sets[..n]), HitsOf(sets[n]), version);
      HitRanksOfSet(sets[n].version, sets[n].hits, version);
      assert sets[n] == Collection.CandidateSet(sets[n].version, sets[n].hits);
    }
  }

  // ----- the ranking

  lemma {:induction false} ResultsDistinct(m: Manifest, cs: seq<Candidate>, results: seq<Result>, i: nat, j: nat)
    requires IsOutcome(m, cs, Ranked(results)) && i < j < |results|
    ensures results[i].version != results[j].version
  {
    hide ValidManifest, ValidCandidate;
    var u := Unranked(results);
    assert u[i] in u && u[j] in u;
    var c :| c in cs && u[i] == Score(m, c);
    var d :| d in cs && u[j] == Score(m, d);
    assert Outranks(u[i], u[j]);
    assert c != d;
    var k :| 0 <= k < |cs| && cs[k] == c;
    var l :| 0 <= l < |cs| && cs[l] == d;
    assert k < l || l < k;
  }

  /** Where the result of a candidate stands. */
  ghost function PlaceOf(m: Manifest, cs: seq<Candidate>, results: seq<Result>, i: nat): (k: nat)
    requires IsOutcome(m, cs, Ranked(results)) && i < |cs|
    ensures k < |results| && results[k].version == cs[i].version && results[k].strength == cs[i].strength
            && results[k].observed == cs[i].observed
  {
    PlaceExists(m, cs, results, i);
    var k :| 0 <= k < |results| && results[k].version == cs[i].version && results[k].strength == cs[i].strength
        && results[k].observed == cs[i].observed;
    k
  }

  lemma {:induction false} PlaceExists(m: Manifest, cs: seq<Candidate>, results: seq<Result>, i: nat)
    requires IsOutcome(m, cs, Ranked(results)) && i < |cs|
    ensures exists k :: 0 <= k < |results| && results[k].version == cs[i].version
                && results[k].strength == cs[i].strength && results[k].observed == cs[i].observed
  {
    hide ValidManifest, ValidCandidate;
    assert cs[i] in cs;
    var r := Score(m, cs[i]);
    assert r in Unranked(results);
    var k :| 0 <= k < |results| && Unranked(results)[k] == r;
    assert results[k].version == cs[i].version && results[k].strength == cs[i].strength
           && results[k].observed == cs[i].observed;
  }

  /** The run's candidates are the ranked ones, in the order of their ranks. */
  ghost predicate Recalls(cs: seq<Candidate>, results: seq<Result>, run: Run)
  {
    && |run.ranked| == |results|
    && (forall k :: 0 <= k < |results| ==> Matches(results[k], run.ranked[k]))
    && (forall k, i :: 0 <= k < |results| && 0 <= i < |cs| && cs[i].version == results[k].version ==>
          && multiset(run.ranked[k].features) == multiset(cs[i].features)
          && multiset(HitRanks(run.hits, cs[i].version)) == multiset(cs[i].channelRanks))
  }

  lemma {:induction false} RunReproduces(m: Manifest, cs: seq<Candidate>, results: seq<Result>, run: Run)
    requires IsOutcome(m, cs, Ranked(results)) && Recalls(cs, results, run)
    ensures Reproducible(m, run)
  {
    hide IsOutcome, Recalls, Shuffled, Matches, Rebuilt;
    var p, q := RebuiltShuffled(m, cs, results, run);
    forall o | IsOutcome(m, Rebuilt(run), o)
      ensures o == Ranked(results)
    {
      RankIgnoresOrder(m, cs, Rebuilt(run), p, q, Ranked(results), o);
    }
    RecallsMatches(cs, results, run);
  }

  /** The rebuilt candidates are the ranked ones in another order. */
  lemma {:induction false} RebuiltShuffled(m: Manifest, cs: seq<Candidate>, results: seq<Result>, run: Run)
    returns (p: seq<nat>, q: seq<nat>)
    requires IsOutcome(m, cs, Ranked(results)) && Recalls(cs, results, run)
    ensures Shuffled(cs, Rebuilt(run), p, q)
  {
    OutcomeShape(m, cs, results);
    hide IsOutcome;
    p := seq(|cs|, i requires 0 <= i < |cs| => PlaceOf(m, cs, results, i));
    q := seq(|results|, k requires 0 <= k < |results| => CandidateAt(m, cs, results, k));
    PlacesInvert(m, cs, results, p, q);
    hide Bijection;
    RecallsSize(cs, results, run);
    hide Recalls, Rebuilt, SameCandidate;
    forall i | 0 <= i < |cs|
      ensures SameCandidate(cs[i], Rebuilt(run)[p[i]])
    {
      PlaceRecalls(cs, results, run, i, p[i]);
    }
  }

  lemma {:induction false} RecallsSize(cs: seq<Candidate>, results: seq<Result>, run: Run)
    requires Recalls(cs, results, run)
    ensures |Rebuilt(run)| == |results|
  {
  }

  lemma {:induction false} PlaceRecalls(cs: seq<Candidate>, results: seq<Result>, run: Run, i: nat, k: nat)
    requires Recalls(cs, results, run) && i < |cs| && k < |results| && results[k].version == cs[i].version
    requires results[k].strength == cs[i].strength && results[k].observed == cs[i].observed
    ensures k < |Rebuilt(run)| && SameCandidate(cs[i], Rebuilt(run)[k])
  {
    assert Matches(results[k], run.ranked[k]);
  }

  lemma {:induction false} RecallsMatches(cs: seq<Candidate>, results: seq<Result>, run: Run)
    requires Recalls(cs, results, run)
    ensures |results| == |run.ranked| && forall i :: 0 <= i < |run.ranked| ==> Matches(results[i], run.ranked[i])
  {
  }

  lemma {:induction false} OutcomeShape(m: Manifest, cs: seq<Candidate>, results: seq<Result>)
    requires IsOutcome(m, cs, Ranked(results))
    ensures |results| == |cs| && DistinctVersions(cs)
  {
  }

  ghost function CandidateAt(m: Manifest, cs: seq<Candidate>, results: seq<Result>, k: nat): (i: nat)
    requires IsOutcome(m, cs, Ranked(results)) && k < |results|
    ensures i < |cs| && cs[i].version == results[k].version
  {
    ResultHasCandidate(m, cs, results, k);
    Slot(cs, results[k].version)
  }

  lemma {:induction false} PlacesInvert(m: Manifest, cs: seq<Candidate>, results: seq<Result>, p: seq<nat>, q: seq<nat>)
    requires IsOutcome(m, cs, Ranked(results)) && |p| == |cs| == |results| == |q| && DistinctVersions(cs)
    requires forall i :: 0 <= i < |p| ==> p[i] < |results| && results[p[i]].version == cs[i].version
    requires forall k :: 0 <= k < |q| ==> q[k] < |cs| && cs[q[k]].version == results[k].version
    ensures Bijection(p, q)
  {
    hide IsOutcome;
    forall i | 0 <= i < |p| ensures q[p[i]] == i {
      assert cs[q[p[i]]].version == results[p[i]].version;
    }
    forall k | 0 <= k < |q| ensures p[q[k]] == k {
      assert results[p[q[k]]].version == cs[q[k]].version;
      if p[q[k]] < k {
        ResultsDistinct(m, cs, results, p[q[k]], k);
      } else if k < p[q[k]] {
        ResultsDistinct(m, cs, results, k, p[q[k]]);
      }
    }
  }
}
