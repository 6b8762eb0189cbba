/** Ranking a list of candidates: one result for every order in which they arrive. */
module RankOrder {
  import opened Identifiers
  import opened Sorting
  import opened Ranking
  import CheckedArithmetic

  /** Better score first, then stronger verification, then observed end to end, then version. */
  predicate Outranks(a: Result, b: Result)
  {
    if a.finalScore != b.finalScore then a.finalScore > b.finalScore
    else if a.strength != b.strength then a.strength > b.strength
    else if a.observed != b.observed then a.observed
    else a.version < b.version
  }

  predicate DistinctVersions(cs: seq<Candidate>)
  {
    forall i, j :: 0 <= i < j < |cs| ==> cs[i].version != cs[j].version
  }

  predicate Rankable(m: Manifest, cs: seq<Candidate>)
  {
    (forall c :: c in cs ==> c.version != EMPTY && ValidCandidate(m, c)) && DistinctVersions(cs)
  }

  function Unranked(results: seq<Result>): (r: seq<Result>)
    ensures |r| == |results|
  {
    seq(|results|, i requires 0 <= i < |results| => results[i].(rank := 0))
  }

  ghost predicate IsRanking(m: Manifest, cs: seq<Candidate>, results: seq<Result>)
    requires ValidManifest(m) && Rankable(m, cs)
  {
    && |results| == |cs|
    && (forall i :: 0 <= i < |results| ==> results[i].rank == i + 1)
    && (forall r :: r in Unranked(results) <==> exists c :: c in cs && r == Score(m, c))
    && SortedBy(Outranks, Unranked(results))
  }

  /** What Rank may answer. */
  ghost predicate IsOutcome(m: Manifest, cs: seq<Candidate>, o: RankOutcome)
  {
    if !ValidManifest(m) then o == InvalidManifest
    else if !Rankable(m, cs) then o == InvalidCandidate
    else o.Ranked? && IsRanking(m, cs, o.results)
  }

  lemma {:induction false} OutranksDecides(results: seq<Result>)
    requires forall i, j :: 0 <= i < j < |results| ==> results[i].version != results[j].version
    ensures NoDuplicates(results) && Orders(Outranks, Elements(results))
  {
    forall a, b | a in Elements(results) && b in Elements(results) && a != b
      ensures Outranks(a, b) || Outranks(b, a)
    {
      var i :| 0 <= i < |results| && results[i] == a;
      var j :| 0 <= j < |results| && results[j] == b;
      assert a.version != b.version;
    }
  }

  /** Of any two results the first has the higher score; at equal scores the stronger verification; at
      equal strength it was observed if the second was; and otherwise its version comes first. */
  predicate InRankOrder(results: seq<Result>)
  {
    forall i, j :: 0 <= i < j < |results| ==>
      && results[i].finalScore >= results[j].finalScore
      && (results[i].finalScore == results[j].finalScore ==> results[i].strength >= results[j].strength)
      && (results[i].finalScore == results[j].finalScore && results[i].strength == results[j].strength ==>
            && (results[j].observed ==> results[i].observed)
            && (results[i].observed == results[j].observed ==> results[i].version < results[j].version))
  }

  /** The results are those of the candidates, best first and numbered from one. */
  ghost predicate Ranks(m: Manifest, cs: seq<Candidate>, results: seq<Result>)
    requires ValidManifest(m) && forall c :: c in cs ==> ValidCandidate(m, c)
  {
    && |results| == |cs| && InRankOrder(results)
    && (forall c :: c in cs ==> HasResult(m, c, results))
    && (forall k :: 0 <= k < |results| ==>
            results[k].rank == k + 1 && IsCandidate(cs, results[k].version))
  }

  predicate IsCandidate(cs: seq<Candidate>, version: Id)
  {
    exists c :: c in cs && c.version == version
  }

  ghost predicate HasResult(m: Manifest, c: Candidate, results: seq<Result>)
    requires ValidManifest(m) && ValidCandidate(m, c)
  {
    exists k :: 0 <= k < |results| && results[k] == Score(m, c).(rank := k + 1)
  }

  lemma {:induction false} RankingRanks(m: Manifest, cs: seq<Candidate>, results: seq<Result>)
    requires ValidManifest(m) && Rankable(m, cs) && IsRanking(m, cs, results)
    ensures Ranks(m, cs, results)
  {
    hide ValidManifest, ValidCandidate, InRankOrder, SortedBy, Score, HasResult, IsCandidate;
    SortedInOrder(results);
    forall c | c in cs
      ensures HasResult(m, c, results)
    {
      ResultPlaced(m, cs, results, c);
    }
    forall k | 0 <= k < |results|
      ensures results[k].rank == k + 1 && IsCandidate(cs, results[k].version)
    {
      ResultNamed(m, cs, results, k);
    }
  }

  lemma {:induction false} SortedInOrder(results: seq<Result>)
    requires SortedBy(Outranks, Unranked(results))
    ensures InRankOrder(results)
  {
    var u := Unranked(results);
    forall i, j | 0 <= i < j < |results|
      ensures Outranks(results[i], results[j])
    {
      assert Outranks(u[i], u[j]);
    }
  }

  lemma {:induction false} ResultPlaced(m: Manifest, cs: seq<Candidate>, results: seq<Result>, c: Candidate)
    requires ValidManifest(m) && Rankable(m, cs) && IsRanking(m, cs, results) && c in cs
    ensures HasResult(m, c, results)
  {
    hide ValidManifest, ValidCandidate, SortedBy, Score;
    var u := Unranked(results);
    assert Score(m, c) in u;
    var k :| 0 <= k < |u| && u[k] == Score(m, c);
    assert results[k] == u[k].(rank := k + 1);
  }

  lemma {:induction false} ResultNamed(m: Manifest, cs: seq<Candidate>, results: seq<Result>, k: nat)
    requires ValidManifest(m) && Rankable(m, cs) && IsRanking(m, cs, results) && k < |results|
    ensures IsCandidate(cs, results[k].version)
  {
    hide ValidManifest, ValidCandidate, SortedBy;
    var u := Unranked(results);
    assert u[k] in u;
    var c :| c in cs && u[k] == Score(m, c);
  }

  method Rank(m: Manifest, cs: seq<Candidate>) returns (o: RankOutcome)
    ensures IsOutcome(m, cs, o)
    ensures o.Ranked? ==> ValidManifest(m) && Rankable(m, cs) && Ranks(m, cs, o.results)
  {
    var fits := ScoreBoundFits(m);
    if !ValidShape(m) || !fits {
      return InvalidManifest;
    }
    var weights := BuildWeights(m.channels);
    var specs := BuildSpecs(m.features);
    var valid, results := ScoreAll(m, cs, weights, specs);
    if !valid {
      return InvalidCandidate;
    }
    OutranksDecides(results);
    var sorted := SortBy(Outranks, results);
    o := Ranked(Number(sorted));
    assert Unranked(o.results) == sorted by {
      SortedKeepsRank(results, sorted);
    }
    assert forall r :: r in sorted <==> r in Elements(results);
    RankingRanks(m, cs, o.results);
  }

  lemma {:induction false} SortedKeepsRank(results: seq<Result>, sorted: seq<Result>)
    requires (forall r :: r in results ==> r.rank == 0) && Elements(sorted) == Elements(results)
    ensures Unranked(Number(sorted)) == sorted
  {
    forall i | 0 <= i < |sorted|
      ensures sorted[i].rank == 0
    {
      assert sorted[i] in Elements(results);
    }
  }

  function Number(results: seq<Result>): (r: seq<Result>)
    ensures |r| == |results| && forall i :: 0 <= i < |r| ==> r[i] == results[i].(rank := i + 1)
  {
    seq(|results|, i requires 0 <= i < |results| => results[i].(rank := i + 1))
  }

  method BuildWeights(channels: seq<ChannelWeight>) returns (weights: map<Id, CheckedArithmetic.Int32>)
    ensures weights == Weights(channels)
  {
    weights := map[];
    for i := 0 to |channels|
      invariant weights == Weights(channels[..i])
    {
      assert channels[..i + 1][..i] == channels[..i];
      weights := weights[channels[i].channel := channels[i].weight];
    }
    assert channels[..|channels|] == channels;
  }

  method BuildSpecs(features: seq<FeatureSpec>) returns (specs: map<Id, FeatureSpec>)
    ensures specs == Specs(features)
  {
    specs := map[];
    for i := 0 to |features|
      invariant specs == Specs(features[..i])
    {
      assert features[..i + 1][..i] == features[..i];
      specs := specs[features[i].name := features[i]];
    }
    assert features[..|features|] == features;
  }

  /** The loop over the candidates. */
  method ScoreAll(m: Manifest, cs: seq<Candidate>, weights: map<Id, CheckedArithmetic.Int32>,
                  specs: map<Id, FeatureSpec>)
    returns (valid: bool, results: seq<Result>)
    requires ValidManifest(m) && weights == Weights(m.channels) && specs == Specs(m.features)
    ensures valid <==> Rankable(m, cs)
    ensures valid ==> |results| == |cs| && forall i :: 0 <= i < |cs| ==> results[i] == Score(m, cs[i])
  {
    hide ValidManifest, ValidCandidate, Weights, Specs;
    results := [];
    assert cs[..0] == [];
    var seen: set<Id> := {};
    for i := 0 to |cs|
      invariant Rankable(m, cs[..i])
      invariant seen == VersionsOf(cs[..i])
      invariant |results| == i && forall k :: 0 <= k < i ==> ValidCandidate(m, cs[k]) && results[k] == Score(m, cs[k])
    {
      hide Rankable, VersionsOf, Score;
      var c := cs[i];
      RankableStep(m, cs, i);
      if c.version == EMPTY {
        return false, [];
      }
      if c.version in seen {
        return false, [];
      }
      seen := seen + {c.version};
      var outcome := ScoreCandidate(m, c, weights, specs);
      if !outcome.Scored? {
        return false, [];
      }
      results := results + [outcome.result];
    }
    assert cs[..|cs|] == cs;
    return true, results;
  }

  function VersionsOf(cs: seq<Candidate>): (versions: set<Id>)
  {
    set c | c in cs :: c.version
  }

  /** What one more candidate takes. */
  lemma {:induction false} RankableStep(m: Manifest, cs: seq<Candidate>, i: nat)
    requires i < |cs| && Rankable(m, cs[..i])
    ensures Rankable(m, cs[..i + 1]) <==>
            cs[i].version != EMPTY && cs[i].version !in VersionsOf(cs[..i]) && ValidCandidate(m, cs[i])
    ensures Rankable(m, cs) ==> Rankable(m, cs[..i + 1])
    ensures VersionsOf(cs[..i + 1]) == VersionsOf(cs[..i]) + {cs[i].version}
  {
    hide ValidCandidate;
    var c, prefix := cs[i], cs[..i + 1];
    assert prefix == cs[..i] + [c];
    if c.version in VersionsOf(cs[..i]) {
      var other :| other in cs[..i] && other.version == c.version;
      var j :| 0 <= j < i && cs[j] == other;
      assert prefix[j].version == prefix[i].version;
    } else {
      forall j | 0 <= j < i ensures prefix[j].version != c.version {
        assert prefix[j] == cs[..i][j] && prefix[j] in cs[..i];
      }
    }
  }

  // ----- the order of arrival does not matter

  /** The same candidate, its channel ranks and features listed in any order. */
  ghost predicate SameCandidate(a: Candidate, b: Candidate)
  {
    && a.version == b.version && a.strength == b.strength && a.observed == b.observed
    && multiset(a.channelRanks) == multiset(b.channelRanks)
    && multiset(a.features) == multiset(b.features)
  }

  /** Two position lists that undo each other. */
  ghost predicate Bijection(p: seq<nat>, q: seq<nat>)
  {
    && |p| == |q|
    && (forall i :: 0 <= i < |p| ==> p[i] < |q| && q[p[i]] == i)
    && (forall j :: 0 <= j < |q| ==> q[j] < |p| && p[q[j]] == j)
  }

  ghost predicate Shuffled(cs: seq<Candidate>, ds: seq<Candidate>, p: seq<nat>, q: seq<nat>)
  {
    && |cs| == |ds| == |p| && Bijection(p, q)
    && (forall i :: 0 <= i < |cs| ==> SameCandidate(cs[i], ds[p[i]]))
  }

  lemma {:induction false} SameDistinctRanks(s: seq<ChannelRank>, t: seq<ChannelRank>)
    requires multiset(s) == multiset(t) && DistinctRanks(s)
    ensures DistinctRanks(t)
  {
    assert NoDuplicates(s);
    SameWithoutDuplicates(s, t);
    forall i, j | 0 <= i < j < |t|
      ensures t[i].channel != t[j].channel
    {
      SameMembers(s, t, t[i]);
      SameMembers(s, t, t[j]);
      var k :| 0 <= k < |s| && s[k] == t[i];
      var l :| 0 <= l < |s| && s[l] == t[j];
    }
  }

  lemma {:induction false} SameDistinctNames(s: seq<FeatureValue>, t: seq<FeatureValue>)
    requires multiset(s) == multiset(t) && DistinctNames(s)
    ensures DistinctNames(t)
  {
    assert NoDuplicates(s);
    SameWithoutDuplicates(s, t);
    forall i, j | 0 <= i < j < |t|
      ensures t[i].name != t[j].name
    {
      SameMembers(s, t, t[i]);
      SameMembers(s, t, t[j]);
      var k :| 0 <= k < |s| && s[k] == t[i];
      var l :| 0 <= l < |s| && s[l] == t[j];
    }
  }

  lemma {:induction false} SameValid(m: Manifest, c: Candidate, d: Candidate)
    requires SameCandidate(c, d) && ValidCandidate(m, c)
    ensures ValidCandidate(m, d)
  {
    SameDistinctRanks(c.channelRanks, d.channelRanks);
    SameDistinctNames(c.features, d.features);
    hide GoodRank, GoodFeature, DistinctRanks, DistinctNames;
    forall r | r in d.channelRanks ensures GoodRank(m, r) {
      SameMembers(c.channelRanks, d.channelRanks, r);
    }
    forall f | f in d.features ensures GoodFeature(m, f) {
      SameMembers(c.features, d.features, f);
    }
  }

  function Without<T>(s: seq<T>, i: nat): (r: seq<T>)
    requires i < |s|
  {
    s[..i] + s[i + 1..]
  }

  lemma {:induction false} WithoutCounts<T>(s: seq<T>, i: nat)
    requires i < |s|
    ensures multiset(Without(s, i)) == multiset(s) - multiset{s[i]}
    ensures forall x :: x in Without(s, i) ==> x in s
  {
    assert s == s[..i] + [s[i]] + s[i + 1..];
  }

  lemma {:induction false} WithoutPrefix<T>(s: seq<T>, i: nat)
    requires i < |s| - 1
    ensures |Without(s, i)| == |s| - 1
    ensures Without(s, i)[..|s| - 2] == Without(s[..|s| - 1], i) && Without(s, i)[|s| - 2] == s[|s| - 1]
  {
  }

  lemma {:induction false} FusionWithout(m: Manifest, ranks: seq<ChannelRank>, i: nat)
    requires i < |ranks| && forall r :: r in ranks ==> GoodRank(m, r)
    ensures forall r :: r in Without(ranks, i) ==> GoodRank(m, r)
    ensures Fusion(m, ranks) == Fusion(m, Without(ranks, i)) + Contribution(m, ranks[i])
  {
    hide GoodRank, Contribution, Without;
    var n := |ranks| - 1;
    WithoutCounts(ranks, i);
    if i == n {
      WithoutLast(ranks);
    } else {
      WithoutPrefix(ranks, i);
      FusionWithout(m, ranks[..n], i);
    }
  }

  lemma {:induction false} WithoutLast<T>(s: seq<T>)
    requires s != []
    ensures Without(s, |s| - 1) == s[..|s| - 1]
  {
  }

  /** The fused score is a sum, so the order of the channel ranks does not change it. */
  lemma {:induction false} FusionIgnoresOrder(m: Manifest, s: seq<ChannelRank>, t: seq<ChannelRank>)
    requires multiset(s) == multiset(t)
    requires (forall r :: r in s ==> GoodRank(m, r)) && (forall r :: r in t ==> GoodRank(m, r))
    ensures Fusion(m, s) == Fusion(m, t)
    decreases |s|
  {
    if s == [] {
      assert |multiset(t)| == 0;
      assert t == [];
    } else {
      hide GoodRank, Contribution, Without;
      var n := |s| - 1;
      SameMembers(s, t, s[n]);
      var i :| 0 <= i < |t| && t[i] == s[n];
      FusionWithout(m, t, i);
      WithoutCounts(t, i);
      WithoutLast(s);
      WithoutCounts(s, n);
      FusionIgnoresOrder(m, s[..n], Without(t, i));
    }
  }

  lemma {:induction false} ProvidedIgnoresOrder(s: seq<FeatureValue>, t: seq<FeatureValue>)
    requires multiset(s) == multiset(t) && DistinctNames(s)
    ensures Provided(s) == Provided(t)
  {
    SameDistinctNames(s, t);
    forall name | name in Provided(s)
      ensures name in Provided(t) && Provided(t)[name] == Provided(s)[name]
    {
      ProvidedMoves(s, t, name);
    }
    forall name | name in Provided(t)
      ensures name in Provided(s)
    {
      ProvidedMoves(t, s, name);
    }
  }

  lemma {:induction false} ProvidedMoves(s: seq<FeatureValue>, t: seq<FeatureValue>, name: Id)
    requires multiset(s) == multiset(t) && DistinctNames(t) && name in Provided(s)
    ensures name in Provided(t) && Provided(t)[name] == Provided(s)[name]
  {
    ProvidedHold(s, name);
    SameMembers(s, t, FeatureValue(name, Provided(s)[name]));
    var i :| 0 <= i < |t| && t[i] == FeatureValue(name, Provided(s)[name]);
    ProvidedContain(t, i);
  }

  lemma {:induction false} ScoreIgnoresOrder(m: Manifest, c: Candidate, d: Candidate)
    requires ValidManifest(m) && SameCandidate(c, d) && ValidCandidate(m, c)
    ensures ValidCandidate(m, d) && Score(m, c) == Score(m, d)
  {
    SameValid(m, c, d);
    FusionIgnoresOrder(m, c.channelRanks, d.channelRanks);
    ProvidedIgnoresOrder(c.features, d.features);
    hide ValidManifest, Fusion, Provided, FeatureTotal;
  }

  lemma {:induction false} ShuffledBack(cs: seq<Candidate>, ds: seq<Candidate>, p: seq<nat>, q: seq<nat>)
    requires Shuffled(cs, ds, p, q)
    ensures Shuffled(ds, cs, q, p)
  {
    forall j | 0 <= j < |ds|
      ensures SameCandidate(ds[j], cs[q[j]])
    {
      assert SameCandidate(cs[q[j]], ds[p[q[j]]]);
    }
  }

  lemma {:induction false} ShuffledRankable(m: Manifest, cs: seq<Candidate>, ds: seq<Candidate>, p: seq<nat>,
                                            q: seq<nat>)
    requires Shuffled(cs, ds, p, q) && Rankable(m, cs)
    ensures Rankable(m, ds)
  {
    hide ValidCandidate;
    ShuffledBack(cs, ds, p, q);
    forall j | 0 <= j < |ds|
      ensures ds[j].version != EMPTY && ValidCandidate(m, ds[j])
    {
      assert SameCandidate(ds[j], cs[q[j]]) && cs[q[j]] in cs;
      SameValid(m, cs[q[j]], ds[j]);
    }
    forall i, j | 0 <= i < j < |ds|
      ensures ds[i].version != ds[j].version
    {
      assert SameCandidate(ds[i], cs[q[i]]) && SameCandidate(ds[j], cs[q[j]]);
      assert q[i] != q[j] by { assert p[q[i]] == i && p[q[j]] == j; }
    }
  }

  /** Every score of one list is a score of the other. */
  lemma {:induction false} ShuffledScores(m: Manifest, cs: seq<Candidate>, ds: seq<Candidate>, p: seq<nat>, q: seq<nat>,
                                          c: Candidate)
    requires Shuffled(cs, ds, p, q) && ValidManifest(m) && Rankable(m, cs) && c in cs
    ensures exists d :: d in ds && ValidCandidate(m, d) && Score(m, c) == Score(m, d)
  {
    hide ValidCandidate, ValidManifest;
    var i :| 0 <= i < |cs| && cs[i] == c;
    assert SameCandidate(cs[i], ds[p[i]]);
    ScoreIgnoresOrder(m, c, ds[p[i]]);
    assert ds[p[i]] in ds;
  }

  /** Rank has one answer. */
  lemma {:induction false} RankingUnique(m: Manifest, cs: seq<Candidate>, a: seq<Result>, b: seq<Result>)
    requires ValidManifest(m) && Rankable(m, cs) && IsRanking(m, cs, a)
    requires |b| == |a| && (forall i :: 0 <= i < |b| ==> b[i].rank == i + 1)
    requires Elements(Unranked(b)) == Elements(Unranked(a)) && SortedBy(Outranks, Unranked(b))
    ensures a == b
  {
    RankingOrdered(m, cs, a);
    SortedByUnique(Outranks, Unranked(a), Unranked(b));
    forall i | 0 <= i < |a|
      ensures a[i] == b[i]
    {
      assert Unranked(a)[i] == Unranked(b)[i];
      assert a[i] == Unranked(a)[i].(rank := i + 1) && b[i] == Unranked(b)[i].(rank := i + 1);
    }
  }

  lemma {:induction false} RankingOrdered(m: Manifest, cs: seq<Candidate>, a: seq<Result>)
    requires ValidManifest(m) && Rankable(m, cs) && IsRanking(m, cs, a)
    ensures Orders(Outranks, Elements(Unranked(a)))
  {
    var scores := Elements(Unranked(a));
    forall x, y | x in scores && y in scores && x != y
      ensures x.version != y.version
    {
      DifferentVersions(m, cs, a, x, y);
    }
    hide IsRanking, Rankable, ValidManifest;
  }

  lemma {:induction false} DifferentVersions(m: Manifest, cs: seq<Candidate>, a: seq<Result>, x: Result, y: Result)
    requires ValidManifest(m) && Rankable(m, cs) && IsRanking(m, cs, a) && x in Unranked(a) && y in Unranked(a)
             && x != y
    ensures x.version != y.version
  {
    hide ValidManifest, ValidCandidate, SortedBy;
    var c :| c in cs && x == Score(m, c);
    var d :| d in cs && y == Score(m, d);
    var i :| 0 <= i < |cs| && cs[i] == c;
    var j :| 0 <= j < |cs| && cs[j] == d;
    assert i != j;
  }

  /** Rank answers the same for every order of the candidates, of their channel ranks and of their features. */
  lemma {:induction false} RankIgnoresOrder(m: Manifest, cs: seq<Candidate>, ds: seq<Candidate>, p: seq<nat>,
                                            q: seq<nat>, a: RankOutcome, b: RankOutcome)
    requires Shuffled(cs, ds, p, q) && IsOutcome(m, cs, a) && IsOutcome(m, ds, b)
    ensures a == b
  {
    hide ValidManifest, ValidCandidate, Shuffled;
    ShuffledBack(cs, ds, p, q);
    if ValidManifest(m) {
      if Rankable(m, cs) {
        ShuffledRankable(m, cs, ds, p, q);
        SameScores(m, cs, ds, p, q, a.results, b.results);
        RankingUnique(m, cs, a.results, b.results);
      } else if Rankable(m, ds) {
        ShuffledRankable(m, ds, cs, q, p);
      }
    }
  }

  lemma {:induction false} SameScores(m: Manifest, cs: seq<Candidate>, ds: seq<Candidate>, p: seq<nat>, q: seq<nat>,
                                      a: seq<Result>, b: seq<Result>)
    requires Shuffled(cs, ds, p, q) && ValidManifest(m) && Rankable(m, cs) && Rankable(m, ds)
    requires IsRanking(m, cs, a) && IsRanking(m, ds, b)
    ensures Elements(Unranked(a)) == Elements(Unranked(b)) && |a| == |b|
  {
    ShuffledBack(cs, ds, p, q);
    assert |cs| == |ds|;
    hide ValidManifest, ValidCandidate, Shuffled;
    forall r | r in Unranked(a) ensures r in Unranked(b) {
      var c :| c in cs && r == Score(m, c);
      ShuffledScores(m, cs, ds, p, q, c);
    }
    forall r | r in Unranked(b) ensures r in Unranked(a) {
      var d :| d in ds && r == Score(m, d);
      ShuffledScores(m, ds, cs, q, p, d);
    }
  }
}
