/** Reciprocal-rank fusion and the linear score over it, in checked fixed-point arithmetic. */
module Ranking {
  import opened Identifiers
  import opened CheckedArithmetic

  const RRF_SCALE: Int64 := 1000000

  datatype ChannelWeight = ChannelWeight(channel: Id, weight: Int32)

  datatype FeatureSpec = FeatureSpec(name: Id, minimum: Int32, maximum: Int32, missing: Int32, coefficient: Int32)

  datatype Manifest = Manifest(
    rrfK: nat,
    rrfCoefficient: Int32,
    maxCandidates: nat,
    intercept: Int64,
    channels: seq<ChannelWeight>,
    features: seq<FeatureSpec>
  )

  datatype ChannelRank = ChannelRank(channel: Id, rank: nat)

  datatype FeatureValue = FeatureValue(name: Id, value: Int32)

  datatype Candidate = Candidate(
    version: Id,
    channelRanks: seq<ChannelRank>,
    features: seq<FeatureValue>,
    strength: Int32,
    observed: bool
  )

  datatype Result = Result(version: Id, rank: nat, rrfScore: Int64, finalScore: Int64, strength: Int32, observed: bool,
                           missing: set<Id>)

  datatype RankOutcome = Ranked(results: seq<Result>) | InvalidManifest | InvalidCandidate

  datatype ScoreOutcome = Scored(result: Result) | ScoreOverflow | BadCandidate

  // ----- the manifest

  function Larger(a: int, b: int): (r: int)
  {
    if a > b then a else b
  }

  /** The most one channel can add, at its best rank. */
  function ChannelBound(k: nat, channels: seq<ChannelWeight>): (r: int)
    ensures (forall c :: c in channels ==> c.weight > 0) ==> r >= 0
  {
    if channels == [] then 0
    else
      var last := channels[|channels| - 1];
      ChannelBound(k, channels[..|channels| - 1]) + last.weight * RRF_SCALE / (k + 1)
  }

  /** The most one feature can add or take away. */
  function FeatureTerm(f: FeatureSpec): (r: int)
    ensures r >= 0
  {
    Larger(Magnitude(f.minimum), Magnitude(f.maximum)) * Magnitude(f.coefficient)
  }

  function FeatureBound(features: seq<FeatureSpec>): (r: int)
    ensures r >= 0
  {
    if features == [] then 0 else FeatureBound(features[..|features| - 1]) + FeatureTerm(features[|features| - 1])
  }

  function ScoreBound(m: Manifest): (r: int)
  {
    Magnitude(m.intercept) + ChannelBound(m.rrfK, m.channels) * Magnitude(m.rrfCoefficient) + FeatureBound(m.features)
  }

  /** scoreBoundFits, over unbounded integers. */
  method ScoreBoundFits(m: Manifest) returns (fits: bool)
    ensures fits <==> ScoreBound(m) <= MAX_INT64
  {
    var bound := Magnitude(m.intercept);
    var rrfBound := 0;
    for i := 0 to |m.channels|
      invariant rrfBound == ChannelBound(m.rrfK, m.channels[..i])
    {
      assert m.channels[..i + 1][..i] == m.channels[..i];
      rrfBound := rrfBound + m.channels[i].weight * RRF_SCALE / (m.rrfK + 1);
    }
    assert m.channels[..|m.channels|] == m.channels;
    bound := bound + rrfBound * Magnitude(m.rrfCoefficient);
    ghost var start := bound;
    for i := 0 to |m.features|
      invariant bound == start + FeatureBound(m.features[..i])
    {
      assert m.features[..i + 1][..i] == m.features[..i];
      bound := bound + Larger(Magnitude(m.features[i].minimum),
                              Magnitude(m.features[i].maximum)) * Magnitude(m.features[i].coefficient);
    }
    assert m.features[..|m.features|] == m.features;
    fits := bound <= MAX_INT64;
  }

  predicate AscendingChannels(channels: seq<ChannelWeight>)
  {
    forall i, j :: 0 <= i < j < |channels| ==> channels[i].channel < channels[j].channel
  }

  predicate AscendingFeatures(features: seq<FeatureSpec>)
  {
    forall i, j :: 0 <= i < j < |features| ==> features[i].name < features[j].name
  }

  /** What NewManifest accepts and returns unchanged, apart from the version text; Rank demands this. */
  predicate ValidShape(m: Manifest)
  {
    && 0 < m.rrfK <= 1000000
    && 0 < m.maxCandidates <= 10000
    && m.rrfCoefficient != 0
    && m.channels != []
    && (forall c :: c in m.channels ==> c.channel != EMPTY && c.weight > 0)
    && AscendingChannels(m.channels)
    && (forall f :: f in m.features ==> f.name != EMPTY && f.minimum <= f.missing <= f.maximum)
    && AscendingFeatures(m.features)
  }

  predicate ValidManifest(m: Manifest)
  {
    ValidShape(m) && ScoreBound(m) <= MAX_INT64
  }

  // ----- what a candidate's score is

  function Weights(channels: seq<ChannelWeight>): (r: map<Id, Int32>)
  {
    if channels == [] then map[]
    else Weights(channels[..|channels| - 1])[channels[|channels| - 1].channel := channels[|channels| - 1].weight]
  }

  function Specs(features: seq<FeatureSpec>): (r: map<Id, FeatureSpec>)
  {
    if features == [] then map[]
    else Specs(features[..|features| - 1])[features[|features| - 1].name := features[|features| - 1]]
  }

  function Provided(features: seq<FeatureValue>): (r: map<Id, Int32>)
  {
    if features == [] then map[]
    else Provided(features[..|features| - 1])[features[|features| - 1].name := features[|features| - 1].value]
  }

  predicate DistinctRanks(ranks: seq<ChannelRank>)
  {
    forall i, j :: 0 <= i < j < |ranks| ==> ranks[i].channel != ranks[j].channel
  }

  predicate DistinctNames(features: seq<FeatureValue>)
  {
    forall i, j :: 0 <= i < j < |features| ==> features[i].name != features[j].name
  }

  predicate GoodRank(m: Manifest, r: ChannelRank)
  {
    r.channel in Weights(m.channels) && 0 < r.rank <= m.maxCandidates
  }

  predicate GoodFeature(m: Manifest, f: FeatureValue)
  {
    f.name in Specs(m.features) && Specs(m.features)[f.name].minimum <= f.value <= Specs(m.features)[f.name].maximum
  }

  predicate ValidCandidate(m: Manifest, c: Candidate)
  {
    && (forall r :: r in c.channelRanks ==> GoodRank(m, r))
    && DistinctRanks(c.channelRanks)
    && (forall f :: f in c.features ==> GoodFeature(m, f))
    && DistinctNames(c.features)
  }

  /** A channel's contribution, over unbounded integers. */
  function Contribution(m: Manifest, r: ChannelRank): (v: int)
    requires GoodRank(m, r)
  {
    Weights(m.channels)[r.channel] * RRF_SCALE / (m.rrfK + r.rank)
  }

  function Fusion(m: Manifest, ranks: seq<ChannelRank>): (v: int)
    requires forall r :: r in ranks ==> GoodRank(m, r)
  {
    if ranks == [] then 0 else Fusion(m, ranks[..|ranks| - 1]) + Contribution(m, ranks[|ranks| - 1])
  }

  function ValueOf(provided: map<Id, Int32>, f: FeatureSpec): (v: Int32)
  {
    if f.name in provided then provided[f.name] else f.missing
  }

  function FeatureTotal(provided: map<Id, Int32>, features: seq<FeatureSpec>): (v: int)
  {
    if features == [] then 0
    else FeatureTotal(provided, features[..|features| - 1]) + Term(provided, features[|features| - 1])
  }

  /** What one feature adds. */
  function Term(provided: map<Id, Int32>, f: FeatureSpec): (v: int)
  {
    ValueOf(provided, f) * f.coefficient
  }

  /** The part of the score before the features. */
  function Base(m: Manifest, c: Candidate): (v: int)
    requires ValidCandidate(m, c)
  {
    m.intercept + Fusion(m, c.channelRanks) * m.rrfCoefficient
  }

  /** The score over unbounded integers. */
  function FinalScore(m: Manifest, c: Candidate): (v: int)
    requires ValidCandidate(m, c)
  {
    Base(m, c) + FeatureTotal(Provided(c.features), m.features)
  }

  function Missing(m: Manifest, c: Candidate): (r: set<Id>)
  {
    set f | f in m.features && f.name !in Provided(c.features) :: f.name
  }

  /** The exact result of a candidate, before its rank is known. */
  function Score(m: Manifest, c: Candidate): (r: Result)
    requires ValidManifest(m) && ValidCandidate(m, c)
  {
    ScoreFits(m, c);
    Result(c.version, 0, Fusion(m, c.channelRanks), FinalScore(m, c), c.strength, c.observed, Missing(m, c))
  }

  // ----- no overflow

  lemma {:induction false} WeightsHold(channels: seq<ChannelWeight>, channel: Id)
    requires channel in Weights(channels)
    ensures exists i :: 0 <= i < |channels| && channels[i].channel == channel
                && channels[i].weight == Weights(channels)[channel]
  {
    var n := |channels| - 1;
    if channels[n].channel != channel {
      WeightsHold(channels[..n], channel);
      var i :| 0 <= i < n && channels[..n][i].channel == channel
          && channels[..n][i].weight == Weights(channels)[channel];
      assert channels[i] == channels[..n][i];
    }
  }

  lemma {:induction false} WeightsContain(channels: seq<ChannelWeight>, i: nat)
    requires i < |channels|
    ensures channels[i].channel in Weights(channels)
    ensures AscendingChannels(channels) ==> Weights(channels)[channels[i].channel] == channels[i].weight
  {
    var n := |channels| - 1;
    if i < n {
      WeightsContain(channels[..n], i);
      assert channels[..n][i] == channels[i];
    }
  }

  lemma {:induction false} SpecsHold(features: seq<FeatureSpec>, name: Id)
    requires name in Specs(features)
    ensures Specs(features)[name] in features && Specs(features)[name].name == name
  {
    var n := |features| - 1;
    if features[n].name != name {
      SpecsHold(features[..n], name);
    }
  }

  lemma {:induction false} SpecsContain(features: seq<FeatureSpec>, i: nat)
    requires i < |features| && AscendingFeatures(features)
    ensures features[i].name in Specs(features) && Specs(features)[features[i].name] == features[i]
  {
    var n := |features| - 1;
    if i < n {
      SpecsContain(features[..n], i);
      assert features[..n][i] == features[i];
    }
  }

  lemma {:induction false} ProvidedHold(features: seq<FeatureValue>, name: Id)
    requires name in Provided(features)
    ensures FeatureValue(name, Provided(features)[name]) in features
  {
    var n := |features| - 1;
    if features[n].name != name {
      ProvidedHold(features[..n], name);
    }
  }

  lemma {:induction false} ProvidedContain(features: seq<FeatureValue>, i: nat)
    requires i < |features|
    ensures features[i].name in Provided(features)
    ensures DistinctNames(features) ==> Provided(features)[features[i].name] == features[i].value
  {
    var n := |features| - 1;
    if i < n {
      ProvidedContain(features[..n], i);
      assert features[..n][i] == features[i];
    }
  }

  lemma {:induction false} LargerDivisor(a: int, small: int, large: int)
    requires a >= 0 && 0 < small <= large
    ensures 0 <= a / large <= a / small
  {
    var q := a / large;
    assert a == large * q + a % large;
    if q < 0 {
      Multiples(q, large);
    }
    assert large * q >= small * q by { assert (large - small) * q >= 0; }
    assert a >= small * q;
    AtLeastQuotient(a, small, q);
  }

  lemma {:induction false} AtLeastQuotient(a: int, d: int, q: int)
    requires d > 0 && a >= d * q
    ensures a / d >= q
  {
    var p := a / d;
    assert a == d * p + a % d;
    assert d * (q - p) < d by { assert d * (q - p) == d * q - d * p; }
    Multiples(q - p, d);
  }

  /** Dropping one channel lowers the bound by what that channel can add. */
  lemma {:induction false} ChannelBoundWithout(k: nat, channels: seq<ChannelWeight>, i: nat)
    requires i < |channels|
    ensures ChannelBound(k, channels)
            == ChannelBound(k, channels[..i] + channels[i + 1..]) + channels[i].weight * RRF_SCALE / (k + 1)
  {
    var n := |channels| - 1;
    var rest := channels[..i] + channels[i + 1..];
    if i == n {
      assert rest == channels[..n];
    } else {
      ChannelBoundWithout(k, channels[..n], i);
      assert channels[..n][..i] + channels[..n][i + 1..] == rest[..n - 1];
      assert rest[n - 1] == channels[n];
    }
  }

  predicate CoveredBy(ranks: seq<ChannelRank>, channels: seq<ChannelWeight>)
  {
    forall r :: r in ranks ==> exists c :: c in channels && c.channel == r.channel
  }

  lemma {:induction false} StillCovered(ranks: seq<ChannelRank>, channels: seq<ChannelWeight>, i: nat)
    requires ranks != [] && DistinctRanks(ranks) && CoveredBy(ranks, channels)
    requires i < |channels| && channels[i].channel == ranks[|ranks| - 1].channel
    ensures CoveredBy(ranks[..|ranks| - 1], channels[..i] + channels[i + 1..])
  {
    var n := |ranks| - 1;
    var rest := channels[..i] + channels[i + 1..];
    forall r | r in ranks[..n]
      ensures exists d :: d in rest && d.channel == r.channel
    {
      assert r in ranks && r.channel != ranks[n].channel;
      var d :| d in channels && d.channel == r.channel;
      var j :| 0 <= j < |channels| && channels[j] == d;
      assert rest[if j < i then j else j - 1] == d;
    }
  }

  /** Each channel is used once at most, so the fused score stays within the channel bound. */
  lemma {:induction false} FusionBounded(m: Manifest, ranks: seq<ChannelRank>, channels: seq<ChannelWeight>)
    requires ValidShape(m) && (forall r :: r in ranks ==> GoodRank(m, r)) && DistinctRanks(ranks)
    requires (forall c :: c in channels ==> c in m.channels) && CoveredBy(ranks, channels)
    ensures 0 <= Fusion(m, ranks) <= ChannelBound(m.rrfK, channels)
  {
    assert forall c :: c in channels ==> c.weight > 0;
    if ranks != [] {
      hide ValidShape, AscendingChannels;
      var n := |ranks| - 1;
      var last := ranks[n];
      assert last in ranks;
      var c :| c in channels && c.channel == last.channel;
      var i :| 0 <= i < |channels| && channels[i] == c;
      var rest := channels[..i] + channels[i + 1..];
      StillCovered(ranks, channels, i);
      hide CoveredBy, GoodRank, Contribution;
      FusionBounded(m, ranks[..n], rest);
      ChannelBoundWithout(m.rrfK, channels, i);
      ContributionBounded(m, last, c);
    }
  }

  lemma {:induction false} ContributionBounded(m: Manifest, r: ChannelRank, c: ChannelWeight)
    requires ValidShape(m) && GoodRank(m, r) && c in m.channels && c.channel == r.channel
    ensures 0 <= Contribution(m, r) <= c.weight * RRF_SCALE / (m.rrfK + 1)
  {
    var i :| 0 <= i < |m.channels| && m.channels[i] == c;
    WeightsContain(m.channels, i);
    LargerDivisor(c.weight * RRF_SCALE, m.rrfK + 1, m.rrfK + r.rank);
  }

  lemma {:induction false} MagnitudeProduct(a: int, b: int, bound: int)
    requires Magnitude(a) <= bound
    ensures Magnitude(a * b) == Magnitude(a) * Magnitude(b) <= bound * Magnitude(b)
  {
    assert Magnitude(a * b) == Magnitude(a) * Magnitude(b) by {
      if a >= 0 && b < 0 {
        assert a * -b == -(a * b);
      } else if a < 0 && b >= 0 {
        assert -a * b == -(a * b);
      } else if a < 0 && b < 0 {
        assert -a * -b == a * b;
      }
      assert a >= 0 && b >= 0 ==> a * b >= 0;
      assert a < 0 && b < 0 ==> a * b >= 0;
      assert a >= 0 && b < 0 ==> a * b <= 0;
      assert a < 0 && b >= 0 ==> a * b <= 0;
    }
    assert (bound - Magnitude(a)) * Magnitude(b) >= 0;
  }

  predicate ValuesInRange(provided: map<Id, Int32>, features: seq<FeatureSpec>)
  {
    forall f :: f in features ==> f.minimum <= ValueOf(provided, f) <= f.maximum
  }

  lemma {:induction false} ProvidedInRange(m: Manifest, c: Candidate)
    requires ValidShape(m) && ValidCandidate(m, c)
    ensures ValuesInRange(Provided(c.features), m.features)
  {
    var provided := Provided(c.features);
    forall f | f in m.features
      ensures f.minimum <= ValueOf(provided, f) <= f.maximum
    {
      if f.name in provided {
        ProvidedHold(c.features, f.name);
        assert GoodFeature(m, FeatureValue(f.name, provided[f.name]));
        var i :| 0 <= i < |m.features| && m.features[i] == f;
        SpecsContain(m.features, i);
      }
    }
  }

  lemma {:induction false} TermBounded(provided: map<Id, Int32>, f: FeatureSpec)
    requires f.minimum <= ValueOf(provided, f) <= f.maximum
    ensures Magnitude(Term(provided, f)) <= FeatureTerm(f)
  {
    MagnitudeProduct(ValueOf(provided, f), f.coefficient, Larger(Magnitude(f.minimum), Magnitude(f.maximum)));
  }

  lemma {:induction false} FeatureTotalBounded(provided: map<Id, Int32>, features: seq<FeatureSpec>)
    requires ValuesInRange(provided, features)
    ensures Magnitude(FeatureTotal(provided, features)) <= FeatureBound(features)
  {
    if features != [] {
      var n := |features| - 1;
      assert features[n] in features;
      FeatureTotalBounded(provided, features[..n]);
      TermBounded(provided, features[n]);
    }
  }

  lemma {:induction false} FeatureBoundGrows(features: seq<FeatureSpec>, i: nat)
    requires i <= |features|
    ensures FeatureBound(features[..i]) <= FeatureBound(features)
    decreases |features| - i
  {
    if i < |features| {
      FeatureBoundGrows(features, i + 1);
      assert features[..i + 1][..i] == features[..i];
    } else {
      assert features[..i] == features;
    }
  }

  lemma {:induction false} AllCovered(m: Manifest, ranks: seq<ChannelRank>)
    requires forall r :: r in ranks ==> GoodRank(m, r)
    ensures CoveredBy(ranks, m.channels)
  {
    forall r | r in ranks
      ensures exists c :: c in m.channels && c.channel == r.channel
    {
      WeightsHold(m.channels, r.channel);
      var i :| 0 <= i < |m.channels| && m.channels[i].channel == r.channel;
      assert m.channels[i] in m.channels;
    }
  }

  lemma {:induction false} AtLeastOnce(bound: int, factor: int)
    requires bound >= 0 && factor >= 1
    ensures 0 <= bound <= bound * factor
  {
    assert bound * factor == bound * (factor - 1) + bound;
  }

  /** Each part of the bound, and each product on the way to it, is in range. */
  lemma {:induction false} BoundParts(m: Manifest)
    requires ValidManifest(m)
    ensures var bound, factor := ChannelBound(m.rrfK, m.channels), Magnitude(m.rrfCoefficient);
            0 <= bound <= bound * factor
              && Magnitude(m.intercept) + bound * factor + FeatureBound(m.features) <= MAX_INT64
  {
    AtLeastOnce(ChannelBound(m.rrfK, m.channels), Magnitude(m.rrfCoefficient));
  }

  /** The fused score of the first ranks is in range and stays so once scaled by its coefficient. */
  lemma {:induction false} FusionFits(m: Manifest, ranks: seq<ChannelRank>)
    requires ValidManifest(m) && (forall r :: r in ranks ==> GoodRank(m, r)) && DistinctRanks(ranks)
    ensures Fits(Fusion(m, ranks))
    ensures Magnitude(Fusion(m, ranks) * m.rrfCoefficient)
            <= ChannelBound(m.rrfK, m.channels) * Magnitude(m.rrfCoefficient)
    ensures Fits(Fusion(m, ranks) * m.rrfCoefficient) && Fits(m.intercept + Fusion(m, ranks) * m.rrfCoefficient)
  {
    AllCovered(m, ranks);
    FusionBounded(m, ranks, m.channels);
    BoundParts(m);
    var fusion, bound := Fusion(m, ranks), ChannelBound(m.rrfK, m.channels);
    hide ValidManifest, GoodRank, DistinctRanks, ChannelBound, FeatureBound;
    MagnitudeProduct(fusion, m.rrfCoefficient, bound);
  }

  /** With the first i features added, the running score is still in range. */
  lemma {:induction false} PartialScoreFits(m: Manifest, c: Candidate, i: nat)
    requires ValidManifest(m) && ValidCandidate(m, c) && i <= |m.features|
    ensures Fits(Base(m, c) + FeatureTotal(Provided(c.features), m.features[..i]))
  {
    FusionFits(m, c.channelRanks);
    ProvidedInRange(m, c);
    assert ValuesInRange(Provided(c.features), m.features[..i]);
    FeatureTotalBounded(Provided(c.features), m.features[..i]);
    FeatureBoundGrows(m.features, i);
  }

  lemma {:induction false} ScoreFits(m: Manifest, c: Candidate)
    requires ValidManifest(m) && ValidCandidate(m, c)
    ensures Fits(Fusion(m, c.channelRanks)) && Fits(FinalScore(m, c))
  {
    FusionFits(m, c.channelRanks);
    PartialScoreFits(m, c, |m.features|);
    assert m.features[..|m.features|] == m.features;
  }

  /** A feature term is in range on its own. */
  lemma {:induction false} TermFits(m: Manifest, c: Candidate, i: nat)
    requires ValidManifest(m) && ValidCandidate(m, c) && i < |m.features|
    ensures Fits(Term(Provided(c.features), m.features[i]))
  {
    ProvidedInRange(m, c);
    BoundParts(m);
    hide ValidManifest, ValidCandidate, ChannelBound, Provided;
    assert m.features[i] in m.features;
    TermBounded(Provided(c.features), m.features[i]);
    FeatureBoundGrows(m.features, i + 1);
    assert m.features[..i + 1][..i] == m.features[..i];
  }

  // ----- scoring one candidate

  /** scoreCandidate: no overflow branch is ever taken, and the result is the exact score. */
  method ScoreCandidate(m: Manifest, c: Candidate, weights: map<Id, Int32>, specs: map<Id, FeatureSpec>)
    returns (outcome: ScoreOutcome)
    requires ValidManifest(m) && weights == Weights(m.channels) && specs == Specs(m.features)
    ensures outcome == if ValidCandidate(m, c) then Scored(Score(m, c)) else BadCandidate
  {
    var good, rrfScore := FuseRanks(m, c, weights);
    if good != Good {
      return if good == Bad then BadCandidate else ScoreOverflow;
    }
    var provided: map<Id, Int32>;
    good, provided := CollectFeatures(m, c, specs);
    if good != Good {
      return BadCandidate;
    }
    ScoreFits(m, c);
    FusionFits(m, c.channelRanks);
    outcome := AddFeatures(m, c, rrfScore, provided);
  }

  datatype Progress = Good | Bad | Overflowed

  /** The first loop: the fused score. */
  method FuseRanks(m: Manifest, c: Candidate, weights: map<Id, Int32>) returns (p: Progress, rrfScore: Int64)
    requires ValidManifest(m) && weights == Weights(m.channels)
    ensures p != Overflowed
    ensures p == Good <==> (forall r :: r in c.channelRanks ==> GoodRank(m, r)) && DistinctRanks(c.channelRanks)
    ensures p == Good ==> rrfScore == Fusion(m, c.channelRanks)
  {
    rrfScore := 0;
    var seen: set<Id> := {};
    var ranks := c.channelRanks;
    for i := 0 to |ranks|
      invariant forall r :: r in ranks[..i] ==> GoodRank(m, r)
      invariant DistinctRanks(ranks[..i])
      invariant seen == set r | r in ranks[..i] :: r.channel
      invariant rrfScore == Fusion(m, ranks[..i])
    {
      hide ValidManifest, Weights, Fusion, ChannelBound, FeatureBound;
      var r := ranks[i];
      assert ranks[..i + 1] == ranks[..i] + [r];
      if r.channel !in weights || r.rank == 0 || r.rank > m.maxCandidates {
        assert r in ranks && !GoodRank(m, r);
        return Bad, 0;
      }
      if r.channel in seen {
        var other :| other in ranks[..i] && other.channel == r.channel;
        var j :| 0 <= j < i && ranks[j] == other;
        return Bad, 0;
      }
      seen := seen + {r.channel};
      assert DistinctRanks(ranks[..i + 1]);
      FusionStep(m, ranks, i);
      var product := CheckedMul(weights[r.channel], RRF_SCALE);
      if product.Overflow? {
        return Overflowed, rrfScore;
      }
      var sum := CheckedAdd(rrfScore, product.value / (m.rrfK + r.rank));
      if sum.Overflow? {
        return Overflowed, rrfScore;
      }
      rrfScore := sum.value;
    }
    assert ranks[..|ranks|] == ranks;
    return Good, rrfScore;
  }

  /** One more rank: the weight scaled, its share and the running sum are all in range. */
  lemma {:induction false} FusionStep(m: Manifest, ranks: seq<ChannelRank>, i: nat)
    requires ValidManifest(m) && i < |ranks|
    requires (forall r :: r in ranks[..i + 1] ==> GoodRank(m, r)) && DistinctRanks(ranks[..i + 1])
    ensures forall r :: r in ranks[..i] ==> GoodRank(m, r)
    ensures GoodRank(m, ranks[i]) && ranks[i].channel in Weights(m.channels)
    ensures Fusion(m, ranks[..i + 1]) == Fusion(m, ranks[..i]) + Contribution(m, ranks[i])
    ensures Fits(Weights(m.channels)[ranks[i].channel] * RRF_SCALE) && Fits(Contribution(m, ranks[i]))
            && Fits(Fusion(m, ranks[..i + 1]))
    ensures Weights(m.channels)[ranks[i].channel] >= 0
  {
    assert ranks[..i + 1][..i] == ranks[..i] && ranks[..i + 1][i] == ranks[i];
    assert forall r :: r in ranks[..i] ==> r in ranks[..i + 1];
    assert ranks[i] in ranks[..i + 1];
    hide ValidManifest, DistinctRanks, Contribution, Weights;
    FusionFits(m, ranks[..i + 1]);
    ContributionFits(m, ranks[i]);
  }

  lemma {:induction false} ContributionFits(m: Manifest, r: ChannelRank)
    requires ValidManifest(m) && GoodRank(m, r)
    ensures r.channel in Weights(m.channels) && Weights(m.channels)[r.channel] >= 0
    ensures Fits(Weights(m.channels)[r.channel] * RRF_SCALE) && Fits(Contribution(m, r))
  {
    WeightsHold(m.channels, r.channel);
    var i :| 0 <= i < |m.channels| && m.channels[i].channel == r.channel
        && m.channels[i].weight == Weights(m.channels)[r.channel];
    assert m.channels[i] in m.channels;
    hide Weights, ChannelBound, FeatureBound, AscendingChannels, AscendingFeatures;
    LargerDivisor(m.channels[i].weight * RRF_SCALE, 1, m.rrfK + r.rank);
  }

  /** The second loop: the provided features by name. */
  method CollectFeatures(m: Manifest, c: Candidate, specs: map<Id, FeatureSpec>)
    returns (p: Progress, provided: map<Id, Int32>)
    requires specs == Specs(m.features)
    ensures p != Overflowed
    ensures p == Good <==> (forall f :: f in c.features ==> GoodFeature(m, f)) && DistinctNames(c.features)
    ensures p == Good ==> provided == Provided(c.features)
  {
    provided := map[];
    var features := c.features;
    for i := 0 to |features|
      invariant forall f :: f in features[..i] ==> GoodFeature(m, f)
      invariant DistinctNames(features[..i])
      invariant provided == Provided(features[..i])
    {
      hide Provided, Specs;
      var f := features[i];
      assert features[..i + 1] == features[..i] + [f];
      ProvidedStep(features, i);
      if f.name !in specs || f.value < specs[f.name].minimum || f.value > specs[f.name].maximum {
        assert f in features && !GoodFeature(m, f);
        return Bad, map[];
      }
      if f.name in provided {
        ProvidedHold(features[..i], f.name);
        var j :| 0 <= j < i && features[j].name == f.name;
        return Bad, map[];
      }
      provided := provided[f.name := f.value];
    }
    assert features[..|features|] == features;
    return Good, provided;
  }

  lemma {:induction false} ProvidedStep(features: seq<FeatureValue>, i: nat)
    requires i < |features|
    ensures Provided(features[..i + 1]) == Provided(features[..i])[features[i].name := features[i].value]
    ensures features[i].name !in Provided(features[..i]) ==>
            forall j :: 0 <= j < i ==> features[j].name != features[i].name
  {
    assert features[..i + 1][..i] == features[..i];
    forall j | 0 <= j < i
      ensures features[j].name in Provided(features[..i])
    {
      ProvidedContain(features[..i], j);
    }
  }

  /** The last loop: the linear score over the fused score and every feature of the manifest. */
  method AddFeatures(m: Manifest, c: Candidate, rrfScore: Int64, provided: map<Id, Int32>)
    returns (outcome: ScoreOutcome)
    requires ValidManifest(m) && ValidCandidate(m, c) && provided == Provided(c.features)
             && rrfScore == Fusion(m, c.channelRanks)
    ensures outcome == Scored(Score(m, c))
  {
    hide *;
    ScoreIs(m, c);
    var rrfTerm := CheckedMul(rrfScore, m.rrfCoefficient);
    if rrfTerm.Overflow? {
      return ScoreOverflow;
    }
    var sum := CheckedAdd(m.intercept, rrfTerm.value);
    if sum.Overflow? {
      return ScoreOverflow;
    }
    var ok, finalScore, missing := SumFeatures(m, c, sum.value, provided);
    if !ok {
      return ScoreOverflow;
    }
    return Scored(Result(c.version, 0, rrfScore, finalScore, c.strength, c.observed, missing));
  }

  /** One feature: the product, then the sum. */
  method AddTerm(score: Int64, value: Int32, spec: FeatureSpec, ghost provided: map<Id, Int32>)
    returns (ok: bool, sum: Int64)
    requires value == ValueOf(provided, spec) && Fits(Term(provided, spec)) && Fits(score + Term(provided, spec))
    ensures ok && sum == score + Term(provided, spec)
  {
    var term := CheckedMul(value, spec.coefficient);
    if term.Overflow? {
      return false, score;
    }
    var next := CheckedAdd(score, term.value);
    if next.Overflow? {
      return false, score;
    }
    return true, next.value;
  }

  function Absent(features: seq<FeatureSpec>, provided: map<Id, Int32>): (names: set<Id>)
  {
    set f | f in features && f.name !in provided :: f.name
  }

  lemma {:induction false} NoneAbsent(provided: map<Id, Int32>)
    ensures Absent([], provided) == {}
  {
  }

  lemma {:induction false} AbsentNext(features: seq<FeatureSpec>, i: nat, provided: map<Id, Int32>)
    requires i < |features|
    ensures Absent(features[..i + 1], provided)
            == Absent(features[..i], provided) + (if features[i].name in provided then {} else {features[i].name})
  {
    assert features[..i + 1] == features[..i] + [features[i]];
  }

  method SumFeatures(m: Manifest, c: Candidate, start: Int64, provided: map<Id, Int32>)
    returns (ok: bool, finalScore: Int64, missing: set<Id>)
    requires ValidManifest(m) && ValidCandidate(m, c) && provided == Provided(c.features)
    requires start == Base(m, c)
    ensures ok && finalScore == start + FeatureTotal(provided, m.features)
    ensures missing == set f | f in m.features && f.name !in provided :: f.name
  {
    finalScore, missing := start, {};
    NoneAbsent(provided);
    for i := 0 to |m.features|
      invariant finalScore == start + FeatureTotal(provided, m.features[..i])
      invariant missing == Absent(m.features[..i], provided)
    {
      hide *;
      var spec := m.features[i];
      AbsentNext(m.features, i, provided);
      var value := ValueOf(provided, spec);
      if spec.name !in provided {
        missing := missing + {spec.name};
      }
      TermFits(m, c, i);
      PartialScoreFits(m, c, i + 1);
      FeatureTotalStep(provided, m.features, i);
      ok, finalScore := AddTerm(finalScore, value, spec, provided);
      if !ok {
        return;
      }
    }
    assert m.features[..|m.features|] == m.features;
    ok := true;
  }

  lemma {:induction false} ScoreIs(m: Manifest, c: Candidate)
    requires ValidManifest(m) && ValidCandidate(m, c)
    ensures var r := Score(m, c);
            && r == Result(c.version, 0, r.rrfScore, r.finalScore, c.strength, c.observed, r.missing)
            && r.rrfScore == Fusion(m, c.channelRanks)
            && r.finalScore == Base(m, c) + FeatureTotal(Provided(c.features), m.features)
            && Base(m, c) == m.intercept + Fusion(m, c.channelRanks) * m.rrfCoefficient
            && r.missing == set f | f in m.features && f.name !in Provided(c.features) :: f.name
    ensures Fits(Fusion(m, c.channelRanks) * m.rrfCoefficient)
            && Fits(m.intercept + Fusion(m, c.channelRanks) * m.rrfCoefficient)
  {
    FusionFits(m, c.channelRanks);
    hide ValidManifest, ValidCandidate, Provided, Fusion, FeatureTotal;
  }

  lemma {:induction false} FeatureTotalStep(provided: map<Id, Int32>, features: seq<FeatureSpec>, i: nat)
    requires i < |features|
    ensures FeatureTotal(provided, features[..i + 1])
            == FeatureTotal(provided, features[..i]) + Term(provided, features[i])
  {
    assert features[..i + 1][..i] == features[..i];
  }
}
