/** What a score is made of, told without computing it: where it starts, and what each channel rank,
each feature value and each missing feature contributes. Together the laws determine every score. */
module ScoreLaws {
  import opened Identifiers
  import opened CheckedArithmetic
  import opened Ranking
  import opened RankOrder

  // ----- which candidates are scored

  /** Known channels, each once and within the limit; known features, each once and within its range. */
  predicate Scorable(m: Manifest, c: Candidate)
  {
    && (forall r :: r in c.channelRanks ==>
          0 < r.rank <= m.maxCandidates && exists w :: w in m.channels && w.channel == r.channel)
    && (forall i, j :: 0 <= i < j < |c.channelRanks| ==> c.channelRanks[i].channel != c.channelRanks[j].channel)
    && (forall f :: f in c.features ==>
          exists s :: s in m.features && s.name == f.name && s.minimum <= f.value <= s.maximum)
    && (forall i, j :: 0 <= i < j < |c.features| ==> c.features[i].name != c.features[j].name)
  }

  lemma {:induction false} ScoredExactly(m: Manifest, c: Candidate)
    requires ValidManifest(m)
    ensures ValidCandidate(m, c) <==> Scorable(m, c)
  {
    hide ScoreBound, AscendingChannels;
    forall r: ChannelRank
      ensures GoodRank(m, r) <==>
              0 < r.rank <= m.maxCandidates && exists w :: w in m.channels && w.channel == r.channel
    {
      KnownChannel(m, r.channel);
    }
    forall f: FeatureValue
      ensures GoodFeature(m, f) <==>
              exists s :: s in m.features && s.name == f.name && s.minimum <= f.value <= s.maximum
    {
      KnownFeature(m, f);
    }
    hide GoodRank, GoodFeature, ValidManifest;
  }

  lemma {:induction false} KnownChannel(m: Manifest, channel: Id)
    ensures channel in Weights(m.channels) <==> exists w :: w in m.channels && w.channel == channel
  {
    if channel in Weights(m.channels) {
      WeightsHold(m.channels, channel);
    }
    if w :| w in m.channels && w.channel == channel {
      var i :| 0 <= i < |m.channels| && m.channels[i] == w;
      WeightsContain(m.channels, i);
    }
  }

  lemma {:induction false} KnownFeature(m: Manifest, f: FeatureValue)
    requires AscendingFeatures(m.features)
    ensures GoodFeature(m, f) <==>
            exists s :: s in m.features && s.name == f.name && s.minimum <= f.value <= s.maximum
  {
    if GoodFeature(m, f) {
      SpecsHold(m.features, f.name);
    }
    if s :| s in m.features && s.name == f.name && s.minimum <= f.value <= s.maximum {
      var i :| 0 <= i < |m.features| && m.features[i] == s;
      SpecsContain(m.features, i);
    }
  }

  // ----- the features given

  /** The values given are those listed. */
  lemma {:induction false} ProvidedIs(features: seq<FeatureValue>, name: Id)
    requires DistinctNames(features)
    ensures name in Provided(features) <==> exists f :: f in features && f.name == name
    ensures forall f :: f in features && f.name == name ==> Provided(features)[name] == f.value
  {
    if name in Provided(features) {
      ProvidedHold(features, name);
    }
    forall f | f in features && f.name == name
      ensures name in Provided(features) && Provided(features)[name] == f.value
    {
      var i :| 0 <= i < |features| && features[i] == f;
      ProvidedContain(features, i);
    }
  }

  lemma {:induction false} ProvidedReplaced(features: seq<FeatureValue>, i: nat, y: Int32)
    requires DistinctNames(features) && i < |features|
    ensures var replaced := features[i := FeatureValue(features[i].name, y)];
            DistinctNames(replaced) && Provided(replaced) == Provided(features)[features[i].name := y]
  {
    var replaced := features[i := FeatureValue(features[i].name, y)];
    assert replaced[i] in replaced && features[i] in features;
    forall name
      ensures name in Provided(replaced) <==> name in Provided(features)[features[i].name := y]
      ensures name in Provided(replaced) ==> Provided(replaced)[name] == Provided(features)[features[i].name := y][name]
    {
      ProvidedIs(features, name);
      ProvidedIs(replaced, name);
      if f :| f in features && f.name == name {
        var k :| 0 <= k < |features| && features[k] == f;
        assert replaced[k] in replaced && replaced[k].name == name;
      }
      if f :| f in replaced && f.name == name {
        var k :| 0 <= k < |features| && replaced[k] == f;
        assert features[k] in features && features[k].name == name;
      }
    }
  }

  lemma {:induction false} ProvidedWithout(features: seq<FeatureValue>, i: nat)
    requires DistinctNames(features) && i < |features|
    ensures DistinctNames(Without(features, i))
    ensures Provided(Without(features, i)) == Provided(features) - {features[i].name}
  {
    var fewer := Without(features, i);
    WithoutMembers(features, i);
    forall name
      ensures name in Provided(fewer) <==> name in Provided(features) - {features[i].name}
      ensures name in Provided(fewer) ==>
              name in Provided(features) && Provided(fewer)[name] == Provided(features)[name]
    {
      hide Without, DistinctNames, Provided;
      ProvidedIs(features, name);
      ProvidedIs(fewer, name);
    }
    hide Provided;
  }

  lemma {:induction false} WithoutMembers(features: seq<FeatureValue>, i: nat)
    requires DistinctNames(features) && i < |features|
    ensures DistinctNames(Without(features, i))
    ensures forall f :: f in Without(features, i) <==> f in features && f.name != features[i].name
  {
    var fewer := Without(features, i);
    forall f | f in features && f.name != features[i].name
      ensures f in fewer
    {
      var k :| 0 <= k < |features| && features[k] == f;
      assert fewer[if k < i then k else k - 1] == f;
    }
    forall f | f in fewer
      ensures f in features && f.name != features[i].name
    {
      var k :| 0 <= k < |fewer| && fewer[k] == f;
      assert features[if k < i then k else k + 1] == f;
    }
  }

  // ----- the total over the manifest's features

  lemma {:induction false} TotalUnmoved(a: map<Id, Int32>, b: map<Id, Int32>, features: seq<FeatureSpec>)
    requires forall s :: s in features ==> (s.name in a <==> s.name in b) && (s.name in a ==> a[s.name] == b[s.name])
    ensures FeatureTotal(a, features) == FeatureTotal(b, features)
  {
    if features != [] {
      TotalUnmoved(a, b, features[..|features| - 1]);
    }
  }

  /** Two assignments that differ in one feature. */
  lemma {:induction false} TotalMoves(a: map<Id, Int32>, b: map<Id, Int32>, features: seq<FeatureSpec>, k: nat)
    requires AscendingFeatures(features) && k < |features|
    requires forall s :: s in features && s.name != features[k].name ==>
               (s.name in a <==> s.name in b) && (s.name in a ==> a[s.name] == b[s.name])
    ensures FeatureTotal(b, features)
            == FeatureTotal(a, features) - Term(a, features[k]) + Term(b, features[k])
  {
    hide Term;
    var n := |features| - 1;
    var init := features[..n];
    if k == n {
      TotalUnmoved(a, b, init);
    } else {
      assert init[k] == features[k];
      TotalMoves(a, b, init, k);
      SameTerm(a, b, features[n]);
    }
  }

  lemma {:induction false} SameTerm(a: map<Id, Int32>, b: map<Id, Int32>, s: FeatureSpec)
    requires (s.name in a <==> s.name in b) && (s.name in a ==> a[s.name] == b[s.name])
    ensures Term(a, s) == Term(b, s)
  {
  }

  // ----- the laws

  /** Changing one value from x to y moves the final score by y less x times the coefficient. */
  lemma {:induction false} ValueMoves(m: Manifest, c: Candidate, i: nat, y: Int32, k: nat)
    requires ValidManifest(m) && ValidCandidate(m, c) && i < |c.features| && k < |m.features|
    requires m.features[k].name == c.features[i].name && m.features[k].minimum <= y <= m.features[k].maximum
    ensures var d := c.(features := c.features[i := FeatureValue(c.features[i].name, y)]);
            && ValidCandidate(m, d)
            && Score(m, d).finalScore
               == Score(m, c).finalScore + (y - c.features[i].value) * m.features[k].coefficient
            && Score(m, d).rrfScore == Score(m, c).rrfScore && Score(m, d).missing == Score(m, c).missing
  {
    var x, s := c.features[i].value, m.features[k];
    var d := c.(features := c.features[i := FeatureValue(s.name, y)]);
    ProvidedReplaced(c.features, i, y);
    ProvidedIs(c.features, s.name);
    assert c.features[i] in c.features;
    StillValid(m, c, d, i, k);
    var before, after := Provided(c.features), Provided(d.features);
    assert AscendingFeatures(m.features);
    hide ValidManifest, ValidCandidate, Fusion, FeatureTotal, Provided;
    TotalMoves(before, after, m.features, k);
    assert Term(before, s) == x * s.coefficient && Term(after, s) == y * s.coefficient;
    DifferenceTimes(x, y, s.coefficient);
    hide Term;
  }

  lemma {:induction false} DifferenceTimes(x: int, y: int, coefficient: int)
    ensures (y - x) * coefficient == y * coefficient - x * coefficient
  {
  }

  lemma {:induction false} StillValid(m: Manifest, c: Candidate, d: Candidate, i: nat, k: nat)
    requires ValidManifest(m) && ValidCandidate(m, c) && i < |c.features| && k < |m.features|
    requires d == c.(features := d.features) && DistinctNames(d.features)
    requires |d.features| == |c.features|
             && forall j :: 0 <= j < |c.features| && j != i ==> d.features[j] == c.features[j]
    requires d.features[i].name == m.features[k].name
    requires m.features[k].minimum <= d.features[i].value <= m.features[k].maximum
    ensures ValidCandidate(m, d)
  {
    SpecsContain(m.features, k);
    hide ScoreBound, AscendingChannels, Weights, Specs;
    forall f | f in d.features
      ensures GoodFeature(m, f)
    {
      var j :| 0 <= j < |d.features| && d.features[j] == f;
      assert j != i ==> c.features[j] in c.features;
    }
  }

  /** Leaving a feature out is giving it the manifest's value for missing features, and saying so. */
  lemma {:induction false} DroppedIsMissing(m: Manifest, c: Candidate, i: nat, k: nat)
    requires ValidManifest(m) && ValidCandidate(m, c) && i < |c.features| && k < |m.features|
    requires m.features[k].name == c.features[i].name && c.features[i].value == m.features[k].missing
    ensures var d := c.(features := Without(c.features, i));
            && ValidCandidate(m, d)
            && Score(m, d) == Score(m, c).(missing := Score(m, c).missing + {c.features[i].name})
  {
    var s, d := m.features[k], c.(features := Without(c.features, i));
    ProvidedWithout(c.features, i);
    ProvidedIs(c.features, s.name);
    assert c.features[i] in c.features;
    FewerValid(m, c, i);
    var before, after := Provided(c.features), Provided(d.features);
    TotalMoves(before, after, m.features, k);
    assert Term(before, s) == Term(after, s);
    MissingMore(m, before, after, k);
    hide ValidManifest, ValidCandidate, Fusion, FeatureTotal, Provided, Term;
  }

  lemma {:induction false} FewerValid(m: Manifest, c: Candidate, i: nat)
    requires ValidCandidate(m, c) && i < |c.features|
    ensures ValidCandidate(m, c.(features := Without(c.features, i)))
  {
    hide GoodRank, GoodFeature;
    var fewer := Without(c.features, i);
    forall f | f in fewer
      ensures GoodFeature(m, f)
    {
      var j :| 0 <= j < |fewer| && fewer[j] == f;
      assert c.features[if j < i then j else j + 1] == f;
    }
  }

  lemma {:induction false} MissingMore(m: Manifest, before: map<Id, Int32>, after: map<Id, Int32>, k: nat)
    requires k < |m.features| && m.features[k].name in before && after == before - {m.features[k].name}
    ensures (set f | f in m.features && f.name !in after :: f.name)
         == (set f | f in m.features && f.name !in before :: f.name) + {m.features[k].name}
  {
    assert m.features[k] in m.features;
  }

  /** The sum of the manifest's values for missing features, by coefficient. */
  function Defaults(features: seq<FeatureSpec>): (v: int)
  {
    if features == [] then 0
    else features[0].missing * features[0].coefficient + Defaults(features[1..])
  }

  lemma {:induction false} DefaultsAppend(features: seq<FeatureSpec>, s: FeatureSpec)
    ensures Defaults(features + [s]) == Defaults(features) + s.missing * s.coefficient
  {
    if features != [] {
      assert (features + [s])[1..] == features[1..] + [s];
      DefaultsAppend(features[1..], s);
    }
  }

  lemma {:induction false} TotalOfNone(features: seq<FeatureSpec>)
    ensures FeatureTotal(map[], features) == Defaults(features)
  {
    if features != [] {
      var n := |features| - 1;
      TotalOfNone(features[..n]);
      DefaultsAppend(features[..n], features[n]);
      assert features == features[..n] + [features[n]];
    }
  }

  /** Without ranks and features the score is the intercept and the defaults, and all is missing. */
  lemma {:induction false} BareScore(m: Manifest, c: Candidate)
    requires ValidManifest(m) && c.channelRanks == [] && c.features == []
    ensures ValidCandidate(m, c)
    ensures Score(m, c) == Result(c.version, 0, 0, Score(m, c).finalScore, c.strength, c.observed,
                                  set f | f in m.features :: f.name)
    ensures Score(m, c).finalScore == m.intercept + Defaults(m.features)
  {
    TotalOfNone(m.features);
    hide ValidManifest, FeatureTotal, Defaults;
  }

  /** A rank on a channel not yet used adds the channel's share to the fused score, and its multiple to
      the final one. */
  lemma {:induction false} RankAdds(m: Manifest, c: Candidate, w: nat, rank: nat)
    requires ValidManifest(m) && ValidCandidate(m, c) && w < |m.channels| && 0 < rank <= m.maxCandidates
    requires forall r :: r in c.channelRanks ==> r.channel != m.channels[w].channel
    ensures var d := c.(channelRanks := c.channelRanks + [ChannelRank(m.channels[w].channel, rank)]);
            var share := m.channels[w].weight * 1000000 / (m.rrfK + rank);
            && ValidCandidate(m, d)
            && Score(m, d).rrfScore == Score(m, c).rrfScore + share
            && Score(m, d).finalScore == Score(m, c).finalScore + m.rrfCoefficient * share
            && Score(m, d).missing == Score(m, c).missing
  {
    var r := ChannelRank(m.channels[w].channel, rank);
    var d := c.(channelRanks := c.channelRanks + [r]);
    WeightsContain(m.channels, w);
    assert GoodRank(m, r);
    assert ValidCandidate(m, d) by {
      hide GoodRank, GoodFeature;
    }
    assert d.channelRanks[..|d.channelRanks| - 1] == c.channelRanks;
    var share := m.channels[w].weight * 1000000 / (m.rrfK + rank);
    assert Fusion(m, d.channelRanks) == Fusion(m, c.channelRanks) + share;
    assert (Fusion(m, c.channelRanks) + share) * m.rrfCoefficient
        == Fusion(m, c.channelRanks) * m.rrfCoefficient + m.rrfCoefficient * share;
    hide ValidManifest, ValidCandidate, Fusion, FeatureTotal, Provided;
  }

  // ----- the bound is reached

  /** First place on every channel. */
  function FirstEverywhere(channels: seq<ChannelWeight>): (ranks: seq<ChannelRank>)
    ensures |ranks| == |channels|
  {
    seq(|channels|, i requires 0 <= i < |channels| => ChannelRank(channels[i].channel, 1))
  }

  /** The channel bound is the fused score of a candidate that is first on every channel. */
  lemma {:induction false} ChannelBoundReached(m: Manifest, c: Candidate)
    requires ValidManifest(m) && c.channelRanks == FirstEverywhere(m.channels) && c.features == []
    ensures ValidCandidate(m, c) && Score(m, c).rrfScore == ChannelBound(m.rrfK, m.channels)
  {
    FirstOnes(m, |m.channels|);
    assert m.channels[..|m.channels|] == m.channels;
  }

  lemma {:induction false} FirstOnes(m: Manifest, n: nat)
    requires ValidManifest(m) && n <= |m.channels|
    ensures forall r :: r in FirstEverywhere(m.channels[..n]) ==> GoodRank(m, r)
    ensures Fusion(m, FirstEverywhere(m.channels[..n])) == ChannelBound(m.rrfK, m.channels[..n])
  {
    if n > 0 {
      FirstOnes(m, n - 1);
      WeightsContain(m.channels, n - 1);
      var ranks := FirstEverywhere(m.channels[..n]);
      assert ranks[..n - 1] == FirstEverywhere(m.channels[..n - 1]);
      assert m.channels[..n][..n - 1] == m.channels[..n - 1];
    }
  }

  /** A feature's share of the bound is the greatest amount its values can move a score, at one end of its range. */
  lemma {:induction false} TermReached(f: FeatureSpec)
    ensures FeatureTerm(f) == Magnitude(f.minimum * f.coefficient)
            || FeatureTerm(f) == Magnitude(f.maximum * f.coefficient)
  {
    ProductMagnitude(f.minimum, f.coefficient);
    ProductMagnitude(f.maximum, f.coefficient);
  }

  lemma {:induction false} ProductMagnitude(a: int, b: int)
    ensures Magnitude(a * b) == Magnitude(a) * Magnitude(b)
  {
  }
}
