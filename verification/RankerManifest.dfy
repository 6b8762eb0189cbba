/** NewManifest sorts channels and features by the names it is given and only then trims the names. It
therefore accepts manifests that ranking refuses; exactly which is told here. Trimming is any function
on names that changes nothing the second time. */
module RankerManifest {
  import opened Identifiers
  import opened Sorting
  import opened CheckedArithmetic
  import opened Ranking

  datatype Outcome = Made(manifest: Manifest) | Invalid

  predicate ChannelBefore(a: ChannelWeight, b: ChannelWeight) { a.channel < b.channel }

  predicate SpecBefore(a: FeatureSpec, b: FeatureSpec) { a.name < b.name }

  ghost predicate Trims(trim: Id -> Id)
  {
    forall x :: trim(trim(x)) == trim(x)
  }

  function TrimmedChannels(trim: Id -> Id, channels: seq<ChannelWeight>): (r: seq<ChannelWeight>)
    ensures |r| == |channels|
  {
    seq(|channels|, i requires 0 <= i < |channels| => channels[i].(channel := trim(channels[i].channel)))
  }

  function TrimmedFeatures(trim: Id -> Id, features: seq<FeatureSpec>): (r: seq<FeatureSpec>)
    ensures |r| == |features|
  {
    seq(|features|, i requires 0 <= i < |features| => features[i].(name := trim(features[i].name)))
  }

  // ----- what NewManifest makes

  /** The checks of the loop over the channels. */
  predicate GoodChannels(channels: seq<ChannelWeight>)
  {
    && (forall i :: 0 <= i < |channels| ==> channels[i].channel != EMPTY && channels[i].weight > 0)
    && (forall i :: 0 < i < |channels| ==> channels[i - 1].channel != channels[i].channel)
  }

  predicate GoodFeatures(features: seq<FeatureSpec>)
  {
    && (forall i :: 0 <= i < |features| ==>
            features[i].name != EMPTY && features[i].minimum <= features[i].missing <= features[i].maximum)
    && (forall i :: 0 < i < |features| ==> features[i - 1].name != features[i].name)
  }

  ghost predicate MakesChannels(trim: Id -> Id, given: seq<ChannelWeight>, made: seq<ChannelWeight>)
  {
    && GoodChannels(made)
    && exists sorted :: multiset(sorted) == multiset(given) && InOrder(ChannelBefore, sorted)
                        && made == TrimmedChannels(trim, sorted)
  }

  ghost predicate MakesFeatures(trim: Id -> Id, given: seq<FeatureSpec>, made: seq<FeatureSpec>)
  {
    && GoodFeatures(made)
    && exists sorted :: multiset(sorted) == multiset(given) && InOrder(SpecBefore, sorted)
                        && made == TrimmedFeatures(trim, sorted)
  }

  predicate InBounds(m: Manifest)
  {
    0 < m.rrfK <= 1000000 && 0 < m.maxCandidates <= 10000 && m.rrfCoefficient != 0 && m.channels != []
  }

  ghost predicate Makes(trim: Id -> Id, spec: Manifest, m: Manifest)
  {
    && m == spec.(channels := m.channels, features := m.features)
    && InBounds(m) && ScoreBound(m) <= MAX_INT64
    && MakesChannels(trim, spec.channels, m.channels) && MakesFeatures(trim, spec.features, m.features)
  }

  /** NewManifest, apart from the version text and the hash. */
  method NewManifest(trim: Id -> Id, spec: Manifest) returns (o: Outcome)
    ensures o.Made? ==> Makes(trim, spec, o.manifest)
    ensures o.Invalid? ==> forall m :: !Makes(trim, spec, m)
  {
    hide MakesChannels, MakesFeatures, ScoreBound, Sorting.InOrder;
    if !InBounds(spec) {
      SameBounds(trim, spec);
      return Invalid;
    }
    var channelsGood, channels := NewChannels(trim, spec.channels);
    if !channelsGood {
      return Invalid;
    }
    var featuresGood, features := NewFeatures(trim, spec.features);
    if !featuresGood {
      return Invalid;
    }
    var m := spec.(channels := channels, features := features);
    NotEmptied(trim, spec.channels, channels);
    var fits := ScoreBoundFits(m);
    if !fits {
      return Invalid;
    }
    return Made(m);
  }

  lemma {:induction false} SameBounds(trim: Id -> Id, spec: Manifest)
    ensures !InBounds(spec) ==> forall m :: !Makes(trim, spec, m)
  {
    hide MakesFeatures, ScoreBound;
    forall m | Makes(trim, spec, m)
      ensures InBounds(spec)
    {
      NotEmptied(trim, spec.channels, m.channels);
    }
  }

  lemma {:induction false} NotEmptied(trim: Id -> Id, given: seq<ChannelWeight>, made: seq<ChannelWeight>)
    requires MakesChannels(trim, given, made)
    ensures |made| == |given|
  {
    var sorted: seq<ChannelWeight> :| multiset(sorted) == multiset(given) && InOrder(ChannelBefore, sorted)
        && made == TrimmedChannels(trim, sorted);
    SameSize(sorted, given);
  }

  method NewChannels(trim: Id -> Id, given: seq<ChannelWeight>) returns (good: bool, made: seq<ChannelWeight>)
    ensures good ==> MakesChannels(trim, given, made)
    ensures forall other :: MakesChannels(trim, given, other) ==> good && other == made
  {
    var sorted := Sort(ChannelBefore, given);
    made := TrimmedChannels(trim, sorted);
    ghost var all := made;
    OneChannelList(trim, given, sorted);
    for i := 0 to |sorted|
      invariant made == all
      invariant forall k :: 0 <= k < i ==> made[k].channel != EMPTY && made[k].weight > 0
      invariant forall k :: 0 < k < i ==> made[k - 1].channel != made[k].channel
    {
      hide MakesChannels, TrimmedChannels, InOrder;
      if made[i].channel == EMPTY || made[i].weight <= 0 || (i > 0 && made[i - 1].channel == made[i].channel) {
        return false, made;
      }
    }
    good := true;
  }

  method NewFeatures(trim: Id -> Id, given: seq<FeatureSpec>) returns (good: bool, made: seq<FeatureSpec>)
    ensures good ==> MakesFeatures(trim, given, made)
    ensures forall other :: MakesFeatures(trim, given, other) ==> good && other == made
  {
    var sorted := Sort(SpecBefore, given);
    made := TrimmedFeatures(trim, sorted);
    ghost var all := made;
    OneFeatureList(trim, given, sorted);
    for i := 0 to |sorted|
      invariant made == all
      invariant forall k :: 0 <= k < i ==>
                    made[k].name != EMPTY && made[k].minimum <= made[k].missing <= made[k].maximum
      invariant forall k :: 0 < k < i ==> made[k - 1].name != made[k].name
    {
      hide MakesFeatures, TrimmedFeatures, InOrder;
      if made[i].name == EMPTY || made[i].minimum > made[i].maximum || made[i].missing < made[i].minimum
         || made[i].missing > made[i].maximum || (i > 0 && made[i - 1].name == made[i].name) {
        return false, made;
      }
    }
    good := true;
  }

  /** However ties fall, only one list can come out: names given twice stay next to each other. */
  lemma {:induction false} OneChannelList(trim: Id -> Id, given: seq<ChannelWeight>, sorted: seq<ChannelWeight>)
    requires multiset(sorted) == multiset(given) && InOrder(ChannelBefore, sorted)
    ensures forall other :: MakesChannels(trim, given, other) ==>
              other == TrimmedChannels(trim, sorted) && GoodChannels(TrimmedChannels(trim, sorted))
  {
    forall other: seq<ChannelWeight> | MakesChannels(trim, given, other)
      ensures other == TrimmedChannels(trim, sorted)
    {
      var arranged: seq<ChannelWeight> :| multiset(arranged) == multiset(given) && InOrder(ChannelBefore, arranged)
          && other == TrimmedChannels(trim, arranged);
      forall i | 0 < i < |arranged|
        ensures arranged[i - 1].channel != arranged[i].channel
      {
        assert other[i - 1].channel != other[i].channel;
      }
      ChannelsAscend(arranged);
      InOrderUnique(ChannelBefore, arranged, sorted);
    }
  }

  lemma {:induction false} OneFeatureList(trim: Id -> Id, given: seq<FeatureSpec>, sorted: seq<FeatureSpec>)
    requires multiset(sorted) == multiset(given) && InOrder(SpecBefore, sorted)
    ensures forall other :: MakesFeatures(trim, given, other) ==>
              other == TrimmedFeatures(trim, sorted) && GoodFeatures(TrimmedFeatures(trim, sorted))
  {
    forall other: seq<FeatureSpec> | MakesFeatures(trim, given, other)
      ensures other == TrimmedFeatures(trim, sorted)
    {
      var arranged: seq<FeatureSpec> :| multiset(arranged) == multiset(given) && InOrder(SpecBefore, arranged)
          && other == TrimmedFeatures(trim, arranged);
      forall i | 0 < i < |arranged|
        ensures arranged[i - 1].name != arranged[i].name
      {
        assert other[i - 1].name != other[i].name;
      }
      FeaturesAscend(arranged);
      InOrderUnique(SpecBefore, arranged, sorted);
    }
  }

  /** In order and with different neighbours is strictly ascending. */
  lemma {:induction false} ChannelsAscend(channels: seq<ChannelWeight>)
    requires InOrder(ChannelBefore, channels)
    requires forall i :: 0 < i < |channels| ==> channels[i - 1].channel != channels[i].channel
    ensures AscendingChannels(channels) && SortedBy(ChannelBefore, channels)
  {
    forall i, j | 0 <= i < j < |channels|
      ensures channels[i].channel < channels[j].channel
    {
      assert channels[j - 1].channel != channels[j].channel;
      assert !ChannelBefore(channels[j], channels[j - 1])
             && (i < j - 1 ==> !ChannelBefore(channels[j - 1], channels[i]));
    }
  }

  lemma {:induction false} FeaturesAscend(features: seq<FeatureSpec>)
    requires InOrder(SpecBefore, features)
    requires forall i :: 0 < i < |features| ==> features[i - 1].name != features[i].name
    ensures AscendingFeatures(features) && SortedBy(SpecBefore, features)
  {
    forall i, j | 0 <= i < j < |features|
      ensures features[i].name < features[j].name
    {
      assert features[j - 1].name != features[j].name;
      assert !SpecBefore(features[j], features[j - 1]) && (i < j - 1 ==> !SpecBefore(features[j - 1], features[i]));
    }
  }

  // ----- what ranking accepts

  lemma {:induction false} ChannelsTrimmed(trim: Id -> Id, given: seq<ChannelWeight>, made: seq<ChannelWeight>)
    requires Trims(trim) && MakesChannels(trim, given, made)
    ensures TrimmedChannels(trim, made) == made
  {
    var source: seq<ChannelWeight> :| multiset(source) == multiset(given) && InOrder(ChannelBefore, source)
        && made == TrimmedChannels(trim, source);
    forall i | 0 <= i < |made|
      ensures trim(made[i].channel) == made[i].channel
    {
      assert made[i].channel == trim(source[i].channel);
    }
  }

  /** Trimming a rearrangement of trimmed names changes nothing. */
  lemma {:induction false} ChannelsStay(trim: Id -> Id, made: seq<ChannelWeight>, sorted: seq<ChannelWeight>)
    requires TrimmedChannels(trim, made) == made && multiset(sorted) == multiset(made)
    ensures TrimmedChannels(trim, sorted) == sorted
  {
    forall i | 0 <= i < |sorted|
      ensures trim(sorted[i].channel) == sorted[i].channel
    {
      SameMembers(sorted, made, sorted[i]);
      var k :| 0 <= k < |made| && made[k] == sorted[i];
      assert TrimmedChannels(trim, made)[k].channel == trim(made[k].channel);
    }
  }

  lemma {:induction false} ChannelsRemade(trim: Id -> Id, given: seq<ChannelWeight>, made: seq<ChannelWeight>)
    requires Trims(trim) && MakesChannels(trim, given, made)
    ensures MakesChannels(trim, made, made) <==> AscendingChannels(made)
  {
    ChannelsTrimmed(trim, given, made);
    hide Trims, TrimmedChannels;
    if MakesChannels(trim, made, made) {
      var sorted: seq<ChannelWeight> :| multiset(sorted) == multiset(made) && InOrder(ChannelBefore, sorted)
          && made == TrimmedChannels(trim, sorted);
      ChannelsStay(trim, made, sorted);
      ChannelsAscend(made);
    }
    if AscendingChannels(made) {
      assert InOrder(ChannelBefore, made);
    }
  }

  lemma {:induction false} FeaturesTrimmed(trim: Id -> Id, given: seq<FeatureSpec>, made: seq<FeatureSpec>)
    requires Trims(trim) && MakesFeatures(trim, given, made)
    ensures TrimmedFeatures(trim, made) == made
  {
    var source: seq<FeatureSpec> :| multiset(source) == multiset(given) && InOrder(SpecBefore, source)
        && made == TrimmedFeatures(trim, source);
    forall i | 0 <= i < |made|
      ensures trim(made[i].name) == made[i].name
    {
      assert made[i].name == trim(source[i].name);
    }
  }

  /** Trimming a rearrangement of trimmed names changes nothing. */
  lemma {:induction false} FeaturesStay(trim: Id -> Id, made: seq<FeatureSpec>, sorted: seq<FeatureSpec>)
    requires TrimmedFeatures(trim, made) == made && multiset(sorted) == multiset(made)
    ensures TrimmedFeatures(trim, sorted) == sorted
  {
    forall i | 0 <= i < |sorted|
      ensures trim(sorted[i].name) == sorted[i].name
    {
      SameMembers(sorted, made, sorted[i]);
      var k :| 0 <= k < |made| && made[k] == sorted[i];
      assert TrimmedFeatures(trim, made)[k].name == trim(made[k].name);
    }
  }

  lemma {:induction false} FeaturesRemade(trim: Id -> Id, given: seq<FeatureSpec>, made: seq<FeatureSpec>)
    requires Trims(trim) && MakesFeatures(trim, given, made)
    ensures MakesFeatures(trim, made, made) <==> AscendingFeatures(made)
  {
    FeaturesTrimmed(trim, given, made);
    hide Trims, TrimmedFeatures;
    if MakesFeatures(trim, made, made) {
      var sorted: seq<FeatureSpec> :| multiset(sorted) == multiset(made) && InOrder(SpecBefore, sorted)
          && made == TrimmedFeatures(trim, sorted);
      FeaturesStay(trim, made, sorted);
      FeaturesAscend(made);
    }
    if AscendingFeatures(made) {
      assert InOrder(SpecBefore, made);
    }
  }

  /** Rank makes the manifest again and compares. A manifest that was made passes exactly when its
      trimmed names ascend, and exactly then it is one that ranking accepts. */
  lemma {:induction false} RemadeExactly(trim: Id -> Id, spec: Manifest, m: Manifest)
    requires Trims(trim) && Makes(trim, spec, m)
    ensures Makes(trim, m, m) <==> AscendingChannels(m.channels) && AscendingFeatures(m.features)
    ensures Makes(trim, m, m) <==> ValidManifest(m)
  {
    ChannelsRemade(trim, spec.channels, m.channels);
    FeaturesRemade(trim, spec.features, m.features);
    MadeGood(trim, spec, m);
    hide MakesChannels, MakesFeatures, AscendingChannels, AscendingFeatures, ScoreBound, Trims;
  }

  lemma {:induction false} MadeGood(trim: Id -> Id, spec: Manifest, m: Manifest)
    requires Makes(trim, spec, m)
    ensures forall c :: c in m.channels ==> c.channel != EMPTY && c.weight > 0
    ensures forall f :: f in m.features ==> f.name != EMPTY && f.minimum <= f.missing <= f.maximum
  {
    hide ScoreBound, TrimmedChannels, TrimmedFeatures, InOrder;
  }

  /** From names without surrounding space ranking accepts whatever NewManifest makes. */
  lemma {:induction false} CleanNamesAccepted(trim: Id -> Id, spec: Manifest, m: Manifest)
    requires Trims(trim) && Makes(trim, spec, m)
    requires forall c :: c in spec.channels ==> trim(c.channel) == c.channel
    requires forall f :: f in spec.features ==> trim(f.name) == f.name
    ensures ValidManifest(m)
  {
    hide ScoreBound, Trims, ValidManifest;
    var channels :| multiset(channels) == multiset(spec.channels) && InOrder(ChannelBefore, channels)
        && m.channels == TrimmedChannels(trim, channels);
    forall i | 0 <= i < |channels|
      ensures m.channels[i] == channels[i]
    {
      SameMembers(channels, spec.channels, channels[i]);
    }
    assert m.channels == channels;
    ChannelsAscend(m.channels);
    var features :| multiset(features) == multiset(spec.features) && InOrder(SpecBefore, features)
        && m.features == TrimmedFeatures(trim, features);
    forall i | 0 <= i < |features|
      ensures m.features[i] == features[i]
    {
      SameMembers(features, spec.features, features[i]);
    }
    assert m.features == features;
    FeaturesAscend(m.features);
    RemadeExactly(trim, spec, m);
  }

  // ----- a manifest that is made and then refused

  /** 1 and 2 are the names 3 and 4 with a space before them. */
  function WithoutSpace(x: Id): (r: Id)
  {
    if x == 1 then 3 else if x == 2 then 4 else x
  }

  const SPACED := Manifest(60, 1, 10, 0, [ChannelWeight(1, 1), ChannelWeight(2, 1), ChannelWeight(3, 1)], [])
  const REPEATING := SPACED.(channels := [ChannelWeight(3, 1), ChannelWeight(4, 1), ChannelWeight(3, 1)])

  lemma {:induction false} RefusedExample()
    ensures Trims(WithoutSpace) && Makes(WithoutSpace, SPACED, REPEATING) && !ValidManifest(REPEATING)
  {
    hide MakesChannels, MakesFeatures, ScoreBound;
    SpacedChannels();
    NoFeatures();
    BoundIsSmall();
    assert REPEATING.channels[0].channel == REPEATING.channels[2].channel;
  }

  lemma {:induction false} SpacedChannels()
    ensures MakesChannels(WithoutSpace, SPACED.channels, REPEATING.channels)
  {
    var given, made := SPACED.channels, REPEATING.channels;
    assert WithoutSpace(1) == 3 && WithoutSpace(2) == 4 && WithoutSpace(3) == 3;
    assert given[0].channel == 1 && given[1].channel == 2 && given[2].channel == 3;
    var trimmed := TrimmedChannels(WithoutSpace, given);
    assert trimmed[0] == made[0] && trimmed[1] == made[1] && trimmed[2] == made[2];
    assert trimmed == made && InOrder(ChannelBefore, given);
  }

  lemma {:induction false} NoFeatures()
    ensures MakesFeatures(WithoutSpace, [], [])
  {
    var none: seq<FeatureSpec> := [];
    assert TrimmedFeatures(WithoutSpace, none) == none && InOrder(SpecBefore, none);
  }

  lemma {:induction false} BoundIsSmall()
    ensures ScoreBound(REPEATING) <= MAX_INT64
  {
    var channels := REPEATING.channels;
    var two, one := channels[..2], channels[..1];
    assert two[..1] == one && one[..0] == [];
    assert ChannelBound(60, one) == 16393;
    assert ChannelBound(60, two) == 32786;
    assert ChannelBound(60, channels) == 49179;
  }
}
