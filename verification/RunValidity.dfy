/** Why the runs the service assembles pass the check on stored runs: the hits of a collection form
complete rank lists, channel by channel. */
module RunValidity {
  import opened Identifiers
  import opened Sorting
  import opened Runs
  import opened Retrieval
  import Collection

  // ----- the hits of a collection

  function RankedOf(h: PersistedHit): (r: Collection.RankedHit)
  {
    Collection.RankedHit(h.channel, h.rank, h.rawScore, h.manifest, h.approximate)
  }

  lemma {:induction false} HitsOfMembers(c: Collection.CandidateSet, h: PersistedHit)
    ensures h in HitsOf(c) <==> h.version == c.version && RankedOf(h) in c.hits
  {
    if h.version == c.version && RankedOf(h) in c.hits {
      var i :| 0 <= i < |c.hits| && c.hits[i] == RankedOf(h);
      assert HitsOf(c)[i] == h;
    }
  }

  lemma {:induction false} AllHitsMembers(sets: seq<Collection.CandidateSet>, h: PersistedHit)
    ensures h in AllHits(sets) <==> exists k :: 0 <= k < |sets| && h in HitsOf(sets[k])
  {
    if sets != [] {
      hide HitsOf;
      var n := |sets| - 1;
      AllHitsMembers(sets[..n], h);
      if k :| 0 <= k < |sets| && h in HitsOf(sets[k]) {
        assert k < n ==> sets[..n][k] == sets[k];
      }
    }
  }

  /** A stored hit is a hit of the collection, and every hit is stored. */
  lemma {:induction false} StoredHits(g: Collection.Gathering, c: Collection.Collected, h: PersistedHit)
    requires Collection.Gathers(g, c)
    ensures h in AllHits(c.candidates) <==> Collection.HitIn(g, h.version, RankedOf(h))
  {
    hide Collection.HitIn, AllHits;
    AllHitsMembers(c.candidates, h);
    if k :| 0 <= k < |c.candidates| && h in HitsOf(c.candidates[k]) {
      HitsOfMembers(c.candidates[k], h);
    }
    if Collection.HitIn(g, h.version, RankedOf(h)) {
      var k :| 0 <= k < |c.candidates| && c.candidates[k].version == h.version;
      HitsOfMembers(c.candidates[k], h);
    }
  }

  lemma {:induction false} HitsOfDistinct(c: Collection.CandidateSet)
    requires SortedBy(Collection.ChannelBefore, c.hits)
    ensures NoDuplicates(HitsOf(c))
  {
  }

  lemma {:induction false} AllHitsDistinct(sets: seq<Collection.CandidateSet>)
    requires forall i, j :: 0 <= i < j < |sets| ==> sets[i].version < sets[j].version
    requires forall k :: 0 <= k < |sets| ==> SortedBy(Collection.ChannelBefore, sets[k].hits)
    ensures NoDuplicates(AllHits(sets))
  {
    if sets != [] {
      var n := |sets| - 1;
      AllHitsDistinct(sets[..n]);
      HitsOfDistinct(sets[n]);
      var before, last := AllHits(sets[..n]), HitsOf(sets[n]);
      forall h | h in before
        ensures h !in last
      {
        AllHitsMembers(sets[..n], h);
        var k :| 0 <= k < n && h in HitsOf(sets[..n][k]);
      }
      hide AllHits, HitsOf, SortedBy;
      JoinedDistinct(before, last);
      assert AllHits(sets) == before + last;
    }
  }

  lemma {:induction false} JoinedDistinct<T>(a: seq<T>, b: seq<T>)
    requires NoDuplicates(a) && NoDuplicates(b) && forall x :: x in a ==> x !in b
    ensures NoDuplicates(a + b)
  {
    forall i, j | 0 <= i < j < |a + b|
      ensures (a + b)[i] != (a + b)[j]
    {
      if i < |a| && j >= |a| {
        assert a[i] in a && b[j - |a|] in b;
      }
    }
  }

  // ----- lists of complete ranks

  predicate HasRank(hits: seq<PersistedHit>, channel: Id, rank: nat)
  {
    exists h :: h in hits && h.channel == channel && h.rank == rank
  }

  /** Exactly the ranks from one up on each channel, no two hits on one place. */
  ghost predicate RankLists(hits: seq<PersistedHit>, size: map<Id, nat>)
  {
    && SortedBy(HitBefore, hits)
    && (forall h :: h in hits ==> h.channel in size && 0 < h.rank <= size[h.channel])
    && (forall ch, rank: nat :: ch in size && 0 < rank <= size[ch] ==> HasRank(hits, ch, rank))
  }

  lemma {:induction false} NoLastRank(hits: seq<PersistedHit>, channel: Id)
    requires forall h :: h in hits ==> h.channel != channel
    ensures LastRank(hits, channel) == 0
  {
    if hits != [] {
      assert hits[|hits| - 1] in hits;
      NoLastRank(hits[..|hits| - 1], channel);
    }
  }

  /** The last hit of the channel gives its last rank. */
  lemma {:induction false} LastRankAt(hits: seq<PersistedHit>, channel: Id, m: nat)
    requires m < |hits| && hits[m].channel == channel && forall j :: m < j < |hits| ==> hits[j].channel != channel
    ensures LastRank(hits, channel) == hits[m].rank
  {
    var n := |hits| - 1;
    if m < n {
      assert hits[..n][m] == hits[m];
      LastRankAt(hits[..n], channel, m);
    }
  }

  /** In complete lists each hit's rank follows the channel's last one. */
  lemma {:induction false} RanksFollow(hits: seq<PersistedHit>, size: map<Id, nat>, k: nat)
    requires RankLists(hits, size) && k < |hits|
    ensures hits[k].rank == LastRank(hits[..k], hits[k].channel) + 1
  {
    var h := hits[k];
    assert h in hits;
    var prefix := hits[..k];
    if h.rank == 1 {
      forall x | x in prefix
        ensures x.channel != h.channel
      {
        var j :| 0 <= j < k && prefix[j] == x;
        assert HitBefore(hits[j], hits[k]) && hits[j] in hits;
      }
      NoLastRank(prefix, h.channel);
    } else {
      assert HasRank(hits, h.channel, h.rank - 1);
      var x :| x in hits && x.channel == h.channel && x.rank == h.rank - 1;
      var m :| 0 <= m < |hits| && hits[m] == x;
      PlaceBefore(hits, m, k);
      NextTo(hits, m, k);
      LastRankAt(prefix, h.channel, m);
    }
  }

  lemma {:induction false} NextTo(hits: seq<PersistedHit>, m: nat, k: nat)
    requires SortedBy(HitBefore, hits) && m < k < |hits| && hits[m].channel == hits[k].channel
             && hits[m].rank + 1 == hits[k].rank
    ensures m + 1 == k
  {
    var next := hits[m + 1];
    assert HitBefore(hits[m], next);
  }

  lemma {:induction false} PlaceBefore(hits: seq<PersistedHit>, m: nat, k: nat)
    requires SortedBy(HitBefore, hits) && m < |hits| && k < |hits| && HitBefore(hits[m], hits[k])
    ensures m < k
  {
    assert k < m ==> HitBefore(hits[k], hits[m]);
  }

  lemma {:induction false} LastRankIsSize(hits: seq<PersistedHit>, size: map<Id, nat>, channel: Id)
    requires RankLists(hits, size)
    ensures LastRank(hits, channel) == if channel in size then size[channel] else 0
  {
    if channel in size && size[channel] > 0 {
      assert HasRank(hits, channel, size[channel]);
      var x :| x in hits && x.channel == channel && x.rank == size[channel];
      var m :| 0 <= m < |hits| && hits[m] == x;
      forall j | m < j < |hits|
        ensures hits[j].channel != channel
      {
        assert HitBefore(hits[m], hits[j]) && hits[j] in hits;
      }
      LastRankAt(hits, channel, m);
    } else {
      NoLastRank(hits, channel);
    }
  }

  /** Where ranks follow one another, the last rank of a channel is its number of hits. */
  lemma {:induction false} CountIsLastRank(hits: seq<PersistedHit>, channel: Id)
    requires forall k :: 0 <= k < |hits| ==> hits[k].rank == LastRank(hits[..k], hits[k].channel) + 1
    ensures HitCount(hits, channel) == LastRank(hits, channel)
  {
    if hits != [] {
      var n := |hits| - 1;
      var prefix := hits[..n];
      forall k | 0 <= k < n
        ensures prefix[k].rank == LastRank(prefix[..k], prefix[k].channel) + 1
      {
        assert prefix[..k] == hits[..k];
      }
      CountIsLastRank(prefix, channel);
      assert hits[n].rank == LastRank(prefix, hits[n].channel) + 1;
    }
  }

  // ----- the hit list of an assembled run

  ghost function Sizes(g: Collection.Gathering): (size: map<Id, nat>)
  {
    map ch | ch in g.byChannel && Collection.Complete(g, ch) :: |g.byChannel[ch].reply.hits|
  }

  lemma {:induction false} CollectedRankLists(g: Collection.Gathering, c: Collection.Collected, hits: seq<PersistedHit>)
    requires Collection.Gathers(g, c) && SortedFrom(HitBefore, AllHits(c.candidates), hits)
    ensures RankLists(hits, Sizes(g))
  {
    CollectedStrict(g, c, hits);
    hide SortedBy, InOrder, Collection.Gathers, AllHits;
    forall h
      ensures h in hits <==> Collection.HitIn(g, h.version, RankedOf(h))
    {
      SameMembers(AllHits(c.candidates), hits, h);
      StoredHits(g, c, h);
    }
    var size := Sizes(g);
    forall h | h in hits
      ensures h.channel in size && 0 < h.rank <= size[h.channel]
    {
      assert Collection.HitIn(g, h.version, RankedOf(h));
      assert Collection.Complete(g, h.channel);
    }
    forall ch, rank: nat | ch in size && 0 < rank <= size[ch]
      ensures HasRank(hits, ch, rank)
    {
      var x := g.byChannel[ch].reply.hits[rank - 1];
      var h := PersistedHit(ch, x.version, rank, x.rawScore, x.manifest, x.approximate);
      assert Collection.HitIn(g, h.version, RankedOf(h));
    }
  }

  lemma {:induction false} CollectedStrict(g: Collection.Gathering, c: Collection.Collected, hits: seq<PersistedHit>)
    requires Collection.Gathers(g, c) && SortedFrom(HitBefore, AllHits(c.candidates), hits)
    ensures SortedBy(HitBefore, hits)
  {
    AllHitsDistinct(c.candidates);
    SameWithoutDuplicates(AllHits(c.candidates), hits);
    forall i, j | 0 <= i < j < |hits|
      ensures HitBefore(hits[i], hits[j])
    {
      assert !HitBefore(hits[j], hits[i]) && hits[i] != hits[j];
      SameMembers(AllHits(c.candidates), hits, hits[i]);
      SameMembers(AllHits(c.candidates), hits, hits[j]);
      StoredHits(g, c, hits[i]);
      StoredHits(g, c, hits[j]);
      if hits[i].channel == hits[j].channel && hits[i].rank == hits[j].rank {
        OnePlace(g, hits[i], hits[j]);
      }
    }
  }

  /** One place of a channel holds one hit. */
  lemma {:induction false} OnePlace(g: Collection.Gathering, a: PersistedHit, b: PersistedHit)
    requires Collection.HitIn(g, a.version, RankedOf(a)) && Collection.HitIn(g, b.version, RankedOf(b))
    requires a.channel == b.channel && a.rank == b.rank
    ensures a == b
  {
  }
}
