/** Collecting candidates from the retrieval channels. */
module Collection {
  import opened Identifiers
  import opened Sorting

  datatype Hit = Hit(version: Id, rawScore: int, manifest: Id, approximate: bool)

  datatype Reply = Hits(hits: seq<Hit>) | Failed(code: Id)

  datatype Response = Response(manifest: Id, approximate: bool, latency: nat, reply: Reply)

  /** A configured channel; `vector` says whether it is the vector channel. */
  datatype Channel = Channel(name: Id, manifest: Id, approximate: bool, vector: bool)

  datatype RankedHit = RankedHit(channel: Id, rank: nat, rawScore: int, manifest: Id, approximate: bool)

  datatype CandidateSet = CandidateSet(version: Id, hits: seq<RankedHit>)

  datatype ChannelResult = ChannelResult(channel: Id, manifest: Id, hitCount: nat, approximate: bool, latency: nat)

  datatype Degraded = Degraded(channel: Id, code: Id, manifest: Id, approximate: bool, latency: nat)

  datatype Collected = Collected(candidates: seq<CandidateSet>, results: seq<ChannelResult>, degraded: seq<Degraded>,
                                 approximate: bool)

  // ----- waiting for the channels

  datatype Arrival = Arrival(name: Id, response: Response)

  /** The first arrival of a channel before the deadline, or its absence. */
  function TimedOut(c: Channel, timeout: nat, deadlineCode: Id): (r: Response)
  {
    Response(c.manifest, c.approximate, timeout, Failed(deadlineCode))
  }

  ghost predicate FirstArrival(arrivals: seq<Arrival>, name: Id, response: Response)
  {
    exists i :: 0 <= i < |arrivals| && arrivals[i] == Arrival(name, response)
        && forall j :: 0 <= j < i ==> arrivals[j].name != name
  }

  predicate DistinctChannels(channels: seq<Channel>)
  {
    forall i, j :: 0 <= i < j < |channels| ==> channels[i].name != channels[j].name
  }

  /** Drains the responses in order of arrival; the channels still pending at the deadline are
      recorded as timed out. Each channel ends with its first response or with the timeout. */
  method Drain(channels: seq<Channel>, arrivals: seq<Arrival>, timeout: nat, deadlineCode: Id)
    returns (byChannel: map<Id, Response>)
    requires DistinctChannels(channels)
    ensures byChannel.Keys == set c | c in channels :: c.name
    ensures forall c :: c in channels ==>
              if exists a :: a in arrivals && a.name == c.name then FirstArrival(arrivals, c.name, byChannel[c.name])
              else byChannel[c.name] == Response(c.manifest, c.approximate, timeout, Failed(deadlineCode))
  {
    var pending := set c | c in channels :: c.name;
    ghost var names := pending;
    byChannel := map[];
    for i := 0 to |arrivals|
      invariant pending <= names && byChannel.Keys == names - pending
      invariant forall n :: n in names ==> (n in pending <==> forall j :: 0 <= j < i ==> arrivals[j].name != n)
      invariant forall n :: n in byChannel ==> FirstArrival(arrivals, n, byChannel[n])
    {
      var a := arrivals[i];
      if a.name in pending {
        assert FirstArrival(arrivals, a.name, a.response);
        byChannel := byChannel[a.name := a.response];
        pending := pending - {a.name};
      }
    }
    ghost var arrived := byChannel;
    for i := 0 to |channels|
      invariant forall n :: n in arrived ==> n in byChannel && byChannel[n] == arrived[n]
      invariant forall n :: n in byChannel ==> n in names
      invariant forall k :: 0 <= k < i && channels[k].name in pending ==>
                    channels[k].name in byChannel
                    && byChannel[channels[k].name] == TimedOut(channels[k], timeout, deadlineCode)
    {
      if channels[i].name in pending {
        byChannel := byChannel[channels[i].name := TimedOut(channels[i], timeout, deadlineCode)];
      }
    }
  }

  // ----- what a response is worth

  predicate ValidHits(hits: seq<Hit>, manifest: Id, approximate: bool, vector: bool, limit: nat)
  {
    && |hits| <= limit
    && (forall h :: h in hits ==>
            h.version != EMPTY && h.manifest != EMPTY && h.manifest == manifest && h.approximate == approximate
            && (h.approximate ==> vector))
    && (forall i, j :: 0 <= i < j < |hits| ==> hits[i].version != hits[j].version)
  }

  /** A channel completed when it answered with valid hits. */
  predicate Completed(r: Response, vector: bool, limit: nat)
  {
    r.reply.Hits? && ValidHits(r.reply.hits, r.manifest, r.approximate, vector, limit)
  }

  /** validateHits. */
  method ValidateHits(hits: seq<Hit>, manifest: Id, approximate: bool, vector: bool, limit: nat) returns (ok: bool)
    ensures ok <==> ValidHits(hits, manifest, approximate, vector, limit)
  {
    if |hits| > limit {
      return false;
    }
    var seen: set<Id> := {};
    for i := 0 to |hits|
      invariant seen == set h | h in hits[..i] :: h.version
      invariant ValidHits(hits[..i], manifest, approximate, vector, limit)
    {
      var h := hits[i];
      assert h in hits && hits[..i + 1] == hits[..i] + [h];
      if h.version == EMPTY || h.manifest == EMPTY {
        return false;
      }
      if h.version in seen {
        var other :| other in hits[..i] && other.version == h.version;
        var j :| 0 <= j < i && hits[j] == other;
        return false;
      }
      seen := seen + {h.version};
      if manifest != h.manifest || h.approximate != approximate || (h.approximate && !vector) {
        return false;
      }
    }
    assert hits[..|hits|] == hits;
    return true;
  }

  // ----- the specification of the collection

  datatype Gathering = Gathering(byChannel: map<Id, Response>, vector: Id, limit: nat, malformed: Id)

  predicate Complete(g: Gathering, name: Id)
  {
    name in g.byChannel && Completed(g.byChannel[name], name == g.vector, g.limit)
  }

  function ResultFor(g: Gathering, name: Id): (r: ChannelResult)
    requires Complete(g, name)
  {
    var r := g.byChannel[name];
    ChannelResult(name, r.manifest, |r.reply.hits|, r.approximate, r.latency)
  }

  function DegradedFor(g: Gathering, name: Id): (d: Degraded)
    requires name in g.byChannel && !Complete(g, name)
  {
    var r := g.byChannel[name];
    Degraded(name, if r.reply.Failed? then r.reply.code else g.malformed, r.manifest, r.approximate, r.latency)
  }

  /** A version's hit in a channel: its place in the channel's list, counted from one. */
  ghost predicate HitIn(g: Gathering, version: Id, h: RankedHit)
  {
    && Complete(g, h.channel)
    && 0 < h.rank <= |g.byChannel[h.channel].reply.hits|
    && var hit := g.byChannel[h.channel].reply.hits[h.rank - 1];
       hit.version == version && h == RankedHit(h.channel, h.rank, hit.rawScore, hit.manifest, hit.approximate)
  }

  predicate ChannelBefore(a: RankedHit, b: RankedHit)
  {
    a.channel < b.channel
  }

  /** Every channel appears once, complete or degraded, in order of name; every version some
      complete channel returned is a candidate, with all its hits in order of channel. */
  ghost predicate Gathers(g: Gathering, c: Collected)
  {
    && (forall i, j :: 0 <= i < j < |c.results| ==> c.results[i].channel < c.results[j].channel)
    && (forall i, j :: 0 <= i < j < |c.degraded| ==> c.degraded[i].channel < c.degraded[j].channel)
    && (forall r :: r in c.results <==> Complete(g, r.channel) && r == ResultFor(g, r.channel))
    && (forall d :: d in c.degraded <==>
            d.channel in g.byChannel && !Complete(g, d.channel) && d == DegradedFor(g, d.channel))
    && (c.approximate <==> exists r :: r in c.results && r.approximate)
    && (forall i, j :: 0 <= i < j < |c.candidates| ==> c.candidates[i].version < c.candidates[j].version)
    && (forall k :: 0 <= k < |c.candidates| ==>
            c.candidates[k].hits != [] && SortedBy(ChannelBefore, c.candidates[k].hits))
    && (forall k, h :: 0 <= k < |c.candidates| ==>
            (h in c.candidates[k].hits <==> HitIn(g, c.candidates[k].version, h)))
    && (forall v, h :: HitIn(g, v, h) ==> exists k :: 0 <= k < |c.candidates| && c.candidates[k].version == v)
  }

  /** What is reported of a channel is what it answered: a failure with the failure's code, a list that is not valid as
      malformed, a valid list with its size. */
  ghost predicate Reported(g: Gathering, name: Id, c: Collected)
    requires name in g.byChannel
  {
    var r := g.byChannel[name];
    match r.reply
    case Failed(code) =>
      Degraded(name, code, r.manifest, r.approximate, r.latency) in c.degraded
    case Hits(hits) =>
      if ValidHits(hits, r.manifest, r.approximate, name == g.vector, g.limit) then
        ChannelResult(name, r.manifest, |hits|, r.approximate, r.latency) in c.results
      else
        Degraded(name, g.malformed, r.manifest, r.approximate, r.latency) in c.degraded
  }

  /** The hit at place n of a valid list belongs to the candidate of its version, ranked n and with the hit's fields. */
  ghost predicate Placed(g: Gathering, name: Id, n: nat, c: Collected)
    requires name in g.byChannel && g.byChannel[name].reply.Hits? && 0 < n <= |g.byChannel[name].reply.hits|
  {
    var hit := g.byChannel[name].reply.hits[n - 1];
    exists k :: 0 <= k < |c.candidates| && c.candidates[k].version == hit.version
        && RankedHit(name, n, hit.rawScore, hit.manifest, hit.approximate) in c.candidates[k].hits
  }

  lemma {:induction false} ReportedAll(g: Gathering, c: Collected)
    requires Gathers(g, c)
    ensures forall name :: name in g.byChannel ==> Reported(g, name, c)
  {
    forall name | name in g.byChannel
      ensures Reported(g, name, c)
    {
      hide HitIn, SortedBy, ValidHits;
      if Complete(g, name) {
        assert ResultFor(g, name) in c.results;
      } else {
        assert DegradedFor(g, name) in c.degraded;
      }
    }
  }

  lemma {:induction false} PlacedAll(g: Gathering, c: Collected)
    requires Gathers(g, c)
    ensures forall name, n: nat :: Complete(g, name) && 0 < n <= |g.byChannel[name].reply.hits| ==>
              Placed(g, name, n, c)
  {
    hide Gathers, Placed;
    forall name, n: nat | Complete(g, name) && 0 < n <= |g.byChannel[name].reply.hits|
      ensures Placed(g, name, n, c)
    {
      HitPlaced(g, c, name, n);
    }
  }

  lemma {:induction false} HitPlaced(g: Gathering, c: Collected, name: Id, n: nat)
    requires Gathers(g, c) && Complete(g, name) && 0 < n <= |g.byChannel[name].reply.hits|
    ensures Placed(g, name, n, c)
  {
    hide SortedBy, ValidHits;
    var hit := g.byChannel[name].reply.hits[n - 1];
    var h := RankedHit(name, n, hit.rawScore, hit.manifest, hit.approximate);
    assert HitIn(g, hit.version, h);
    var k :| 0 <= k < |c.candidates| && c.candidates[k].version == hit.version;
    assert h in c.candidates[k].hits;
  }

  // ----- CollectCandidates

  type Union = map<Id, seq<RankedHit>>

  /** The union of the hits of the channels named so far. */
  ghost predicate Unites(g: Gathering, names: set<Id>, union: Union)
  {
    && (forall v :: v in union ==> union[v] != [] && SortedBy(ChannelBefore, union[v]))
    && (forall v, h :: v in union ==> (h in union[v] <==> HitIn(g, v, h) && h.channel in names))
    && (forall v, h :: HitIn(g, v, h) && h.channel in names ==> v in union)
  }

  /** The channels named so far, each listed once as complete or as degraded. */
  ghost predicate Lists(g: Gathering, names: set<Id>, results: seq<ChannelResult>, degraded: seq<Degraded>,
                        approximate: bool)
  {
    && (forall a, b :: 0 <= a < b < |results| ==> results[a].channel < results[b].channel)
    && (forall a, b :: 0 <= a < b < |degraded| ==> degraded[a].channel < degraded[b].channel)
    && (forall r :: r in results <==> r.channel in names && Complete(g, r.channel) && r == ResultFor(g, r.channel))
    && (forall d :: d in degraded <==>
            d.channel in names && d.channel in g.byChannel && !Complete(g, d.channel) && d == DegradedFor(g, d.channel))
    && (approximate <==> exists r :: r in results && r.approximate)
  }

  lemma {:induction false} ListsComplete(g: Gathering, names: set<Id>, results: seq<ChannelResult>,
                                         degraded: seq<Degraded>, approximate: bool, name: Id)
    requires Lists(g, names, results, degraded, approximate) && Complete(g, name) && forall n :: n in names ==> n < name
    ensures Lists(g, names + {name}, results + [ResultFor(g, name)], degraded,
                  approximate || g.byChannel[name].approximate)
  {
    assert name in g.byChannel;
    hide Complete;
    var more := results + [ResultFor(g, name)];
    assert forall r :: r in more <==> r in results || r == ResultFor(g, name);
    assert forall k :: 0 <= k < |results| ==> results[k] in results;
    if approximate {
      var r :| r in results && r.approximate;
      assert r in more;
    } else if g.byChannel[name].approximate {
      assert more[|results|].approximate;
    }
  }

  lemma {:induction false} ListsDegraded(g: Gathering, names: set<Id>, results: seq<ChannelResult>,
                                         degraded: seq<Degraded>, approximate: bool, name: Id)
    requires Lists(g, names, results, degraded, approximate) && name in g.byChannel && !Complete(g, name)
             && forall n :: n in names ==> n < name
    ensures Lists(g, names + {name}, results, degraded + [DegradedFor(g, name)], approximate)
  {
    hide Complete;
    var more := degraded + [DegradedFor(g, name)];
    assert forall d :: d in more <==> d in degraded || d == DegradedFor(g, name);
    assert forall k :: 0 <= k < |degraded| ==> degraded[k] in degraded;
  }

  method CollectCandidates(g: Gathering) returns (c: Collected)
    ensures Gathers(g, c)
    ensures forall name :: name in g.byChannel ==> Reported(g, name, c)
    ensures forall name, n: nat :: Complete(g, name) && 0 < n <= |g.byChannel[name].reply.hits| ==>
              Placed(g, name, n, c)
  {
    hide *;
    var names := SortedSet(g.byChannel.Keys);
    var results: seq<ChannelResult>, degraded: seq<Degraded>, approximate, union: Union := [], [], false, map[];
    NothingGathered(g, names);
    for i := 0 to |names|
      invariant Lists(g, Elements(names[..i]), results, degraded, approximate)
      invariant Unites(g, Elements(names[..i]), union)
    {
      var name := names[i];
      ghost var done := Elements(names[..i]);
      NextName(g, names, i);
      var response := g.byChannel[name];
      var ok := false;
      if response.reply.Hits? {
        ok := ValidateHits(response.reply.hits, response.manifest, response.approximate, name == g.vector, g.limit);
      }
      CompletedMeans(g, name, ok);
      if !ok {
        ListsDegraded(g, done, results, degraded, approximate, name);
        UnitesSkips(g, done, union, name);
        degraded := degraded + [DegradedFor(g, name)];
      } else {
        ListsComplete(g, done, results, degraded, approximate, name);
        results := results + [ResultFor(g, name)];
        approximate := approximate || response.approximate;
        union := AddHits(g, done, name, union);
      }
    }
    assert names[..|names|] == names;
    var candidates := ListCandidates(g, Elements(names), union);
    c := Collected(candidates, results, degraded, approximate);
    FinishesGathering(g, c);
    ReportedAll(g, c);
    PlacedAll(g, c);
  }

  lemma {:induction false} NothingGathered(g: Gathering, names: seq<Id>)
    ensures Lists(g, Elements(names[..0]), [], [], false) && Unites(g, Elements(names[..0]), map[])
  {
    hide Complete, HitIn;
  }

  lemma {:induction false} NextName(g: Gathering, names: seq<Id>, i: nat)
    requires i < |names| && StrictlySorted(names) && Elements(names) == g.byChannel.Keys
    ensures names[i] in g.byChannel
    ensures Elements(names[..i + 1]) == Elements(names[..i]) + {names[i]}
    ensures forall n :: n in Elements(names[..i]) ==> n < names[i]
  {
    assert names[..i + 1] == names[..i] + [names[i]];
    assert names[i] in Elements(names);
  }

  lemma {:induction false} FinishesGathering(g: Gathering, c: Collected)
    requires Lists(g, g.byChannel.Keys, c.results, c.degraded, c.approximate)
    requires forall i, j :: 0 <= i < j < |c.candidates| ==> c.candidates[i].version < c.candidates[j].version
    requires forall k :: 0 <= k < |c.candidates| ==>
                 c.candidates[k].hits != [] && SortedBy(ChannelBefore, c.candidates[k].hits)
    requires forall k, h :: 0 <= k < |c.candidates| ==>
                 (h in c.candidates[k].hits <==> HitIn(g, c.candidates[k].version, h))
    requires forall v, h :: HitIn(g, v, h) ==> exists k :: 0 <= k < |c.candidates| && c.candidates[k].version == v
    ensures Gathers(g, c)
  {
    assert forall n :: Complete(g, n) ==> n in g.byChannel;
    hide Complete, HitIn, SortedBy;
  }

  lemma {:induction false} CompletedMeans(g: Gathering, name: Id, ok: bool)
    requires name in g.byChannel
    requires ok <==> g.byChannel[name].reply.Hits?
                     && ValidHits(g.byChannel[name].reply.hits, g.byChannel[name].manifest,
                                  g.byChannel[name].approximate, name == g.vector, g.limit)
    ensures ok <==> Complete(g, name)
  {
  }

  lemma {:induction false} UnitesSkips(g: Gathering, names: set<Id>, union: Union, name: Id)
    requires Unites(g, names, union) && !Complete(g, name)
    ensures Unites(g, names + {name}, union)
  {
    hide Completed, SortedBy;
  }

  /** Of channel `name` the first `count` hits are in. */
  ghost predicate UnitesPart(g: Gathering, names: set<Id>, name: Id, count: nat, union: Union)
  {
    && (forall v :: v in union ==> union[v] != [] && SortedBy(ChannelBefore, union[v]))
    && (forall v, h :: v in union ==>
            (h in union[v] <==> HitIn(g, v, h) && (h.channel in names || (h.channel == name && h.rank <= count))))
    && (forall v, h :: HitIn(g, v, h) && (h.channel in names || (h.channel == name && h.rank <= count)) ==> v in union)
  }

  method AddHits(g: Gathering, ghost names: set<Id>, name: Id, before: Union) returns (union: Union)
    requires Unites(g, names, before) && Complete(g, name) && forall n :: n in names ==> n < name
    ensures Unites(g, names + {name}, union)
  {
    var hits := g.byChannel[name].reply.hits;
    union := before;
    assert UnitesPart(g, names, name, 0, union);
    for i := 0 to |hits|
      invariant UnitesPart(g, names, name, i, union)
    {
      hide UnitesPart, Unites, Completed;
      var hit := hits[i];
      var ranked := RankedHit(name, i + 1, hit.rawScore, hit.manifest, hit.approximate);
      var earlier := if hit.version in union then union[hit.version] else [];
      UnitesStep(g, names, name, i, union);
      union := union[hit.version := earlier + [ranked]];
    }
    assert forall v, h :: HitIn(g, v, h) && h.channel == name ==> h.rank <= |hits|;
  }

  lemma {:induction false} UnitesStep(g: Gathering, names: set<Id>, name: Id, i: nat, union: Union)
    requires UnitesPart(g, names, name, i, union) && Complete(g, name) && i < |g.byChannel[name].reply.hits|
    requires forall n :: n in names ==> n < name
    ensures var hit := g.byChannel[name].reply.hits[i];
            var ranked := RankedHit(name, i + 1, hit.rawScore, hit.manifest, hit.approximate);
            UnitesPart(g, names, name, i + 1,
                       union[hit.version := (if hit.version in union then union[hit.version] else []) + [ranked]])
  {
    var hit := g.byChannel[name].reply.hits[i];
    var ranked := RankedHit(name, i + 1, hit.rawScore, hit.manifest, hit.approximate);
    var earlier := if hit.version in union then union[hit.version] else [];
    var extended := earlier + [ranked];
    NextHit(g, name, i);
    hide HitIn, Complete;
    forall h | h in earlier ensures h.channel in names {
      assert HitIn(g, hit.version, h);
    }
    ExtendsOrder(names, earlier, ranked);
    hide SortedBy;
    forall h
      ensures h in extended <==>
              HitIn(g, hit.version, h) && (h.channel in names || (h.channel == name && h.rank <= i + 1))
    {
      assert h in extended <==> h in earlier || h == ranked;
    }
  }

  /** The hit at position i belongs to one version, which no earlier position of the channel holds. */
  lemma {:induction false} NextHit(g: Gathering, name: Id, i: nat)
    requires Complete(g, name) && i < |g.byChannel[name].reply.hits|
    ensures var hit := g.byChannel[name].reply.hits[i];
            && HitIn(g, hit.version, RankedHit(name, i + 1, hit.rawScore, hit.manifest, hit.approximate))
            && (forall h :: HitIn(g, hit.version, h) && h.channel == name && h.rank <= i + 1 ==>
                    h == RankedHit(name, i + 1, hit.rawScore, hit.manifest, hit.approximate))
            && (forall v, h :: HitIn(g, v, h) && h.channel == name && h.rank == i + 1 ==> v == hit.version)
  {
    var hits := g.byChannel[name].reply.hits;
    assert forall j :: 0 <= j < i ==> hits[j].version != hits[i].version;
  }

  lemma {:induction false} ExtendsOrder(names: set<Id>, earlier: seq<RankedHit>, ranked: RankedHit)
    requires SortedBy(ChannelBefore, earlier) && forall n :: n in names ==> n < ranked.channel
    requires forall h :: h in earlier ==> h.channel in names
    ensures SortedBy(ChannelBefore, earlier + [ranked])
  {
  }

  /** The versions in order, each with its hits sorted by channel. */
  method ListCandidates(ghost g: Gathering, ghost names: set<Id>, union: Union) returns (candidates: seq<CandidateSet>)
    requires Unites(g, names, union) && names == g.byChannel.Keys
    ensures forall i, j :: 0 <= i < j < |candidates| ==> candidates[i].version < candidates[j].version
    ensures forall k :: 0 <= k < |candidates| ==>
                candidates[k].hits != [] && SortedBy(ChannelBefore, candidates[k].hits)
    ensures forall k, h :: 0 <= k < |candidates| ==> (h in candidates[k].hits <==> HitIn(g, candidates[k].version, h))
    ensures forall v, h :: HitIn(g, v, h) ==> exists k :: 0 <= k < |candidates| && candidates[k].version == v
  {
    var versions := SortedSet(union.Keys);
    assert forall v, h :: HitIn(g, v, h) ==> h.channel in names;
    candidates := [];
    for i := 0 to |versions|
      invariant |candidates| == i
      invariant forall k :: 0 <= k < i ==>
                    versions[k] in union && candidates[k] == CandidateSet(versions[k], union[versions[k]])
    {
      hide Unites, HitIn;
      assert versions[i] in Elements(versions);
      UnionSorted(g, names, union, versions[i]);
      var hits := Sort(ChannelBefore, union[versions[i]]);
      InOrderUnique(ChannelBefore, union[versions[i]], hits);
      candidates := candidates + [CandidateSet(versions[i], hits)];
    }
    assert forall v :: v in union <==> v in Elements(versions);
    hide HitIn, SortedBy;
    forall v, h | HitIn(g, v, h)
      ensures exists k :: 0 <= k < |candidates| && candidates[k].version == v
    {
      assert v in Elements(versions);
      var k :| 0 <= k < |versions| && versions[k] == v;
      assert candidates[k].version == v;
    }
  }

  lemma {:induction false} UnionSorted(g: Gathering, names: set<Id>, union: Union, v: Id)
    requires Unites(g, names, union) && v in union
    ensures SortedBy(ChannelBefore, union[v])
  {
  }
}
