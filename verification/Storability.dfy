/** Exactly when an assembled run passes the check on stored runs. */
module Storability {
  import opened Identifiers
  import opened Sorting
  import opened Ranking
  import opened RankOrder
  import opened SemanticRanking
  import opened Runs
  import opened Retrieval
  import opened RunValidity
  import opened Selections
  import Collection

  // ----- the conditions

  predicate Indexes(snapshot: Snapshot, channel: Id, manifest: Id, approximate: bool)
  {
    channel in snapshot.indexes && snapshot.indexes[channel] == Index(manifest, approximate)
  }

  /** The snapshot indexes every channel that answered or failed, and every failure has a code. */
  predicate Served(s: Setting, c: Collection.Collected)
  {
    && (forall r :: r in c.results ==> Indexes(s.snapshot, r.channel, r.manifest, r.approximate))
    && (forall d :: d in c.degraded ==> Indexes(s.snapshot, d.channel, d.manifest, d.approximate) && d.code != EMPTY)
  }

  /** The snapshot is in order, and the lists are short enough to be stored. */
  predicate Recordable(s: Setting, c: Collection.Collected)
  {
    ValidSnapshot(s.snapshot) && |c.results| + |c.degraded| <= 5 && |AllHits(c.candidates)| <= 5000
  }

  /** A verdict has reasons exactly when it rejects, and advises only on what is eligible. */
  predicate Proper(v: Verdict)
  {
    (v.advisoryOnly ==> v.eligible) && v.eligible == (v.codes == {}) && EMPTY !in v.codes
  }

  /** What every outcome but a failure needs. */
  predicate FullyServed(s: Setting, c: Collection.Collected)
  {
    && Served(s, c) && Recordable(s, c) && |c.results| + |c.degraded| == |s.snapshot.indexes|
    && |c.candidates| <= 1000 && forall x :: x in c.candidates ==> Proper(VerdictOf(s, x.version))
  }

  /** Judgments name different candidates among the ranked ones, committed or not. */
  predicate JudgmentsFit(cs: seq<Candidate>, judgments: seq<Judgment>)
  {
    && (forall k :: 0 <= k < |judgments| ==> IsCandidate(cs, judgments[k].version))
    && (forall a, b :: 0 <= a < b < |judgments| ==> judgments[a].version != judgments[b].version)
  }

  predicate Measured(cs: seq<Candidate>)
  {
    forall x :: x in cs ==> x.strength >= 0
  }

  // ----- executions

  lemma {:induction false} RecordedIn(c: Collection.Collected, executions: seq<Execution>, e: Execution)
    requires Records(c, executions)
    ensures e in executions <==>
            (exists r :: r in c.results && e == ResultExecution(r))
            || (exists d :: d in c.degraded && e == DegradedExecution(d))
  {
    if e in executions {
      var i :| 0 <= i < |executions| && executions[i] == e;
      if i < |c.results| {
        assert c.results[i] in c.results;
      } else {
        assert executions[|c.results| + (i - |c.results|)] == DegradedExecution(c.degraded[i - |c.results|]);
        assert c.degraded[i - |c.results|] in c.degraded;
      }
    }
    if r :| r in c.results && e == ResultExecution(r) {
      var i :| 0 <= i < |c.results| && c.results[i] == r;
      assert executions[i] == e;
    }
    if d :| d in c.degraded && e == DegradedExecution(d) {
      var i :| 0 <= i < |c.degraded| && c.degraded[i] == d;
      assert executions[|c.results| + i] == e;
    }
  }

  lemma {:induction false} ChannelsDistinct(g: Collection.Gathering, c: Collection.Collected,
                                            executions: seq<Execution>)
    requires Collection.Gathers(g, c) && Records(c, executions)
    ensures forall i, j :: 0 <= i < j < |executions| ==> executions[i].channel != executions[j].channel
  {
    forall i, j | 0 <= i < j < |executions|
      ensures executions[i].channel != executions[j].channel
    {
      if j >= |c.results| {
        var d := c.degraded[j - |c.results|];
        assert executions[|c.results| + (j - |c.results|)] == DegradedExecution(d);
        assert d in c.degraded;
        if i >= |c.results| {
          assert executions[|c.results| + (i - |c.results|)] == DegradedExecution(c.degraded[i - |c.results|]);
        } else {
          assert c.results[i] in c.results;
        }
      }
    }
  }

  lemma {:induction false} ExecutionsSorted(g: Collection.Gathering, c: Collection.Collected, before: seq<Execution>,
                                            after: seq<Execution>)
    requires Collection.Gathers(g, c) && Records(c, before) && SortedFrom(ExecutionBefore, before, after)
    ensures SortedBy(ExecutionBefore, after)
  {
    ChannelsDistinct(g, c, before);
    hide Collection.Gathers, Records;
    assert NoDuplicates(before);
    SameWithoutDuplicates(before, after);
    forall i, j | 0 <= i < j < |after|
      ensures after[i].channel < after[j].channel
    {
      SameMembers(before, after, after[i]);
      SameMembers(before, after, after[j]);
      var k :| 0 <= k < |before| && before[k] == after[i];
      var l :| 0 <= l < |before| && before[l] == after[j];
      assert k < l || l < k;
      assert !ExecutionBefore(after[j], after[i]);
    }
  }

  predicate GoodExecution(snapshot: Snapshot, e: Execution)
  {
    Indexes(snapshot, e.channel, e.manifest, e.approximate) && e.complete == (e.code == EMPTY)
  }

  lemma {:induction false} ServedExactly(s: Setting, c: Collection.Collected, before: seq<Execution>,
                                         after: seq<Execution>)
    requires Records(c, before) && multiset(after) == multiset(before)
    ensures (forall e :: e in after ==> GoodExecution(s.snapshot, e)) <==> Served(s, c)
  {
    hide Records, Indexes;
    if forall e :: e in after ==> GoodExecution(s.snapshot, e) {
      forall r | r in c.results
        ensures Indexes(s.snapshot, r.channel, r.manifest, r.approximate)
      {
        RecordedIn(c, before, ResultExecution(r));
        SameMembers(before, after, ResultExecution(r));
      }
      forall d | d in c.degraded
        ensures Indexes(s.snapshot, d.channel, d.manifest, d.approximate) && d.code != EMPTY
      {
        RecordedIn(c, before, DegradedExecution(d));
        SameMembers(before, after, DegradedExecution(d));
      }
    }
    if Served(s, c) {
      forall e | e in after
        ensures GoodExecution(s.snapshot, e)
      {
        SameMembers(before, after, e);
        RecordedIn(c, before, e);
      }
    }
  }

  lemma {:induction false} ExecutionsExactly(s: Setting, g: Collection.Gathering, c: Collection.Collected, input: Run,
                                             run: Run)
    requires Collection.Gathers(g, c) && Records(c, input.executions)
             && SortedFrom(ExecutionBefore, input.executions, run.executions)
    requires run.snapshot == s.snapshot
    ensures ValidExecutions(run) <==>
            Served(s, c) && (run.disposition != Failed ==> |c.results| + |c.degraded| == |s.snapshot.indexes|)
  {
    ExecutionsSorted(g, c, input.executions, run.executions);
    SameSize(input.executions, run.executions);
    ServedExactly(s, c, input.executions, run.executions);
    RecordsSize(c, input.executions);
    hide Collection.Gathers, Records, SortedBy, InOrder, Served;
  }

  // ----- hits

  lemma {:induction false} HitListValid(g: Collection.Gathering, c: Collection.Collected, input: Run, run: Run)
    requires Collection.Gathers(g, c) && Records(c, input.executions) && input.hits == AllHits(c.candidates)
    requires multiset(run.executions) == multiset(input.executions) && SortedFrom(HitBefore, input.hits, run.hits)
    ensures ValidHitList(run)
  {
    CollectedRankLists(g, c, run.hits);
    hide RankLists, AllHits, SortedFrom;
    forall k | 0 <= k < |run.hits|
      ensures run.hits[k].rank == LastRank(run.hits[..k], run.hits[k].channel) + 1
    {
      RanksFollow(run.hits, Sizes(g), k);
    }
    forall k | 0 <= k < |run.hits|
      ensures run.hits[k].version != EMPTY
      ensures exists e :: e in run.executions && e.channel == run.hits[k].channel && e.complete
                          && e.manifest == run.hits[k].manifest && e.approximate == run.hits[k].approximate
    {
      HitServed(g, c, input, run, k);
    }
    forall e | e in run.executions
      ensures e.hitCount == HitCount(run.hits, e.channel)
    {
      CountsAgree(g, c, input, run, e);
    }
  }

  lemma {:induction false} HitServed(g: Collection.Gathering, c: Collection.Collected, input: Run, run: Run, k: nat)
    requires Collection.Gathers(g, c) && Records(c, input.executions) && input.hits == AllHits(c.candidates)
    requires multiset(run.executions) == multiset(input.executions) && multiset(run.hits) == multiset(input.hits)
             && k < |run.hits|
    ensures run.hits[k].version != EMPTY
    ensures exists e :: e in run.executions && e.channel == run.hits[k].channel && e.complete
                        && e.manifest == run.hits[k].manifest && e.approximate == run.hits[k].approximate
  {
    var h := run.hits[k];
    SameMembers(input.hits, run.hits, h);
    StoredHits(g, c, h);
    var response := g.byChannel[h.channel];
    var hit := response.reply.hits[h.rank - 1];
    assert hit in response.reply.hits;
    var r := Collection.ResultFor(g, h.channel);
    assert r in c.results;
    hide AllHits;
    RecordedIn(c, input.executions, ResultExecution(r));
    SameMembers(input.executions, run.executions, ResultExecution(r));
  }

  lemma {:induction false} CountsAgree(g: Collection.Gathering, c: Collection.Collected, input: Run, run: Run,
                                       e: Execution)
    requires Collection.Gathers(g, c) && Records(c, input.executions) && RankLists(run.hits, Sizes(g))
    requires multiset(run.executions) == multiset(input.executions) && e in run.executions
    requires forall k :: 0 <= k < |run.hits| ==> run.hits[k].rank == LastRank(run.hits[..k], run.hits[k].channel) + 1
    ensures e.hitCount == HitCount(run.hits, e.channel)
  {
    SameMembers(input.executions, run.executions, e);
    RecordedIn(c, input.executions, e);
    CountIsLastRank(run.hits, e.channel);
    LastRankIsSize(run.hits, Sizes(g), e.channel);
    hide RankLists, LastRank, HitCount, Records, Collection.Completed;
    if r :| r in c.results && e == ResultExecution(r) {
      assert Collection.Complete(g, r.channel) && r == Collection.ResultFor(g, r.channel);
    } else {
      var d :| d in c.degraded && e == DegradedExecution(d);
      assert !Collection.Complete(g, d.channel);
    }
  }

  /** The versions of the stored hits are those of the candidates. */
  lemma {:induction false} CandidatesAre(g: Collection.Gathering, c: Collection.Collected, run: Run, version: Id)
    requires Collection.Gathers(g, c) && multiset(run.hits) == multiset(AllHits(c.candidates))
    ensures version in Candidates(run) <==> exists x :: x in c.candidates && x.version == version
  {
    if version in Candidates(run) {
      var h :| h in run.hits && h.version == version;
      SameMembers(AllHits(c.candidates), run.hits, h);
      AllHitsMembers(c.candidates, h);
      var k :| 0 <= k < |c.candidates| && h in HitsOf(c.candidates[k]);
      HitsOfMembers(c.candidates[k], h);
      assert c.candidates[k] in c.candidates;
    }
    if x :| x in c.candidates && x.version == version {
      var k :| 0 <= k < |c.candidates| && c.candidates[k] == x;
      var y := x.hits[0];
      var h := PersistedHit(y.channel, version, y.rank, y.rawScore, y.manifest, y.approximate);
      assert RankedOf(h) == y && y in x.hits;
      HitsOfMembers(x, h);
      AllHitsMembers(c.candidates, h);
      SameMembers(AllHits(c.candidates), run.hits, h);
    }
  }

  // ----- gates

  lemma {:induction false} VersionNamed(g: Collection.Gathering, c: Collection.Collected, x: Collection.CandidateSet)
    requires Collection.Gathers(g, c) && x in c.candidates
    ensures x.version != EMPTY
  {
    var k :| 0 <= k < |c.candidates| && c.candidates[k] == x;
    var h := x.hits[0];
    assert h in x.hits;
    assert Collection.HitIn(g, x.version, h);
    var response := g.byChannel[h.channel];
    assert response.reply.hits[h.rank - 1] in response.reply.hits;
  }

  predicate GoodGate(gate: Gate)
  {
    gate.version != EMPTY && (gate.advisoryOnly ==> gate.eligible) && gate.eligible == (gate.codes == {})
    && EMPTY !in gate.codes
  }

  lemma {:induction false} GatesProper(s: Setting, g: Collection.Gathering, c: Collection.Collected, gates: seq<Gate>)
    requires Collection.Gathers(g, c) && Gated(s, c.candidates, gates)
    ensures (forall gate :: gate in gates ==> GoodGate(gate)) <==>
            forall x :: x in c.candidates ==> Proper(VerdictOf(s, x.version))
  {
    forall x | x in c.candidates
      ensures GateFor(s, x.version) in gates && (GoodGate(GateFor(s, x.version)) <==> Proper(VerdictOf(s, x.version)))
    {
      VersionNamed(g, c, x);
      hide Collection.Gathers;
      var i :| 0 <= i < |c.candidates| && c.candidates[i] == x;
      assert gates[i] == GateFor(s, x.version);
    }
    hide Collection.Gathers, GateFor, VerdictOf, GoodGate, Proper;
    forall gate | gate in gates
      ensures exists x :: x in c.candidates && gate == GateFor(s, x.version)
    {
      var i :| 0 <= i < |gates| && gates[i] == gate;
      assert c.candidates[i] in c.candidates;
    }
  }

  lemma {:induction false} GateVersions(s: Setting, g: Collection.Gathering, c: Collection.Collected, gates: seq<Gate>,
                                        run: Run)
    requires Collection.Gathers(g, c) && Gated(s, c.candidates, gates)
             && multiset(run.hits) == multiset(AllHits(c.candidates))
    ensures (set gate | gate in gates :: gate.version) == Candidates(run)
  {
    hide Collection.Gathers, Candidates, AllHits, VerdictOf;
    forall v
      ensures v in Candidates(run) <==> exists gate :: gate in gates && gate.version == v
    {
      CandidatesAre(g, c, run, v);
      if x :| x in c.candidates && x.version == v {
        var i :| 0 <= i < |c.candidates| && c.candidates[i] == x;
        assert gates[i] == GateFor(s, v) && gates[i] in gates;
      }
      if gate :| gate in gates && gate.version == v {
        var i :| 0 <= i < |gates| && gates[i] == gate;
        assert gates[i] == GateFor(s, c.candidates[i].version) && c.candidates[i] in c.candidates;
      }
    }
  }

  lemma {:induction false} GatesExactly(s: Setting, g: Collection.Gathering, c: Collection.Collected, input: Run,
                                        run: Run)
    requires Collection.Gathers(g, c) && Gated(s, c.candidates, input.gates) && input.hits == AllHits(c.candidates)
    requires SortedFrom(GateBefore, input.gates, run.gates) && multiset(run.hits) == multiset(input.hits)
    ensures run.gates == input.gates
    ensures ValidGates(run) <==> forall x :: x in c.candidates ==> Proper(VerdictOf(s, x.version))
  {
    GatesAscend(g, c, s, input.gates);
    InOrderUnique(GateBefore, input.gates, run.gates);
    GatesProper(s, g, c, run.gates);
    GateVersions(s, g, c, run.gates, run);
    hide Collection.Gathers, Candidates, SortedBy, InOrder, AllHits, Gated, Proper, VerdictOf;
    assert forall gate :: gate in run.gates ==>
        (GoodGate(gate) <==>
         gate.version != EMPTY && (gate.advisoryOnly ==> gate.eligible) && gate.eligible == (gate.codes == {})
         && EMPTY !in gate.codes);
  }

  lemma {:induction false} GatesAscend(g: Collection.Gathering, c: Collection.Collected, s: Setting, gates: seq<Gate>)
    requires Collection.Gathers(g, c) && Gated(s, c.candidates, gates)
    ensures SortedBy(GateBefore, gates)
  {
    forall i, j | 0 <= i < j < |gates|
      ensures GateBefore(gates[i], gates[j])
    {
      assert gates[i] == GateFor(s, c.candidates[i].version) && gates[j] == GateFor(s, c.candidates[j].version);
    }
  }

  // ----- runs without a ranking

  /** A failure needs the channels served and the lists short; an abstention before ranking also
      needs every index to have been searched and proper verdicts. */
  lemma {:induction false} UnrankedExactly(s: Setting, g: Collection.Gathering, c: Collection.Collected, input: Run,
                                           run: Run)
    requires Collection.Gathers(g, c) && Assembled(s, c, input) && Canonical(input, run)
    requires input.ranked == [] && input.judgments == [] && input.selected == [] && input.disposition != Selected
             && input.code != []
    requires if input.disposition == Failed then input.gates == [] else Gated(s, c.candidates, input.gates)
    ensures ValidRun(run) <==>
            |input.code| <= 128 && if input.disposition == Failed then Served(s, c) && Recordable(s, c)
            else FullyServed(s, c)
  {
    hide Collection.Gathers, Records, InOrder, AllHits, Gated, Served, Proper, VerdictOf, ValidExecutions, ValidHitList,
         ValidSnapshot;
    var ranks: seq<PersistedRank>, judgments: seq<Judgment> :| CanonicalOf(input, ranks, judgments, run);
    SameSize(input.executions, run.executions);
    SameSize(input.hits, run.hits);
    SameSize(input.gates, run.gates);
    SameSize(ranks, run.ranked);
    SameSize(judgments, run.judgments);
    ExecutionsExactly(s, g, c, input, run);
    HitListValid(g, c, input, run);
    RecordsSize(c, input.executions);
    if input.disposition == Failed {
      assert ValidGates(run);
    } else {
      GatesExactly(s, g, c, input, run);
      GatedSize(s, c, input.gates);
      hide ValidGates, SortedFrom, Canonical;
    }
  }

  lemma {:induction false} GatedSize(s: Setting, c: Collection.Collected, gates: seq<Gate>)
    requires Gated(s, c.candidates, gates)
    ensures |gates| == |c.candidates|
  {
  }

  lemma {:induction false} RecordsSize(c: Collection.Collected, executions: seq<Execution>)
    requires Records(c, executions)
    ensures |executions| == |c.results| + |c.degraded|
  {
  }
}
