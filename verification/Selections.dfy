/** Eligibility and selection: which collected candidates are ranked, and which ranked ones are selected
and shown. */
module Selections {
  import opened Identifiers
  import opened Sorting
  import opened Ranking
  import opened SemanticRanking
  import opened Runs
  import opened Retrieval
  import Collection

  /** The judge's part, when it is consulted at all. */
  datatype Semantic = NotConsulted | Consulted(admission: Admission, judgments: seq<Judgment>)

  // ----- eligibility

  /** A version without a verdict is one that was not evaluated. */
  function VerdictOf(s: Setting, version: Id): (v: Verdict)
  {
    if version in s.verdicts then s.verdicts[version] else Verdict(false, false, {})
  }

  function GateFor(s: Setting, version: Id): (g: Gate)
  {
    var v := VerdictOf(s, version);
    Gate(version, v.eligible, v.advisoryOnly, v.codes)
  }

  function RanksOf(hits: seq<Collection.RankedHit>): (r: seq<ChannelRank>)
    ensures |r| == |hits|
  {
    seq(|hits|, i requires 0 <= i < |hits| => ChannelRank(hits[i].channel, hits[i].rank))
  }

  function CandidateFor(c: Collection.CandidateSet, d: Document): (r: Candidate)
  {
    Candidate(c.version, RanksOf(c.hits), d.features, d.strength, d.observed)
  }

  /** The candidates that pass their gate, in order. */
  function Eligible(s: Setting, sets: seq<Collection.CandidateSet>): (r: seq<Candidate>)
    requires forall c :: c in sets ==> c.version in s.library
  {
    if sets == [] then []
    else
      var before := Eligible(s, sets[..|sets| - 1]);
      var c := sets[|sets| - 1];
      if VerdictOf(s, c.version).eligible then before + [CandidateFor(c, s.library[c.version])] else before
  }

  ghost predicate Gated(s: Setting, sets: seq<Collection.CandidateSet>, gates: seq<Gate>)
  {
    |gates| == |sets| && forall i :: 0 <= i < |sets| ==> gates[i] == GateFor(s, sets[i].version)
  }

  method GateAll(s: Setting, sets: seq<Collection.CandidateSet>) returns (gates: seq<Gate>, candidates: seq<Candidate>)
    requires forall c :: c in sets ==> c.version in s.library
    ensures Gated(s, sets, gates) && candidates == Eligible(s, sets)
  {
    gates, candidates := [], [];
    for i := 0 to |sets|
      invariant Gated(s, sets[..i], gates) && candidates == Eligible(s, sets[..i])
    {
      var c := sets[i];
      assert sets[..i + 1] == sets[..i] + [c] && sets[..i + 1][..i] == sets[..i];
      gates := gates + [GateFor(s, c.version)];
      if VerdictOf(s, c.version).eligible {
        candidates := candidates + [CandidateFor(c, s.library[c.version])];
      }
    }
    assert sets[..|sets|] == sets;
  }

  lemma {:induction false} EligibleMembers(s: Setting, sets: seq<Collection.CandidateSet>, x: Candidate)
    requires forall c :: c in sets ==> c.version in s.library
    ensures x in Eligible(s, sets) <==>
            exists c :: c in sets && VerdictOf(s, c.version).eligible && x == CandidateFor(c, s.library[c.version])
  {
    if sets != [] {
      var n := |sets| - 1;
      EligibleMembers(s, sets[..n], x);
      assert sets == sets[..n] + [sets[n]];
    }
  }

  // ----- selection

  /** What the selection loop has selected and shown after the entries of `ranked`. */
  function Walk(s: Setting, ranked: seq<PersistedRank>): (r: (seq<Id>, seq<SelectedCandidate>))
    requires forall p :: p in ranked ==> p.version in s.library
  {
    if ranked == [] then ([], [])
    else
      var (selected, shown) := Walk(s, ranked[..|ranked| - 1]);
      var p := ranked[|ranked| - 1];
      if VerdictOf(s, p.version).advisoryOnly then (selected, shown + [Shown(p, s.library[p.version], true)])
      else if p.finalScore < s.minimumScore || |selected| >= s.maximumSelections then (selected, shown)
      else (selected + [p.version], shown + [Shown(p, s.library[p.version], false)])
  }

  method Select(s: Setting, ranked: seq<PersistedRank>) returns (selected: seq<Id>, shown: seq<SelectedCandidate>)
    requires forall p :: p in ranked ==> p.version in s.library
    ensures (selected, shown) == Walk(s, ranked)
  {
    selected, shown := [], [];
    for i := 0 to |ranked|
      invariant (selected, shown) == Walk(s, ranked[..i])
    {
      var p := ranked[i];
      assert ranked[..i + 1][..i] == ranked[..i];
      if VerdictOf(s, p.version).advisoryOnly {
        shown := shown + [Shown(p, s.library[p.version], true)];
      } else if p.finalScore >= s.minimumScore && |selected| < s.maximumSelections {
        selected := selected + [p.version];
        shown := shown + [Shown(p, s.library[p.version], false)];
      }
    }
    assert ranked[..|ranked|] == ranked;
  }

  predicate Qualified(s: Setting, p: PersistedRank)
  {
    !VerdictOf(s, p.version).advisoryOnly && p.finalScore >= s.minimumScore
  }

  function Qualifying(s: Setting, ranked: seq<PersistedRank>): (r: seq<Id>)
  {
    if ranked == [] then []
    else
      var before := Qualifying(s, ranked[..|ranked| - 1]);
      if Qualified(s, ranked[|ranked| - 1]) then before + [ranked[|ranked| - 1].version] else before
  }

  /** The selection is the best-ranked qualifying versions, up to the maximum. */
  lemma {:induction false} SelectionIsBest(s: Setting, ranked: seq<PersistedRank>)
    requires forall p :: p in ranked ==> p.version in s.library
    ensures var q := Qualifying(s, ranked);
            Walk(s, ranked).0 == if |q| <= s.maximumSelections then q else q[..s.maximumSelections]
  {
    if ranked != [] {
      SelectionIsBest(s, ranked[..|ranked| - 1]);
    }
  }

  predicate DistinctRanked(ranked: seq<PersistedRank>)
  {
    forall i, j :: 0 <= i < j < |ranked| ==> ranked[i].version != ranked[j].version
  }

  /** A version is selected exactly when the loop took it where it stood. */
  lemma {:induction false} SelectedWhere(s: Setting, ranked: seq<PersistedRank>, i: nat)
    requires (forall p :: p in ranked ==> p.version in s.library) && DistinctRanked(ranked) && i < |ranked|
    ensures ranked[i].version in Walk(s, ranked).0 <==>
            Qualified(s, ranked[i]) && |Walk(s, ranked[..i]).0| < s.maximumSelections
  {
    var n := |ranked| - 1;
    WalkSelectsRanked(s, ranked[..n]);
    if i < n {
      SelectedWhere(s, ranked[..n], i);
      assert ranked[..n][..i] == ranked[..i];
      assert ranked[n].version != ranked[i].version;
    } else {
      assert forall k :: 0 <= k < n ==> ranked[..n][k].version != ranked[i].version;
    }
  }

  lemma {:induction false} WalkSelectsRanked(s: Setting, ranked: seq<PersistedRank>)
    requires forall p :: p in ranked ==> p.version in s.library
    ensures forall v :: v in Walk(s, ranked).0 ==> exists k :: 0 <= k < |ranked| && ranked[k].version == v
  {
    if ranked != [] {
      var n := |ranked| - 1;
      WalkSelectsRanked(s, ranked[..n]);
      forall v | v in Walk(s, ranked).0
        ensures exists k :: 0 <= k < |ranked| && ranked[k].version == v
      {
        if v in Walk(s, ranked[..n]).0 {
          var k :| 0 <= k < n && ranked[..n][k].version == v;
          assert ranked[k].version == v;
        } else {
          assert ranked[n].version == v;
        }
      }
    }
  }

  /** What the loop shows is what the stored selection and gates show again. */
  lemma {:induction false} WalkShows(s: Setting, ranked: seq<PersistedRank>, run: Run, i: nat)
    requires (forall p :: p in ranked ==> p.version in s.library) && DistinctRanked(ranked) && i <= |ranked|
    requires run.selected == Walk(s, ranked).0 && Included(run) <= s.library.Keys
    requires forall p :: p in ranked ==> AdvisoryIn(run.gates, p.version) == VerdictOf(s, p.version).advisoryOnly
    ensures Walk(s, ranked[..i]).1 == ShownFrom(run, s.library, ranked[..i])
    decreases i
  {
    if i > 0 {
      hide AdvisoryIn;
      WalkShows(s, ranked, run, i - 1);
      assert ranked[..i][..i - 1] == ranked[..i - 1];
      assert ranked[i - 1] in ranked;
      SelectedWhere(s, ranked, i - 1);
    }
  }

  // ----- what a run is assembled from

  function TextOf(s: Setting, channel: Id): (t: string)
  {
    if channel in s.channelText then s.channelText[channel] else ""
  }

  ghost predicate RequiredMissing(s: Setting, c: Collection.Collected)
  {
    exists r :: r in s.required && IsDegraded(c.degraded, r)
  }

  predicate DocumentsFound(s: Setting, c: Collection.Collected)
  {
    s.readable && forall x :: x in c.candidates ==> x.version in s.library
  }

  /** The entries of the run to be stored, before they are put in canonical order. */
  ghost predicate Assembled(s: Setting, c: Collection.Collected, input: Run)
  {
    && Records(c, input.executions) && input.hits == AllHits(c.candidates)
    && input.id == s.runId && input.queryHash == s.queryHash && input.contextHash == s.contextHash
    && input.snapshot == s.snapshot
    && (forall i :: 0 <= i < |input.ranked| ==> input.ranked[i].rank == i + 1)
  }

  ghost predicate SameButFeatures(before: seq<Candidate>, after: seq<Candidate>)
  {
    |after| == |before| && forall i :: 0 <= i < |before| ==> after[i] == before[i].(features := after[i].features)
  }

  lemma {:induction false} RanksKeepOrder(before: seq<PersistedRank>, ranks: seq<PersistedRank>,
                                          after: seq<PersistedRank>)
    requires ArrangesRanks(before, ranks) && SortedFrom(RankBefore, ranks, after)
    requires forall i :: 0 <= i < |before| ==> before[i].rank == i + 1
    ensures after == ranks
  {
    forall i | 0 <= i < |ranks| ensures ranks[i].rank == i + 1 {
      assert ArrangesRank(before[i], ranks[i]);
    }
    InOrderUnique(RankBefore, ranks, after);
  }

  lemma {:induction false} StoredRanks(input: Run, run: Run)
    requires Canonical(input, run) && forall i :: 0 <= i < |input.ranked| ==> input.ranked[i].rank == i + 1
    ensures ArrangesRanks(input.ranked, run.ranked)
  {
    hide ArrangesRanks, ArrangesJudgments;
    var ranks: seq<PersistedRank>, judgments: seq<Judgment> :| CanonicalOf(input, ranks, judgments, run);
    RanksKeepOrder(input.ranked, ranks, run.ranked);
  }
}
