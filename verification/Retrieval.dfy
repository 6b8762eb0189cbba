/** The retrieval decision: the first answer, the run that is stored, and the answer rebuilt from it. */
module Retrieval {
  import opened Identifiers
  import opened Sorting
  import opened Ranking
  import opened SemanticRanking
  import opened Runs
  import opened CheckedArithmetic
  import Collection

  datatype Document = Document(procedure: Id, lifecycle: Id, observed: bool, strength: Int32,
                               features: seq<FeatureValue>)

  datatype Verdict = Verdict(eligible: bool, advisoryOnly: bool, codes: set<Id>)

  /** What one decision depends on besides the channels. The documents of an epoch are fixed;
      `readable` says whether reading them succeeds. The eligibility verdicts are those of one
      evaluation. */
  datatype Setting = Setting(
    runId: Id,
    queryHash: Id,
    contextHash: Id,
    startedAt: int,
    snapshot: Snapshot,
    required: seq<Id>,
    minimumScore: Int64,
    maximumSelections: nat,
    ranker: Manifest,
    names: seq<Id>,
    library: map<Id, Document>,
    readable: bool,
    verdicts: map<Id, Verdict>,
    channelText: map<Id, string>
  )

  datatype SelectedCandidate = SelectedCandidate(
    version: Id, procedure: Id, finalScore: Int64, rank: nat, lifecycle: Id, observed: bool, advisoryOnly: bool)

  datatype Response = Response(
    runId: Id,
    disposition: Disposition,
    code: string,
    candidates: seq<SelectedCandidate>,
    snapshot: Snapshot,
    queryHash: Id,
    degraded: seq<Collection.Degraded>,
    approximate: bool
  )

  datatype Answer = Answered(response: Response) | ServiceFailed(code: string, runId: Id)

  // ----- the answer a stored run stands for

  /** The text before the first colon. */
  function BeforeColon(code: string): (r: string)
    ensures ':' !in r && r <= code && (r == code || code[|r|] == ':')
  {
    if code == [] || code[0] == ':' then [] else [code[0]] + BeforeColon(code[1..])
  }

  predicate AdvisoryIn(gates: seq<Gate>, version: Id)
  {
    exists g :: g in gates && g.version == version && g.advisoryOnly
  }

  predicate IncludedIn(run: Run, version: Id)
  {
    version in run.selected || AdvisoryIn(run.gates, version)
  }

  function Included(run: Run): (versions: set<Id>)
    ensures forall v :: v in versions <==> IncludedIn(run, v)
  {
    (set v | v in run.selected) + (set g | g in run.gates && g.advisoryOnly :: g.version)
  }

  function Shown(p: PersistedRank, d: Document, advisory: bool): (c: SelectedCandidate)
  {
    SelectedCandidate(p.version, d.procedure, p.finalScore, p.rank, d.lifecycle, d.observed, advisory)
  }

  /** The included entries among `ranked`, in order. */
  function ShownFrom(run: Run, library: map<Id, Document>, ranked: seq<PersistedRank>): (r: seq<SelectedCandidate>)
    requires Included(run) <= library.Keys
  {
    if ranked == [] then []
    else
      var before := ShownFrom(run, library, ranked[..|ranked| - 1]);
      var p := ranked[|ranked| - 1];
      if IncludedIn(run, p.version) then before + [Shown(p, library[p.version], AdvisoryIn(run.gates, p.version))]
         else before
  }

  function DegradedBy(e: Execution): (d: Collection.Degraded)
  {
    Collection.Degraded(e.channel, e.code, e.manifest, e.approximate, e.latency)
  }

  function DegradedFrom(executions: seq<Execution>): (r: seq<Collection.Degraded>)
  {
    if executions == [] then []
    else
      var before := DegradedFrom(executions[..|executions| - 1]);
      var e := executions[|executions| - 1];
      if e.complete then before else before + [DegradedBy(e)]
  }

  predicate ApproximateFrom(executions: seq<Execution>)
  {
    exists e :: e in executions && e.approximate && e.complete
  }

  /** What a stored run answers. */
  function AnswerOf(run: Run, library: map<Id, Document>): (a: Answer)
  {
    if run.disposition == Failed then ServiceFailed(BeforeColon(run.code), run.id)
    else if !(Included(run) <= library.Keys) then ServiceFailed("candidate_snapshot_missing", run.id)
    else Answered(Response(run.id, run.disposition, run.code, ShownFrom(run, library, run.ranked), run.snapshot,
                           run.queryHash,
                           DegradedFrom(run.executions), ApproximateFrom(run.executions)))
  }

  // ----- what an answer tells

  /** Selected, or let through for advice. */
  predicate Offered(run: Run, version: Id)
  {
    version in run.selected || exists g :: g in run.gates && g.version == version && g.advisoryOnly
  }

  /** The candidate is the ranked entry, with what its document says of it. */
  predicate Presents(run: Run, library: map<Id, Document>, p: PersistedRank, c: SelectedCandidate)
  {
    && c.version == p.version && c.rank == p.rank && c.finalScore == p.finalScore
    && (c.advisoryOnly <==> exists g :: g in run.gates && g.version == p.version && g.advisoryOnly)
    && p.version in library && c.procedure == library[p.version].procedure
    && c.lifecycle == library[p.version].lifecycle && c.observed == library[p.version].observed
  }

  predicate Ascends(at: seq<nat>, size: nat)
  {
    (forall i, j :: 0 <= i < j < |at| ==> at[i] < at[j]) && forall i :: 0 <= i < |at| ==> at[i] < size
  }

  /** The candidates are the offered ones among the ranked entries, found at these places. */
  predicate DisplaysAt(run: Run, library: map<Id, Document>, ranked: seq<PersistedRank>,
                       candidates: seq<SelectedCandidate>, at: seq<nat>)
  {
    && |at| == |candidates| && Ascends(at, |ranked|)
    && (forall i :: 0 <= i < |at| ==>
          Offered(run, ranked[at[i]].version) && Presents(run, library, ranked[at[i]], candidates[i]))
    && (forall k :: 0 <= k < |ranked| && Offered(run, ranked[k].version) ==> k in at)
  }

  /** The candidates are exactly the ranked entries that are offered, in the order of their ranks. */
  ghost predicate Displays(run: Run, library: map<Id, Document>, ranked: seq<PersistedRank>,
                           candidates: seq<SelectedCandidate>)
  {
    exists at :: DisplaysAt(run, library, ranked, candidates, at)
  }

  predicate Tallies(e: Execution, d: Collection.Degraded)
  {
    && d.channel == e.channel && d.code == e.code && d.manifest == e.manifest && d.approximate == e.approximate
    && d.latency == e.latency
  }

  predicate ReportsAt(executions: seq<Execution>, degraded: seq<Collection.Degraded>, at: seq<nat>)
  {
    && |at| == |degraded| && Ascends(at, |executions|)
    && (forall i :: 0 <= i < |at| ==> !executions[at[i]].complete && Tallies(executions[at[i]], degraded[i]))
    && (forall k :: 0 <= k < |executions| && !executions[k].complete ==> k in at)
  }

  /** The degraded channels are exactly those recorded as not complete, in order. */
  ghost predicate Reports(executions: seq<Execution>, degraded: seq<Collection.Degraded>)
  {
    exists at :: ReportsAt(executions, degraded, at)
  }

  /** A failed run tells its code, up to a colon, and its id; any other the whole outcome. */
  ghost predicate Tells(run: Run, library: map<Id, Document>, a: Answer)
  {
    var missing := exists v :: Offered(run, v) && v !in library;
    match a
    case ServiceFailed(code, runId) =>
      && runId == run.id && (run.disposition == Failed || missing)
      && (run.disposition == Failed ==>
          ':' !in code && code <= run.code && (code == run.code || run.code[|code|] == ':'))
      && (run.disposition != Failed ==> code == "candidate_snapshot_missing")
    case Answered(response) =>
      && run.disposition != Failed && !missing
      && response.runId == run.id && response.disposition == run.disposition && response.code == run.code
      && response.snapshot == run.snapshot && response.queryHash == run.queryHash
      && Displays(run, library, run.ranked, response.candidates) && Reports(run.executions, response.degraded)
      && (response.approximate <==> exists e :: e in run.executions && e.complete && e.approximate)
  }

  lemma {:induction false} ShownDisplays(run: Run, library: map<Id, Document>, ranked: seq<PersistedRank>)
    returns (at: seq<nat>)
    requires Included(run) <= library.Keys
    ensures DisplaysAt(run, library, ranked, ShownFrom(run, library, ranked), at)
  {
    at := [];
    if ranked != [] {
      var n := |ranked| - 1;
      var init, p := ranked[..n], ranked[n];
      at := ShownDisplays(run, library, init);
      var before := ShownFrom(run, library, init);
      assert p.version in Included(run) <==> IncludedIn(run, p.version);
      assert ranked == init + [p];
      if IncludedIn(run, p.version) {
        var c := Shown(p, library[p.version], AdvisoryIn(run.gates, p.version));
        assert Presents(run, library, p, c);
        assert ShownFrom(run, library, ranked) == before + [c];
        hide ShownFrom, Included, IncludedIn, Presents;
        DisplaysMore(run, library, init, before, p, c, at);
        at := at + [n];
      } else {
        hide ShownFrom, Included;
        DisplaysSame(run, library, init, before, p, at);
      }
    }
  }

  lemma {:induction false} AscendsMore(at: seq<nat>, size: nat)
    requires Ascends(at, size)
    ensures Ascends(at + [size], size + 1) && Ascends(at, size + 1)
    ensures (at + [size])[|at|] == size && forall k :: k in at ==> k in at + [size]
  {
  }

  lemma {:induction false} DisplaysMore(run: Run, library: map<Id, Document>, init: seq<PersistedRank>,
                                        before: seq<SelectedCandidate>, p: PersistedRank, c: SelectedCandidate,
                                        at: seq<nat>)
    requires DisplaysAt(run, library, init, before, at) && Offered(run, p.version) && Presents(run, library, p, c)
    ensures DisplaysAt(run, library, init + [p], before + [c], at + [|init|])
  {
    hide Offered, Presents;
    var ranked, more, after := init + [p], at + [|init|], before + [c];
    AscendsMore(at, |init|);
    forall i | 0 <= i < |more|
      ensures Offered(run, ranked[more[i]].version) && Presents(run, library, ranked[more[i]], after[i])
    {
      assert i < |at| ==> more[i] == at[i] && after[i] == before[i] && ranked[at[i]] == init[at[i]];
    }
    forall k | 0 <= k < |ranked| && Offered(run, ranked[k].version)
      ensures k in more
    {
      assert k < |init| ==> ranked[k] == init[k];
    }
  }

  lemma {:induction false} DisplaysSame(run: Run, library: map<Id, Document>, init: seq<PersistedRank>,
                                        before: seq<SelectedCandidate>, p: PersistedRank, at: seq<nat>)
    requires DisplaysAt(run, library, init, before, at) && !Offered(run, p.version)
    ensures DisplaysAt(run, library, init + [p], before, at)
  {
    hide Offered, Presents;
    var ranked := init + [p];
    forall i | 0 <= i < |at|
      ensures Offered(run, ranked[at[i]].version) && Presents(run, library, ranked[at[i]], before[i])
    {
      assert ranked[at[i]] == init[at[i]];
    }
    forall k | 0 <= k < |ranked| && Offered(run, ranked[k].version)
      ensures k in at
    {
      assert k < |init| ==> ranked[k] == init[k];
    }
  }

  lemma {:induction false} DegradedReports(executions: seq<Execution>) returns (at: seq<nat>)
    ensures ReportsAt(executions, DegradedFrom(executions), at)
  {
    at := [];
    if executions != [] {
      var n := |executions| - 1;
      var init, e := executions[..n], executions[n];
      at := DegradedReports(init);
      var before := DegradedFrom(init);
      assert executions == init + [e];
      if e.complete {
        hide DegradedFrom;
        ReportsSame(init, before, e, at);
      } else {
        assert Tallies(e, DegradedBy(e)) && DegradedFrom(executions) == before + [DegradedBy(e)];
        hide DegradedFrom;
        ReportsMore(init, before, e, DegradedBy(e), at);
        at := at + [n];
      }
    }
  }

  lemma {:induction false} ReportsMore(init: seq<Execution>, before: seq<Collection.Degraded>, e: Execution,
                                       d: Collection.Degraded, at: seq<nat>)
    requires ReportsAt(init, before, at) && !e.complete && Tallies(e, d)
    ensures ReportsAt(init + [e], before + [d], at + [|init|])
  {
    hide Tallies;
    var executions, more, after := init + [e], at + [|init|], before + [d];
    AscendsMore(at, |init|);
    forall i | 0 <= i < |more|
      ensures !executions[more[i]].complete && Tallies(executions[more[i]], after[i])
    {
      assert i < |at| ==> more[i] == at[i] && after[i] == before[i] && executions[at[i]] == init[at[i]];
    }
    forall k | 0 <= k < |executions| && !executions[k].complete
      ensures k in more
    {
      assert k < |init| ==> executions[k] == init[k];
    }
  }

  lemma {:induction false} ReportsSame(init: seq<Execution>, before: seq<Collection.Degraded>, e: Execution,
                                       at: seq<nat>)
    requires ReportsAt(init, before, at) && e.complete
    ensures ReportsAt(init + [e], before, at)
  {
    hide Tallies;
    var executions := init + [e];
    forall i | 0 <= i < |at|
      ensures !executions[at[i]].complete && Tallies(executions[at[i]], before[i])
    {
      assert executions[at[i]] == init[at[i]];
    }
    forall k | 0 <= k < |executions| && !executions[k].complete
      ensures k in at
    {
      assert k < |init| ==> executions[k] == init[k];
    }
  }

  lemma {:induction false} AnswerTells(run: Run, library: map<Id, Document>)
    ensures Tells(run, library, AnswerOf(run, library))
  {
    forall v
      ensures v in Included(run) <==> Offered(run, v)
    {
      assert v in Included(run) <==> IncludedIn(run, v);
    }
    if Included(run) <= library.Keys {
      var at := ShownDisplays(run, library, run.ranked);
    } else {
      var v :| v in Included(run) && v !in library;
    }
    var at := DegradedReports(run.executions);
    hide DisplaysAt, ReportsAt, Offered, ShownFrom, DegradedFrom;
  }

  /** responseFromRun: the replayed answer. */
  method ResponseFromRun(run: Run, library: map<Id, Document>) returns (a: Answer)
    ensures a == AnswerOf(run, library)
    ensures Tells(run, library, a)
  {
    AnswerTells(run, library);
    hide Tells;
    var degraded: seq<Collection.Degraded>, approximate := [], false;
    for i := 0 to |run.executions|
      invariant degraded == DegradedFrom(run.executions[..i])
      invariant approximate == ApproximateFrom(run.executions[..i])
    {
      var e := run.executions[i];
      assert run.executions[..i + 1] == run.executions[..i] + [e];
      assert run.executions[..i + 1][..i] == run.executions[..i];
      approximate := approximate || (e.approximate && e.complete);
      if !e.complete {
        degraded := degraded + [DegradedBy(e)];
      }
    }
    assert run.executions[..|run.executions|] == run.executions;
    if run.disposition == Failed {
      return ServiceFailed(BeforeColon(run.code), run.id);
    }
    var included := Included(run);
    if included == {} {
      NothingShown(run, library, run.ranked);
      return Answered(Response(run.id, run.disposition, run.code, [], run.snapshot, run.queryHash, degraded,
                               approximate));
    }
    if !(included <= library.Keys) {
      return ServiceFailed("candidate_snapshot_missing", run.id);
    }
    var candidates: seq<SelectedCandidate> := [];
    for i := 0 to |run.ranked|
      invariant candidates == ShownFrom(run, library, run.ranked[..i])
    {
      var p := run.ranked[i];
      assert run.ranked[..i + 1][..i] == run.ranked[..i];
      if p.version in included {
        candidates := candidates + [Shown(p, library[p.version], AdvisoryIn(run.gates, p.version))];
      }
    }
    assert run.ranked[..|run.ranked|] == run.ranked;
    return Answered(Response(run.id, run.disposition, run.code, candidates, run.snapshot, run.queryHash, degraded,
                             approximate));
  }

  lemma {:induction false} NothingShown(run: Run, library: map<Id, Document>, ranked: seq<PersistedRank>)
    requires Included(run) == {}
    ensures ShownFrom(run, library, ranked) == []
  {
    if ranked != [] {
      var n := |ranked| - 1;
      NothingShown(run, library, ranked[..n]);
      assert ranked[n].version !in Included(run);
    }
  }

  // ----- storing the channels

  function ResultExecution(r: Collection.ChannelResult): (e: Execution)
  {
    Execution(r.channel, r.manifest, r.hitCount, r.approximate, true, EMPTY, r.latency)
  }

  function DegradedExecution(d: Collection.Degraded): (e: Execution)
  {
    Execution(d.channel, d.manifest, 0, d.approximate, false, d.code, d.latency)
  }

  function HitsOf(c: Collection.CandidateSet): (r: seq<PersistedHit>)
  {
    seq(|c.hits|, i requires 0 <= i < |c.hits| =>
      PersistedHit(c.hits[i].channel, c.version, c.hits[i].rank, c.hits[i].rawScore, c.hits[i].manifest,
                   c.hits[i].approximate))
  }

  function AllHits(candidates: seq<Collection.CandidateSet>): (r: seq<PersistedHit>)
  {
    if candidates == [] then [] else AllHits(candidates[..|candidates| - 1]) + HitsOf(candidates[|candidates| - 1])
  }

  ghost predicate Records(c: Collection.Collected, executions: seq<Execution>)
  {
    && |executions| == |c.results| + |c.degraded|
    && (forall i :: 0 <= i < |c.results| ==> executions[i] == ResultExecution(c.results[i]))
    && (forall i :: 0 <= i < |c.degraded| ==> executions[|c.results| + i] == DegradedExecution(c.degraded[i]))
  }

  method PersistedChannels(c: Collection.Collected) returns (executions: seq<Execution>, hits: seq<PersistedHit>)
    ensures Records(c, executions)
    ensures hits == AllHits(c.candidates)
  {
    executions := [];
    for i := 0 to |c.results|
      invariant |executions| == i && forall k :: 0 <= k < i ==> executions[k] == ResultExecution(c.results[k])
    {
      executions := executions + [ResultExecution(c.results[i])];
    }
    for i := 0 to |c.degraded|
      invariant |executions| == |c.results| + i
      invariant forall k :: 0 <= k < |c.results| ==> executions[k] == ResultExecution(c.results[k])
      invariant forall k :: 0 <= k < i ==> executions[|c.results| + k] == DegradedExecution(c.degraded[k])
    {
      executions := executions + [DegradedExecution(c.degraded[i])];
    }
    hits := [];
    for i := 0 to |c.candidates|
      invariant hits == AllHits(c.candidates[..i])
    {
      assert c.candidates[..i + 1][..i] == c.candidates[..i];
      ghost var before := hits;
      var entry := c.candidates[i];
      for k := 0 to |entry.hits|
        invariant hits == before + HitsOf(entry)[..k]
      {
        var h := entry.hits[k];
        assert HitsOf(entry)[..k + 1] == HitsOf(entry)[..k] + [HitsOf(entry)[k]];
        hits := hits + [PersistedHit(h.channel, entry.version, h.rank, h.rawScore, h.manifest, h.approximate)];
      }
      assert HitsOf(entry)[..|entry.hits|] == HitsOf(entry);
    }
    assert c.candidates[..|c.candidates|] == c.candidates;
  }

  predicate IsDegraded(degraded: seq<Collection.Degraded>, name: Id)
  {
    exists d :: d in degraded && d.channel == name
  }

  /** requiredDegradation: the first required channel that is degraded. */
  method RequiredDegradation(degraded: seq<Collection.Degraded>, required: seq<Id>) returns (found: bool, name: Id)
    ensures found <==> exists r :: r in required && IsDegraded(degraded, r)
    ensures found ==> exists k :: 0 <= k < |required| && name == required[k] && IsDegraded(degraded, name)
                          && forall j :: 0 <= j < k ==> !IsDegraded(degraded, required[j])
  {
    var missing := set d | d in degraded :: d.channel;
    for i := 0 to |required|
      invariant forall k :: 0 <= k < i ==> !IsDegraded(degraded, required[k])
    {
      assert required[i] in missing <==> IsDegraded(degraded, required[i]);
      if required[i] in missing {
        return true, required[i];
      }
    }
    return false, EMPTY;
  }

  // ----- the channels in the canonical run

  predicate DegradedBefore(a: Collection.Degraded, b: Collection.Degraded)
  {
    a.channel < b.channel
  }

  /** The degraded channels of the canonical executions come back in the order they were collected in. */
  lemma {:induction false} DegradedSurvive(g: Collection.Gathering, c: Collection.Collected, executions: seq<Execution>,
                                           canonical: seq<Execution>)
    requires Collection.Gathers(g, c) && Records(c, executions)
    requires multiset(canonical) == multiset(executions) && SortedBy(ExecutionBefore, canonical)
    ensures DegradedFrom(canonical) == c.degraded
  {
    DegradedSorted(canonical);
    forall d
      ensures d in DegradedFrom(canonical) <==> d in c.degraded
    {
      DegradedRecorded(c, executions, canonical, d);
    }
    assert Elements(DegradedFrom(canonical)) == Elements(c.degraded);
    assert SortedBy(DegradedBefore, c.degraded);
    hide Collection.Gathers;
    StrictOrders(DegradedBefore, c.degraded);
    SortedByUnique(DegradedBefore, c.degraded, DegradedFrom(canonical));
  }

  lemma {:induction false} DegradedMembers(executions: seq<Execution>, d: Collection.Degraded)
    ensures d in DegradedFrom(executions) <==> exists e :: e in executions && !e.complete && d == DegradedBy(e)
  {
    if executions != [] {
      var n := |executions| - 1;
      DegradedMembers(executions[..n], d);
      assert executions == executions[..n] + [executions[n]];
    }
  }

  lemma {:induction false} DegradedSorted(executions: seq<Execution>)
    requires SortedBy(ExecutionBefore, executions)
    ensures SortedBy(DegradedBefore, DegradedFrom(executions))
  {
    if executions != [] {
      var n := |executions| - 1;
      DegradedSorted(executions[..n]);
      var before := DegradedFrom(executions[..n]);
      forall k | 0 <= k < |before|
        ensures before[k].channel < executions[n].channel
      {
        DegradedMembers(executions[..n], before[k]);
      }
    }
  }

  lemma {:induction false} DegradedRecorded(c: Collection.Collected, executions: seq<Execution>,
                                            canonical: seq<Execution>, d: Collection.Degraded)
    requires Records(c, executions) && multiset(canonical) == multiset(executions)
    ensures d in DegradedFrom(canonical) <==> d in c.degraded
  {
    DegradedMembers(canonical, d);
    if d in DegradedFrom(canonical) {
      var e :| e in canonical && !e.complete && d == DegradedBy(e);
      SameMembers(canonical, executions, e);
      var i :| 0 <= i < |executions| && executions[i] == e;
      assert i >= |c.results|;
      assert executions[|c.results| + (i - |c.results|)] == DegradedExecution(c.degraded[i - |c.results|]);
    }
    if d in c.degraded {
      var i :| 0 <= i < |c.degraded| && c.degraded[i] == d;
      var e := executions[|c.results| + i];
      SameMembers(canonical, executions, e);
      assert e in canonical && !e.complete && d == DegradedBy(e);
    }
  }

  lemma {:induction false} ApproximateSurvives(g: Collection.Gathering, c: Collection.Collected,
                                               executions: seq<Execution>, canonical: seq<Execution>)
    requires Collection.Gathers(g, c) && Records(c, executions) && multiset(canonical) == multiset(executions)
    ensures ApproximateFrom(canonical) == c.approximate
  {
    assert c.approximate <==> exists r :: r in c.results && r.approximate;
    hide Collection.Gathers;
    if c.approximate {
      var r :| r in c.results && r.approximate;
      var i :| 0 <= i < |c.results| && c.results[i] == r;
      SameMembers(canonical, executions, executions[i]);
      assert executions[i] in canonical && executions[i].approximate && executions[i].complete;
    }
    if ApproximateFrom(canonical) {
      var e :| e in canonical && e.approximate && e.complete;
      SameMembers(canonical, executions, e);
      var i :| 0 <= i < |executions| && executions[i] == e;
      assert i >= |c.results| ==>
             executions[|c.results| + (i - |c.results|)] == DegradedExecution(c.degraded[i - |c.results|]);
      assert c.results[i] in c.results && c.results[i].approximate;
    }
  }
}
