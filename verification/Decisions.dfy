/** Making a retrieval decision. Every decision that is stored answers, when replayed, what it
answered first. */
module Decisions {
  import opened Identifiers
  import opened Sorting
  import opened Ranking
  import opened RankOrder
  import opened SemanticRanking
  import opened Runs
  import opened Retrieval
  import opened Audits
  import opened Selections
  import opened Storability
  import opened StorableRanking
  import opened StoredFacts
  import Collection

  /** A decision is stored with the answer given to the caller that stored it, or not made. */
  datatype Decision = Stored(run: Run, answer: Answer) | NotMade

  // ----- storing a decision

  method Store(s: Setting, ghost g: Collection.Gathering, c: Collection.Collected, input: Run,
               shown: seq<SelectedCandidate>)
    returns (d: Decision)
    requires Collection.Gathers(g, c) && Assembled(s, c, input)
    requires input.disposition != Failed ==>
             Included(input) <= s.library.Keys && shown == ShownFrom(input, s.library, input.ranked)
    ensures d.Stored? ==> Canonical(input, d.run) && ValidRun(d.run) && d.answer == AnswerOf(d.run, s.library)
    ensures d.NotMade? ==> exists r :: Canonical(input, r) && !ValidRun(r)
  {
    var built := CanonicalizeRun(input);
    if built.InvalidRun? {
      return NotMade;
    }
    var run := built.run;
    ReplayMatches(s, g, c, input, run);
    hide Canonical, ValidRun, Collection.Gathers, Assembled, ShownFrom, DegradedFrom, ApproximateFrom;
    if run.disposition == Failed {
      return Stored(run, ServiceFailed(BeforeColon(run.code), run.id));
    }
    return Stored(run, Answered(Response(run.id, run.disposition, run.code, shown, run.snapshot, run.queryHash,
                                         c.degraded, c.approximate)));
  }

  /** Everything the answer shows survives the canonical form. */
  lemma {:induction false} ReplayMatches(s: Setting, g: Collection.Gathering, c: Collection.Collected, input: Run,
                                         run: Run)
    requires Collection.Gathers(g, c) && Assembled(s, c, input) && Canonical(input, run) && ValidRun(run)
    ensures run.id == input.id && run.disposition == input.disposition && run.code == input.code
    ensures DegradedFrom(run.executions) == c.degraded && ApproximateFrom(run.executions) == c.approximate
    ensures Included(run) == Included(input)
    ensures Included(input) <= s.library.Keys ==>
            ShownFrom(run, s.library, run.ranked) == ShownFrom(input, s.library, input.ranked)
  {
    var ranks, judgments :| CanonicalOf(input, ranks, judgments, run);
    hide ValidHitList, ValidGates, ValidRanks, ValidJudgmentList, ValidSelection;
    DegradedSurvive(g, c, input.executions, run.executions);
    ApproximateSurvives(g, c, input.executions, run.executions);
    RanksKeepOrder(input.ranked, ranks, run.ranked);
    hide Collection.Gathers, ValidRun;
    SameAdvice(input, run);
    if Included(input) <= s.library.Keys {
      ShownAgain(s, input, run, input.ranked, run.ranked);
    }
  }

  lemma {:induction false} SameAdvice(input: Run, run: Run)
    requires multiset(input.gates) == multiset(run.gates) && run.selected == input.selected
    ensures forall v :: AdvisoryIn(run.gates, v) == AdvisoryIn(input.gates, v)
    ensures Included(run) == Included(input)
  {
    forall g ensures g in run.gates <==> g in input.gates {
      SameMembers(input.gates, run.gates, g);
    }
  }

  lemma {:induction false} ShownAgain(s: Setting, input: Run, run: Run, before: seq<PersistedRank>,
                                      after: seq<PersistedRank>)
    requires Included(input) <= s.library.Keys && Included(run) == Included(input)
    requires forall v :: AdvisoryIn(run.gates, v) == AdvisoryIn(input.gates, v)
    requires ArrangesRanks(before, after)
    ensures ShownFrom(run, s.library, after) == ShownFrom(input, s.library, before)
  {
    if before != [] {
      hide AdvisoryIn;
      var n := |before| - 1;
      assert ArrangesRank(before[n], after[n]);
      ShownAgain(s, input, run, before[..n], after[..n]);
      assert IncludedIn(run, after[n].version) <==> after[n].version in Included(run);
      assert IncludedIn(input, before[n].version) <==> before[n].version in Included(input);
    }
  }

  // ----- the decision

  ghost predicate EligibleVersion(s: Setting, c: Collection.Collected, version: Id)
  {
    exists x :: x in c.candidates && x.version == version && VerdictOf(s, version).eligible
  }

  ghost predicate IsRanked(ranked: seq<PersistedRank>, version: Id)
  {
    exists p :: p in ranked && p.version == version
  }

  /** Every candidate has its gate, and exactly the eligible ones are ranked. */
  ghost predicate Documented(s: Setting, c: Collection.Collected, run: Run)
  {
    && |run.gates| == |c.candidates| && (forall x :: x in c.candidates ==> GateFor(s, x.version) in run.gates)
    && (forall v :: IsRanked(run.ranked, v) <==> EligibleVersion(s, c, v))
  }

  /** An abstention says why. */
  ghost predicate Coded(s: Setting, c: Collection.Collected, run: Run)
  {
    run.disposition == Abstained ==>
      run.code == if c.candidates == [] then "no_candidates"
                  else if run.ranked == [] then "no_eligible_candidates"
                  else "below_confidence_threshold"
  }

  /** The features of a ranked entry are its document's and, of the judgments, those of the one
      that names it. */
  ghost predicate Attributed(s: Setting, judgments: seq<Judgment>, p: PersistedRank)
    requires p.version in s.library
  {
    var own := multiset(s.library[p.version].features);
    && (forall j :: j in judgments && j.version == p.version ==> multiset(p.features) == own + multiset(j.features))
    && ((forall j :: j in judgments ==> j.version != p.version) ==> multiset(p.features) == own)
  }

  /** Either no judgment was used, or all were, each for the version it names. */
  ghost predicate Attributes(s: Setting, run: Run)
    requires forall p :: p in run.ranked ==> p.version in s.library
  {
    || (forall p :: p in run.ranked ==> multiset(p.features) == multiset(s.library[p.version].features))
    || (AllCommitted(run.judgments) && forall p :: p in run.ranked ==> Attributed(s, run.judgments, p))
  }

  /** What every stored decision satisfies. */
  ghost predicate Sound(s: Setting, c: Collection.Collected, d: Decision)
  {
    d.Stored? ==>
      && ValidRun(d.run)
      && d.run.id == s.runId && d.run.queryHash == s.queryHash && d.run.contextHash == s.contextHash
      && d.run.snapshot == s.snapshot
      && d.answer == AnswerOf(d.run, s.library)
      && (d.run.disposition == Failed <==> RequiredMissing(s, c) || (c.candidates != [] && !DocumentsFound(s, c)))
      && (d.run.disposition != Failed ==>
          (forall p :: p in d.run.ranked ==> p.version in s.library) && d.run.selected == Walk(s, d.run.ranked).0)
      && (d.run.disposition != Failed ==> Documented(s, c, d.run) && Coded(s, c, d.run) && Attributes(s, d.run))
      && (d.run.ranked != [] ==> Reproducible(s.ranker, d.run))
  }

  /** What a stored decision records and answers, told without the functions that compute it. */
  ghost predicate Told(s: Setting, c: Collection.Collected, d: Decision)
  {
    d.Stored? ==> Facts(s, c, d.run) && Tells(d.run, s.library, d.answer)
  }

  /** The failure names the first required channel that is degraded, in a code of limited length. */
  ghost predicate NamedShortly(s: Setting, c: Collection.Collected)
  {
    exists k :: 0 <= k < |s.required| && IsDegraded(c.degraded, s.required[k])
        && (forall j :: 0 <= j < k ==> !IsDegraded(c.degraded, s.required[j]))
                && |TextOf(s, s.required[k])| <= 99
  }

  /** Exactly when a decision is made. */
  ghost predicate Storable(s: Setting, c: Collection.Collected, semantic: Semantic)
  {
    if RequiredMissing(s, c) then Served(s, c) && Recordable(s, c) && NamedShortly(s, c)
    else if c.candidates == [] then FullyServed(s, c)
    else if !DocumentsFound(s, c) then Served(s, c) && Recordable(s, c)
    else
      var cs := Eligible(s, c.candidates);
      FullyServed(s, c) && (cs != [] ==> StorableRanked(s, cs, semantic))
  }

  /** The ranker accepts the candidates, and the judgments kept name different ones. */
  predicate StorableRanked(s: Setting, cs: seq<Candidate>, semantic: Semantic)
  {
    ValidManifest(s.ranker) && Rankable(s.ranker, cs) && Measured(cs) && JudgmentsFit(cs, Kept(s, cs, semantic))
  }

  /** The retrieval decision from the collected candidates on. A stored decision answers its first
      caller exactly what the stored run answers to everyone after, selects the best qualifying
      versions, and its ranking can be reproduced from what it stores. */
  method Decide(s: Setting, ghost g: Collection.Gathering, c: Collection.Collected, semantic: Semantic)
    returns (d: Decision)
    requires Collection.Gathers(g, c) && StrictlySorted(s.names)
    requires semantic.Consulted? && semantic.admission.Admitted? ==>
             |semantic.judgments| == |semantic.admission.versions|
    ensures Sound(s, c, d) && Told(s, c, d)
    ensures d.Stored? <==> Storable(s, c, semantic)
  {
    hide Collection.Gathers, Reproducible, ValidRun, Canonical, Records, Sound, Served, Recordable, FullyServed,
         StorableRanked, Eligible, Told, Explains;
    var executions, hits := PersistedChannels(c);
    var base := Run(s.runId, s.queryHash, s.contextHash, s.snapshot, executions, hits, [], [], [], Failed, [], [],
                    s.startedAt);
    var missing, name := RequiredDegradation(c.degraded, s.required);
    if missing {
      assert |TextOf(s, name)| <= 99 <==> NamedShortly(s, c);
      MissingExplained(s, c, base.(code := "required_channel_unavailable:" + TextOf(s, name)), name);
      d := StoreUnranked(s, g, c, base.(code := "required_channel_unavailable:" + TextOf(s, name)));
      return;
    }
    NothingMissing(s, c);
    if c.candidates == [] {
      OthersExplained(s, c, base.(disposition := Abstained, code := "no_candidates"));
      d := StoreUnranked(s, g, c, base.(disposition := Abstained, code := "no_candidates"));
      return;
    }
    if !DocumentsFound(s, c) {
      OthersExplained(s, c, base.(code := "candidate_snapshot_missing"));
      d := StoreUnranked(s, g, c, base.(code := "candidate_snapshot_missing"));
      return;
    }
    var gates, candidates := GateAll(s, c.candidates);
    if candidates == [] {
      GatesInLibrary(s, c, gates);
      NoneEligible(s, c);
      OthersExplained(s, c, base.(gates := gates, disposition := Abstained, code := "no_eligible_candidates"));
      d := StoreUnranked(s, g, c, base.(gates := gates, disposition := Abstained, code := "no_eligible_candidates"));
      return;
    }
    d := DecideRanked(s, g, c, semantic, base.(gates := gates), candidates);
  }

  /** Outcomes before ranking: nothing is ranked and nothing is shown. */
  method StoreUnranked(s: Setting, ghost g: Collection.Gathering, c: Collection.Collected, input: Run)
    returns (d: Decision)
    requires Collection.Gathers(g, c) && Assembled(s, c, input) && input.ranked == [] && input.judgments == []
             && input.selected == []
    requires input.disposition != Selected && input.code != [] && (input.disposition == Failed ==> input.gates == [])
    requires input.disposition != Failed ==> Included(input) <= s.library.Keys
    requires input.disposition == Failed <==> RequiredMissing(s, c) || (c.candidates != [] && !DocumentsFound(s, c))
    requires input.disposition != Failed ==>
             Gated(s, c.candidates, input.gates) && (forall v :: !EligibleVersion(s, c, v)) && Coded(s, c, input)
    requires Explains(s, c, input) && CodesApart(input)
    ensures Sound(s, c, d) && Told(s, c, d)
    ensures d.Stored? <==>
            |input.code| <= 128 && if input.disposition == Failed then Served(s, c) && Recordable(s, c)
            else FullyServed(s, c)
  {
    hide Collection.Gathers, Reproducible, ValidRun, Records, Gated, EligibleVersion, Documented, Served, Recordable,
         FullyServed, Explains, Facts, Tells, AnswerOf;
    d := Store(s, g, c, input, []);
    if d.NotMade? {
      ghost var r :| Canonical(input, r) && !ValidRun(r);
      UnrankedExactly(s, g, c, input, r);
    } else {
      UnrankedExactly(s, g, c, input, d.run);
      UnrankedStays(input, d.run);
      UnrankedFacts(s, g, c, input, d.run);
      AnswerTells(d.run, s.library);
      if input.disposition != Failed {
        GatesStored(s, c, input, d.run);
        UnrankedDocumented(s, c, d.run);
      }
    }
  }

  /** Failures and abstentions have different codes. */
  predicate CodesApart(run: Run)
  {
    run.disposition == Failed ==>
      run.code != "no_candidates" && run.code != "no_eligible_candidates" && run.code != "below_confidence_threshold"
  }

  lemma {:induction false} MissingExplained(s: Setting, c: Collection.Collected, run: Run, name: Id)
    requires exists k :: 0 <= k < |s.required| && name == s.required[k] && IsDegraded(c.degraded, name)
                         && forall j :: 0 <= j < k ==> !IsDegraded(c.degraded, s.required[j])
    requires run.code == "required_channel_unavailable:" + TextOf(s, name) && run.disposition == Failed
    ensures Explains(s, c, run) && CodesApart(run)
  {
    var k :| 0 <= k < |s.required| && name == s.required[k] && IsDegraded(c.degraded, name)
             && forall j :: 0 <= j < k ==> !IsDegraded(c.degraded, s.required[j]);
    assert forall j :: 0 <= j < k ==> !IsDegraded(c.degraded, s.required[j]);
    assert FirstMissing(s, c, k);
    assert run.code[0] == 'r';
  }

  lemma {:induction false} NothingMissing(s: Setting, c: Collection.Collected)
    ensures !RequiredMissing(s, c) ==> forall k :: 0 <= k < |s.required| ==> !FirstMissing(s, c, k)
  {
    if !RequiredMissing(s, c) {
      forall k | 0 <= k < |s.required|
        ensures !FirstMissing(s, c, k)
      {
        assert s.required[k] in s.required && !IsDegraded(c.degraded, s.required[k]);
      }
    }
  }

  lemma {:induction false} OthersExplained(s: Setting, c: Collection.Collected, run: Run)
    requires forall k :: 0 <= k < |s.required| ==> !FirstMissing(s, c, k)
    requires run.code == if c.candidates == [] then "no_candidates"
                         else if !DocumentsFound(s, c) then "candidate_snapshot_missing"
                         else if run.ranked == [] then "no_eligible_candidates"
                         else if run.selected == [] then "below_confidence_threshold" else []
    ensures Explains(s, c, run)
    ensures run.disposition == Failed && c.candidates != [] && !DocumentsFound(s, c) ==> CodesApart(run)
    ensures run.disposition != Failed ==> CodesApart(run)
  {
    hide FirstMissing;
    assert "candidate_snapshot_missing"[0] == 'c';
  }

  lemma {:induction false} UnrankedFacts(s: Setting, g: Collection.Gathering, c: Collection.Collected, input: Run,
                                         run: Run)
    requires Collection.Gathers(g, c) && Assembled(s, c, input) && Canonical(input, run)
    requires input.ranked == [] && input.judgments == [] && input.selected == []
    requires run.ranked == [] && run.selected == [] && run.code == input.code && run.disposition == input.disposition
    requires input.disposition == Failed ==> input.gates == []
    requires input.disposition != Failed ==> Gated(s, c.candidates, input.gates)
    requires Explains(s, c, input) && CodesApart(input)
    ensures Facts(s, c, run)
  {
    hide Collection.Gathers, Gated, InOrder, Hears, Marks, FirstMissing;
    var ranks: seq<PersistedRank>, judgments: seq<Judgment> :| CanonicalOf(input, ranks, judgments, run);
    SameSize(input.gates, run.gates);
    SameSize(judgments, run.judgments);
    RunHears(s, c, input, run);
    if input.disposition != Failed {
      RunMarks(s, g, c, input, run);
    }
  }

  lemma {:induction false} GatesStored(s: Setting, c: Collection.Collected, input: Run, run: Run)
    requires Canonical(input, run) && Gated(s, c.candidates, input.gates)
    ensures |run.gates| == |c.candidates| && forall x :: x in c.candidates ==> GateFor(s, x.version) in run.gates
  {
    var ranks, judgments :| CanonicalOf(input, ranks, judgments, run);
    hide ArrangesRanks, ArrangesJudgments, InOrder;
    SameSize(input.gates, run.gates);
    forall x | x in c.candidates
      ensures GateFor(s, x.version) in run.gates
    {
      var i :| 0 <= i < |c.candidates| && c.candidates[i] == x;
      SameMembers(input.gates, run.gates, input.gates[i]);
    }
  }

  lemma {:induction false} UnrankedDocumented(s: Setting, c: Collection.Collected, run: Run)
    requires run.ranked == [] && forall v :: !EligibleVersion(s, c, v)
    requires |run.gates| == |c.candidates| && forall x :: x in c.candidates ==> GateFor(s, x.version) in run.gates
    ensures Documented(s, c, run)
  {
    hide EligibleVersion;
  }

  lemma {:induction false} NoneEligible(s: Setting, c: Collection.Collected)
    requires DocumentsFound(s, c) && Eligible(s, c.candidates) == []
    ensures forall v :: !EligibleVersion(s, c, v)
  {
    forall x | x in c.candidates
      ensures !VerdictOf(s, x.version).eligible
    {
      EligibleMembers(s, c.candidates, CandidateFor(x, s.library[x.version]));
    }
  }

  lemma {:induction false} UnrankedStays(input: Run, run: Run)
    requires Canonical(input, run) && input.ranked == []
    ensures run == input.(executions := run.executions, hits := run.hits, gates := run.gates, ranked := [],
                          judgments := run.judgments)
  {
    var ranks, judgments :| CanonicalOf(input, ranks, judgments, run);
    assert ranks == [];
    SameSize(ranks, run.ranked);
  }

  lemma {:induction false} GatesInLibrary(s: Setting, c: Collection.Collected, gates: seq<Gate>)
    requires DocumentsFound(s, c) && Gated(s, c.candidates, gates)
    ensures forall g :: g in gates ==> g.version in s.library
  {
    forall g | g in gates
      ensures g.version in s.library
    {
      var i :| 0 <= i < |gates| && gates[i] == g;
      assert c.candidates[i] in c.candidates;
    }
  }

  // ----- the ranked outcomes

  lemma {:induction false} AttachKeeps(cs: seq<Candidate>, judgments: seq<Judgment>)
    requires cs != []
    ensures SameButFeatures(cs, Attach(cs, judgments))
  {
    if judgments != [] {
      AttachKeeps(cs, judgments[..|judgments| - 1]);
    }
  }

  method Rerank(s: Setting, semantic: Semantic, candidates: seq<Candidate>, preliminary: seq<Result>)
    returns (results: seq<Result>, judgments: seq<Judgment>, final: seq<Candidate>)
    requires StrictlySorted(s.names) && IsOutcome(s.ranker, candidates, Ranked(preliminary)) && candidates != []
    requires semantic.Consulted? && semantic.admission.Admitted? ==>
             |semantic.judgments| == |semantic.admission.versions|
    ensures IsOutcome(s.ranker, final, Ranked(results)) && SameButFeatures(candidates, final)
    ensures final == candidates || (AllCommitted(judgments) && final == Attach(candidates, judgments))
    ensures judgments == Kept(s, candidates, semantic)
  {
    hide IsOutcome, Attach, Admits, GoodAdmission, ValidOnes;
    if semantic.NotConsulted? {
      return preliminary, [], candidates;
    }
    var cell := new Candidate[|candidates|](i requires 0 <= i < |candidates| => candidates[i]);
    assert cell[..] == candidates;
    results, judgments := ApplySemanticJudgments(s.ranker, s.names, semantic.admission, semantic.judgments, cell,
                                                 preliminary);
    AttachKeeps(candidates, judgments);
    AdmissionAgrees(s.ranker, semantic.admission, candidates, preliminary);
    final := cell[..];
  }

  /** The ranked candidates are collected ones, with the hits they were collected with. */
  ghost predicate Drawn(s: Setting, c: Collection.Collected, cs: seq<Candidate>)
  {
    forall i :: 0 <= i < |cs| ==> exists k :: 0 <= k < |c.candidates| && c.candidates[k].version == cs[i].version
                                              && cs[i].channelRanks == RanksOf(c.candidates[k].hits)
  }

  lemma {:induction false} DrawnFromEligible(s: Setting, c: Collection.Collected, final: seq<Candidate>)
    requires DocumentsFound(s, c) && SameButFeatures(Eligible(s, c.candidates), final)
    ensures Drawn(s, c, final)
  {
    var cs := Eligible(s, c.candidates);
    forall i | 0 <= i < |final|
      ensures exists k :: 0 <= k < |c.candidates| && c.candidates[k].version == final[i].version
                          && final[i].channelRanks == RanksOf(c.candidates[k].hits)
    {
      EligibleMembers(s, c.candidates, cs[i]);
      var x :| x in c.candidates && VerdictOf(s, x.version).eligible && cs[i] == CandidateFor(x, s.library[x.version]);
      var k :| 0 <= k < |c.candidates| && c.candidates[k] == x;
    }
  }

  method DecideRanked(s: Setting, ghost g: Collection.Gathering, c: Collection.Collected, semantic: Semantic, base: Run,
                      candidates: seq<Candidate>)
    returns (d: Decision)
    requires Collection.Gathers(g, c) && StrictlySorted(s.names)
    requires semantic.Consulted? && semantic.admission.Admitted? ==>
             |semantic.judgments| == |semantic.admission.versions|
    requires Assembled(s, c, base) && !RequiredMissing(s, c) && DocumentsFound(s, c)
    requires Gated(s, c.candidates, base.gates) && candidates == Eligible(s, c.candidates) && candidates != []
             && c.candidates != []
    requires base.judgments == []
    ensures Sound(s, c, d) && Told(s, c, d)
    ensures d.Stored? <==> FullyServed(s, c) && StorableRanked(s, candidates, semantic)
  {
    hide Collection.Gathers, Reproducible, ValidRun, Canonical, Assembled, RequiredMissing, Gated, IsOutcome, Eligible,
         Backed, Drawn, AnswerOf, ShownFrom, Walk, Documented, EligibleVersion, Attributes, Attach, SameButFeatures,
         AllCommitted, NoDuplicates, Kept, FullyServed, Measured, JudgmentsFit, Rankable, ValidManifest, RanksEligible,
         ValidJudgment, Facts, Tells, Explains;
    var preliminary := Rank(s.ranker, candidates);
    IsOutcomeRanked(s.ranker, candidates, preliminary);
    if !preliminary.Ranked? {
      return NotMade;
    }
    var results, judgments, final := Rerank(s, semantic, candidates, preliminary.results);
    DrawnFromEligible(s, c, final);
    var ranked := PersistedRanking(s.ranker, results, final);
    RankedShape(s, c, final, results, ranked);
    GatesInLibrary(s, c, base.gates);
    AdviceAgrees(s, c, base.gates, ranked);
    var selected, shown := Select(s, ranked);
    var input := base.(ranked := ranked, judgments := judgments, selected := selected,
                       disposition := if selected == [] then Abstained else Selected,
                       code := if selected == [] then "below_confidence_threshold" else []);
    SelectionInLibrary(s, ranked, input);
    WalkShows(s, ranked, input, |ranked|);
    assert ranked[..|ranked|] == ranked;
    StillAssembled(s, c, base, input);
    d := Store(s, g, c, input, shown);
    KeptValid(s, candidates, semantic);
    Ranks(s, c, candidates, final, results, ranked);
    if d.NotMade? {
      ghost var r :| Canonical(input, r) && !ValidRun(r);
      RankedExactly(s, g, c, final, results, input, r);
    } else {
      RankedExactly(s, g, c, final, results, input, d.run);
      RankedSound(s, g, c, final, results, input, d.run);
      GatesStored(s, c, input, d.run);
      RankedVersions(s, c, candidates, final, results, ranked);
      RankedDocumented(s, c, input, d.run);
      RankedAttributed(s, g, c, candidates, final, results, input, d.run);
      NothingMissing(s, c);
      OthersExplained(s, c, input);
      RankedFacts(s, g, c, final, results, input, d.run);
      AnswerTells(d.run, s.library);
    }
  }

  lemma {:induction false} RankedFacts(s: Setting, g: Collection.Gathering, c: Collection.Collected,
                                       final: seq<Candidate>, results: seq<Result>, input: Run, run: Run)
    requires Collection.Gathers(g, c) && Assembled(s, c, input) && Canonical(input, run)
             && Gated(s, c.candidates, input.gates)
    requires RanksEligible(s, c, final, results, input.ranked) && DistinctRanked(input.ranked)
    requires (forall p :: p in input.ranked ==> p.version in s.library) && input.selected == Walk(s, input.ranked).0
    requires run.disposition != Failed && run.disposition == input.disposition
    requires Explains(s, c, input) && input.ranked != []
    ensures Facts(s, c, run)
  {
    hide Collection.Gathers, Gated, InOrder, Hears, Marks, RanksEligible, Walk, ArrangesRanks, ArrangesJudgments,
         Chooses, FirstMissing, DistinctRanked;
    StoredRanks(input, run);
    var ranks: seq<PersistedRank>, judgments: seq<Judgment> :| CanonicalOf(input, ranks, judgments, run);
    RunHears(s, c, input, run);
    RunMarks(s, g, c, input, run);
    WalkAgain(s, input.ranked, run.ranked);
    DistinctStays(input.ranked, run.ranked);
    RunChooses(s, run);
    forall p | p in run.ranked
      ensures Carries(s, p)
    {
      var k :| 0 <= k < |run.ranked| && run.ranked[k] == p;
      RankArranged(input.ranked, run.ranked, k);
      EntryCarries(s, c, final, results, input.ranked, k);
    }
  }

  lemma {:induction false} RankArranged(before: seq<PersistedRank>, after: seq<PersistedRank>, k: nat)
    requires ArrangesRanks(before, after) && k < |after|
    ensures k < |before| && before[k].version == after[k].version && before[k].strength == after[k].strength
    ensures before[k].observed == after[k].observed
  {
    assert ArrangesRank(before[k], after[k]);
  }

  lemma {:induction false} DistinctStays(before: seq<PersistedRank>, after: seq<PersistedRank>)
    requires ArrangesRanks(before, after) && DistinctRanked(before)
    ensures DistinctRanked(after) && |after| == |before|
  {
    assert forall k :: 0 <= k < |before| ==> ArrangesRank(before[k], after[k]);
    hide ArrangesRanks;
  }

  lemma {:induction false} Ranks(s: Setting, c: Collection.Collected, cs: seq<Candidate>, final: seq<Candidate>,
                                 results: seq<Result>, ranked: seq<PersistedRank>)
    requires DocumentsFound(s, c) && cs == Eligible(s, c.candidates) && SameButFeatures(cs, final)
    requires IsOutcome(s.ranker, final, Ranked(results))
    requires |ranked| == |results| && forall i :: 0 <= i < |results| ==> Backed(final, results[i], ranked[i])
    ensures RanksEligible(s, c, final, results, ranked)
  {
    hide IsOutcome, Eligible, Backed, SameButFeatures;
  }

  lemma {:induction false} StillAssembled(s: Setting, c: Collection.Collected, base: Run, input: Run)
    requires Assembled(s, c, base) && forall i :: 0 <= i < |input.ranked| ==> input.ranked[i].rank == i + 1
    requires input == base.(ranked := input.ranked, judgments := input.judgments, selected := input.selected,
                            disposition := input.disposition, code := input.code)
    ensures Assembled(s, c, input)
    ensures input.id == s.runId && input.queryHash == s.queryHash && input.contextHash == s.contextHash
            && input.snapshot == s.snapshot
  {
    hide Records;
  }

  lemma {:induction false} RankedShape(s: Setting, c: Collection.Collected, cs: seq<Candidate>, results: seq<Result>,
                                       ranked: seq<PersistedRank>)
    requires IsOutcome(s.ranker, cs, Ranked(results)) && Drawn(s, c, cs) && DocumentsFound(s, c)
    requires |ranked| == |results| && forall i :: 0 <= i < |results| ==> Backed(cs, results[i], ranked[i])
    ensures forall i :: 0 <= i < |ranked| ==> ranked[i].rank == i + 1
    ensures DistinctRanked(ranked)
    ensures forall p :: p in ranked ==>
                p.version in s.library && exists x :: x in c.candidates && x.version == p.version
  {
    ResultsNumbered(s.ranker, cs, results);
    hide IsOutcome;
    forall i, j | 0 <= i < j < |ranked|
      ensures ranked[i].version != ranked[j].version
    {
      ResultsDistinct(s.ranker, cs, results, i, j);
      assert Backed(cs, results[i], ranked[i]) && Backed(cs, results[j], ranked[j]);
    }
    forall p | p in ranked
      ensures p.version in s.library && exists x :: x in c.candidates && x.version == p.version
    {
      var i :| 0 <= i < |ranked| && ranked[i] == p;
      assert Backed(cs, results[i], ranked[i]);
      var x :| x in cs && IsPersisted(results[i], x, p);
      var j :| 0 <= j < |cs| && cs[j] == x;
      var k :| 0 <= k < |c.candidates| && c.candidates[k].version == cs[j].version
          && cs[j].channelRanks == RanksOf(c.candidates[k].hits);
      assert c.candidates[k] in c.candidates;
    }
  }

  /** The ranked versions are those of the eligible candidates. */
  lemma {:induction false} RankedVersions(s: Setting, c: Collection.Collected, cs: seq<Candidate>,
                                          final: seq<Candidate>, results: seq<Result>, ranked: seq<PersistedRank>)
    requires DocumentsFound(s, c) && cs == Eligible(s, c.candidates) && SameButFeatures(cs, final)
    requires IsOutcome(s.ranker, final, Ranked(results))
    requires |ranked| == |results| && forall i :: 0 <= i < |results| ==> Backed(final, results[i], ranked[i])
    ensures forall v :: IsRanked(ranked, v) <==> EligibleVersion(s, c, v)
    ensures ranked != [] <==> cs != []
  {
    OutcomeShape(s.ranker, final, results);
    hide IsOutcome, Eligible;
    forall p | p in ranked
      ensures EligibleVersion(s, c, p.version)
    {
      var k :| 0 <= k < |ranked| && ranked[k] == p;
      assert Backed(final, results[k], ranked[k]);
      var y :| y in final && IsPersisted(results[k], y, p);
      var i :| 0 <= i < |final| && final[i] == y;
      EligibleMembers(s, c.candidates, cs[i]);
    }
    forall x | x in c.candidates && VerdictOf(s, x.version).eligible
      ensures IsRanked(ranked, x.version)
    {
      EligibleMembers(s, c.candidates, CandidateFor(x, s.library[x.version]));
      var i :| 0 <= i < |cs| && cs[i] == CandidateFor(x, s.library[x.version]);
      var k := PlaceOf(s.ranker, final, results, i);
      assert Backed(final, results[k], ranked[k]);
      assert ranked[k] in ranked;
    }
  }

  lemma {:induction false} RankedDocumented(s: Setting, c: Collection.Collected, input: Run, run: Run)
    requires Canonical(input, run) && (forall i :: 0 <= i < |input.ranked| ==> input.ranked[i].rank == i + 1)
    requires |run.gates| == |c.candidates| && forall x :: x in c.candidates ==> GateFor(s, x.version) in run.gates
    requires forall v :: IsRanked(input.ranked, v) <==> EligibleVersion(s, c, v)
    ensures Documented(s, c, run) && |run.ranked| == |input.ranked| && run.code == input.code
  {
    hide EligibleVersion;
    var ranks: seq<PersistedRank>, judgments: seq<Judgment> :| CanonicalOf(input, ranks, judgments, run);
    RanksKeepOrder(input.ranked, ranks, run.ranked);
    forall v
      ensures IsRanked(run.ranked, v) <==> IsRanked(input.ranked, v)
    {
      SameRankedVersions(input.ranked, run.ranked, v);
    }
  }

  lemma {:induction false} SameRankedVersions(before: seq<PersistedRank>, after: seq<PersistedRank>, v: Id)
    requires ArrangesRanks(before, after)
    ensures IsRanked(after, v) <==> IsRanked(before, v)
  {
    assert forall i :: 0 <= i < |before| ==> ArrangesRank(before[i], after[i]);
    if p :| p in after && p.version == v {
      var i :| 0 <= i < |after| && after[i] == p;
      assert before[i] in before;
    }
    if p :| p in before && p.version == v {
      var i :| 0 <= i < |before| && before[i] == p;
      assert after[i] in after;
    }
  }

  lemma {:induction false} ResultsNumbered(m: Manifest, cs: seq<Candidate>, results: seq<Result>)
    requires IsOutcome(m, cs, Ranked(results))
    ensures forall i :: 0 <= i < |results| ==> results[i].rank == i + 1
  {
  }

  lemma {:induction false} AdviceAgrees(s: Setting, c: Collection.Collected, gates: seq<Gate>,
                                        ranked: seq<PersistedRank>)
    requires Gated(s, c.candidates, gates)
    requires forall p :: p in ranked ==> exists x :: x in c.candidates && x.version == p.version
    ensures forall p :: p in ranked ==> AdvisoryIn(gates, p.version) == VerdictOf(s, p.version).advisoryOnly
  {
    forall p | p in ranked
      ensures AdvisoryIn(gates, p.version) == VerdictOf(s, p.version).advisoryOnly
    {
      var x :| x in c.candidates && x.version == p.version;
      var i :| 0 <= i < |c.candidates| && c.candidates[i] == x;
      assert gates[i] == GateFor(s, p.version) && gates[i] in gates;
      forall g | g in gates && g.version == p.version
        ensures g == gates[i]
      {
        var j :| 0 <= j < |gates| && gates[j] == g;
        assert gates[j] == GateFor(s, c.candidates[j].version);
      }
    }
  }

  lemma {:induction false} SelectionInLibrary(s: Setting, ranked: seq<PersistedRank>, run: Run)
    requires forall p :: p in ranked ==> p.version in s.library
    requires forall g :: g in run.gates ==> g.version in s.library
    requires run.selected == Walk(s, ranked).0
    ensures Included(run) <= s.library.Keys
  {
    WalkSelectsRanked(s, ranked);
    hide Walk;
    forall v | v in Included(run)
      ensures v in s.library
    {
      if v in run.selected {
        var k :| 0 <= k < |ranked| && ranked[k].version == v;
        assert ranked[k] in ranked;
      } else {
        var g :| g in run.gates && g.version == v && g.advisoryOnly;
      }
    }
  }

  lemma {:induction false} WalkAgain(s: Setting, before: seq<PersistedRank>, after: seq<PersistedRank>)
    requires ArrangesRanks(before, after) && forall p :: p in before ==> p.version in s.library
    ensures forall p :: p in after ==> p.version in s.library
    ensures Walk(s, after) == Walk(s, before)
  {
    forall p | p in after ensures p.version in s.library {
      var i :| 0 <= i < |after| && after[i] == p;
      assert ArrangesRank(before[i], after[i]) && before[i] in before;
    }
    if before != [] {
      var n := |before| - 1;
      assert ArrangesRank(before[n], after[n]);
      WalkAgain(s, before[..n], after[..n]);
    }
  }

  /** The stored run still selects the best, and its ranking can be reproduced. */
  lemma {:induction false} RankedSound(s: Setting, g: Collection.Gathering, c: Collection.Collected, cs: seq<Candidate>,
                                       results: seq<Result>, input: Run, run: Run)
    requires Collection.Gathers(g, c) && Canonical(input, run) && Assembled(s, c, input)
    requires IsOutcome(s.ranker, cs, Ranked(results)) && Drawn(s, c, cs)
    requires |input.ranked| == |results| && forall i :: 0 <= i < |results| ==> Backed(cs, results[i], input.ranked[i])
    requires (forall p :: p in input.ranked ==> p.version in s.library) && input.selected == Walk(s, input.ranked).0
    ensures run.id == input.id && run.queryHash == input.queryHash && run.contextHash == input.contextHash
            && run.snapshot == input.snapshot
    ensures run.disposition == input.disposition
    ensures (forall p :: p in run.ranked ==> p.version in s.library) && run.selected == Walk(s, run.ranked).0
    ensures Reproducible(s.ranker, run)
  {
    var ranks, judgments :| CanonicalOf(input, ranks, judgments, run);
    RanksKeepOrder(input.ranked, ranks, run.ranked);
    WalkAgain(s, input.ranked, run.ranked);
    hide Walk, IsOutcome, Reproducible;
    RecallsAll(s, g, c, cs, results, input, run);
    RunReproduces(s.ranker, cs, results, run);
  }

  lemma {:induction false} RecallsAll(s: Setting, g: Collection.Gathering, c: Collection.Collected, cs: seq<Candidate>,
                                      results: seq<Result>, input: Run, run: Run)
    requires Collection.Gathers(g, c) && IsOutcome(s.ranker, cs, Ranked(results)) && Drawn(s, c, cs)
    requires input.hits == AllHits(c.candidates) && multiset(run.hits) == multiset(input.hits)
    requires |input.ranked| == |results| && forall i :: 0 <= i < |results| ==> Backed(cs, results[i], input.ranked[i])
    requires ArrangesRanks(input.ranked, run.ranked)
    ensures Recalls(cs, results, run)
  {
    OutcomeShape(s.ranker, cs, results);
    hide IsOutcome;
    forall k | 0 <= k < |results|
      ensures Matches(results[k], run.ranked[k])
    {
      assert Backed(cs, results[k], input.ranked[k]) && ArrangesRank(input.ranked[k], run.ranked[k]);
      SameElements(input.ranked[k].missing, run.ranked[k].missing);
    }
    forall k, i | 0 <= k < |results| && 0 <= i < |cs| && cs[i].version == results[k].version
      ensures multiset(run.ranked[k].features) == multiset(cs[i].features)
      ensures multiset(HitRanks(run.hits, cs[i].version)) == multiset(cs[i].channelRanks)
    {
      assert Backed(cs, results[k], input.ranked[k]) && ArrangesRank(input.ranked[k], run.ranked[k]);
      BackedBy(cs, results[k], input.ranked[k], i);
      HitsRecalled(s, g, c, cs, i, input.hits, run.hits);
    }
  }

  lemma {:induction false} SameElements<T>(s: seq<T>, t: seq<T>)
    requires multiset(s) == multiset(t)
    ensures Elements(s) == Elements(t)
  {
    forall x ensures x in s <==> x in t {
      SameMembers(s, t, x);
    }
  }

  lemma {:induction false} BackedBy(cs: seq<Candidate>, r: Result, p: PersistedRank, i: nat)
    requires Backed(cs, r, p) && DistinctVersions(cs) && i < |cs| && cs[i].version == r.version
    ensures p.features == cs[i].features
  {
    var x :| x in cs && IsPersisted(r, x, p);
    var j :| 0 <= j < |cs| && cs[j] == x;
    assert j == i;
  }

  lemma {:induction false} HitsRecalled(s: Setting, g: Collection.Gathering, c: Collection.Collected,
                                        cs: seq<Candidate>, i: nat, before: seq<PersistedHit>, after: seq<PersistedHit>)
    requires Collection.Gathers(g, c) && Drawn(s, c, cs) && i < |cs|
    requires before == AllHits(c.candidates) && multiset(after) == multiset(before)
    ensures multiset(HitRanks(after, cs[i].version)) == multiset(cs[i].channelRanks)
  {
    var k :| 0 <= k < |c.candidates| && c.candidates[k].version == cs[i].version
        && cs[i].channelRanks == RanksOf(c.candidates[k].hits);
    HitRanksOfAll(c.candidates, k);
    HitRanksIgnoreOrder(before, after, cs[i].version);
    assert HitRanks(before, cs[i].version) == cs[i].channelRanks;
  }

  // ----- the judge's features in a stored run

  lemma {:induction false} RankedIsCandidate(m: Manifest, run: Run, cs: seq<Candidate>, results: seq<Result>,
                                             version: Id)
    requires IsOutcome(m, cs, Ranked(results)) && Recalls(cs, results, run)
    requires exists p :: p in run.ranked && p.version == version
    ensures exists x :: x in cs && x.version == version
  {
    hide IsOutcome;
    var p :| p in run.ranked && p.version == version;
    var k :| 0 <= k < |run.ranked| && run.ranked[k] == p;
    assert Matches(results[k], run.ranked[k]);
    ResultHasCandidate(m, cs, results, k);
  }

  /** The stored judgments name different candidates, so none of their features strayed. */
  lemma {:induction false} StoredJudgmentsName(m: Manifest, input: Run, run: Run, cs: seq<Candidate>,
                                               results: seq<Result>)
    requires Canonical(input, run) && ValidRun(run)
    requires IsOutcome(m, cs, Ranked(results)) && Recalls(cs, results, run)
    ensures NamesCandidates(cs, input.judgments)
    ensures forall a, b :: 0 <= a < b < |input.judgments| ==> input.judgments[a].version != input.judgments[b].version
  {
    hide IsOutcome, Recalls, ValidOutcome, ValidExecutions, ValidHitList, ValidGates, ValidRanks, ValidSelection,
         ArrangesRanks, InOrder;
    var ranks: seq<PersistedRank>, judgments: seq<Judgment> :| CanonicalOf(input, ranks, judgments, run);
    JudgedOnce(input.judgments, judgments, run.judgments);
    hide SortedBy;
    forall a | 0 <= a < |input.judgments|
      ensures IsCandidate(cs, input.judgments[a].version)
    {
      assert ArrangesJudgment(input.judgments[a], judgments[a]);
      SameMembers(run.judgments, judgments, judgments[a]);
      RankedIsCandidate(m, run, cs, results, input.judgments[a].version);
    }
  }

  /** Stored and submitted judgments correspond, up to the order of their features. */
  ghost predicate SameJudgment(a: Judgment, b: Judgment)
  {
    a.version == b.version && a.contentHash == b.contentHash && multiset(a.features) == multiset(b.features)
  }

  ghost predicate HasSame(all: seq<Judgment>, j: Judgment)
  {
    exists b :: 0 <= b < |all| && SameJudgment(j, all[b])
  }

  ghost predicate Mirrors(some: seq<Judgment>, all: seq<Judgment>)
  {
    forall j :: j in some ==> HasSame(all, j)
  }

  lemma {:induction false} JudgmentsStored(input: Run, run: Run)
    requires Canonical(input, run)
    ensures Mirrors(run.judgments, input.judgments) && Mirrors(input.judgments, run.judgments)
  {
    hide ArrangesRanks, InOrder, Mirrors, ArrangesJudgments;
    var ranks: seq<PersistedRank>, judgments: seq<Judgment> :| CanonicalOf(input, ranks, judgments, run);
    StoredMirror(input.judgments, judgments, run.judgments);
    SubmittedMirror(input.judgments, judgments, run.judgments);
  }

  lemma {:induction false} StoredMirror(before: seq<Judgment>, arranged: seq<Judgment>, stored: seq<Judgment>)
    requires ArrangesJudgments(before, arranged) && multiset(stored) == multiset(arranged)
    ensures Mirrors(stored, before)
  {
    hide InOrder;
    forall j | j in stored
      ensures HasSame(before, j)
    {
      SameMembers(stored, arranged, j);
      var a :| 0 <= a < |arranged| && arranged[a] == j;
      assert ArrangesJudgment(before[a], arranged[a]);
      assert SameJudgment(j, before[a]);
    }
  }

  lemma {:induction false} SubmittedMirror(before: seq<Judgment>, arranged: seq<Judgment>, stored: seq<Judgment>)
    requires ArrangesJudgments(before, arranged) && multiset(stored) == multiset(arranged)
    ensures Mirrors(before, stored)
  {
    hide InOrder;
    forall j | j in before
      ensures HasSame(stored, j)
    {
      var a :| 0 <= a < |before| && before[a] == j;
      assert ArrangesJudgment(before[a], arranged[a]);
      SameMembers(stored, arranged, arranged[a]);
      var b :| 0 <= b < |stored| && stored[b] == arranged[a];
      assert SameJudgment(j, stored[b]);
    }
  }

  lemma {:induction false} RankedAttributed(s: Setting, g: Collection.Gathering, c: Collection.Collected,
                                            cs: seq<Candidate>, final: seq<Candidate>, results: seq<Result>, input: Run,
                                            run: Run)
    requires Collection.Gathers(g, c) && Canonical(input, run) && ValidRun(run) && Assembled(s, c, input)
    requires DocumentsFound(s, c) && cs == Eligible(s, c.candidates) && cs != [] && SameButFeatures(cs, final)
    requires final == cs || (AllCommitted(input.judgments) && final == Attach(cs, input.judgments))
    requires IsOutcome(s.ranker, final, Ranked(results)) && Drawn(s, c, final)
    requires |input.ranked| == |results|
             && forall i :: 0 <= i < |results| ==> Backed(final, results[i], input.ranked[i])
    requires forall p :: p in run.ranked ==> p.version in s.library
    ensures Attributes(s, run)
  {
    hide Collection.Gathers, ValidRun, Eligible, IsOutcome, Attach, Backed, Drawn, Recalls, Documented;
    StoredRanks(input, run);
    OutcomeShape(s.ranker, final, results);
    if final == cs {
      forall k | 0 <= k < |run.ranked|
        ensures multiset(run.ranked[k].features) == multiset(s.library[run.ranked[k].version].features)
      {
        var i := EntryOf(s, c, cs, final, results, input, run, k);
      }
    } else {
      RecallsStored(s, g, c, final, results, input, run);
      StoredJudgmentsName(s.ranker, input, run, final, results);
      JudgmentsStored(input, run);
      hide Canonical, Assembled, Mirrors, AllCommitted, Attributed;
      CommittedStored(input.judgments, run.judgments);
      SameNamed(cs, final, input.judgments);
      NamedLand(cs, input.judgments);
      forall k | 0 <= k < |run.ranked|
        ensures Attributed(s, run.judgments, run.ranked[k])
      {
        var i := EntryOf(s, c, cs, final, results, input, run, k);
        EntryAttributed(s, cs, input.judgments, run.judgments, run.ranked[k], i);
      }
    }
  }

  lemma {:induction false} RecallsStored(s: Setting, g: Collection.Gathering, c: Collection.Collected,
                                         cs: seq<Candidate>, results: seq<Result>, input: Run, run: Run)
    requires Collection.Gathers(g, c) && Canonical(input, run) && Assembled(s, c, input)
             && ArrangesRanks(input.ranked, run.ranked)
    requires IsOutcome(s.ranker, cs, Ranked(results)) && Drawn(s, c, cs)
    requires |input.ranked| == |results| && forall i :: 0 <= i < |results| ==> Backed(cs, results[i], input.ranked[i])
    ensures Recalls(cs, results, run)
  {
    hide ArrangesRanks, ArrangesJudgments, IsOutcome, Drawn, Backed, InOrder, Collection.Gathers, Recalls;
    var ranks: seq<PersistedRank>, judgments: seq<Judgment> :| CanonicalOf(input, ranks, judgments, run);
    RecallsAll(s, g, c, cs, results, input, run);
  }

  /** The ranked entry at k is that of some eligible candidate: its features are the candidate's. */
  lemma {:induction false} EntryOf(s: Setting, c: Collection.Collected, cs: seq<Candidate>, final: seq<Candidate>,
                                   results: seq<Result>, input: Run, run: Run, k: nat)
    returns (i: nat)
    requires DocumentsFound(s, c) && cs == Eligible(s, c.candidates) && SameButFeatures(cs, final)
    requires |input.ranked| == |results|
             && forall i :: 0 <= i < |results| ==> Backed(final, results[i], input.ranked[i])
    requires ArrangesRanks(input.ranked, run.ranked) && k < |run.ranked|
    ensures i < |cs| && cs[i].version == run.ranked[k].version && cs[i].version in s.library
    ensures multiset(run.ranked[k].features) == multiset(final[i].features)
            && cs[i].features == s.library[cs[i].version].features
  {
    hide Eligible;
    assert ArrangesRank(input.ranked[k], run.ranked[k]) && Backed(final, results[k], input.ranked[k]);
    var x :| x in final && IsPersisted(results[k], x, input.ranked[k]);
    i :| 0 <= i < |final| && final[i] == x;
    EligibleMembers(s, c.candidates, cs[i]);
    var y :| y in c.candidates && VerdictOf(s, y.version).eligible && cs[i] == CandidateFor(y, s.library[y.version]);
  }

  lemma {:induction false} SameNamed(cs: seq<Candidate>, final: seq<Candidate>, judgments: seq<Judgment>)
    requires SameButFeatures(cs, final) && NamesCandidates(final, judgments) && DistinctVersions(final)
    ensures NamesCandidates(cs, judgments) && DistinctVersions(cs)
  {
    forall k | 0 <= k < |judgments| && Committed(judgments[k])
      ensures IsCandidate(cs, judgments[k].version)
    {
      var x :| x in final && x.version == judgments[k].version;
      var i :| 0 <= i < |final| && final[i] == x;
      assert cs[i] in cs;
    }
  }

  /** What landed on a candidate, given that the stored judgments mirror the submitted ones. */
  lemma {:induction false} EntryAttributed(s: Setting, cs: seq<Candidate>, submitted: seq<Judgment>,
                                           stored: seq<Judgment>, p: PersistedRank, i: nat)
    requires cs != [] && i < |cs| && LandsWhereNamed(cs, submitted) && AllCommitted(submitted)
    requires cs[i].version == p.version && p.version in s.library && cs[i].features == s.library[p.version].features
    requires multiset(p.features) == multiset(Attach(cs, submitted)[i].features)
    requires Mirrors(stored, submitted) && Mirrors(submitted, stored)
    ensures Attributed(s, stored, p)
  {
    hide Attach, LandsWhereNamed, Mirrors, AllCommitted;
    forall j | j in stored && j.version == p.version
      ensures multiset(p.features) == multiset(s.library[p.version].features) + multiset(j.features)
    {
      JudgedEntry(cs, submitted, stored, j, i);
    }
    if forall j :: j in stored ==> j.version != p.version {
      UnjudgedEntry(cs, submitted, stored, i);
    }
  }

  lemma {:induction false} JudgedEntry(cs: seq<Candidate>, submitted: seq<Judgment>, stored: seq<Judgment>, j: Judgment,
                                       i: nat)
    requires cs != [] && i < |cs| && LandsWhereNamed(cs, submitted) && AllCommitted(submitted)
    requires Mirrors(stored, submitted) && j in stored && j.version == cs[i].version
    ensures multiset(Attach(cs, submitted)[i].features) == multiset(cs[i].features) + multiset(j.features)
  {
    hide Attach;
    assert HasSame(submitted, j);
    var a :| 0 <= a < |submitted| && SameJudgment(j, submitted[a]);
    hide Mirrors;
    assert submitted[a] in submitted && Committed(submitted[a]);
    assert Attach(cs, submitted)[i] == WithFeatures(cs[i], submitted[a].features);
  }

  lemma {:induction false} UnjudgedEntry(cs: seq<Candidate>, submitted: seq<Judgment>, stored: seq<Judgment>, i: nat)
    requires cs != [] && i < |cs| && LandsWhereNamed(cs, submitted)
    requires Mirrors(submitted, stored) && forall j :: j in stored ==> j.version != cs[i].version
    ensures Attach(cs, submitted)[i] == cs[i]
  {
    hide Attach;
    forall a | 0 <= a < |submitted| ensures submitted[a].version != cs[i].version {
      assert HasSame(stored, submitted[a]);
      var b :| 0 <= b < |stored| && SameJudgment(submitted[a], stored[b]);
      assert stored[b] in stored;
    }
    hide Mirrors;
  }

  lemma {:induction false} CommittedStored(submitted: seq<Judgment>, stored: seq<Judgment>)
    requires AllCommitted(submitted) && Mirrors(stored, submitted)
    ensures AllCommitted(stored)
  {
    forall j | j in stored ensures j.contentHash != EMPTY {
      assert HasSame(submitted, j);
      var a :| 0 <= a < |submitted| && SameJudgment(j, submitted[a]);
      assert submitted[a] in submitted;
    }
  }
}
