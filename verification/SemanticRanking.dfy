/** Ranking again with the judge's features, and the ranking that is stored. */
module SemanticRanking {
  import opened Identifiers
  import opened Sorting
  import opened Ranking
  import opened RankOrder
  import opened CheckedArithmetic

  /** A judge's answer; an empty content hash means no judgment was committed. `wellFormed`
      stands for the checks on its key, disposition, provider, model and rubric texts. */
  datatype Judgment = Judgment(version: Id, wellFormed: bool, disposition: Id, contentHash: Id,
                               features: seq<FeatureValue>)

  datatype Admission = Admitted(versions: seq<Id>) | AdmissionFailed

  const MAXIMUM_ADMITTED: nat := 32

  // ----- one judgment

  function NamesOf(features: seq<FeatureValue>): (r: seq<Id>)
    ensures |r| == |features|
  {
    seq(|features|, i requires 0 <= i < |features| => features[i].name)
  }

  /** Each semantic feature given once, none besides, each within its range. */
  predicate CompleteFeatures(m: Manifest, names: seq<Id>, features: seq<FeatureValue>)
  {
    && DistinctNames(features)
    && Elements(NamesOf(features)) == Elements(names)
    && (forall f :: f in features ==> GoodFeature(m, f))
  }

  predicate ValidJudgment(m: Manifest, names: seq<Id>, j: Judgment)
  {
    && j.version != EMPTY && j.wellFormed
    && (if j.contentHash == EMPTY then j.features == [] else CompleteFeatures(m, names, j.features))
  }

  predicate NameBefore(a: FeatureValue, b: FeatureValue)
  {
    a.name < b.name
  }

  /** validSemanticJudgment sorts a copy and compares it with the fixed names one by one. */
  method ValidSemanticJudgment(m: Manifest, names: seq<Id>, j: Judgment) returns (valid: bool)
    requires StrictlySorted(names)
    ensures valid <==> ValidJudgment(m, names, j)
  {
    if j.version == EMPTY || !j.wellFormed {
      return false;
    }
    if j.contentHash == EMPTY {
      return |j.features| == 0;
    }
    if |j.features| != |names| {
      if CompleteFeatures(m, names, j.features) {
        CompleteIsNames(m, names, j.features, j.features);
      }
      return false;
    }
    var specs := BuildSpecs(m.features);
    var features := Sort(NameBefore, j.features);
    SameSize(features, j.features);
    for i := 0 to |names|
      invariant forall k :: 0 <= k < i ==> features[k].name == names[k] && GoodFeature(m, features[k])
    {
      if features[i].name != names[i] {
        if CompleteFeatures(m, names, j.features) {
          CompleteIsNames(m, names, j.features, features);
        }
        return false;
      }
      if names[i] !in specs || features[i].value < specs[names[i]].minimum
         || features[i].value > specs[names[i]].maximum {
        SameMembers(features, j.features, features[i]);
        return false;
      }
    }
    NamesAreComplete(m, names, j.features, features);
    return true;
  }

  lemma {:induction false} CompleteIsNames(m: Manifest, names: seq<Id>, features: seq<FeatureValue>,
                                           sorted: seq<FeatureValue>)
    requires CompleteFeatures(m, names, features) && StrictlySorted(names) && multiset(sorted) == multiset(features)
    ensures |features| == |names|
    ensures InOrder(NameBefore, sorted) ==> NamesOf(sorted) == names
  {
    var given := NamesOf(features);
    assert NoDuplicates(given);
    NoDuplicatesSize(given);
    NoDuplicatesSize(names);
    if InOrder(NameBefore, sorted) {
      SameDistinctNames(features, sorted);
      SameNames(features, sorted);
      var arranged := NamesOf(sorted);
      assert StrictlySorted(arranged) by {
        forall i, j | 0 <= i < j < |arranged|
          ensures arranged[i] < arranged[j]
        {
          assert !NameBefore(sorted[j], sorted[i]) && sorted[i].name != sorted[j].name;
        }
      }
      SortedUnique(arranged, names);
    }
  }

  lemma {:induction false} SameNames(s: seq<FeatureValue>, t: seq<FeatureValue>)
    requires multiset(s) == multiset(t)
    ensures Elements(NamesOf(s)) == Elements(NamesOf(t))
  {
    forall i | 0 <= i < |s| ensures s[i].name in NamesOf(t) {
      SameMembers(s, t, s[i]);
      var k :| 0 <= k < |t| && t[k] == s[i];
      assert NamesOf(t)[k] == s[i].name;
    }
    forall i | 0 <= i < |t| ensures t[i].name in NamesOf(s) {
      SameMembers(s, t, t[i]);
      var k :| 0 <= k < |s| && s[k] == t[i];
      assert NamesOf(s)[k] == t[i].name;
    }
  }

  lemma {:induction false} NamesAreComplete(m: Manifest, names: seq<Id>, features: seq<FeatureValue>,
                                            sorted: seq<FeatureValue>)
    requires StrictlySorted(names) && multiset(sorted) == multiset(features) && |sorted| == |names|
    requires forall k :: 0 <= k < |names| ==> sorted[k].name == names[k] && GoodFeature(m, sorted[k])
    ensures CompleteFeatures(m, names, features)
  {
    hide GoodFeature;
    assert NamesOf(sorted) == names;
    assert DistinctNames(sorted);
    SameDistinctNames(sorted, features);
    SameNames(sorted, features);
    forall f | f in features ensures GoodFeature(m, f) {
      SameMembers(sorted, features, f);
    }
  }

  // ----- attaching the features

  /** byVersion: the position of a version, and position 0 for a version that is not there. */
  function Slot(cs: seq<Candidate>, version: Id): (i: nat)
    ensures cs != [] ==> i < |cs|
    ensures (exists c :: c in cs && c.version == version) ==> i < |cs| && cs[i].version == version
  {
    if cs == [] then 0
    else if cs[|cs| - 1].version == version then |cs| - 1
    else
      assert (exists c :: c in cs && c.version == version) ==> exists c :: c in cs[..|cs| - 1] && c.version == version;
      Slot(cs[..|cs| - 1], version)
  }

  function WithFeatures(c: Candidate, more: seq<FeatureValue>): (r: Candidate)
  {
    c.(features := c.features + more)
  }

  /** The candidates with the features of every judgment that carries a content hash. */
  function Attach(cs: seq<Candidate>, judgments: seq<Judgment>): (r: seq<Candidate>)
    requires cs != []
    ensures |r| == |cs|
  {
    if judgments == [] then cs
    else
      var before := Attach(cs, judgments[..|judgments| - 1]);
      var j := judgments[|judgments| - 1];
      if j.contentHash == EMPTY then before
      else before[Slot(cs, j.version) := WithFeatures(before[Slot(cs, j.version)], j.features)]
  }

  function ValidOnes(m: Manifest, names: seq<Id>, judgments: seq<Judgment>): (r: seq<Judgment>)
    ensures |r| <= |judgments|
  {
    if judgments == [] then []
    else
      var before := ValidOnes(m, names, judgments[..|judgments| - 1]);
      var j := judgments[|judgments| - 1];
      if ValidJudgment(m, names, j) then before + [j] else before
  }

  predicate AllCommitted(judgments: seq<Judgment>)
  {
    forall j :: j in judgments ==> j.contentHash != EMPTY
  }

  predicate GoodAdmission(admission: Admission, preliminary: seq<Result>)
  {
    && admission.Admitted?
    && 0 < |admission.versions| <= MAXIMUM_ADMITTED
    && (forall v :: v in admission.versions ==> exists r :: r in preliminary && r.version == v)
    && NoDuplicates(admission.versions)
  }

  /** The condition for the new ranking to replace the preliminary one. */
  ghost predicate Reranks(m: Manifest, names: seq<Id>, admission: Admission, judgments: seq<Judgment>,
                          cs: seq<Candidate>, preliminary: seq<Result>)
  {
    && GoodAdmission(admission, preliminary)
    && |ValidOnes(m, names, judgments)| == |admission.versions|
    && AllCommitted(ValidOnes(m, names, judgments))
    && cs != []
    && Rankable(m, Attach(cs, ValidOnes(m, names, judgments)))
  }

  /** applySemanticJudgments: whichever path is taken, the ranking returned is the ranking of the
      candidates left in the array. `judgments` holds the judge's answers by position. */
  method ApplySemanticJudgments(m: Manifest, names: seq<Id>, admission: Admission, judgments: seq<Judgment>,
                                candidates: array<Candidate>, preliminary: seq<Result>)
    returns (results: seq<Result>, persisted: seq<Judgment>)
    requires StrictlySorted(names) && IsOutcome(m, candidates[..], Ranked(preliminary))
    requires admission.Admitted? ==> |judgments| == |admission.versions|
    modifies candidates
    ensures IsOutcome(m, candidates[..], Ranked(results))
    ensures persisted == if GoodAdmission(admission, preliminary) then ValidOnes(m, names, judgments) else []
    ensures if Reranks(m, names, admission, judgments, old(candidates[..]), preliminary)
            then candidates[..] == Attach(old(candidates[..]), persisted)
            else candidates[..] == old(candidates[..]) && results == preliminary
  {
    hide IsOutcome, Attach, ValidOnes, Rankable, GoodAdmission, StrictlySorted, ValidManifest, Ranks;
    var good := CheckAdmission(admission, preliminary);
    if !good {
      return preliminary, [];
    }
    AdmissionNeedsCandidates(m, admission, candidates[..], preliminary);
    ghost var before := candidates[..];
    IsOutcomeRanked(m, before, Ranked(preliminary));
    var copies: seq<Candidate>;
    persisted, copies := AttachAll(m, names, judgments, candidates[..]);
    if |persisted| == 0 {
      return preliminary, [];
    }
    if |persisted| != |admission.versions| {
      return preliminary, persisted;
    }
    var committed := CheckCommitted(persisted);
    if !committed {
      return preliminary, persisted;
    }
    var reranked := Rank(m, copies);
    IsOutcomeRanked(m, copies, reranked);
    if !reranked.Ranked? {
      return preliminary, persisted;
    }
    for i := 0 to candidates.Length
      invariant forall k :: 0 <= k < i ==> candidates[k] == copies[k]
    {
      candidates[i] := copies[i];
    }
    assert candidates[..] == copies;
    return reranked.results, persisted;
  }

  method CheckCommitted(judgments: seq<Judgment>) returns (committed: bool)
    ensures committed <==> AllCommitted(judgments)
  {
    for i := 0 to |judgments|
      invariant forall k :: 0 <= k < i ==> judgments[k].contentHash != EMPTY
    {
      if judgments[i].contentHash == EMPTY {
        return false;
      }
    }
    return true;
  }

  lemma {:induction false} AdmissionNeedsCandidates(m: Manifest, admission: Admission, cs: seq<Candidate>,
                                                    preliminary: seq<Result>)
    requires GoodAdmission(admission, preliminary) && IsOutcome(m, cs, Ranked(preliminary))
    ensures cs != [] && admission.Admitted? && |admission.versions| > 0
  {
    assert admission.versions[0] in admission.versions;
    var r :| r in preliminary && r.version == admission.versions[0];
    assert |preliminary| > 0;
  }

  lemma {:induction false} IsOutcomeRanked(m: Manifest, cs: seq<Candidate>, o: RankOutcome)
    requires IsOutcome(m, cs, o)
    ensures o.Ranked? <==> ValidManifest(m) && Rankable(m, cs)
  {
  }

  method CheckAdmission(admission: Admission, preliminary: seq<Result>) returns (good: bool)
    ensures good <==> GoodAdmission(admission, preliminary)
  {
    if !admission.Admitted? || |admission.versions| > MAXIMUM_ADMITTED || |admission.versions| == 0 {
      return false;
    }
    var eligible := set r | r in preliminary :: r.version;
    var seen: set<Id> := {};
    var versions := admission.versions;
    for i := 0 to |versions|
      invariant forall v :: v in versions[..i] ==> v in eligible
      invariant NoDuplicates(versions[..i]) && seen == Elements(versions[..i])
    {
      assert versions[i] in versions && versions[..i + 1] == versions[..i] + [versions[i]];
      if versions[i] !in eligible {
        return false;
      }
      if versions[i] in seen {
        var k :| 0 <= k < i && versions[k] == versions[i];
        return false;
      }
      seen := seen + {versions[i]};
    }
    assert versions[..|versions|] == versions;
    return true;
  }

  /** The loop that keeps the valid judgments and attaches their features to the copies. */
  method AttachAll(m: Manifest, names: seq<Id>, judgments: seq<Judgment>, cs: seq<Candidate>)
    returns (persisted: seq<Judgment>, copies: seq<Candidate>)
    requires StrictlySorted(names) && cs != []
    ensures persisted == ValidOnes(m, names, judgments) && copies == Attach(cs, persisted)
  {
    copies := cs;
    var byVersion := IndexVersions(cs);
    persisted := [];
    for i := 0 to |judgments|
      invariant persisted == ValidOnes(m, names, judgments[..i]) && copies == Attach(cs, persisted)
    {
      hide ValidJudgment;
      var j := judgments[i];
      assert judgments[..i + 1][..i] == judgments[..i];
      var valid := ValidSemanticJudgment(m, names, j);
      if valid {
        ghost var kept := persisted;
        persisted := persisted + [j];
        assert persisted[..|persisted| - 1] == kept;
        if j.contentHash != EMPTY {
          var slot := if j.version in byVersion then byVersion[j.version] else 0;
          assert slot == Slot(cs, j.version);
          copies := copies[slot := WithFeatures(copies[slot], j.features)];
        }
      }
    }
    assert judgments[..|judgments|] == judgments;
  }

  method IndexVersions(cs: seq<Candidate>) returns (byVersion: map<Id, nat>)
    ensures forall v :: Slot(cs, v) == if v in byVersion then byVersion[v] else 0
  {
    byVersion := map[];
    for i := 0 to |cs|
      invariant forall v :: Slot(cs[..i], v) == if v in byVersion then byVersion[v] else 0
    {
      assert cs[..i + 1][..i] == cs[..i];
      byVersion := byVersion[cs[i].version := i];
    }
    assert cs[..|cs|] == cs;
  }

  // ----- where the features land

  predicate Committed(j: Judgment)
  {
    j.contentHash != EMPTY
  }

  /** What the committed judgments add to position i, one after the other. */
  function Landed(cs: seq<Candidate>, judgments: seq<Judgment>, i: nat): (features: seq<FeatureValue>)
  {
    if judgments == [] then []
    else
      var j := judgments[|judgments| - 1];
      Landed(cs, judgments[..|judgments| - 1], i) + if Committed(j) && Slot(cs, j.version) == i then j.features else []
  }

  lemma {:induction false} AttachLands(cs: seq<Candidate>, judgments: seq<Judgment>, i: nat)
    requires cs != [] && i < |cs|
    ensures Attach(cs, judgments)[i] == WithFeatures(cs[i], Landed(cs, judgments, i))
  {
    if judgments != [] {
      AttachLands(cs, judgments[..|judgments| - 1], i);
    }
  }

  lemma {:induction false} SlotOf(cs: seq<Candidate>, version: Id)
    ensures (forall c :: c in cs ==> c.version != version) ==> Slot(cs, version) == 0
  {
    if cs != [] && cs[|cs| - 1].version != version {
      SlotOf(cs[..|cs| - 1], version);
    }
  }

  lemma {:induction false} SlotIs(cs: seq<Candidate>, i: nat)
    requires DistinctVersions(cs) && i < |cs|
    ensures Slot(cs, cs[i].version) == i
  {
    assert cs[i] in cs;
  }

  /** Judgments that land in one place all leave their features there. */
  lemma {:induction false} BothLand(cs: seq<Candidate>, judgments: seq<Judgment>, i: nat, a: nat, b: nat)
    requires a <= b < |judgments| && Committed(judgments[a]) && Committed(judgments[b])
    requires Slot(cs, judgments[a].version) == i && Slot(cs, judgments[b].version) == i
    ensures |Landed(cs, judgments, i)| >= if a < b then |judgments[a].features| + |judgments[b].features|
            else |judgments[a].features|
  {
    var n := |judgments| - 1;
    var rest := judgments[..n];
    if b < n {
      BothLand(cs, rest, i, a, b);
    } else if a < b {
      BothLand(cs, rest, i, a, a);
    }
  }

  /** The features of every committed judgment go to the candidate it names, and nothing else happens. */
  ghost predicate LandsWhereNamed(cs: seq<Candidate>, judgments: seq<Judgment>)
    requires cs != []
  {
    forall i :: 0 <= i < |cs| ==>
      && (forall k :: 0 <= k < |judgments| && Committed(judgments[k]) && judgments[k].version == cs[i].version ==>
            Attach(cs, judgments)[i] == cs[i].(features := cs[i].features + judgments[k].features))
      && ((forall k :: 0 <= k < |judgments| && Committed(judgments[k]) ==> judgments[k].version != cs[i].version) ==>
            Attach(cs, judgments)[i] == cs[i])
  }

  /** Committed judgments name candidates, each a different one. */
  predicate NamesCandidates(cs: seq<Candidate>, judgments: seq<Judgment>)
  {
    && (forall k :: 0 <= k < |judgments| && Committed(judgments[k]) ==> IsCandidate(cs, judgments[k].version))
    && (forall a, b :: 0 <= a < b < |judgments| && Committed(judgments[a]) && Committed(judgments[b]) ==>
          judgments[a].version != judgments[b].version)
  }

  /** A committed judgment carries features, as every valid one does. */
  predicate CarryFeatures(judgments: seq<Judgment>)
  {
    forall k :: 0 <= k < |judgments| && Committed(judgments[k]) ==> judgments[k].features != []
  }

  /** Features land where they are named exactly when the committed judgments name different candidates. */
  lemma {:induction false} FeaturesLand(cs: seq<Candidate>, judgments: seq<Judgment>)
    requires cs != [] && DistinctVersions(cs) && CarryFeatures(judgments)
    ensures LandsWhereNamed(cs, judgments) <==> NamesCandidates(cs, judgments)
  {
    hide LandsWhereNamed, NamesCandidates;
    if NamesCandidates(cs, judgments) {
      NamedLand(cs, judgments);
    }
    if LandsWhereNamed(cs, judgments) {
      LandedNamed(cs, judgments);
    }
  }

  lemma {:induction false} NamedLand(cs: seq<Candidate>, judgments: seq<Judgment>)
    requires cs != [] && DistinctVersions(cs) && NamesCandidates(cs, judgments)
    ensures LandsWhereNamed(cs, judgments)
  {
    forall i | 0 <= i < |cs|
      ensures forall k :: 0 <= k < |judgments| && Committed(judgments[k]) && judgments[k].version == cs[i].version ==>
                Landed(cs, judgments, i) == judgments[k].features
      ensures (forall k :: 0 <= k < |judgments| && Committed(judgments[k]) ==>
                   judgments[k].version != cs[i].version) ==>
                Landed(cs, judgments, i) == []
      ensures Attach(cs, judgments)[i] == WithFeatures(cs[i], Landed(cs, judgments, i))
    {
      LandedIs(cs, judgments, i);
      AttachLands(cs, judgments, i);
    }
    hide Landed, Attach;
  }

  lemma {:induction false} LandedIs(cs: seq<Candidate>, judgments: seq<Judgment>, i: nat)
    requires cs != [] && DistinctVersions(cs) && NamesCandidates(cs, judgments) && i < |cs|
    ensures forall k :: 0 <= k < |judgments| && Committed(judgments[k]) && judgments[k].version == cs[i].version ==>
              Landed(cs, judgments, i) == judgments[k].features
    ensures (forall k :: 0 <= k < |judgments| && Committed(judgments[k]) ==> judgments[k].version != cs[i].version) ==>
              Landed(cs, judgments, i) == []
  {
    if judgments != [] {
      var n := |judgments| - 1;
      var rest, last := judgments[..n], judgments[n];
      assert forall k :: 0 <= k < n ==> rest[k] == judgments[k];
      LandedIs(cs, rest, i);
      if Committed(last) {
        assert IsCandidate(cs, last.version);
        if last.version == cs[i].version {
          SlotIs(cs, i);
          assert Landed(cs, rest, i) == [];
        } else {
          assert Slot(cs, last.version) != i;
        }
      }
      hide Slot;
    }
  }

  lemma {:induction false} LandedNamed(cs: seq<Candidate>, judgments: seq<Judgment>)
    requires cs != [] && DistinctVersions(cs) && CarryFeatures(judgments) && LandsWhereNamed(cs, judgments)
    ensures NamesCandidates(cs, judgments)
  {
    hide Attach, Landed, Slot, LandsWhereNamed;
    forall k | 0 <= k < |judgments| && Committed(judgments[k])
      ensures IsCandidate(cs, judgments[k].version)
    {
      if !IsCandidate(cs, judgments[k].version) {
        SlotOf(cs, judgments[k].version);
        NotNamedHere(cs, judgments, 0, k);
      }
    }
    forall a, b | 0 <= a < b < |judgments| && Committed(judgments[a]) && Committed(judgments[b])
      ensures judgments[a].version != judgments[b].version
    {
      if judgments[a].version == judgments[b].version {
        var c :| c in cs && c.version == judgments[a].version;
        var i :| 0 <= i < |cs| && cs[i] == c;
        SlotIs(cs, i);
        TwoHere(cs, judgments, i, a, b);
      }
    }
  }

  lemma {:induction false} SameAdded(c: Candidate, x: seq<FeatureValue>, y: seq<FeatureValue>)
    requires WithFeatures(c, x) == WithFeatures(c, y)
    ensures |x| == |y|
  {
    assert |c.features + x| == |c.features| + |x| && |c.features + y| == |c.features| + |y|;
  }

  /** Whatever lands at i is named there. */
  lemma {:induction false} NotNamedHere(cs: seq<Candidate>, judgments: seq<Judgment>, i: nat, k: nat)
    requires cs != [] && DistinctVersions(cs) && CarryFeatures(judgments) && LandsWhereNamed(cs, judgments) && i < |cs|
    requires k < |judgments| && Committed(judgments[k]) && Slot(cs, judgments[k].version) == i
    ensures judgments[k].version == cs[i].version
  {
    hide Attach, Landed, Slot;
    AttachLands(cs, judgments, i);
    BothLand(cs, judgments, i, k, k);
    var landed := Landed(cs, judgments, i);
    assert WithFeatures(cs[i], landed) == cs[i] ==> landed == [] by {
      assert |cs[i].features + landed| == |cs[i].features| + |landed|;
    }
    if m :| 0 <= m < |judgments| && Committed(judgments[m]) && judgments[m].version == cs[i].version {
      SlotIs(cs, i);
      SameAdded(cs[i], landed, judgments[m].features);
      if m < k {
        BothLand(cs, judgments, i, m, k);
      } else if k < m {
        BothLand(cs, judgments, i, k, m);
      }
    }
  }

  lemma {:induction false} TwoHere(cs: seq<Candidate>, judgments: seq<Judgment>, i: nat, a: nat, b: nat)
    requires cs != [] && DistinctVersions(cs) && CarryFeatures(judgments) && LandsWhereNamed(cs, judgments) && i < |cs|
    requires a < b < |judgments| && Committed(judgments[a]) && Committed(judgments[b])
    requires Slot(cs, cs[i].version) == i && judgments[a].version == cs[i].version
    ensures judgments[b].version != cs[i].version
  {
    hide Attach, Landed, Slot;
    AttachLands(cs, judgments, i);
    SameAdded(cs[i], Landed(cs, judgments, i), judgments[a].features);
    if judgments[b].version == cs[i].version {
      BothLand(cs, judgments, i, a, b);
    }
  }

  /** A committed judgment that names no candidate adds its features to the first one. */
  lemma {:induction false} StrayLandsFirst(cs: seq<Candidate>, judgments: seq<Judgment>, k: nat)
    requires cs != [] && k < |judgments| && Committed(judgments[k]) && !IsCandidate(cs, judgments[k].version)
    ensures Attach(cs, judgments)[0] == WithFeatures(cs[0], Landed(cs, judgments, 0))
    ensures |Landed(cs, judgments, 0)| >= |judgments[k].features|
    ensures Attach(cs, [judgments[k]]) == cs[0 := WithFeatures(cs[0], judgments[k].features)]
  {
    SlotOf(cs, judgments[k].version);
    AttachLands(cs, judgments, 0);
    BothLand(cs, judgments, 0, k, k);
    assert [judgments[k]][..0] == [];
    assert Attach(cs, []) == cs;
  }

  // ----- the stored ranking

  datatype PersistedRank = PersistedRank(
    version: Id, rrfScore: Int64, finalScore: Int64, rank: nat, strength: Int32, observed: bool,
    features: seq<FeatureValue>, missing: seq<Id>)

  ghost predicate IsPersisted(r: Result, c: Candidate, p: PersistedRank)
  {
    && p == PersistedRank(r.version, r.rrfScore, r.finalScore, r.rank, r.strength, r.observed, p.features, p.missing)
    && c.version == r.version && p.features == c.features
    && StrictlySorted(p.missing) && Elements(p.missing) == r.missing
  }

  ghost predicate Backed(cs: seq<Candidate>, r: Result, p: PersistedRank)
  {
    exists c :: c in cs && IsPersisted(r, c, p)
  }

  method PersistedRanking(m: Manifest, results: seq<Result>, cs: seq<Candidate>) returns (persisted: seq<PersistedRank>)
    requires IsOutcome(m, cs, Ranked(results))
    ensures |persisted| == |results|
    ensures forall i :: 0 <= i < |results| ==> Backed(cs, results[i], persisted[i])
  {
    hide ValidManifest, ValidCandidate;
    var byVersion := IndexVersions(cs);
    persisted := [];
    for i := 0 to |results|
      invariant |persisted| == i
      invariant forall k :: 0 <= k < i ==> Backed(cs, results[k], persisted[k])
    {
      var r := results[i];
      ResultHasCandidate(m, cs, results, i);
      assert Slot(cs, r.version) < |cs|;
      var c := cs[if r.version in byVersion then byVersion[r.version] else 0];
      assert c in cs && c.version == r.version;
      var missing := SortedSet(r.missing);
      var p := PersistedRank(r.version, r.rrfScore, r.finalScore, r.rank, r.strength, r.observed, c.features, missing);
      assert IsPersisted(r, c, p);
      persisted := persisted + [p];
    }
  }

  lemma {:induction false} ResultHasCandidate(m: Manifest, cs: seq<Candidate>, results: seq<Result>, i: nat)
    requires IsOutcome(m, cs, Ranked(results)) && i < |results|
    ensures exists c :: c in cs && c.version == results[i].version
    ensures ValidManifest(m) && exists c :: c in cs && ValidCandidate(m, c) && Score(m, c) == results[i].(rank := 0)
  {
    assert Unranked(results)[i] in Unranked(results);
    hide ValidManifest, ValidCandidate;
    var c :| c in cs && Unranked(results)[i] == Score(m, c);
  }
}
