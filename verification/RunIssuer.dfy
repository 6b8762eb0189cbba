/** Issuing a plan for a stored retrieval run: which candidates and goals the issuer gives the
planner, and exactly when a complete plan comes out of it. */
module RunIssuer {
  import opened Identifiers
  import opened Compatibility
  import opened Planning
  import opened Reachability
  import opened CompatibilityGraph
  import opened Execution
  import opened Scheduling
  import opened PlanRequests
  import opened Issuer
  import Runs

  /** A document as the issuer reads it; `described` says whether it has an interface. */
  datatype Document = Document(contract: Candidate, described: bool, strength: nat, observed: bool, risk: nat,
                               tools: nat)

  datatype RunResult = PlanUnavailable | Result(issue: IssueResult)

  // ----- the certified exact hit

  /** The exact channel completed, it hit the version, and the version's first gate lets it pass. */
  ghost predicate Certified(run: Runs.Run, exact: Id, version: Id)
  {
    && (exists e :: e in run.executions && e.channel == exact && e.complete)
    && (exists h :: h in run.hits && h.channel == exact && h.version == version)
    && (exists i :: 0 <= i < |run.gates| && run.gates[i].version == version && run.gates[i].eligible
                    && forall j :: 0 <= j < i ==> run.gates[j].version != version)
  }

  method HasCertifiedExactHit(run: Runs.Run, exact: Id, version: Id) returns (certified: bool)
    ensures certified <==> Certified(run, exact, version)
  {
    if !(exists e :: e in run.executions && e.channel == exact && e.complete) {
      return false;
    }
    if !(exists h :: h in run.hits && h.channel == exact && h.version == version) {
      return false;
    }
    for i := 0 to |run.gates|
      invariant forall j :: 0 <= j < i ==> run.gates[j].version != version
    {
      if run.gates[i].version == version {
        return run.gates[i].eligible;
      }
    }
    return false;
  }

  // ----- the planning request

  function Larger(a: nat, b: nat): (r: nat)
  {
    if a > b then a else b
  }

  /** The candidate at position i of the selection: only the first is a seed, and only a certified replay has a goal. */
  ghost predicate IsCandidateFor(d: Document, i: nat, goals: seq<Id>, c: PlannerCandidate)
  {
    && c == PlannerCandidate(d.contract, i == 0, if i == 0 then goals else [], c.facts, d.strength, d.observed, d.risk,
                             if d.tools == 0 then 1 else d.tools)
    && ReadSet(c.facts) == (set r | r in d.contract.requirements :: r.resource.identity)
    && WriteSet(c.facts) == (set x | x in d.contract.provisions :: x.resource.identity)
  }

  method ByVersion(documents: seq<Document>) returns (byId: map<Id, Document>)
    ensures forall v :: v in byId ==> byId[v] in documents && byId[v].contract.version == v
    ensures forall d :: d in documents ==> d.contract.version in byId
  {
    byId := map[];
    for i := 0 to |documents|
      invariant forall v :: v in byId ==> byId[v] in documents && byId[v].contract.version == v
      invariant forall k :: 0 <= k < i ==> documents[k].contract.version in byId
    {
      byId := byId[documents[i].contract.version := documents[i]];
    }
  }

  ghost predicate Listed(selected: seq<Id>, byId: map<Id, Document>, goals: seq<Id>, candidates: seq<PlannerCandidate>)
  {
    && |candidates| == |selected|
    && (forall i :: 0 <= i < |selected| ==>
            selected[i] in byId && byId[selected[i]].described
            && IsCandidateFor(byId[selected[i]], i, goals, candidates[i]))
  }

  method ListCandidates(selected: seq<Id>, byId: map<Id, Document>, goals: seq<Id>)
    returns (ok: bool, candidates: seq<PlannerCandidate>)
    ensures ok <==> forall v :: v in selected ==> v in byId && byId[v].described
    ensures ok ==> Listed(selected, byId, goals, candidates)
  {
    candidates := [];
    for i := 0 to |selected|
      invariant |candidates| == i
      invariant forall k :: 0 <= k < i ==>
                    selected[k] in byId && byId[selected[k]].described
                    && IsCandidateFor(byId[selected[k]], k, goals, candidates[k])
    {
      hide IsCandidateFor;
      var v := selected[i];
      if v !in byId || !byId[v].described {
        return false, [];
      }
      var d := byId[v];
      var facts := ParallelismFactsOf(d.contract);
      var c := PlannerCandidate(d.contract, i == 0, if i == 0 then goals else [], facts, d.strength, d.observed, d.risk,
                                Larger(1, d.tools));
      CandidateIs(d, i, goals, c);
      candidates := candidates + [c];
    }
    return true, candidates;
  }

  lemma {:induction false} CandidateIs(d: Document, i: nat, goals: seq<Id>, c: PlannerCandidate)
    requires c == PlannerCandidate(d.contract, i == 0, if i == 0 then goals else [], c.facts, d.strength, d.observed,
                                   d.risk, Larger(1, d.tools))
    requires ReadSet(c.facts) == (set r | r in d.contract.requirements :: r.resource.identity)
    requires WriteSet(c.facts) == (set x | x in d.contract.provisions :: x.resource.identity)
    ensures IsCandidateFor(d, i, goals, c)
  {
  }

  // ----- issuing

  /** One version selected, seen to work end to end, and found by the exact channel. */
  ghost predicate Replay(run: Runs.Run, byId: map<Id, Document>, exact: Id)
  {
    |run.selected| == 1 && run.selected[0] in byId && byId[run.selected[0]].observed
      && Certified(run, exact, run.selected[0])
  }

  /** Requirement ids are content hashes across the documents. */
  predicate AuthenticDocuments(documents: seq<Document>)
  {
    forall c, d, r, s ::
      c in documents && d in documents && r in c.contract.requirements && s in d.contract.requirements && r.id == s.id
      ==> r == s
  }

  /** What the issuer answers: a complete plan exactly for a certified replay of a version that
      requires nothing, and then that one version is the plan and its schedule. */
  ghost predicate Answers(run: Runs.Run, byId: map<Id, Document>, exact: Id, result: RunResult)
  {
    && (result.PlanUnavailable? <==>
          run.disposition != Runs.Selected || run.selected == []
            || !(forall v :: v in run.selected ==> v in byId && byId[v].described))
    && (result.Result? && (result.issue.Issued? || result.issue.IssuedPartial?) ==>
          (result.issue.Issued? <==> Replay(run, byId, exact) && byId[run.selected[0]].contract.requirements == []))
    && (result.Result? && result.issue.Issued? ==>
          var primary := run.selected[0];
          result.issue.plan.nodes == [PlanNode(0, primary, false)] && result.issue.groups == [[primary]])
    && (result.Result? ==> !result.issue.Inconsistent?)
  }

  method IssueRun(m: Manifest, rules: seq<Rule>, limits: Limits, run: Runs.Run, documents: seq<Document>, exact: Id,
                  goal: Id, edgeHash: EdgeContent -> Id, planHash: Plan -> Id)
    returns (result: RunResult, ghost byId: map<Id, Document>)
    requires SortedRules(rules) && InjectiveEdges(edgeHash) && Injective(planHash) && AuthenticDocuments(documents)
    ensures forall v :: v in byId ==> byId[v] in documents && byId[v].contract.version == v
    ensures forall d :: d in documents ==> d.contract.version in byId
    ensures Answers(run, byId, exact, result)
  {
    hide SortedRules, InjectiveEdges, Injective, AuthenticDocuments, Certified, Listed, IsCandidateFor,
         AuthenticRequest, ValidProblem, BuiltFrom, Describes, Reachable, Complete, CoversPlan, IdsAuthentic, IsState;
    var table := ByVersion(documents);
    byId := table;
    if run.disposition != Runs.Selected || run.selected == [] {
      return PlanUnavailable, byId;
    }
    var first := run.selected[0];
    if first !in table || !table[first].described {
      assert first in run.selected;
      return PlanUnavailable, byId;
    }
    var replay := false;
    if |run.selected| == 1 && table[first].observed {
      replay := HasCertifiedExactHit(run, exact, first);
    }
    var goals := if replay then [goal] else [];
    var ok, candidates := ListCandidates(run.selected, table, goals);
    if !ok {
      return PlanUnavailable, byId;
    }
    ListedAuthentic(run.selected, documents, table, goals, candidates);
    var issue;
    ghost var p, best;
    issue, p, best := Issue(m, rules, limits, candidates, [goal], [], edgeHash, planHash);
    if issue.Issued? || issue.IssuedPartial? {
      CompleteExactly(m, rules, run.selected, table, goals, goal, candidates, p, best.nodes);
      if issue.Issued? {
        SinglePlan(p, planHash, best, issue.plan, issue.groups, first);
      }
    }
    return Result(issue), byId;
  }

  lemma {:induction false} ListedAuthentic(selected: seq<Id>, documents: seq<Document>, byId: map<Id, Document>,
                                           goals: seq<Id>, candidates: seq<PlannerCandidate>)
    requires AuthenticDocuments(documents) && (forall v :: v in byId ==> byId[v] in documents)
             && Listed(selected, byId, goals, candidates)
    ensures AuthenticRequest(candidates)
  {
    forall c | c in candidates
      ensures exists d :: d in documents && d.contract == c.contract
    {
      var i :| 0 <= i < |candidates| && candidates[i] == c;
      assert byId[selected[i]].contract == c.contract;
    }
  }

  /** The goal is covered only in a replay, and alone a version can meet no requirement. */
  lemma {:induction false} CompleteExactly(m: Manifest, rules: seq<Rule>, selected: seq<Id>, byId: map<Id, Document>,
                                           goals: seq<Id>, goal: Id, candidates: seq<PlannerCandidate>, p: Problem,
                                           chosen: set<Id>)
    requires selected != [] && (forall v :: v in byId ==> byId[v].contract.version == v)
             && Listed(selected, byId, goals, candidates)
    requires goals == [] || (goals == [goal] && |selected| == 1)
    requires ValidProblem(p) && BuiltFrom(p, rules) && Describes(p, m, Request(p.edges, [goal], [], candidates))
    requires Reachable(p, chosen) && chosen <= p.byVersion.Keys
    ensures Complete(p, chosen) <==> goals == [goal] && byId[selected[0]].contract.requirements == []
    ensures Complete(p, chosen) ==> chosen == {selected[0]} && p.byVersion[selected[0]].seed
  {
    GoalOnly(m, selected, byId, goals, goal, candidates, p);
    if goals == [] {
      assert goal in p.goals;
      assert UncoveredGoal(goal) in GapsOf(p, chosen);
    } else {
      SingleProblem(m, rules, selected, byId, goals, goal, candidates, p);
      SingleChosen(p, chosen, selected[0]);
      SingleComplete(p, selected[0], goal);
    }
  }

  lemma {:induction false} GoalOnly(m: Manifest, selected: seq<Id>, byId: map<Id, Document>, goals: seq<Id>, goal: Id,
                                    candidates: seq<PlannerCandidate>, p: Problem)
    requires Listed(selected, byId, goals, candidates) && Describes(p, m, Request(p.edges, [goal], [], candidates))
    ensures Elements(p.goals) == {goal} && goal in p.goals && Elements(p.satisfied) == {}
    ensures goals == [] ==> forall v :: v in p.byVersion ==> p.byVersion[v].goals == []
  {
    assert Elements([goal]) == {goal};
    assert goal in Elements(p.goals);
    forall v | v in p.byVersion && goals == []
      ensures p.byVersion[v].goals == []
    {
      var c := CandidateOf(p, m, Request(p.edges, [goal], [], candidates), v);
      var i :| 0 <= i < |candidates| && candidates[i] == c;
      assert IsCandidateFor(byId[selected[i]], i, goals, candidates[i]);
    }
  }

  /** With one candidate there is one version and no edge. */
  lemma {:induction false} SingleProblem(m: Manifest, rules: seq<Rule>, selected: seq<Id>, byId: map<Id, Document>,
                                         goals: seq<Id>, goal: Id, candidates: seq<PlannerCandidate>, p: Problem)
    requires |selected| == 1 && (forall v :: v in byId ==> byId[v].contract.version == v)
             && Listed(selected, byId, goals, candidates)
    requires ValidProblem(p) && BuiltFrom(p, rules) && Describes(p, m, Request(p.edges, [goal], [], candidates))
             && goals == [goal]
    ensures p.byVersion.Keys == {selected[0]} && p.edges == [] && p.byVersion[selected[0]].seed
    ensures p.byVersion[selected[0]].contract == byId[selected[0]].contract && p.byVersion[selected[0]].goals == [goal]
  {
    hide BuiltFrom, Describes, ValidProblem;
    var v := selected[0];
    var c := candidates[0];
    CandidateAlone(selected, byId, goals, candidates);
    KeptAlone(m, Request(p.edges, [goal], [], candidates), p, c);
    NoEdgeAlone(p, v);
  }

  lemma {:induction false} CandidateAlone(selected: seq<Id>, byId: map<Id, Document>, goals: seq<Id>,
                                          candidates: seq<PlannerCandidate>)
    requires |selected| == 1 && (forall v :: v in byId ==> byId[v].contract.version == v)
             && Listed(selected, byId, goals, candidates)
    ensures candidates == [candidates[0]] && candidates[0].contract == byId[selected[0]].contract
            && candidates[0].contract.version == selected[0]
    ensures candidates[0].seed && candidates[0].goals == goals
  {
    assert IsCandidateFor(byId[selected[0]], 0, goals, candidates[0]);
  }

  lemma {:induction false} NoEdgeAlone(p: Problem, v: Id)
    requires ValidProblem(p) && p.byVersion.Keys == {v}
    ensures p.edges == []
  {
    hide ValidProblem;
    assert p.edges != [] ==> p.edges[0] in p.edges;
    forall e | e in p.edges
      ensures e.source != e.target && e.source in p.byVersion.Keys && e.target in p.byVersion.Keys
    {
      EndsDiffer(p, e);
    }
  }

  lemma {:induction false} KeptAlone(m: Manifest, r: Request, p: Problem, c: PlannerCandidate)
    requires Describes(p, m, r) && r.candidates == [c]
    ensures p.byVersion.Keys == {c.contract.version}
            && p.byVersion[c.contract.version] == c.(facts := p.byVersion[c.contract.version].facts)
  {
    assert c in r.candidates;
    assert VersionSet([c]) == {c.contract.version};
    hide Normalizes;
    assert Keeps(c, p.byVersion[c.contract.version]);
  }

  lemma {:induction false} EndsDiffer(p: Problem, e: Edge)
    requires ValidProblem(p) && e in p.edges
    ensures e.source != e.target && e.source in p.byVersion && e.target in p.byVersion
  {
  }

  lemma {:induction false} SingleChosen(p: Problem, chosen: set<Id>, v: Id)
    requires Reachable(p, chosen) && p.byVersion.Keys == {v} && chosen <= {v}
    ensures chosen == {v}
  {
    assert chosen == {} ==> !IsSeedSet(p, chosen);
  }

  lemma {:induction false} SingleComplete(p: Problem, v: Id, goal: Id)
    requires p.byVersion.Keys == {v} && p.edges == [] && Elements(p.satisfied) == {} && Elements(p.goals) == {goal}
    requires p.byVersion[v].goals == [goal]
    ensures Complete(p, {v}) <==> p.byVersion[v].contract.requirements == []
  {
    assert Selected(p.edges, {v}) == [];
    assert SatisfiedIds(p, {v}) == {};
    assert goal in p.byVersion[v].goals;
    assert forall x :: x in p.goals ==> x in Elements(p.goals);
    var requirements := p.byVersion[v].contract.requirements;
    if requirements != [] {
      assert requirements[0] in requirements;
      assert UnsatisfiedRequirement(v, requirements[0].id) in GapsOf(p, {v});
    }
  }

  lemma {:induction false} SinglePlan(p: Problem, hash: Plan -> Id, best: State, plan: Plan, groups: seq<seq<Id>>,
                                      v: Id)
    requires ValidProblem(p) && IsState(p, hash, best) && best.nodes == {v} && v in p.byVersion && p.byVersion[v].seed
    requires plan == best.plan.(limitCodes := plan.limitCodes) && CoversPlan(groups, plan)
    requires forall g :: 0 <= g < |groups| ==> groups[g] != []
    ensures plan.nodes == [PlanNode(0, v, false)] && groups == [[v]]
  {
    SingleNodes(p, hash, best, v);
    hide ValidProblem, IsState;
    assert plan.nodes == [PlanNode(0, v, false)];
    assert Versions(plan.nodes) == [v];
    SingleFlat(groups, plan, v);
    SingleGroup(groups, v);
  }

  lemma {:induction false} SingleNodes(p: Problem, hash: Plan -> Id, best: State, v: Id)
    requires ValidProblem(p) && IsState(p, hash, best) && best.nodes == {v} && v in p.byVersion && p.byVersion[v].seed
    ensures best.plan.nodes == [PlanNode(0, v, false)]
  {
    OrderHolds(p, best.nodes);
    PlanFields(p, hash, best);
    hide ValidProblem, IsState, Feasible;
    var order := OrderOf(p, best.nodes);
    NoDuplicatesSize(order);
    assert |order| == 1 && order[0] in Elements(order);
  }

  lemma {:induction false} SingleFlat(groups: seq<seq<Id>>, plan: Plan, v: Id)
    requires CoversPlan(groups, plan) && Versions(plan.nodes) == [v]
    ensures Flatten(groups) == [v]
  {
    var flat := Flatten(groups);
    hide Flatten, DependenciesCross;
    NoDuplicatesSize(flat);
    assert Elements([v]) == {v};
    assert |flat| == 1 && flat[0] in Elements(flat);
  }

  lemma {:induction false} SingleGroup(groups: seq<seq<Id>>, v: Id)
    requires Flatten(groups) == [v] && forall g :: 0 <= g < |groups| ==> groups[g] != []
    ensures groups == [[v]]
  {
    assert groups != [];
    assert Flatten(groups) == groups[0] + Flatten(groups[1..]);
    assert |groups| > 1 ==> Flatten(groups[1..]) == groups[1] + Flatten(groups[1..][1..]);
    assert groups[1..] == [];
    assert groups[0] == [v];
  }
}
