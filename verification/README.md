# memJev decision core: a verified model

memJev learns procedures from agent traces, ranks and composes them, and decides when a learned
version may be used. Its decisions are made by deterministic integer and graph code kept apart from
databases and transport. This project models that code in Dafny and proves what it promises.

The model has five parts, one module per file.

- **Composition** (`Identifiers`, `Sorting`, `Budgets`, `Digraph`, `Kahn`, `Compatibility`,
  `CompatibilityJoin`, `CompatibilityGraph`, `Planning`, `SearchStates`, `Reachability`,
  `SearchLimits`, `PlanMeaning`, `PlannerSearch`, `PlanRequests`, `Planner`, `SelfProvisionCase`,
  `ParallelSchedule`, `ConflictLaws`, `Execution`, `ScheduleMeaning`, `PlaceOrder`, `Scheduling`, `InversionCase`, `Issuer`, `InversionRun`,
  `RunIssuer`): the indexed compatibility join, the budgeted
  beam search over sets of procedures, the topological order, the first-fit parallel schedule, and
  the issuer that runs them in turn for a stored run. `PlanMeaning` and `ConflictLaws` say what plans,
  their order of preference and conflicts mean in terms of the request alone. `Execution` gives procedures a meaning as
  transformers of a store that touch only what they declare; `ScheduleMeaning` and `PlaceOrder` say
  what the schedule preserves of it.
- **Lifecycle** (`Wilson`, `Lifecycle`): the exact integer Wilson bound and the state machine it drives.
- **Ranking and retrieval** (`CheckedArithmetic`, `Ranking`, `ScoreLaws`, `RankerManifest`, `RankOrder`,
  `SemanticRanking`, `Collection`, `Runs`, `Retrieval`, `Audits`, `Selections`, `RunValidity`, `Storability`,
  `StorableRanking`, `StoredFacts`, `Decisions`, `RunProtocol`): fixed-point scoring, the stored run in canonical
  form, exactly when a decision can be stored, the answer rebuilt from it, and many callers at once.
- **Causal slice** (`CausalGraph`, `Synthesis`, `SliceLaws`, `Interface`, `SliceInterface`):
  last-writer edges, backward closure from goals, and the exported interface.
- **Judgment ledger** (`Ledger`, `LedgerProtocol`, `Quantize`): the compare-and-swap chain of
  judgments under any interleaving of workers, and the exact reading of probabilities.

Conventions. An identifier is a number giving the place of its string in byte order; 0 is the empty
string. A content hash is an injective function given as a parameter, or, in the ledger, the content
itself. Cancellation is a nondeterministic exit. A Go map that is iterated is a set whose elements
are taken in any order. Code that updates state in place is a class or a method with loops, proved
against a function or predicate of the values; the laws are lemmas about those.

Where the code does less than one would like, the code is kept and the exact condition is proved:

- A complete plan can meet a node's requirement through that node's own provision
  (`CompletePlanRequirements`, `SelfProvisionExample`), and the planner returns such a plan
  (`RunSelfProvided`).
- The search is exhaustive when no limit is reported. `Reachable` says what it can build where the
  work, expansion and beam limits allow it; `Ample` is a condition on the manifest and the numbers of
  candidates, edges and seeds under which they always do (`BuildPlan`).
- The schedule need not run like the plan order. It does exactly when the places computed from the
  order, the dependencies and the declared facts keep every interfering pair in order
  (`LikePlanExactly`), which they do when a chain of dependencies joins each such pair
  (`JoinedRunsLikePlan`). It fails for a plan that the scheduler accepts (`InversionHappens`) and that
  the planner, unless it is cancelled, returns (`RunInverted`).
- A judgment for an unknown version lands on the first candidate (`StrayLandsFirst`). Features land
  where they are named exactly when committed judgments name different candidates (`FeaturesLand`);
  the check on stored runs ensures it (`StoredJudgmentsName`, and `Decide` says so of every decision).
- The check on stored runs accepts hits whose channels interleave, so a valid run is its own
  canonical form exactly when its hits are in order (`ValidIsCanonical`, `InterleavedExample`).
- The issuer plans for one goal that only a certified replay covers, so a complete plan is issued
  exactly for the replay of a version that requires nothing (`IssueRun`).
- A failed branch that names a proven event breaks the closure of the slice
  (`ClosedExactly`, `DroppedExample`).
- The graph accepts declared dependencies that point backward; the ordinal check refuses a slice
  exactly when it keeps both ends of one (`OrdinalCheckExactly`, `BackwardExample`).
- The policy does not order the two unsafe ceilings, so a version can alternate between Candidate and
  Trial for ever on unchanged evidence, exactly when it meets the trial thresholds with more unsafe
  outcomes than the active ceiling allows (`NeverSettlesExactly`, `BounceExample`).
- A decision that quarantines on more than 31 triggers is made but fails the check on publication
  (`PublishedExactly`, `UnpublishedExample`).
- NewManifest sorts names before it trims them, so it makes manifests that ranking refuses; it does
  so exactly when the trimmed names do not ascend (`RemadeExactly`, `RefusedExample`).
- Values above 2147.483647 units are cut to 32 bits (`CutOffExactly`, `CutOffExample`), and order
  is kept among the others (`OrderPreserved`). No caller is affected: the maxima passed are 1 and, for
  a question with at most ten criteria, at most 9, so every call falls under the third clause of
  `CutOffExactly`.

## Model

| member | source | states |
|---|---|---|
| Budgets.WorkBudget.Consume | internal/composition/planner.go:105-111 | work is charged exactly when it fits, so the work used never exceeds the maximum in any run |
| Digraph.KahnCompleteIffAcyclic | internal/composition/planner.go:497-531 | the order taken by least free node visits every node exactly when the graph has no cycle |
| Digraph.KahnIsLeast | internal/composition/planner.go:497-531 | that order is lexicographically no greater than any other topological order |
| Digraph.LeastTopologicalUnique | internal/composition/planner.go:497-531 | the least topological order is unique, so map iteration order cannot matter |
| Kahn.TopologicalOrder | internal/composition/planner.go:497-531 | a cycle error exactly when the induced graph has a cycle; otherwise the least topological order |
| Kahn.HasCycle | internal/synthesis/builder.go:189-218 | true exactly when the graph has a closed walk |
| Digraph.AcyclicIsSparse | internal/composition/parallel.go:15 | an acyclic graph on n nodes has at most n(n-1)/2 edges |
| Compatibility.ExplicitlyCompatible | internal/composition/compatibility.go:270-288 | the binary search finds a schema rule exactly when one is listed |
| Compatibility.PredicateGuaranteesCover | internal/composition/compatibility.go:290-301 | the merge answers exactly whether every required predicate is guaranteed |
| CompatibilityJoin.IndexProvisions | internal/composition/compatibility.go:203-226 | the index lists under each resource exactly its providers, or some resource has too many |
| CompatibilityJoin.IndexCompatibilityMatches | internal/composition/compatibility.go:203-259 | when no limit is hit, exactly the pairs, provision sets and requirement sets of the nested loop: a pair is matched exactly when a provision of one version suits a requirement of the other in kind, namespace, identity, schema and every predicate; a limit is reported only when the nested loop's own sizes exceed one |
| Compatibility.CollectMeans | internal/composition/compatibility.go:203-259 | the nested loop collects, for each pair of different versions, exactly the provisions that suit a requirement and the requirements suited, with or without a schema rule |
| CompatibilityJoin.JoinIgnoresOrder | internal/composition/compatibility.go:203-259 | reordering the candidates changes neither the matches nor whether a limit is exceeded |
| CompatibilityGraph.BuildEdges | internal/composition/compatibility.go:60-100 | one edge per matched pair with its sorted provisions and requirements, in order of content hash |
| CompatibilityGraph.EdgesMean | internal/composition/compatibility.go:60-100 | every edge of the graph lists, in order, exactly the provisions of its source that guarantee all a requirement of its target asks, and those requirements; every pair with one has an edge |
| CompatibilityGraph.ProviderRunsEarlier | internal/composition/planner.go:371-471 | in a plan, whoever provides another node's requirement stands before it |
| CompatibilityGraph.CompletePlanRequirements | internal/composition/planner.go:371-435 | every requirement of a complete plan's node is satisfied from outside, or provided by a strictly earlier node, or one the node itself provides and another node carries; the first two hold exactly when it is satisfied from outside or another node provides it |
| SelfProvisionCase.SelfProvisionExample | internal/composition/planner.go:383-390 | a valid problem built from its candidates, with a reachable and complete set one of whose members has no provider but itself |
| SelfProvisionCase.RunSelfProvided | internal/composition/planner.go:113-255 | on that request the planner, unless it is cancelled, returns both versions as a complete plan without a limit code |
| Planning.BetterTransitive | internal/composition/planner.go:581-607 | the comparison of states is transitive |
| Planning.BetterDecides | internal/composition/planner.go:581-607 | of two states with different hashes one is better, never both |
| PlanMeaning.AtLeastMeans | internal/composition/planner.go:581-607 | the preferred of two states is complete if the other is, then covers no fewer goals, has no less evidence, is observed throughout if the other is, meets no fewer requirements, and has no more risk, tool cost and nodes, each where all before are equal; the smaller hash decides between plans equal in all of these |
| PlanMeaning.PlanMeans | internal/composition/planner.go:371-471 | what a plan says of its versions, from the request alone: its dependencies, covered goals, met requirements, products and gaps in order; complete exactly without a gap; risk and tool cost summed over the set; the evidence is the least member's less one penalty for each bridge and one for each edge with an unobserved end, and never below zero |
| PlanMeaning.FeasibleMeans | internal/composition/planner.go:371-449 | a set can be planned exactly when no route along edges inside it returns to its start and its bridges and tool cost are within the limits |
| PlanMeaning.ReachableExactly | internal/composition/planner.go:113-255 | the search comes to exactly the plannable sets that are one seed, or a set it came to that still lacks something and one neighbour more |
| SearchStates.SelectedEdges | internal/composition/planner.go:473-495 | exactly the edges inside the chosen set, charged once per graph edge |
| SearchStates.AdjacentVersions | internal/composition/planner.go:533-555 | exactly the versions joined by an edge to the chosen set, sorted |
| SearchStates.BuildSearchState | internal/composition/planner.go:371-471 | a state is built only as the one state of its set of versions; a refusal means a cycle or a limit that the set really breaks |
| SearchStates.CheckedPlannerMul | internal/composition/planner.go:655-663 | succeeds exactly when the product fits in 64 bits |
| SearchStates.Credit | internal/composition/planner.go:440-449 | the evidence less the penalties, floored at zero, refused exactly when the penalty overflows |
| Reachability.StateUnique | internal/composition/planner.go:371-471 | the state is determined by its set of versions |
| Reachability.HashDetermines | internal/composition/planner.go:165-229 | equal plan hashes mean equal states, so the seen set drops only repeats |
| Reachability.StatesOrdered | internal/composition/planner.go:609-611 | the states the search builds are totally ordered, so sorting them has one result |
| Reachability.ReachableShape | internal/composition/planner.go:113-255 | every set the search can build holds a seed, is weakly connected through its edges and is within the procedure limit |
| PlannerSearch.PlantSeeds | internal/composition/planner.go:136-164 | without budget trouble every feasible seed is planted, and no seed is reported only when none is feasible |
| PlannerSearch.ExpandState | internal/composition/planner.go:165-229 | without budget trouble every feasible one-version extension of the state is built |
| PlannerSearch.ExpandFrontier | internal/composition/planner.go:165-229 | the same for a whole frontier |
| PlannerSearch.Truncate | internal/composition/planner.go:160-164 | the beam keeps states that no dropped one outdoes in completeness, goals, evidence, observation, requirements met, risk, tool cost and size, taken in this order; it drops none unless it reports truncation |
| PlannerSearch.PlanProcedures | internal/composition/planner.go:113-255 | no state built outdoes the plan in completeness, goals, evidence, observation, requirements met, risk, tool cost and size, taken in this order; with no limit code the search built everything reachable within the depth; where the beam, the expansions and the work left suffice for all sets of candidates within the depth, no limit code but that of the depth is reported |
| SearchLimits.SubsetsCounted | internal/composition/planner.go:225-229 | a set of n versions has at most n-choose-k subsets of size k |
| PlannerSearch.LevelSize | internal/composition/planner.go:225-229 | so a level of the search has no more states than there are sets of its size |
| PlannerSearch.Deepen | internal/composition/planner.go:165-229 | one round keeps what is known of the search, and the work and expansions spent stay within those computed from the numbers of candidates and edges and the depth |
| PlannerSearch.BestIsOptimal | internal/composition/planner.go:113-255 | then no reachable set within the depth has a plan that outdoes it in that order, stated over the fields of the two plans |
| PlannerSearch.PlanWithinLimits | internal/composition/planner.go:113-255 | the plan has a seed, is weakly connected, respects the procedure, bridge and tool-cost limits, and lists its nodes in the least topological order |
| PlanRequests.NormalizedIds | internal/composition/planner.go:613-628 | accepts exactly the lists without empty or repeated entries, and sorts them |
| PlanRequests.NormalizedFacts | internal/composition/contract.go:107-126 | accepts exactly facts whose four lists are clean, and sorts each without changing its entries or the two flags |
| PlanRequests.ValidatePlanInputs | internal/composition/planner.go:267-369 | accepts only well-formed requests, turned into the problem they describe, and rejects only others; well formed includes the limits on goals and parallel entries, for each candidate and in total; the work charged is stated exactly |
| PlanRequests.DescribesUnique | internal/composition/planner.go:267-369 | a request describes one problem only |
| Planner.BuildPlan | internal/composition/planner.go:113-255 | validation and search on one budget: with limits that are ample for the request, neither runs out, no limit but the depth is reported, and no set reachable within the depth is complete unless the plan is, covers more goals where that is equal, has more evidence where these are, and so on through observation, requirements met, risk, tool cost and size; every field of the plan is stated from the request |
| ParallelSchedule.IntersectsBounded | internal/composition/parallel.go:244-266 | the merge answers exactly whether two sorted lists share an entry, within the sum of their lengths |
| ParallelSchedule.ParallelConflict | internal/composition/parallel.go:222-242 | exactly the read, write, exclusive, mutex and boundary conflict, for at most one unit of work and three for each entry of the two |
| ParallelSchedule.GroupAccepts | internal/composition/parallel.go:209-220 | a group accepts exactly the versions that conflict with no member |
| ParallelSchedule.DeriveGroups | internal/composition/parallel.go:64-95 | each node goes to the first group after its predecessors' that accepts it; the work is at most one conflict test for each pair of nodes |
| ConflictLaws.ConflictExactly | internal/composition/parallel.go:222-242 | two procedures are kept apart exactly when one must run alone, both hold a mutex key, or both touch something that one of them does more than read |
| ConflictLaws.ReadersTogether | internal/composition/parallel.go:222-242 | procedures that only read never keep each other apart |
| ConflictLaws.SolitaryAlone | internal/composition/parallel.go:209-242 | in every schedule a boundary or policy-serial procedure has a group to itself |
| ConflictLaws.HoldersApart | internal/composition/parallel.go:209-242 | in every schedule holders of one mutex key, and procedures one of which changes what the other touches, are in different groups |
| ConflictLaws.FreeRunsFirst | internal/composition/parallel.go:64-95 | a procedure without prerequisites that conflicts with no earlier one runs in the first group |
| Execution.InterferenceIsConflict | internal/composition/parallel.go:222-242 | two procedures that could disturb each other's store are in conflict |
| Execution.InterferenceExactly | internal/composition/parallel.go:222-242 | two procedures could disturb each other exactly when both change one thing, or one changes what the other looks at and the other changes anything; exclusive access is both |
| Execution.DeclaredOnly | internal/composition/contract.go:70-77 | what it means for a procedure to keep within its declared reads, writes and exclusive accesses |
| Execution.Commute | internal/composition/parallel.go:209-266 | procedures that do not interfere commute on every store |
| Execution.SameStore | internal/composition/parallel.go:209-266 | two orders that keep every interfering pair in place give the same store |
| Execution.GroupsCommute | internal/composition/parallel.go:64-95 | any order of the members inside each group gives the same final store |
| ScheduleMeaning.ScheduleIsTopological | internal/composition/parallel.go:64-95 | the concatenated groups are a topological order of the plan's dependencies |
| ScheduleMeaning.ScheduleRunsLikePlan | internal/composition/parallel.go:79-90 | without an inverted conflicting pair the schedule gives the store of the plan order |
| ScheduleMeaning.InversionShows | internal/composition/parallel.go:79-90 | with one, some procedures within their declarations give another store |
| PlaceOrder.PlacesDecide | internal/composition/parallel.go:64-95 | every schedule of a plan puts each node at the place computed from the order, the dependencies and the declared facts alone |
| PlaceOrder.LikePlanExactly | internal/composition/parallel.go:64-95 | whatever the procedures do within their declarations, the schedule gives the store of the plan order exactly when those places keep every interfering pair in order |
| PlaceOrder.JoinedNotInverted | internal/composition/parallel.go:72-79 | a pair joined by a chain of dependencies is never inverted |
| PlaceOrder.JoinedRunsLikePlan | internal/composition/parallel.go:64-95 | if every interfering pair is joined by a chain of dependencies, the schedule gives the store of the plan order |
| InversionCase.InversionHappens | internal/composition/parallel.go:79-90 | a valid problem built from its candidates, with a reachable set whose plan the scheduler accepts, and whose schedule gives, for some procedures within their declarations, another store than the plan order |
| InversionRun.RunInverted | internal/composition/parallel.go:43-113 | on that request the planner, unless it is cancelled, returns this plan, the scheduler, unless it is cancelled, schedules it, and any schedule it returns gives another store for some procedures |
| Scheduling.EdgeLimitNeverHit | internal/composition/parallel.go:15 | no plan the search builds has more than 496 edges |
| Scheduling.DeriveParallelSchedule | internal/composition/parallel.go:43-207 | invalid only when the candidates break a limit or are not clean, or the plan does not match the graph or breaks a limit; otherwise a first-fit schedule of the plan under the normalized facts of the candidates; it runs out of work only when a cost computed from the sizes of the request exceeds what is left |
| Scheduling.PlannerPlanValid | internal/composition/planner.go:665-733 | every plan the planner builds passes plan validation |
| Scheduling.PlannerPlanSchedulable | internal/composition/parallel.go:115-207 | every complete plan from the search passes the checks of the scheduler on the plan, its graph and its facts |
| Issuer.ScheduleCoversPlan | internal/selection/model.go:133-159 | for any groups and any plan, true exactly when the nodes differ, the groups hold each of them once and nothing else, and every dependency crosses to a later group |
| Issuer.ScheduleCovers | internal/selection/model.go:133-159 | every derived schedule passes that check |
| Issuer.ParallelismFactsOf | internal/planning/issuer.go:184-194 | requirements become reads and provisions writes |
| Issuer.Issue | internal/planning/issuer.go:58-153 | a plan is issued as complete exactly when it leaves no gap; it comes from the graph of its candidates, and its schedule covers it, is free of conflicts and topological; the scheduler's repeated checks and the final re-check never fail |
| RunIssuer.HasCertifiedExactHit | internal/planning/issuer.go:155-182 | true exactly when the exact channel completed, hit the version, and the first gate of the version is open |
| RunIssuer.ListCandidates | internal/planning/issuer.go:75-107 | one candidate per selected version, the first the only seed and the only one with goals, reading what it requires and writing what it provides; refused exactly when a document or its interface is missing |
| RunIssuer.IssueRun | internal/planning/issuer.go:58-153 | when planning succeeds the plan is complete exactly for a certified replay of one version that requires nothing, and is then that version alone; plans are unavailable exactly without a selection or a described document for each version |
| Wilson.WilsonLowerBoundPPM | internal/lifecycle/evaluate.go:165-179 | the greatest value in parts per million that passes the exact test |
| Wilson.QuadraticAsDistance | internal/lifecycle/evaluate.go:192-196 | the integer quadratic is the squared distance from the observed rate less the spread |
| Wilson.DownwardClosed | internal/lifecycle/evaluate.go:181-197 | whatever passes, everything below passes |
| Wilson.PassesUpToBound | internal/lifecycle/evaluate.go:165-197 | the passing values are exactly those up to the bound |
| Wilson.BoundBelowRate | internal/lifecycle/evaluate.go:165-197 | the bound never exceeds the observed success rate |
| Wilson.BoundRisesWithSuccesses | internal/lifecycle/evaluate.go:165-197 | the bound does not fall as successes rise at fixed samples |
| Wilson.BoundFallsWithConfidence | internal/lifecycle/evaluate.go:165-197 | the bound does not rise with z squared |
| Wilson.PassesUpToRealBound | internal/lifecycle/evaluate.go:163-197 | a value passes exactly when, as a fraction, it is at most the smaller real root of the Wilson quadratic |
| Wilson.BoundIsFloorOfRealBound | internal/lifecycle/evaluate.go:163-179 | the bound is the real Wilson bound rounded down to parts per million |
| Lifecycle.Evaluate | internal/lifecycle/evaluate.go:71-161 | a decision exactly for valid requests whose sample count does not wrap; for each state the exact condition on the request under which it comes next, for each reason the exact condition under which it is given; the bound, and distinct reasons |
| Lifecycle.ReasonsExactly | internal/lifecycle/evaluate.go:93-161 | each reason code is given exactly under its own condition on the prior state, the thresholds, the freshness, the duration and the triggers |
| Lifecycle.ActiveImpliesTrial | internal/lifecycle/manifest.go:72-83 | active thresholds imply the trial ones exactly as far as the unsafe ceilings agree |
| Lifecycle.SecondLook | internal/lifecycle/evaluate.go:127-150 | evaluating again on the same evidence settles, except between Candidate and Trial, where the exact condition for falling back or being promoted again is given |
| Lifecycle.NeverSettlesExactly | internal/lifecycle/evaluate.go:127-150 | evaluated over and over on the same evidence, the state never settles exactly when no trigger is met, the trial thresholds are, and the unsafe outcomes exceed the active ceiling; then it alternates for ever |
| Lifecycle.BounceExample | internal/lifecycle/manifest.go:72-83 | a valid policy and evidence for which it does |
| Lifecycle.PublishedExactly | internal/lifecycle/evaluate.go:233-242 | a decision passes the check on publication exactly when there are at most 31 triggers or the state was terminal; one that does not is a quarantine |
| Lifecycle.UnpublishedExample | internal/lifecycle/evaluate.go:233-242 | a valid request for an active version whose quarantine cannot be published |
| Lifecycle.BetterEvidenceNeverLowers | internal/lifecycle/evaluate.go:71-197 | turning failures into successes never lowers the state reached |
| Lifecycle.TerminalAbsorbs | internal/lifecycle/evaluate.go:96-98 | in every run Retired and Quarantined are absorbing |
| Lifecycle.OneActiveInterval | internal/lifecycle/evaluate.go:108-126 | in every run a version is active over one contiguous stretch at most, qualifying at each accepted evaluation inside it |
| Lifecycle.ActiveWasEarned | internal/lifecycle/evaluate.go:130-150 | an active version was promoted to Trial and later activated, with every threshold met at both steps |
| Lifecycle.TriggerIsFinal | internal/lifecycle/evaluate.go:96-106 | a trigger met before retirement quarantines for the rest of the run |
| CheckedArithmetic.CheckedAdd | internal/ranking/fusion.go:154-159 | over wrapping 64-bit arithmetic, succeeds exactly when the true sum fits, and then is it |
| CheckedArithmetic.CheckedMul | internal/ranking/fusion.go:161-173 | the same for the product, by dividing the wrapped product back |
| Ranking.ScoreBoundFits | internal/ranking/manifest.go:86-102 | true exactly when the bound over intercept, channels and features fits in 64 bits |
| RankerManifest.NewManifest | internal/ranking/manifest.go:47-84 | makes the one manifest of the sorted and trimmed names, or refuses when there is none |
| RankerManifest.RemadeExactly | internal/ranking/fusion.go:42-46 | a manifest that was made is made again unchanged, and is accepted for ranking, exactly when its trimmed names ascend |
| RankerManifest.CleanNamesAccepted | internal/ranking/manifest.go:47-84 | from names that are already trimmed, whatever is made is accepted for ranking |
| RankerManifest.RefusedExample | internal/ranking/manifest.go:55-64 | a specification from which a manifest is made that ranking refuses |
| Ranking.FusionBounded | internal/ranking/fusion.go:90-112 | each channel is used once at most, so the fused score is within the bound of the channels |
| Ranking.PartialScoreFits | internal/ranking/fusion.go:124-146 | with any number of features added, the running score is in range |
| Ranking.ScoreCandidate | internal/ranking/fusion.go:89-152 | for a manifest within its bound no overflow branch is taken: the exact score for a valid candidate, a refusal for any other; the next five rows say what the score is |
| ScoreLaws.ScoredExactly | internal/ranking/fusion.go:89-146 | a candidate is scored exactly when its ranks are on different configured channels and within the maximum, and its features are different configured ones with values in range |
| ScoreLaws.ValueMoves | internal/ranking/fusion.go:124-146 | replacing one provided value moves the final score by the difference times the coefficient and leaves the fused score and the missing names alone |
| ScoreLaws.DroppedIsMissing | internal/ranking/fusion.go:132-146 | dropping a provided feature scores as providing the manifest's missing value, and adds its name to the missing ones |
| ScoreLaws.BareScore | internal/ranking/fusion.go:113-146 | without ranks and features the score is the intercept plus the missing values times their coefficients |
| ScoreLaws.RankAdds | internal/ranking/fusion.go:90-123 | a rank on an unused channel adds the weight times a million over the constant plus the rank to the fused score, and that times the coefficient to the final one |
| ScoreLaws.ChannelBoundReached | internal/ranking/manifest.go:86-102 | the channels' share of the bound is reached by a candidate that is first on every channel |
| ScoreLaws.TermReached | internal/ranking/manifest.go:96-100 | a feature's share is reached in magnitude at one end of its range |
| RankOrder.Rank | internal/ranking/fusion.go:42-87 | one result for each candidate with its exact score, strength, observation and missing names; in order of final score, strength, observation and version, stated over the fields; numbered from one; or a refusal |
| RankOrder.FusionIgnoresOrder | internal/ranking/fusion.go:92-112 | the fused score does not depend on the order of the channel ranks |
| RankOrder.RankIgnoresOrder | internal/ranking/fusion.go:42-87 | the answer is the same for every order of candidates, channel ranks and features |
| SemanticRanking.ValidSemanticJudgment | internal/retrieval/service.go:773-800 | accepts exactly the judgments that give each semantic feature once and within range, or none without a content hash |
| SemanticRanking.ApplySemanticJudgments | internal/retrieval/service.go:692-771 | on every path the ranking returned is the ranking of the candidates left in place; it is replaced exactly when every admitted version was judged and the new ranking is valid |
| SemanticRanking.FeaturesLand | internal/retrieval/service.go:734-752 | each judgment's features are appended to those of the candidate it names and go nowhere else, exactly when the committed judgments name different candidates |
| SemanticRanking.StrayLandsFirst | internal/retrieval/service.go:749-752 | in any list of candidates, a committed judgment for an unknown version adds its features to the first one |
| SemanticRanking.PersistedRanking | internal/retrieval/service.go:802-821 | each result is stored with the features of its candidate and its missing names sorted |
| Collection.Drain | internal/retrieval/candidates.go:75-99 | each channel ends with its first response, whatever the order of arrival, or with a failure that carries the deadline's code, the timeout as latency and the channel's own manifest and flag |
| Collection.ValidateHits | internal/retrieval/candidates.go:156-176 | accepts exactly the lists within the limit, without repeats, that match the channel |
| Collection.CollectCandidates | internal/retrieval/candidates.go:103-137 | every channel once, in order: a failure with its code, an invalid list as malformed, a valid one with its size, each with the manifest, flag and latency of the response; exactly the versions with a hit, each with all its hits in order of channel, ranked by place and with the fields of the hit |
| Runs.CanonicalizeRun | internal/retrieval/run.go:224-365 | a valid canonical form, or a refusal when no arrangement of the entries is valid; validity includes the check on the snapshot |
| Runs.CanonicalUnique | internal/retrieval/run.go:224-251 | however ties are broken, a run with a valid canonical form has only that one |
| Runs.ValidIsCanonical | internal/retrieval/run.go:206-251 | a valid run is its own canonical form exactly when its hits are in order of channel and rank |
| Runs.InterleavedExample | internal/retrieval/run.go:291-298 | a run that passes the check with its channels interleaved and is not canonical |
| Retrieval.ResponseFromRun | internal/retrieval/service.go:389-450 | the answer of a stored run, field by field: the candidates are exactly the ranked entries that are selected or advisory, in rank order, with the version, rank and score of the entry, the procedure, lifecycle and observation of the document, and the advisory flag of the gate; the degraded channels are exactly the incomplete executions; disposition, code, snapshot and approximation, or the failure code |
| Retrieval.AnswerTells | internal/retrieval/service.go:389-450 | the same of the answer function for every run and library |
| Retrieval.PersistedChannels | internal/retrieval/service.go:565-580 | every complete and degraded channel and every hit is recorded |
| Retrieval.RequiredDegradation | internal/retrieval/service.go:582-593 | the first required channel that is degraded |
| Retrieval.DegradedSurvive | internal/retrieval/run.go:224-228 | the degraded channels come back from the canonical run in the order they were collected |
| Retrieval.ApproximateSurvives | internal/retrieval/service.go:391-394 | so does the approximate flag |
| Selections.SelectionIsBest | internal/retrieval/service.go:310-324 | the selection is the best-ranked qualifying versions, up to the maximum |
| Selections.WalkShows | internal/retrieval/service.go:310-324 | what the selection loop shows is what the stored selection and gates show again |
| RunValidity.CollectedRankLists | internal/retrieval/service.go:565-580 | the hits of a collection, sorted, are exactly the ranks from one up on each complete channel |
| RunValidity.RanksFollow | internal/retrieval/run.go:291-303 | in such lists each hit's rank follows the last one of its channel, as the check demands |
| Storability.UnrankedExactly | internal/retrieval/run.go:253-365 | a run without a ranking passes the check exactly when the snapshot is in order and indexes every channel as it answered, failures carry a code, and the limits hold; an abstention also needs every index searched and proper verdicts |
| StorableRanking.RankedExactly | internal/retrieval/run.go:253-365 | a ranked run passes the check exactly when moreover no strength is negative and the judgments kept name different eligible candidates |
| StorableRanking.WalkAscends | internal/retrieval/run.go:356-363 | the selection loop takes versions in the order of their ranks, as the check demands |
| StoredFacts.RunHears | internal/retrieval/service.go:565-580 | the stored run records exactly one execution for each channel, with what it answered or why it failed, and exactly the hits of the candidates |
| StoredFacts.RunMarks | internal/retrieval/service.go:271-289 | one gate for each candidate, in order, that repeats the verdict on its version |
| StoredFacts.EntryCarries | internal/retrieval/service.go:802-821 | a ranked entry carries the strength and the observation of its document |
| StoredFacts.RunChooses | internal/retrieval/service.go:310-324 | selected are exactly the ranked entries that are not advisory, reach the minimum score, and come after fewer such entries than the maximum |
| Decisions.ReplayMatches | internal/retrieval/service.go:389-496 | everything an answer shows survives the canonical form |
| Decisions.Decide | internal/retrieval/service.go:225-346 | a decision is stored exactly under a condition on the snapshot, the channels, the verdicts, the ranker and the judgments; every stored decision answers its first caller what the stored run answers later, and both are stated field by field; it records every channel and hit, gates every candidate by its verdict, ranks exactly the eligible ones with the features of their documents and their own judgments, selects the best qualifying versions, and can be reproduced; each disposition and each code, of a failure or an abstention, has its exact cause |
| Decisions.StoredJudgmentsName | internal/retrieval/run.go:345-356 | the judgments of a stored run name different ranked candidates |
| Audits.HitRanksIgnoreOrder | internal/retrieval/run.go:229-234 | sorting the stored hits does not change which channel ranks a version has |
| Audits.RunReproduces | internal/retrieval/service.go:802-821 | ranking the candidates rebuilt from the stored hits and features gives the stored ranking |
| RunProtocol.RunRepository.Save | internal/store/memory/retrieval_run.go:70-99 | stores a valid run once, accepts the same run again, and changes nothing already stored |
| RunProtocol.RunRepository.Persist | internal/retrieval/service.go:475-496 | the answer is what the stored run says, whoever stored it, read against the documents of its epoch; a conflict exactly when query or context differ; unavailability when nothing is stored; an accepted run of a new identity is stored and its first answer given |
| RunProtocol.DecisionsFit | internal/retrieval/service.go:225-346 | the decisions the service makes are the ones the protocol assumes |
| RunProtocol.RunsNeverChange | internal/store/memory/retrieval_run.go:89-99 | in every interleaving a stored run is never changed or lost |
| RunProtocol.CallersAgree | internal/retrieval/service.go:185-200 | in every interleaving all answered callers of one identity are told what the winner's run says, read against the documents of its epoch, and a conflict is reported exactly to requests whose query or context differs from it |
| RunProtocol.LoneCallerServed | internal/retrieval/service.go:185-200 | there is a run of the protocol in which a caller's decision, whatever it is, is stored and given |
| CausalGraph.Build | internal/synthesis/builder.go:23-87 | exactly the last-writer flows and the declared edges, stated field by field, without a cycle, in order of the places of their ends, then kind, then resource; or the first refused dependency; or a cycle among those edges |
| CausalGraph.CycleExactly | internal/synthesis/builder.go:68-80 | with known endpoints, the cycle error occurs exactly when the combined edges have a cycle |
| CausalGraph.UnknownExactly | internal/synthesis/builder.go:154-168 | with a valid trace, the unknown event is reported exactly when the first dependency to be refused names one |
| CausalGraph.FlowsForward | internal/synthesis/builder.go:53-63 | flow edges point forward in the trace |
| Synthesis.Close | internal/synthesis/synthesizer.go:136-149 | the worklist gathers exactly the events from which a chain of edges leads to a goal or a required effect |
| Synthesis.Synthesize | internal/synthesis/synthesizer.go:70-203 | a procedure exactly when goals are covered, effects and prerequisites succeeded, the lists are known, the kept nodes carry valid metadata with preconditions on their own resources, and one id never names two different resources; its steps and edges are the selected ones; each abstention code is given exactly under its own condition |
| SliceLaws.StepWhen | internal/synthesis/synthesizer.go:165-188 | an event is a step exactly when no branch names it and it is needed, or succeeded and is not irrelevant |
| SliceLaws.StepsExactly | internal/workflow/processor.go:524-533 | when branches name only failed events, the steps are exactly the needed events and the successful ones that are not irrelevant |
| SliceLaws.StepsSucceeded | internal/synthesis/synthesizer.go:150-188 | every step succeeded, is certain exactly when it is needed, is numbered by its place, and carries its event with the event's position |
| SliceLaws.StepsOrdered | internal/synthesis/synthesizer.go:165-188 | steps keep the order of the trace |
| SliceLaws.EdgesExactly | internal/synthesis/synthesizer.go:189-195 | the edges are the induced subgraph |
| SliceLaws.NothingNeededLost | internal/synthesis/synthesizer.go:136-188 | when branches name only failed events, nothing needed is lost and certain steps are closed under prerequisites |
| SliceLaws.ClosedExactly | internal/synthesis/synthesizer.go:169 | in general, closed exactly when no branch names the source of an edge into a needed event that no branch names |
| SliceLaws.KeptExactly | internal/synthesis/synthesizer.go:169 | every needed event is kept exactly when no branch names one |
| SliceLaws.DroppedExample | internal/synthesis/synthesizer.go:169 | a request whose slice keeps an event and drops its prerequisite |
| Interface.BuildProcedureInterface | internal/projection/model.go:344-406 | requirements are exactly the keys read from outside the slice, with exactly the predicates that concern them; provisions exactly the keys left behind, with the effects and success predicates of the step; both stated over the fields of steps and edges; refused exactly for an edge without its writer or reader or for a key two events leave behind |
| SliceInterface.SliceFlowsValid | internal/projection/model.go:351-362 | the flows of a slice are never refused |
| SliceInterface.OutsideMeansUnwritten | internal/projection/model.go:366-370 | a certain step requires from outside only what nothing earlier in the trace wrote |
| SliceInterface.FedByLatest | internal/synthesis/builder.go:53-63 | a read fed inside the slice comes from the step that wrote the resource last |
| SliceInterface.OrdinalCheckExactly | internal/projection/model.go:254-259 | a slice passes the ordinal check exactly when every declared dependency between two of its steps has its prerequisite earlier in the trace |
| SliceInterface.BackwardExample | internal/projection/model.go:254-259 | a backward dependency that the graph builder accepts, synthesis keeps and the ordinal check refuses |
| Ledger.MemoryRepository.Current | internal/jev/repository.go:157-175 | for any key: the last record of a base key's log, none where the log is empty, and for a successor's key that very record |
| Ledger.MemoryRepository.LookupReusable | internal/jev/repository.go:137-155 | that record exactly while its window lasts |
| Ledger.MemoryRepository.Commit | internal/jev/repository.go:177-208 | committed exactly when the record is valid for its base key and names the expected predecessor, and either nothing is current and none is expected, or the current record is expected and its window ended by then; afterwards it is current; otherwise what is current stays, and is returned for a valid record where there is any; no other key's current record changes; stored records never change and the overwrite check never fires |
| Ledger.CommitMeans | internal/jev/repository.go:177-208 | the same of the outcome function for every valid ledger |
| Ledger.OthersStay | internal/jev/repository.go:198-207 | after a record is appended its base key leads to it, and keys of other chains to what they did |
| Ledger.WindowsDisjoint | internal/jev/repository.go:191-197 | the windows of a chain do not overlap |
| Ledger.OneWindow | internal/jev/repository.go:191-197 | at any instant one record of a chain at most is reusable |
| Ledger.OneSuccessor | internal/jev/repository.go:191-207 | a record has one successor at most in the whole ledger |
| Ledger.NewKey | internal/jev/repository.go:201-204 | a record that names the head has a key not yet stored |
| LedgerProtocol.AppendOnly | internal/jev/service.go:140-199 | in every interleaving of workers the ledger is append-only |
| LedgerProtocol.ChainsAlways | internal/jev/service.go:140-199 | in every interleaving each base key has one chain of predecessor hashes with windows that do not overlap |
| LedgerProtocol.OneSuccessorEver | internal/jev/service.go:140-199 | in every interleaving each predecessor gains one successor at most |
| LedgerProtocol.SameInstantSameRecord | internal/jev/service.go:140-199 | workers given records whose windows share an instant were given the same record |
| LedgerProtocol.CommitLands | internal/jev/service.go:140-199 | in every interleaving, a worker that found no head or an expired one and met no other commit on its key has its record at the end of the log after its commit step |
| LedgerProtocol.MissMeans | internal/jev/service.go:140-199 | a worker goes on only when nothing was reusable at its time, and is answered from the ledger only with a head that still is |
| Quantize.ParseRender | internal/jev/quantize.go:15 | writing a number by the grammar of section 6 of RFC 8259 and reading it gives it back |
| Quantize.ParseSound | internal/jev/quantize.go:33-36 | what is read is a number of that grammar that writes as the text |
| Quantize.FractionIsMeaning | internal/jev/quantize.go:45-55 | numerator over denominator is the number the digits, the point and the exponent denote |
| Quantize.ExponentShifts | internal/jev/quantize.go:45-55 | an exponent of k multiplies the number by ten to the k, and one of minus k divides it |
| Quantize.WholeNumberReads | internal/jev/quantize.go:29-71 | the usual numeral of n reads as n million millionths, cut to 32 bits, exactly when n is within the maximum |
| Quantize.MicrosExact | internal/jev/quantize.go:29-71 | a readable text is accepted exactly when its value is within the maximum; the result is its value in millionths rounded half up; the last range check never refuses |
| Quantize.CutOffExactly | internal/jev/quantize.go:67-70 | for any maximum, the 32-bit result is the rounded value exactly when that is at most 2147483647, as it always is up to 2147 units |
| Quantize.CutOffExample | internal/jev/quantize.go:67-70 | with a maximum of 3000 units the text 3000 is accepted as a negative value, below that of 0 |
| Quantize.OrderPreserved | internal/jev/quantize.go:29-71 | for any maximum, among values that are not cut off, equal values give equal results and a greater value never a smaller one |
| Quantize.UnreadableRefused | internal/jev/quantize.go:29-44 | every other text is refused |
| Quantize.ProbabilityExact | internal/jev/quantize.go:21-27 | a probability is accepted exactly when readable and at most one, and rounds into range |

## Left out

- SHA-256, canonical JSON, Unicode normalisation, trimming of white space and regular expressions: hashing is injective, texts are already normal, and pattern checks on identifiers are the test for the empty string.
- Byte-size limits on canonical JSON: they depend on the encoder.
- Databases, HTTP, Temporal, object storage and generated code.
- Eligibility, credit, evidence evaluation, tool contracts and experiments: their verdicts are inputs here.
- The circuit breaker, token rates, deadlines and the provider: any of them may stop a worker at any point of the ledger protocol.
- Records of the first judgment schema and runs of the first two run schemas.
- The order in which error texts are chosen where several errors apply to one request.
- RankerManifest.NewManifest: the version text and the hash are left out; elsewhere names are taken as trimmed.
- PlanRequests.ValidatePlanInputs: tenant, epoch, policy and planning-facts hash equality, and the lifecycle and eligibility of each candidate, are not checked again.
- Scheduling.DeriveParallelSchedule: the same equality checks, and the graph's own content hash, are left out.
- RunIssuer.IssueRun: the stored run and the documents are taken as valid; the novelty class, the remaining fields of the draft and its commit are left out.
- Decisions.Decide: starts from the collected candidates; query building, effect inference and the acquisition of the snapshot come before. The attached plan and the list of degraded enhancements, both functions of the stored run, are not part of the answer. The documents of an epoch are fixed, so a later failure to read them is not modelled.
- Runs.CanonicalizeRun: the validity check is a predicate on the sorted run; the timestamps, the envelope, the patterns and lengths of identifiers and names, the canonical form of the facts of a gate, the document-set, policy and ranker identifiers of the snapshot, and the derived lists of candidate and index identifiers are left out.
- RunProtocol.RunRepository.Save: the comparison with the serving configuration and the epoch is one yes-or-no input.
- Lifecycle.Evaluate: reasons are values, not sorted texts, and sealing a decision is left out; of the check on publication the length of a trigger's text, which a prefix makes longer, is left out.
- Synthesis.Synthesize: goals are already merged by predicate. The text checks on a step's tool, version and effect are one flag on the node, those on a branch's scope one flag on the branch; negative paths are left out.
- Interface.BuildProcedureInterface: the final sorting and hashing of the interface are left out.
- CausalGraph.Build: resolving tool contracts and finding resources in an event's fields come before.
- LedgerProtocol.OneSuccessorEver: clocks are arbitrary, not monotone, and single-flight merging of calls is not used; the law holds without it.
