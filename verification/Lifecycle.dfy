/** The lifecycle of a procedure version: one evaluation, and every run of evaluations. */
module Lifecycle {
  import opened Identifiers
  import opened Wilson

  /** `Unrecognised` stands for any state string the program does not know. */
  datatype State = Candidate | Trial | Active | Retired | Quarantined | Unrecognised

  const UINT64: nat := 0x1_0000_0000_0000_0000

  type Count = n: nat | n < 0x1_0000_0000_0000_0000

  /** Nanoseconds from the zero time; the zero time itself means absent. */
  type Instant = int

  const SECOND: int := 1000000000

  const MAXIMUM_WINDOW_SECONDS: nat := 10 * 366 * 24 * 60 * 60

  datatype Policy = Policy(
    zSquared: nat,
    trialMinimumSamples: Count,
    trialMinimumBound: nat,
    activeMinimumSamples: Count,
    activeMinimumBound: nat,
    trialUnsafeCeiling: Count,
    activeUnsafeCeiling: Count,
    quarantineUnsafeCount: Count,
    freshnessSeconds: Count,
    minimumTrialSeconds: Count
  )

  predicate ValidPolicy(p: Policy)
  {
    && 0 < p.zSquared <= 25 * PARTS_PER_MILLION
    && 0 < p.trialMinimumSamples <= p.activeMinimumSamples
    && p.trialMinimumBound <= p.activeMinimumBound <= PARTS_PER_MILLION
    && p.quarantineUnsafeCount > 0
    && p.trialUnsafeCeiling < p.quarantineUnsafeCount
    && p.activeUnsafeCeiling < p.quarantineUnsafeCount
    && 0 < p.freshnessSeconds <= MAXIMUM_WINDOW_SECONDS
    && 0 < p.minimumTrialSeconds <= MAXIMUM_WINDOW_SECONDS
  }

  datatype Evidence = Evidence(
    successes: Count,
    failures: Count,
    unsafeOutcomes: Count,
    latestCausalAt: Instant,
    trialStartedAt: Instant,
    triggers: seq<Id>
  )

  datatype Request = Request(prior: State, policy: Policy, evidence: Evidence, cutoff: Instant, evaluatedAt: Instant)

  predicate ValidEvidence(e: Evidence, cutoff: Instant)
  {
    && (e.latestCausalAt == 0 || e.latestCausalAt <= cutoff)
    && (e.trialStartedAt == 0 || e.trialStartedAt <= cutoff)
    && EMPTY !in e.triggers
    && StrictlySorted(e.triggers)
  }

  predicate ValidRequest(r: Request)
  {
    && ValidPolicy(r.policy)
    && r.prior != Unrecognised
    && r.cutoff != 0
    && r.evaluatedAt != 0
    && r.cutoff <= r.evaluatedAt
    && ValidEvidence(r.evidence, r.cutoff)
    && r.evidence.successes + r.evidence.failures < UINT64
  }

  datatype Reason =
    | CandidatePromoted
    | TrialPromoted
    | InsufficientSamples
    | WilsonBelowThreshold
    | TrialDurationIncomplete
    | EvidenceStale
    | UnsafeCeilingExceeded
    | ImmediateQuarantine
    | ActiveRollback
    | TerminalState
    | StateMaintained
    | QuarantineTrigger(trigger: Id)

  datatype Decision = Decision(prior: State, next: State, bound: nat, reasons: seq<Reason>)

  datatype Outcome = Decided(decision: Decision) | InvalidLifecycle

  // ----- one transition

  function When(condition: bool, reason: Reason): (r: seq<Reason>)
  {
    if condition then [reason] else []
  }

  function ThresholdReasons(samples: nat, minimum: nat, bound: nat, threshold: nat): (r: seq<Reason>)
  {
    When(samples < minimum, InsufficientSamples) + When(bound < threshold, WilsonBelowThreshold)
  }

  function TriggerReasons(triggers: seq<Id>): (r: seq<Reason>)
  {
    seq(|triggers|, i requires 0 <= i < |triggers| => QuarantineTrigger(triggers[i]))
  }

  predicate Fresh(r: Request)
  {
    r.evidence.latestCausalAt != 0 && r.evidence.latestCausalAt >= r.cutoff - r.policy.freshnessSeconds * SECOND
  }

  /** transition, for the sample count and bound computed by the caller. */
  function Transition(r: Request, samples: nat, bound: nat): (next: (State, seq<Reason>))
  {
    var e, p := r.evidence, r.policy;
    if r.prior == Retired || r.prior == Quarantined then (r.prior, [TerminalState])
    else if |e.triggers| > 0 || e.unsafeOutcomes >= p.quarantineUnsafeCount then
      (Quarantined, [ImmediateQuarantine] + TriggerReasons(e.triggers))
    else if r.prior == Active then
      if !Fresh(r) || samples < p.activeMinimumSamples || bound < p.activeMinimumBound
         || e.unsafeOutcomes > p.activeUnsafeCeiling then
        (Retired, [ActiveRollback] + When(!Fresh(r), EvidenceStale) + When(samples < p.activeMinimumSamples,
            InsufficientSamples)
                + When(bound < p.activeMinimumBound,
                       WilsonBelowThreshold) + When(e.unsafeOutcomes > p.activeUnsafeCeiling, UnsafeCeilingExceeded))
      else (Active, [StateMaintained])
    else if !Fresh(r) then (r.prior, [EvidenceStale])
    else if r.prior == Candidate then
      var reasons := ThresholdReasons(samples, p.trialMinimumSamples, bound, p.trialMinimumBound)
                   + When(e.unsafeOutcomes > p.trialUnsafeCeiling, UnsafeCeilingExceeded);
      if |reasons| > 0 then (Candidate, reasons) else (Trial, [CandidatePromoted])
    else if e.unsafeOutcomes > p.activeUnsafeCeiling then (Candidate, [UnsafeCeilingExceeded])
    else
      var reasons := ThresholdReasons(samples, p.activeMinimumSamples, bound, p.activeMinimumBound)
                   + When(e.trialStartedAt == 0
                          || e.trialStartedAt > r.cutoff - p.minimumTrialSeconds * SECOND, TrialDurationIncomplete);
      if |reasons| > 0 then (Trial, reasons) else (Active, [TrialPromoted])
  }

  ghost function Bound(r: Request): (b: nat)
  {
    LowerBound(r.evidence.successes, r.evidence.successes + r.evidence.failures, r.policy.zSquared)
  }

  /** The state after a request, which is the state before it when the request is refused. */
  ghost function After(r: Request): (next: State)
  {
    if ValidRequest(r) then Transition(r, r.evidence.successes + r.evidence.failures, Bound(r)).0 else r.prior
  }

  ghost function Reasons(r: Request): (reasons: seq<Reason>)
  {
    Transition(r, r.evidence.successes + r.evidence.failures, Bound(r)).1
  }

  /** The addition of the two counts as the machine does it. */
  function WrappingAdd(a: Count, b: Count): (sum: Count)
    ensures sum < a <==> a + b >= UINT64
    ensures a + b < UINT64 ==> sum == a + b
  {
    (a + b) % UINT64
  }

  method Evaluate(r: Request) returns (outcome: Outcome)
    ensures outcome.Decided? <==> ValidRequest(r)
    ensures outcome.Decided? ==>
              var d := outcome.decision;
              && d.prior == r.prior
              && d.next == After(r)
              && d.bound == Bound(r)
              && d.reasons == Reasons(r)
              && d.reasons != []
              && NoDuplicates(d.reasons)
              && NextIs(r, d.bound, d.next)
              && (forall x :: x in d.reasons <==> Explains(r, d.bound, x))
  {
    if !(ValidPolicy(r.policy) && r.prior != Unrecognised && r.cutoff != 0 && r.evaluatedAt != 0
         && r.cutoff <= r.evaluatedAt
         && ValidEvidence(r.evidence, r.cutoff)) {
      return InvalidLifecycle;
    }
    var samples := WrappingAdd(r.evidence.successes, r.evidence.failures);
    if samples < r.evidence.successes {
      return InvalidLifecycle;
    }
    var bound := WilsonLowerBoundPPM(r.evidence.successes, samples, r.policy.zSquared);
    var (next, reasons) := Transition(r, samples, bound);
    ReasonsDistinct(r, samples, bound);
    NextExactly(r, samples, bound);
    forall x ensures x in reasons <==> Explains(r, bound, x) {
      ReasonsExactly(r, samples, bound, x);
    }
    return Decided(Decision(r.prior, next, bound, reasons));
  }

  // ----- the same decision, state by state and reason by reason

  /** Evidence no older than the policy allows. */
  predicate Current(r: Request)
  {
    r.evidence.latestCausalAt != 0 && r.cutoff - r.evidence.latestCausalAt <= r.policy.freshnessSeconds * 1000000000
  }

  /** The trial has lasted at least as long as the policy asks. */
  predicate Served(r: Request)
  {
    r.evidence.trialStartedAt != 0 && r.cutoff - r.evidence.trialStartedAt >= r.policy.minimumTrialSeconds * 1000000000
  }

  predicate Dangerous(r: Request)
  {
    |r.evidence.triggers| > 0 || r.policy.quarantineUnsafeCount <= r.evidence.unsafeOutcomes
  }

  predicate Proven(r: Request, bound: nat, samples: nat, threshold: nat, ceiling: nat)
  {
    && Current(r) && samples <= r.evidence.successes + r.evidence.failures && threshold <= bound
    && r.evidence.unsafeOutcomes <= ceiling
  }

  predicate ProvenForTrial(r: Request, bound: nat)
  {
    Proven(r, bound, r.policy.trialMinimumSamples, r.policy.trialMinimumBound, r.policy.trialUnsafeCeiling)
  }

  predicate ProvenForUse(r: Request, bound: nat)
  {
    Proven(r, bound, r.policy.activeMinimumSamples, r.policy.activeMinimumBound, r.policy.activeUnsafeCeiling)
  }

  /** When a request leads to each of the states. */
  predicate NextIs(r: Request, bound: nat, next: State)
  {
    var safe := r.evidence.unsafeOutcomes <= r.policy.activeUnsafeCeiling;
    && (next == Quarantined <==> r.prior == Quarantined || (r.prior != Retired && Dangerous(r)))
    && (next == Retired <==> r.prior == Retired || (r.prior == Active && !Dangerous(r) && !ProvenForUse(r, bound)))
    && (next == Active <==>
          !Dangerous(r) && ProvenForUse(r, bound) && (r.prior == Active || (r.prior == Trial && Served(r))))
    && (next == Trial <==>
          && !Dangerous(r)
          && (|| (r.prior == Candidate && ProvenForTrial(r, bound))
              || (r.prior == Trial && (!Current(r) || (safe && !(ProvenForUse(r, bound) && Served(r)))))))
    && (next == Candidate <==>
          && !Dangerous(r)
          && (|| (r.prior == Candidate && !ProvenForTrial(r, bound))
              || (r.prior == Trial && Current(r) && !safe)))
  }

  /** When each reason is given. */
  predicate Explains(r: Request, bound: nat, x: Reason)
  {
    var e, p := r.evidence, r.policy;
    var ended := r.prior == Retired || r.prior == Quarantined;
    var trying := r.prior == Trial && Current(r) && e.unsafeOutcomes <= p.activeUnsafeCeiling;
    var applying := r.prior == Candidate && Current(r);
    match x
    case TerminalState => ended
    case ImmediateQuarantine => !ended && Dangerous(r)
    case QuarantineTrigger(t) => !ended && t in e.triggers
    case ActiveRollback => !Dangerous(r) && r.prior == Active && !ProvenForUse(r, bound)
    case StateMaintained => !Dangerous(r) && r.prior == Active && ProvenForUse(r, bound)
    case EvidenceStale => !ended && !Dangerous(r) && !Current(r)
    case InsufficientSamples =>
      && !Dangerous(r)
      && (|| ((r.prior == Active || trying) && e.successes + e.failures < p.activeMinimumSamples)
          || (applying && e.successes + e.failures < p.trialMinimumSamples))
    case WilsonBelowThreshold =>
      && !Dangerous(r)
      && (|| ((r.prior == Active || trying) && bound < p.activeMinimumBound)
          || (applying && bound < p.trialMinimumBound))
    case UnsafeCeilingExceeded =>
      && !Dangerous(r)
      && (|| ((r.prior == Active || (r.prior == Trial && Current(r))) && e.unsafeOutcomes > p.activeUnsafeCeiling)
          || (applying && e.unsafeOutcomes > p.trialUnsafeCeiling))
    case TrialDurationIncomplete => !Dangerous(r) && trying && !Served(r)
    case CandidatePromoted => !Dangerous(r) && r.prior == Candidate && ProvenForTrial(r, bound)
    case TrialPromoted => !Dangerous(r) && r.prior == Trial && ProvenForUse(r, bound) && Served(r)
  }

  lemma {:induction false} NextExactly(r: Request, samples: nat, bound: nat)
    requires r.prior != Unrecognised && samples == r.evidence.successes + r.evidence.failures
    ensures NextIs(r, bound, Transition(r, samples, bound).0)
  {
  }

  lemma {:induction false} ReasonsExactly(r: Request, samples: nat, bound: nat, x: Reason)
    requires r.prior != Unrecognised && samples == r.evidence.successes + r.evidence.failures
    ensures x in Transition(r, samples, bound).1 <==> Explains(r, bound, x)
  {
    TriggersListed(r.evidence.triggers, x);
    var e, p := r.evidence, r.policy;
    RollbackListed(!Fresh(r), samples < p.activeMinimumSamples, bound < p.activeMinimumBound,
                   e.unsafeOutcomes > p.activeUnsafeCeiling, x);
    hide TriggerReasons;
  }

  lemma {:induction false} TriggersListed(triggers: seq<Id>, x: Reason)
    ensures x in TriggerReasons(triggers) <==> x.QuarantineTrigger? && x.trigger in triggers
  {
    if x.QuarantineTrigger? && x.trigger in triggers {
      var i :| 0 <= i < |triggers| && triggers[i] == x.trigger;
      assert TriggerReasons(triggers)[i] == x;
    }
  }

  lemma {:induction false} RollbackListed(stale: bool, few: bool, low: bool, risky: bool, x: Reason)
    ensures x in [ActiveRollback] + When(stale, EvidenceStale) + When(few, InsufficientSamples)
                 + When(low, WilsonBelowThreshold) + When(risky, UnsafeCeilingExceeded)
            <==> x == ActiveRollback || (stale && x == EvidenceStale) || (few && x == InsufficientSamples)
                 || (low && x == WilsonBelowThreshold) || (risky && x == UnsafeCeilingExceeded)
  {
  }

  lemma {:induction false} AppendWhen(s: seq<Reason>, condition: bool, reason: Reason)
    requires NoDuplicates(s) && reason !in s
    ensures NoDuplicates(s + When(condition, reason))
    ensures forall x :: x in s + When(condition, reason) <==> x in s || (condition && x == reason)
  {
  }

  lemma {:induction false} ThresholdsDistinct(samples: nat, minimum: nat, bound: nat, threshold: nat)
    ensures NoDuplicates(ThresholdReasons(samples, minimum, bound, threshold))
    ensures forall x :: x in ThresholdReasons(samples, minimum, bound, threshold) ==>
                x == InsufficientSamples || x == WilsonBelowThreshold
  {
  }

  lemma {:induction false} RollbackDistinct(stale: bool, few: bool, low: bool, risky: bool)
    ensures NoDuplicates([ActiveRollback] + When(stale, EvidenceStale) + When(few, InsufficientSamples)
                         + When(low, WilsonBelowThreshold) + When(risky, UnsafeCeilingExceeded))
  {
    var a := [ActiveRollback];
    AppendWhen(a, stale, EvidenceStale);
    var b := a + When(stale, EvidenceStale);
    AppendWhen(b, few, InsufficientSamples);
    var c := b + When(few, InsufficientSamples);
    AppendWhen(c, low, WilsonBelowThreshold);
    AppendWhen(c + When(low, WilsonBelowThreshold), risky, UnsafeCeilingExceeded);
  }

  lemma {:induction false} SingleDistinct(x: Reason)
    ensures NoDuplicates([x])
  {
  }

  lemma {:induction false} TriggersDistinct(triggers: seq<Id>)
    requires StrictlySorted(triggers)
    ensures NoDuplicates([ImmediateQuarantine] + TriggerReasons(triggers))
  {
  }

  lemma {:induction false} ExtendedDistinct(samples: nat, minimum: nat, bound: nat, threshold: nat, condition: bool,
                                            reason: Reason)
    requires reason != InsufficientSamples && reason != WilsonBelowThreshold
    ensures NoDuplicates(ThresholdReasons(samples, minimum, bound, threshold) + When(condition, reason))
  {
    ThresholdsDistinct(samples, minimum, bound, threshold);
    hide ThresholdReasons, NoDuplicates, When;
    AppendWhen(ThresholdReasons(samples, minimum, bound, threshold), condition, reason);
  }

  lemma {:induction false} ReasonsDistinct(r: Request, samples: nat, bound: nat)
    requires StrictlySorted(r.evidence.triggers)
    ensures Transition(r, samples, bound).1 != [] && NoDuplicates(Transition(r, samples, bound).1)
  {
    hide When, ThresholdReasons, TriggerReasons, NoDuplicates, Fresh, StrictlySorted;
    var e, p := r.evidence, r.policy;
    RollbackDistinct(!Fresh(r), samples < p.activeMinimumSamples, bound < p.activeMinimumBound,
                     e.unsafeOutcomes > p.activeUnsafeCeiling);
    ExtendedDistinct(samples, p.trialMinimumSamples, bound, p.trialMinimumBound,
                     e.unsafeOutcomes > p.trialUnsafeCeiling, UnsafeCeilingExceeded);
    ExtendedDistinct(samples, p.activeMinimumSamples, bound, p.activeMinimumBound,
                     e.trialStartedAt == 0
                       || e.trialStartedAt > r.cutoff - p.minimumTrialSeconds * SECOND, TrialDurationIncomplete);
    TriggersDistinct(e.triggers);
    SingleDistinct(TerminalState);
    SingleDistinct(StateMaintained);
    SingleDistinct(EvidenceStale);
    SingleDistinct(CandidatePromoted);
    SingleDistinct(UnsafeCeilingExceeded);
    SingleDistinct(TrialPromoted);
  }

  // ----- what one evaluation promises

  predicate QuarantineTriggered(r: Request)
  {
    r.evidence.triggers != [] || r.evidence.unsafeOutcomes >= r.policy.quarantineUnsafeCount
  }

  /** Every threshold of the active state. */
  ghost predicate MeetsActive(r: Request)
  {
    && Fresh(r)
    && r.evidence.successes + r.evidence.failures >= r.policy.activeMinimumSamples
    && Bound(r) >= r.policy.activeMinimumBound
    && r.evidence.unsafeOutcomes <= r.policy.activeUnsafeCeiling
  }

  /** Every threshold of the trial state. */
  ghost predicate MeetsTrial(r: Request)
  {
    && Fresh(r)
    && r.evidence.successes + r.evidence.failures >= r.policy.trialMinimumSamples
    && Bound(r) >= r.policy.trialMinimumBound
    && r.evidence.unsafeOutcomes <= r.policy.trialUnsafeCeiling
  }

  predicate TrialServed(r: Request)
  {
    r.evidence.trialStartedAt != 0 && r.evidence.trialStartedAt <= r.cutoff - r.policy.minimumTrialSeconds * SECOND
  }

  predicate Terminal(s: State)
  {
    s == Retired || s == Quarantined
  }

  /** Active is entered from Trial alone, when every active threshold is met and the trial has
      run its minimum, and it is kept exactly while every active threshold is met. */
  lemma {:induction false} ActiveExactly(r: Request)
    requires ValidRequest(r)
    ensures After(r) == Active <==>
            !QuarantineTriggered(r) && MeetsActive(r) && (r.prior == Active || (r.prior == Trial && TrialServed(r)))
  {
  }

  /** A quarantine trigger overrides every state that is not terminal, and nothing else quarantines. */
  lemma {:induction false} QuarantineOverrides(r: Request)
    requires ValidRequest(r)
    ensures After(r) == Quarantined <==> r.prior == Quarantined || (r.prior != Retired && QuarantineTriggered(r))
  {
  }

  /** The policy's own bounds make every active threshold imply its trial counterpart, except the
      unsafe ceiling, which the policy does not order. */
  lemma {:induction false} ActiveImpliesTrial(r: Request)
    requires ValidPolicy(r.policy) && MeetsActive(r)
    ensures MeetsTrial(r) <==> r.evidence.unsafeOutcomes <= r.policy.trialUnsafeCeiling
  {
  }

  /** Evaluating the decided state again on the same evidence. Only a change between Candidate and
      Trial does not settle: a fresh Trial falls straight back exactly when the unsafe outcomes lie
      above the active ceiling, and such a fallback is promoted again exactly when the trial
      thresholds are met. */
  lemma {:induction false} SecondLook(r: Request)
    requires ValidRequest(r)
    ensures var next := After(r);
            var again := After(r.(prior := next));
            if r.prior == Candidate && next == Trial then
              && (again == Candidate <==> r.evidence.unsafeOutcomes > r.policy.activeUnsafeCeiling)
              && (again == Active <==> MeetsActive(r) && TrialServed(r))
              && again in {Candidate, Trial, Active}
            else if r.prior == Trial && next == Candidate then
              again == if MeetsTrial(r) then Trial else Candidate
            else
              again == next
  {
    var next := r.(prior := After(r));
    assert ValidRequest(next) && Bound(next) == Bound(r) && Fresh(next) == Fresh(r);
  }

  /** The state after n evaluations of the same evidence under the same policy. */
  ghost function Repeated(r: Request, n: nat): (state: State)
  {
    if n == 0 then r.prior else After(r.(prior := Repeated(r, n - 1)))
  }

  /** Trial thresholds met, with more unsafe outcomes than the active ceiling allows: the policy
      admits this when its trial ceiling is the higher one. */
  ghost predicate Bounces(r: Request)
  {
    && (r.prior == Candidate || r.prior == Trial) && !QuarantineTriggered(r) && MeetsTrial(r)
    && r.policy.activeUnsafeCeiling < r.evidence.unsafeOutcomes
  }

  lemma {:induction false} BounceStep(r: Request)
    requires ValidRequest(r) && Bounces(r)
    ensures After(r) == (if r.prior == Candidate then Trial else Candidate) && Bounces(r.(prior := After(r)))
  {
    var next := r.(prior := After(r));
    assert Bound(next) == Bound(r) && Fresh(next) == Fresh(r);
  }

  /** Nothing but the prior state enters a repeated evaluation. */
  lemma {:induction false} RepeatedFrom(r: Request, n: nat)
    requires ValidRequest(r)
    ensures Repeated(r, n) != Unrecognised && Repeated(r, n + 1) == After(r.(prior := Repeated(r, n)))
  {
    if n > 0 {
      RepeatedFrom(r, n - 1);
      var q := r.(prior := Repeated(r, n - 1));
      assert ValidRequest(q);
    }
  }

  lemma {:induction false} BouncesOn(r: Request, n: nat)
    requires ValidRequest(r) && Bounces(r)
    ensures Bounces(r.(prior := Repeated(r, n))) && Repeated(r, n + 1) != Repeated(r, n)
            && Repeated(r, n + 2) == Repeated(r, n)
  {
    if n > 0 {
      BouncesOn(r, n - 1);
    }
    var q := r.(prior := Repeated(r, n));
    if n > 0 {
      BounceStep(r.(prior := Repeated(r, n - 1)));
    }
    assert Bounces(q);
    RepeatedFrom(r, n);
    BounceStep(q);
    BounceStep(q.(prior := After(q)));
    assert Repeated(r, n + 1) == After(q) && Repeated(r, n + 2) == After(r.(prior := Repeated(r, n + 1)));
  }

  /** Otherwise the state has settled after two evaluations at most. */
  lemma {:induction false} SettlesByTwo(r: Request)
    requires ValidRequest(r) && !Bounces(r)
    ensures Repeated(r, 1) == Repeated(r, 0) || Repeated(r, 2) == Repeated(r, 1) || Repeated(r, 3) == Repeated(r, 2)
  {
    var one := r.(prior := After(r));
    assert Repeated(r, 0) == r.prior && Repeated(r, 1) == After(r);
    assert Repeated(r, 2) == After(one);
    assert Repeated(r, 3) == After(r.(prior := After(one)));
    RepeatedFrom(r, 1);
    SecondLook(r);
    SecondLook(one);
    assert Bound(one) == Bound(r) && Fresh(one) == Fresh(r);
  }

  /** Repeating an evaluation on unchanged evidence never settles exactly when the unsafe outcomes
      lie above the active ceiling while the trial thresholds are met; it then alternates for ever. */
  lemma {:induction false} NeverSettlesExactly(r: Request)
    requires ValidRequest(r)
    ensures (forall n: nat :: Repeated(r, n + 1) != Repeated(r, n)) <==> Bounces(r)
    ensures Bounces(r) ==> forall n: nat :: Repeated(r, n + 2) == Repeated(r, n)
  {
    hide Bounces, Repeated;
    if Bounces(r) {
      forall n: nat ensures Repeated(r, n + 1) != Repeated(r, n) && Repeated(r, n + 2) == Repeated(r, n) {
        BouncesOn(r, n);
      }
    } else {
      SettlesByTwo(r);
      assert !(Repeated(r, 0 + 1) != Repeated(r, 0) && Repeated(r, 1 + 1) != Repeated(r, 1)
               && Repeated(r, 2 + 1) != Repeated(r, 2));
    }
  }

  /** One unsafe outcome, which the trial ceiling allows and the active ceiling does not. */
  const BOUNCING_POLICY := Policy(1, 1, 0, 1, 0, 1, 0, 2, 1, 1)
  const BOUNCING := Request(Candidate, BOUNCING_POLICY, Evidence(1, 0, 1, 10, 0, []), 10, 10)

  /** Such a version goes from Candidate to Trial and back. */
  lemma {:induction false} BounceExample()
    ensures ValidRequest(BOUNCING) && Bounces(BOUNCING)
    ensures After(BOUNCING) == Trial && After(BOUNCING.(prior := Trial)) == Candidate
  {
    assert ValidRequest(BOUNCING);
    assert Bounces(BOUNCING);
    BounceStep(BOUNCING);
    BounceStep(BOUNCING.(prior := Trial));
  }

  // ----- publishing a decision

  const MAXIMUM_REASONS: nat := 32

  /** What ValidateDecision asks of a sealed decision, whose reasons are sorted. */
  predicate ValidDecision(d: Decision)
  {
    && d.prior != Unrecognised && d.next != Unrecognised && d.bound <= PARTS_PER_MILLION
    && 0 < |d.reasons| <= MAXIMUM_REASONS && NoDuplicates(d.reasons)
  }

  ghost function DecisionOf(r: Request): (d: Decision)
  {
    Decision(r.prior, After(r), Bound(r), Reasons(r))
  }

  /** Every decision can be published, except a quarantine on more than 31 triggers. */
  lemma {:induction false} PublishedExactly(r: Request)
    requires ValidRequest(r)
    ensures ValidDecision(DecisionOf(r)) <==> |r.evidence.triggers| < MAXIMUM_REASONS || Terminal(r.prior)
    ensures !ValidDecision(DecisionOf(r)) ==> After(r) == Quarantined
  {
    ReasonsDistinct(r, r.evidence.successes + r.evidence.failures, Bound(r));
    hide NoDuplicates, Fresh, Bound, StrictlySorted;
    ReasonsCounted(r, r.evidence.successes + r.evidence.failures, Bound(r));
  }

  lemma {:induction false} ReasonsCounted(r: Request, samples: nat, bound: nat)
    ensures |Transition(r, samples, bound).1| <=
            if Terminal(r.prior) || !QuarantineTriggered(r) then 5 else 1 + |r.evidence.triggers|
    ensures !Terminal(r.prior) && r.evidence.triggers != [] ==>
              |Transition(r, samples, bound).1| == 1 + |r.evidence.triggers|
    ensures r.prior != Unrecognised ==> Transition(r, samples, bound).0 != Unrecognised
  {
    hide Fresh;
  }

  const MANY_TRIGGERS := seq(32, i => i + 1)
  const UNPUBLISHED := Request(Active, BOUNCING_POLICY, Evidence(1, 0, 0, 10, 0, MANY_TRIGGERS), 10, 10)

  /** A version in use that is to be quarantined on 32 triggers: the decision cannot be published. */
  lemma {:induction false} UnpublishedExample()
    ensures ValidRequest(UNPUBLISHED) && After(UNPUBLISHED) == Quarantined && !ValidDecision(DecisionOf(UNPUBLISHED))
  {
    assert ValidPolicy(BOUNCING_POLICY);
    assert |MANY_TRIGGERS| == 32 && StrictlySorted(MANY_TRIGGERS);
    PublishedExactly(UNPUBLISHED);
  }

  // ----- better evidence

  /** The same evidence with some failures turned into successes. */
  predicate Converts(e: Evidence, better: Evidence)
  {
    better.successes >= e.successes && better.successes + better.failures == e.successes + e.failures
    && better == e.(successes := better.successes, failures := better.failures)
  }

  /** How far along a state is; Quarantined is apart. */
  function Standing(s: State): (n: nat)
  {
    match s
    case Candidate => 1
    case Trial => 2
    case Active => 3
    case _ => 0
  }

  /** Turning failures into successes never lowers the state reached, at equal or lower confidence. */
  lemma {:induction false} BetterEvidenceNeverLowers(r: Request, better: Request)
    requires ValidRequest(r) && ValidRequest(better)
    requires Converts(r.evidence, better.evidence)
    requires better.policy.zSquared <= r.policy.zSquared
    requires better == r.(evidence := better.evidence, policy := r.policy.(zSquared := better.policy.zSquared))
    ensures Standing(After(r)) <= Standing(After(better))
    ensures After(r) == Quarantined <==> After(better) == Quarantined
  {
    var e, b := r.evidence, better.evidence;
    var n := e.successes + e.failures;
    BoundRisesWithSuccesses(e.successes, b.successes, n, r.policy.zSquared);
    BoundFallsWithConfidence(b.successes, n, r.policy.zSquared, better.policy.zSquared);
    assert Bound(r) <= Bound(better);
  }

  // ----- every run

  /** States of one version under any sequence of evaluations, each on its own policy and evidence. */
  ghost predicate Run(states: seq<State>, requests: seq<Request>)
  {
    && |states| == |requests| + 1
    && (forall i :: 0 <= i < |requests| ==> requests[i].prior == states[i] && states[i + 1] == After(requests[i]))
  }

  /** A request that the evaluation accepts and that finds every active threshold met. */
  ghost predicate Qualifies(r: Request)
  {
    ValidRequest(r) && !QuarantineTriggered(r) && MeetsActive(r)
  }

  lemma {:induction false} TerminalAbsorbs(states: seq<State>, requests: seq<Request>, i: nat, j: nat)
    requires Run(states, requests) && i <= j < |states| && Terminal(states[i])
    ensures states[j] == states[i]
    decreases j
  {
    if i < j {
      TerminalAbsorbs(states, requests, i, j - 1);
      assert requests[j - 1].prior == states[j - 1] && states[j - 1 + 1] == After(requests[j - 1]);
    }
  }

  lemma {:induction false} ActiveOrTerminal(states: seq<State>, requests: seq<Request>, i: nat, j: nat)
    requires Run(states, requests) && i <= j < |states| && states[i] == Active
    ensures states[j] == Active || Terminal(states[j])
    decreases j
  {
    if i < j {
      ActiveOrTerminal(states, requests, i, j - 1);
      assert requests[j - 1].prior == states[j - 1] && states[j - 1 + 1] == After(requests[j - 1]);
    }
  }

  lemma {:induction false} StaysActive(states: seq<State>, requests: seq<Request>, i: nat, j: nat, k: nat)
    requires Run(states, requests) && i <= j <= k < |states| && states[i] == Active && states[k] == Active
    ensures states[j] == Active
  {
    ActiveOrTerminal(states, requests, i, j);
    if Terminal(states[j]) {
      TerminalAbsorbs(states, requests, j, k);
    }
  }

  /** A version is active over one contiguous stretch of its run at most, and every accepted
      evaluation inside that stretch met every active threshold. */
  lemma {:induction false} OneActiveInterval(states: seq<State>, requests: seq<Request>, i: nat, j: nat, k: nat)
    requires Run(states, requests) && i < j <= k < |states| && states[i] == Active && states[k] == Active
    ensures states[j] == Active
    ensures ValidRequest(requests[j - 1]) ==> Qualifies(requests[j - 1])
  {
    StaysActive(states, requests, i, j, k);
    StaysActive(states, requests, i, j - 1, k);
    assert requests[j - 1].prior == states[j - 1] && states[j - 1 + 1] == After(requests[j - 1]);
    if ValidRequest(requests[j - 1]) {
      ActiveExactly(requests[j - 1]);
    }
  }

  /** Step t of the run takes the version from one state to another. */
  ghost predicate StepFromTo(states: seq<State>, requests: seq<Request>, t: nat, before: State, after: State)
    requires Run(states, requests)
  {
    t < |requests| && states[t] == before && states[t + 1] == after && ValidRequest(requests[t])
  }

  /** The run reached Trial from Candidate at step t on evidence meeting every trial threshold. */
  ghost predicate Promoted(states: seq<State>, requests: seq<Request>, t: nat)
    requires Run(states, requests)
  {
    StepFromTo(states, requests, t, Candidate, Trial) && !QuarantineTriggered(requests[t]) && MeetsTrial(requests[t])
  }

  /** The run reached Active from Trial at step t, all thresholds met and the trial served. */
  ghost predicate Activated(states: seq<State>, requests: seq<Request>, t: nat)
    requires Run(states, requests)
  {
    StepFromTo(states, requests, t, Trial, Active) && Qualifies(requests[t]) && TrialServed(requests[t])
  }

  lemma {:induction false} TrialWasPromoted(states: seq<State>, requests: seq<Request>, k: nat) returns (t: nat)
    requires Run(states, requests) && states[0] == Candidate && k < |states| && states[k] == Trial
    ensures t < k && Promoted(states, requests, t)
    decreases k
  {
    assert requests[k - 1].prior == states[k - 1] && states[k - 1 + 1] == After(requests[k - 1]);
    if states[k - 1] == Trial {
      t := TrialWasPromoted(states, requests, k - 1);
    } else {
      t := k - 1;
    }
  }

  /** No version becomes active but by the full path: a promotion to Trial, later an activation,
      and from there on it stayed active. */
  lemma {:induction false} ActiveWasEarned(states: seq<State>, requests: seq<Request>, k: nat) returns (t: nat, u: nat)
    requires Run(states, requests) && states[0] == Candidate && k < |states| && states[k] == Active
    ensures t < u < k && Promoted(states, requests, t) && Activated(states, requests, u)
    ensures forall j :: u < j <= k ==> states[j] == Active
    decreases k
  {
    assert requests[k - 1].prior == states[k - 1] && states[k - 1 + 1] == After(requests[k - 1]);
    if states[k - 1] == Active {
      t, u := ActiveWasEarned(states, requests, k - 1);
    } else {
      u := k - 1;
      ActiveExactly(requests[u]);
      t := TrialWasPromoted(states, requests, u);
    }
  }

  /** A quarantine trigger met while a version is not retired quarantines it for the rest of the run. */
  lemma {:induction false} TriggerIsFinal(states: seq<State>, requests: seq<Request>, i: nat, j: nat)
    requires Run(states, requests) && i < j < |states| && states[i] != Retired
    requires ValidRequest(requests[i]) && QuarantineTriggered(requests[i])
    ensures states[j] == Quarantined
  {
    assert requests[i].prior == states[i] && states[i + 1] == After(requests[i]);
    QuarantineOverrides(requests[i]);
    TerminalAbsorbs(states, requests, i + 1, j);
  }
}
