/** Storing and replaying retrieval decisions, one caller at a time and many at once. */
module RunProtocol {
  import opened Identifiers
  import opened Runs
  import opened Retrieval
  import Collection
  import Decisions

  /** What identifies a request: the run it maps to and the hashes it must agree with. */
  datatype Request = Request(runId: Id, queryHash: Id, contextHash: Id)

  datatype Outcome = Given(answer: Answer) | IdempotencyConflict | Unavailable

  /** The documents of every epoch. An epoch's documents do not change. */
  type Epochs = map<nat, map<Id, Document>>

  function LibraryOf(epochs: Epochs, run: Run): (library: map<Id, Document>)
  {
    if run.snapshot.epoch in epochs then epochs[run.snapshot.epoch] else map[]
  }

  function Replayed(epochs: Epochs, run: Run): (a: Answer)
  {
    AnswerOf(run, LibraryOf(epochs, run))
  }

  predicate Agrees(request: Request, run: Run)
  {
    run.queryHash == request.queryHash && run.contextHash == request.contextHash
  }

  /** The answer to a request from a run found in the repository. */
  function FromStored(epochs: Epochs, request: Request, run: Run): (o: Outcome)
  {
    if Agrees(request, run) then Given(Replayed(epochs, run)) else IdempotencyConflict
  }

  /** The caller of a stored run is refused exactly when its query or its context differs from the stored one, and is
      otherwise told what the run says, read against the documents of the run's epoch. */
  ghost predicate Served(epochs: Epochs, request: Request, run: Run, o: Outcome)
  {
    if request.queryHash == run.queryHash && request.contextHash == run.contextHash then
      && o.Given?
      && (run.snapshot.epoch in epochs ==> Tells(run, epochs[run.snapshot.epoch], o.answer))
      && (run.snapshot.epoch !in epochs ==> Tells(run, map[], o.answer))
    else o == IdempotencyConflict
  }

  lemma {:induction false} ServedFrom(epochs: Epochs, request: Request, run: Run)
    ensures Served(epochs, request, run, FromStored(epochs, request, run))
  {
    hide Tells, AnswerOf;
    AnswerTells(run, LibraryOf(epochs, run));
  }

  // ----- the repository

  class RunRepository {
    var runs: map<Id, Run>

    constructor ()
      ensures runs == map[]
    {
      runs := map[];
    }

    /** SaveRetrievalRun: stores a valid run once; the same run again is accepted, another is not.
        `accepts` stands for the checks against the serving configuration and the epoch. */
    method Save(run: Run, accepts: bool) returns (ok: bool)
      modifies this
      ensures ok <==> accepts && ValidRun(run) && (run.id in old(runs) ==> old(runs)[run.id] == run)
      ensures runs == if ok then old(runs)[run.id := run] else old(runs)
      ensures forall id :: id in old(runs) ==> id in runs && runs[id] == old(runs)[id]
    {
      if !accepts || !ValidRun(run) {
        return false;
      }
      if run.id in runs {
        if runs[run.id] != run {
          return false;
        }
        return true;
      }
      runs := runs[run.id := run];
      return true;
    }

    /** persistRun: the answer is the stored run's, whoever stored it; a failure to store with no
        run to fall back on is reported. */
    method Persist(epochs: Epochs, request: Request, run: Run, first: Answer, accepts: bool) returns (o: Outcome)
      requires run.id == request.runId && Agrees(request, run) && first == Replayed(epochs, run)
      modifies this
      ensures forall id :: id in old(runs) ==> id in runs && runs[id] == old(runs)[id]
      ensures forall id :: id in runs && id !in old(runs) ==>
                  id == run.id && runs[id] == run && accepts && ValidRun(run)
      ensures o == if request.runId in runs then FromStored(epochs, request, runs[request.runId]) else Unavailable
      ensures request.runId in runs ==> Served(epochs, request, runs[request.runId], o)
      ensures accepts && ValidRun(run) && run.id !in old(runs) ==> runs == old(runs)[run.id := run] && o == Given(first)
    {
      hide Served, ValidRun;
      forall stored: Run ensures Served(epochs, request, stored, FromStored(epochs, request, stored)) {
        ServedFrom(epochs, request, stored);
      }
      var ok := Save(run, accepts);
      if !ok {
        if run.id in runs {
          var winner := runs[run.id];
          if !Agrees(request, winner) {
            return IdempotencyConflict;
          }
          var replayed := ResponseFromRun(winner, LibraryOf(epochs, winner));
          return Given(replayed);
        }
        return Unavailable;
      }
      return Given(first);
    }
  }

  // ----- many callers

  /** Where a caller is: looking for an earlier run, deciding, storing its run, or, having failed
      to store it, looking for the winner. */
  datatype Phase =
    | Looking
    | Deciding
    | Saving(run: Run, first: Answer)
    | Losing
    | Finished(outcome: Outcome)

  datatype World = World(runs: map<Id, Run>, phases: seq<Phase>)

  ghost predicate Initial(requests: seq<Request>, w: World)
  {
    w.runs == map[] && |w.phases| == |requests| && forall i :: 0 <= i < |w.phases| ==> w.phases[i] == Looking
  }

  /** A decision as it is made for a request: its own run and the answer that goes with it. */
  ghost predicate DecidedFor(epochs: Epochs, request: Request, run: Run, first: Answer)
  {
    run.id == request.runId && Agrees(request, run) && ValidRun(run) && first == Replayed(epochs, run)
  }

  /** The decisions the service makes are of that kind. */
  lemma {:induction false} DecisionsFit(epochs: Epochs, s: Setting, c: Collection.Collected, d: Decisions.Decision)
    requires Decisions.Sound(s, c, d) && d.Stored? && LibraryOf(epochs, d.run) == s.library
    ensures DecidedFor(epochs, Request(s.runId, s.queryHash, s.contextHash), d.run, d.answer)
  {
    hide ValidRun, AnswerOf;
  }

  /** One atomic step of caller i. A lookup or a save may also fail for reasons of its own. */
  ghost predicate StepOf(epochs: Epochs, requests: seq<Request>, w: World, next: World, i: nat)
    requires |w.phases| == |requests| && i < |requests|
  {
    && |next.phases| == |w.phases|
    && (forall j :: 0 <= j < |w.phases| && j != i ==> next.phases[j] == w.phases[j])
    && var request := requests[i];
       match w.phases[i]
       case Looking =>
         && next.runs == w.runs
         && (next.phases[i] == Finished(Unavailable)
             || (request.runId in w.runs
                 && next.phases[i] == Finished(FromStored(epochs, request, w.runs[request.runId])))
             || (request.runId !in w.runs && next.phases[i] == Deciding))
       case Deciding =>
         && next.runs == w.runs
         && (next.phases[i] == Finished(Unavailable)
             || (next.phases[i].Saving? && DecidedFor(epochs, request, next.phases[i].run, next.phases[i].first)))
       case Saving(run, first) =>
         || (next.runs == w.runs && next.phases[i] == Losing)
         || ((run.id in w.runs ==> w.runs[run.id] == run) && next.runs == w.runs[run.id := run]
             && next.phases[i] == Finished(Given(first)))
       case Losing =>
         && next.runs == w.runs
         && (next.phases[i] == Finished(Unavailable)
             || (request.runId in w.runs
                 && next.phases[i] == Finished(FromStored(epochs, request, w.runs[request.runId]))))
       case Finished(o) =>
         next.runs == w.runs && next.phases[i] == w.phases[i]
  }

  ghost predicate Step(epochs: Epochs, requests: seq<Request>, w: World, next: World)
    requires |w.phases| == |requests|
  {
    exists i: nat :: i < |requests| && StepOf(epochs, requests, w, next, i)
  }

  ghost predicate Execution(epochs: Epochs, requests: seq<Request>, trace: seq<World>)
  {
    && trace != [] && Initial(requests, trace[0])
    && (forall k :: 0 <= k < |trace| ==> |trace[k].phases| == |requests|)
    && (forall k :: 0 <= k < |trace| - 1 ==> Step(epochs, requests, trace[k], trace[k + 1]))
  }

  /** What the world satisfies about one caller. */
  ghost predicate Settled(epochs: Epochs, request: Request, runs: map<Id, Run>, p: Phase)
  {
    match p
    case Saving(run, first) => DecidedFor(epochs, request, run, first)
    case Finished(Given(a)) => request.runId in runs && Given(a) == FromStored(epochs, request, runs[request.runId])
    case Finished(IdempotencyConflict) => request.runId in runs && !Agrees(request, runs[request.runId])
    case _ => true
  }

  ghost predicate Consistent(epochs: Epochs, requests: seq<Request>, w: World)
  {
    && |w.phases| == |requests|
    && (forall i :: 0 <= i < |requests| ==> Settled(epochs, requests[i], w.runs, w.phases[i]))
    && (forall id :: id in w.runs ==> w.runs[id].id == id && ValidRun(w.runs[id]))
  }

  ghost predicate Extends(before: map<Id, Run>, after: map<Id, Run>)
  {
    forall id :: id in before ==> id in after && after[id] == before[id]
  }

  lemma {:induction false} StepKeeps(epochs: Epochs, requests: seq<Request>, w: World, next: World)
    requires Consistent(epochs, requests, w) && Step(epochs, requests, w, next)
    ensures Consistent(epochs, requests, next) && Extends(w.runs, next.runs)
  {
    hide ValidRun, AnswerOf;
    var i: nat :| i < |requests| && StepOf(epochs, requests, w, next, i);
    assert Settled(epochs, requests[i], w.runs, w.phases[i]);
    forall j | 0 <= j < |requests|
      ensures Settled(epochs, requests[j], next.runs, next.phases[j])
    {
      assert Settled(epochs, requests[j], w.runs, w.phases[j]);
    }
  }

  lemma {:induction false} AlwaysConsistent(epochs: Epochs, requests: seq<Request>, trace: seq<World>, k: nat)
    requires Execution(epochs, requests, trace) && k < |trace|
    ensures Consistent(epochs, requests, trace[k])
    decreases k
  {
    hide Step;
    if k > 0 {
      AlwaysConsistent(epochs, requests, trace, k - 1);
      assert Step(epochs, requests, trace[k - 1], trace[k - 1 + 1]);
      StepKeeps(epochs, requests, trace[k - 1], trace[k]);
    }
  }

  /** A stored run is never changed or lost. */
  lemma {:induction false} RunsNeverChange(epochs: Epochs, requests: seq<Request>, trace: seq<World>, j: nat, k: nat)
    requires Execution(epochs, requests, trace) && j <= k < |trace|
    ensures Extends(trace[j].runs, trace[k].runs)
    decreases k
  {
    hide Step, Consistent, Initial;
    if j < k {
      RunsNeverChange(epochs, requests, trace, j, k - 1);
      AlwaysConsistent(epochs, requests, trace, k - 1);
      assert Step(epochs, requests, trace[k - 1], trace[k - 1 + 1]);
      StepKeeps(epochs, requests, trace[k - 1], trace[k]);
    }
  }

  /** In every interleaving, all callers of one request identity that are answered, now or later,
      get the answer of the one stored run, and a caller is refused as conflicting exactly when
      its request differs from the stored one. */
  lemma {:induction false} CallersAgree(epochs: Epochs, requests: seq<Request>, trace: seq<World>, j: nat, k: nat,
                                        a: nat, b: nat)
    requires Execution(epochs, requests, trace) && j <= k < |trace| && a < |requests| && b < |requests|
    requires requests[a].runId == requests[b].runId
    requires trace[j].phases[a].Finished? && trace[j].phases[a].outcome != Unavailable
    requires trace[k].phases[b].Finished? && trace[k].phases[b].outcome != Unavailable
    ensures var id := requests[a].runId;
            && id in trace[k].runs
            && trace[j].phases[a].outcome == FromStored(epochs, requests[a], trace[k].runs[id])
            && trace[k].phases[b].outcome == FromStored(epochs, requests[b], trace[k].runs[id])
    ensures requests[a] == requests[b] ==> trace[j].phases[a].outcome == trace[k].phases[b].outcome
    ensures Served(epochs, requests[a], trace[k].runs[requests[a].runId], trace[j].phases[a].outcome)
    ensures Served(epochs, requests[b], trace[k].runs[requests[a].runId], trace[k].phases[b].outcome)
  {
    hide Served, Replayed, ValidRun;
    AlwaysConsistent(epochs, requests, trace, j);
    AlwaysConsistent(epochs, requests, trace, k);
    RunsNeverChange(epochs, requests, trace, j, k);
    assert Settled(epochs, requests[a], trace[j].runs, trace[j].phases[a]);
    assert Settled(epochs, requests[b], trace[k].runs, trace[k].phases[b]);
    ServedFrom(epochs, requests[a], trace[k].runs[requests[a].runId]);
    ServedFrom(epochs, requests[b], trace[k].runs[requests[a].runId]);
  }

  /** The protocol lets a caller through: whatever it decided can be stored and given. */
  lemma {:induction false} LoneCallerServed(epochs: Epochs, request: Request, run: Run, first: Answer)
    returns (trace: seq<World>)
    requires DecidedFor(epochs, request, run, first)
    ensures Execution(epochs, [request], trace)
    ensures trace[|trace| - 1] == World(map[request.runId := run], [Finished(Given(first))])
  {
    hide DecidedFor, ValidRun, FromStored;
    assert run.id == request.runId by { RunNamed(epochs, request, run, first); }
    var start, deciding := World(map[], [Looking]), World(map[], [Deciding]);
    var saving, done := World(map[], [Saving(run, first)]), World(map[run.id := run], [Finished(Given(first))]);
    trace := [start, deciding, saving, done];
    assert map[][run.id := run] == map[run.id := run];
    assert StepOf(epochs, [request], start, deciding, 0);
    assert StepOf(epochs, [request], deciding, saving, 0);
    assert StepOf(epochs, [request], saving, done, 0);
  }

  lemma {:induction false} RunNamed(epochs: Epochs, request: Request, run: Run, first: Answer)
    requires DecidedFor(epochs, request, run, first)
    ensures run.id == request.runId
  {
  }
}
