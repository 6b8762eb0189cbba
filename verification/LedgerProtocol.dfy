/** Many workers judging against one ledger. Each worker reads the clock once, looks for a reusable
judgment, reads the head, evaluates, and commits; its steps interleave with every other worker's.
Limits, deadlines, the circuit breaker and the provider may end a worker at any point. */
module LedgerProtocol {
  import opened Ledger

  /** A worker's next step. `Ready` holds its reading of the clock and the head it saw. */
  datatype Phase =
    | Starting
    | Missed(now: int)
    | Ready(now: int, expected: Digest)
    | Evaluated(expected: Digest, record: Record)
    | Returned(record: Record)
    | Stopped

  datatype World = World(logs: Logs, phases: seq<Phase>)

  /** The base key each worker was asked about. */
  type Work = seq<Key>

  ghost predicate Initial(work: Work, w: World)
  {
    && w.logs == map[] && |w.phases| == |work|
    && (forall i :: 0 <= i < |work| ==> w.phases[i] == Starting && work[i].predecessor == NoDigest)
  }

  /** The record a worker builds from what it read. */
  ghost predicate Builds(base: Key, now: int, expected: Digest, r: Record)
  {
    r.tenant == base.tenant && r.base == base.base && r.predecessor == expected && r.createdAt == now
  }

  ghost predicate WorkerStep(base: Key, logs: Logs, p: Phase, after: Logs, next: Phase)
  {
    var log := LogOf(logs, base);
    match p
    case Starting =>
      && after == logs
      && (next == Stopped
          || exists now: int :: if log != [] && now != 0
                 && now < Last(log).reusableUntil then next == Returned(Last(log)) else next == Missed(now))
    case Missed(now) =>
      && after == logs
      && (next == Stopped
          || (log != [] && now < Last(log).reusableUntil && next == Returned(Last(log)))
          || (log != [] && now >= Last(log).reusableUntil && next == Ready(now, Of(Last(log))))
          || (log == [] && next == Ready(now, NoDigest)))
    case Ready(now, expected) =>
      after == logs && (next == Stopped
                        || (next.Evaluated? && next.expected == expected && ValidRecord(next.record)
                            && Builds(base, now, expected, next.record)))
    case Evaluated(expected, record) =>
      && after == AfterCommit(logs, base, expected, record)
      && (match CommitOutcome(logs, base, expected, record)
          case Committed(r) => next == Returned(r) || next == Stopped
          case Kept(r) => next == Returned(r) || next == Stopped
          case InvalidJudgment => next == Stopped)
    case _ => after == logs && next == p
  }

  ghost predicate Step(work: Work, w: World, next: World)
    requires |w.phases| == |work|
  {
    && |next.phases| == |w.phases|
    && exists i :: 0 <= i < |work| && WorkerStep(work[i], w.logs, w.phases[i], next.logs, next.phases[i])
                   && forall j :: 0 <= j < |work| && j != i ==> next.phases[j] == w.phases[j]
  }

  ghost predicate Execution(work: Work, trace: seq<World>)
  {
    && trace != [] && Initial(work, trace[0])
    && (forall k :: 0 <= k < |trace| ==> |trace[k].phases| == |work|)
    && (forall k :: 0 <= k < |trace| - 1 ==> Step(work, trace[k], trace[k + 1]))
  }

  // ----- what every step keeps

  /** Logs only grow at the end. */
  ghost predicate Extends(before: Logs, after: Logs)
  {
    forall base :: base in before ==> base in after && before[base] <= after[base]
  }

  /** A returned record is in the log the worker was asked about; a predecessor a worker saw is too. */
  ghost predicate Grounded(base: Key, logs: Logs, p: Phase)
  {
    match p
    case Returned(r) => r in LogOf(logs, base)
    case Ready(now, Of(r)) => r in LogOf(logs, base) && r.reusableUntil <= now
    case Evaluated(Of(r), record) => r in LogOf(logs, base)
    case _ => true
  }

  ghost predicate Sound(work: Work, w: World)
  {
    && ValidLogs(w.logs) && |w.phases| == |work|
    && (forall i :: 0 <= i < |work| ==> work[i].predecessor == NoDigest && Grounded(work[i], w.logs, w.phases[i]))
  }

  lemma {:induction false} CommitExtends(logs: Logs, base: Key, expected: Digest, record: Record)
    ensures Extends(logs, AfterCommit(logs, base, expected, record))
    ensures var o := CommitOutcome(logs, base, expected, record);
            && (o.Committed? ==> o.record in LogOf(AfterCommit(logs, base, expected, record), base))
            && (o.Kept? ==> o.winner in LogOf(AfterCommit(logs, base, expected, record), base))
  {
    hide ValidRecord, Follows;
  }

  lemma {:induction false} GroundedLater(base: Key, before: Logs, after: Logs, p: Phase)
    requires Grounded(base, before, p) && Extends(before, after)
    ensures Grounded(base, after, p)
  {
    assert LogOf(before, base) <= LogOf(after, base);
  }

  lemma {:induction false} WorkerKeeps(base: Key, logs: Logs, p: Phase, after: Logs, next: Phase)
    requires ValidLogs(logs) && Grounded(base, logs, p) && WorkerStep(base, logs, p, after, next)
    ensures ValidLogs(after) && Extends(logs, after) && Grounded(base, after, next)
  {
    hide ValidLogs, IsChain, ValidRecord, Follows, CommitOutcome, AfterCommit;
    if p.Evaluated? {
      CommitKeepsChains(logs, base, p.expected, p.record);
      CommitExtends(logs, base, p.expected, p.record);
      GroundedLater(base, logs, after, p);
    }
  }

  lemma {:induction false} StepKeeps(work: Work, w: World, next: World)
    requires Sound(work, w) && Step(work, w, next)
    ensures Sound(work, next) && Extends(w.logs, next.logs)
  {
    hide ValidLogs, Grounded, WorkerStep, Extends;
    var i :| 0 <= i < |work| && WorkerStep(work[i], w.logs, w.phases[i], next.logs, next.phases[i])
             && forall j :: 0 <= j < |work| && j != i ==> next.phases[j] == w.phases[j];
    WorkerKeeps(work[i], w.logs, w.phases[i], next.logs, next.phases[i]);
    forall j | 0 <= j < |work| && j != i
      ensures Grounded(work[j], next.logs, next.phases[j])
    {
      GroundedLater(work[j], w.logs, next.logs, w.phases[j]);
    }
  }

  // ----- every interleaving

  lemma {:induction false} AlwaysSound(work: Work, trace: seq<World>, k: nat)
    requires Execution(work, trace) && k < |trace|
    ensures Sound(work, trace[k])
    decreases k
  {
    if k > 0 {
      AlwaysSound(work, trace, k - 1);
      assert Step(work, trace[k - 1], trace[k - 1 + 1]);
      StepKeeps(work, trace[k - 1], trace[k]);
    }
  }

  /** In every interleaving the ledger is append-only: no record changes or disappears. */
  lemma {:induction false} AppendOnly(work: Work, trace: seq<World>, j: nat, k: nat)
    requires Execution(work, trace) && j <= k < |trace|
    ensures Extends(trace[j].logs, trace[k].logs)
    decreases k
  {
    if j < k {
      AppendOnly(work, trace, j, k - 1);
      AlwaysSound(work, trace, k - 1);
      assert Step(work, trace[k - 1], trace[k - 1 + 1]);
      StepKeeps(work, trace[k - 1], trace[k]);
      forall base | base in trace[j].logs
        ensures base in trace[k].logs && trace[j].logs[base] <= trace[k].logs[base]
      {
        assert trace[j].logs[base] <= trace[k - 1].logs[base] <= trace[k].logs[base];
      }
    }
  }

  /** In every interleaving each base key has one chain: linked by predecessor hashes, with windows
      that do not overlap. */
  lemma {:induction false} ChainsAlways(work: Work, trace: seq<World>, k: nat, base: Key, i: nat, j: nat)
    requires Execution(work, trace) && k < |trace| && base in trace[k].logs && i < j < |trace[k].logs[base]|
    ensures var log := trace[k].logs[base];
            log[j].predecessor == Of(log[j - 1]) && log[i].reusableUntil <= log[j].createdAt
              && KeyOf(log[i]) != KeyOf(log[j])
  {
    AlwaysSound(work, trace, k);
    hide Step, Follows, ValidRecord;
    Linked(base, trace[k].logs[base], j);
    WindowsDisjoint(base, trace[k].logs[base], i, j);
    KeysDistinct(base, trace[k].logs[base], i, j);
  }

  /** In every interleaving, of all the workers that saw one head, one commits a successor at most:
      two records with the same predecessor, whenever they were seen, are the same record. */
  lemma {:induction false} OneSuccessorEver(work: Work, trace: seq<World>, j: nat, k: nat, base: Key, other: Key,
                                            r: Record, s: Record)
    requires Execution(work, trace) && j <= k < |trace|
    requires r in LogOf(trace[j].logs, base) && s in LogOf(trace[k].logs, other)
    requires r.predecessor == s.predecessor != NoDigest
    ensures r == s && base == other
  {
    AppendOnly(work, trace, j, k);
    AlwaysSound(work, trace, k);
    hide Step, Execution, Follows, ValidRecord;
    assert LogOf(trace[j].logs, base) <= LogOf(trace[k].logs, base);
    var a :| 0 <= a < |trace[k].logs[base]| && trace[k].logs[base][a] == r;
    var b :| 0 <= b < |trace[k].logs[other]| && trace[k].logs[other][b] == s;
    OneSuccessor(trace[k].logs, base, other, a, b);
  }

  /** Two workers asked about one base key, answered at any two moments with records whose windows
      cover a common instant, were given the same record. */
  lemma {:induction false} SameInstantSameRecord(work: Work, trace: seq<World>, j: nat, k: nat, a: nat, b: nat,
                                                 now: int)
    requires Execution(work, trace) && j <= k < |trace| && a < |work| && b < |work| && work[a] == work[b]
    requires trace[j].phases[a].Returned? && trace[k].phases[b].Returned?
    requires trace[j].phases[a].record.createdAt <= now < trace[j].phases[a].record.reusableUntil
    requires trace[k].phases[b].record.createdAt <= now < trace[k].phases[b].record.reusableUntil
    ensures trace[j].phases[a].record == trace[k].phases[b].record
  {
    AppendOnly(work, trace, j, k);
    AlwaysSound(work, trace, j);
    AlwaysSound(work, trace, k);
    hide Step, Execution, Follows, ValidRecord;
    var base := work[a];
    var r, s := trace[j].phases[a].record, trace[k].phases[b].record;
    assert Grounded(base, trace[j].logs, trace[j].phases[a]) && Grounded(base, trace[k].logs, trace[k].phases[b]);
    assert LogOf(trace[j].logs, base) <= LogOf(trace[k].logs, base);
    var x :| 0 <= x < |trace[k].logs[base]| && trace[k].logs[base][x] == r;
    var y :| 0 <= y < |trace[k].logs[base]| && trace[k].logs[base][y] == s;
    OneWindow(base, trace[k].logs[base], x, y, now);
  }

  // ----- progress

  /** What a worker that saw `expected` at the time `now` can have come to. */
  ghost predicate Carries(base: Key, now: int, expected: Digest, p: Phase)
  {
    match p
    case Ready(t, e) => t == now && e == expected
    case Evaluated(e, record) => e == expected && ValidRecord(record) && Builds(base, now, expected, record)
    case Returned(_) => true
    case Stopped => true
    case _ => false
  }

  lemma {:induction false} StepCarries(work: Work, w: World, next: World, i: nat, now: int, expected: Digest)
    requires |w.phases| == |work| && Step(work, w, next) && i < |work|
    requires Carries(work[i], now, expected, w.phases[i])
    ensures Carries(work[i], now, expected, next.phases[i])
  {
    hide ValidRecord, AfterCommit, CommitOutcome;
  }

  lemma {:induction false} CarriesOn(work: Work, trace: seq<World>, j: nat, k: nat, i: nat, now: int, expected: Digest)
    requires Execution(work, trace) && j <= k < |trace| && i < |work|
    requires Carries(work[i], now, expected, trace[j].phases[i])
    ensures Carries(work[i], now, expected, trace[k].phases[i])
    decreases k
  {
    hide Carries, Step;
    if j < k {
      CarriesOn(work, trace, j, k - 1, i, now, expected);
      assert Step(work, trace[k - 1], trace[k - 1 + 1]);
      StepCarries(work, trace[k - 1], trace[k], i, now, expected);
    }
  }

  /** In every interleaving: a worker that found no reusable judgment at step j, and on whose key
      nothing was committed until its own commit at step k, appends its record there. */
  lemma {:induction false} CommitLands(work: Work, trace: seq<World>, j: nat, k: nat, i: nat)
    requires Execution(work, trace) && j < k < |trace| - 1 && i < |work|
    requires trace[j].phases[i].Missed? && trace[j + 1].phases[i].Ready?
    requires LogOf(trace[j].logs, work[i]) == LogOf(trace[k].logs, work[i])
    requires trace[k].phases[i].Evaluated? && trace[k + 1].phases[i] != trace[k].phases[i]
    ensures var record := trace[k].phases[i].record;
            && LogOf(trace[k + 1].logs, work[i]) == LogOf(trace[k].logs, work[i]) + [record]
            && record.createdAt == trace[j].phases[i].now
            && (trace[k + 1].phases[i] == Returned(record) || trace[k + 1].phases[i] == Stopped)
  {
    var base, log := work[i], LogOf(trace[j].logs, work[i]);
    var now, expected := trace[j].phases[i].now, trace[j + 1].phases[i].expected;
    assert Step(work, trace[j], trace[j + 1]) && Step(work, trace[k], trace[k + 1]);
    ReadyMeans(work, trace[j], trace[j + 1], i);
    CarriesOn(work, trace, j + 1, k, i, now, expected);
    AlwaysSound(work, trace, 0);
    hide Step, Execution;
    CommitStepLands(work, trace[k], trace[k + 1], i);
  }

  /** A worker goes on to evaluate only on what it saw: no head, or one whose window has ended. */
  lemma {:induction false} ReadyMeans(work: Work, w: World, next: World, i: nat)
    requires |w.phases| == |work| && Step(work, w, next) && i < |work|
    requires w.phases[i].Missed? && next.phases[i].Ready?
    ensures next.phases[i].now == w.phases[i].now && next.phases[i].expected == HeadDigest(LogOf(w.logs, work[i]))
    ensures LogOf(w.logs, work[i]) != [] ==> Last(LogOf(w.logs, work[i])).reusableUntil <= w.phases[i].now
  {
    hide ValidRecord, AfterCommit, CommitOutcome;
  }

  /** A worker looks further only when nothing was reusable at its time, and is answered later only
      with a head that still is. */
  lemma {:induction false} MissMeans(work: Work, w: World, next: World, i: nat)
    requires |w.phases| == |work| && Step(work, w, next) && i < |work|
    ensures w.phases[i].Starting? && next.phases[i].Missed? ==>
              var log, now := LogOf(w.logs, work[i]), next.phases[i].now;
              log == [] || now == 0 || Last(log).reusableUntil <= now
    ensures w.phases[i].Missed? && next.phases[i].Returned? ==>
              var log := LogOf(w.logs, work[i]);
              log != [] && next.phases[i].record == Last(log) && w.phases[i].now < Last(log).reusableUntil
  {
    hide ValidRecord, AfterCommit, CommitOutcome;
  }

  lemma {:induction false} CommitStepLands(work: Work, w: World, next: World, i: nat)
    requires |w.phases| == |work| && Step(work, w, next) && i < |work| && work[i].predecessor == NoDigest
    requires w.phases[i].Evaluated? && next.phases[i] != w.phases[i]
    requires var p, log := w.phases[i], LogOf(w.logs, work[i]);
             && ValidRecord(p.record) && Builds(work[i], p.record.createdAt, p.expected, p.record)
             && p.expected == HeadDigest(log) && (log != [] ==> Last(log).reusableUntil <= p.record.createdAt)
    ensures var record := w.phases[i].record;
            && LogOf(next.logs, work[i]) == LogOf(w.logs, work[i]) + [record]
            && (next.phases[i] == Returned(record) || next.phases[i] == Stopped)
  {
    hide ValidRecord;
    assert WorkerStep(work[i], w.logs, w.phases[i], next.logs, next.phases[i]);
  }
}
