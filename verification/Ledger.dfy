/** The judgment ledger: per tenant and base key, an append-only chain of records linked by the
hash of the record before, each reusable for a window of time.

A content hash stands for the content it is the hash of, and a key for the input it is the hash
of, so that equal hashes mean equal contents. */
module Ledger {
  import opened Identifiers

  datatype Digest = NoDigest | Of(record: Record)

  datatype Record = Record(tenant: Id, base: Id, predecessor: Digest, judgment: Id, createdAt: int, reusableUntil: int)

  /** A judgment key; the base key is the one without a predecessor. */
  datatype Key = Key(tenant: Id, base: Id, predecessor: Digest)

  const YEAR: int := 365 * 24 * 60 * 60 * 1000000000

  function KeyOf(r: Record): (k: Key)
  {
    Key(r.tenant, r.base, r.predecessor)
  }

  function BaseKeyOf(r: Record): (k: Key)
  {
    Key(r.tenant, r.base, NoDigest)
  }

  predicate ValidRecord(r: Record)
  {
    r.createdAt != 0 && r.createdAt < r.reusableUntil <= r.createdAt + YEAR
  }

  // ----- the ledger as a log per base key

  type Log = seq<Record>

  type Logs = map<Key, Log>

  function LogOf(logs: Logs, base: Key): (log: Log)
  {
    if base in logs then logs[base] else []
  }

  function Last(log: Log): (r: Record)
    requires log != []
  {
    log[|log| - 1]
  }

  function HeadDigest(log: Log): (d: Digest)
  {
    if log == [] then NoDigest else Of(Last(log))
  }

  /** The record may follow the head of its log. */
  predicate Follows(log: Log, record: Record)
  {
    record.predecessor == HeadDigest(log) && (log != [] ==> Last(log).reusableUntil <= record.createdAt)
  }

  /** One chain: each record names the one before it and starts when that one's window is over. */
  predicate IsChain(base: Key, log: Log)
  {
    base.predecessor == NoDigest
      && forall i :: 0 <= i < |log| ==> ValidRecord(log[i]) && BaseKeyOf(log[i]) == base && Follows(log[..i], log[i])
  }

  lemma {:induction false} Linked(base: Key, log: Log, i: nat)
    requires IsChain(base, log) && i < |log|
    ensures ValidRecord(log[i]) && BaseKeyOf(log[i]) == base
    ensures i == 0 <==> log[i].predecessor == NoDigest
    ensures i > 0 ==> log[i].predecessor == Of(log[i - 1]) && log[i - 1].reusableUntil <= log[i].createdAt
  {
    assert Follows(log[..i], log[i]);
    assert i > 0 ==> Last(log[..i]) == log[i - 1];
  }

  predicate ValidLogs(logs: Logs)
  {
    forall base :: base in logs ==> logs[base] != [] && IsChain(base, logs[base])
  }

  datatype Outcome = Committed(record: Record) | Kept(winner: Record) | InvalidJudgment

  /** What a commit answers. */
  function CommitOutcome(logs: Logs, base: Key, expected: Digest, record: Record): (o: Outcome)
  {
    var log := LogOf(logs, base);
    if !ValidRecord(record) || BaseKeyOf(record) != base || record.predecessor != expected then InvalidJudgment
    else if Follows(log, record) then Committed(record)
    else if log != [] then Kept(Last(log))
    else InvalidJudgment
  }

  function AfterCommit(logs: Logs, base: Key, expected: Digest, record: Record): (after: Logs)
  {
    if CommitOutcome(logs, base, expected, record).Committed? then logs[base := LogOf(logs, base) + [record]] else logs
  }

  // ----- chains

  /** Windows along a chain do not overlap. */
  lemma {:induction false} WindowsDisjoint(base: Key, log: Log, i: nat, j: nat)
    requires IsChain(base, log) && i < j < |log|
    ensures log[i].reusableUntil <= log[j].createdAt
    decreases j
  {
    Linked(base, log, j);
    if i < j - 1 {
      WindowsDisjoint(base, log, i, j - 1);
      Linked(base, log, j - 1);
    }
  }

  /** The records of a chain are different, and so are their keys. */
  lemma {:induction false} KeysDistinct(base: Key, log: Log, i: nat, j: nat)
    requires IsChain(base, log) && i < j < |log|
    ensures log[i] != log[j] && KeyOf(log[i]) != KeyOf(log[j])
  {
    WindowsDisjoint(base, log, i, j);
    Linked(base, log, i);
    Linked(base, log, j);
    if i > 0 {
      WindowsDisjoint(base, log, i - 1, j - 1);
      Linked(base, log, i - 1);
    }
  }

  /** At any instant one record of a chain at most is within its window. */
  lemma {:induction false} OneWindow(base: Key, log: Log, i: nat, j: nat, now: int)
    requires IsChain(base, log) && i < |log| && j < |log|
    requires log[i].createdAt <= now < log[i].reusableUntil && log[j].createdAt <= now < log[j].reusableUntil
    ensures i == j
  {
    if i < j {
      WindowsDisjoint(base, log, i, j);
    } else if j < i {
      WindowsDisjoint(base, log, j, i);
    }
  }

  lemma {:induction false} SamePredecessor(base: Key, log: Log, other: Key, second: Log, i: nat, j: nat)
    requires IsChain(base, log) && IsChain(other, second) && i < |log| && j < |second|
    requires log[i].predecessor == second[j].predecessor != NoDigest
    ensures 0 < i && 0 < j && log[i - 1] == second[j - 1]
  {
    hide IsChain, ValidRecord;
    Linked(base, log, i);
    Linked(other, second, j);
  }

  lemma {:induction false} SameRecordSameBase(base: Key, log: Log, other: Key, second: Log, i: nat, j: nat)
    requires IsChain(base, log) && IsChain(other, second) && i < |log| && j < |second| && log[i] == second[j]
    ensures base == other
  {
    hide IsChain, ValidRecord;
    Linked(base, log, i);
    Linked(other, second, j);
  }

  lemma {:induction false} SamePlace(base: Key, log: Log, i: nat, j: nat)
    requires IsChain(base, log) && i < |log| && j < |log| && log[i] == log[j]
    ensures i == j
  {
    hide IsChain, ValidRecord;
    if i < j {
      KeysDistinct(base, log, i, j);
    } else if j < i {
      KeysDistinct(base, log, j, i);
    }
  }

  /** A record has one successor at most, in the whole ledger. */
  lemma {:induction false} OneSuccessor(logs: Logs, base: Key, other: Key, i: nat, j: nat)
    requires ValidLogs(logs) && base in logs && other in logs && i < |logs[base]| && j < |logs[other]|
    requires logs[base][i].predecessor == logs[other][j].predecessor != NoDigest
    ensures base == other && i == j
  {
    hide IsChain;
    var log, second := logs[base], logs[other];
    SamePredecessor(base, log, other, second, i, j);
    SameRecordSameBase(base, log, other, second, i - 1, j - 1);
    SamePlace(base, log, i - 1, j - 1);
  }

  lemma {:induction false} AppendChains(base: Key, log: Log, record: Record)
    requires IsChain(base, log) && ValidRecord(record) && BaseKeyOf(record) == base && Follows(log, record)
    ensures IsChain(base, log + [record])
  {
    var longer := log + [record];
    forall i | 0 <= i < |longer|
      ensures ValidRecord(longer[i]) && BaseKeyOf(longer[i]) == base && Follows(longer[..i], longer[i])
    {
      if i < |log| {
        assert longer[..i] == log[..i] && longer[i] == log[i];
      } else {
        assert longer[..i] == log;
      }
    }
  }

  lemma {:induction false} CommitKeepsChains(logs: Logs, base: Key, expected: Digest, record: Record)
    requires ValidLogs(logs)
    ensures ValidLogs(AfterCommit(logs, base, expected, record))
  {
    if CommitOutcome(logs, base, expected, record).Committed? {
      AppendChains(base, LogOf(logs, base), record);
    }
  }

  // ----- the two maps that hold the ledger

  /** The records are those of the logs, under their keys. */
  ghost predicate Indexed(logs: Logs, records: map<Key, Record>)
  {
    && (forall base, r :: base in logs && r in logs[base] ==> KeyOf(r) in records && records[KeyOf(r)] == r)
    && (forall k :: k in records ==> KeyOf(records[k]) == k && records[k] in LogOf(logs, BaseKeyOf(records[k])))
  }

  /** The heads are the keys of the last records. */
  ghost predicate Headed(logs: Logs, heads: map<Key, Key>)
  {
    heads.Keys == logs.Keys
      && forall base :: base in heads ==> logs[base] != [] && heads[base] == KeyOf(Last(logs[base]))
  }

  /** Where a lookup of a base key ends up: at the last record of its log, or nowhere. */
  lemma {:induction false} HeadRecord(logs: Logs, records: map<Key, Record>, heads: map<Key, Key>, base: Key)
    requires ValidLogs(logs) && Indexed(logs, records) && Headed(logs, heads) && base.predecessor == NoDigest
    ensures var key := if base in heads then heads[base] else base;
            && (key in records <==> LogOf(logs, base) != [])
            && (key in records ==> records[key] == Last(LogOf(logs, base)) && ValidRecord(records[key]))
  {
    hide ValidRecord, Follows;
    if base in heads {
      assert Last(logs[base]) in logs[base];
      Linked(base, logs[base], |logs[base]| - 1);
    } else {
      assert base in records ==> BaseKeyOf(records[base]) == base;
    }
  }

  /** A record that follows the head has a key of its own. */
  lemma {:induction false} NewKey(logs: Logs, records: map<Key, Record>, base: Key, record: Record)
    requires ValidLogs(logs) && Indexed(logs, records)
    requires BaseKeyOf(record) == base && record.predecessor == HeadDigest(LogOf(logs, base))
    ensures KeyOf(record) !in records
  {
    hide ValidRecord, Follows;
    var log := LogOf(logs, base);
    forall i | 0 <= i < |log|
      ensures KeyOf(log[i]) != KeyOf(record)
    {
      NotBefore(base, log, i);
    }
  }

  lemma {:induction false} NotBefore(base: Key, log: Log, i: nat)
    requires IsChain(base, log) && i < |log|
    ensures log[i].predecessor != Of(Last(log))
  {
    Linked(base, log, i);
    if 0 < i {
      KeysDistinct(base, log, i - 1, |log| - 1);
    }
  }

  lemma {:induction false} AppendIndexed(logs: Logs, records: map<Key, Record>, record: Record)
    requires Indexed(logs, records) && KeyOf(record) !in records
    ensures Indexed(logs[BaseKeyOf(record) := LogOf(logs, BaseKeyOf(record)) + [record]],
                    records[KeyOf(record) := record])
  {
    var base := BaseKeyOf(record);
    var after, held := logs[base := LogOf(logs, base) + [record]], records[KeyOf(record) := record];
    forall b, r | b in after && r in after[b]
      ensures KeyOf(r) in held && held[KeyOf(r)] == r
    {
      assert r == record || (b in logs && r in logs[b]);
    }
    forall k | k in held
      ensures KeyOf(held[k]) == k && held[k] in LogOf(after, BaseKeyOf(held[k]))
    {
      assert k == KeyOf(record) || (k in records && held[k] == records[k]);
    }
  }

  lemma {:induction false} AppendHeaded(logs: Logs, heads: map<Key, Key>, base: Key, record: Record)
    requires Headed(logs, heads)
    ensures Headed(logs[base := LogOf(logs, base) + [record]], heads[base := KeyOf(record)])
  {
  }

  datatype Lookup = Found(record: Record) | NotFound

  function BaseOf(k: Key): (base: Key)
  {
    Key(k.tenant, k.base, NoDigest)
  }

  /** What a key stands for: a base key for the last record of its log, any other key for the record stored under it. */
  ghost predicate IsCurrent(logs: Logs, key: Key, r: Lookup)
  {
    var log := LogOf(logs, BaseOf(key));
    if key.predecessor == NoDigest then r == if log == [] then NotFound else Found(Last(log))
    else if r.Found? then r.record in log && KeyOf(r.record) == key
    else forall x :: x in log ==> KeyOf(x) != key
  }

  /** The record a key leads to through the heads, if it is stored and valid. */
  function Held(records: map<Key, Record>, heads: map<Key, Key>, key: Key): (r: Lookup)
  {
    var at := if key in heads then heads[key] else key;
    if at !in records || !ValidRecord(records[at]) then NotFound else Found(records[at])
  }

  lemma {:induction false} CurrentRecord(logs: Logs, records: map<Key, Record>, heads: map<Key, Key>, key: Key)
    requires ValidLogs(logs) && Indexed(logs, records) && Headed(logs, heads)
    ensures IsCurrent(logs, key, Held(records, heads, key))
  {
    if key.predecessor == NoDigest {
      HeadRecord(logs, records, heads, key);
      assert BaseOf(key) == key;
    } else {
      assert key !in heads;
      if key in records {
        StoredValid(logs, records, key);
      }
    }
  }

  lemma {:induction false} StoredValid(logs: Logs, records: map<Key, Record>, key: Key)
    requires ValidLogs(logs) && Indexed(logs, records) && key in records
    ensures ValidRecord(records[key]) && records[key] in LogOf(logs, BaseOf(key)) && KeyOf(records[key]) == key
  {
    hide ValidRecord, Follows;
    var log := LogOf(logs, BaseOf(key));
    assert BaseKeyOf(records[key]) == BaseOf(key);
    var i :| 0 <= i < |log| && log[i] == records[key];
    Linked(BaseOf(key), log, i);
  }

  /** A record that may be committed under the base key when `expected` is taken for its head. */
  predicate Submittable(base: Key, expected: Digest, record: Record)
  {
    && record.createdAt != 0 && record.createdAt < record.reusableUntil
    && record.reusableUntil - record.createdAt <= 365 * 24 * 3600 * 1000000000
    && record.tenant == base.tenant && record.base == base.base && base.predecessor == NoDigest
    && record.predecessor == expected
  }

  /** What a commit does to the current record of its key. It succeeds exactly when nothing is current and nothing
      was expected, or when the current record was expected and its window has ended; otherwise the
      current record stays, and answers the commit if the commit was in order. */
  predicate Commits(base: Key, expected: Digest, record: Record, held: Lookup, o: Outcome, now: Lookup)
  {
    && (o.Committed? <==>
          && Submittable(base, expected, record)
          && (held.NotFound? ==> expected == NoDigest)
          && (held.Found? ==> expected == Of(held.record) && held.record.reusableUntil <= record.createdAt))
    && (o.Kept? <==>
          && Submittable(base, expected, record) && held.Found?
          && (expected != Of(held.record) || record.createdAt < held.record.reusableUntil))
    && (o.Committed? ==> o.record == record && now == Found(record))
    && (o.Kept? ==> Found(o.winner) == held)
    && (!o.Committed? ==> now == held)
  }

  /** Appending a record changes what its own base key leads to and no other chain. */
  lemma {:induction false} OthersStay(logs: Logs, records: map<Key, Record>, heads: map<Key, Key>, base: Key,
                                      record: Record)
    requires ValidLogs(logs) && Headed(logs, heads) && BaseKeyOf(record) == base && ValidRecord(record)
    ensures forall k: Key :: BaseOf(k) != base ==>
              Held(records[KeyOf(record) := record], heads[base := KeyOf(record)], k) == Held(records, heads, k)
    ensures Held(records[KeyOf(record) := record], heads[base := KeyOf(record)], base) == Found(record)
  {
    forall k: Key | BaseOf(k) != base
      ensures Held(records[KeyOf(record) := record], heads[base := KeyOf(record)], k) == Held(records, heads, k)
    {
      assert BaseOf(base) == base && BaseOf(KeyOf(record)) == base;
      if k in heads {
        Linked(k, logs[k], |logs[k]| - 1);
        assert BaseOf(heads[k]) == k;
      }
    }
  }

  lemma {:induction false} FollowsExactly(log: Log, record: Record)
    ensures Follows(log, record) <==>
            if log == [] then record.predecessor == NoDigest
            else record.predecessor == Of(Last(log)) && Last(log).reusableUntil <= record.createdAt
  {
  }

  lemma {:induction false} CommitMeans(logs: Logs, base: Key, expected: Digest, record: Record, held: Lookup)
    requires ValidLogs(logs) && IsCurrent(logs, base, held)
    ensures var o := CommitOutcome(logs, base, expected, record);
            Commits(base, expected, record, held, o, if o.Committed? then Found(record) else held)
  {
    assert BaseOf(base) == base || base.predecessor != NoDigest;
  }

  class MemoryRepository {
    var records: map<Key, Record>
    var heads: map<Key, Key>
    ghost var logs: Logs

    ghost predicate Valid()
      reads this
    {
      ValidLogs(logs) && Indexed(logs, records) && Headed(logs, heads)
    }

    constructor ()
      ensures Valid() && logs == map[]
    {
      records, heads, logs := map[], map[], map[];
    }

    /** Current: the head of a base key's chain, none for a chain that has not begun, and for the
        key of a successor that record. */
    function Current(key: Key): (r: Lookup)
      requires Valid()
      reads this
      ensures IsCurrent(logs, key, r)
      ensures r == Held(records, heads, key)
    {
      CurrentRecord(logs, records, heads, key);
      var at := if key in heads then heads[key] else key;
      if at !in records || !ValidRecord(records[at]) then NotFound else Found(records[at])
    }

    /** LookupReusable: that record, while its window lasts. */
    function LookupReusable(key: Key, now: int): (r: Lookup)
      requires Valid()
      reads this
      ensures r.Found? <==> now != 0 && Current(key).Found? && now < Current(key).record.reusableUntil
      ensures r.Found? ==> IsCurrent(logs, key, r)
    {
      if now == 0 then NotFound
      else
        match Current(key)
        case NotFound => NotFound
        case Found(record) => if now >= record.reusableUntil then NotFound else Found(record)
    }

    /** Commit: compare the expected predecessor with the head, then append. The refusal to
        overwrite another record never happens. */
    method Commit(base: Key, expected: Digest, record: Record) returns (o: Outcome)
      requires Valid()
      modifies this
      ensures Valid()
      ensures o == CommitOutcome(old(logs), base, expected, record)
      ensures logs == AfterCommit(old(logs), base, expected, record)
      ensures forall k :: k in old(records) ==> k in records && records[k] == old(records)[k]
      ensures Commits(base, expected, record, old(Current(base)), o, Current(base))
      ensures forall k: Key :: BaseOf(k) != base ==> Current(k) == old(Current(k))
    {
      hide ValidLogs, Indexed, Headed, ValidRecord, Commits, IsCurrent, Held, Follows;
      CommitMeans(logs, base, expected, record, Current(base));
      if !ValidRecord(record) || BaseKeyOf(record) != base || record.predecessor != expected {
        return InvalidJudgment;
      }
      HeadRecord(logs, records, heads, base);
      var currentKey := if base in heads then heads[base] else base;
      FollowsExactly(LogOf(logs, base), record);
      if currentKey in records {
        var current := records[currentKey];
        if Of(current) != expected || record.createdAt < current.reusableUntil {
          return Kept(current);
        }
      } else if expected != NoDigest {
        return InvalidJudgment;
      }
      var key := KeyOf(record);
      var overwrites := key in records && records[key] != record;
      NewKey(logs, records, base, record);
      CommitKeepsChains(logs, base, expected, record);
      AppendIndexed(logs, records, record);
      AppendHeaded(logs, heads, base, record);
      if overwrites {
        return InvalidJudgment;
      }
      OthersStay(logs, records, heads, base, record);
      records := records[key := record];
      heads := heads[base := key];
      logs := logs[base := LogOf(logs, base) + [record]];
      return Committed(record);
    }
  }
}
