/** What the conflict test keeps apart and what it lets run side by side, and what that means for the
groups of a schedule. */
module ConflictLaws {
  import opened Identifiers
  import opened Digraph
  import opened Planning
  import opened ParallelSchedule

  predicate Touches(f: ParallelFacts, id: Id)
  {
    id in f.readIds || id in f.writeIds || id in f.exclusiveIds
  }

  predicate OnlyReads(f: ParallelFacts, id: Id)
  {
    id !in f.writeIds && id !in f.exclusiveIds
  }

  /** It must run alone. */
  predicate Solitary(f: ParallelFacts)
  {
    f.compensationBoundary || f.policySerial
  }

  /** Two procedures are kept apart exactly when one must run alone, both hold one mutex key, or both
      touch something that one of them does more than read. */
  lemma {:induction false} ConflictExactly(l: ParallelFacts, r: ParallelFacts)
    ensures Conflict(l, r) <==>
            || Solitary(l) || Solitary(r)
            || (exists key :: key in l.mutexKeys && key in r.mutexKeys)
            || (exists id :: Touches(l, id) && Touches(r, id) && !(OnlyReads(l, id) && OnlyReads(r, id)))
  {
    if id :| Touches(l, id) && Touches(r, id) && !(OnlyReads(l, id) && OnlyReads(r, id)) {
      assert id in l.readIds || id in l.writeIds || id in l.exclusiveIds;
      SharedIsConflict(l, r, id);
    }
    if Conflict(l, r) && !Solitary(l) && !Solitary(r) && !Share(l.mutexKeys, r.mutexKeys) {
      ConflictIsShared(l, r);
    }
  }

  lemma {:induction false} SharedIsConflict(l: ParallelFacts, r: ParallelFacts, id: Id)
    requires Touches(l, id) && Touches(r, id) && !(OnlyReads(l, id) && OnlyReads(r, id))
    ensures Conflict(l, r)
  {
    assert id in l.writeIds && id in r.readIds ==> Share(l.writeIds, r.readIds);
    assert id in l.writeIds && id in r.writeIds ==> Share(l.writeIds, r.writeIds);
    assert id in r.writeIds && id in l.readIds ==> Share(r.writeIds, l.readIds);
    assert id in l.exclusiveIds && id in r.readIds ==> Share(l.exclusiveIds, r.readIds);
    assert id in l.exclusiveIds && id in r.writeIds ==> Share(l.exclusiveIds, r.writeIds);
    assert id in l.exclusiveIds && id in r.exclusiveIds ==> Share(l.exclusiveIds, r.exclusiveIds);
    assert id in r.exclusiveIds && id in l.readIds ==> Share(r.exclusiveIds, l.readIds);
    assert id in r.exclusiveIds && id in l.writeIds ==> Share(r.exclusiveIds, l.writeIds);
    hide Share;
  }

  lemma {:induction false} ConflictIsShared(l: ParallelFacts, r: ParallelFacts)
    requires Conflict(l, r) && !Solitary(l) && !Solitary(r) && !Share(l.mutexKeys, r.mutexKeys)
    ensures exists id :: Touches(l, id) && Touches(r, id) && !(OnlyReads(l, id) && OnlyReads(r, id))
  {
    if Share(l.writeIds, r.readIds) {
      var id :| id in l.writeIds && id in r.readIds;
      assert Touches(l, id) && Touches(r, id);
    } else if Share(l.writeIds, r.writeIds) {
      var id :| id in l.writeIds && id in r.writeIds;
      assert Touches(l, id) && Touches(r, id);
    } else if Share(r.writeIds, l.readIds) {
      var id :| id in r.writeIds && id in l.readIds;
      assert Touches(l, id) && Touches(r, id);
    } else if Share(l.exclusiveIds, r.readIds) {
      var id :| id in l.exclusiveIds && id in r.readIds;
      assert Touches(l, id) && Touches(r, id);
    } else if Share(l.exclusiveIds, r.writeIds) {
      var id :| id in l.exclusiveIds && id in r.writeIds;
      assert Touches(l, id) && Touches(r, id);
    } else if Share(l.exclusiveIds, r.exclusiveIds) {
      var id :| id in l.exclusiveIds && id in r.exclusiveIds;
      assert Touches(l, id) && Touches(r, id);
    } else if Share(r.exclusiveIds, l.readIds) {
      var id :| id in r.exclusiveIds && id in l.readIds;
      assert Touches(l, id) && Touches(r, id);
    } else {
      var id :| id in r.exclusiveIds && id in l.writeIds;
      assert Touches(l, id) && Touches(r, id);
    }
  }

  /** Procedures that only read never keep each other apart. */
  lemma {:induction false} ReadersTogether(l: ParallelFacts, r: ParallelFacts)
    requires !Solitary(l) && !Solitary(r) && l.mutexKeys == [] && l.writeIds == [] && l.exclusiveIds == []
    requires r.writeIds == [] && r.exclusiveIds == []
    ensures !Conflict(l, r)
  {
    ConflictExactly(l, r);
    hide Conflict;
  }

  // ----- in a schedule

  /** A procedure that must run alone has a group to itself. */
  lemma {:induction false} SolitaryAlone(groups: seq<seq<Id>>, where: map<Id, nat>, order: seq<Id>, arcs: seq<Arc>,
                                         facts: map<Id, ParallelFacts>, v: Id)
    requires Scheduled(groups, where, order, arcs, facts) && v in order && v in facts && Solitary(facts[v])
    ensures v in where && where[v] < |groups| && groups[where[v]] == [v]
  {
    assert v in Elements(order);
    var group := groups[where[v]];
    forall x | x in group
      ensures x == v
    {
      AloneHere(groups, where, facts, x, v);
    }
    hide Scheduled, Conflict;
    assert group[0] in group;
    assert |group| >= 2 ==> group[1] in group;
    OnePlace(groups, where, v);
  }

  lemma {:induction false} AloneHere(groups: seq<seq<Id>>, where: map<Id, nat>, facts: map<Id, ParallelFacts>, x: Id,
                                     v: Id)
    requires Placed(groups, where) && ConflictFree(groups, facts) && v in where && v in facts && Solitary(facts[v])
    requires x in groups[where[v]]
    ensures x == v
  {
    assert PairwiseFree(groups[where[v]], facts);
    assert forall f :: Conflict(f, facts[v]);
  }

  lemma {:induction false} OnePlace(groups: seq<seq<Id>>, where: map<Id, nat>, v: Id)
    requires Placed(groups, where) && v in where
    ensures NoDuplicates(groups[where[v]]) && groups[where[v]] != []
  {
  }

  lemma {:induction false} TogetherFree(groups: seq<seq<Id>>, where: map<Id, nat>, facts: map<Id, ParallelFacts>, v: Id,
                                        w: Id)
    requires Placed(groups, where) && ConflictFree(groups, facts) && v in where && w in where && v != w
    ensures where[v] == where[w] ==> v in facts && w in facts && !Conflict(facts[v], facts[w])
  {
    assert PairwiseFree(groups[where[v]], facts);
  }

  /** Holders of one mutex key, and procedures one of which changes what the other touches, are in
      different groups. */
  lemma {:induction false} HoldersApart(groups: seq<seq<Id>>, where: map<Id, nat>, order: seq<Id>, arcs: seq<Arc>,
                                        facts: map<Id, ParallelFacts>, v: Id, w: Id, id: Id)
    requires Scheduled(groups, where, order, arcs, facts) && v in order && w in order && v != w && v in facts
             && w in facts
    requires || (id in facts[v].mutexKeys && id in facts[w].mutexKeys)
             || (Touches(facts[v], id) && Touches(facts[w], id)
                 && !(OnlyReads(facts[v], id) && OnlyReads(facts[w], id)))
    ensures v in where && w in where && where[v] != where[w]
  {
    assert v in Elements(order) && w in Elements(order);
    ConflictExactly(facts[v], facts[w]);
    TogetherFree(groups, where, facts, v, w);
    hide Conflict;
  }

  /** A procedure without prerequisites that conflicts with no earlier one runs in the first group. */
  lemma {:induction false} FreeRunsFirst(groups: seq<seq<Id>>, where: map<Id, nat>, order: seq<Id>, arcs: seq<Arc>,
                                         facts: map<Id, ParallelFacts>, j: nat)
    requires Scheduled(groups, where, order, arcs, facts) && j < |order| && forall v :: v in order ==> v in facts
    requires forall a :: a in arcs ==> a.target != order[j]
    requires forall i :: 0 <= i < j ==> !Conflict(facts[order[i]], facts[order[j]])
    ensures order[j] in where && where[order[j]] == 0
  {
    assert order[j] in Elements(order);
    hide Conflict;
    assert !Blocked(groups, where, order, arcs, facts, j, 0);
    hide Blocked;
  }
}
