/** What a schedule means: procedures as transformers of a resource store that touch
only what they declare, and when two orders of execution give the same store. */
module Execution {
  import opened Identifiers
  import opened Planning
  import opened ParallelSchedule

  datatype Cell<V> = Absent | Present(value: V)

  type Store<V> = map<Id, V>

  function At<V>(s: Store<V>, r: Id): (c: Cell<V>)
  {
    if r in s then Present(s[r]) else Absent
  }

  lemma {:induction false} StoreExtensional<V>(s: Store<V>, t: Store<V>)
    requires forall r: Id :: At(s, r) == At(t, r)
    ensures s == t
  {
    forall r
      ensures r in s <==> r in t
      ensures r in s && r in t ==> s[r] == t[r]
    {
      assert At(s, r) == At(t, r);
    }
  }

  /** An exclusive resource is both read and written. */
  function WriteSet(f: ParallelFacts): (ids: set<Id>)
  {
    Elements(f.writeIds) + Elements(f.exclusiveIds)
  }

  function ReadSet(f: ParallelFacts): (ids: set<Id>)
  {
    Elements(f.readIds) + Elements(f.exclusiveIds)
  }

  ghost predicate Agree<V>(s: Store<V>, t: Store<V>, ids: set<Id>)
  {
    forall r :: r in ids ==> At(s, r) == At(t, r)
  }

  /** The procedure changes only what it declares written, and what it writes there
      depends only on what it declares. */
  ghost predicate Respects<V(!new)>(run: (Id, Store<V>) -> Store<V>, v: Id, f: ParallelFacts)
  {
    && (forall s: Store<V>, r: Id :: r !in WriteSet(f) ==> At(run(v, s), r) == At(s, r))
    && (forall s: Store<V>, t: Store<V> :: Agree(s, t, ReadSet(f) + WriteSet(f)) ==>
            Agree(run(v, s), run(v, t), WriteSet(f)))
  }

  ghost predicate AllRespect<V(!new)>(run: (Id, Store<V>) -> Store<V>, nodes: set<Id>, facts: map<Id, ParallelFacts>)
  {
    forall v :: v in nodes ==> v in facts && Respects(run, v, facts[v])
  }

  /** The order of the two can show in the final store. */
  predicate Interferes(f: ParallelFacts, g: ParallelFacts)
  {
    || WriteSet(f) * WriteSet(g) != {}
    || (WriteSet(f) * ReadSet(g) != {} && WriteSet(g) != {})
    || (WriteSet(g) * ReadSet(f) != {} && WriteSet(f) != {})
  }

  /** What a procedure declares it may change, and what it declares it looks at; exclusive access is both. */
  predicate Changes(f: ParallelFacts, id: Id)
  {
    id in f.writeIds || id in f.exclusiveIds
  }

  predicate Looks(f: ParallelFacts, id: Id)
  {
    id in f.readIds || id in f.exclusiveIds
  }

  /** Two procedures interfere exactly when both change one thing, or one changes what the other looks at
      and the other changes anything. */
  lemma {:induction false} InterferenceExactly(f: ParallelFacts, g: ParallelFacts)
    ensures Interferes(f, g) <==>
            || (exists id :: Changes(f, id) && Changes(g, id))
            || ((exists id :: Changes(f, id) && Looks(g, id)) && exists id :: Changes(g, id))
            || ((exists id :: Changes(g, id) && Looks(f, id)) && exists id :: Changes(f, id))
  {
    AccessSets(f);
    AccessSets(g);
    hide WriteSet, ReadSet, Changes, Looks;
    Meet(WriteSet(f), WriteSet(g));
    Meet(WriteSet(f), ReadSet(g));
    Meet(WriteSet(g), ReadSet(f));
    Meet(WriteSet(f), WriteSet(f));
    Meet(WriteSet(g), WriteSet(g));
    assert WriteSet(f) * WriteSet(f) == WriteSet(f) && WriteSet(g) * WriteSet(g) == WriteSet(g);
  }

  lemma {:induction false} AccessSets(f: ParallelFacts)
    ensures forall id :: id in WriteSet(f) <==> Changes(f, id)
    ensures forall id :: id in ReadSet(f) <==> Looks(f, id)
  {
  }

  lemma {:induction false} Meet(a: set<Id>, b: set<Id>)
    ensures a * b != {} <==> exists id :: id in a && id in b
  {
    if id :| id in a && id in b {
      assert id in a * b;
    }
    if a * b != {} {
      var id :| id in a * b;
    }
  }

  /** A procedure within its declarations leaves alone what it does not declare it changes, and what it
      leaves where it changes something depends only on what it declares. */
  lemma {:induction false} DeclaredOnly<V(!new)>(run: (Id, Store<V>) -> Store<V>, v: Id, f: ParallelFacts, s: Store<V>,
                                                 t: Store<V>, id: Id)
    requires Respects(run, v, f)
    ensures !Changes(f, id) ==> At(run(v, s), id) == At(s, id)
    ensures (forall x :: Changes(f, x) || Looks(f, x) ==> At(s, x) == At(t, x)) && Changes(f, id) ==>
              At(run(v, s), id) == At(run(v, t), id)
  {
    AccessSets(f);
    hide WriteSet, ReadSet, Changes, Looks, At;
  }

  lemma {:induction false} InterferesSymmetric(f: ParallelFacts, g: ParallelFacts)
    ensures Interferes(f, g) == Interferes(g, f)
  {
    assert WriteSet(f) * WriteSet(g) == WriteSet(g) * WriteSet(f);
  }

  /** The scheduler's conflict test covers interference. */
  lemma {:induction false} InterferenceIsConflict(f: ParallelFacts, g: ParallelFacts)
    requires Interferes(f, g)
    ensures Conflict(f, g)
  {
    if x :| x in WriteSet(f) * WriteSet(g) {
      assert x in f.writeIds || x in f.exclusiveIds;
      assert x in g.writeIds || x in g.exclusiveIds;
    } else if x :| x in WriteSet(f) * ReadSet(g) {
      assert x in f.writeIds || x in f.exclusiveIds;
      assert x in g.readIds || x in g.exclusiveIds;
    } else {
      var x :| x in WriteSet(g) * ReadSet(f);
      assert x in g.writeIds || x in g.exclusiveIds;
      assert x in f.readIds || x in f.exclusiveIds;
    }
  }

  lemma {:induction false} NoWritesNoEffect<V(!new)>(run: (Id, Store<V>) -> Store<V>, v: Id, f: ParallelFacts,
                                                     s: Store<V>)
    requires Respects(run, v, f) && WriteSet(f) == {}
    ensures run(v, s) == s
  {
    forall r: Id
      ensures At(run(v, s), r) == At(s, r)
    {
      assert r !in WriteSet(f);
    }
    StoreExtensional(run(v, s), s);
  }

  /** Procedures that do not interfere commute. */
  lemma {:induction false} Commute<V(!new)>(run: (Id, Store<V>) -> Store<V>, u: Id, v: Id, f: ParallelFacts,
                                            g: ParallelFacts, s: Store<V>)
    requires Respects(run, u, f) && Respects(run, v, g) && !Interferes(f, g)
    ensures run(u, run(v, s)) == run(v, run(u, s))
  {
    if WriteSet(f) == {} {
      NoWritesNoEffect(run, u, f, s);
      NoWritesNoEffect(run, u, f, run(v, s));
    } else if WriteSet(g) == {} {
      NoWritesNoEffect(run, v, g, s);
      NoWritesNoEffect(run, v, g, run(u, s));
    } else {
      CommuteApart(run, u, v, f, g, s);
    }
  }

  lemma {:induction false} CommuteApart<V(!new)>(run: (Id, Store<V>) -> Store<V>, u: Id, v: Id, f: ParallelFacts,
                                                 g: ParallelFacts, s: Store<V>)
    requires Respects(run, u, f) && Respects(run, v, g)
    requires WriteSet(f) * WriteSet(g) == {} && WriteSet(f) * ReadSet(g) == {} && WriteSet(g) * ReadSet(f) == {}
    ensures run(u, run(v, s)) == run(v, run(u, s))
  {
    var left, right := run(u, run(v, s)), run(v, run(u, s));
    assert Agree(run(v, s), s, ReadSet(f) + WriteSet(f)) by {
      forall r | r in ReadSet(f) + WriteSet(f)
        ensures r !in WriteSet(g)
      {
        assert r in WriteSet(g) ==> r in WriteSet(g) * ReadSet(f) || r in WriteSet(f) * WriteSet(g);
      }
    }
    assert Agree(run(u, s), s, ReadSet(g) + WriteSet(g)) by {
      forall r | r in ReadSet(g) + WriteSet(g)
        ensures r !in WriteSet(f)
      {
        assert r in WriteSet(f) ==> r in WriteSet(f) * ReadSet(g) || r in WriteSet(f) * WriteSet(g);
      }
    }
    forall r
      ensures At(left, r) == At(right, r)
    {
      assert !(r in WriteSet(f) && r in WriteSet(g)) by {
        assert r in WriteSet(f) && r in WriteSet(g) ==> r in WriteSet(f) * WriteSet(g);
      }
      if r in WriteSet(f) {
        assert Agree(run(u, run(v, s)), run(u, s), WriteSet(f));
      } else if r in WriteSet(g) {
        assert Agree(run(v, run(u, s)), run(v, s), WriteSet(g));
      }
    }
    StoreExtensional(left, right);
  }

  // ----- sequences of procedures

  function Run<V>(run: (Id, Store<V>) -> Store<V>, order: seq<Id>, s: Store<V>): (t: Store<V>)
  {
    if order == [] then s else Run(run, order[1..], run(order[0], s))
  }

  lemma {:induction false} RunAppend<V>(run: (Id, Store<V>) -> Store<V>, a: seq<Id>, b: seq<Id>, s: Store<V>)
    ensures Run(run, a + b, s) == Run(run, b, Run(run, a, s))
  {
    if a == [] {
      assert a + b == b;
    } else {
      assert (a + b)[0] == a[0] && (a + b)[1..] == a[1..] + b;
      RunAppend(run, a[1..], b, run(a[0], s));
    }
  }

  /** A procedure that interferes with none of those before it may run first. */
  lemma {:induction false} MoveToFront<V(!new)>(run: (Id, Store<V>) -> Store<V>, facts: map<Id, ParallelFacts>,
                                                before: seq<Id>, v: Id, s: Store<V>)
    requires AllRespect(run, Elements(before) + {v}, facts)
    requires v in facts && forall x :: x in before ==> x in facts && !Interferes(facts[x], facts[v])
    ensures Run(run, before + [v], s) == Run(run, [v] + before, s)
  {
    if before == [] {
      assert before + [v] == [v] + before;
    } else {
      var x, rest := before[0], before[1..];
      assert x in before && forall y :: y in rest ==> y in before;
      assert x in Elements(before);
      MoveToFront(run, facts, rest, v, run(x, s));
      assert (before + [v])[1..] == rest + [v];
      assert ([v] + rest)[1..] == rest;
      assert ([v] + before)[1..] == before;
      Commute(run, x, v, facts[x], facts[v], s);
    }
  }

  /** Interfering pairs come in the same order in both sequences. */
  predicate SameOrder(a: seq<Id>, b: seq<Id>, facts: map<Id, ParallelFacts>)
  {
    forall i, j, k, l ::
      (0 <= i < j < |a| && 0 <= k < |b| && 0 <= l < |b| && b[k] == a[i] && b[l] == a[j]
       && a[i] in facts && a[j] in facts && Interferes(facts[a[i]], facts[a[j]])) ==> k < l
  }

  lemma {:induction false} RemoveAt(b: seq<Id>, k: nat)
    requires k < |b| && NoDuplicates(b)
    ensures NoDuplicates(b[..k] + b[k + 1..]) && Elements(b[..k] + b[k + 1..]) == Elements(b) - {b[k]}
  {
    var rest := b[..k] + b[k + 1..];
    assert forall i :: 0 <= i < |rest| ==> rest[i] == b[if i < k then i else i + 1];
    forall x
      ensures x in rest <==> x in b && x != b[k]
    {
      if x in b && x != b[k] {
        var i :| 0 <= i < |b| && b[i] == x;
        assert rest[if i < k then i else i - 1] == x;
      }
    }
  }

  /** Two orders of the same procedures that agree on interfering pairs give the same store. */
  lemma {:induction false} SameStore<V(!new)>(run: (Id, Store<V>) -> Store<V>, facts: map<Id, ParallelFacts>,
                                              a: seq<Id>, b: seq<Id>, s: Store<V>)
    requires NoDuplicates(a) && NoDuplicates(b) && Elements(a) == Elements(b)
    requires AllRespect(run, Elements(a), facts) && SameOrder(a, b, facts)
    ensures Run(run, a, s) == Run(run, b, s)
    decreases |a|
  {
    hide Interferes, Respects;
    if a == [] {
      NoDuplicatesSize(a);
      NoDuplicatesSize(b);
    } else {
      var x := a[0];
      assert x in Elements(b);
      var k :| 0 <= k < |b| && b[k] == x;
      var before, after := b[..k], b[k + 1..];
      var rest := before + after;
      BeforeIsFree(facts, a, b, k);
      RemoveAt(b, k);
      FirstRemoved(a);
      SubRespect(run, facts, a, before, x);
      MoveToFront(run, facts, before, x, s);
      assert b == (before + [x]) + after;
      RunAppend(run, before + [x], after, s);
      RunAppend(run, [x] + before, after, s);
      assert [x] + before + after == [x] + rest;
      assert ([x] + rest)[1..] == rest;
      SameOrderTail(facts, a, b, k);
      SameStore(run, facts, a[1..], rest, run(x, s));
    }
  }

  lemma {:induction false} FirstRemoved(a: seq<Id>)
    requires NoDuplicates(a) && a != []
    ensures NoDuplicates(a[1..]) && Elements(a[1..]) == Elements(a) - {a[0]}
  {
    assert a == [a[0]] + a[1..];
  }

  lemma {:induction false} SubRespect<V(!new)>(run: (Id, Store<V>) -> Store<V>, facts: map<Id, ParallelFacts>,
                                               a: seq<Id>, before: seq<Id>, x: Id)
    requires AllRespect(run, Elements(a), facts) && x in a && Elements(before) <= Elements(a)
    ensures AllRespect(run, Elements(before) + {x}, facts)
    ensures forall y :: y in Elements(a) - {x} ==> y in facts && Respects(run, y, facts[y])
  {
    hide Respects;
    assert x in Elements(a);
  }

  lemma {:induction false} BeforeIsFree(facts: map<Id, ParallelFacts>, a: seq<Id>, b: seq<Id>, k: nat)
    requires NoDuplicates(b) && Elements(a) == Elements(b) && SameOrder(a, b, facts)
    requires a != [] && k < |b| && b[k] == a[0] && forall v :: v in Elements(a) ==> v in facts
    ensures Elements(b[..k]) <= Elements(a) && a[0] in facts
    ensures forall x :: x in b[..k] ==> x in facts && !Interferes(facts[x], facts[a[0]])
  {
    assert a[0] in Elements(a);
    forall x | x in b[..k]
      ensures x in Elements(a) && x in facts && !Interferes(facts[x], facts[a[0]])
    {
      assert x in Elements(b);
      var l :| 0 <= l < k && b[l] == x;
      var j :| 0 <= j < |a| && a[j] == x;
      assert b[k] == a[0] && b[l] == a[j];
      InterferesSymmetric(facts[x], facts[a[0]]);
    }
  }

  lemma {:induction false} SameOrderTail(facts: map<Id, ParallelFacts>, a: seq<Id>, b: seq<Id>, k: nat)
    requires SameOrder(a, b, facts) && a != [] && k < |b| && b[k] == a[0]
    ensures SameOrder(a[1..], b[..k] + b[k + 1..], facts)
  {
    hide Interferes;
    var tail, rest := a[1..], b[..k] + b[k + 1..];
    forall i, j, m, l | 0 <= i < j < |tail| && 0 <= m < |rest| && 0 <= l < |rest| && rest[m] == tail[i]
        && rest[l] == tail[j]
                        && tail[i] in facts && tail[j] in facts && Interferes(facts[tail[i]], facts[tail[j]])
      ensures m < l
    {
      var m', l' := if m < k then m else m + 1, if l < k then l else l + 1;
      assert b[m'] == a[i + 1] && b[l'] == a[j + 1];
    }
  }

  // ----- schedules

  function Flatten(groups: seq<seq<Id>>): (order: seq<Id>)
  {
    if groups == [] then [] else groups[0] + Flatten(groups[1..])
  }

  /** Groups run one after another; inside a group the members run in the order listed. */
  function RunGroups<V>(run: (Id, Store<V>) -> Store<V>, groups: seq<seq<Id>>, s: Store<V>): (t: Store<V>)
  {
    if groups == [] then s else RunGroups(run, groups[1..], Run(run, groups[0], s))
  }

  lemma {:induction false} RunFlatten<V>(run: (Id, Store<V>) -> Store<V>, groups: seq<seq<Id>>, s: Store<V>)
    ensures RunGroups(run, groups, s) == Run(run, Flatten(groups), s)
  {
    if groups != [] {
      RunFlatten(run, groups[1..], Run(run, groups[0], s));
      RunAppend(run, groups[0], Flatten(groups[1..]), s);
    }
  }

  /** Each group rearranged on its own. */
  predicate Rearranged(groups: seq<seq<Id>>, other: seq<seq<Id>>)
  {
    |groups| == |other|
    && forall g :: 0 <= g < |groups| ==> NoDuplicates(other[g]) && Elements(other[g]) == Elements(groups[g])
  }

  predicate Groupwise(groups: seq<seq<Id>>, facts: map<Id, ParallelFacts>)
  {
    && (forall g :: 0 <= g < |groups| ==> NoDuplicates(groups[g]))
    && ConflictFree(groups, facts)
  }

  /** However the members of each group are interleaved, the final store is the same. */
  lemma {:induction false} GroupsCommute<V(!new)>(run: (Id, Store<V>) -> Store<V>, facts: map<Id, ParallelFacts>,
                                                  groups: seq<seq<Id>>, other: seq<seq<Id>>, s: Store<V>)
    requires Groupwise(groups, facts) && Rearranged(groups, other)
    requires forall g :: 0 <= g < |groups| ==> AllRespect(run, Elements(groups[g]), facts)
    ensures RunGroups(run, groups, s) == RunGroups(run, other, s)
  {
    hide Respects;
    if groups != [] {
      assert SameOrder(groups[0], other[0], facts) by {
        forall i, j | 0 <= i < j < |groups[0]| && groups[0][i] in facts && groups[0][j] in facts
          ensures !Interferes(facts[groups[0][i]], facts[groups[0][j]])
        {
          var x, y := groups[0][i], groups[0][j];
          assert PairwiseFree(groups[0], facts);
          assert x in groups[0] && y in groups[0] && x != y;
          assert !Conflict(facts[x], facts[y]);
          if Interferes(facts[x], facts[y]) {
            InterferenceIsConflict(facts[x], facts[y]);
          }
        }
      }
      SameStore(run, facts, groups[0], other[0], s);
      TailGroupwise(facts, groups, other);
      GroupsCommute(run, facts, groups[1..], other[1..], Run(run, groups[0], s));
    }
  }

  lemma {:induction false} TailGroupwise(facts: map<Id, ParallelFacts>, groups: seq<seq<Id>>, other: seq<seq<Id>>)
    requires Groupwise(groups, facts) && Rearranged(groups, other) && groups != []
    ensures Groupwise(groups[1..], facts) && Rearranged(groups[1..], other[1..])
  {
    forall g | 0 <= g < |groups[1..]|
      ensures PairwiseFree(groups[1..][g], facts)
    {
      assert groups[1..][g] == groups[g + 1];
    }
  }
}
