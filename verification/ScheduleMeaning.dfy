/** The schedule against the plan: what scheduling preserves and exactly when running
the groups gives the same store as running the plan in order. */
module ScheduleMeaning {
  import opened Identifiers
  import opened Digraph
  import opened Planning
  import opened ParallelSchedule
  import opened Execution

  lemma {:induction false} FlattenElements(groups: seq<seq<Id>>)
    ensures forall x :: x in Flatten(groups) <==> exists g :: 0 <= g < |groups| && x in groups[g]
  {
    if groups != [] {
      FlattenElements(groups[1..]);
      forall x
        ensures x in Flatten(groups) <==> exists g :: 0 <= g < |groups| && x in groups[g]
      {
        if x in Flatten(groups[1..]) {
          var g :| 0 <= g < |groups[1..]| && x in groups[1..][g];
          assert x in groups[g + 1];
        }
        if g :| 0 <= g < |groups| && x in groups[g] {
          if g > 0 {
            assert groups[1..][g - 1] == groups[g];
          }
        }
      }
    }
  }

  predicate Disjoint(groups: seq<seq<Id>>)
  {
    && (forall g :: 0 <= g < |groups| ==> NoDuplicates(groups[g]))
    && (forall g, h, x :: 0 <= g < h < |groups| && x in groups[g] ==> x !in groups[h])
  }

  lemma {:induction false} PlacedDisjoint(groups: seq<seq<Id>>, where: map<Id, nat>)
    requires Placed(groups, where)
    ensures Disjoint(groups)
  {
    forall g, h, x | 0 <= g < h < |groups| && x in groups[g]
      ensures x !in groups[h]
    {
      assert x in where && where[x] == g;
    }
  }

  lemma {:induction false} TailDisjoint(groups: seq<seq<Id>>)
    requires Disjoint(groups) && groups != []
    ensures Disjoint(groups[1..])
    ensures forall x :: x in groups[0] ==> x !in Flatten(groups[1..])
  {
    FlattenElements(groups[1..]);
    var tail := groups[1..];
    assert forall g :: 0 <= g < |tail| ==> tail[g] == groups[g + 1];
  }

  lemma {:induction false} FlattenDistinct(groups: seq<seq<Id>>)
    requires Disjoint(groups)
    ensures NoDuplicates(Flatten(groups))
  {
    if groups != [] {
      TailDisjoint(groups);
      FlattenDistinct(groups[1..]);
      var first, rest := groups[0], Flatten(groups[1..]);
      forall i, j | 0 <= i < |first| && 0 <= j < |rest|
        ensures first[i] != rest[j]
      {
        assert first[i] in groups[0] && rest[j] in rest;
      }
    }
  }

  /** A member of an earlier group comes earlier in the flattened schedule. */
  lemma {:induction false} FlattenOrders(groups: seq<seq<Id>>, g: nat, h: nat, i: nat, j: nat)
    requires Disjoint(groups) && g < h < |groups|
    requires i < |Flatten(groups)| && Flatten(groups)[i] in groups[g]
    requires j < |Flatten(groups)| && Flatten(groups)[j] in groups[h]
    ensures i < j
  {
    var first, rest := groups[0], Flatten(groups[1..]);
    TailDisjoint(groups);
    FlattenElements(groups[1..]);
    assert groups[1..][h - 1] == groups[h];
    assert Flatten(groups)[j] in rest;
    assert j >= |first|;
    if g > 0 {
      assert groups[1..][g - 1] == groups[g];
      assert Flatten(groups)[i] in rest;
      assert i >= |first|;
      FlattenOrders(groups[1..], g - 1, h - 1, i - |first|, j - |first|);
    } else {
      assert forall x :: x in rest ==> x !in first;
      assert forall k :: |first| <= k < |Flatten(groups)| ==> Flatten(groups)[k] in rest;
    }
  }

  /** Running the groups in turn respects every dependency of the plan. */
  lemma {:induction false} ScheduleIsTopological(groups: seq<seq<Id>>, where: map<Id, nat>, order: seq<Id>,
                                                 arcs: seq<Arc>, facts: map<Id, ParallelFacts>)
    requires Scheduled(groups, where, order, arcs, facts)
    ensures IsTopological(Flatten(groups), Elements(order), arcs)
  {
    var flat := Flatten(groups);
    PlacedDisjoint(groups, where);
    FlattenDistinct(groups);
    FlattenElements(groups);
    forall x
      ensures x in flat <==> x in Elements(order)
    {
      assert x in where <==> x in Elements(order);
    }
    forall i, j | 0 <= i < |flat| && 0 <= j < |flat| && Arc(flat[i], flat[j]) in arcs
      ensures i < j
    {
      assert flat[i] in flat && flat[j] in flat;
      assert flat[i] in where && flat[j] in where;
      FlattenOrders(groups, where[flat[i]], where[flat[j]], i, j);
    }
  }

  // ----- the schedule against the plan order

  /** A later plan node was scheduled before an earlier one that it interferes with. */
  predicate Inverted(order: seq<Id>, where: map<Id, nat>, facts: map<Id, ParallelFacts>, i: int, j: int)
  {
    && 0 <= i < j < |order| && order[i] in where && order[j] in where && order[i] in facts && order[j] in facts
    && Interferes(facts[order[i]], facts[order[j]]) && where[order[j]] < where[order[i]]
  }

  /** Interfering members are never in one group. */
  lemma {:induction false} NotTogether(groups: seq<seq<Id>>, where: map<Id, nat>, facts: map<Id, ParallelFacts>, x: Id,
                                       y: Id)
    requires Placed(groups, where) && ConflictFree(groups, facts) && x in where && y in where && x != y
    requires x in facts && y in facts && Interferes(facts[x], facts[y])
    ensures where[x] != where[y]
  {
    InterferenceIsConflict(facts[x], facts[y]);
    assert PairwiseFree(groups[where[x]], facts);
  }

  /** Without inversions the schedule and the plan order give the same store, whatever
      the procedures do within their declarations. */
  lemma {:induction false} ScheduleRunsLikePlan<V(!new)>(run: (Id, Store<V>) -> Store<V>, groups: seq<seq<Id>>,
                                                         where: map<Id, nat>,
                                      order: seq<Id>, arcs: seq<Arc>, facts: map<Id, ParallelFacts>, s: Store<V>)
    requires NoDuplicates(order) && Scheduled(groups, where, order, arcs, facts)
             && AllRespect(run, Elements(order), facts)
    requires forall i, j :: !Inverted(order, where, facts, i, j)
    ensures RunGroups(run, groups, s) == Run(run, order, s)
  {
    hide Respects, Interferes;
    var flat := Flatten(groups);
    ScheduleIsTopological(groups, where, order, arcs, facts);
    PlacedDisjoint(groups, where);
    RunFlatten(run, groups, s);
    forall i, j, k, l | 0 <= i < j < |order| && 0 <= k < |flat| && 0 <= l < |flat| && flat[k] == order[i]
        && flat[l] == order[j]
                        && order[i] in facts && order[j] in facts && Interferes(facts[order[i]], facts[order[j]])
      ensures k < l
    {
      var x, y := order[i], order[j];
      assert x in Elements(order) && y in Elements(order);
      NotTogether(groups, where, facts, x, y);
      assert !Inverted(order, where, facts, i, j);
      FlattenOrders(groups, where[x], where[y], k, l);
    }
    SameStore(run, facts, order, flat, s);
  }

  // ----- an inversion always shows

  /** Procedures other than u and v do nothing. */
  ghost predicate OnlyTwo(run: (Id, Store<int>) -> Store<int>, u: Id, v: Id)
  {
    forall x, s: Store<int> :: x != u && x != v ==> run(x, s) == s
  }

  lemma {:induction false} RunSkips(run: (Id, Store<int>) -> Store<int>, u: Id, v: Id, order: seq<Id>, s: Store<int>)
    requires OnlyTwo(run, u, v) && u !in order && v !in order
    ensures Run(run, order, s) == s
  {
    if order != [] {
      assert order[0] in order && forall x :: x in order[1..] ==> x in order;
      RunSkips(run, u, v, order[1..], s);
    }
  }

  lemma {:induction false} RunOfTwo(run: (Id, Store<int>) -> Store<int>, order: seq<Id>, i: nat, j: nat, s: Store<int>)
    requires NoDuplicates(order) && i < j < |order| && OnlyTwo(run, order[i], order[j])
    ensures Run(run, order, s) == run(order[j], run(order[i], s))
  {
    var u, v := order[i], order[j];
    var a, b, c := order[..i], order[i + 1..j], order[j + 1..];
    assert order == a + ([u] + (b + ([v] + c)));
    RunAppend(run, a, [u] + (b + ([v] + c)), s);
    RunSkips(run, u, v, a, s);
    RunAppend(run, [u], b + ([v] + c), s);
    var t := run(u, s);
    assert Run(run, [u], s) == t;
    RunAppend(run, b, [v] + c, t);
    RunSkips(run, u, v, b, t);
    RunAppend(run, [v], c, t);
    assert Run(run, [v], t) == run(v, t);
    RunSkips(run, u, v, c, run(v, t));
  }

  /** u writes 1 to r; v sets w to 1 or 0 as it finds r to be 1 or not (or, when w is r, to 0). */
  ghost function Probe(u: Id, v: Id, r: Id, w: Id): (run: (Id, Store<int>) -> Store<int>)
    requires u != v
  {
    (x: Id, s: Store<int>) =>
      if x == u then s[r := 1]
      else if x == v then (if w != r && At(s, r) == Present(1) then s[w := 1] else s[w := 0])
      else s
  }

  lemma {:induction false} ProbeRespects(u: Id, v: Id, r: Id, w: Id, f: ParallelFacts, g: ParallelFacts, x: Id,
                                         h: ParallelFacts)
    requires u != v && r in WriteSet(f) && w in WriteSet(g) && (w == r || r in ReadSet(g))
    requires (x == u ==> h == f) && (x == v ==> h == g)
    ensures Respects(Probe(u, v, r, w), x, h)
  {
    var run := Probe(u, v, r, w);
    forall s: Store<int>, t: Store<int> | Agree(s, t, ReadSet(h) + WriteSet(h))
      ensures Agree(run(x, s), run(x, t), WriteSet(h))
    {
      forall y | y in WriteSet(h)
        ensures At(run(x, s), y) == At(run(x, t), y)
      {
        assert At(s, y) == At(t, y);
        if x == v && w != r {
          assert r in ReadSet(h) + WriteSet(h);
          assert At(s, r) == At(t, r);
        }
      }
    }
  }

  /** The order of two interfering procedures shows for some behaviour and some store. */
  lemma {:induction false} ProbeShows(u: Id, v: Id, r: Id, w: Id)
    requires u != v
    ensures var run := Probe(u, v, r, w); run(v, run(u, map[r := 0])) != run(u, run(v, map[r := 0]))
  {
    var run := Probe(u, v, r, w);
    var s: Store<int> := map[r := 0];
    if w == r {
      assert run(v, run(u, s))[r] == 0 && run(u, run(v, s))[r] == 1;
    } else {
      assert run(v, run(u, s))[w] == 1 && run(u, run(v, s))[w] == 0;
    }
  }

  /** An inverted pair makes the schedule differ from the plan order for some procedures
      that keep to their declarations and some initial store. */
  lemma {:induction false} InversionShows(groups: seq<seq<Id>>, where: map<Id, nat>, order: seq<Id>, arcs: seq<Arc>,
                                          facts: map<Id, ParallelFacts>, i: nat, j: nat)
    returns (run: (Id, Store<int>) -> Store<int>, s: Store<int>)
    requires NoDuplicates(order) && Scheduled(groups, where, order, arcs, facts)
             && (forall x :: x in order ==> x in facts)
    requires Inverted(order, where, facts, i, j)
    ensures AllRespect(run, Elements(order), facts)
    ensures RunGroups(run, groups, s) != Run(run, order, s)
  {
    var first, second := order[i], order[j];
    var u, v, r, w := ProbePoints(facts, first, second);
    run := Probe(u, v, r, w);
    s := map[r := 0];
    assert OnlyTwo(run, first, second) && OnlyTwo(run, second, first);
    forall x | x in Elements(order)
      ensures x in facts && Respects(run, x, facts[x])
    {
      assert x in order;
      ProbeRespects(u, v, r, w, facts[u], facts[v], x, facts[x]);
    }
    hide Respects, Interferes, Probe, WriteSet, ReadSet;
    RunOfTwo(run, order, i, j, s);
    RunInverted(run, groups, where, order, arcs, facts, i, j, s);
    ProbeShows(u, v, r, w);
  }

  /** In the schedule the inverted pair runs the other way round. */
  lemma {:induction false} RunInverted(run: (Id, Store<int>) -> Store<int>, groups: seq<seq<Id>>, where: map<Id, nat>,
                                       order: seq<Id>, arcs: seq<Arc>, facts: map<Id, ParallelFacts>, i: nat, j: nat,
                                       s: Store<int>)
    requires Scheduled(groups, where, order, arcs, facts) && i < |order| && j < |order|
    requires order[i] in where && order[j] in where && where[order[j]] < where[order[i]]
    requires OnlyTwo(run, order[j], order[i])
    ensures RunGroups(run, groups, s) == run(order[i], run(order[j], s))
  {
    ScheduleIsTopological(groups, where, order, arcs, facts);
    PlacedDisjoint(groups, where);
    var flat := Flatten(groups);
    assert order[i] in Elements(order) && order[j] in Elements(order);
    assert order[i] in Elements(flat) && order[j] in Elements(flat);
    var k :| 0 <= k < |flat| && flat[k] == order[j];
    var l :| 0 <= l < |flat| && flat[l] == order[i];
    FlattenOrders(groups, where[order[j]], where[order[i]], k, l);
    RunOfTwo(run, flat, k, l, s);
    RunFlatten(run, groups, s);
  }

  /** Which procedure writes and which one reacts. */
  lemma {:induction false} ProbePoints(facts: map<Id, ParallelFacts>, first: Id, second: Id)
    returns (u: Id, v: Id, r: Id, w: Id)
    requires first in facts && second in facts && first != second && Interferes(facts[first], facts[second])
    ensures (u == first && v == second) || (u == second && v == first)
    ensures r in WriteSet(facts[u]) && w in WriteSet(facts[v]) && (w == r || r in ReadSet(facts[v]))
  {
    var f, g := facts[first], facts[second];
    if x :| x in WriteSet(f) * WriteSet(g) {
      u, v, r, w := first, second, x, x;
    } else if WriteSet(f) * ReadSet(g) != {} && WriteSet(g) != {} {
      var x :| x in WriteSet(f) * ReadSet(g);
      var y :| y in WriteSet(g);
      u, v, r, w := first, second, x, y;
    } else {
      var x :| x in WriteSet(g) * ReadSet(f);
      var y :| y in WriteSet(f);
      u, v, r, w := second, first, x, y;
    }
  }
}
