/** The first-fit parallel scheduler and its conflict test. */
module ParallelSchedule {
  import opened Identifiers
  import opened Digraph
  import opened Planning
  import opened Budgets
  import opened SearchLimits

  datatype Verdict = Known(yes: bool) | VerdictWorkLimit | VerdictCancelled

  // ----- conflicts

  predicate Share(a: seq<Id>, b: seq<Id>)
  {
    exists x :: x in a && x in b
  }

  predicate NormalFacts(f: ParallelFacts)
  {
    StrictlySorted(f.readIds) && StrictlySorted(f.writeIds) && StrictlySorted(f.exclusiveIds)
      && StrictlySorted(f.mutexKeys)
  }

  /** Two procedures may not run side by side. */
  predicate Conflict(l: ParallelFacts, r: ParallelFacts)
  {
    || l.compensationBoundary || r.compensationBoundary || l.policySerial || r.policySerial
    || Share(l.mutexKeys, r.mutexKeys)
    || Share(l.writeIds, r.readIds) || Share(l.writeIds, r.writeIds) || Share(r.writeIds, l.readIds)
    || Share(l.exclusiveIds, r.readIds) || Share(l.exclusiveIds, r.writeIds) || Share(l.exclusiveIds, r.exclusiveIds)
    || Share(r.exclusiveIds, l.readIds) || Share(r.exclusiveIds, l.writeIds)
  }

  /** intersectsBounded: merges two sorted lists, one unit of work a comparison. */
  method IntersectsBounded(left: seq<Id>, right: seq<Id>, budget: WorkBudget) returns (verdict: Verdict)
    requires StrictlySorted(left) && StrictlySorted(right) && budget.Valid()
    modifies budget
    ensures budget.Valid() && budget.used <= old(budget.used) + |left| + |right|
    ensures verdict.Known? ==> (verdict.yes <==> Share(left, right))
    ensures verdict.VerdictWorkLimit? ==> old(budget.used) + |left| + |right| > budget.maximum
  {
    var i, j, comparisons := 0, 0, 0;
    while i < |left| && j < |right|
      invariant 0 <= i <= |left| && 0 <= j <= |right| && comparisons == i + j
      invariant budget.Valid() && budget.used == old(budget.used) + comparisons
      invariant forall k :: 0 <= k < i ==> left[k] !in right
      invariant forall k :: 0 <= k < j ==> right[k] !in left
      invariant j < |right| ==> forall k :: 0 <= k < i ==> left[k] < right[j]
      invariant i < |left| ==> forall k :: 0 <= k < j ==> right[k] < left[i]
      decreases |left| + |right| - i - j
    {
      if comparisons % 256 == 0 {
        if * {
          return VerdictCancelled;
        }
      }
      var ok := budget.Consume(1);
      if !ok {
        return VerdictWorkLimit;
      }
      comparisons := comparisons + 1;
      if left[i] == right[j] {
        assert left[i] in left && right[j] in right;
        return Known(true);
      } else if left[i] < right[j] {
        i := i + 1;
      } else {
        j := j + 1;
      }
    }
    return Known(false);
  }

  /** At most so many units were spent, or so many would have been too many. */
  predicate Spends(start: nat, used: nat, maximum: nat, units: nat, short: bool)
  {
    used <= start + units && (short ==> start + units > maximum)
  }

  /** What one conflict test can cost: one unit, and each list is merged three times at most. */
  function PairCost(l: ParallelFacts, r: ParallelFacts): (n: nat)
  {
    1 + 3 * (Entries(l) + Entries(r))
  }

  function MergeCost(pairs: seq<(seq<Id>, seq<Id>)>): (n: nat)
  {
    if pairs == [] then 0
    else MergeCost(pairs[..|pairs| - 1]) + |pairs[|pairs| - 1].0| + |pairs[|pairs| - 1].1|
  }

  lemma {:induction false} MergeCostGrows(pairs: seq<(seq<Id>, seq<Id>)>, i: nat)
    requires i < |pairs|
    ensures MergeCost(pairs[..i]) + |pairs[i].0| + |pairs[i].1| == MergeCost(pairs[..i + 1]) <= MergeCost(pairs)
    decreases |pairs|
  {
    assert pairs[..i + 1][..i] == pairs[..i];
    if i + 1 < |pairs| {
      var n := |pairs| - 1;
      MergeCostGrows(pairs[..n], i);
      assert pairs[..n][..i + 1] == pairs[..i + 1] && pairs[..n][..i] == pairs[..i];
    } else {
      assert pairs[..i + 1] == pairs;
    }
  }

  function ListPairs(l: ParallelFacts, r: ParallelFacts): (pairs: seq<(seq<Id>, seq<Id>)>)
  {
    [(l.mutexKeys, r.mutexKeys),
     (l.writeIds, r.readIds), (l.writeIds, r.writeIds), (r.writeIds, l.readIds),
     (l.exclusiveIds, r.readIds), (l.exclusiveIds, r.writeIds), (l.exclusiveIds, r.exclusiveIds),
     (r.exclusiveIds, l.readIds), (r.exclusiveIds, l.writeIds)]
  }

  lemma {:induction false} PairsBounded(l: ParallelFacts, r: ParallelFacts)
    ensures 1 + MergeCost(ListPairs(l, r)) <= PairCost(l, r)
  {
    var p := ListPairs(l, r);
    forall i | 0 <= i < 9
      ensures MergeCost(p[..i + 1]) == MergeCost(p[..i]) + |p[i].0| + |p[i].1|
    {
      MergeCostGrows(p, i);
    }
    assert p[..0] == [] && p[..9] == p;
    assert MergeCost(p[..3]) == |p[0].0| + |p[0].1| + |p[1].0| + |p[1].1| + |p[2].0| + |p[2].1|;
    assert MergeCost(p[..6])
        == MergeCost(p[..3]) + |p[3].0| + |p[3].1| + |p[4].0| + |p[4].1| + |p[5].0| + |p[5].1|;
    assert MergeCost(p[..9])
        == MergeCost(p[..6]) + |p[6].0| + |p[6].1| + |p[7].0| + |p[7].1| + |p[8].0| + |p[8].1|;
  }

  /** parallelConflict: the flags, then the nine list pairs until one meets. */
  method ParallelConflict(l: ParallelFacts, r: ParallelFacts, budget: WorkBudget) returns (verdict: Verdict)
    requires NormalFacts(l) && NormalFacts(r) && budget.Valid()
    modifies budget
    ensures budget.Valid()
    ensures verdict.Known? ==> (verdict.yes <==> Conflict(l, r))
    ensures Spends(old(budget.used), budget.used, budget.maximum, PairCost(l, r), verdict.VerdictWorkLimit?)
  {
    PairsBounded(l, r);
    hide PairCost, MergeCost;
    var ok := budget.Consume(1);
    if !ok {
      return VerdictWorkLimit;
    }
    if l.compensationBoundary || r.compensationBoundary || l.policySerial || r.policySerial {
      return Known(true);
    }
    var pairs := ListPairs(l, r);
    var i := 0;
    NothingMerged(pairs);
    while i < |pairs|
      invariant 0 <= i <= |pairs| && budget.Valid()
      invariant budget.used <= old(budget.used) + 1 + MergeCost(pairs[..i])
      invariant MergeCost(pairs[..i]) <= MergeCost(pairs)
      invariant forall k :: 0 <= k < i ==> !Share(pairs[k].0, pairs[k].1)
    {
      hide ListPairs;
      MergeCostGrows(pairs, i);
      PairSorted(l, r, i);
      verdict := IntersectsBounded(pairs[i].0, pairs[i].1, budget);
      if !verdict.Known? || verdict.yes {
        return;
      }
      i := i + 1;
    }
    assert forall k :: 0 <= k < 9 ==> !Share(pairs[k].0, pairs[k].1);
    assert !Share(pairs[0].0, pairs[0].1) && !Share(pairs[1].0, pairs[1].1) && !Share(pairs[2].0, pairs[2].1);
    assert !Share(pairs[3].0, pairs[3].1) && !Share(pairs[4].0, pairs[4].1) && !Share(pairs[5].0, pairs[5].1);
    assert !Share(pairs[6].0, pairs[6].1) && !Share(pairs[7].0, pairs[7].1) && !Share(pairs[8].0, pairs[8].1);
    return Known(false);
  }

  lemma {:induction false} NothingMerged(pairs: seq<(seq<Id>, seq<Id>)>)
    ensures MergeCost(pairs[..0]) == 0
  {
  }

  lemma {:induction false} PairSorted(l: ParallelFacts, r: ParallelFacts, i: nat)
    requires NormalFacts(l) && NormalFacts(r) && i < |ListPairs(l, r)|
    ensures StrictlySorted(ListPairs(l, r)[i].0) && StrictlySorted(ListPairs(l, r)[i].1)
  {
  }

  predicate NormalMap(facts: map<Id, ParallelFacts>)
  {
    forall v :: v in facts ==> NormalFacts(facts[v])
  }

  predicate Accepts(group: seq<Id>, v: Id, facts: map<Id, ParallelFacts>)
    requires v in facts && forall x :: x in group ==> x in facts
  {
    forall x :: x in group ==> !Conflict(facts[x], facts[v])
  }

  /** No conflict test between these facts costs more. */
  ghost predicate TestsCost(facts: map<Id, ParallelFacts>, cost: nat)
  {
    forall x, y :: x in facts && y in facts ==> PairCost(facts[x], facts[y]) <= cost
  }

  /** groupAccepts. */
  method GroupAccepts(group: seq<Id>, v: Id, facts: map<Id, ParallelFacts>, budget: WorkBudget, ghost cost: nat)
    returns (verdict: Verdict)
    requires TestsCost(facts, cost)
    requires NormalMap(facts) && v in facts && (forall x :: x in group ==> x in facts) && budget.Valid()
    modifies budget
    ensures budget.Valid()
    ensures verdict.Known? ==> (verdict.yes <==> Accepts(group, v, facts))
    ensures Spends(old(budget.used), budget.used, budget.maximum, Product(cost, |group|), verdict.VerdictWorkLimit?)
  {
    hide Conflict, Product, PairCost;
    for i := 0 to |group|
      invariant budget.Valid() && budget.used <= old(budget.used) + Product(cost, i)
      invariant forall k :: 0 <= k < i ==> !Conflict(facts[group[k]], facts[v])
    {
      assert group[i] in group;
      assert PairCost(facts[group[i]], facts[v]) <= cost;
      ProductNext(cost, i);
      ProductKeepsOrder(cost, i + 1, |group|);
      verdict := ParallelConflict(facts[group[i]], facts[v], budget);
      if !verdict.Known? {
        return;
      }
      if verdict.yes {
        return Known(false);
      }
    }
    return Known(true);
  }

  // ----- the number of placed nodes

  function Members(groups: seq<seq<Id>>): (n: nat)
  {
    if groups == [] then 0 else Members(groups[..|groups| - 1]) + |groups[|groups| - 1]|
  }

  lemma {:induction false} MembersGrow(groups: seq<seq<Id>>, g: nat)
    requires g < |groups|
    ensures Members(groups[..g]) + |groups[g]| == Members(groups[..g + 1]) <= Members(groups)
    decreases |groups|
  {
    assert groups[..g + 1][..g] == groups[..g];
    if g + 1 < |groups| {
      var n := |groups| - 1;
      MembersGrow(groups[..n], g);
      assert groups[..n][..g + 1] == groups[..g + 1] && groups[..n][..g] == groups[..g];
    } else {
      assert groups[..g + 1] == groups;
    }
  }

  lemma {:induction false} PutMembers(groups: seq<seq<Id>>, g: nat, v: Id)
    requires g <= |groups|
    ensures Members(Put(groups, g, v)) == Members(groups) + 1
    decreases |groups|
  {
    hide Members;
    if g == |groups| {
      MembersNext(groups, [v]);
    } else {
      var n := |groups| - 1;
      var init, last := groups[..n], groups[n];
      assert groups == init + [last];
      MembersNext(init, last);
      if g < n {
        PutMembers(init, g, v);
        MembersNext(Put(init, g, v), last);
        assert Put(groups, g, v) == Put(init, g, v) + [last];
      } else {
        MembersNext(init, last + [v]);
        assert Put(groups, g, v) == init + [last + [v]];
      }
    }
  }

  lemma {:induction false} MembersNext(groups: seq<seq<Id>>, group: seq<Id>)
    ensures Members(groups + [group]) == Members(groups) + |group|
  {
    assert (groups + [group])[..|groups|] == groups;
  }

  /** The pairs among so many nodes. */
  function PairCount(n: nat): (r: nat)
  {
    if n == 0 then 0 else PairCount(n - 1) + (n - 1)
  }

  lemma {:induction false} PairCountGrows(i: nat, n: nat)
    requires i <= n
    ensures PairCount(i) <= PairCount(n)
  {
    if i < n {
      PairCountGrows(i, n - 1);
    }
  }

  // ----- schedules

  /** Each node is in exactly the group that `where` names; no group is empty. */
  predicate Placed(groups: seq<seq<Id>>, where: map<Id, nat>)
  {
    && (forall v :: v in where ==> where[v] < |groups| && v in groups[where[v]])
    && (forall g, x :: 0 <= g < |groups| && x in groups[g] ==> x in where && where[x] == g)
    && (forall g :: 0 <= g < |groups| ==> groups[g] != [] && NoDuplicates(groups[g]))
  }

  /** Dependencies cross to strictly later groups. */
  predicate Layered(where: map<Id, nat>, arcs: seq<Arc>)
  {
    forall a :: a in arcs && a.source in where && a.target in where ==> where[a.source] < where[a.target]
  }

  predicate PairwiseFree(group: seq<Id>, facts: map<Id, ParallelFacts>)
  {
    forall x, y :: x in group && y in group && x != y ==> x in facts && y in facts && !Conflict(facts[x], facts[y])
  }

  predicate ConflictFree(groups: seq<seq<Id>>, facts: map<Id, ParallelFacts>)
  {
    forall g :: 0 <= g < |groups| ==> PairwiseFree(groups[g], facts)
  }

  /** Why the j-th node could not go into group g: a predecessor sits there or later, or
      an earlier node there conflicts with it. */
  predicate Blocked(groups: seq<seq<Id>>, where: map<Id, nat>, order: seq<Id>, arcs: seq<Arc>,
                    facts: map<Id, ParallelFacts>, j: nat, g: nat)
    requires j < |order| && g < |groups|
  {
    || (exists a :: a in arcs && a.target == order[j] && a.source in where && where[a.source] >= g)
    || (exists i :: 0 <= i < j && order[i] in groups[g] && order[i] in facts && order[j] in facts
            && Conflict(facts[order[i]], facts[order[j]]))
  }

  /** Nothing sits later than it must. */
  predicate FirstFit(groups: seq<seq<Id>>, where: map<Id, nat>, order: seq<Id>, arcs: seq<Arc>,
                     facts: map<Id, ParallelFacts>)
  {
    forall j, g :: 0 <= j < |order| && order[j] in where && 0 <= g < where[order[j]] && g < |groups| ==>
      Blocked(groups, where, order, arcs, facts, j, g)
  }

  lemma {:induction false} ConflictSymmetric(l: ParallelFacts, r: ParallelFacts)
    ensures Conflict(l, r) == Conflict(r, l)
  {
    assert forall a: seq<Id>, b: seq<Id> :: Share(a, b) == Share(b, a);
  }

  /** Where the loop stands after placing a prefix of the order. */
  predicate Scheduled(groups: seq<seq<Id>>, where: map<Id, nat>, order: seq<Id>, arcs: seq<Arc>,
                      facts: map<Id, ParallelFacts>)
  {
    && where.Keys == Elements(order) && Placed(groups, where)
    && Layered(where, arcs) && ConflictFree(groups, facts) && FirstFit(groups, where, order, arcs, facts)
  }

  function Put(groups: seq<seq<Id>>, g: nat, v: Id): (placed: seq<seq<Id>>)
    requires g <= |groups|
    ensures |placed| == if g < |groups| then |groups| else |groups| + 1
    ensures forall h :: 0 <= h < |placed| ==>
              placed[h] == if h == g then (if g < |groups| then groups[g] else []) + [v] else groups[h]
  {
    if g < |groups| then groups[g := groups[g] + [v]] else groups + [[v]]
  }

  lemma {:induction false} InPut(groups: seq<seq<Id>>, g: nat, v: Id, h: nat, x: Id)
    requires g <= |groups| && h < |Put(groups, g, v)|
    ensures x in Put(groups, g, v)[h] <==> (h == g && x == v) || (h < |groups| && x in groups[h])
  {
  }

  lemma {:induction false} PutGroup(groups: seq<seq<Id>>, where: map<Id, nat>, g: nat, v: Id, h: nat)
    requires Placed(groups, where) && g <= |groups| && v !in where && h < |Put(groups, g, v)|
    ensures Put(groups, g, v)[h] != [] && NoDuplicates(Put(groups, g, v)[h])
  {
    if h == g && g < |groups| {
      assert forall k :: 0 <= k < |groups[g]| ==> groups[g][k] in groups[g];
    }
  }

  lemma {:induction false} PutPlaced(groups: seq<seq<Id>>, where: map<Id, nat>, g: nat, v: Id)
    requires Placed(groups, where) && g <= |groups| && v !in where
    ensures Placed(Put(groups, g, v), where[v := g])
  {
    var placed, now := Put(groups, g, v), where[v := g];
    forall h, x | 0 <= h < |placed| && x in placed[h]
      ensures x in now && now[x] == h
    {
      InPut(groups, g, v, h, x);
    }
    forall x | x in now
      ensures now[x] < |placed| && x in placed[now[x]]
    {
      InPut(groups, g, v, now[x], x);
    }
    forall h | 0 <= h < |placed|
      ensures placed[h] != [] && NoDuplicates(placed[h])
    {
      PutGroup(groups, where, g, v, h);
    }
    hide NoDuplicates;
  }

  lemma {:induction false} PutLayered(where: map<Id, nat>, order: seq<Id>, i: nat, arcs: seq<Arc>, g: nat)
    requires i < |order| && NoDuplicates(order) && Forward(order, arcs)
    requires where.Keys == Elements(order[..i]) && Layered(where, arcs)
    requires forall a :: a in arcs && a.target == order[i] && a.source in where ==> where[a.source] < g
    ensures Layered(where[order[i] := g], arcs)
  {
    var v := order[i];
    forall a | a in arcs && a.source == v
      ensures a.target !in where && a.target != v
    {
      assert a == Arc(order[i], a.target);
      forall k | 0 <= k <= i
        ensures order[k] != a.target
      {
      }
    }
    assert v !in where;
  }

  lemma {:induction false} PutConflictFree(groups: seq<seq<Id>>, g: nat, v: Id, facts: map<Id, ParallelFacts>)
    requires ConflictFree(groups, facts) && g <= |groups| && v in facts
    requires g < |groups| ==> (forall x :: x in groups[g] ==> x in facts) && Accepts(groups[g], v, facts)
    ensures ConflictFree(Put(groups, g, v), facts)
  {
    if g < |groups| {
      var group := groups[g];
      assert PairwiseFree(group, facts);
      forall x, y | x in group + [v] && y in group + [v] && x != y
        ensures x in facts && y in facts && !Conflict(facts[x], facts[y])
      {
        if x == v {
          ConflictSymmetric(facts[y], facts[v]);
        }
      }
    }
  }

  lemma {:induction false} PutFirstFit(groups: seq<seq<Id>>, where: map<Id, nat>, order: seq<Id>, i: nat,
                                       arcs: seq<Arc>, facts: map<Id, ParallelFacts>, g: nat, minimum: nat)
    requires i < |order| && NoDuplicates(order) && g <= |groups| && order[i] in facts
    requires where.Keys == Elements(order[..i]) && Placed(groups, where)
             && FirstFit(groups, where, order[..i], arcs, facts)
    requires forall x :: x in order ==> x in facts
    requires minimum == 0
             || exists a :: a in arcs && a.target == order[i] && a.source in where && where[a.source] + 1 == minimum
    requires forall h :: minimum <= h < g ==>
                 (forall x :: x in groups[h] ==> x in facts) && !Accepts(groups[h], order[i], facts)
    ensures FirstFit(Put(groups, g, order[i]), where[order[i] := g], order[..i + 1], arcs, facts)
  {
    hide Conflict, Blocked;
    var v, placed, prefix, now := order[i], Put(groups, g, order[i]), order[..i + 1], where[order[i] := g];
    assert v !in where;
    forall j, h | 0 <= j < |prefix| && prefix[j] in now && 0 <= h < now[prefix[j]] && h < |placed|
      ensures Blocked(placed, now, prefix, arcs, facts, j, h)
    {
      if j == i {
        if h < minimum {
          BlockedByPredecessor(placed, where, order, i, arcs, facts, g, h, minimum);
        } else {
          BlockedByMember(groups, where, order, i, arcs, facts, g, h);
        }
      } else {
        assert prefix[j] == order[..i][j] && prefix[j] in Elements(order[..i]);
        BlockedStill(groups, where, order, i, arcs, facts, g, j, h);
      }
    }
  }

  lemma {:induction false} BlockedByPredecessor(placed: seq<seq<Id>>, where: map<Id, nat>, order: seq<Id>, i: nat,
                                                arcs: seq<Arc>, facts: map<Id, ParallelFacts>, g: nat, h: nat,
                                                minimum: nat)
    requires i < |order| && order[i] !in where && h < |placed| && h < minimum
    requires exists a :: a in arcs && a.target == order[i] && a.source in where && where[a.source] + 1 == minimum
    ensures Blocked(placed, where[order[i] := g], order[..i + 1], arcs, facts, i, h)
  {
    var now := where[order[i] := g];
    var a :| a in arcs && a.target == order[i] && a.source in where && where[a.source] + 1 == minimum;
    assert a.source in now && now[a.source] >= h;
  }

  lemma {:induction false} BlockedByMember(groups: seq<seq<Id>>, where: map<Id, nat>, order: seq<Id>, i: nat,
                                           arcs: seq<Arc>, facts: map<Id, ParallelFacts>, g: nat, h: nat)
    requires i < |order| && h < g <= |groups| && order[i] in facts && Placed(groups, where)
             && where.Keys == Elements(order[..i])
    requires (forall x :: x in groups[h] ==> x in facts) && !Accepts(groups[h], order[i], facts)
    ensures Blocked(Put(groups, g, order[i]), where[order[i] := g], order[..i + 1], arcs, facts, i, h)
  {
    hide Conflict;
    var x :| x in groups[h] && Conflict(facts[x], facts[order[i]]);
    assert x in Elements(order[..i]);
    var k :| 0 <= k < i && order[..i][k] == x;
    assert order[..i + 1][k] == x && order[..i + 1][i] == order[i];
    InPut(groups, g, order[i], h, x);
  }

  lemma {:induction false} BlockedStill(groups: seq<seq<Id>>, where: map<Id, nat>, order: seq<Id>, i: nat,
                                        arcs: seq<Arc>, facts: map<Id, ParallelFacts>, g: nat, j: nat, h: nat)
    requires j < i < |order| && order[i] !in where && g <= |groups| && h < |groups|
    requires Blocked(groups, where, order[..i], arcs, facts, j, h)
    ensures Blocked(Put(groups, g, order[i]), where[order[i] := g], order[..i + 1], arcs, facts, j, h)
  {
    hide Conflict;
    var now, prefix := where[order[i] := g], order[..i + 1];
    assert prefix[j] == order[..i][j];
    if a :| a in arcs && a.target == prefix[j] && a.source in where && where[a.source] >= h {
      assert a.source in now && now[a.source] >= h;
    } else {
      var k :| 0 <= k < j && order[..i][k] in groups[h] && order[..i][k] in facts && prefix[j] in facts
               && Conflict(facts[order[..i][k]], facts[prefix[j]]);
      assert prefix[k] == order[..i][k];
      InPut(groups, g, order[i], h, prefix[k]);
    }
  }

  /** The first group after all predecessors. */
  method MinimumGroup(v: Id, arcs: seq<Arc>, where: map<Id, nat>) returns (minimum: nat)
    ensures forall a :: a in arcs && a.target == v && a.source in where ==> where[a.source] < minimum
    ensures minimum == 0
            || exists a :: a in arcs && a.target == v && a.source in where && where[a.source] + 1 == minimum
  {
    minimum := 0;
    for k := 0 to |arcs|
      invariant forall i :: 0 <= i < k && arcs[i].target == v && arcs[i].source in where ==>
                    where[arcs[i].source] < minimum
      invariant minimum == 0
                || exists a :: a in arcs && a.target == v && a.source in where && where[a.source] + 1 == minimum
    {
      var arc := arcs[k];
      if arc.target == v && arc.source in where && where[arc.source] + 1 > minimum {
        assert arc in arcs;
        minimum := where[arc.source] + 1;
      }
    }
  }

  datatype GroupsResult = Groups(groups: seq<seq<Id>>) | GroupsWorkLimit | GroupsCancelled

  /** The first group from `minimum` on that accepts the node, or a new one. */
  method FindGroup(groups: seq<seq<Id>>, v: Id, minimum: nat, facts: map<Id, ParallelFacts>, budget: WorkBudget,
                   ghost cost: nat)
    returns (verdict: Verdict, g: nat)
    requires TestsCost(facts, cost)
    requires NormalMap(facts) && v in facts && budget.Valid() && minimum <= |groups|
    requires forall h, x :: 0 <= h < |groups| && x in groups[h] ==> x in facts
    modifies budget
    ensures budget.Valid()
    ensures verdict.Known? ==> minimum <= g <= |groups|
    ensures verdict.Known? ==> forall h :: minimum <= h < g ==> !Accepts(groups[h], v, facts)
    ensures verdict.Known? && g < |groups| ==> Accepts(groups[g], v, facts)
    ensures Spends(old(budget.used), budget.used, budget.maximum, Product(cost, Members(groups)),
                   verdict.VerdictWorkLimit?)
  {
    hide Product, TestsCost, NormalMap, Members;
    g := minimum;
    while g < |groups|
      invariant minimum <= g <= |groups| && budget.Valid()
      invariant budget.used <= old(budget.used) + Product(cost, Members(groups[..g]))
      invariant forall h :: minimum <= h < g ==> !Accepts(groups[h], v, facts)
    {
      MembersGrow(groups, g);
      ProductGrows(cost, Members(groups[..g]), |groups[g]|);
      ProductKeepsOrder(cost, Members(groups[..g + 1]), Members(groups));
      verdict := GroupAccepts(groups[g], v, facts, budget, cost);
      if !verdict.Known? || verdict.yes {
        return;
      }
      g := g + 1;
    }
    assert groups[..|groups|] == groups;
    verdict := Known(true);
  }

  /** The greedy loop of DeriveParallelSchedule. */
  method DeriveGroups(order: seq<Id>, arcs: seq<Arc>, facts: map<Id, ParallelFacts>, budget: WorkBudget,
                      ghost cost: nat)
    returns (result: GroupsResult, where: map<Id, nat>)
    requires TestsCost(facts, cost)
    requires NoDuplicates(order) && Forward(order, arcs) && NormalMap(facts) && budget.Valid()
    requires forall v :: v in order ==> v in facts
    modifies budget
    ensures budget.Valid()
    ensures result.Groups? ==> Scheduled(result.groups, where, order, arcs, facts)
    ensures Spends(old(budget.used), budget.used, budget.maximum, Product(cost, PairCount(|order|)),
                   result.GroupsWorkLimit?)
  {
    hide Conflict, Accepts, NormalFacts, NormalMap, Product, TestsCost, PairCount, Members, Put, Scheduled, Placed,
         NoDuplicates, Forward;
    NothingPlaced(cost);
    NothingScheduled(arcs, facts);
    var groups: seq<seq<Id>> := [];
    where := map[];
    assert order[..0] == [];
    for i := 0 to |order|
      invariant budget.Valid() && Scheduled(groups, where, order[..i], arcs, facts)
      invariant Members(groups) == i && budget.used <= old(budget.used) + Product(cost, PairCount(i))
    {
      PairsPaid(cost, i, |order|);
      if i % 32 == 0 {
        if * {
          return GroupsCancelled, where;
        }
      }
      var v := order[i];
      assert v in order;
      var minimum := MinimumGroup(v, arcs, where);
      ScheduledPlaces(groups, where, order[..i], arcs, facts);
      MinimumInRange(groups, where, arcs, v, minimum);
      GroupsKnown(groups, where, order, i, facts);
      var verdict, g := FindGroup(groups, v, minimum, facts, budget, cost);
      if !verdict.Known? {
        return if verdict.VerdictWorkLimit? then GroupsWorkLimit else GroupsCancelled, where;
      }
      PutScheduled(groups, where, order, i, arcs, facts, g, minimum);
      PutMembers(groups, g, v);
      groups, where := Put(groups, g, v), where[v := g];
    }
    assert order[..|order|] == order;
    result := Groups(groups);
  }

  lemma {:induction false} NothingScheduled(arcs: seq<Arc>, facts: map<Id, ParallelFacts>)
    ensures Scheduled([], map[], [], arcs, facts)
  {
  }

  lemma {:induction false} ScheduledPlaces(groups: seq<seq<Id>>, where: map<Id, nat>, order: seq<Id>, arcs: seq<Arc>,
                                           facts: map<Id, ParallelFacts>)
    requires Scheduled(groups, where, order, arcs, facts)
    ensures where.Keys == Elements(order) && Placed(groups, where)
  {
  }

  lemma {:induction false} PairsPaid(cost: nat, i: nat, n: nat)
    requires i < n
    ensures Product(cost, PairCount(i)) + Product(cost, i) == Product(cost, PairCount(i + 1))
    ensures Product(cost, PairCount(i + 1)) <= Product(cost, PairCount(n))
  {
    ProductGrows(cost, PairCount(i), i);
    PairCountGrows(i + 1, n);
    ProductKeepsOrder(cost, PairCount(i + 1), PairCount(n));
  }

  lemma {:induction false} NothingPlaced(cost: nat)
    ensures Members([]) == 0 && Product(cost, PairCount(0)) == 0
  {
    ProductNext(cost, 0);
  }

  lemma {:induction false} MinimumInRange(groups: seq<seq<Id>>, where: map<Id, nat>, arcs: seq<Arc>, v: Id,
                                          minimum: nat)
    requires Placed(groups, where)
    requires minimum == 0
             || exists a :: a in arcs && a.target == v && a.source in where && where[a.source] + 1 == minimum
    ensures minimum <= |groups|
  {
  }

  lemma {:induction false} GroupsKnown(groups: seq<seq<Id>>, where: map<Id, nat>, order: seq<Id>, i: nat,
                                       facts: map<Id, ParallelFacts>)
    requires i <= |order| && Placed(groups, where) && where.Keys == Elements(order[..i])
             && forall v :: v in order ==> v in facts
    ensures forall h, x :: 0 <= h < |groups| && x in groups[h] ==> x in facts
  {
    forall h, x | 0 <= h < |groups| && x in groups[h]
      ensures x in facts
    {
      assert x in Elements(order[..i]);
    }
  }

  lemma {:induction false} PutScheduled(groups: seq<seq<Id>>, where: map<Id, nat>, order: seq<Id>, i: nat,
                                        arcs: seq<Arc>, facts: map<Id, ParallelFacts>, g: nat, minimum: nat)
    requires i < |order| && NoDuplicates(order) && Forward(order, arcs) && (forall v :: v in order ==> v in facts)
    requires Scheduled(groups, where, order[..i], arcs, facts)
    requires minimum <= g <= |groups|
    requires forall a :: a in arcs && a.target == order[i] && a.source in where ==> where[a.source] < minimum
    requires minimum == 0
             || exists a :: a in arcs && a.target == order[i] && a.source in where && where[a.source] + 1 == minimum
    requires order[i] in facts && forall h, x :: 0 <= h < |groups| && x in groups[h] ==> x in facts
    requires forall h :: minimum <= h < g ==> !Accepts(groups[h], order[i], facts)
    requires g < |groups| ==> Accepts(groups[g], order[i], facts)
    ensures Scheduled(Put(groups, g, order[i]), where[order[i] := g], order[..i + 1], arcs, facts)
  {
    var v := order[i];
    assert order[..i + 1] == order[..i] + [v];
    assert Elements(order[..i + 1]) == Elements(order[..i]) + {v};
    assert v !in where;
    hide Conflict, Accepts;
    PutPlaced(groups, where, g, v);
    PutLayered(where, order, i, arcs, g);
    PutConflictFree(groups, g, v, facts);
    PutFirstFit(groups, where, order, i, arcs, facts, g, minimum);
    hide Placed, Layered, ConflictFree, FirstFit;
  }
}
