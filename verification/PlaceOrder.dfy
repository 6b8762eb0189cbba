/** Where first fit puts each node, read off the plan alone, and from it the plans whose schedule
runs like the plan. */
module PlaceOrder {
  import opened Identifiers
  import opened Digraph
  import opened Planning
  import opened ParallelSchedule
  import opened Execution
  import opened ScheduleMeaning

  // ----- the places

  /** Group g takes the next node: its predecessors sit earlier, and nothing in the group conflicts with it. */
  predicate Allowed(places: seq<nat>, order: seq<Id>, arcs: seq<Arc>, facts: map<Id, ParallelFacts>, g: nat)
    requires |places| < |order| && forall v :: v in order ==> v in facts
  {
    var k := |places|;
    forall i :: 0 <= i < k ==>
      && (Arc(order[i], order[k]) in arcs ==> places[i] < g)
      && (places[i] == g ==> !Conflict(facts[order[i]], facts[order[k]]))
  }

  function Top(places: seq<nat>): (t: nat)
    ensures forall i :: 0 <= i < |places| ==> places[i] <= t
  {
    if places == [] then 0
    else
      var t := Top(places[..|places| - 1]);
      assert forall i :: 0 <= i < |places| - 1 ==> places[i] == places[..|places| - 1][i];
      if places[|places| - 1] > t then places[|places| - 1] else t
  }

  /** The least group from g on that takes the next node. */
  function FirstAllowed(places: seq<nat>, order: seq<Id>, arcs: seq<Arc>, facts: map<Id, ParallelFacts>, g: nat)
    : (place: nat)
    requires |places| < |order| && (forall v :: v in order ==> v in facts) && g <= Top(places) + 1
    ensures g <= place && Allowed(places, order, arcs, facts, place)
    ensures forall h :: g <= h < place ==> !Allowed(places, order, arcs, facts, h)
    decreases Top(places) + 1 - g
  {
    if Allowed(places, order, arcs, facts, g) then g else FirstAllowed(places, order, arcs, facts, g + 1)
  }

  /** The places of the first k nodes of the plan. */
  function Places(order: seq<Id>, arcs: seq<Arc>, facts: map<Id, ParallelFacts>, k: nat): (places: seq<nat>)
    requires k <= |order| && forall v :: v in order ==> v in facts
    ensures |places| == k
  {
    if k == 0 then []
    else
      var before := Places(order, arcs, facts, k - 1);
      before + [FirstAllowed(before, order, arcs, facts, 0)]
  }

  /** The schedule has no say: every node stands at its place. */
  lemma {:induction false} PlacesDecide(groups: seq<seq<Id>>, where: map<Id, nat>, order: seq<Id>, arcs: seq<Arc>,
                                        facts: map<Id, ParallelFacts>, k: nat)
    requires NoDuplicates(order) && Forward(order, arcs) && Within(arcs, Elements(order))
             && (forall v :: v in order ==> v in facts)
    requires Scheduled(groups, where, order, arcs, facts) && k <= |order|
    ensures forall i :: 0 <= i < k ==> order[i] in where && where[order[i]] == Places(order, arcs, facts, k)[i]
  {
    hide Scheduled, FirstAllowed, NoDuplicates, Forward, Within;
    if k > 0 {
      PlacesDecide(groups, where, order, arcs, facts, k - 1);
      NextPlace(groups, where, order, arcs, facts, Places(order, arcs, facts, k - 1));
    }
  }

  lemma {:induction false} NextPlace(groups: seq<seq<Id>>, where: map<Id, nat>, order: seq<Id>, arcs: seq<Arc>,
                                     facts: map<Id, ParallelFacts>, places: seq<nat>)
    requires NoDuplicates(order) && Forward(order, arcs) && Within(arcs, Elements(order))
    requires |places| < |order| && (forall v :: v in order ==> v in facts)
    requires Scheduled(groups, where, order, arcs, facts)
    requires forall i :: 0 <= i < |places| ==> order[i] in where && where[order[i]] == places[i]
    ensures order[|places|] in where && where[order[|places|]] == FirstAllowed(places, order, arcs, facts, 0)
  {
    hide Scheduled, Allowed, FirstAllowed, NoDuplicates, Forward, Within;
    PlaceAllowed(groups, where, order, arcs, facts, places);
    LowerRefused(groups, where, order, arcs, facts, places);
    var place, first := where[order[|places|]], FirstAllowed(places, order, arcs, facts, 0);
    assert !(first < place) && !(place < first);
  }

  lemma {:induction false} PlaceAllowed(groups: seq<seq<Id>>, where: map<Id, nat>, order: seq<Id>, arcs: seq<Arc>,
                                        facts: map<Id, ParallelFacts>, places: seq<nat>)
    requires NoDuplicates(order) && |places| < |order| && (forall v :: v in order ==> v in facts)
    requires Scheduled(groups, where, order, arcs, facts)
    requires forall i :: 0 <= i < |places| ==> order[i] in where && where[order[i]] == places[i]
    ensures order[|places|] in where && Allowed(places, order, arcs, facts, where[order[|places|]])
  {
    var k := |places|;
    var v := order[k];
    assert v in Elements(order);
    forall i | 0 <= i < k
      ensures Arc(order[i], v) in arcs ==> places[i] < where[v]
      ensures places[i] == where[v] ==> !Conflict(facts[order[i]], facts[v])
    {
      if places[i] == where[v] {
        assert PairwiseFree(groups[where[v]], facts);
        assert order[i] in groups[where[v]] && v in groups[where[v]];
      }
    }
  }

  lemma {:induction false} LowerRefused(groups: seq<seq<Id>>, where: map<Id, nat>, order: seq<Id>, arcs: seq<Arc>,
                                        facts: map<Id, ParallelFacts>, places: seq<nat>)
    requires NoDuplicates(order) && Forward(order, arcs) && Within(arcs, Elements(order))
    requires |places| < |order| && (forall v :: v in order ==> v in facts)
    requires Scheduled(groups, where, order, arcs, facts) && order[|places|] in where
    requires forall i :: 0 <= i < |places| ==> order[i] in where && where[order[i]] == places[i]
    ensures forall g: nat :: g < where[order[|places|]] ==> !Allowed(places, order, arcs, facts, g)
  {
    var k := |places|;
    forall g: nat | g < where[order[k]]
      ensures !Allowed(places, order, arcs, facts, g)
    {
      assert Blocked(groups, where, order, arcs, facts, k, g);
      if a :| a in arcs && a.target == order[k] && a.source in where && where[a.source] >= g {
        assert a.source in Elements(order);
        var i :| 0 <= i < |order| && order[i] == a.source;
        assert a == Arc(order[i], order[k]);
        assert i < k;
      } else {
        var i :| 0 <= i < k && order[i] in groups[g] && Conflict(facts[order[i]], facts[order[k]]);
        assert places[i] == g;
      }
    }
  }

  // ----- when the schedule runs like the plan

  /** Every interfering pair of the plan has its places in the order of the plan. */
  predicate PlacesKeepOrder(order: seq<Id>, arcs: seq<Arc>, facts: map<Id, ParallelFacts>)
    requires forall v :: v in order ==> v in facts
  {
    var places := Places(order, arcs, facts, |order|);
    forall i, j :: 0 <= i < j < |order| && Interferes(facts[order[i]], facts[order[j]]) ==> places[i] < places[j]
  }

  /** Whatever the procedures do within their declarations, from every store. */
  ghost predicate AlwaysLikePlan(groups: seq<seq<Id>>, order: seq<Id>, facts: map<Id, ParallelFacts>)
  {
    forall run: (Id, Store<int>) -> Store<int>, s: Store<int> {:trigger RunGroups(run, groups, s)} ::
      AllRespect(run, Elements(order), facts) ==> RunGroups(run, groups, s) == Run(run, order, s)
  }

  /** The schedule always runs like the plan exactly when the plan's places keep its order: a
      condition on the order, the dependencies and the declared facts, before anything is scheduled. */
  lemma {:induction false} LikePlanExactly(groups: seq<seq<Id>>, where: map<Id, nat>, order: seq<Id>, arcs: seq<Arc>,
                                           facts: map<Id, ParallelFacts>)
    requires NoDuplicates(order) && Forward(order, arcs) && Within(arcs, Elements(order))
             && (forall v :: v in order ==> v in facts)
    requires Scheduled(groups, where, order, arcs, facts)
    ensures AlwaysLikePlan(groups, order, facts) <==> PlacesKeepOrder(order, arcs, facts)
  {
    PlacesDecide(groups, where, order, arcs, facts, |order|);
    var places := Places(order, arcs, facts, |order|);
    hide Scheduled, Respects, Interferes, Places, AllRespect, RunGroups;
    if PlacesKeepOrder(order, arcs, facts) {
      assert forall i, j :: !Inverted(order, where, facts, i, j);
      forall run: (Id, Store<int>) -> Store<int>, s: Store<int> | AllRespect(run, Elements(order), facts)
        ensures RunGroups(run, groups, s) == Run(run, order, s)
      {
        ScheduleRunsLikePlan(run, groups, where, order, arcs, facts, s);
      }
    } else {
      var i, j :| 0 <= i < j < |order| && Interferes(facts[order[i]], facts[order[j]]) && !(places[i] < places[j]);
      PlacesApart(groups, where, order, arcs, facts, i, j);
      var run, s := InversionShows(groups, where, order, arcs, facts, i, j);
      assert RunGroups(run, groups, s) != Run(run, order, s);
    }
  }

  lemma {:induction false} PlacesApart(groups: seq<seq<Id>>, where: map<Id, nat>, order: seq<Id>, arcs: seq<Arc>,
                                       facts: map<Id, ParallelFacts>, i: nat, j: nat)
    requires NoDuplicates(order) && Scheduled(groups, where, order, arcs, facts) && i < j < |order|
    requires order[i] in where && order[j] in where && order[i] in facts && order[j] in facts
    requires Interferes(facts[order[i]], facts[order[j]]) && where[order[i]] >= where[order[j]]
    ensures Inverted(order, where, facts, i, j)
  {
    NotTogether(groups, where, facts, order[i], order[j]);
  }

  // ----- joined pairs

  /** A path of dependencies leads from one node to the other. */
  ghost predicate Joined(arcs: seq<Arc>, nodes: set<Id>, x: Id, y: Id)
  {
    exists w :: |w| >= 2 && w[0] == x && w[|w| - 1] == y && IsWalk(w, nodes, arcs)
  }

  lemma {:induction false} GroupsRise(where: map<Id, nat>, arcs: seq<Arc>, w: seq<Id>)
    requires Layered(where, arcs) && |w| >= 2 && IsWalk(w, where.Keys, arcs)
    ensures where[w[0]] < where[w[|w| - 1]]
  {
    assert Arc(w[0], w[0 + 1]) in arcs;
    if |w| > 2 {
      var tail := w[1..];
      assert forall i :: 0 <= i < |tail| ==> tail[i] == w[i + 1];
      GroupsRise(where, arcs, tail);
    }
  }

  /** A joined pair is never inverted. */
  lemma {:induction false} JoinedNotInverted(groups: seq<seq<Id>>, where: map<Id, nat>, order: seq<Id>, arcs: seq<Arc>,
                                             facts: map<Id, ParallelFacts>, i: nat, j: nat)
    requires Scheduled(groups, where, order, arcs, facts) && i < j < |order|
             && Joined(arcs, Elements(order), order[i], order[j])
    ensures !Inverted(order, where, facts, i, j)
  {
    var w :| |w| >= 2 && w[0] == order[i] && w[|w| - 1] == order[j] && IsWalk(w, Elements(order), arcs);
    GroupsRise(where, arcs, w);
  }

  /** If every interfering pair is joined by dependencies, the schedule gives the store of the plan
      order, whatever the procedures do within their declarations. */
  lemma {:induction false} JoinedRunsLikePlan<V(!new)>(run: (Id, Store<V>) -> Store<V>, groups: seq<seq<Id>>,
                                                       where: map<Id, nat>,
                                    order: seq<Id>, arcs: seq<Arc>, facts: map<Id, ParallelFacts>, s: Store<V>)
    requires NoDuplicates(order) && Scheduled(groups, where, order, arcs, facts)
             && AllRespect(run, Elements(order), facts)
    requires forall i, j :: 0 <= i < j < |order| && order[i] in facts && order[j] in facts
                 && Interferes(facts[order[i]], facts[order[j]])
               ==> Joined(arcs, Elements(order), order[i], order[j])
    ensures RunGroups(run, groups, s) == Run(run, order, s)
  {
    hide Scheduled, AllRespect, Joined, RunGroups, Interferes;
    forall i, j
      ensures !Inverted(order, where, facts, i, j)
    {
      if 0 <= i < j < |order| && Inverted(order, where, facts, i, j) {
        JoinedNotInverted(groups, where, order, arcs, facts, i, j);
      }
    }
    ScheduleRunsLikePlan(run, groups, where, order, arcs, facts, s);
  }
}
