/** How much the planner's search can cost: bounds on the states, expansions and work of every level,
from the numbers of candidates and edges and the depth alone. */
module SearchLimits {
  import opened Identifiers
  import opened Planning

  // ----- counting sets of versions

  /** The number of k-element subsets of an n-element set. */
  function Choose(n: nat, k: nat): (r: nat)
  {
    if k == 0 then 1 else if n == 0 then 0 else Choose(n - 1, k - 1) + Choose(n - 1, k)
  }

  function Less(family: set<set<Id>>, u: Id): (r: set<set<Id>>)
  {
    set x | x in family :: x - {u}
  }

  lemma {:induction false} LessCounted(family: set<set<Id>>, u: Id)
    requires forall x :: x in family ==> u in x
    ensures |Less(family, u)| == |family|
  {
    if family != {} {
      var x :| x in family;
      var rest := family - {x};
      LessCounted(rest, u);
      forall y | y in rest
        ensures y - {u} != x - {u}
      {
        assert y == (y - {u}) + {u} && x == (x - {u}) + {u};
      }
      assert Less(family, u) == Less(rest, u) + {x - {u}};
    }
  }

  /** A universe has no more subsets of a size than `Choose` says. */
  lemma {:induction false} SubsetsCounted(universe: set<Id>, k: nat, family: set<set<Id>>)
    requires forall x :: x in family ==> x <= universe && |x| == k
    ensures |family| <= Choose(|universe|, k)
    decreases |universe|
  {
    hide Choose, Less, Holding;
    if k == 0 {
      OnlyEmpty(universe, family);
    } else if universe == {} {
      NoneLarge(k, family);
    } else {
      var u :| u in universe;
      var smaller := universe - {u};
      var n := |smaller|;
      assert |universe| == n + 1;
      ChooseNext(n, k);
      HoldingCounted(universe, k, family, u);
      SubsetsCounted(smaller, k - 1, Less(Holding(family, u), u));
      SubsetsCounted(smaller, k, family - Holding(family, u));
    }
  }

  lemma {:induction false} ChooseNext(n: nat, k: nat)
    requires k > 0
    ensures Choose(n + 1, k) == Choose(n, k - 1) + Choose(n, k)
  {
  }

  lemma {:induction false} OnlyEmpty(universe: set<Id>, family: set<set<Id>>)
    requires forall x :: x in family ==> x <= universe && |x| == 0
    ensures |family| <= Choose(|universe|, 0)
  {
    assert family <= {{}};
    FamilySize(family, {{}});
  }

  lemma {:induction false} HoldingCounted(universe: set<Id>, k: nat, family: set<set<Id>>, u: Id)
    requires k > 0 && forall x :: x in family ==> x <= universe && |x| == k
    ensures |family| == |Less(Holding(family, u), u)| + |family - Holding(family, u)|
    ensures forall y :: y in Less(Holding(family, u), u) ==> y <= universe - {u} && |y| == k - 1
    ensures forall y :: y in family - Holding(family, u) ==> y <= universe - {u} && |y| == k
  {
    var holding := Holding(family, u);
    LessCounted(holding, u);
    LessFits(universe, k, holding, u);
    OthersFit(universe, k, family, u);
    hide Less, Holding;
    assert family == holding + (family - holding);
  }

  function Holding(family: set<set<Id>>, u: Id): (r: set<set<Id>>)
    ensures r <= family && forall x :: x in r ==> u in x
  {
    set x | x in family && u in x
  }

  lemma {:induction false} NoneLarge(k: nat, family: set<set<Id>>)
    requires k > 0 && forall x :: x in family ==> x <= {} && |x| == k
    ensures family == {}
  {
    assert forall x: set<Id> :: x <= {} ==> x == {} && |x| == 0;
  }

  lemma {:induction false} LessFits(universe: set<Id>, k: nat, family: set<set<Id>>, u: Id)
    requires k > 0 && forall x :: x in family ==> u in x && x <= universe && |x| == k
    ensures forall y :: y in Less(family, u) ==> y <= universe - {u} && |y| == k - 1
  {
  }

  lemma {:induction false} OthersFit(universe: set<Id>, k: nat, family: set<set<Id>>, u: Id)
    requires forall x :: x in family ==> x <= universe && |x| == k
    ensures forall y :: y in family - Holding(family, u) ==> y <= universe - {u} && |y| == k
  {
  }

  lemma {:induction false} FamilySize(a: set<set<Id>>, b: set<set<Id>>)
    requires a <= b
    ensures |a| <= |b|
  {
    assert b == a + (b - a);
  }

  // ----- the cost of a search

  function Product(a: nat, b: nat): (r: nat)
  {
    a * b
  }

  lemma {:induction false} ProductGrows(a: nat, b: nat, more: nat)
    ensures Product(a, b + more) == Product(a, b) + Product(a, more)
  {
  }

  lemma {:induction false} ProductKeepsOrder(a: nat, b: nat, more: nat)
    requires b <= more
    ensures Product(a, b) <= Product(a, more) && Product(b, a) <= Product(more, a)
  {
    assert a * more == a * b + a * (more - b);
  }

  lemma {:induction false} ProductNext(a: nat, b: nat)
    ensures Product(a, 0) == 0 && Product(a, b + 1) == Product(a, b) + a
  {
  }

  /** The versions left to add to a set of size k. */
  function Room(n: nat, k: nat): (r: nat)
  {
    if k < n then n - k else 0
  }

  /** The expansions of all levels below the depth. */
  function Expansions(n: nat, depth: nat): (r: nat)
  {
    if depth <= 1 then 0 else Expansions(n, depth - 1) + Product(Choose(n, depth - 1), Room(n, depth - 1))
  }

  /** The states expanded on all levels below the depth. */
  function Scans(n: nat, depth: nat): (r: nat)
  {
    if depth <= 1 then 0 else Scans(n, depth - 1) + Choose(n, depth - 1)
  }

  lemma {:induction false} CostsGrow(n: nat, depth: nat, more: nat)
    requires depth <= more
    ensures Expansions(n, depth) <= Expansions(n, more) && Scans(n, depth) <= Scans(n, more)
  {
    if depth < more {
      CostsGrow(n, depth, more - 1);
    }
  }

  /** One edge scan for every seed's level and every state built, and one unit for each seed. */
  function SearchCost(p: Problem): (r: nat)
  {
    var n, depth := |p.byVersion|, p.manifest.maximumDepth;
    |p.seeds| + Product(|p.edges|, Scans(n, depth) + Expansions(n, depth))
  }

  /** The limits leave room for everything the search could build within its depth, starting with
      `used` units of work spent. */
  predicate Roomy(p: Problem, used: nat, maximum: nat)
  {
    var n, depth := |p.byVersion|, p.manifest.maximumDepth;
    && (forall k :: 1 <= k <= depth ==> Choose(n, k) <= p.manifest.beamWidth)
    && Expansions(n, depth) < p.manifest.maximumExpansions
    && used + SearchCost(p) <= maximum
  }

  /** What a search with room has spent when it reaches a level. */
  predicate Accounted(p: Problem, start: nat, maximum: nat, depth: nat, width: nat, expansions: nat, used: nat,
                      codes: set<LimitCode>)
  {
    Roomy(p, start, maximum) ==>
      && codes == {} && width <= Choose(|p.byVersion|, depth) && expansions <= Expansions(|p.byVersion|, depth)
      && used <= start + |p.seeds| + Product(|p.edges|, Scans(|p.byVersion|, depth) + expansions)
  }

  /** The seeds' level. */
  lemma {:induction false} FirstLevel(p: Problem, start: nat, maximum: nat, level: nat, width: nat, used: nat,
                                      codes: set<LimitCode>)
    requires p.manifest.maximumDepth >= 1 && width <= level <= Choose(|p.byVersion|, 1) && used <= start + |p.seeds|
    requires codes != {} ==> start + |p.seeds| > maximum || level > p.manifest.beamWidth
    ensures Accounted(p, start, maximum, 1, width, 0, used, codes)
  {
    hide Choose;
    assert Product(|p.edges|, Scans(|p.byVersion|, 1) + 0) == 0;
  }

  /** The work and expansions of one level stay within those of a search with room. */
  lemma {:induction false} LevelAffordable(p: Problem, start: nat, maximum: nat, depth: nat, width: nat,
                                           expansions: nat, used: nat, codes: set<LimitCode>, more: nat)
    requires Accounted(p, start, maximum, depth, width, expansions, used, codes) && Roomy(p, start, maximum)
    requires 1 <= depth < p.manifest.maximumDepth
    requires expansions <= more <= expansions + Product(width, Room(|p.byVersion|, depth))
    ensures more <= Expansions(|p.byVersion|, depth + 1) < p.manifest.maximumExpansions
    ensures used + Product(|p.edges|, width + (more - expansions))
         <= start + |p.seeds| + Product(|p.edges|, Scans(|p.byVersion|, depth + 1) + more) <= maximum
  {
    var n, e := |p.byVersion|, |p.edges|;
    var last := p.manifest.maximumDepth;
    hide Choose;
    ProductKeepsOrder(Room(n, depth), width, Choose(n, depth));
    CostsGrow(n, depth + 1, last);
    ProductGrows(e, Scans(n, depth) + expansions, width + (more - expansions));
    ProductKeepsOrder(e, Scans(n, depth) + expansions + (width + (more - expansions)), Scans(n, depth + 1) + more);
    ProductKeepsOrder(e, Scans(n, depth + 1) + more, Scans(n, last) + Expansions(n, last));
  }

  lemma {:induction false} ExpansionsLeft(p: Problem, start: nat, maximum: nat, depth: nat, width: nat, expansions: nat,
                                          used: nat, codes: set<LimitCode>)
    requires Accounted(p, start, maximum, depth, width, expansions, used, codes) && depth <= p.manifest.maximumDepth
    ensures Roomy(p, start, maximum) ==> codes == {} && expansions < p.manifest.maximumExpansions
  {
    CostsGrow(|p.byVersion|, depth, p.manifest.maximumDepth);
  }

  /** A level a search with room cannot pay for does not exist. */
  lemma {:induction false} NeverShort(p: Problem, start: nat, maximum: nat, depth: nat, width: nat, expansions: nat,
                                      used: nat, codes: set<LimitCode>, more: nat)
    requires Accounted(p, start, maximum, depth, width, expansions, used, codes) && 1 <= depth < p.manifest.maximumDepth
    requires expansions <= more <= expansions + Product(width, Room(|p.byVersion|, depth))
    requires used + Product(|p.edges|, width + (more - expansions)) > maximum
    ensures !Roomy(p, start, maximum)
  {
    if Roomy(p, start, maximum) {
      LevelAffordable(p, start, maximum, depth, width, expansions, used, codes, more);
    }
  }

  /** From one level to the next. */
  lemma {:induction false} NextLevel(p: Problem, start: nat, maximum: nat, depth: nat, width: nat, expansions: nat,
                                     used: nat, codes: set<LimitCode>, more: nat, spent: nat, level: nat, kept: nat,
                                     after: set<LimitCode>)
    requires Accounted(p, start, maximum, depth, width, expansions, used, codes) && 1 <= depth < p.manifest.maximumDepth
    requires expansions <= more <= expansions + Product(width, Room(|p.byVersion|, depth))
    requires spent <= used + Product(|p.edges|, width + (more - expansions))
    requires kept <= level <= Choose(|p.byVersion|, depth + 1)
    requires after != codes ==> more >= p.manifest.maximumExpansions || level > p.manifest.beamWidth
    ensures Accounted(p, start, maximum, depth + 1, kept, more, spent, after)
  {
    if Roomy(p, start, maximum) {
      LevelAffordable(p, start, maximum, depth, width, expansions, used, codes, more);
    }
  }
}
