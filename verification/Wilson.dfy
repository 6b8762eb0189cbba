/** The Wilson lower confidence bound in whole parts per million, found by binary
search over an exact integer test. */
module Wilson {

  const PARTS_PER_MILLION: nat := 1000000

  /** The quadratic of the lower bound, cleared of fractions, with q parts per unit. */
  function Quadratic(m: int, s: int, n: int, z: int, q: int): (v: int)
  {
    n * ((n * q + z) * (m * m)) - n * ((2 * (s * q) + z) * (m * q)) + (s * s) * (q * (q * q))
  }

  /** atOrBelowWilsonLower: left of the vertex and not below zero. */
  predicate AtOrBelow(m: nat, s: nat, n: nat, z: nat)
  {
    var q := PARTS_PER_MILLION;
    2 * (m * (n * q + z)) <= q * (2 * (s * q) + z) && Quadratic(m, s, n, z, q) >= 0
  }

  lemma {:induction false} FirstTerm(m: int, n: int, z: int, q: int, a: int)
    requires a == n * m
    ensures n * ((n * q + z) * (m * m)) == q * (a * a) + z * a * m
  {
    var b := (n * q + z) * m;
    assert b == q * a + z * m;
    assert n * ((n * q + z) * (m * m)) == a * b;
    assert a * (q * a) == q * (a * a);
    assert a * (z * m) == z * a * m;
  }

  lemma {:induction false} SecondTerm(m: int, n: int, z: int, q: int, a: int, b: int)
    requires a == n * m
    ensures n * ((2 * b + z) * (m * q)) == 2 * (q * (a * b)) + z * a * q
  {
    assert n * ((2 * b + z) * (m * q)) == a * ((2 * b + z) * q);
    assert (2 * b + z) * q == 2 * (b * q) + z * q;
    assert a * (2 * (b * q) + z * q) == 2 * (a * (b * q)) + a * (z * q);
    assert a * (b * q) == q * (a * b);
    assert a * (z * q) == z * a * q;
  }

  lemma {:induction false} ThirdTerm(s: int, q: int, b: int)
    requires b == s * q
    ensures (s * s) * (q * (q * q)) == q * (b * b)
  {
    assert b * b == (s * s) * (q * q);
    assert (s * s) * (q * (q * q)) == q * ((s * s) * (q * q));
  }

  lemma {:induction false} SquaredDistance(a: int, b: int, q: int)
    ensures q * ((a - b) * (a - b)) == q * (a * a) - 2 * (q * (a * b)) + q * (b * b)
  {
    assert (a - b) * (a - b) == a * a - 2 * (a * b) + b * b;
  }

  /** The same quadratic as the squared distance from the observed rate less the spread. */
  lemma {:induction false} QuadraticAsDistance(m: int, s: int, n: int, z: int, q: int)
    ensures Quadratic(m, s, n, z, q) == q * ((n * m - s * q) * (n * m - s * q)) - z * (n * m) * (q - m)
  {
    var a, b := n * m, s * q;
    FirstTerm(m, n, z, q, a);
    SecondTerm(m, n, z, q, a, b);
    ThirdTerm(s, q, b);
    SquaredDistance(a, b, q);
    assert z * a * (q - m) == z * a * q - z * a * m;
  }

  /** The centre test in the same terms: twice the excess over the observed rate. */
  lemma {:induction false} CentreAsDistance(m: int, s: int, n: int, z: int, q: int)
    ensures 2 * (m * (n * q + z)) <= q * (2 * (s * q) + z) <==> 2 * (q * (n * m - s * q)) <= z * (q - 2 * m)
  {
    assert m * (n * q + z) == q * (n * m) + z * m;
    assert q * (2 * (s * q) + z) == 2 * (q * (s * q)) + z * q;
    assert q * (n * m - s * q) == q * (n * m) - q * (s * q);
    assert z * (q - 2 * m) == z * q - 2 * (z * m);
  }

  /** What the test says: the excess over the rate is at most the allowed lean, and the
      squared distance covers the spread. */
  lemma {:induction false} TestAsDistance(m: nat, s: nat, n: nat, z: nat)
    ensures var q := PARTS_PER_MILLION; var d := n * m - s * q;
            AtOrBelow(m, s, n, z) <==> 2 * (q * d) <= z * (q - 2 * m) && q * (d * d) >= z * (n * m) * (q - m)
  {
    QuadraticAsDistance(m, s, n, z, PARTS_PER_MILLION);
    CentreAsDistance(m, s, n, z, PARTS_PER_MILLION);
  }

  lemma {:induction false} TrueAtZero(s: nat, n: nat, z: nat)
    ensures AtOrBelow(0, s, n, z)
  {
    var q := PARTS_PER_MILLION;
    assert Quadratic(0, s, n, z, q) == (s * s) * (q * (q * q));
    assert q * (2 * (s * q) + z) >= 0;
  }

  lemma {:induction false} MulMonotone(a: int, b: int, c: int)
    requires a <= b && c >= 0
    ensures a * c <= b * c
  {
  }

  lemma {:induction false} MulSigns(a: int, b: int)
    requires a <= 0 && b <= 0
    ensures a * b >= 0
  {
  }

  /** Left of the vertex the quadratic falls, so the test holds below any point where it holds. */
  lemma {:induction false} DownwardClosed(m: nat, lower: nat, s: nat, n: nat, z: nat)
    requires lower <= m && AtOrBelow(m, s, n, z)
    ensures AtOrBelow(lower, s, n, z)
  {
    var q := PARTS_PER_MILLION;
    var a, c := n * q + z, q * (2 * (s * q) + z);
    MulMonotone(lower, m, a);
    FallingLeft(m, lower, s, n, z, q);
    assert a * (m + lower) - c <= 0 by {
      assert a * (m + lower) == m * a + lower * a;
    }
    MulSigns(lower - m, a * (m + lower) - c);
    assert n * ((lower - m) * (a * (m + lower) - c)) >= 0;
  }

  lemma {:induction false} FallingLeft(m: int, lower: int, s: int, n: int, z: int, q: int)
    ensures Quadratic(lower, s, n, z, q) - Quadratic(m, s, n, z, q)
         == n * ((lower - m) * ((n * q + z) * (m + lower) - q * (2 * (s * q) + z)))
  {
    var a, b := n * q + z, 2 * (s * q) + z;
    assert a * (lower * lower) - a * (m * m) == (lower - m) * (a * (m + lower));
    assert b * (lower * q) - b * (m * q) == (lower - m) * (q * b);
    assert (lower - m) * (a * (m + lower) - q * b) == (lower - m) * (a * (m + lower)) - (lower - m) * (q * b);
    var x := a * (lower * lower) - a * (m * m);
    var y := b * (lower * q) - b * (m * q);
    assert n * (x - y) == n * (a * (lower * lower)) - n * (a * (m * m)) - (n * (b * (lower * q)) - n * (b * (m * q)));
  }

  // ----- the bound

  /** WilsonLowerBoundPPM: the greatest value that passes the test. */
  method WilsonLowerBoundPPM(successes: nat, samples: nat, zSquared: nat) returns (bound: nat)
    ensures bound == LowerBound(successes, samples, zSquared)
  {
    if samples == 0 || successes > samples || zSquared == 0 {
      return 0;
    }
    var lo, hi := 0, PARTS_PER_MILLION;
    TrueAtZero(successes, samples, zSquared);
    while lo < hi
      invariant 0 <= lo <= hi <= PARTS_PER_MILLION
      invariant AtOrBelow(lo, successes, samples, zSquared)
      invariant forall m :: hi < m <= PARTS_PER_MILLION ==> !AtOrBelow(m, successes, samples, zSquared)
      decreases hi - lo
    {
      hide AtOrBelow;
      var mid := lo + (hi - lo + 1) / 2;
      if AtOrBelow(mid, successes, samples, zSquared) {
        lo := mid;
      } else {
        forall m | mid <= m <= PARTS_PER_MILLION
          ensures !AtOrBelow(m, successes, samples, zSquared)
        {
          if AtOrBelow(m, successes, samples, zSquared) {
            DownwardClosed(m, mid, successes, samples, zSquared);
          }
        }
        hi := mid - 1;
      }
    }
    IsLowerBound(lo, successes, samples, zSquared);
    return lo;
  }

  predicate Usable(s: nat, n: nat, z: nat)
  {
    n > 0 && s <= n && z > 0
  }

  predicate Greatest(m: nat, s: nat, n: nat, z: nat)
  {
    m <= PARTS_PER_MILLION && AtOrBelow(m, s, n, z) && forall k :: m < k <= PARTS_PER_MILLION ==> !AtOrBelow(k, s, n, z)
  }

  /** The bound as a function: zero for unusable input, otherwise the greatest passing value. */
  ghost function LowerBound(s: nat, n: nat, z: nat): (m: nat)
    ensures m <= PARTS_PER_MILLION
  {
    if !Usable(s, n, z) then 0 else
      GreatestExists(s, n, z, PARTS_PER_MILLION);
      var m: nat :| Greatest(m, s, n, z);
      m
  }

  lemma {:induction false} GreatestExists(s: nat, n: nat, z: nat, top: nat)
    requires top <= PARTS_PER_MILLION && forall k :: top < k <= PARTS_PER_MILLION ==> !AtOrBelow(k, s, n, z)
    ensures exists m: nat :: Greatest(m, s, n, z)
    decreases top
  {
    TrueAtZero(s, n, z);
    hide AtOrBelow;
    if AtOrBelow(top, s, n, z) {
      assert Greatest(top, s, n, z);
    } else {
      GreatestExists(s, n, z, top - 1);
    }
  }

  lemma {:induction false} IsLowerBound(m: nat, s: nat, n: nat, z: nat)
    requires Usable(s, n, z) && Greatest(m, s, n, z)
    ensures m == LowerBound(s, n, z)
  {
    hide AtOrBelow;
  }

  /** The values that pass are exactly those up to the bound. */
  lemma {:induction false} PassesUpToBound(m: nat, s: nat, n: nat, z: nat)
    requires Usable(s, n, z) && m <= PARTS_PER_MILLION
    ensures AtOrBelow(m, s, n, z) <==> m <= LowerBound(s, n, z)
  {
    hide AtOrBelow;
    var bound := LowerBound(s, n, z);
    GreatestExists(s, n, z, PARTS_PER_MILLION);
    assert Greatest(bound, s, n, z);
    if m <= bound {
      DownwardClosed(bound, m, s, n, z);
    }
  }

  // ----- what the bound promises

  /** A passing value never exceeds the observed success rate. */
  lemma {:induction false} PassingBelowRate(m: nat, s: nat, n: nat, z: nat)
    requires z > 0 && m <= PARTS_PER_MILLION && AtOrBelow(m, s, n, z)
    ensures n * m <= s * PARTS_PER_MILLION
  {
    var q := PARTS_PER_MILLION;
    var d, a := n * m - s * q, n * m;
    TestAsDistance(m, s, n, z);
    hide AtOrBelow;
    if d > 0 {
      ExcessFails(d, a, m, z, q);
    }
  }

  /** Above the rate the allowed lean is too small for the squared distance to cover the spread. */
  lemma {:induction false} ExcessFails(d: int, a: int, m: int, z: int, q: int)
    requires 0 < d <= a && 0 <= m <= q && z > 0 && q > 0 && 2 * (q * d) <= z * (q - 2 * m)
    ensures q * (d * d) < z * a * (q - m)
  {
    var lean, room := z * (q - 2 * m), z * (q - m);
    assert q * d > 0;
    assert lean > 0;
    assert 2 * room == lean + z * q;
    assert lean < 2 * room by { assert z * q > 0; }
    assert 2 * (q * (d * d)) == (2 * (q * d)) * d;
    MulMonotone(2 * (q * d), lean, d);
    assert lean * d < (2 * room) * d by { assert (2 * room - lean) * d > 0; assert (2 * room - lean) * d
                                         == (2 * room) * d - lean * d; }
    MulMonotone(d, a, 2 * room);
    assert (2 * room) * a == 2 * (z * a * (q - m)) by { assert room * a == z * a * (q - m); }
    assert d * (2 * room) == (2 * room) * d && a * (2 * room) == (2 * room) * a;
  }

  /** The bound never exceeds the observed success rate. */
  lemma {:induction false} BoundBelowRate(s: nat, n: nat, z: nat)
    ensures n * LowerBound(s, n, z) <= s * PARTS_PER_MILLION
  {
    if Usable(s, n, z) {
      var bound := LowerBound(s, n, z);
      PassesUpToBound(bound, s, n, z);
      PassingBelowRate(bound, s, n, z);
    }
  }

  lemma {:induction false} FartherSquare(d: int, e: int, q: int)
    requires e <= d <= 0 && q >= 0
    ensures q * (d * d) <= q * (e * e)
  {
    assert e * e - d * d == (e - d) * (e + d);
    MulSigns(e - d, e + d);
    MulMonotone(d * d, e * e, q);
  }

  /** With more successes among the same samples a passing value still passes. */
  lemma {:induction false} PassesWithMoreSuccesses(m: nat, s: nat, more: nat, n: nat, z: nat)
    requires s <= more && z > 0 && m <= PARTS_PER_MILLION && AtOrBelow(m, s, n, z)
    ensures AtOrBelow(m, more, n, z)
  {
    var q := PARTS_PER_MILLION;
    var d, e := n * m - s * q, n * m - more * q;
    PassingBelowRate(m, s, n, z);
    TestAsDistance(m, s, n, z);
    TestAsDistance(m, more, n, z);
    hide AtOrBelow;
    FartherSquare(d, e, q);
  }

  /** The bound does not fall as successes rise at a fixed number of samples. */
  lemma {:induction false} BoundRisesWithSuccesses(s: nat, more: nat, n: nat, z: nat)
    requires s <= more <= n
    ensures LowerBound(s, n, z) <= LowerBound(more, n, z)
  {
    hide AtOrBelow;
    if Usable(s, n, z) {
      var bound := LowerBound(s, n, z);
      PassesUpToBound(bound, s, n, z);
      PassesWithMoreSuccesses(bound, s, more, n, z);
      PassesUpToBound(bound, more, n, z);
    }
  }

  /** At a lower confidence a passing value still passes. */
  lemma {:induction false} PassesWithLessConfidence(m: nat, s: nat, n: nat, z: nat, less: nat)
    requires 0 < less <= z && m <= PARTS_PER_MILLION && AtOrBelow(m, s, n, z)
    ensures AtOrBelow(m, s, n, less)
  {
    hide AtOrBelow;
    var q := PARTS_PER_MILLION;
    var d := n * m - s * q;
    PassingBelowRate(m, s, n, z);
    TestAsDistance(m, s, n, z);
    TestAsDistance(m, s, n, less);
    LessSpread(z, less, n * m, q - m);
    LessLean(d, z, less, m, q);
  }

  lemma {:induction false} LessSpread(z: int, less: int, a: int, w: int)
    requires less <= z && a >= 0 && w >= 0
    ensures less * a * w <= z * a * w
  {
    assert a * w >= 0;
    MulMonotone(less, z, a * w);
    assert less * a * w == less * (a * w) && z * a * w == z * (a * w);
  }

  lemma {:induction false} LessLean(d: int, z: int, less: int, m: int, q: int)
    requires d <= 0 && 0 < less <= z && q > 0 && 2 * (q * d) <= z * (q - 2 * m)
    ensures 2 * (q * d) <= less * (q - 2 * m)
  {
    var lean := q - 2 * m;
    if lean >= 0 {
      assert less * lean >= 0;
      assert q * d <= 0;
    } else {
      MulMonotone(less, z, -lean);
      assert less * -lean == -(less * lean) && z * -lean == -(z * lean);
    }
  }

  /** The bound does not rise as the confidence parameter rises. */
  lemma {:induction false} BoundFallsWithConfidence(s: nat, n: nat, z: nat, less: nat)
    requires 0 < less <= z
    ensures LowerBound(s, n, z) <= LowerBound(s, n, less)
  {
    hide AtOrBelow;
    if Usable(s, n, z) {
      var bound := LowerBound(s, n, z);
      PassesUpToBound(bound, s, n, z);
      PassesWithLessConfidence(bound, s, n, z, less);
      PassesUpToBound(bound, s, n, less);
    }
  }

  // ----- against the real Wilson bound

  /** The Wilson quadratic for confidence parameter `zz`. */
  function Curve(x: real, s: real, n: real, zz: real): (v: real)
  {
    n * ((n + zz) * (x * x) - (2.0 * s + zz) * x) + s * s
  }

  /** The smaller root of the curve. */
  predicate LowerRoot(x: real, s: real, n: real, zz: real)
  {
    n > 0.0 && Curve(x, s, n, zz) == 0.0 && 2.0 * (x * (n + zz)) <= 2.0 * s + zz
  }

  lemma {:induction false} CurveDifference(x: real, root: real, s: real, n: real, zz: real)
    ensures Curve(x, s, n, zz) - Curve(root, s, n, zz) == n * ((x - root) * ((n + zz) * (x + root) - (2.0 * s + zz)))
  {
    var a, b := n + zz, 2.0 * s + zz;
    assert (x - root) * (a * (x + root) - b) == (a * (x * x) - b * x) - (a * (root * root) - b * root);
    assert n * ((a * (x * x) - b * x) - (a * (root * root) - b * root))
        == n * (a * (x * x) - b * x) - n * (a * (root * root) - b * root);
  }

  /** Among values left of the vertex, the curve is not negative exactly up to the smaller root. */
  lemma {:induction false} NotNegativeUpToRoot(x: real, root: real, s: real, n: real, zz: real)
    requires LowerRoot(root, s, n, zz) && zz > 0.0
    ensures x <= root <==> 2.0 * (x * (n + zz)) <= 2.0 * s + zz && Curve(x, s, n, zz) >= 0.0
  {
    CurveDifference(x, root, s, n, zz);
    var a, b := n + zz, 2.0 * s + zz;
    var slope := a * (x + root) - b;
    assert 2.0 * slope == (2.0 * (x * a) - b) + (2.0 * (root * a) - b);
    if x <= root {
      assert (root - x) * a >= 0.0;
      assert x * a <= root * a;
      assert (root - x) * (-slope) >= 0.0;
      assert (x - root) * slope == (root - x) * (-slope);
    } else if 2.0 * (x * a) <= b {
      assert (x - root) * a > 0.0;
      assert root * a < x * a;
      assert slope < 0.0;
      assert (x - root) * (-slope) > 0.0;
      assert n * ((x - root) * (-slope)) > 0.0;
      assert n * ((x - root) * slope) == -(n * ((x - root) * (-slope)));
    }
  }

  lemma {:induction false} RealProduct(a: int, b: int)
    ensures (a * b) as real == (a as real) * (b as real)
  {
  }

  /** The integer quadratic is the curve, scaled by a million cubed. */
  lemma {:induction false} QuadraticScales(m: int, s: int, n: int, z: int)
    ensures var x, zz := m as real / 1000000.0, z as real / 1000000.0;
            Quadratic(m, s, n, z, 1000000) as real == 1000000000000000000.0 * Curve(x, s as real, n as real, zz)
  {
    var x, zz := m as real / 1000000.0, z as real / 1000000.0;
    var sr, nr := s as real, n as real;
    RealProduct(m, m);
    RealProduct(s, s);
    RealProduct(n * 1000000 + z, m * m);
    RealProduct(n, (n * 1000000 + z) * (m * m));
    RealProduct(2 * (s * 1000000) + z, m * 1000000);
    RealProduct(n, (2 * (s * 1000000) + z) * (m * 1000000));
    var first := nr * ((nr * 1000000.0 + zz * 1000000.0) * ((x * 1000000.0) * (x * 1000000.0)));
    var second := nr * ((2.0 * (sr * 1000000.0) + zz * 1000000.0) * ((x * 1000000.0) * 1000000.0));
    assert Quadratic(m, s, n, z, 1000000) as real == first - second + (sr * sr) * 1000000000000000000.0;
    assert first == 1000000000000000000.0 * (nr * ((nr + zz) * (x * x)));
    assert second == 1000000000000000000.0 * (nr * ((2.0 * sr + zz) * x));
    assert nr * ((nr + zz) * (x * x) - (2.0 * sr + zz) * x) == nr * ((nr + zz) * (x * x)) - nr * ((2.0 * sr + zz) * x);
  }

  lemma {:induction false} CentreScales(m: int, s: int, n: int, z: int)
    ensures var x, zz := m as real / 1000000.0, z as real / 1000000.0;
            2 * (m * (n * 1000000 + z)) <= 1000000 * (2 * (s * 1000000) + z)
            <==> 2.0 * (x * (n as real + zz)) <= 2.0 * (s as real) + zz
  {
    var x, zz := m as real / 1000000.0, z as real / 1000000.0;
    RealProduct(m, n * 1000000 + z);
    assert (m * (n * 1000000 + z)) as real == 1000000000000.0 * (x * (n as real + zz));
  }

  /** The documented promise: a value passes exactly when, as a fraction, it is no greater
      than the exact lower root of the Wilson quadratic. */
  lemma {:induction false} PassesUpToRealBound(m: nat, s: nat, n: nat, z: nat, root: real)
    requires z > 0 && LowerRoot(root, s as real, n as real, z as real / 1000000.0)
    ensures AtOrBelow(m, s, n, z) <==> m as real / 1000000.0 <= root
  {
    hide Curve, LowerRoot, Quadratic;
    QuadraticScales(m, s, n, z);
    CentreScales(m, s, n, z);
    NotNegativeUpToRoot(m as real / 1000000.0, root, s as real, n as real, z as real / 1000000.0);
  }

  /** So the bound is the real bound rounded down to whole parts per million. */
  lemma {:induction false} BoundIsFloorOfRealBound(s: nat, n: nat, z: nat, root: real)
    requires Usable(s, n, z) && LowerRoot(root, s as real, n as real, z as real / 1000000.0)
    ensures LowerBound(s, n, z) as real / 1000000.0 <= root
    ensures LowerBound(s, n, z) < PARTS_PER_MILLION ==> root < (LowerBound(s, n, z) + 1) as real / 1000000.0
  {
    hide AtOrBelow, LowerRoot;
    var bound := LowerBound(s, n, z);
    PassesUpToBound(bound, s, n, z);
    PassesUpToRealBound(bound, s, n, z, root);
    if bound < PARTS_PER_MILLION {
      PassesUpToBound(bound + 1, s, n, z);
      PassesUpToRealBound(bound + 1, s, n, z, root);
    }
  }
}
