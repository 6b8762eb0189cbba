/** Go's 64-bit integer arithmetic, and the two checked operations built on it. */
module CheckedArithmetic {

  const TWO_TO_63: int := 0x8000_0000_0000_0000
  const MAX_INT64: int := TWO_TO_63 - 1
  const MIN_INT64: int := -TWO_TO_63

  type Int64 = x: int | -0x8000_0000_0000_0000 <= x < 0x8000_0000_0000_0000

  type Int32 = x: int | -0x8000_0000 <= x < 0x8000_0000

  predicate Fits(x: int)
  {
    MIN_INT64 <= x <= MAX_INT64
  }

  /** Two's complement: the value modulo 2^64, in the signed range. */
  function Wrap(x: int): (r: Int64)
    ensures Fits(x) ==> r == x
    ensures (x - r) % (2 * TWO_TO_63) == 0
  {
    var m := (x + TWO_TO_63) % (2 * TWO_TO_63);
    assert x + TWO_TO_63 == 2 * TWO_TO_63 * ((x + TWO_TO_63) / (2 * TWO_TO_63)) + m;
    MultipleOf((x + TWO_TO_63) / (2 * TWO_TO_63), 2 * TWO_TO_63);
    m - TWO_TO_63
  }

  /** A multiple is zero or at least as large as its unit. */
  lemma {:induction false} Multiples(k: int, m: int)
    requires m > 0
    ensures k >= 1 ==> m * k >= m
    ensures k <= -1 ==> m * k <= -m
  {
  }

  lemma {:induction false} MultipleOf(k: int, m: int)
    requires m > 0
    ensures (m * k) % m == 0
  {
    var q, r := m * k / m, m * k % m;
    assert m * (k - q) == r by { assert m * k == m * q + r; }
    Multiples(k - q, m);
  }

  /** Division truncates towards zero; the one quotient out of range wraps. */
  function Divide(a: Int64, b: Int64): (q: Int64)
    requires b != 0
    ensures !(a == MIN_INT64 && b == -1) ==> -Magnitude(b) < a - q * b < Magnitude(b)
  {
    DivideBounds(a, b);
    if a >= 0 then Truncated(a, b) else Wrap(0 - Truncated(0 - a, b))
  }

  lemma {:induction false} DivideBounds(a: Int64, b: Int64)
    requires b != 0
    ensures a >= 0 ==> Fits(Truncated(a, b)) && -Magnitude(b) < a - Truncated(a, b) * b < Magnitude(b)
    ensures a < 0 && !(a == MIN_INT64 && b == -1) ==>
              var t := 0 - Truncated(0 - a, b); Fits(t) && -Magnitude(b) < a - t * b < Magnitude(b)
  {
    hide Truncated;
    if a >= 0 {
      TruncatedBound(a, b);
    } else {
      TruncatedBound(0 - a, b);
      Negated(Truncated(0 - a, b), b);
    }
  }

  lemma {:induction false} Negated(t: int, b: int)
    ensures (0 - t) * b == -(t * b)
  {
  }

  function Magnitude(x: int): (m: int)
    ensures m >= 0
  {
    if x < 0 then -x else x
  }

  function Truncated(a: int, b: int): (q: int)
    requires a >= 0 && b != 0
  {
    if b > 0 then a / b else -(a / -b)
  }

  lemma {:induction false} TruncatedBound(a: int, b: int)
    requires a >= 0 && b != 0
    ensures 0 <= a - Truncated(a, b) * b < Magnitude(b)
    ensures -a <= Truncated(a, b) <= a
    ensures b != -1 && a != 0 ==> -a < Truncated(a, b)
  {
    var d := Magnitude(b);
    QuotientAtMost(a, d);
    assert a == d * (a / d) + a % d;
    if b < 0 {
      assert Truncated(a, b) * b == (a / d) * d;
    }
  }

  lemma {:induction false} QuotientAtMost(a: int, d: int)
    requires a >= 0 && d > 0
    ensures 0 <= a / d <= a
    ensures d > 1 && a > 0 ==> a / d < a
  {
    var q := a / d;
    assert a == d * q + a % d;
    Multiples(q, d);
    if q > 0 {
      Multiples(d, q);
      if d > 1 {
        Multiples(d - 1, q);
        assert q * d == q * (d - 1) + q;
      }
    }
  }

  datatype Checked = Value(value: Int64) | Overflow

  /** checkedAdd succeeds exactly when the true sum is in range. */
  function CheckedAdd(left: Int64, right: Int64): (r: Checked)
    ensures r.Value? <==> Fits(left + right)
    ensures r.Value? ==> r.value == left + right
  {
    if (right > 0 && left > MAX_INT64 - right) || (right < 0 && left < MIN_INT64 - right) then Overflow
    else Value(Wrap(left + right))
  }

  /** checkedMul succeeds exactly when the true product is in range: dividing the wrapped
      product back is enough of a test once the one wrapping division is set apart. */
  function CheckedMul(left: Int64, right: Int64): (r: Checked)
    ensures r.Value? <==> Fits(left * right)
    ensures r.Value? ==> r.value == left * right
  {
    ProductFits(left, right);
    if left == 0 || right == 0 then Value(0)
    else if (left == -1 && right == MIN_INT64) || (right == -1 && left == MIN_INT64) then Overflow
    else if Divide(Wrap(left * right), right) != left then Overflow
    else Value(Wrap(left * right))
  }

  lemma {:induction false} ProductFits(left: Int64, right: Int64)
    ensures left == 0 || right == 0 ==> left * right == 0
    ensures left != 0 && right != 0 && !((left == -1 && right == MIN_INT64) || (right == -1 && left == MIN_INT64)) ==>
              (Divide(Wrap(left * right), right) == left <==> Fits(left * right))
  {
    if left != 0 && right != 0 && !((left == -1 && right == MIN_INT64) || (right == -1 && left == MIN_INT64)) {
      var product := left * right;
      var wrapped := Wrap(product);
      var quotient := Divide(wrapped, right);
      if Fits(product) {
        assert wrapped == product;
        assert wrapped != MIN_INT64 || right != -1;
        CloseQuotient(left, quotient, right);
      } else if wrapped == MIN_INT64 && right == -1 {
        WrapsToMinimum(left);
      } else if quotient == left {
        NearMultiple(product - wrapped, right);
      }
    }
  }

  /** Two quotients whose products lie less than the divisor apart are the same. */
  lemma {:induction false} CloseQuotient(a: int, b: int, d: int)
    requires d != 0 && -Magnitude(d) < a * d - b * d < Magnitude(d)
    ensures a == b
  {
    var m := Magnitude(d);
    Multiples(a - b, m);
    assert a * d - b * d == if d > 0 then m * (a - b) else -(m * (a - b));
  }

  lemma {:induction false} WrapsToMinimum(left: Int64)
    requires Wrap(0 - left) == MIN_INT64
    ensures left == MIN_INT64
  {
  }

  /** A multiple of 2^64 smaller than a divisor is zero. */
  lemma {:induction false} NearMultiple(x: int, d: Int64)
    requires x % (2 * TWO_TO_63) == 0 && -Magnitude(d) < x < Magnitude(d)
    ensures x == 0
  {
  }
}
