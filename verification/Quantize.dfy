/** Exact fixed-point reading of decimal probabilities. */
module Quantize {

  const PROBABILITY_SCALE: nat := 1000000

  // ----- the text

  datatype Sign = Unsigned | Plus | Minus

  datatype Exponent = NoExponent | Exponent(marker: char, sign: Sign, digits: string)

  /** A non-negative number as section 6 of RFC 8259 writes it; an empty fraction is none. */
  datatype Decimal = Decimal(whole: string, fraction: string, exponent: Exponent)

  predicate IsDigit(c: char)
  {
    '0' <= c <= '9'
  }

  predicate AllDigits(s: string)
  {
    forall i :: 0 <= i < |s| ==> IsDigit(s[i])
  }

  predicate ValidWhole(s: string)
  {
    s != [] && AllDigits(s) && (|s| == 1 || s[0] != '0')
  }

  predicate ValidExponent(e: Exponent)
  {
    e.Exponent? ==> (e.marker == 'e' || e.marker == 'E') && e.digits != [] && AllDigits(e.digits)
  }

  predicate WellFormed(d: Decimal)
  {
    ValidWhole(d.whole) && AllDigits(d.fraction) && ValidExponent(d.exponent)
  }

  function RenderSign(s: Sign): (r: string)
  {
    match s
    case Unsigned => ""
    case Plus => "+"
    case Minus => "-"
  }

  function RenderExponent(e: Exponent): (r: string)
  {
    if e.NoExponent? then "" else [e.marker] + RenderSign(e.sign) + e.digits
  }

  function RenderFraction(fraction: string): (r: string)
  {
    if fraction == [] then "" else ['.'] + fraction
  }

  function Render(d: Decimal): (r: string)
  {
    d.whole + (RenderFraction(d.fraction) + RenderExponent(d.exponent))
  }

  // ----- reading it

  /** The length of the longest prefix of digits. */
  function DigitRun(s: string): (n: nat)
    ensures n <= |s| && AllDigits(s[..n]) && (n == |s| || !IsDigit(s[n]))
  {
    if s == [] || !IsDigit(s[0]) then 0
    else
      var n := DigitRun(s[1..]);
      assert s[..n + 1] == [s[0]] + s[1..][..n];
      n + 1
  }

  lemma {:induction false} RunOf(digits: string, rest: string)
    requires AllDigits(digits) && (rest == [] || !IsDigit(rest[0]))
    ensures DigitRun(digits + rest) == |digits|
    ensures (digits + rest)[..|digits|] == digits && (digits + rest)[|digits|..] == rest
  {
    if digits == [] {
      assert digits + rest == rest;
    } else {
      assert (digits + rest)[1..] == digits[1..] + rest;
      RunOf(digits[1..], rest);
    }
  }

  datatype Parsed<T> = Read(value: T) | Malformed

  function ParseExponent(s: string): (r: Parsed<Exponent>)
  {
    if s == [] then Read(NoExponent)
    else if s[0] != 'e' && s[0] != 'E' then Malformed
    else
      var sign := if |s| > 1 && s[1] == '+' then Plus else if |s| > 1 && s[1] == '-' then Minus else Unsigned;
      var digits := s[1 + |RenderSign(sign)|..];
      if digits == [] || DigitRun(digits) != |digits| then Malformed else Read(Exponent(s[0], sign, digits))
  }

  function ParseFraction(s: string): (r: Parsed<(string, string)>)
  {
    if s == [] || s[0] != '.' then Read(([], s))
    else
      var n := DigitRun(s[1..]);
      if n == 0 then Malformed else Read((s[1..][..n], s[1..][n..]))
  }

  function Parse(raw: string): (r: Parsed<Decimal>)
  {
    var n := DigitRun(raw);
    if !ValidWhole(raw[..n]) then Malformed
    else
      match ParseFraction(raw[n..])
      case Malformed => Malformed
      case Read(split) =>
        match ParseExponent(split.1)
        case Malformed => Malformed
        case Read(e) => Read(Decimal(raw[..n], split.0, e))
  }

  lemma {:induction false} ExponentRoundTrip(e: Exponent)
    requires ValidExponent(e)
    ensures ParseExponent(RenderExponent(e)) == Read(e)
  {
    if e.Exponent? {
      var s := RenderExponent(e);
      assert s[0] == e.marker;
      assert |s| > 1;
      assert e.sign == Unsigned ==> s[1] == e.digits[0] && IsDigit(s[1]);
      assert s[1 + |RenderSign(e.sign)|..] == e.digits;
      RunOf(e.digits, []);
      assert e.digits + [] == e.digits;
    }
  }

  lemma {:induction false} ExponentSound(s: string)
    requires ParseExponent(s).Read?
    ensures ValidExponent(ParseExponent(s).value) && RenderExponent(ParseExponent(s).value) == s
  {
    if s != [] {
      var e := ParseExponent(s).value;
      assert e.digits[..DigitRun(e.digits)] == e.digits;
      assert s == [s[0]] + s[1..];
      if e.sign != Unsigned {
        assert s[1..] == [s[1]] + s[2..];
      }
    }
  }

  lemma {:induction false} FractionRoundTrip(fraction: string, rest: string)
    requires AllDigits(fraction) && (rest == [] || (!IsDigit(rest[0]) && rest[0] != '.'))
    ensures ParseFraction(RenderFraction(fraction) + rest) == Read((fraction, rest))
  {
    var s := RenderFraction(fraction) + rest;
    if fraction == [] {
      assert s == rest;
    } else {
      assert s[1..] == fraction + rest;
      RunOf(fraction, rest);
    }
  }

  lemma {:induction false} FractionSound(s: string)
    requires ParseFraction(s).Read?
    ensures var (fraction, rest) := ParseFraction(s).value; AllDigits(fraction) && RenderFraction(fraction) + rest == s
  {
    hide DigitRun;
    if s != [] && s[0] == '.' {
      var tail := s[1..];
      var n := DigitRun(tail);
      assert tail == tail[..n] + tail[n..];
      assert RenderFraction(tail[..n]) == ['.'] + tail[..n];
      assert s == ['.'] + tail;
    } else {
      assert RenderFraction([]) + s == s;
    }
  }

  /** Writing and reading a number gives it back. */
  lemma {:induction false} ParseRender(d: Decimal)
    requires WellFormed(d)
    ensures Parse(Render(d)) == Read(d)
  {
    var tail := RenderExponent(d.exponent);
    var rest := RenderFraction(d.fraction) + tail;
    RunOf(d.whole, rest);
    FractionRoundTrip(d.fraction, tail);
    ExponentRoundTrip(d.exponent);
  }

  /** What is read is a well-formed number that writes as the text. */
  lemma {:induction false} ParseSound(raw: string)
    requires Parse(raw).Read?
    ensures WellFormed(Parse(raw).value) && Render(Parse(raw).value) == raw
  {
    var n := DigitRun(raw);
    FractionSound(raw[n..]);
    ExponentSound(ParseFraction(raw[n..]).value.1);
    assert raw == raw[..n] + raw[n..];
  }

  // ----- what it means

  function Digit(c: char): (n: nat)
    requires IsDigit(c)
    ensures n <= 9
  {
    c as int - '0' as int
  }

  function Power(n: nat): (p: nat)
    ensures p > 0
  {
    if n == 0 then 1 else 10 * Power(n - 1)
  }

  /** Digits read as a whole number, most significant first. */
  function DigitsValue(s: string): (n: nat)
    requires AllDigits(s)
  {
    if s == [] then 0 else 10 * DigitsValue(s[..|s| - 1]) + Digit(s[|s| - 1])
  }

  /** Digits read after the point. */
  function FractionValue(s: string): (x: real)
    requires AllDigits(s)
  {
    if s == [] then 0.0 else (Digit(s[0]) as real + FractionValue(s[1..])) / 10.0
  }

  function ExponentValue(e: Exponent): (n: int)
    requires ValidExponent(e)
  {
    if e.NoExponent? then 0 else if e.sign == Minus then 0 - DigitsValue(e.digits) else DigitsValue(e.digits)
  }

  function TenTo(e: int): (x: real)
    ensures x > 0.0
  {
    if e >= 0 then Power(e) as real else 1.0 / Power(-e) as real
  }

  /** The number the text denotes. */
  function Meaning(d: Decimal): (x: real)
    requires WellFormed(d)
  {
    (DigitsValue(d.whole) as real + FractionValue(d.fraction)) * TenTo(ExponentValue(d.exponent))
  }

  lemma {:induction false} PowerAdds(a: nat, b: nat)
    ensures Power(a + b) == Power(a) * Power(b)
  {
    if b > 0 {
      PowerAdds(a, b - 1);
    }
  }

  lemma {:induction false} DigitsConcat(a: string, b: string)
    requires AllDigits(a) && AllDigits(b)
    ensures AllDigits(a + b) && DigitsValue(a + b) == DigitsValue(a) * Power(|b|) + DigitsValue(b)
  {
    if b == [] {
      assert a + b == a;
    } else {
      var n := |b| - 1;
      DigitsConcat(a, b[..n]);
      assert (a + b)[..|a + b| - 1] == a + b[..n];
      assert DigitsValue(a) * Power(|b|) == 10 * (DigitsValue(a) * Power(n));
    }
  }

  lemma {:induction false} FirstDigit(s: string)
    requires AllDigits(s) && s != []
    ensures DigitsValue(s) == Digit(s[0]) * Power(|s| - 1) + DigitsValue(s[1..])
  {
    DigitsConcat([s[0]], s[1..]);
    assert [s[0]] + s[1..] == s;
    assert [s[0]][..0] == [];
    assert DigitsValue([s[0]]) == Digit(s[0]);
  }

  /** Multiplication, named so that proofs can treat it as a whole. */
  function Times(x: real, y: real): (p: real)
  {
    x * y
  }

  lemma {:induction false} FractionIsDigits(s: string)
    requires AllDigits(s)
    ensures Times(FractionValue(s), Power(|s|) as real) == DigitsValue(s) as real
  {
    if s != [] {
      hide Times;
      FractionIsDigits(s[1..]);
      FirstDigit(s);
      TenthTimes(FractionValue(s), Digit(s[0]), FractionValue(s[1..]), Power(|s| - 1), DigitsValue(s[1..]));
    }
  }

  lemma {:induction false} RealProduct(a: int, b: int)
    ensures (a * b) as real == a as real * b as real
  {
  }

  lemma {:induction false} TenthTimes(value: real, first: int, tail: real, p: int, rest: int)
    requires value == (first as real + tail) / 10.0 && Times(tail, p as real) == rest as real
    ensures Times(value, (10 * p) as real) == (first * p + rest) as real
  {
    var f, q := first as real, p as real;
    RealProduct(first, p);
    assert (10 * p) as real == 10.0 * q;
    var x := f + tail;
    assert x / 10.0 * (10.0 * q) == x * q;
    assert x * q == f * q + tail * q;
  }

  // ----- decimalMicros

  datatype Outcome = Micros(value: int) | InvalidProbability

  const MAXIMUM_LENGTH: nat := 128
  const MAXIMUM_EXPONENT: int := 1000

  /** The number as a fraction of whole numbers, as the code forms it. */
  function Numerator(d: Decimal): (n: nat)
    requires WellFormed(d)
  {
    DigitsConcat(d.whole, d.fraction);
    var scale := |d.fraction| - ExponentValue(d.exponent);
    DigitsValue(d.whole + d.fraction) * if scale < 0 then Power(-scale) else 1
  }

  function Denominator(d: Decimal): (n: nat)
    requires WellFormed(d)
    ensures n > 0
  {
    var scale := |d.fraction| - ExponentValue(d.exponent);
    if scale > 0 then Power(scale) else 1
  }

  /** Conversion to 32 bits keeps the low bits. */
  function Truncate32(x: int): (r: int)
  {
    (x + 0x8000_0000) % 0x1_0000_0000 - 0x8000_0000
  }

  /** The arithmetic of decimalMicros. */
  function FromFraction(numerator: nat, denominator: nat, maximumUnits: nat): (o: Outcome)
    requires denominator > 0
  {
    if numerator > denominator * maximumUnits then InvalidProbability
    else
      var scaled := numerator * PROBABILITY_SCALE;
      var quotient, remainder := scaled / denominator, scaled % denominator;
      var rounded := if 2 * remainder >= denominator then quotient + 1 else quotient;
      if rounded < 0 || rounded > maximumUnits * PROBABILITY_SCALE then InvalidProbability
         else Micros(Truncate32(rounded))
  }

  function DecimalMicros(raw: string, maximumUnits: nat): (o: Outcome)
  {
    if raw == [] || |raw| > MAXIMUM_LENGTH then InvalidProbability
    else
      match Parse(raw)
      case Malformed => InvalidProbability
      case Read(d) =>
        ParseSound(raw);
        if ExponentValue(d.exponent) < -MAXIMUM_EXPONENT
           || ExponentValue(d.exponent) > MAXIMUM_EXPONENT then InvalidProbability
        else
          FromFraction(Numerator(d), Denominator(d), maximumUnits)
  }

  function ProbabilityMicros(raw: string): (o: Outcome)
  {
    DecimalMicros(raw, 1)
  }

  // ----- the fraction is the number

  lemma {:induction false} PowerReal(a: nat, b: nat)
    ensures Power(a + b) as real == Times(Power(a) as real, Power(b) as real)
  {
    PowerAdds(a, b);
    RealProduct(Power(a), Power(b));
  }

  lemma {:induction false} TimesOne(x: real)
    ensures Times(1.0, x) == x == Times(x, 1.0)
  {
  }

  /** Raising and lowering by powers of ten: the exponent less the scale of the fraction. */
  lemma {:induction false} ShiftedPower(digits: nat, e: int, num: nat, den: nat)
    requires num == if digits < e then Power(e - digits) else 1
    requires den == if digits > e then Power(digits - e) else 1
    ensures Times(num as real, Power(digits) as real) == Times(TenTo(e), den as real)
  {
    var scale := digits - e;
    assert Power(0) == 1;
    hide Times, Power;
    TimesOne(Power(digits) as real);
    TimesOne(TenTo(e));
    if scale <= 0 {
      PowerReal(-scale, digits);
    } else if e >= 0 {
      PowerReal(e, scale);
    } else {
      PowerReal(digits, -e);
      Cancels(TenTo(e), Power(-e) as real, Power(digits) as real);
    }
  }

  lemma {:induction false} Cancels(inverse: real, p: real, d: real)
    requires p > 0.0 && inverse == 1.0 / p
    ensures d == Times(inverse, Times(d, p))
  {
    assert inverse * p == 1.0;
    assert inverse * (d * p) == d * (inverse * p);
  }

  /** The fraction the code forms equals the number the text denotes. */
  lemma {:induction false} FractionIsMeaning(d: Decimal)
    requires WellFormed(d)
    ensures Numerator(d) as real == Times(Meaning(d), Denominator(d) as real)
  {
    hide *;
    Parts(d);
    var k, e := |d.fraction|, ExponentValue(d.exponent);
    var scale := k - e;
    DigitsConcat(d.whole, d.fraction);
    FractionIsDigits(d.fraction);
    var x, t := DigitsValue(d.whole) as real + FractionValue(d.fraction), TenTo(e);
    var num := if scale < 0 then Power(-scale) else 1;
    ShiftedPower(k, e, num, Denominator(d));
    AllTheDigits(DigitsValue(d.whole), FractionValue(d.fraction), Power(k), DigitsValue(d.fraction));
    NumeratorIs(d, DigitsValue(d.whole + d.fraction), num);
    Regroup(x, Power(k) as real, num as real, t, Denominator(d) as real);
  }

  lemma {:induction false} Parts(d: Decimal)
    requires WellFormed(d)
    ensures AllDigits(d.whole) && AllDigits(d.fraction) && ValidExponent(d.exponent)
    ensures Meaning(d) == Times(DigitsValue(d.whole) as real + FractionValue(d.fraction),
                                TenTo(ExponentValue(d.exponent)))
    ensures var scale := |d.fraction| - ExponentValue(d.exponent); Denominator(d) == if scale > 0 then Power(scale)
                else 1
  {
    hide DigitsValue, FractionValue, TenTo, ExponentValue, Power;
  }

  lemma {:induction false} NumeratorIs(d: Decimal, all: nat, num: nat)
    requires WellFormed(d) && AllDigits(d.whole + d.fraction) && all == DigitsValue(d.whole + d.fraction)
    requires var scale := |d.fraction| - ExponentValue(d.exponent); num == if scale < 0 then Power(-scale) else 1
    ensures Numerator(d) as real == Times(all as real, num as real)
  {
    hide DigitsValue, ExponentValue, Power;
    RealProduct(all, num);
  }

  lemma {:induction false} AllTheDigits(whole: int, fraction: real, p: int, digits: int)
    requires Times(fraction, p as real) == digits as real
    ensures (whole * p + digits) as real == Times(whole as real + fraction, p as real)
  {
    RealProduct(whole, p);
    var w, q := whole as real, p as real;
    assert (w + fraction) * q == w * q + fraction * q;
  }

  lemma {:induction false} Regroup(x: real, p: real, num: real, t: real, den: real)
    requires Times(num, p) == Times(t, den)
    ensures Times(Times(x, p), num) == Times(Times(x, t), den)
  {
    assert (x * p) * num == x * (num * p);
    assert (x * t) * den == x * (t * den);
  }

  // ----- rounding

  /** The nearest whole number, halves going up. */
  predicate RoundsTo(x: real, n: int)
  {
    n as real - 0.5 <= x < n as real + 0.5
  }

  lemma {:induction false} DivideBack(x: real, y: real, den: real)
    requires den > 0.0
    ensures Times(x, den) < Times(y, den) <==> x < y
    ensures Times(x, den) <= Times(y, den) <==> x <= y
  {
    assert (y - x) * den == y * den - x * den;
    if y > x {
      assert (y - x) * den > 0.0;
    } else if y < x {
      assert (x - y) * den > 0.0;
      assert (x - y) * den == x * den - y * den;
    }
  }

  /** The quotient, adjusted by twice the remainder, is the rounded value. */
  lemma {:induction false} RoundsQuotient(scaled: nat, den: nat, x: real)
    requires den > 0 && scaled as real == Times(x, den as real)
    ensures RoundsTo(x, if 2 * (scaled % den) >= den then scaled / den + 1 else scaled / den)
  {
    hide Times;
    var q, r := scaled / den, scaled % den;
    var n := if 2 * r >= den then q + 1 else q;
    assert scaled == den * q + r;
    assert den * (q + 1) == den * q + den;
    var product := den * n;
    assert 2 * product - den <= 2 * scaled < 2 * product + den;
    HalfEitherSide(product, den, n);
    DivideBack(n as real - 0.5, x, den as real);
    DivideBack(x, n as real + 0.5, den as real);
  }

  lemma {:induction false} HalfEitherSide(product: int, den: int, n: int)
    requires product == den * n
    ensures Times(n as real - 0.5, den as real) == product as real - den as real / 2.0
    ensures Times(n as real + 0.5, den as real) == product as real + den as real / 2.0
  {
    RealProduct(den, n);
    var m, d := n as real, den as real;
    assert (m - 0.5) * d == d * m - d / 2.0;
    assert (m + 0.5) * d == d * m + d / 2.0;
  }

  /** Rounding keeps the order, so equal numbers round to the same. */
  lemma {:induction false} RoundingKeepsOrder(x: real, m: int, y: real, n: int)
    requires RoundsTo(x, m) && RoundsTo(y, n) && x <= y
    ensures m <= n
  {
  }

  lemma {:induction false} RoundedWithin(x: real, n: int, maximum: nat)
    requires RoundsTo(x, n) && 0.0 <= x <= maximum as real
    ensures 0 <= n <= maximum
  {
  }

  /** The texts decimalMicros looks at. */
  predicate Readable(raw: string)
  {
    && raw != [] && |raw| <= MAXIMUM_LENGTH && Parse(raw).Read?
    && (ParseSound(raw); -MAXIMUM_EXPONENT <= ExponentValue(Parse(raw).value.exponent) <= MAXIMUM_EXPONENT)
  }

  function ValueOf(raw: string): (x: real)
    requires Readable(raw)
  {
    ParseSound(raw);
    Meaning(Parse(raw).value)
  }

  lemma {:induction false} FractionNotNegative(s: string)
    requires AllDigits(s)
    ensures FractionValue(s) >= 0.0
  {
    if s != [] {
      FractionNotNegative(s[1..]);
    }
  }

  lemma {:induction false} ValueNotNegative(raw: string)
    requires Readable(raw)
    ensures ValueOf(raw) >= 0.0
  {
    ParseSound(raw);
    hide Parse, Readable, FractionValue, DigitsValue, TenTo, WellFormed;
    var d := Parse(raw).value;
    MeaningNotNegative(d);
  }

  lemma {:induction false} MeaningNotNegative(d: Decimal)
    requires WellFormed(d)
    ensures Meaning(d) >= 0.0
  {
    hide *;
    Parts(d);
    FractionNotNegative(d.fraction);
    TimesNotNegative(DigitsValue(d.whole) as real + FractionValue(d.fraction), TenTo(ExponentValue(d.exponent)));
  }

  lemma {:induction false} TimesNotNegative(x: real, y: real)
    requires x >= 0.0 && y >= 0.0
    ensures Times(x, y) >= 0.0
  {
  }

  /** A readable text is accepted exactly when its value is at most the maximum: the last range
      check never refuses. The result is the value in millionths, rounded half up, cut to 32 bits. */
  lemma {:induction false} MicrosExact(raw: string, maximumUnits: nat) returns (n: int)
    requires Readable(raw)
    ensures RoundsTo(ValueOf(raw) * 1000000.0, n)
    ensures DecimalMicros(raw, maximumUnits) == if ValueOf(raw) <= maximumUnits as real then Micros(Truncate32(n))
            else InvalidProbability
    ensures ValueOf(raw) <= maximumUnits as real ==> 0 <= n <= maximumUnits * PROBABILITY_SCALE
  {
    ParseSound(raw);
    ValueNotNegative(raw);
    hide Parse, Meaning, Numerator, Denominator, WellFormed, ExponentValue, FromFraction, RoundsTo, Times, Truncate32;
    var d := Parse(raw).value;
    FractionIsMeaning(d);
    n := MicrosOf(Numerator(d), Denominator(d), ValueOf(raw), maximumUnits);
  }

  /** The range check at the end never refuses what the comparison with the maximum let through. */
  lemma {:induction false} MicrosOf(numerator: nat, denominator: nat, x: real, maximumUnits: nat) returns (n: int)
    requires denominator > 0 && numerator as real == Times(x, denominator as real) && x >= 0.0
    ensures RoundsTo(x * 1000000.0, n)
    ensures FromFraction(numerator, denominator, maximumUnits) == if x
            <= maximumUnits as real then Micros(Truncate32(n)) else InvalidProbability
    ensures x <= maximumUnits as real ==> 0 <= n <= maximumUnits * PROBABILITY_SCALE
  {
    hide Truncate32, Times;
    var scaled := numerator * PROBABILITY_SCALE;
    n := if 2 * (scaled % denominator) >= denominator then scaled / denominator + 1 else scaled / denominator;
    var dr, top := denominator as real, maximumUnits as real;
    TimesMillion(x, dr);
    RoundsQuotient(scaled, denominator, x * 1000000.0);
    AgainstMaximum(numerator, denominator, x, maximumUnits);
    if x <= top {
      RoundedWithin(x * 1000000.0, n, maximumUnits * PROBABILITY_SCALE);
    }
  }

  lemma {:induction false} TimesMillion(x: real, y: real)
    ensures Times(x * 1000000.0, y) == Times(x, y) * 1000000.0
  {
  }

  lemma {:induction false} AgainstMaximum(numerator: nat, denominator: nat, x: real, maximumUnits: nat)
    requires denominator > 0 && numerator as real == Times(x, denominator as real)
    ensures numerator <= denominator * maximumUnits <==> x <= maximumUnits as real
  {
    RealProduct(denominator, maximumUnits);
    assert (denominator * maximumUnits) as real == Times(maximumUnits as real, denominator as real);
    hide Times;
    DivideBack(x, maximumUnits as real, denominator as real);
  }

  const MAX_INT32: int := 0x7fff_ffff

  /** The 32-bit result is the rounded value exactly when that value fits; up to 2147 units it always does. */
  lemma {:induction false} CutOffExactly(raw: string, maximumUnits: nat) returns (n: int)
    requires Readable(raw) && ValueOf(raw) <= maximumUnits as real
    ensures DecimalMicros(raw, maximumUnits).Micros? && RoundsTo(ValueOf(raw) * 1000000.0, n) && 0 <= n
    ensures DecimalMicros(raw, maximumUnits).value == n <==> n <= MAX_INT32
    ensures maximumUnits <= 2147 ==> n <= MAX_INT32
  {
    n := MicrosExact(raw, maximumUnits);
    hide DecimalMicros, ValueOf, Readable, RoundsTo;
    assert -0x8000_0000 <= Truncate32(n) <= MAX_INT32;
    assert n <= MAX_INT32 ==> Truncate32(n) == n;
  }

  lemma {:induction false} RoundsOnce(x: real, m: int, n: int)
    requires RoundsTo(x, m) && RoundsTo(x, n)
    ensures m == n
  {
  }

  /** Texts of equal value give equal results, whatever the maximum; a greater value gives no smaller
      result as long as it rounds within 32 bits. */
  lemma {:induction false} OrderPreserved(a: string, b: string, maximumUnits: nat)
    requires Readable(a) && Readable(b) && ValueOf(a) <= ValueOf(b) <= maximumUnits as real
    ensures DecimalMicros(a, maximumUnits).Micros? && DecimalMicros(b, maximumUnits).Micros?
    ensures ValueOf(a) == ValueOf(b) ==> DecimalMicros(a, maximumUnits) == DecimalMicros(b, maximumUnits)
    ensures ValueOf(b) * 1000000.0 < MAX_INT32 as real + 0.5 ==>
            DecimalMicros(a, maximumUnits).value <= DecimalMicros(b, maximumUnits).value
  {
    hide DecimalMicros, ValueOf, Readable;
    var m := MicrosExact(a, maximumUnits);
    var n := MicrosExact(b, maximumUnits);
    var cutA := CutOffExactly(a, maximumUnits);
    var cutB := CutOffExactly(b, maximumUnits);
    var x, y := ValueOf(a) * 1000000.0, ValueOf(b) * 1000000.0;
    RoundsOnce(x, m, cutA);
    RoundsOnce(y, n, cutB);
    RoundingKeepsOrder(x, m, y, n);
    if ValueOf(a) == ValueOf(b) {
      RoundingKeepsOrder(y, n, x, m);
    }
  }

  /** A whole number without fraction or exponent. */
  lemma {:induction false} PlainNumber(whole: string)
    requires ValidWhole(whole) && |whole| <= MAXIMUM_LENGTH
    ensures Readable(whole) && ValueOf(whole) == DigitsValue(whole) as real
  {
    var d := Decimal(whole, "", NoExponent);
    assert Render(d) == whole;
    ParseRender(d);
    assert TenTo(0) == 1.0 by { assert Power(0) == 1; }
    assert ExponentValue(d.exponent) == 0 && FractionValue(d.fraction) == 0.0;
    hide Parse, DigitsValue, TenTo;
    assert Meaning(d) == DigitsValue(whole) as real;
  }

  /** With 3000 units allowed, three thousand reads as a negative number, below zero's result. */
  lemma {:induction false} CutOffExample()
    ensures DecimalMicros("3000", 3000) == Micros(3000000000 - 0x1_0000_0000) && DecimalMicros("0", 3000) == Micros(0)
  {
    DigitsAre();
    hide DecimalMicros, ValueOf, Readable, DigitsValue;
    PlainNumber("3000");
    PlainNumber("0");
    var n := MicrosExact("3000", 3000);
    var m := MicrosExact("0", 3000);
    RoundsOnce(3000000000.0, n, 3000000000);
    RoundsOnce(0.0, m, 0);
  }

  lemma {:induction false} DigitsAre()
    ensures DigitsValue("3000") == 3000 && DigitsValue("0") == 0
  {
    assert "3000"[..3] == "300" && "300"[..2] == "30" && "30"[..1] == "3" && "3"[..0] == "" && "0"[..0] == "";
    assert DigitsValue("3") == 3;
    assert DigitsValue("30") == 30;
    assert DigitsValue("300") == 300;
  }

  /** Everything else is refused. */
  lemma {:induction false} UnreadableRefused(raw: string, maximumUnits: nat)
    requires !Readable(raw)
    ensures DecimalMicros(raw, maximumUnits) == InvalidProbability
  {
    if Parse(raw).Read? {
      ParseSound(raw);
    }
  }

  /** A probability is accepted exactly when it is readable and at most one. */
  lemma {:induction false} ProbabilityExact(raw: string)
    ensures ProbabilityMicros(raw).Micros? <==> Readable(raw) && ValueOf(raw) <= 1.0
    ensures ProbabilityMicros(raw).Micros? ==>
            0 <= ProbabilityMicros(raw).value <= PROBABILITY_SCALE
            && RoundsTo(ValueOf(raw) * 1000000.0, ProbabilityMicros(raw).value)
  {
    if Readable(raw) {
      var n := MicrosExact(raw, 1);
      hide DecimalMicros, ValueOf, Readable;
      assert ValueOf(raw) <= 1.0 ==> Truncate32(n) == n;
    } else {
      UnreadableRefused(raw, 1);
    }
  }

  // ----- what the digits and the exponent mean

  /** The usual way to write a number. */
  function Numeral(n: nat): (s: string)
  {
    var digit := '0' + (n % 10) as char;
    if n < 10 then [digit] else Numeral(n / 10) + [digit]
  }

  lemma {:induction false} NumeralReads(n: nat)
    ensures ValidWhole(Numeral(n)) && DigitsValue(Numeral(n)) == n && (n > 0 ==> Numeral(n)[0] != '0')
  {
    var s := Numeral(n);
    assert Digit('0' + (n % 10) as char) == n % 10;
    if n < 10 {
      assert s[..0] == [];
    } else {
      NumeralReads(n / 10);
      assert s[..|s| - 1] == Numeral(n / 10);
    }
  }

  /** A whole number within the maximum reads as that many millions. */
  lemma {:induction false} WholeNumberReads(n: nat, maximumUnits: nat)
    requires |Numeral(n)| <= MAXIMUM_LENGTH
    ensures DecimalMicros(Numeral(n), maximumUnits) ==
            if n <= maximumUnits then Micros(Truncate32(n * 1000000)) else InvalidProbability
  {
    NumeralReads(n);
    hide DecimalMicros, ValueOf, Readable, DigitsValue, Numeral, Truncate32, ValidWhole;
    PlainNumber(Numeral(n));
    var m := MicrosExact(Numeral(n), maximumUnits);
    RoundsOnce(n as real * 1000000.0, m, n * 1000000);
  }

  /** An exponent of k multiplies by ten k times, and one of minus k divides. */
  lemma {:induction false} ExponentShifts(d: Decimal, marker: char, digits: string)
    requires WellFormed(d) && marker in {'e', 'E'} && digits != [] && AllDigits(digits)
    ensures var plain := Meaning(d.(exponent := NoExponent));
            var power := Power(DigitsValue(digits)) as real;
            && Meaning(d.(exponent := Exponent(marker, Unsigned, digits))) == Times(plain, power)
            && Meaning(d.(exponent := Exponent(marker, Plus, digits))) == Times(plain, power)
            && Times(Meaning(d.(exponent := Exponent(marker, Minus, digits))), power) == plain
  {
    hide Power, DigitsValue, FractionValue, TenTo, Times, Meaning;
    var base := DigitsValue(d.whole) as real + FractionValue(d.fraction);
    var k: int := DigitsValue(digits);
    PowersOfTen(k);
    MeaningIs(d.(exponent := NoExponent), base, 0);
    MeaningIs(d.(exponent := Exponent(marker, Unsigned, digits)), base, k);
    MeaningIs(d.(exponent := Exponent(marker, Plus, digits)), base, k);
    MeaningIs(d.(exponent := Exponent(marker, Minus, digits)), base, -k);
    TimesOne(base);
    Undoes(base, TenTo(-k), Power(k) as real);
  }

  lemma {:induction false} PowersOfTen(k: int)
    requires k >= 0
    ensures TenTo(0) == 1.0 && TenTo(k) == Power(k) as real && TenTo(-k) == 1.0 / Power(k) as real
  {
    assert Power(0) == 1;
  }

  lemma {:induction false} MeaningIs(d: Decimal, base: real, e: int)
    requires WellFormed(d) && ExponentValue(d.exponent) == e
    requires base == DigitsValue(d.whole) as real + FractionValue(d.fraction)
    ensures Meaning(d) == Times(base, TenTo(e))
  {
    hide DigitsValue, FractionValue, TenTo, ExponentValue;
  }

  lemma {:induction false} Undoes(base: real, inverse: real, power: real)
    requires power > 0.0 && inverse == 1.0 / power
    ensures Times(Times(base, inverse), power) == base
  {
    assert inverse * power == 1.0;
    assert base * inverse * power == base * (inverse * power);
  }
}
