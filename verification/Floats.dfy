/**
 The two binary formats of the divide instructions, and what it means for a float
 to be a correctly rounded value.

 Every finite float is an integer number of "units", a unit being the smallest
 denormal 2^(minExp - mantissa). An exact value is a fraction of integers counted in
 the same unit, so rounding is stated without real numbers: a float is nearest to a
 fraction when no other float of the format is closer.
 */
module Floats {
  import opened Powers

  /** The constants of `Fp<T>`. */
  datatype Format = Format(mantissa: nat, bias: int, maxExp: nat, expBits: nat, scale: int, far: int, tiny: int,
                           minExp: int, underflow: int, overflow: int)
  {
    /** The exponent of a denormal's unit in place. */
    function UnitExp(): int { minExp - mantissa }
  }

  const BINARY32 := Format(23, 127, 255, 8, 64, 96, 23, -126, -150, 129)
  const BINARY64 := Format(52, 1023, 2047, 11, 128, 768, 53, -1022, -1075, 1025)

  predicate Supported(f: Format) { f == BINARY32 || f == BINARY64 }

  /** All that rounding needs of a format; both supported ones have it. */
  predicate Wide(f: Format) { f.mantissa >= 2 && f.maxExp >= 4 }

  /** A float's three bit fields. */
  datatype Float = Float(neg: bool, field: nat, frac: nat)

  predicate Valid(f: Format, x: Float) { x.field <= f.maxExp && x.frac < Pow2(f.mantissa) }
  predicate IsFinite(f: Format, x: Float) { x.field < f.maxExp }
  predicate IsInf(f: Format, x: Float) { x.field == f.maxExp && x.frac == 0 }
  predicate IsNan(f: Format, x: Float) { x.field == f.maxExp && x.frac != 0 }
  predicate IsZero(x: Float) { x.field == 0 && x.frac == 0 }
  predicate IsDenormal(x: Float) { x.field == 0 && x.frac != 0 }
  predicate FiniteNonzero(f: Format, x: Float) { Valid(f, x) && IsFinite(f, x) && !IsZero(x) }

  function Zero(neg: bool): Float { Float(neg, 0, 0) }
  function Infinity(f: Format, neg: bool): Float { Float(neg, f.maxExp, 0) }
  /** The NaN `numeric_limits::quiet_NaN` gives. */
  function QuietNan(f: Format, neg: bool): Float
    requires f.mantissa > 0
  {
    Float(neg, f.maxExp, Pow2(f.mantissa - 1))
  }

  /** C's == on floats: zeros are equal whatever their signs, a NaN equals nothing. */
  predicate FloatEq(f: Format, x: Float, y: Float) {
    !IsNan(f, x) && !IsNan(f, y) && (x == y || (IsZero(x) && IsZero(y)))
  }

  /** |x| in units. */
  function Magnitude(f: Format, x: Float): (u: nat)
    ensures u == 0 <==> IsZero(x)
  {
    if x.field == 0 then x.frac
    else ShlSign(Pow2(f.mantissa) + x.frac, x.field - 1); Shl(Pow2(f.mantissa) + x.frac, x.field - 1)
  }

  function Signed(neg: bool, n: int): int { if neg then -n else n }

  /** x in units, with its sign. */
  function Units(f: Format, x: Float): int { Signed(x.neg, Magnitude(f, x)) }

  /** An exact value in units: num / den. */
  datatype Fraction = Fraction(num: int, den: nat)

  /**
   The magnitude at and above which rounding to nearest gives an infinity: half a place past the largest finite value.
   */
  function OverflowAt(f: Format): nat
    requires f.maxExp >= 3
  {
    ShlSign(Pow2(f.mantissa + 2) - 1, f.maxExp - 3);
    Shl(Pow2(f.mantissa + 2) - 1, f.maxExp - 3)
  }

  /** How far a float is from an exact value, in 1/den units. */
  function Distance(f: Format, x: Fraction, y: Float): nat { Abs(Times(Units(f, y), x.den) - x.num) }

  /** No float y beats r: it is not closer, and where it is as close and another number, r is the even one. */
  predicate AtLeastAsClose(f: Format, x: Fraction, r: Float, y: Float) {
    && Distance(f, x, r) <= Distance(f, x, y)
    && (Distance(f, x, r) == Distance(f, x, y) && Units(f, y) != Units(f, r) ==> r.frac % 2 == 0)
  }

  /** r is x rounded to nearest, ties to even, as IEEE 754 defines it. */
  ghost predicate IsNearest(f: Format, x: Fraction, r: Float)
    requires f.maxExp >= 3
  {
    && Valid(f, r)
    && (x.num != 0 ==> r.neg == (x.num < 0))
    && if Abs(x.num) >= Times(OverflowAt(f), x.den) then IsInf(f, r)
       else
         && IsFinite(f, r)
         && forall y | Valid(f, y) && IsFinite(f, y) :: AtLeastAsClose(f, x, r, y)
  }

  /** y is not nearer to x than r on r's side, nor x itself unless r is. */
  predicate NotBetween(r: int, y: int, x: int) { !(r < y <= x) && !(x <= y < r) }

  /** r is one of the two floats around x (x itself where it is one): no float lies between. */
  ghost predicate IsFaithful(f: Format, x: Fraction, r: Float) {
    && Valid(f, r)
    && (x.num != 0 ==> r.neg == (x.num < 0))
    && !IsNan(f, r)
    && forall y | Valid(f, y) && IsFinite(f, y) ::
         if IsInf(f, r) then Times(Magnitude(f, y), x.den) < Abs(x.num)
         else NotBetween(Times(Units(f, r), x.den), Times(Units(f, y), x.den), x.num)
  }

  /** A fraction written over a larger denominator rounds to the same floats. */
  lemma {:induction false} SameNumberRounds(f: Format, x: Fraction, q: nat, xq: Fraction, r: Float)
    requires f.maxExp >= 3 && xq.num == Shl(x.num, q) && xq.den == Shl(x.den, q)
    ensures IsNearest(f, x, r) <==> IsNearest(f, xq, r)
    ensures IsFaithful(f, x, r) <==> IsFaithful(f, xq, r)
  {
    ShlSign(x.num, q);
    ShlAbs(x.num, q);
    TimesShl(OverflowAt(f), x.den, q);
    ShlLess(Times(OverflowAt(f), x.den), Abs(x.num), q);
    forall y: Float
      ensures AtLeastAsClose(f, x, r, y) <==> AtLeastAsClose(f, xq, r, y)
    {
      CloserScales(f, x, q, xq, r, y);
    }
    forall y: Float
      ensures Times(Magnitude(f, y), x.den) < Abs(x.num) <==> Times(Magnitude(f, y), xq.den) < Abs(xq.num)
      ensures NotBetween(Times(Units(f, r), x.den), Times(Units(f, y), x.den), x.num)
         <==> NotBetween(Times(Units(f, r), xq.den), Times(Units(f, y), xq.den), xq.num)
    {
      BetweenScales(f, x, q, xq, r, y);
    }
  }

  lemma {:induction false} DistanceScales(f: Format, x: Fraction, q: nat, xq: Fraction, y: Float)
    requires xq.num == Shl(x.num, q) && xq.den == Shl(x.den, q)
    ensures Distance(f, xq, y) == Shl(Distance(f, x, y), q)
  {
    var n := Times(Units(f, y), x.den);
    TimesShl(Units(f, y), x.den, q);
    ShlAdd(n, -x.num, q);
    ShlNegate(x.num, q);
    ShlAbs(n - x.num, q);
  }

  lemma {:induction false} CloserScales(f: Format, x: Fraction, q: nat, xq: Fraction, r: Float, y: Float)
    requires xq.num == Shl(x.num, q) && xq.den == Shl(x.den, q)
    ensures AtLeastAsClose(f, x, r, y) <==> AtLeastAsClose(f, xq, r, y)
  {
    DistanceScales(f, x, q, xq, r);
    DistanceScales(f, x, q, xq, y);
    ShlLess(Distance(f, x, r), Distance(f, x, y), q);
    ShlLess(Distance(f, x, y), Distance(f, x, r), q);
  }

  lemma {:induction false} BetweenScales(f: Format, x: Fraction, q: nat, xq: Fraction, r: Float, y: Float)
    requires xq.num == Shl(x.num, q) && xq.den == Shl(x.den, q)
    ensures Times(Magnitude(f, y), x.den) < Abs(x.num) <==> Times(Magnitude(f, y), xq.den) < Abs(xq.num)
    ensures NotBetween(Times(Units(f, r), x.den), Times(Units(f, y), x.den), x.num)
       <==> NotBetween(Times(Units(f, r), xq.den), Times(Units(f, y), xq.den), xq.num)
  {
    TimesShl(Magnitude(f, y), x.den, q);
    TimesShl(Units(f, y), x.den, q);
    TimesShl(Units(f, r), x.den, q);
    ShlAbs(x.num, q);
    ShlLess(Abs(x.num), Times(Magnitude(f, y), x.den), q);
    var a, b := Times(Units(f, r), x.den), Times(Units(f, y), x.den);
    ShlLess(b, a, q);
    ShlLess(a, b, q);
    ShlLess(b, x.num, q);
    ShlLess(x.num, b, q);
  }
}
