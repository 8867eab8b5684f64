/**
 v_div_scale and v_div_fmas: the fast bit-level `div_scale` against its reference, and what the two instructions
 do to the quotient between them.
 */
module DivScale {
  import opened Powers
  import opened Floats
  import opened Rounding
  import opened ScaledFma

  // ---- ldexp, bits and split ---------------------------------------------------

  /** The library's ldexp: x * 2^k rounded to nearest even; zeros, infinities and NaNs come back as they are. */
  function Ldexp(f: Format, x: Float, k: int): Float {
    if IsZero(x) || !IsFinite(f, x) then x
    else
      var r := RoundMagnitude(f, Magnitude(f, x), k);
      Pack(f, x.neg, r.count, r.grid)
  }

  /** A float's bits as an unsigned word, and back. */
  function BitsOf(f: Format, x: Float): nat
    requires Valid(f, x)
  {
    ShlSign(x.field, f.mantissa);
    (if x.neg then Pow2(f.mantissa + f.expBits) else 0) + Shl(x.field, f.mantissa) + x.frac
  }

  function FromBits(f: Format, b: nat): Float {
    var sign := Pow2(f.mantissa + f.expBits);
    var rest := if b >= sign then b - sign else b;
    ShrBounds(rest, f.mantissa);
    Float(b >= sign, Shr(rest, f.mantissa), rest - Shl(Shr(rest, f.mantissa), f.mantissa))
  }

  /** Reduction to a word of the format's width, as unsigned addition does. */
  function Wrap(f: Format, n: int): nat { n % Pow2(f.mantissa + f.expBits + 1) }

  /** ilogb of a finite nonzero value. */
  function Ilogb(f: Format, x: Float): int
    requires Valid(f, x)
  {
    PartsOf(f, x).e + f.mantissa
  }

  predicate ReciprocalIsDenormal(f: Format, d: Float)
    requires Valid(f, d)
  {
    IsFinite(f, d) && !IsZero(d) &&
    (Ilogb(f, d) > -f.minExp || (Ilogb(f, d) == -f.minExp && PartsOf(f, d).m > Pow2(f.mantissa)))
  }

  predicate QuotientIsDenormal(f: Format, n: Float, d: Float)
    requires Valid(f, n) && Valid(f, d)
  {
    IsFinite(f, n) && IsFinite(f, d) && !IsZero(n) && !IsZero(d) &&
    var diff := Ilogb(f, n) - Ilogb(f, d);
    diff < f.minExp || (diff == f.minExp && PartsOf(f, n).m < PartsOf(f, d).m)
  }

  // ---- The two forms -----------------------------------------------------------

  datatype Scaled = Scaled(value: Float, vcc: bool)

  function DivScaleReference(f: Format, s0: Float, s1: Float, s2: Float): Scaled
    requires Valid(f, s0) && Valid(f, s1) && Valid(f, s2) && f.mantissa > 0
  {
    if IsZero(s2) || IsZero(s1) then Scaled(QuietNan(f, false), false)
    else if s2.field - s1.field >= f.far then Scaled(if FloatEq(f, s0, s1) then Ldexp(f, s0, f.scale) else s0, true)
    else if IsDenormal(s1) then Scaled(Ldexp(f, s0, f.scale), false)
    else
      var rcp, quotient := ReciprocalIsDenormal(f, s1), QuotientIsDenormal(f, s2, s1);
      if rcp && quotient then Scaled(if FloatEq(f, s0, s1) then Ldexp(f, s0, -f.scale) else s0, true)
      else if rcp then Scaled(Ldexp(f, s0, -f.scale), false)
      else if quotient then Scaled(if FloatEq(f, s0, s2) then Ldexp(f, s0, f.scale) else s0, true)
      else if s2.field <= f.tiny then Scaled(Ldexp(f, s0, f.scale), false)
      else Scaled(s0, false)
  }

  /** The exponent field moves and the rest is untouched, where both ends are normal; else the library's call. */
  function ScaleByPow2(f: Format, x: Float, k: int): Float
    requires Valid(f, x)
  {
    if 1 <= x.field < f.maxExp && 1 <= x.field + k < f.maxExp
      then FromBits(f, Wrap(f, BitsOf(f, x) + Signed(k < 0, Shl(Abs(k), f.mantissa))))
    else Ldexp(f, x, k)
  }

  function DivScaleFast(f: Format, s0: Float, s1: Float, s2: Float): Scaled
    requires Valid(f, s0) && Valid(f, s1) && Valid(f, s2) && f.mantissa > 0
  {
    var e2, e1 := s2.field, s1.field;
    if e1 < 1 || e1 >= f.maxExp || e2 < 1 || e2 >= f.maxExp then DivScaleReference(f, s0, s1, s2)
    else if e2 - e1 >= f.far then Scaled(if FloatEq(f, s0, s1) then ScaleByPow2(f, s0, f.scale) else s0, true)
    else
      var d1, diff := e1 - f.bias, e2 - e1;
      var rcp := d1 > -f.minExp || (d1 == -f.minExp && s1.frac != 0);
      var quotient := diff < f.minExp || (diff == f.minExp && s2.frac < s1.frac);
      if rcp && quotient then Scaled(if FloatEq(f, s0, s1) then ScaleByPow2(f, s0, -f.scale) else s0, true)
      else if rcp then Scaled(ScaleByPow2(f, s0, -f.scale), false)
      else if quotient then Scaled(if FloatEq(f, s0, s2) then ScaleByPow2(f, s0, f.scale) else s0, true)
      else if e2 <= f.tiny then Scaled(ScaleByPow2(f, s0, f.scale), false)
      else Scaled(s0, false)
  }

  // ---- The fast form is the reference ------------------------------------------

  /** The bit length of a normal number's magnitude. */
  lemma {:induction false} NormalLength(f: Format, x: Float)
    requires Valid(f, x) && x.field >= 1
    ensures BitLen(Magnitude(f, x)) == f.mantissa + x.field
  {
    var h, s := Pow2(f.mantissa), x.field - 1;
    ShlLess(h, h + x.frac, s);
    ShlApart(h + x.frac, 2 * h, s);
    ShlTwice(h, s);
    Pow2Add(f.mantissa, s);
    BitLenUnique(Magnitude(f, x), f.mantissa + x.field);
  }

  lemma {:induction false} ShrShl(x: nat, n: nat)
    ensures Shl(x, n) >= 0 && Shr(Shl(x, n), n) == x
  {
    ShlSign(x, n);
    ShrBounds(Shl(x, n), n);
    var s := Shr(Shl(x, n), n);
    if s < x {
      ShlApart(s, x, n);
    } else if x < s {
      ShlApart(x, s, n);
    }
  }

  /** Rounding a normal magnitude at full precision keeps all of it. */
  lemma {:induction false} NormalKept(f: Format, x: Float, k: int)
    requires Valid(f, x) && x.field >= 1 && x.field + k >= 1
    ensures RoundMagnitude(f, Magnitude(f, x), k) == Kept(Pow2(f.mantissa) + x.frac, x.field + k - 1)
  {
    NormalLength(f, x);
    ShrShl(Pow2(f.mantissa) + x.frac, x.field - 1);
  }

  lemma {:induction false} LdexpMovesExponent(f: Format, x: Float, k: int)
    requires Valid(f, x) && 1 <= x.field < f.maxExp && 1 <= x.field + k < f.maxExp
    ensures Ldexp(f, x, k) == Float(x.neg, x.field + k, x.frac)
  {
    NormalKept(f, x, k);
  }

  /** Reading back the bits of a float gives the float. */
  lemma {:induction false} BitsRoundTrip(f: Format, x: Float)
    requires Valid(f, x) && f.maxExp == Pow2(f.expBits) - 1
    ensures FromBits(f, BitsOf(f, x)) == x && BitsOf(f, x) < Pow2(f.mantissa + f.expBits + 1)
  {
    var low := Shl(x.field, f.mantissa) + x.frac;
    ShlSign(x.field, f.mantissa);
    assert low < Pow2(f.mantissa + f.expBits) by {
      ShlApart(x.field, Pow2(f.expBits), f.mantissa);
      Pow2Add(f.expBits, f.mantissa);
    }
    ShrBounds(low, f.mantissa);
    var s := Shr(low, f.mantissa);
    if s < x.field {
      ShlApart(s, x.field, f.mantissa);
    } else if x.field < s {
      ShlApart(x.field, s, f.mantissa);
    }
  }

  /** Adding k to the exponent field of the bits. */
  lemma {:induction false} BitsAdd(f: Format, x: Float, k: int)
    requires Valid(f, x) && 0 <= x.field + k <= f.maxExp
    ensures BitsOf(f, x) + Signed(k < 0, Shl(Abs(k), f.mantissa)) == BitsOf(f, Float(x.neg, x.field + k, x.frac))
  {
    ShlAdd(x.field, k, f.mantissa);
    ShlNegate(k, f.mantissa);
  }

  lemma {:induction false} WrapIsNothing(f: Format, n: nat)
    requires n < Pow2(f.mantissa + f.expBits + 1)
    ensures Wrap(f, n) == n
  {
    ModSmall(n, Pow2(f.mantissa + f.expBits + 1));
  }

  lemma {:induction false} ModSmall(n: nat, m: nat)
    requires n < m
    ensures n % m == n
  {
  }

  /** scale_by_pow2 is ldexp. */
  lemma {:induction false} ScaleIsLdexp(f: Format, x: Float, k: int)
    requires Valid(f, x) && f.maxExp == Pow2(f.expBits) - 1
    ensures ScaleByPow2(f, x, k) == Ldexp(f, x, k)
  {
    if 1 <= x.field < f.maxExp && 1 <= x.field + k < f.maxExp {
      var y := Float(x.neg, x.field + k, x.frac);
      BitsAdd(f, x, k);
      BitsRoundTrip(f, y);
      WrapIsNothing(f, BitsOf(f, y));
      LdexpMovesExponent(f, x, k);
    }
  }

  /** What ties a format's constants together. */
  predicate Standard(f: Format) { Wide(f) && f.maxExp == Pow2(f.expBits) - 1 && f.bias == 1 - f.minExp }

  lemma {:induction false} SupportedIsStandard(f: Format)
    requires Supported(f)
    ensures Standard(f)
  {
  }

  /** With a zero for numerator or denominator the answer is the quiet NaN, its condition clear: these bits. */
  lemma {:induction false} ZeroGivesNan(f: Format, s0: Float, s1: Float, s2: Float)
    requires Supported(f) && Valid(f, s0) && Valid(f, s1) && Valid(f, s2)
             && (Magnitude(f, s1) == 0 || Magnitude(f, s2) == 0)
    ensures var r := DivScaleFast(f, s0, s1, s2);
            !r.vcc && Valid(f, r.value) && BitsOf(f, r.value) == if f == BINARY32 then 0x7FC0_0000
              else 0x7FF8_0000_0000_0000
  {
    QuietBits();
  }

  lemma {:induction false} QuietBits()
    ensures Pow2(22) == 0x40_0000 && Shl(255, 23) == 0x7F80_0000
    ensures Pow2(51) == 0x8_0000_0000_0000 && Shl(2047, 52) == 0x7FF0_0000_0000_0000
  {
    ShlWide(1);
    ShlWide(0x1_0000);
    ShlWide(0x1_0000_0000);
    ShlWide(255);
    ShlWide(255 * 0x1_0000);
    ShlWide(2047);
    ShlWide(2047 * 0x1_0000);
    ShlWide(2047 * 0x1_0000_0000);
    ShlShl(1, 16, 6);
    ShlShl(1, 16, 16);
    ShlShl(1, 32, 16);
    ShlWide(0x1_0000_0000_0000);
    ShlShl(1, 48, 3);
    ShlShl(255, 16, 7);
    ShlShl(2047, 16, 16);
    ShlShl(2047, 32, 16);
    ShlWide(2047 * 0x1_0000_0000_0000);
    ShlShl(2047, 48, 4);
  }

  lemma {:induction false} ShlWide(x: int)
    ensures Shl(x, 3) == 8 * x && Shl(x, 4) == 16 * x && Shl(x, 6) == 64 * x && Shl(x, 7) == 128 * x
    ensures Shl(x, 16) == 0x1_0000 * x
  {
    assert Shl(x, 1) == 2 * x && Shl(x, 2) == 4 * x && Shl(x, 3) == 8 * x && Shl(x, 4) == 16 * x;
    assert Shl(x, 5) == 32 * x && Shl(x, 6) == 64 * x && Shl(x, 7) == 128 * x && Shl(x, 8) == 256 * x;
    assert Shl(x, 9) == 512 * x && Shl(x, 10) == 1024 * x && Shl(x, 11) == 2048 * x && Shl(x, 12) == 4096 * x;
    assert Shl(x, 13) == 0x2000 * x && Shl(x, 14) == 0x4000 * x && Shl(x, 15) == 0x8000 * x;
  }

  /** The bit-level form gives the reference's value and condition for every three operands. */
  lemma {:induction false} FastIsReference(f: Format, s0: Float, s1: Float, s2: Float)
    requires Standard(f) && Valid(f, s0) && Valid(f, s1) && Valid(f, s2)
    ensures DivScaleFast(f, s0, s1, s2) == DivScaleReference(f, s0, s1, s2)
  {
    ScaleIsLdexp(f, s0, f.scale);
    ScaleIsLdexp(f, s0, -f.scale);
  }
}
