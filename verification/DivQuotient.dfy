/**
 What v_div_scale and v_div_fmas do to a quotient between them: both scalings are exact, and v_div_fmas's power of two
 undoes them. And v_div_fixup: the zero or infinity it returns from the exponents alone is the correctly rounded
 quotient.
 */
module DivQuotient {
  import opened Powers
  import opened Floats
  import opened Rounding
  import opened ScaledFma
  import opened ScaledFmaTheorems
  import opened DivScale

  // ---- Magnitudes from exponent fields -----------------------------------------

  lemma {:induction false} MagnitudeBounds(f: Format, x: Float)
    requires Valid(f, x)
    ensures Magnitude(f, x) < Pow2(f.mantissa + x.field)
    ensures x.field >= 1 ==> Magnitude(f, x) >= Pow2(f.mantissa + x.field - 1)
  {
    if x.field >= 1 {
      NormalLength(f, x);
      BitLenBounds(Magnitude(f, x));
    }
  }

  lemma {:induction false} NormalParts(f: Format, x: Float)
    requires Valid(f, x) && !IsZero(x) && Standard(f)
    ensures Pow2(f.mantissa) <= PartsOf(f, x).m < Pow2(f.mantissa + 1)
    ensures x.field >= 1 ==> Ilogb(f, x) == x.field - f.bias
    ensures x.field == 0 ==> Ilogb(f, x) < f.minExp
  {
    if x.field == 0 {
      BitLenAtMost(x.frac, f.mantissa);
      BitLenBounds(x.frac);
      var len := BitLen(x.frac);
      var up := f.mantissa + 1 - len;
      ShlLess(Pow2(len - 1), x.frac, up);
      ShlApart(x.frac, Pow2(len), up);
      Pow2Add(len - 1, up);
      Pow2Add(len, up);
    }
  }

  /** A normalized mantissa at a lower place is below one at a higher place. */
  lemma {:induction false} PlacesOrder(m: nat, n: nat, h: nat, a: nat, b: nat)
    requires h <= m < 2 * h && h <= n < 2 * h && a < b
    ensures Shl(m, a) < Shl(n, b)
  {
    ShlApart(m, 2 * h, a);
    ShlTwice(h, a);
    ShlOrder(h, a, b);
    ShlLess(h, n, b);
  }

  /** quotient_is_denormal says what it is named for: the exact |n / d| is below the smallest normal number. */
  lemma {:induction false} QuotientIsDenormalMeans(f: Format, n: Float, d: Float)
    requires Supported(f) && FiniteNonzero(f, n) && FiniteNonzero(f, d)
    ensures QuotientIsDenormal(f, n, d) <==> Shl(Magnitude(f, n), -f.minExp) < Magnitude(f, d)
  {
    var u, t := f.UnitExp(), f.mantissa + 1;
    var pn, pd, h := PartsOf(f, n), PartsOf(f, d), Pow2(f.mantissa);
    SupportedIsStandard(f);
    PartsValue(f, n, t - f.minExp);
    PartsValue(f, d, t);
    NormalParts(f, n);
    NormalParts(f, d);
    var a, b := pn.e - u + t - f.minExp, pd.e - u + t;
    ShlShl(Magnitude(f, n), -f.minExp, t);
    ShlLess(Magnitude(f, d), Shl(Magnitude(f, n), -f.minExp), t);
    assert Shl(Magnitude(f, n), -f.minExp) < Magnitude(f, d) <==> Shl(pn.m, a) < Shl(pd.m, b);
    if a < b {
      PlacesOrder(pn.m, pd.m, h, a, b);
    } else if b < a {
      PlacesOrder(pd.m, pn.m, h, b, a);
    } else {
      ShlLess(pd.m, pn.m, a);
    }
  }

  /** reciprocal_is_denormal too: the exact |1 / d| is below the smallest normal number. */
  lemma {:induction false} ReciprocalIsDenormalMeans(f: Format, d: Float)
    requires Supported(f) && FiniteNonzero(f, d)
    ensures ReciprocalIsDenormal(f, d) <==> Shl(Pow2(-f.UnitExp()), -f.minExp) < Magnitude(f, d)
  {
    var one := Float(false, f.bias, 0);
    SupportedIsStandard(f);
    QuotientIsDenormalMeans(f, one, d);
    NormalParts(f, one);
    Pow2Add(f.mantissa, f.bias - 1);
  }

  // ---- Exact scaling -----------------------------------------------------------

  /** y is exactly x * 2^i. */
  predicate ScaledExactly(f: Format, x: Float, y: Float, i: int) {
    && Valid(f, y) && IsFinite(f, y) && y.neg == x.neg
    && if i >= 0 then Magnitude(f, y) == Shl(Magnitude(f, x), i) else Shl(Magnitude(f, y), -i) == Magnitude(f, x)
  }

  /** Scaling a normal number to a normal number is exact. */
  lemma {:induction false} NormalScales(f: Format, x: Float, k: int)
    requires Valid(f, x) && 1 <= x.field < f.maxExp && 1 <= x.field + k < f.maxExp
    ensures ScaledExactly(f, x, Ldexp(f, x, k), k)
  {
    LdexpMovesExponent(f, x, k);
    var m := Pow2(f.mantissa) + x.frac;
    if k >= 0 {
      ShlShl(m, x.field - 1, k);
    } else {
      ShlShl(m, x.field + k - 1, -k);
    }
  }

  /** Scaling a denormal up is exact. */
  lemma {:induction false} DenormalScales(f: Format, x: Float, k: nat)
    requires Wide(f) && Valid(f, x) && x.field == 0 && x.frac != 0 && f.mantissa < k < f.maxExp
    ensures ScaledExactly(f, x, Ldexp(f, x, k), k)
  {
    var len := BitLen(x.frac);
    var r := RoundMagnitude(f, x.frac, k);
    BitLenAtMost(x.frac, f.mantissa);
    BitLenBounds(x.frac);
    var up := f.mantissa + 1 - len;
    assert r.grid == k - up && r.count == Shl(x.frac, up);
    ShlLess(Pow2(len - 1), x.frac, up);
    ShlApart(x.frac, Pow2(len), up);
    Pow2Add(len - 1, up);
    Pow2Add(len, up);
    PackUnits(f, x.neg, r.count, r.grid);
    ShlShl(x.frac, up, r.grid);
  }

  lemma {:induction false} ScalesUp(f: Format, x: Float)
    requires Supported(f) && FiniteNonzero(f, x) && x.field + f.scale < f.maxExp
    ensures ScaledExactly(f, x, Ldexp(f, x, f.scale), f.scale)
  {
    if x.field == 0 {
      DenormalScales(f, x, f.scale);
    } else {
      NormalScales(f, x, f.scale);
    }
  }

  // ---- v_div_fmas --------------------------------------------------------------

  /** The power of two v_div_fmas multiplies by, from the quotient estimate s2 and the condition. */
  function FmasExponent(f: Format, s2: Float, vcc: bool): int {
    if !vcc then 0 else if s2.field >= f.bias then f.scale else -f.scale
  }

  /** r is (a * b + c) * 2^k rounded once to nearest even, an exact zero with its sign. */
  ghost predicate FusedOnce(f: Format, a: Float, b: Float, c: Float, k: int, r: Float)
    requires Supported(f) && AllFinite(f, a, b, c)
  {
    var x := ExactFma(f, a, b, c, k);
    if x.num == 0 then r == Zero((a.neg != b.neg) && c.neg) else IsNearest(f, x, r)
  }

  /** The same, but on a borrowed tie r is the other neighbour. */
  ghost predicate FusedFaithfully(f: Format, a: Float, b: Float, c: Float, k: int, r: Float)
    requires Supported(f) && AllFinite(f, a, b, c)
  {
    var x := ExactFma(f, a, b, c, k);
    if x.num == 0 then r == Zero((a.neg != b.neg) && c.neg)
    else IsFaithful(f, x, r) && (IsNearest(f, x, r) <==> !BorrowedTie(f, a, b, c, k))
  }

  /** The library's fma, as IEEE 754 defines it: one rounding, and no finite result of an operand that is not finite. */
  ghost predicate IsFma(f: Format, fma: (Float, Float, Float) -> Float)
    requires Supported(f)
  {
    && (forall a, b, c | AllFinite(f, a, b, c) :: FusedOnce(f, a, b, c, 0, fma(a, b, c)))
    && forall a, b, c | !(IsFinite(f, a) && IsFinite(f, b) && IsFinite(f, c)) :: !IsFinite(f, fma(a, b, c))
  }

  /** v_div_fmas: without the condition, the library's fma; what scaled_fma hands to the library is its fma, scaled. */
  function DivFmas(f: Format, s0: Float, s1: Float, s2: Float, vcc: bool, fma: (Float, Float, Float) -> Float): Float
    requires Valid(f, s0) && Valid(f, s1) && Valid(f, s2)
  {
    if !vcc then fma(s0, s1, s2)
    else
      var k := FmasExponent(f, s2, vcc);
      match ScaledFmaOf(f, s0, s1, s2, k)
      case Rounded(value) => value
      case Delegated => Ldexp(f, fma(s0, s1, s2), k)
  }

  /** How many powers of two an estimate may be off by: 31 places in binary32, 639 in binary64. */
  function Slack(f: Format): int { f.far - f.scale - 1 }

  /** |q| is within a factor of 2^t of |n / d|. */
  predicate Estimates(f: Format, q: Float, n: Float, d: Float, t: nat)
    requires f.UnitExp() <= 0
  {
    var p := Times(Magnitude(f, q), Magnitude(f, d));
    Shl(p, t) >= Shl(Magnitude(f, n), -f.UnitExp()) && p <= Shl(Shl(Magnitude(f, n), t), -f.UnitExp())
  }

  /** The exponent field tells whether a value reaches one, which is 2^-UnitExp units. */
  lemma {:induction false} ReachesOne(f: Format, q: Float)
    requires Standard(f) && Valid(f, q) && f.minExp <= 0
    ensures q.field >= f.bias <==> Magnitude(f, q) >= Pow2(-f.UnitExp())
  {
    MagnitudeBounds(f, q);
    if q.field >= f.bias {
      Pow2Grows(-f.UnitExp(), f.mantissa + q.field - 1);
    } else {
      Pow2Grows(f.mantissa + q.field, -f.UnitExp());
    }
  }

  lemma {:induction false} TimesPow2(m: nat, b: nat)
    ensures Times(Pow2(b), m) == Shl(m, b)
  {
    TimesShl(1, m, b);
    TimesOne(m);
  }

  lemma {:induction false} EstimateAbove(f: Format, q: Float, n: Float, d: Float, t: nat)
    requires Supported(f) && Valid(f, q) && Magnitude(f, d) > 0
    requires Estimates(f, q, n, d, t) && Magnitude(f, n) >= Shl(Magnitude(f, d), t)
    ensures q.field >= f.bias
  {
    var mq, md, w := Magnitude(f, q), Magnitude(f, d), -f.UnitExp();
    ReachesOne(f, q);
    if mq < Pow2(w) {
      TimesOrder(mq, Pow2(w), md);
      TimesPow2(md, w);
      ShlApart(Times(mq, md), Shl(md, w), t);
      ShlShl(md, w, t);
      ShlShl(md, t, w);
      ShlLess(Shl(md, t), Magnitude(f, n), w);
    }
  }

  lemma {:induction false} EstimateBelow(f: Format, q: Float, n: Float, d: Float, t: nat)
    requires Supported(f) && Valid(f, q)
    requires Estimates(f, q, n, d, t) && Shl(Magnitude(f, n), t) < Magnitude(f, d)
    ensures q.field < f.bias
  {
    var mq, md, w := Magnitude(f, q), Magnitude(f, d), -f.UnitExp();
    ReachesOne(f, q);
    if mq >= Pow2(w) {
      TimesOrder(Pow2(w), mq, md);
      TimesPow2(md, w);
      ShlApart(Shl(Magnitude(f, n), t), md, w);
    }
  }

  // ---- The quotient is undone --------------------------------------------------

  /** What v_div_scale leaves as numerator and denominator. */
  function ScaledNumerator(f: Format, n: Float, d: Float): Scaled
    requires Valid(f, n) && Valid(f, d) && f.mantissa > 0
  {
    DivScaleFast(f, n, d, n)
  }

  function ScaledDenominator(f: Format, n: Float, d: Float): Scaled
    requires Valid(f, n) && Valid(f, d) && f.mantissa > 0
  {
    DivScaleFast(f, d, d, n)
  }

  /** How v_div_scale shifts the numerator and the denominator, by the branch it takes. */
  datatype Branch = Far | TinyDenominator | BothDenormal | HugeDenominator | DenormalQuotient | TinyNumerator | Plain

  function BranchOf(f: Format, n: Float, d: Float): Branch
    requires Valid(f, n) && Valid(f, d)
  {
    if n.field - d.field >= f.far then Far
    else if IsDenormal(d) then TinyDenominator
    else if ReciprocalIsDenormal(f, d) then (if QuotientIsDenormal(f, n, d) then BothDenormal else HugeDenominator)
    else if QuotientIsDenormal(f, n, d) then DenormalQuotient
    else if n.field <= f.tiny then TinyNumerator
    else Plain
  }

  function NumeratorShift(f: Format, b: Branch): int {
    match b
    case TinyDenominator => f.scale
    case HugeDenominator => -f.scale
    case DenormalQuotient => f.scale
    case TinyNumerator => f.scale
    case _ => 0
  }

  function DenominatorShift(f: Format, b: Branch): int {
    match b
    case Far => f.scale
    case TinyDenominator => f.scale
    case BothDenormal => -f.scale
    case HugeDenominator => -f.scale
    case TinyNumerator => f.scale
    case _ => 0
  }

  /** A quotient of one is not denormal. */
  lemma {:induction false} OneIsNormal(f: Format, d: Float)
    requires Supported(f) && FiniteNonzero(f, d)
    ensures !QuotientIsDenormal(f, d, d)
  {
    ShlSign(Magnitude(f, d), -f.minExp);
    QuotientIsDenormalMeans(f, d, d);
  }

  /**
   Which power of two each branch applies: the numerator and the denominator are told apart by comparing s0 with s1 and
   s2.
   */
  lemma {:induction false} NumeratorScales(f: Format, n: Float, d: Float)
    requires Supported(f) && FiniteNonzero(f, n) && FiniteNonzero(f, d)
    ensures var b, ns := BranchOf(f, n, d), ScaledNumerator(f, n, d);
            && ns.value == (if NumeratorShift(f, b) == 0 then n else Ldexp(f, n, NumeratorShift(f, b)))
            && ns.vcc == (NumeratorShift(f, b) != DenominatorShift(f, b))
  {
    SupportedIsStandard(f);
    FastIsReference(f, n, d, n);
    OneIsNormal(f, d);
  }

  lemma {:induction false} DenominatorScales(f: Format, n: Float, d: Float)
    requires Supported(f) && FiniteNonzero(f, n) && FiniteNonzero(f, d)
    ensures var b, ds := BranchOf(f, n, d), ScaledDenominator(f, n, d);
            && ds.value == (if DenominatorShift(f, b) == 0 then d else Ldexp(f, d, DenominatorShift(f, b)))
            && ds.vcc == (NumeratorShift(f, b) != DenominatorShift(f, b))
  {
    SupportedIsStandard(f);
    FastIsReference(f, d, d, n);
    OneIsNormal(f, d);
  }

  /** Both of v_div_scale's scalings are exact: no branch overflows or drops a bit. */
  lemma {:induction false} NumeratorIsExact(f: Format, n: Float, d: Float)
    requires Supported(f) && FiniteNonzero(f, n) && FiniteNonzero(f, d)
    ensures ScaledExactly(f, n, ScaledNumerator(f, n, d).value, NumeratorShift(f, BranchOf(f, n, d)))
  {
    SupportedIsStandard(f);
    NumeratorScales(f, n, d);
    NormalParts(f, n);
    NormalParts(f, d);
    match BranchOf(f, n, d)
    case TinyDenominator => ScalesUp(f, n);
    case HugeDenominator => NormalScales(f, n, -f.scale);
    case DenormalQuotient => ScalesUp(f, n);
    case TinyNumerator => ScalesUp(f, n);
    case _ =>
  }

  lemma {:induction false} DenominatorIsExact(f: Format, n: Float, d: Float)
    requires Supported(f) && FiniteNonzero(f, n) && FiniteNonzero(f, d)
    ensures ScaledExactly(f, d, ScaledDenominator(f, n, d).value, DenominatorShift(f, BranchOf(f, n, d)))
  {
    SupportedIsStandard(f);
    DenominatorScales(f, n, d);
    NormalParts(f, n);
    NormalParts(f, d);
    match BranchOf(f, n, d)
    case Far => ScalesUp(f, d);
    case TinyDenominator => ScalesUp(f, d);
    case BothDenormal => NormalScales(f, d, -f.scale);
    case HugeDenominator => NormalScales(f, d, -f.scale);
    case TinyNumerator => ScalesUp(f, d);
    case _ =>
  }

  /** A normal number of middling size: it and its reciprocal are normal. */
  predicate IsTame(f: Format, x: Float)
    requires f.minExp <= 0
  {
    && Valid(f, x) && 1 <= x.field < f.maxExp
    && Magnitude(f, x) <= Shl(Pow2(-f.UnitExp()), -f.minExp)
  }

  lemma {:induction false} FieldIsTame(f: Format, x: Float)
    requires Supported(f) && Valid(f, x) && 1 <= x.field && x.field - f.bias < -f.minExp
    ensures IsTame(f, x)
  {
    SupportedIsStandard(f);
    NormalParts(f, x);
    ReciprocalIsDenormalMeans(f, x);
  }

  /** A denormal scaled up is normal and small. */
  lemma {:induction false} DenormalIsTamed(f: Format, d: Float, y: Float)
    requires Supported(f) && Valid(f, d) && IsDenormal(d) && ScaledExactly(f, d, y, f.scale)
    ensures IsTame(f, y)
  {
    ShlLess(1, d.frac, f.scale);
    Pow2Grows(f.mantissa, f.scale);
    ShlApart(d.frac, Pow2(f.mantissa), f.scale);
    Pow2Add(f.mantissa, f.scale);
    MagnitudeBounds(f, y);
    if y.field > f.scale {
      Pow2Grows(f.mantissa + f.scale, f.mantissa + y.field - 1);
      assert false;
    }
    FieldIsTame(f, y);
  }

  /**
   What v_div_scale is for: whatever the operands, the denominator it hands to v_rcp is a normal number whose reciprocal
   is normal too.
   */
  lemma {:induction false} DenominatorIsTamed(f: Format, n: Float, d: Float)
    requires Supported(f) && FiniteNonzero(f, n) && FiniteNonzero(f, d)
    ensures IsTame(f, ScaledDenominator(f, n, d).value)
  {
    var b, ds := BranchOf(f, n, d), ScaledDenominator(f, n, d).value;
    SupportedIsStandard(f);
    DenominatorScales(f, n, d);
    DenominatorIsExact(f, n, d);
    NormalParts(f, n);
    NormalParts(f, d);
    if IsDenormal(d) {
      DenormalIsTamed(f, d, ds);
    } else if DenominatorShift(f, b) == 0 {
      ReciprocalIsDenormalMeans(f, d);
    } else {
      LdexpMovesExponent(f, d, DenominatorShift(f, b));
      FieldIsTame(f, ds);
    }
  }

  /** Where only the denominator was scaled up, the scaled quotient is far above one. */
  lemma {:induction false} FarAboveOne(f: Format, n: Float, d: Float, md: nat, t: nat)
    requires Valid(f, n) && Valid(f, d) && n.field >= 1 && f.scale >= 0 && n.field - d.field >= f.far && t == Slack(f)
    requires md == Shl(Magnitude(f, d), f.scale)
    ensures Magnitude(f, n) >= Shl(md, t)
  {
    MagnitudeBounds(f, n);
    MagnitudeBounds(f, d);
    ShlShl(Magnitude(f, d), f.scale, t);
    ShlApart(Magnitude(f, d), Pow2(f.mantissa + d.field), f.scale + t);
    Pow2Add(f.mantissa + d.field, f.scale + t);
    Pow2Grows(f.mantissa + d.field + (f.scale + t), f.mantissa + n.field - 1);
  }

  /** Where the quotient was denormal, scaling it once leaves it far below one. */
  lemma {:induction false} FarBelowOne(mn: nat, md: nat, s: nat, e: nat, t: nat)
    requires Shl(mn, e) < md && s + t <= e
    ensures Shl(Shl(mn, s), t) < md
    ensures forall ms: nat | Shl(ms, s) == md :: Shl(mn, t) < ms
  {
    ShlShl(mn, s, t);
    ShlOrder(mn, s + t, e);
    forall ms: nat | Shl(ms, s) == md
      ensures Shl(mn, t) < ms
    {
      ShlShl(mn, t, s);
      ShlLess(ms, Shl(mn, t), s);
    }
  }

  /** Where one operand alone was scaled, the scaled quotient is far enough from one to show which. */
  lemma {:induction false} ScaledQuotientIsFar(f: Format, n: Float, d: Float)
    requires Supported(f) && FiniteNonzero(f, n) && FiniteNonzero(f, d)
    ensures var b := BranchOf(f, n, d); var ns, ds := ScaledNumerator(f, n, d).value, ScaledDenominator(f, n, d).value;
            && (b == Far ==> Magnitude(f, ns) >= Shl(Magnitude(f, ds), Slack(f)))
            && (b == BothDenormal || b == DenormalQuotient ==> Shl(Magnitude(f, ns), Slack(f)) < Magnitude(f, ds))
  {
    var b, t := BranchOf(f, n, d), Slack(f);
    NumeratorIsExact(f, n, d);
    DenominatorIsExact(f, n, d);
    if b == Far {
      FarAboveOne(f, n, d, Magnitude(f, ScaledDenominator(f, n, d).value), t);
    } else if b == BothDenormal || b == DenormalQuotient {
      QuotientIsDenormalMeans(f, n, d);
      FarBelowOne(Magnitude(f, n), Magnitude(f, d), f.scale, -f.minExp, t);
    }
  }

  /**
   For all finite nonzero n and d: v_div_scale's two scalings are exact, and the power of two v_div_fmas picks from the
   condition and any estimate of the scaled quotient within 2^Slack brings n * 2^i over d * 2^j back to n over d.
   */
  lemma {:induction false} ScalingIsUndone(f: Format, n: Float, d: Float, q: Float)
    requires Supported(f) && FiniteNonzero(f, n) && FiniteNonzero(f, d) && Valid(f, q)
    requires Estimates(f, q, ScaledNumerator(f, n, d).value, ScaledDenominator(f, n, d).value, Slack(f))
    ensures exists i, j ::
              && ScaledExactly(f, n, ScaledNumerator(f, n, d).value, i)
              && ScaledExactly(f, d, ScaledDenominator(f, n, d).value, j)
              && i - j + FmasExponent(f, q, ScaledNumerator(f, n, d).vcc) == 0
  {
    var b := BranchOf(f, n, d);
    var ns, ds := ScaledNumerator(f, n, d), ScaledDenominator(f, n, d);
    var i, j := NumeratorShift(f, b), DenominatorShift(f, b);
    NumeratorScales(f, n, d);
    NumeratorIsExact(f, n, d);
    DenominatorIsExact(f, n, d);
    ScaledQuotientIsFar(f, n, d);
    if b == Far {
      ShlSign(Magnitude(f, d), f.scale);
      EstimateAbove(f, q, ns.value, ds.value, Slack(f));
    } else if b == BothDenormal || b == DenormalQuotient {
      EstimateBelow(f, q, ns.value, ds.value, Slack(f));
    }
    assert i - j + FmasExponent(f, q, ns.vcc) == 0;
  }

  lemma {:induction false} ScaledFmaFuses(f: Format, a: Float, b: Float, c: Float, k: int)
    requires Supported(f) && AllFinite(f, a, b, c)
    ensures var r := ScaledFmaOf(f, a, b, c, k);
            r.Rounded? && FusedFaithfully(f, a, b, c, k, r.value)
  {
    RoundsOnce(f, a, b, c, k);
  }

  /**
   For all finite operands v_div_fmas is one rounding of (s0 * s1 + s2) * 2^k. Without the condition k is 0 and the
   rounding is to nearest even; with it k is the power the estimate picks, and the rounding is to nearest even if and
   only if no borrowed tie arises.
   */
  lemma {:induction false} FmasRounds(f: Format, s0: Float, s1: Float, s2: Float, vcc: bool,
                                      fma: (Float, Float, Float) -> Float)
    requires Supported(f) && AllFinite(f, s0, s1, s2) && IsFma(f, fma)
    ensures var k := if !vcc then 0 else if s2.field >= f.bias then f.scale else -f.scale;
            RoundedBack(f, s0, s1, s2, vcc, fma, k)
  {
    if vcc {
      ScaledFmaFuses(f, s0, s1, s2, FmasExponent(f, s2, true));
    }
  }

  /** Where an operand is not finite v_div_fmas is the library's fma, whatever the condition. */
  lemma {:induction false} FmasDelegates(f: Format, s0: Float, s1: Float, s2: Float, vcc: bool,
                                         fma: (Float, Float, Float) -> Float)
    requires Supported(f) && Valid(f, s0) && Valid(f, s1) && Valid(f, s2) && !AllFinite(f, s0, s1, s2) && IsFma(f, fma)
    ensures DivFmas(f, s0, s1, s2, vcc, fma) == fma(s0, s1, s2)
  {
  }

  /** There is such a library: in binary32 scaled_fma itself, with nothing to scale, is an fma. */
  function Binary32Fma(a: Float, b: Float, c: Float): Float {
    if AllFinite(BINARY32, a, b, c) then ScaledFmaOf(BINARY32, a, b, c, 0).value else QuietNan(BINARY32, false)
  }

  lemma {:induction false} Binary32FmaIsFma()
    ensures IsFma(BINARY32, Binary32Fma)
  {
    forall a, b, c | AllFinite(BINARY32, a, b, c)
      ensures FusedOnce(BINARY32, a, b, c, 0, Binary32Fma(a, b, c))
    {
      Binary32RoundsToNearest(a, b, c, 0);
    }
  }

  /**
   The last step of a division, its operands scaled or not: the refined quotient s0 * s1 + q of the scaled operands,
   brought back to the scale of n / d, is rounded once.
   */
  lemma {:induction false} LastStepRounds(f: Format, n: Float, d: Float, s0: Float, s1: Float, q: Float,
                                          fma: (Float, Float, Float) -> Float)
    requires Supported(f) && FiniteNonzero(f, n) && FiniteNonzero(f, d) && AllFinite(f, s0, s1, q) && IsFma(f, fma)
    requires Estimates(f, q, ScaledNumerator(f, n, d).value, ScaledDenominator(f, n, d).value, Slack(f))
    ensures exists i, j ::
              UndoneBy(f, n, d, i, j) && RoundedBack(f, s0, s1, q, ScaledNumerator(f, n, d).vcc, fma, j - i)
  {
    var i, j := ScalingShifts(f, n, d, q);
    FmasRounds(f, s0, s1, q, ScaledNumerator(f, n, d).vcc, fma);
    assert UndoneBy(f, n, d, i, j) && RoundedBack(f, s0, s1, q, ScaledNumerator(f, n, d).vcc, fma, j - i);
  }

  lemma {:induction false} ScalingShifts(f: Format, n: Float, d: Float, q: Float) returns (i: int, j: int)
    requires Supported(f) && FiniteNonzero(f, n) && FiniteNonzero(f, d) && Valid(f, q)
    requires Estimates(f, q, ScaledNumerator(f, n, d).value, ScaledDenominator(f, n, d).value, Slack(f))
    ensures UndoneBy(f, n, d, i, j) && j - i == FmasExponent(f, q, ScaledNumerator(f, n, d).vcc)
  {
    ScalingIsUndone(f, n, d, q);
    i, j :| && ScaledExactly(f, n, ScaledNumerator(f, n, d).value, i)
      && ScaledExactly(f, d, ScaledDenominator(f, n, d).value, j)
            && i - j + FmasExponent(f, q, ScaledNumerator(f, n, d).vcc) == 0;
  }

  /** v_div_scale made n * 2^i over d * 2^j, exactly. */
  predicate UndoneBy(f: Format, n: Float, d: Float, i: int, j: int)
    requires Valid(f, n) && Valid(f, d) && f.mantissa > 0
  {
    ScaledExactly(f, n, ScaledNumerator(f, n, d).value, i) && ScaledExactly(f, d, ScaledDenominator(f, n, d).value, j)
  }

  /**
   v_div_fmas gives (s0 * s1 + q) * 2^k in one rounding to nearest even, or with the condition the farther neighbour on
   a borrowed tie.
   */
  ghost predicate RoundedBack(f: Format, s0: Float, s1: Float, q: Float, vcc: bool,
                              fma: (Float, Float, Float) -> Float, k: int)
    requires Supported(f) && AllFinite(f, s0, s1, q)
  {
    var r := DivFmas(f, s0, s1, q, vcc, fma);
    if vcc then FusedFaithfully(f, s0, s1, q, k, r) else FusedOnce(f, s0, s1, q, k, r)
  }

  // ---- v_div_fixup -------------------------------------------------------------

  function Fabs(x: Float): Float { Float(false, x.field, x.frac) }

  function Quieted(f: Format, x: Float): Float
    requires f.mantissa > 0
  {
    var half := Pow2(f.mantissa - 1);
    if x.frac >= half then x else Float(x.neg, x.field, x.frac + half)
  }

  function DivFixup(f: Format, s0: Float, s1: Float, s2: Float): Float
    requires f.mantissa > 0
  {
    var sign := s1.neg != s2.neg;
    if IsNan(f, s2) then Quieted(f, s2)
    else if IsNan(f, s1) then Quieted(f, s1)
    else if IsZero(s1) && IsZero(s2) then QuietNan(f, true)
    else if IsInf(f, s1) && IsInf(f, s2) then QuietNan(f, true)
    else if IsZero(s1) || IsInf(f, s2) then Infinity(f, sign)
    else if IsInf(f, s1) || IsZero(s2) then Zero(sign)
    else if s2.field - s1.field < f.underflow then Zero(sign)
    else if s2.field - s1.field >= f.overflow then Infinity(f, sign)
    else Float(sign, s0.field, s0.frac)
  }

  /** The exact n / d, in units. */
  function Quotient(f: Format, n: Float, d: Float): Fraction
    requires f.UnitExp() <= 0
  {
    Fraction(Signed(n.neg != d.neg, Shl(Magnitude(f, n), -f.UnitExp())), Magnitude(f, d))
  }

  /** Below half the smallest denormal, rounding gives zero. */
  lemma {:induction false} RoundsToZero(f: Format, neg: bool, x: nat, den: nat)
    requires Wide(f) && 0 < x && 2 * x < den
    ensures IsNearest(f, Fraction(Signed(neg, x), den), Zero(neg))
  {
    TimesZero(den);
    Pow2Grows(1, f.mantissa + 1);
    Pow2Grows(1, f.mantissa);
    TimesOrder(1, Pow2(f.mantissa + 1), den);
    TimesOne(den);
    assert RoundsTo(f, x, den, 0, 0);
    PackNearest(f, neg, x, den, 0, 0, den);
  }

  /** Past the overflow threshold, rounding gives an infinity. */
  lemma {:induction false} RoundsToInfinity(f: Format, neg: bool, x: nat, den: nat)
    requires f.maxExp >= 3 && 0 < x && x >= Times(OverflowAt(f), den)
    ensures IsNearest(f, Fraction(Signed(neg, x), den), Infinity(f, neg))
  {
  }

  lemma {:induction false} UnderflowIsZero(f: Format, n: Float, d: Float)
    requires Supported(f) && FiniteNonzero(f, n) && FiniteNonzero(f, d) && n.field - d.field < f.underflow
    ensures 2 * Shl(Magnitude(f, n), -f.UnitExp()) < Magnitude(f, d)
  {
    var w, e := -f.UnitExp(), f.mantissa + n.field;
    MagnitudeBounds(f, n);
    MagnitudeBounds(f, d);
    ShlApart(Magnitude(f, n), Pow2(e), w);
    Pow2Add(e, w);
    Pow2Grows(e + w + 1, f.mantissa + d.field - 1);
  }

  lemma {:induction false} OverflowIsInfinity(f: Format, n: Float, d: Float)
    requires Supported(f) && FiniteNonzero(f, n) && FiniteNonzero(f, d) && n.field - d.field >= f.overflow
    ensures Shl(Magnitude(f, n), -f.UnitExp()) >= Times(OverflowAt(f), Magnitude(f, d))
  {
    var w, md, top := -f.UnitExp(), Magnitude(f, d), f.mantissa + 2 + (f.maxExp - 3);
    MagnitudeBounds(f, n);
    MagnitudeBounds(f, d);
    ShlLess(Pow2(f.mantissa + n.field - 1), Magnitude(f, n), w);
    Pow2Add(f.mantissa + n.field - 1, w);
    assert OverflowAt(f) <= Pow2(top) by {
      ShlLess(Pow2(f.mantissa + 2) - 1, Pow2(f.mantissa + 2), f.maxExp - 3);
      Pow2Add(f.mantissa + 2, f.maxExp - 3);
    }
    TimesOrder(OverflowAt(f), Pow2(top), md);
    TimesPow2(md, top);
    ShlApart(md, Pow2(f.mantissa + d.field), top);
    Pow2Add(f.mantissa + d.field, top);
    Pow2Grows(f.mantissa + d.field + top, f.mantissa + n.field - 1 + w);
  }

  /** Rounding commutes with the sign. */
  lemma {:induction false} SignedNearest(f: Format, neg: bool, x: nat, den: nat, r: Float)
    requires f.maxExp >= 3 && x > 0 && !r.neg && IsNearest(f, Fraction(x, den), r)
    ensures IsNearest(f, Fraction(Signed(neg, x), den), Float(neg, r.field, r.frac))
  {
    var v, s := Fraction(Signed(neg, x), den), Float(neg, r.field, r.frac);
    if IsFinite(f, r) {
      forall y | Valid(f, y) && IsFinite(f, y)
        ensures AtLeastAsClose(f, v, s, y)
      {
        var z := Float(y.neg != neg, y.field, y.frac);
        assert AtLeastAsClose(f, Fraction(x, den), r, z);
        DistanceOf(f, neg, x, den, s);
        DistanceOf(f, neg, x, den, y);
        DistanceOf(f, false, x, den, r);
        DistanceOf(f, false, x, den, z);
      }
    }
  }

  /**
   For all finite nonzero n and d: the zero or infinity v_div_fixup returns from the exponents alone is the correctly
   rounded n / d, and otherwise a correctly rounded magnitude becomes the correctly rounded signed quotient.
   */
  lemma {:induction false} FixupIsCorrect(f: Format, q: Float, d: Float, n: Float)
    requires Supported(f) && FiniteNonzero(f, n) && FiniteNonzero(f, d) && Valid(f, q)
    requires f.underflow <= n.field - d.field < f.overflow
             ==> IsNearest(f, Fraction(Abs(Quotient(f, n, d).num), Magnitude(f, d)), Fabs(q))
    ensures IsNearest(f, Quotient(f, n, d), DivFixup(f, q, d, n))
  {
    var x, neg := Shl(Magnitude(f, n), -f.UnitExp()), n.neg != d.neg;
    ShlSign(Magnitude(f, n), -f.UnitExp());
    if n.field - d.field < f.underflow {
      UnderflowIsZero(f, n, d);
      RoundsToZero(f, neg, x, Magnitude(f, d));
    } else if n.field - d.field >= f.overflow {
      OverflowIsInfinity(f, n, d);
      RoundsToInfinity(f, neg, x, Magnitude(f, d));
    } else {
      SignedNearest(f, neg, x, Magnitude(f, d), Fabs(q));
    }
  }

  /** The special operands, as IEEE 754 divides them: a NaN exactly for a NaN, 0/0 and inf/inf; the signs multiply. */
  lemma {:induction false} FixupSpecials(f: Format, q: Float, d: Float, n: Float)
    requires Supported(f) && Valid(f, q) && Valid(f, d) && Valid(f, n) && !IsNan(f, q)
    ensures var r := DivFixup(f, q, d, n);
            && Valid(f, r)
            && (IsNan(f, r) <==> IsNan(f, n) || IsNan(f, d) || (IsZero(n) && IsZero(d)) || (IsInf(f, n) && IsInf(f, d)))
            && (!IsNan(f, r) ==> r.neg == (n.neg != d.neg))
            && (!IsNan(f, r) && (IsInf(f, n) || IsZero(d)) ==> IsInf(f, r))
            && (!IsNan(f, r) && (IsInf(f, d) || IsZero(n)) ==> IsZero(r))
  {
    assert Pow2(f.mantissa) == 2 * Pow2(f.mantissa - 1);
  }

  /** y is the NaN x with its quiet bit, the highest of the fraction, set. */
  predicate IsQuieted(f: Format, x: Float, y: Float)
    requires f.mantissa > 0
  {
    y.neg == x.neg && y.field == x.field && y.frac >= Pow2(f.mantissa - 1) &&
    (y.frac == x.frac || y.frac == x.frac + Pow2(f.mantissa - 1))
  }

  /**
   Which NaN: the numerator's, else the denominator's, quieted; for 0/0 and inf/inf the negative one of these bits.
   */
  lemma {:induction false} FixupNans(f: Format, q: Float, d: Float, n: Float)
    requires Supported(f) && Valid(f, q) && Valid(f, d) && Valid(f, n)
    ensures var r := DivFixup(f, q, d, n);
            && (IsNan(f, n) ==> Valid(f, r) && IsQuieted(f, n, r))
            && (!IsNan(f, n) && IsNan(f, d) ==> Valid(f, r) && IsQuieted(f, d, r))
            && ((IsZero(n) && IsZero(d)) || (IsInf(f, n) && IsInf(f, d)) ==>
                  BitsOf(f, r) == if f == BINARY32 then 0xFFC0_0000 else 0xFFF8_0000_0000_0000)
  {
    QuietBits();
    SignBits();
    assert Pow2(f.mantissa) == 2 * Pow2(f.mantissa - 1);
  }

  lemma {:induction false} SignBits()
    ensures Pow2(31) == 0x8000_0000 && Pow2(63) == 0x8000_0000_0000_0000
  {
    QuietBits();
    ShlWide(Pow2(22));
    ShlShl(1, 22, 6);
    ShlShl(1, 28, 3);
    ShlWide(Pow2(28));
    ShlShl(1, 51, 6);
    ShlShl(1, 57, 6);
    ShlWide(Pow2(51));
    ShlWide(Pow2(57));
  }
}
