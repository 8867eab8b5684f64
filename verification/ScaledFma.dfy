/**
 `scaled_fma`: fma(a, b, c) * 2^k with one rounding, in a 120-bit window with sticky bits.
 The method follows the source; the functions are its stages, and the theorems at the end say when the
 result is the exact value rounded once to nearest even.
 */
module ScaledFma {
  import opened Powers
  import opened Floats
  import opened Rounding

  const WINDOW := 120
  const WORD := 128
  /** What stands for "no leading bit": numeric_limits<int>::min() / 2. */
  const NO_TOP := -1073741824

  /** The result, or the two library calls that are made when an operand is an infinity or a NaN. */
  datatype Outcome = Rounded(value: Float) | Delegated

  // ---- The stages --------------------------------------------------------------

  /** m * 2^e. */
  datatype Parts = Parts(m: nat, e: int)

  /** The `parts` lambda: a mantissa with its leading bit always in the top place, a denormal's too. */
  function PartsOf(f: Format, v: Float): Parts
    requires Valid(f, v)
  {
    if IsZero(v) then Parts(0, -(f.mantissa + 1))
    else if v.field > 0 then Parts(Pow2(f.mantissa) + v.frac, v.field - 1 + f.UnitExp())
    else
      BitLenAtMost(v.frac, f.mantissa);
      var up := f.mantissa + 1 - BitLen(v.frac);
      ShlSign(v.frac, up);
      Parts(Shl(v.frac, up), f.UnitExp() - up)
  }

  /** One past the exponent of the leading bit. */
  function Top(p: Parts): int { if p.m == 0 then NO_TOP else p.e + BitLen(p.m) }

  /** What of an operand falls in the window whose unit is 2^e, and whether anything fell below. */
  datatype Aligned = Aligned(kept: nat, sticky: bool)

  function Align(p: Parts, e: int): Aligned {
    if p.m == 0 then Aligned(0, false)
    else if p.e >= e then ShlSign(p.m, p.e - e); Aligned(Shl(p.m, p.e - e), false)
    else if e - p.e >= WORD then Aligned(0, true)
    else
      var kept := Shr(p.m, e - p.e);
      Aligned(kept, Shl(kept, e - p.e) != p.m)
  }

  datatype Sum = Sum(neg: bool, mag: nat)

  function Combine(negP: bool, negC: bool, p: Aligned, c: Aligned): Sum {
    if negP == negC then
      var mag := p.kept + c.kept;
      Sum(negP, if p.sticky || c.sticky then mag + 1 - mag % 2 else mag)
    else
      var pBig := p.kept >= c.kept;
      var mag := if pBig then p.kept - c.kept else c.kept - p.kept;
      var fromBig, fromSmall := if pBig then p.sticky else c.sticky, if pBig then c.sticky else p.sticky;
      Sum(if pBig then negP else negC,
          if fromBig && !fromSmall then mag + 1 - mag % 2
          else if fromSmall && !fromBig then (if mag == 0 then Pow2(WORD) - 1 else mag - 1)
          else mag)
  }

  /** kept places of 2^grid units. */
  datatype Kept = Kept(count: nat, grid: nat)

  /** The grid a magnitude of mag * 2^d units is rounded on: full precision, or a denormal's unit. */
  function GridOf(f: Format, mag: nat, d: int): nat {
    var full := d + BitLen(mag) - (f.mantissa + 1);
    if full < 0 then 0 else full
  }

  /** Rounds mag * 2^d units to nearest even. */
  function RoundMagnitude(f: Format, mag: nat, d: int): Kept {
    var grid := GridOf(f, mag, d);
    var drop := grid - d;
    if drop <= 0 then ShlSign(mag, -drop); Kept(Shl(mag, -drop), grid)
    else if drop > BitLen(mag) + 1 then Kept(0, grid)
    else
      var count := Shr(mag, drop);
      var half, rest := Pow2(drop - 1), mag - Shl(count, drop);
      Kept(if rest > half || (rest == half && count % 2 == 1) then count + 1 else count, grid)
  }

  datatype Operands = Operands(p: Parts, c: Parts, negP: bool, negC: bool)
  {
    predicate BothZero() { p.m == 0 && c.m == 0 }
    /** The exponent of the window's unit. */
    function Unit(): int { (if Top(p) > Top(c) then Top(p) else Top(c)) - WINDOW }
    function Total(): Sum { Combine(negP, negC, Align(p, Unit()), Align(c, Unit())) }
  }

  function OperandsOf(f: Format, a: Float, b: Float, c: Float): Operands
    requires Valid(f, a) && Valid(f, b) && Valid(f, c)
  {
    var pa, pb := PartsOf(f, a), PartsOf(f, b);
    TimesGrows(pa.m, 0, pb.m);
    Operands(Parts(Times(pa.m, pb.m), pa.e + pb.e), PartsOf(f, c), a.neg != b.neg, c.neg)
  }

  function ScaledFmaOf(f: Format, a: Float, b: Float, c: Float, k: int): Outcome
    requires Valid(f, a) && Valid(f, b) && Valid(f, c)
  {
    if !IsFinite(f, a) || !IsFinite(f, b) || !IsFinite(f, c) then Delegated
    else
      Rounded(RoundOperands(f, OperandsOf(f, a, b, c), k))
  }

  function RoundOperands(f: Format, o: Operands, k: int): Float {
    if o.BothZero() || o.Total().mag == 0 then Zero(o.negP && o.negC)
    else
      var r := RoundMagnitude(f, o.Total().mag, o.Unit() + k - f.UnitExp());
      Pack(f, o.Total().neg, r.count, r.grid)
  }

  // ---- Rounding the window -----------------------------------------------------

  /** How a window magnitude stands to the exact one x, both in steps so fine that the window's unit is 2^a of them. */
  datatype Fit = Exact | Sticky | Floor

  predicate Fits(kind: Fit, mag: nat, a: nat, x: nat) {
    match kind
    case Exact => x == Shl(mag, a)
    case Sticky => mag % 2 == 1 && Shl(mag, a) - Pow2(a) < x < Shl(mag, a) + Pow2(a)
    case Floor => Shl(mag, a) < x < Shl(mag, a) + Pow2(a)
  }

  /** The rounding falls on an exact half whose lower neighbour is even. */
  predicate HalfOverEven(f: Format, mag: nat, d: int) {
    var drop := GridOf(f, mag, d) - d;
    drop > 0 && var count := Shr(mag, drop); mag - Shl(count, drop) == Pow2(drop - 1) && count % 2 == 0
  }

  /** count steps of 2^b are the nearest to x, an exact half going to even. */
  predicate NearestSteps(x: nat, count: nat, b: nat) {
    && 2 * Abs(Shl(count, b) - x) <= Pow2(b)
    && (2 * Abs(Shl(count, b) - x) == Pow2(b) ==> count % 2 == 0)
  }

  /** A magnitude and its dropped bits, in steps of which the window's unit is 2^a. */
  lemma {:induction false} ShrSplit(mag: nat, drop: nat, a: nat)
    requires drop > 0
    ensures var count := Shr(mag, drop); var rest := mag - Shl(count, drop);
            && 0 <= rest < 2 * Pow2(drop - 1)
            && Shl(mag, a) == Shl(count, drop + a) + Shl(rest, a)
            && Pow2(drop + a) == 2 * Shl(Pow2(drop - 1), a)
  {
    var count := Shr(mag, drop);
    ShrBounds(mag, drop);
    ShlShl(count, drop, a);
    ShlAdd(Shl(count, drop), mag - Shl(count, drop), a);
    Pow2Add(drop, a);
    ShlTwice(Pow2(drop - 1), a);
  }

  /** A magnitude more than a place below half rounds to nothing. */
  lemma {:induction false} FarBelow(mag: nat, drop: nat)
    requires mag > 0 && drop > BitLen(mag) + 1
    ensures Shr(mag, drop) == 0 && mag < Pow2(drop - 1)
  {
    BitLenBounds(mag);
    Pow2Grows(BitLen(mag), drop - 1);
    ShrBounds(mag, drop);
    if Shr(mag, drop) > 0 {
      ShlApart(0, Shr(mag, drop), drop);
      ShlSign(0, drop);
    }
  }

  /** What the rounding keeps, told by the dropped bits alone. */
  lemma {:induction false} RoundedCount(f: Format, mag: nat, d: int)
    requires mag > 0 && GridOf(f, mag, d) > d
    ensures var r := RoundMagnitude(f, mag, d); var drop := r.grid - d;
            var count := Shr(mag, drop); var rest, half := mag - Shl(count, drop), Pow2(drop - 1);
            && r.grid == GridOf(f, mag, d)
            && r.count == if rest > half || (rest == half && count % 2 == 1) then count + 1 else count
  {
    var drop := GridOf(f, mag, d) - d;
    if drop > BitLen(mag) + 1 {
      FarBelow(mag, drop);
      ShlSign(0, drop);
    }
  }

  /** The rounding arithmetic: s places below, rest (of 2 * half) dropped, a true remainder t of 2 * h steps. */
  lemma {:induction false} NearestFromRest(x: nat, count: nat, b: nat, h: nat, t: nat)
    requires x == Shl(count, b) + t && Pow2(b) == 2 * h && t < 2 * h
    ensures NearestSteps(x, count, b) <==> t < h || (t == h && count % 2 == 0)
    ensures NearestSteps(x, count + 1, b) <==> t > h || (t == h && count % 2 == 1)
  {
    ShlAdd(count, 1, b);
  }

  /** The kept count of a magnitude that is the exact one. */
  lemma {:induction false} RoundExact(f: Format, mag: nat, d: int, j: nat)
    requires mag > 0 && d + j >= 0
    ensures Shl(mag, d + j) >= 0
    ensures var r := RoundMagnitude(f, mag, d); NearestSteps(Shl(mag, d + j), r.count, r.grid + j)
  {
    var r := RoundMagnitude(f, mag, d);
    var drop, a := r.grid - d, d + j;
    ShlSign(mag, a);
    if drop <= 0 {
      ShlShl(mag, -drop, r.grid + j);
    } else {
      ShrSplit(mag, drop, a);
      RoundedCount(f, mag, d);
      var half, count := Pow2(drop - 1), Shr(mag, drop);
      var rest := mag - Shl(count, drop);
      ShlLess(rest, half, a);
      ShlLess(half, rest, a);
      ShlApart(rest, 2 * half, a);
      ShlTwice(half, a);
      ShlSign(rest, a);
      NearestFromRest(Shl(mag, a), count, drop + a, Shl(half, a), Shl(rest, a));
    }
  }

  /** Where the true remainder stands to the half, when bits were lost below the window. */
  lemma {:induction false} TrueRest(kind: Fit, mag: nat, a: nat, x: nat, drop: nat)
    requires kind != Exact && Fits(kind, mag, a, x) && drop > 1
    ensures var count := Shr(mag, drop); var rest, half := mag - Shl(count, drop), Pow2(drop - 1);
            var t, h := x - Shl(count, drop + a), Shl(half, a);
            && 0 < t < 2 * h && Pow2(drop + a) == 2 * h
            && (t < h <==> rest < half) && t != h && (rest == half ==> kind == Floor)
  {
    var count := Shr(mag, drop);
    var rest, half := mag - Shl(count, drop), Pow2(drop - 1);
    ShrSplit(mag, drop, a);
    ShlTwice(half, a);
    ShlApart(rest, 2 * half, a);
    ShlSign(rest, a);
    if kind == Sticky {
      OddRest(mag, count, drop);
      ShlApart(0, rest, a);
      ShlSign(0, a);
    }
    if rest < half {
      ShlApart(rest, half, a);
    } else if rest > half {
      ShlApart(half, rest, a);
    }
  }

  lemma {:induction false} OddRest(mag: nat, count: nat, drop: nat)
    requires mag % 2 == 1 && drop > 1
    ensures (mag - Shl(count, drop)) % 2 == 1 && Pow2(drop - 1) % 2 == 0
  {
    OddLessEven(mag, Shl(count, drop - 1));
    OddLessEven(1, Shl(1, drop - 2));
    assert Shl(count, drop) == 2 * Shl(count, drop - 1) && Shl(1, drop - 1) == 2 * Shl(1, drop - 2);
  }

  lemma {:induction false} OddLessEven(m: int, h: int)
    requires m % 2 == 1
    ensures (m - 2 * h) % 2 == 1 && 2 * h % 2 == 0
  {
  }

  /** With bits lost far below the rounding place, only a Floor magnitude that shows an exact half can round wrongly. */
  lemma {:induction false} RoundInexact(f: Format, mag: nat, d: int, j: nat, kind: Fit, x: nat)
    requires kind != Exact && d + j >= 0 && Fits(kind, mag, d + j, x)
    requires BitLen(mag) > f.mantissa + 2
    ensures var r := RoundMagnitude(f, mag, d); var wrong := kind == Floor && HalfOverEven(f, mag, d);
            && (NearestSteps(x, r.count, r.grid + j) <==> !wrong)
            && (wrong ==> NearestSteps(x, r.count + 1, r.grid + j) && r.count % 2 == 0)
            && Abs(Shl(r.count, r.grid + j) - x) < Pow2(r.grid + j)
  {
    var r := RoundMagnitude(f, mag, d);
    var drop, a := GridOf(f, mag, d) - d, d + j;
    RoundedCount(f, mag, d);
    TrueRest(kind, mag, a, x, drop);
    var count := Shr(mag, drop);
    NearestFromRest(x, count, drop + a, Shl(Pow2(drop - 1), a), x - Shl(count, drop + a));
    ShlAdd(count, 1, drop + a);
  }

  /** The exact magnitude lies in the binade the window's bit length names. */
  lemma {:induction false} FitBinade(f: Format, mag: nat, d: int, j: nat, kind: Fit, x: nat)
    requires mag > 0 && d + j >= 0 && Fits(kind, mag, d + j, x)
    requires kind != Exact ==> BitLen(mag) > 1
    ensures var b := GridOf(f, mag, d) + j;
            x < Pow2(f.mantissa + 1 + b) && (GridOf(f, mag, d) > 0 ==> x >= Pow2(f.mantissa + b))
  {
    var len, a := BitLen(mag), d + j;
    var b := GridOf(f, mag, d) + j;
    BitLenBounds(mag);
    Pow2Add(len, a);
    Pow2Add(len - 1, a);
    Pow2Grows(len + a, f.mantissa + 1 + b);
    ShlApart(mag, Pow2(len), a);
    ShlLess(Pow2(len - 1), mag, a);
    if kind == Sticky {
      Pow2Even(len - 1);
      ShlApart(Pow2(len - 1), mag, a);
    }
  }

  lemma {:induction false} TimesUnit(n: int, b: nat)
    ensures Times(n, Pow2(b)) == Shl(n, b)
  {
    TimesShl(n, 1, b);
    assert Times(n, 1) == n;
  }

  /** NearestSteps in the terms of Rounding: places of 2^grid units, counted in 1/2^j units. */
  lemma {:induction false} StepsToPlaces(f: Format, x: nat, count: nat, grid: nat, j: nat)
    requires x < Pow2(f.mantissa + 1 + (grid + j)) && (grid > 0 ==> x >= Pow2(f.mantissa + (grid + j)))
    ensures Shl(Pow2(j), grid) == Pow2(grid + j)
    ensures NearestSteps(x, count, grid + j) <==> RoundsTo(f, x, Pow2(grid + j), count, grid)
    ensures Abs(Shl(count, grid + j) - x) < Pow2(grid + j) ==> NextTo(f, x, Pow2(grid + j), count, grid)
  {
    var b := grid + j;
    Pow2Add(j, grid);
    TimesUnit(count, b);
    TimesUnit(Pow2(f.mantissa + 1), b);
    TimesUnit(Pow2(f.mantissa), b);
    Pow2Add(f.mantissa + 1, b);
    Pow2Add(f.mantissa, b);
  }

  /** What the window's rounding is to the exact magnitude, in the terms of Rounding. */
  lemma {:induction false} WindowPlaces(f: Format, mag: nat, d: int, j: nat, kind: Fit, x: nat)
    requires mag > 0 && d + j >= 0 && Fits(kind, mag, d + j, x)
    requires kind != Exact ==> BitLen(mag) > f.mantissa + 2
    ensures var r := RoundMagnitude(f, mag, d); var p := Pow2(r.grid + j);
            var wrong := kind == Floor && HalfOverEven(f, mag, d);
            && p == Shl(Pow2(j), r.grid) && NextTo(f, x, p, r.count, r.grid)
            && (RoundsTo(f, x, p, r.count, r.grid) <==> !wrong)
            && (wrong ==> RoundsTo(f, x, p, r.count + 1, r.grid) && r.count % 2 == 0)
  {
    var r := RoundMagnitude(f, mag, d);
    if kind == Exact {
      RoundExact(f, mag, d, j);
    } else {
      RoundInexact(f, mag, d, j, kind, x);
    }
    FitBinade(f, mag, d, j, kind, x);
    StepsToPlaces(f, x, r.count, r.grid, j);
    StepsToPlaces(f, x, r.count + 1, r.grid, j);
  }

  /**
   Rounding the window and packing: right exactly where the exact half over an even place is not reached by a borrow.
   */
  lemma {:induction false} RoundWindow(f: Format, neg: bool, mag: nat, d: int, j: nat, kind: Fit, x: nat)
    requires Wide(f) && mag > 0 && x > 0 && d + j >= 0 && Fits(kind, mag, d + j, x)
    requires kind != Exact ==> BitLen(mag) > f.mantissa + 2
    ensures var r := RoundMagnitude(f, mag, d); var v := Fraction(Signed(neg, x), Pow2(j));
            && IsFaithful(f, v, Pack(f, neg, r.count, r.grid))
            && (IsNearest(f, v, Pack(f, neg, r.count, r.grid)) <==>
                  !(kind == Floor && HalfOverEven(f, mag, d) && r.grid <= f.maxExp - 2))
  {
    var r := RoundMagnitude(f, mag, d);
    var p := Pow2(r.grid + j);
    WindowPlaces(f, mag, d, j, kind, x);
    PackFaithful(f, neg, x, Pow2(j), r.count, r.grid, p);
    if kind == Floor && HalfOverEven(f, mag, d) {
      WrongNeighbour(f, neg, x, Pow2(j), r.count, r.grid, p);
    } else {
      PackNearest(f, neg, x, Pow2(j), r.count, r.grid, p);
    }
  }

  /**
   Where count + 1 places are the nearest and count is even, count places are wrong unless both are past the range.
   */
  lemma {:induction false} WrongNeighbour(f: Format, neg: bool, x: nat, den: nat, count: nat, g: nat, p: nat)
    requires Wide(f) && den > 0 && p == Shl(den, g) && x > 0 && count % 2 == 0
    requires RoundsTo(f, x, p, count + 1, g) && NextTo(f, x, p, count, g) && !RoundsTo(f, x, p, count, g)
    ensures IsNearest(f, Fraction(Signed(neg, x), den), Pack(f, neg, count, g)) <==> g > f.maxExp - 2
  {
    NeighbourOnGrid(f, x, p, count, g);
    NeighbourOnGrid(f, x, p, count + 1, g);
    PackNearest(f, neg, x, den, count + 1, g, p);
    if g > f.maxExp - 2 {
      assert Pack(f, neg, count, g) == Pack(f, neg, count + 1, g) by { OverflowsAlike(f, neg, count, g); }
    } else {
      PackUnits(f, neg, count, g);
      EvenBelowTop(f, count, g);
      FartherNeighbour(f, neg, x, den, count, g, p);
      PastThreshold(f, x, den, count + 1, g, p);
      PackUnits(f, neg, count + 1, g);
    }
  }

  lemma {:induction false} EvenBelowTop(f: Format, count: nat, g: nat)
    requires count % 2 == 0 && OnGrid(f, count + 1, g) && g <= f.maxExp - 2
    ensures !Overflows(f, count, g) && !Overflows(f, count + 1, g)
  {
    Pow2Even(f.mantissa + 1);
  }

  lemma {:induction false} FartherNeighbour(f: Format, neg: bool, x: nat, den: nat, count: nat, g: nat, p: nat)
    requires Wide(f) && p == Shl(den, g) && count % 2 == 0
    requires RoundsTo(f, x, p, count + 1, g) && NextTo(f, x, p, count, g) && !RoundsTo(f, x, p, count, g)
    requires OnGrid(f, count, g) && !Overflows(f, count, g) && OnGrid(f, count + 1, g) && !Overflows(f, count + 1, g)
    ensures !AtLeastAsClose(f, Fraction(Signed(neg, x), den), Pack(f, neg, count, g), Pack(f, neg, count + 1, g))
  {
    PackDistance(f, neg, x, den, count, g);
    PackDistance(f, neg, x, den, count + 1, g);
  }

  lemma {:induction false} OverflowsAlike(f: Format, neg: bool, count: nat, g: nat)
    requires Wide(f) && OnGrid(f, count, g) && OnGrid(f, count + 1, g) && g > f.maxExp - 2
    ensures Pack(f, neg, count, g) == Pack(f, neg, count + 1, g)
  {
  }

  // ---- The window holds the sum ------------------------------------------------

  /** A product of two mantissas is at most 106 bits. */
  const PRODUCT_BITS := 106

  predicate Narrow(p: Parts) { p.m < Pow2(PRODUCT_BITS) && p.e > NO_TOP }

  /**
   What is kept of an operand is its value rounded down to the window's unit, and the sticky bit says whether that lost
   anything.
   */
  lemma {:induction false} AlignFloors(p: Parts, e: int, ex: nat, a: nat)
    requires Narrow(p) && ex - a == p.e - e
    ensures var q := Align(p, e);
            && Shl(q.kept, a) <= Shl(p.m, ex) < Shl(q.kept, a) + Pow2(a)
            && (q.sticky <==> Shl(q.kept, a) != Shl(p.m, ex))
  {
    if p.m == 0 {
      ShlSign(0, a);
      ShlSign(0, ex);
    } else if p.e >= e {
      ShlShl(p.m, p.e - e, a);
    } else if e - p.e >= WORD {
      ShlApart(p.m, Pow2(PRODUCT_BITS), ex);
      Pow2Add(PRODUCT_BITS, ex);
      Pow2Grows(PRODUCT_BITS + ex, a);
      ShlSign(p.m, ex);
      ShlSign(0, a);
    } else {
      AlignShifts(p.m, e - p.e, ex);
    }
  }

  lemma {:induction false} AlignShifts(m: nat, n: nat, ex: nat)
    ensures var kept := Shr(m, n);
            && Shl(kept, n + ex) <= Shl(m, ex) < Shl(kept, n + ex) + Pow2(n + ex)
            && (Shl(kept, n) != m <==> Shl(kept, n + ex) != Shl(m, ex))
  {
    var kept := Shr(m, n);
    ShrBounds(m, n);
    ShlShl(kept, n, ex);
    ShlLess(Shl(kept, n), m, ex);
    ShlLess(m, Shl(kept, n), ex);
    ShlApart(m, Shl(kept, n) + Pow2(n), ex);
    ShlAdd(Shl(kept, n), Pow2(n), ex);
    Pow2Add(n, ex);
  }

  /** The operand with the leading bit fills the window and loses nothing. */
  lemma {:induction false} LeadingOperand(p: Parts, e: int)
    requires Narrow(p) && p.m > 0 && e == Top(p) - WINDOW
    ensures var q := Align(p, e);
            && BitLen(p.m) <= WINDOW
            && !q.sticky && Pow2(WINDOW - 1) <= q.kept < Pow2(WINDOW) && q.kept == Shl(p.m, WINDOW - BitLen(p.m))
  {
    var len := BitLen(p.m);
    BitLenAtMost(p.m, PRODUCT_BITS);
    BitLenBounds(p.m);
    var sh := WINDOW - len;
    ShlLess(Pow2(len - 1), p.m, sh);
    ShlApart(p.m, Pow2(len), sh);
    Pow2Add(len, sh);
    Pow2Add(len - 1, sh);
  }

  /** Any operand fits the window; one that loses bits is far below its top. */
  lemma {:induction false} OtherOperand(p: Parts, e: int)
    requires Narrow(p) && e >= Top(p) - WINDOW
    ensures var q := Align(p, e); q.kept < Pow2(WINDOW) && (q.sticky ==> q.kept <= p.m)
  {
    if p.m == 0 {
    } else if p.e >= e {
      BitLenBounds(p.m);
      var len := BitLen(p.m);
      ShlApart(p.m, Pow2(len), p.e - e);
      Pow2Add(len, p.e - e);
      Pow2Grows(len + (p.e - e), WINDOW);
    } else {
      Pow2Grows(PRODUCT_BITS, WINDOW);
      if e - p.e < WORD {
        ShrAtMost(p.m, e - p.e);
      }
    }
  }

  lemma {:induction false} ShrAtMost(m: nat, n: nat)
    ensures Shr(m, n) <= m
  {
    if n > 0 {
      ShrAtMost(m, n - 1);
    }
  }

  /** The exact sum of the operands, in steps of which 2^ep (2^ec) are the product's (the addend's) unit. */
  function ExactSum(o: Operands, ep: nat, ec: nat): int {
    Signed(o.negP, Shl(o.p.m, ep)) + Signed(o.negC, Shl(o.c.m, ec))
  }

  /** Which of the three ways the window magnitude stands to the exact one. */
  function KindOf(o: Operands): Fit {
    if !Align(o.p, o.Unit()).sticky && !Align(o.c, o.Unit()).sticky then Exact
    else if o.negP == o.negC then Sticky else Floor
  }

  /** At most one operand loses bits, and it is then far smaller than the other. */
  lemma {:induction false} OneLoses(o: Operands)
    requires Narrow(o.p) && Narrow(o.c) && !o.BothZero()
    ensures var p, c := Align(o.p, o.Unit()), Align(o.c, o.Unit());
            && p.kept < Pow2(WINDOW) && c.kept < Pow2(WINDOW)
            && (p.sticky ==>
                  && !c.sticky && c.kept >= Pow2(WINDOW - 1) && p.kept <= o.p.m
                  && o.Unit() == Top(o.c) - WINDOW && o.c.m > 0)
            && (c.sticky ==>
                  && !p.sticky && p.kept >= Pow2(WINDOW - 1) && c.kept <= o.c.m
                  && o.Unit() == Top(o.p) - WINDOW && o.p.m > 0)
  {
    OtherOperand(o.p, o.Unit());
    OtherOperand(o.c, o.Unit());
    if Top(o.p) > Top(o.c) {
      if o.p.m > 0 {
        LeadingOperand(o.p, o.Unit());
      }
    } else if o.c.m > 0 {
      LeadingOperand(o.c, o.Unit());
    }
  }

  /** q is v rounded down to 2^a steps, sticky where that loses something; lossy operands are small. */
  predicate Floored(q: Aligned, v: int, a: nat) {
    && Shl(q.kept, a) <= v < Shl(q.kept, a) + Pow2(a)
    && (q.sticky <==> Shl(q.kept, a) != v)
    && q.kept < Pow2(WINDOW) && (q.sticky ==> q.kept < Pow2(PRODUCT_BITS))
  }

  lemma {:induction false} SameSign(neg: bool, p: Aligned, c: Aligned, vp: int, vc: int, a: nat)
    requires Floored(p, vp, a) && Floored(c, vc, a) && 0 <= vp && 0 <= vc
    requires (p.sticky ==> !c.sticky && c.kept >= Pow2(WINDOW - 1)) && (c.sticky ==> p.kept >= Pow2(WINDOW - 1))
    ensures var mag := Combine(neg, neg, p, c).mag; var kind := if p.sticky || c.sticky then Sticky else Exact;
            && Fits(kind, mag, a, vp + vc) && mag < Pow2(WINDOW + 1) && (kind != Exact ==> mag >= Pow2(WINDOW - 1))
  {
    var mag := p.kept + c.kept;
    ShlAdd(p.kept, c.kept, a);
    assert Pow2(WINDOW + 1) == 2 * Pow2(WINDOW);
    if p.sticky || c.sticky {
      assert Shl(mag, a) < vp + vc < Shl(mag, a) + Pow2(a);
      StickyOdd(mag, a, vp + vc);
    }
  }

  /** Setting the low bit of a truncated magnitude leaves it odd and less than a unit away. */
  lemma {:induction false} StickyOdd(mag: nat, a: nat, x: nat)
    requires Shl(mag, a) < x < Shl(mag, a) + Pow2(a)
    ensures Fits(Sticky, mag + 1 - mag % 2, a, x)
  {
    ShlAdd(mag, 1, a);
  }

  lemma {:induction false} OppositeSign(big: Aligned, small: Aligned, vb: int, vs: int, a: nat)
    requires Floored(big, vb, a) && Floored(small, vs, a) && big.kept >= small.kept
    requires (big.sticky ==> small.kept >= Pow2(WINDOW - 1))
             && (small.sticky ==> !big.sticky && big.kept >= Pow2(WINDOW - 1))
    ensures !big.sticky && vb >= vs
    ensures var mag := big.kept - small.kept - (if small.sticky then 1 else 0);
            var kind := if small.sticky then Floor else Exact;
            && 0 <= mag < Pow2(WINDOW) && Fits(kind, mag, a, vb - vs) && (kind != Exact ==> mag >= Pow2(WINDOW - 2))
  {
    Pow2Grows(PRODUCT_BITS, WINDOW - 2);
    assert Pow2(WINDOW - 1) == 2 * Pow2(WINDOW - 2);
    var diff := big.kept - small.kept;
    assert Shl(big.kept, a) == Shl(diff, a) + Shl(small.kept, a) by { ShlAdd(diff, small.kept, a); }
    if small.sticky {
      assert Shl(diff, a) == Shl(diff - 1, a) + Pow2(a) by { ShlAdd(diff - 1, 1, a); }
      ShlSign(diff - 1, a);
    } else {
      ShlSign(diff, a);
    }
  }

  /** How a sum in the window stands to an exact sum x that is not of two zeros. */
  predicate Represents(kind: Fit, sum: Sum, a: nat, x: int) {
    && Fits(kind, sum.mag, a, Abs(x)) && sum.mag < Pow2(WINDOW + 1)
    && (x != 0 ==> sum.mag > 0 && (sum.neg <==> x < 0))
    && (kind != Exact ==> x != 0 && sum.mag >= Pow2(WINDOW - 2))
    && (x == 0 ==> sum.mag == 0)
  }

  lemma {:induction false} SameSignSum(neg: bool, p: Aligned, c: Aligned, vp: nat, vc: nat, a: nat)
    requires Floored(p, vp, a) && Floored(c, vc, a) && vp + vc > 0
    requires (p.sticky ==> !c.sticky && c.kept >= Pow2(WINDOW - 1)) && (c.sticky ==> p.kept >= Pow2(WINDOW - 1))
    ensures Represents(if p.sticky || c.sticky then Sticky else Exact, Combine(neg, neg, p, c), a, Signed(neg, vp + vc))
  {
    SameSign(neg, p, c, vp, vc, a);
    Pow2Grows(WINDOW - 2, WINDOW - 1);
    ShlSign(Combine(neg, neg, p, c).mag, a);
  }

  lemma {:induction false} OppositeSignSum(negP: bool, p: Aligned, c: Aligned, vp: nat, vc: nat, a: nat)
    requires Floored(p, vp, a) && Floored(c, vc, a)
    requires (p.sticky ==> !c.sticky && c.kept >= Pow2(WINDOW - 1))
             && (c.sticky ==> !p.sticky && p.kept >= Pow2(WINDOW - 1))
    ensures Represents(if p.sticky || c.sticky then Floor
                       else Exact, Combine(negP, !negP, p, c), a, Signed(negP, vp) + Signed(!negP, vc))
  {
    Pow2Grows(WINDOW, WINDOW + 1);
    ShlSign(Combine(negP, !negP, p, c).mag, a);
    if p.kept >= c.kept {
      OppositeSign(p, c, vp, vc, a);
    } else {
      OppositeSign(c, p, vc, vp, a);
    }
  }

  /** The window's magnitude and sign are those of the exact sum, up to what fell below the window. */
  lemma {:induction false} WindowFits(o: Operands, ep: nat, ec: nat, a: nat)
    requires Narrow(o.p) && Narrow(o.c) && !o.BothZero()
    requires ep - a == o.p.e - o.Unit() && ec - a == o.c.e - o.Unit()
    ensures Represents(KindOf(o), o.Total(), a, ExactSum(o, ep, ec))
  {
    var p, c := Align(o.p, o.Unit()), Align(o.c, o.Unit());
    var vp, vc := Shl(o.p.m, ep), Shl(o.c.m, ec);
    OneLoses(o);
    AlignFloors(o.p, o.Unit(), ep, a);
    AlignFloors(o.c, o.Unit(), ec, a);
    ShlSign(o.p.m, ep);
    ShlSign(o.c.m, ec);
    if o.negP == o.negC {
      SameSignSum(o.negP, p, c, vp, vc, a);
    } else {
      OppositeSignSum(o.negP, p, c, vp, vc, a);
    }
  }

  /**
   The opposite-sign branch borrows for bits below the window, and what is left shows an exact half over an even place
   in range.
   */
  predicate TiedByBorrow(f: Format, o: Operands, k: int) {
    var mag, d := o.Total().mag, o.Unit() + k - f.UnitExp();
    !o.BothZero() && KindOf(o) == Floor && HalfOverEven(f, mag, d) && GridOf(f, mag, d) <= f.maxExp - 2
  }

  lemma {:induction false} LongEnough(f: Format, mag: nat)
    requires Supported(f) && mag >= Pow2(WINDOW - 2)
    ensures BitLen(mag) > f.mantissa + 2
  {
    BitLenBounds(mag);
    if BitLen(mag) <= f.mantissa + 2 {
      Pow2Grows(BitLen(mag), WINDOW - 2);
    }
  }

  /** What the operands round to, against their exact sum counted in 1/2^j units. */
  lemma {:induction false} OperandsRound(f: Format, o: Operands, k: int, j: nat, x: int)
    requires Supported(f) && !o.BothZero() && x != 0 && o.Unit() + k - f.UnitExp() + j >= 0
    requires Represents(KindOf(o), o.Total(), o.Unit() + k - f.UnitExp() + j, x)
    ensures var v := Fraction(x, Pow2(j));
            IsFaithful(f, v, RoundOperands(f, o, k))
              && (IsNearest(f, v, RoundOperands(f, o, k)) <==> !TiedByBorrow(f, o, k))
  {
    SumRounds(f, o.Total(), o.Unit() + k - f.UnitExp(), j, KindOf(o), x);
  }

  lemma {:induction false} SumRounds(f: Format, sum: Sum, d: int, j: nat, kind: Fit, x: int)
    requires Supported(f) && x != 0 && d + j >= 0 && Represents(kind, sum, d + j, x)
    ensures var r, v := RoundMagnitude(f, sum.mag, d), Fraction(x, Pow2(j));
            && IsFaithful(f, v, Pack(f, sum.neg, r.count, r.grid))
            && (IsNearest(f, v, Pack(f, sum.neg, r.count, r.grid))
                <==> !(kind == Floor && HalfOverEven(f, sum.mag, d) && r.grid <= f.maxExp - 2))
  {
    if kind != Exact {
      LongEnough(f, sum.mag);
    }
    RoundWindow(f, sum.neg, sum.mag, d, j, kind, Abs(x));
    assert Signed(sum.neg, Abs(x)) == x;
  }
}
