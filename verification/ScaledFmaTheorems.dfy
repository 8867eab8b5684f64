/**
 What `scaled_fma` returns: the exact a * b + c times 2^k, rounded once. In binary32 always to nearest even; in
 binary64 to nearest even except where a borrow from below the window leaves an exact half over an even place, and
 always to one of the two neighbours.
 */
module ScaledFmaTheorems {
  import opened Powers
  import opened Floats
  import opened Rounding
  import opened ScaledFma

  /** n * 2^s. */
  function Dyadic(n: int, s: int): Fraction { if s >= 0 then Fraction(Shl(n, s), 1) else Fraction(n, Pow2(-s)) }

  /** The exact value (a * b + c) * 2^k, in units: written from the operands' values, not from the code's parts. */
  function ExactFma(f: Format, a: Float, b: Float, c: Float, k: int): Fraction
    requires f.UnitExp() <= 0
  {
    Dyadic(Signed(a.neg != b.neg, Times(Magnitude(f, a), Magnitude(f, b))) + Shl(Units(f, c), -f.UnitExp()),
           f.UnitExp() + k)
  }

  /** TiedByBorrow of a call's operands: the one case that can round wrongly. */
  predicate BorrowedTie(f: Format, a: Float, b: Float, c: Float, k: int)
    requires Valid(f, a) && Valid(f, b) && Valid(f, c)
  {
    TiedByBorrow(f, OperandsOf(f, a, b, c), k)
  }

  // ---- The operands' parts -----------------------------------------------------

  lemma {:induction false} PartsValue(f: Format, v: Float, t: nat)
    requires Supported(f) && Valid(f, v) && IsFinite(f, v) && t >= f.mantissa + 1
    ensures var p := PartsOf(f, v);
            && p.e - f.UnitExp() + t >= 0
            && Shl(p.m, p.e - f.UnitExp() + t) == Shl(Magnitude(f, v), t)
            && p.m < Pow2(f.mantissa + 1) && (p.m == 0 <==> IsZero(v))
            && f.UnitExp() - (f.mantissa + 1) <= p.e <= f.maxExp
  {
    var p := PartsOf(f, v);
    if IsZero(v) {
      ShlSign(0, t);
      ShlSign(0, p.e - f.UnitExp() + t);
    } else if v.field > 0 {
      ShlShl(p.m, v.field - 1, t);
    } else {
      BitLenAtMost(v.frac, f.mantissa);
      BitLenBounds(v.frac);
      var len := BitLen(v.frac);
      var up := f.mantissa + 1 - len;
      ShlShl(v.frac, up, t - up);
      ShlApart(v.frac, Pow2(len), up);
      Pow2Add(len, up);
      ShlSign(v.frac, up);
    }
  }

  lemma {:induction false} ProductValue(f: Format, pa: Parts, pb: Parts, ma: nat, mb: nat, t: nat, u: int)
    requires pa.e - u + t >= 0 && pb.e - u + t >= 0
    requires Shl(pa.m, pa.e - u + t) == Shl(ma, t) && Shl(pb.m, pb.e - u + t) == Shl(mb, t)
    ensures Shl(Times(pa.m, pb.m), (pa.e - u + t) + (pb.e - u + t)) == Shl(Times(ma, mb), t + t)
  {
    ShlSign(mb, t);
    ProductShifts(pa.m, pb.m, pa.e - u + t, pb.e - u + t);
    ProductShifts(ma, mb, t, t);
  }

  lemma {:induction false} ProductShifts(x: nat, y: nat, a: nat, b: nat)
    ensures Shl(y, b) >= 0 && Times(Shl(x, a), Shl(y, b)) == Shl(Times(x, y), a + b)
  {
    TimesShl(Shl(x, a), y, b);
    TimesShl(x, y, a);
    ShlShl(Times(x, y), a, b);
  }

  lemma {:induction false} ProductNarrow(x: nat, y: nat, n: nat)
    requires x < Pow2(n) && y < Pow2(n)
    ensures 0 <= Times(x, y) < Pow2(2 * n)
    ensures x > 0 && y > 0 ==> Times(x, y) > 0
    ensures x == 0 || y == 0 ==> Times(x, y) == 0
  {
    TimesGrows(x, 0, y);
    TimesGrows(x, y, Pow2(n));
    TimesShl(x, 1, n);
    assert Times(x, 1) == x;
    ShlApart(x, Pow2(n), n);
    Pow2Add(n, n);
    TimesZero(y);
    if y > 0 {
      TimesGrows(x, 1, y);
    }
  }

  lemma {:induction false} OperandsNarrow(f: Format, a: Float, b: Float, c: Float)
    requires Supported(f) && AllFinite(f, a, b, c)
    ensures var o := OperandsOf(f, a, b, c);
            && Narrow(o.p) && Narrow(o.c) && o.p.m < Pow2(2 * (f.mantissa + 1)) && o.c.m < Pow2(f.mantissa + 1)
  {
    var n := f.mantissa + 1;
    PartsValue(f, a, n);
    PartsValue(f, b, n);
    PartsValue(f, c, n);
    ProductNarrow(PartsOf(f, a).m, PartsOf(f, b).m, n);
    Pow2Grows(2 * n, PRODUCT_BITS);
    Pow2Grows(n, 2 * n);
  }

  /** The steps everything is counted in: 2^-j units, fine enough for the window and both operands. */
  function Fineness(f: Format, o: Operands, k: int): nat {
    Abs(k) + Abs(o.Unit()) + Abs(o.p.e) + Abs(o.c.e) + Abs(f.UnitExp()) + 2 * (f.mantissa + 1)
  }

  /** The product and the addend in those steps. */
  lemma {:induction false} ProductInSteps(f: Format, a: Float, b: Float, c: Float, t: nat)
    requires Supported(f) && Valid(f, a) && Valid(f, b) && Valid(f, c) && IsFinite(f, a) && IsFinite(f, b)
    requires t >= 2 * (f.mantissa + 1)
    ensures var o := OperandsOf(f, a, b, c);
            && o.p.e - 2 * f.UnitExp() + t >= 0
            && Shl(o.p.m, o.p.e - 2 * f.UnitExp() + t) == Shl(Times(Magnitude(f, a), Magnitude(f, b)), t)
  {
    var o, n := OperandsOf(f, a, b, c), f.mantissa + 1;
    var pa, pb := PartsOf(f, a), PartsOf(f, b);
    PartsValue(f, a, n);
    PartsValue(f, b, n);
    ProductValue(f, pa, pb, Magnitude(f, a), Magnitude(f, b), n, f.UnitExp());
    ShlShl(o.p.m, o.p.e - 2 * f.UnitExp() + 2 * n, t - 2 * n);
    ShlShl(Times(Magnitude(f, a), Magnitude(f, b)), 2 * n, t - 2 * n);
  }

  lemma {:induction false} AddendInSteps(f: Format, c: Float, t: nat)
    requires Supported(f) && Valid(f, c) && IsFinite(f, c) && t - f.UnitExp() >= f.mantissa + 1
    ensures var p := PartsOf(f, c);
            && p.e - 2 * f.UnitExp() + t >= 0
            && Signed(c.neg, Shl(p.m, p.e - 2 * f.UnitExp() + t)) == Shl(Shl(Units(f, c), -f.UnitExp()), t)
  {
    PartsValue(f, c, t - f.UnitExp());
    ShlShl(Units(f, c), -f.UnitExp(), t);
    ShlNegate(Magnitude(f, c), t - f.UnitExp());
  }

  /** n * 2^s over a denominator of 2^j is Dyadic(n, s) over a larger one. */
  lemma {:induction false} DyadicOver(n: int, s: int, j: nat)
    requires s + j >= 0
    ensures var q := if s >= 0 then j else j + s;
            Shl(n, s + j) == Shl(Dyadic(n, s).num, q) && Pow2(j) == Shl(Dyadic(n, s).den, q)
  {
    if s >= 0 {
      ShlShl(n, s, j);
    } else {
      Pow2Add(-s, j + s);
    }
  }

  lemma {:induction false} SumInSteps(o: Operands, neg: bool, p: int, n: int, t: nat, ep: nat, ec: nat)
    requires o.negP == neg && Shl(o.p.m, ep) == Shl(p, t) && Signed(o.negC, Shl(o.c.m, ec)) == Shl(n, t)
    ensures ExactSum(o, ep, ec) == Shl(Signed(neg, p) + n, t)
  {
    ShlNegate(p, t);
    ShlAdd(Signed(neg, p), n, t);
  }

  /** The code's sum of parts, 2^-j units a step, is the exact value: the same number over a finer denominator. */
  lemma {:induction false} SumIsExact(f: Format, a: Float, b: Float, c: Float, k: int, j: nat)
    requires Supported(f) && AllFinite(f, a, b, c) && j >= Fineness(f, OperandsOf(f, a, b, c), k)
    ensures var o, u, x := OperandsOf(f, a, b, c), f.UnitExp(), ExactFma(f, a, b, c, k);
            var q := if u + k >= 0 then j else j + u + k;
            && o.p.e + k - u + j >= 0 && o.c.e + k - u + j >= 0 && q >= 0
            && ExactSum(o, o.p.e + k - u + j, o.c.e + k - u + j) == Shl(x.num, q) && Pow2(j) == Shl(x.den, q)
  {
    var o, u := OperandsOf(f, a, b, c), f.UnitExp();
    var t := u + k + j;
    ProductInSteps(f, a, b, c, t);
    AddendInSteps(f, c, t);
    var p, n := Times(Magnitude(f, a), Magnitude(f, b)), Shl(Units(f, c), -u);
    SumInSteps(o, a.neg != b.neg, p, n, t, o.p.e - 2 * u + t, o.c.e - 2 * u + t);
    DyadicOver(Signed(a.neg != b.neg, p) + n, u + k, j);
  }

  // ---- The theorems ------------------------------------------------------------

  predicate AllFinite(f: Format, a: Float, b: Float, c: Float) {
    Valid(f, a) && Valid(f, b) && Valid(f, c) && IsFinite(f, a) && IsFinite(f, b) && IsFinite(f, c)
  }

  lemma {:induction false} ZeroSum(f: Format, o: Operands, ep: nat, ec: nat, a: nat, k: int)
    requires Narrow(o.p) && Narrow(o.c) && ExactSum(o, ep, ec) == 0
    requires o.BothZero() || Represents(KindOf(o), o.Total(), a, 0)
    ensures RoundOperands(f, o, k) == Zero(o.negP && o.negC)
  {
  }

  lemma {:induction false} NonzeroSum(o: Operands, ep: nat, ec: nat)
    requires ExactSum(o, ep, ec) != 0
    ensures !o.BothZero()
  {
    ShlSign(0, ep);
    ShlSign(0, ec);
  }

  /** The theorem on parts: o's exact sum in 1/2^j units is the number x. */
  lemma {:induction false} OperandsAgainst(f: Format, o: Operands, k: int, j: nat, ep: nat, ec: nat, x: Fraction,
                                           q: nat)
    requires Supported(f) && Narrow(o.p) && Narrow(o.c) && f.maxExp >= 3
    requires ep == o.p.e + k - f.UnitExp() + j && ec == o.c.e + k - f.UnitExp() + j
             && o.Unit() + k - f.UnitExp() + j >= 0
    requires ExactSum(o, ep, ec) == Shl(x.num, q) && Pow2(j) == Shl(x.den, q)
    ensures x.num == 0 ==> RoundOperands(f, o, k) == Zero(o.negP && o.negC)
    ensures x.num != 0 ==> IsFaithful(f, x, RoundOperands(f, o, k))
    ensures x.num != 0 ==> (IsNearest(f, x, RoundOperands(f, o, k)) <==> !TiedByBorrow(f, o, k))
  {
    var w, sum := o.Unit() + k - f.UnitExp() + j, ExactSum(o, ep, ec);
    ShlSign(x.num, q);
    if !o.BothZero() {
      WindowFits(o, ep, ec, w);
    }
    if x.num == 0 {
      ZeroSum(f, o, ep, ec, w, k);
    } else {
      NonzeroSum(o, ep, ec);
      OperandsRound(f, o, k, j, sum);
      SameNumberRounds(f, x, q, Fraction(sum, Pow2(j)), RoundOperands(f, o, k));
    }
  }

  /**
   In a finite call the result is a zero of the right sign where the exact value is zero, and otherwise one of the two
   neighbours of the exact value, the nearest-even one if and only if no borrowed tie arises.
   */
  lemma {:induction false} RoundsOnce(f: Format, a: Float, b: Float, c: Float, k: int)
    requires Supported(f) && AllFinite(f, a, b, c)
    ensures var r, x := ScaledFmaOf(f, a, b, c, k), ExactFma(f, a, b, c, k);
            && r.Rounded?
            && (x.num == 0 ==> r.value == Zero((a.neg != b.neg) && c.neg))
            && (x.num != 0 ==> IsFaithful(f, x, r.value) && (IsNearest(f, x, r.value) <==> !BorrowedTie(f, a, b, c, k)))
  {
    var o, u, x := OperandsOf(f, a, b, c), f.UnitExp(), ExactFma(f, a, b, c, k);
    var j := Fineness(f, o, k);
    OperandsNarrow(f, a, b, c);
    SumIsExact(f, a, b, c, k, j);
    OperandsAgainst(f, o, k, j, o.p.e + k - u + j, o.c.e + k - u + j, x, if u + k >= 0 then j else j + u + k);
  }

  /** A multiple of 2^72 less a short number and one more is never half a place over whole places of 2^74 or more. */
  lemma {:induction false} NoHalfAfterBorrow(lead: nat, small: nat, count: nat, drop: nat)
    requires small < Pow2(48) && drop > 73
    ensures Shl(lead, 72) - small - 1 != Shl(count, drop) + Pow2(drop - 1)
  {
    var m := Shl(count, drop - 72) + Pow2(drop - 1 - 72);
    ShlShl(count, drop - 72, 72);
    Pow2Add(drop - 1 - 72, 72);
    ShlAdd(Shl(count, drop - 72), Pow2(drop - 1 - 72), 72);
    Pow2Grows(48, 72);
    if m < lead {
      ShlApart(m, lead, 72);
    } else {
      ShlLess(lead, m, 72);
    }
  }

  lemma {:induction false} LeadMultiple(m: nat)
    requires 0 < m < Pow2(48)
    ensures BitLen(m) <= 48 && Shl(m, WINDOW - BitLen(m)) == Shl(Shl(m, 48 - BitLen(m)), 72)
            && Shl(m, 48 - BitLen(m)) >= 0
  {
    BitLenAtMost(m, 48);
    ShlShl(m, 48 - BitLen(m), 72);
    ShlSign(m, 48 - BitLen(m));
  }

  /** Binary32's mantissas are short enough that a borrow never leaves a tie. */
  lemma {:induction false} NoTieInBinary32(o: Operands, k: int)
    requires Narrow(o.p) && Narrow(o.c) && o.p.m < Pow2(48) && o.c.m < Pow2(48)
    ensures !TiedByBorrow(BINARY32, o, k)
  {
    if !o.BothZero() && KindOf(o) == Floor {
      BorrowedMagnitude(o);
      if Align(o.p, o.Unit()).sticky {
        ProductLost(o, o.Total().mag, o.Unit() + k - BINARY32.UnitExp());
      } else {
        AddendLost(o, o.Total().mag, o.Unit() + k - BINARY32.UnitExp());
      }
    }
  }

  lemma {:induction false} ProductLost(o: Operands, mag: nat, d: int)
    requires Narrow(o.p) && Narrow(o.c) && o.p.m < Pow2(48) && o.c.m < Pow2(48) && !o.BothZero()
             && Align(o.p, o.Unit()).sticky
    requires mag == Align(o.c, o.Unit()).kept - Align(o.p, o.Unit()).kept - 1 >= Pow2(WINDOW - 2)
    ensures !HalfOverEven(BINARY32, mag, d)
  {
    OneLoses(o);
    ShortBorrow(o.c, Align(o.p, o.Unit()).kept, o.Unit(), mag, d);
  }

  lemma {:induction false} AddendLost(o: Operands, mag: nat, d: int)
    requires Narrow(o.p) && Narrow(o.c) && o.p.m < Pow2(48) && o.c.m < Pow2(48) && !o.BothZero()
             && Align(o.c, o.Unit()).sticky
    requires mag == Align(o.p, o.Unit()).kept - Align(o.c, o.Unit()).kept - 1 >= Pow2(WINDOW - 2)
    ensures !HalfOverEven(BINARY32, mag, d)
  {
    OneLoses(o);
    ShortBorrow(o.p, Align(o.c, o.Unit()).kept, o.Unit(), mag, d);
  }

  lemma {:induction false} ShortBorrow(lead: Parts, small: nat, u: int, mag: nat, d: int)
    requires Narrow(lead) && 0 < lead.m < Pow2(48) && u == Top(lead) - WINDOW && small < Pow2(48)
    requires mag == Align(lead, u).kept - small - 1 >= Pow2(WINDOW - 2)
    ensures !HalfOverEven(BINARY32, mag, d)
  {
    var drop := GridOf(BINARY32, mag, d) - d;
    LeadingOperand(lead, u);
    LeadMultiple(lead.m);
    LongWindow(mag);
    NoHalfAfterBorrow(Shl(lead.m, 48 - BitLen(lead.m)), small, Shr(mag, drop), drop);
  }

  /** What the borrow leaves. */
  lemma {:induction false} BorrowedMagnitude(o: Operands)
    requires Narrow(o.p) && Narrow(o.c) && !o.BothZero() && KindOf(o) == Floor
    ensures var p, c := Align(o.p, o.Unit()), Align(o.c, o.Unit());
            o.Total().mag == (if p.sticky then c.kept - p.kept else p.kept - c.kept) - 1 >= Pow2(WINDOW - 2)
  {
    OneLoses(o);
    Pow2Grows(PRODUCT_BITS, WINDOW - 2);
    assert Pow2(WINDOW - 1) == 2 * Pow2(WINDOW - 2);
  }

  lemma {:induction false} LongWindow(mag: nat)
    requires mag >= Pow2(WINDOW - 2)
    ensures BitLen(mag) >= WINDOW - 1
  {
    BitLenBounds(mag);
    if BitLen(mag) < WINDOW - 1 {
      Pow2Grows(BitLen(mag), WINDOW - 2);
    }
  }

  /**
   In binary32 the result is (a * b + c) * 2^k rounded once to nearest even, for every finite a, b and c and every k.
   */
  lemma {:induction false} Binary32RoundsToNearest(a: Float, b: Float, c: Float, k: int)
    requires AllFinite(BINARY32, a, b, c)
    ensures var r, x := ScaledFmaOf(BINARY32, a, b, c, k), ExactFma(BINARY32, a, b, c, k);
            r.Rounded? && (if x.num == 0 then r.value == Zero((a.neg != b.neg) && c.neg)
                           else IsNearest(BINARY32, x, r.value))
  {
    RoundsOnce(BINARY32, a, b, c, k);
    OperandsNarrow(BINARY32, a, b, c);
    Pow2Grows(24, 48);
    NoTieInBinary32(OperandsOf(BINARY32, a, b, c), k);
  }

  // ---- Binary64: an input that rounds wrongly ----------------------------------

  lemma {:induction false} ShrUnique(x: nat, n: nat, c: nat)
    requires Shl(c, n) <= x < Shl(c, n) + Pow2(n)
    ensures Shr(x, n) == c
  {
    ShrBounds(x, n);
    var s := Shr(x, n);
    if s < c {
      ShlApart(s, c, n);
    } else if c < s {
      ShlApart(c, s, n);
    }
  }

  /**
   -(1 + 2^-52) * (1/2 - 2^-53) + (2^52 + 1), scaled by v_div_fmas's 2^128: just above the half between 2^52 and 2^52 +
   1.
   */
  const TIE_A := Float(true, 1023, 1)
  const TIE_B := Float(false, 1021, Pow2(52) - 2)
  const TIE_C := Float(false, 1075, 1)

  /** The places that matter in that call, by the precision n: 52 for binary64. */
  lemma {:induction false} TieProduct(n: nat)
    requires n >= 2
    ensures Pow2(n) >= 2 && Times(Pow2(n) + 1, Pow2(n + 1) - 2) == Pow2(2 * n + 1) - 2
  {
    var h := Pow2(n);
    Pow2Grows(1, n);
    TimesSplit(h + 1, 2 * h - 2, 2);
    TimesShl(h + 1, 1, n + 1);
    ShlAdd(h, 1, n + 1);
    Pow2Add(n, n + 1);
    assert Times(h + 1, 1) == h + 1;
    assert Times(h + 1, 2) == 2 * (h + 1);
  }

  lemma {:induction false} TieOperands(n: nat)
    requires n == 52
    ensures Valid(BINARY64, TIE_A) && Valid(BINARY64, TIE_B) && Valid(BINARY64, TIE_C)
    ensures var o := OperandsOf(BINARY64, TIE_A, TIE_B, TIE_C);
            o.p == Parts(Pow2(2 * n + 1) - 2, -(2 * n + 2)) && o.c == Parts(Pow2(n) + 1, 0) && o.negP && !o.negC
  {
    TieProduct(n);
    Pow2Grows(2, n);
  }

  lemma {:induction false} TieAligned(a: nat, b: nat)
    requires b >= 2
    ensures Pow2(a + b) >= 2 && Shr(Pow2(a + b) - 2, b) == Pow2(a) - 1 && Shl(Pow2(a) - 1, b) != Pow2(a + b) - 2
  {
    ShlAdd(Pow2(a) - 1, 1, b);
    Pow2Add(a, b);
    Pow2Grows(2, b);
    Pow2Grows(b, a + b);
    ShrUnique(Pow2(a + b) - 2, b, Pow2(a) - 1);
  }

  lemma {:induction false} TieUnit(o: Operands, n: nat)
    requires n == 52 && o.p == Parts(Pow2(2 * n + 1) - 2, -(2 * n + 2)) && o.c == Parts(Pow2(n) + 1, 0)
    ensures o.Unit() == -(n + 15) && !o.BothZero()
  {
    Pow2Grows(2, 2 * n);
    Pow2Grows(2, n);
    BitLenUnique(o.p.m, 2 * n + 1);
    BitLenUnique(o.c.m, n + 1);
  }

  /** The window of that call: the borrow leaves 2^119 + 2^66, whose low 67 bits are exactly half. */
  lemma {:induction false} TieWindow(o: Operands, n: nat)
    requires n == 52 && o.p == Parts(Pow2(2 * n + 1) - 2, -(2 * n + 2)) && o.c == Parts(Pow2(n) + 1, 0) && o.negP
             && !o.negC
    ensures o.Unit() == -(n + 15) && KindOf(o) == Floor && !o.BothZero()
            && o.Total().mag == Pow2(2 * n + 15) + Pow2(n + 14)
  {
    TieUnit(o, n);
    TieAligned(n + 14, n - 13);
    Pow2Grows(2, 2 * n + 1);
    assert Align(o.p, -(n + 15)) == Aligned(Pow2(n + 14) - 1, true);
    ShlAdd(Pow2(n), 1, n + 15);
    Pow2Add(n, n + 15);
    assert Align(o.c, -(n + 15)) == Aligned(Pow2(2 * n + 15) + Pow2(n + 15), false);
    assert Pow2(n + 15) == 2 * Pow2(n + 14);
  }

  lemma {:induction false} TieTied(mag: nat, d: int, n: nat)
    requires n == 52 && mag == Pow2(2 * n + 15) + Pow2(n + 14) && d == 1135
    ensures HalfOverEven(BINARY64, mag, d) && GridOf(BINARY64, mag, d) <= BINARY64.maxExp - 2
  {
    Pow2Grows(n + 14, 2 * n + 15);
    BitLenUnique(mag, 2 * n + 16);
    Pow2Add(n, n + 15);
    assert Pow2(n + 15) == 2 * Pow2(n + 14);
    ShrUnique(mag, n + 15, Pow2(n));
    Pow2Even(n);
  }

  lemma {:induction false} FloorIsNonzero(f: Format, a: Float, b: Float, c: Float, k: int)
    requires Supported(f) && AllFinite(f, a, b, c) && BorrowedTie(f, a, b, c, k)
    ensures ExactFma(f, a, b, c, k).num != 0
  {
    var o, u := OperandsOf(f, a, b, c), f.UnitExp();
    var j := Fineness(f, o, k);
    OperandsNarrow(f, a, b, c);
    SumIsExact(f, a, b, c, k, j);
    FloorSum(o, o.p.e + k - u + j, o.c.e + k - u + j, o.Unit() + k - u + j, ExactFma(f, a, b, c, k).num, if u + k >= 0
             then j else j + u + k);
  }

  lemma {:induction false} FloorSum(o: Operands, ep: nat, ec: nat, w: nat, num: int, q: nat)
    requires Narrow(o.p) && Narrow(o.c) && !o.BothZero() && KindOf(o) == Floor
    requires ep - w == o.p.e - o.Unit() && ec - w == o.c.e - o.Unit() && ExactSum(o, ep, ec) == Shl(num, q)
    ensures num != 0
  {
    WindowFits(o, ep, ec, w);
    ShlSign(num, q);
  }

  /** In binary64 the nearest-even promise fails: this call returns the farther neighbour. */
  lemma {:induction false} Binary64RoundsWrongly()
    ensures AllFinite(BINARY64, TIE_A, TIE_B, TIE_C) && BorrowedTie(BINARY64, TIE_A, TIE_B, TIE_C, BINARY64.scale)
    ensures ExactFma(BINARY64, TIE_A, TIE_B, TIE_C, BINARY64.scale).num != 0
    ensures !IsNearest(BINARY64, ExactFma(BINARY64, TIE_A, TIE_B, TIE_C, BINARY64.scale),
                       ScaledFmaOf(BINARY64, TIE_A, TIE_B, TIE_C, BINARY64.scale).value)
  {
    var n, k := 52, BINARY64.scale;
    TieOperands(n);
    var o := OperandsOf(BINARY64, TIE_A, TIE_B, TIE_C);
    TieWindow(o, n);
    TieTied(o.Total().mag, o.Unit() + k - BINARY64.UnitExp(), n);
    FloorIsNonzero(BINARY64, TIE_A, TIE_B, TIE_C, k);
    RoundsOnce(BINARY64, TIE_A, TIE_B, TIE_C, k);
  }

  // ---- The method --------------------------------------------------------------

  /** The `bitlen` lambda. */
  method BitLength(x: nat) returns (n: nat)
    ensures n == BitLen(x)
  {
    n := 0;
    var rest := x;
    while rest != 0
      invariant n + BitLen(rest) == BitLen(x)
    {
      n := n + 1;
      rest := rest / 2;
    }
  }

  /** kept * 2^e is p's value rounded down to a multiple of 2^e, and sticky says whether that lost anything. */
  predicate FloorOf(p: Parts, e: int, kept: nat, sticky: bool) {
    if p.e >= e then kept == Shl(p.m, p.e - e) && !sticky
    else Shl(kept, e - p.e) <= p.m < Shl(kept + 1, e - p.e) && (sticky <==> Shl(kept, e - p.e) != p.m)
  }

  /** The floor is one number, and `Align` gives it. */
  lemma {:induction false} FloorIsAlign(p: Parts, e: int, kept: nat, sticky: bool)
    requires FitsWord(p.m) && FloorOf(p, e, kept, sticky)
    ensures Align(p, e) == Aligned(kept, sticky)
  {
    if p.m == 0 {
      ShlOfZero(kept, p, e);
      if p.e < e {
        ShlSign(0, e - p.e);
      }
    } else if p.e < e {
      if e - p.e >= WORD {
        Pow2Grows(WORD, e - p.e);
        ShlSign(0, e - p.e);
        if kept > 0 {
          ShlApart(0, kept, e - p.e);
        }
      } else {
        ShlAdd(kept, 1, e - p.e);
        ShrUnique(p.m, e - p.e, kept);
      }
    }
  }

  lemma {:induction false} ShlOfZero(kept: nat, p: Parts, e: int)
    requires p.m == 0 && (if p.e >= e then kept == Shl(p.m, p.e - e) else Shl(kept, e - p.e) <= p.m)
    ensures kept == 0
  {
    if p.e >= e {
      ShlSign(p.m, p.e - e);
    } else {
      ShlSign(kept, e - p.e);
    }
  }

  /** The shift in `align`, with the bits it drops noted: the operand rounded down to the window's unit. */
  method AlignTo(p: Parts, e: int) returns (kept: nat, sticky: bool)
    requires FitsWord(p.m)
    ensures FloorOf(p, e, kept, sticky)
  {
    sticky := false;
    if p.m == 0 {
      ZeroFloor(p, e);
      return 0, false;
    }
    if p.e >= e {
      ShlSign(p.m, p.e - e);
      return Shl(p.m, p.e - e), false;
    }
    if e - p.e >= WORD {
      FarFloor(p, e);
      return 0, true;
    }
    kept := Shr(p.m, e - p.e);
    ShrBounds(p.m, e - p.e);
    ShlAdd(kept, 1, e - p.e);
    if Shl(kept, e - p.e) != p.m {
      sticky := true;
    }
  }

  lemma {:induction false} ZeroFloor(p: Parts, e: int)
    requires p.m == 0
    ensures FloorOf(p, e, 0, false)
  {
    if p.e >= e {
      ShlSign(0, p.e - e);
    } else {
      ShlSign(0, e - p.e);
      ShlSign(1, e - p.e);
    }
  }

  lemma {:induction false} FarFloor(p: Parts, e: int)
    requires p.m > 0 && FitsWord(p.m) && e - p.e >= WORD
    ensures FloorOf(p, e, 0, true)
  {
    Pow2Grows(WORD, e - p.e);
    ShlSign(0, e - p.e);
  }

  /** The window's unit, from the larger leading bit. */
  method WindowUnit(o: Operands) returns (e: int)
    ensures e == o.Unit()
  {
    var topP, topC := NO_TOP, NO_TOP;
    if o.p.m != 0 {
      var len := BitLength(o.p.m);
      topP := o.p.e + len;
    }
    if o.c.m != 0 {
      var len := BitLength(o.c.m);
      topC := o.c.e + len;
    }
    e := (if topP > topC then topP else topC) - WINDOW;
  }

  /** At most one of two aligned operands has lost bits, and the other then fills the window. */
  predicate OneLost(p: Aligned, c: Aligned) {
    (p.sticky ==> !c.sticky && c.kept >= Pow2(WINDOW - 1)) && (c.sticky ==> !p.sticky && p.kept >= Pow2(WINDOW - 1))
  }

  /** What a sum of aligned operands loses: nothing, a low bit noted, or a borrow. */
  function LossOf(negP: bool, negC: bool, p: Aligned, c: Aligned): Fit {
    if !p.sticky && !c.sticky then Exact else if negP == negC then Sticky else Floor
  }

  /**
   Magnitude of the sum and its sign. For whatever values vp and vc the operands are the floors of, in steps of which
   2^a are the window's unit, the result has the exact sum's sign and stands to it as the loss says.
   */
  method AddAligned(negP: bool, negC: bool, p: Aligned, c: Aligned, ghost vp: nat, ghost vc: nat, ghost a: nat)
    returns (neg: bool, mag: nat)
    requires Floored(p, vp, a) && Floored(c, vc, a) && OneLost(p, c) && vp + vc > 0
    ensures Combine(negP, negC, p, c) == Sum(neg, mag)
    ensures Represents(LossOf(negP, negC, p, c), Sum(neg, mag), a, Signed(negP, vp) + Signed(negC, vc))
  {
    neg, mag := AddMagnitudes(negP, negC, p, c);
    SumStands(negP, negC, p, c, vp, vc, a);
  }

  /** The branches on the signs and the lost bits, borrow and all, in 128-bit arithmetic. */
  method AddMagnitudes(negP: bool, negC: bool, p: Aligned, c: Aligned) returns (neg: bool, mag: nat)
    ensures Combine(negP, negC, p, c) == Sum(neg, mag)
  {
    if negP == negC {
      neg, mag := negP, p.kept + c.kept;
      if p.sticky || c.sticky {
        mag := mag + 1 - mag % 2;
      }
    } else {
      var pBig := p.kept >= c.kept;
      neg := if pBig then negP else negC;
      mag := if pBig then p.kept - c.kept else c.kept - p.kept;
      var fromBig, fromSmall := if pBig then p.sticky else c.sticky, if pBig then c.sticky else p.sticky;
      if fromBig && !fromSmall {
        mag := mag + 1 - mag % 2;
      } else if fromSmall && !fromBig {
        mag := if mag == 0 then Pow2(WORD) - 1 else mag - 1;
      }
    }
  }

  lemma {:induction false} SumStands(negP: bool, negC: bool, p: Aligned, c: Aligned, vp: nat, vc: nat, a: nat)
    requires Floored(p, vp, a) && Floored(c, vc, a) && OneLost(p, c) && vp + vc > 0
    ensures Represents(LossOf(negP, negC, p, c), Combine(negP, negC, p, c), a, Signed(negP, vp) + Signed(negC, vc))
  {
    if negP == negC {
      SameSignSum(negP, p, c, vp, vc, a);
    } else {
      OppositeSignSum(negP, p, c, vp, vc, a);
    }
  }

  /** The rounding at the end: the kept bits of mag * 2^d units and their place. */
  method RoundOff(f: Format, mag: nat, d: int) returns (kept: nat, grid: nat)
    ensures RoundMagnitude(f, mag, d) == Kept(kept, grid)
  {
    var len := BitLength(mag);
    var full := d + len - (f.mantissa + 1);
    grid := if full < 0 then 0 else full;
    var drop := grid - d;
    if drop <= 0 {
      ShlSign(mag, -drop);
      kept := Shl(mag, -drop);
    } else if drop > len + 1 {
      kept := 0;
    } else {
      kept := Shr(mag, drop);
      var half, rest := Pow2(drop - 1), mag - Shl(kept, drop);
      if rest > half || (rest == half && kept % 2 == 1) {
        kept := kept + 1;
      }
    }
  }

  /**
   The operands aligned to the window and added. What is shifted and summed stays inside the 128-bit word (the assert).
   */
  method SumParts(o: Operands, e: int) returns (neg: bool, mag: nat)
    requires Narrow(o.p) && Narrow(o.c) && !o.BothZero() && e == o.Unit()
    ensures o.Total() == Sum(neg, mag)
  {
    StaysInWord(o);
    var ap, stP := AlignTo(o.p, e);
    var ac, stC := AlignTo(o.c, e);
    FloorIsAlign(o.p, e, ap, stP);
    FloorIsAlign(o.c, e, ac, stC);
    assert FitsWord(ap + ac);
    ghost var vp, vc, a := FlooredParts(o);
    neg, mag := AddAligned(o.negP, o.negC, Aligned(ap, stP), Aligned(ac, stC), vp, vc, a);
  }

  /** scaled_fma from the operands' parts on. */
  method RoundParts(f: Format, o: Operands, k: int) returns (r: Float)
    requires Narrow(o.p) && Narrow(o.c)
    ensures r == RoundOperands(f, o, k)
  {
    if o.p.m == 0 && o.c.m == 0 {
      return Zero(o.negP && o.negC);
    }
    var e := WindowUnit(o);
    var neg, mag := SumParts(o, e);
    if mag == 0 {
      return Zero(o.negP && o.negC);
    }
    var kept, grid := RoundOff(f, mag, e + k - f.UnitExp());
    r := Pack(f, neg, kept, grid);
  }

  predicate FitsWord(x: nat) { x < Pow2(WORD) }

  /** The operands in steps so fine that both are whole, with their aligned parts their floors. */
  lemma {:induction false} FlooredParts(o: Operands) returns (vp: nat, vc: nat, a: nat)
    requires Narrow(o.p) && Narrow(o.c) && !o.BothZero()
    ensures var p, c := Align(o.p, o.Unit()), Align(o.c, o.Unit());
            Floored(p, vp, a) && Floored(c, vc, a) && OneLost(p, c) && vp + vc > 0
  {
    var e := o.Unit();
    var lower := if o.p.e < o.c.e then o.p.e else o.c.e;
    a := if lower < e then e - lower else 0;
    ShlSign(o.p.m, a + o.p.e - e);
    ShlSign(o.c.m, a + o.c.e - e);
    vp, vc := Shl(o.p.m, a + o.p.e - e), Shl(o.c.m, a + o.c.e - e);
    OneLoses(o);
    AlignFloors(o.p, e, a + o.p.e - e, a);
    AlignFloors(o.c, e, a + o.c.e - e, a);
  }

  lemma {:induction false} StaysInWord(o: Operands)
    requires Narrow(o.p) && Narrow(o.c) && !o.BothZero()
    ensures FitsWord(o.p.m) && FitsWord(o.c.m) && FitsWord(Align(o.p, o.Unit()).kept + Align(o.c, o.Unit()).kept)
  {
    OneLoses(o);
    Pow2Grows(PRODUCT_BITS, WORD);
    Pow2Grows(WINDOW, WORD - 1);
  }

  /** scaled_fma as the source runs it. */
  method ComputeScaledFma(f: Format, a: Float, b: Float, c: Float, k: int) returns (r: Outcome)
    requires Supported(f) && Valid(f, a) && Valid(f, b) && Valid(f, c)
    ensures r == ScaledFmaOf(f, a, b, c, k)
    ensures r.Delegated? <==> !AllFinite(f, a, b, c)
  {
    if !IsFinite(f, a) || !IsFinite(f, b) || !IsFinite(f, c) {
      return Delegated;
    }
    OperandsNarrow(f, a, b, c);
    var value := RoundParts(f, OperandsOf(f, a, b, c), k);
    r := Rounded(value);
  }
}
