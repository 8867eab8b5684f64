/**
 Rounding a magnitude to a format. A grid of exponent g has a place every 2^g units: the
 places floats of that size have. `RoundsTo` says which count of places a magnitude rounds
 to, and PackNearest that packing that count is IEEE 754 rounding to nearest even.
 */
module Rounding {
  import opened Powers
  import opened Floats

  /** The float of kept * 2^g units: `ldexp(T(kept), lsb)`, exact unless it overflows. */
  function Pack(f: Format, neg: bool, kept: nat, g: nat): (r: Float) {
    if kept < Pow2(f.mantissa) then Float(neg, 0, kept)
    else if kept < Pow2(f.mantissa + 1) then
      if g + 1 >= f.maxExp then Infinity(f, neg) else Float(neg, g + 1, kept - Pow2(f.mantissa))
    else
      if g + 2 >= f.maxExp then Infinity(f, neg) else Float(neg, g + 2, 0)
  }

  /** What makes a kept count fit the grid it is on. */
  predicate OnGrid(f: Format, kept: nat, g: nat) {
    kept <= Pow2(f.mantissa + 1) && (g > 0 ==> kept >= Pow2(f.mantissa))
  }

  /** Whether a kept count is past the format's range: the last grid's is f.maxExp - 2. */
  predicate Overflows(f: Format, kept: nat, g: nat) {
    g > f.maxExp - 2 || (g == f.maxExp - 2 && kept == Pow2(f.mantissa + 1))
  }

  lemma {:induction false} PackUnits(f: Format, neg: bool, kept: nat, g: nat)
    requires Wide(f) && OnGrid(f, kept, g)
    ensures var r := Pack(f, neg, kept, g);
            && Valid(f, r) && r.neg == neg && !IsNan(f, r)
            && (IsFinite(f, r) <==> !Overflows(f, kept, g))
            && (IsFinite(f, r) ==> Magnitude(f, r) == Shl(kept, g) && r.frac % 2 == kept % 2)
  {
    var h := Pow2(f.mantissa);
    assert Pow2(f.mantissa + 1) == 2 * h;
    if h <= kept < 2 * h {
      Pow2Even(f.mantissa);
      SameParity(kept, h);
    } else if kept == 2 * h {
      ShlTwice(h, g);
    }
  }

  lemma {:induction false} Pow2Even(n: nat)
    requires n > 0
    ensures Pow2(n) % 2 == 0
  {
  }

  lemma {:induction false} SameParity(x: int, h: int)
    requires h % 2 == 0
    ensures (x - h) % 2 == x % 2
  {
  }

  /** The grid place a float stands on: a float is a whole number of places, or below every full-precision one. */
  function GridIndex(f: Format, y: Float, g: nat): nat {
    if y.field == 0 then y.frac
    else if y.field - 1 >= g then
      ShlSign(Pow2(f.mantissa) + y.frac, y.field - 1 - g);
      Shl(Pow2(f.mantissa) + y.frac, y.field - 1 - g)
    else 0
  }

  predicate OnPlaces(y: Float, g: nat) { g == 0 || y.field - 1 >= g }

  lemma {:induction false} FloatOnGrid(f: Format, y: Float, g: nat)
    requires Valid(f, y)
    ensures OnPlaces(y, g) ==> Magnitude(f, y) == Shl(GridIndex(f, y, g), g)
    ensures !OnPlaces(y, g) ==> Magnitude(f, y) < Shl(Pow2(f.mantissa), g)
  {
    var h := Pow2(f.mantissa);
    if OnPlaces(y, g) {
      if y.field > 0 {
        ShlShl(h + y.frac, y.field - 1 - g, g);
      }
    } else if y.field == 0 {
      ShlSign(h, g);
    } else {
      ShlApart(h + y.frac, 2 * h, y.field - 1);
      ShlTwice(h, y.field - 1);
      ShlOrder(h, y.field, g);
    }
  }

  /** Among the multiples of p, the one at most half of p away is the nearest. */
  lemma {:induction false} MultipleNearest(x: int, p: nat, kept: int, w: int)
    requires p > 0 && 2 * Abs(Times(kept, p) - x) <= p
    ensures Abs(Times(kept, p) - x) <= Abs(Times(w, p) - x)
    ensures w != kept && Abs(Times(kept, p) - x) == Abs(Times(w, p) - x) ==> 2 * Abs(Times(kept, p) - x) == p
  {
    if w < kept {
      TimesOrder(w, kept, p);
    } else if kept < w {
      TimesOrder(kept, w, p);
    }
  }

  /** x is at full precision on the grid, or the grid is the denormals'; p is 2^g units in the steps x is counted in. */
  predicate InBinade(f: Format, x: nat, p: nat, g: nat) {
    && x < Times(Pow2(f.mantissa + 1), p)
    && (g > 0 ==> x >= Times(Pow2(f.mantissa), p))
  }

  /** x is within half a place of kept places, an exact half only where kept is even. */
  predicate RoundsTo(f: Format, x: nat, p: nat, kept: nat, g: nat) {
    && p > 0
    && 2 * Abs(Times(kept, p) - x) <= p
    && (2 * Abs(Times(kept, p) - x) == p ==> kept % 2 == 0)
    && InBinade(f, x, p, g)
  }

  /** x is less than a place from kept places. */
  predicate NextTo(f: Format, x: nat, p: nat, kept: nat, g: nat) {
    p > 0 && Abs(Times(kept, p) - x) < p && InBinade(f, x, p, g)
  }

  lemma {:induction false} NeighbourOnGrid(f: Format, x: nat, p: nat, kept: nat, g: nat)
    requires NextTo(f, x, p, kept, g)
    ensures OnGrid(f, kept, g)
  {
    var h, t := Pow2(f.mantissa), Pow2(f.mantissa + 1);
    if kept > t {
      TimesOrder(t, kept, p);
    } else if g > 0 && kept < h {
      TimesOrder(kept, h, p);
    }
  }

  /** Distance from x of a magnitude m of the same or the opposite sign. */
  function Apart(same: bool, m: int, x: int): int { if same then Abs(m - x) else m + x }

  lemma {:induction false} DistanceOf(f: Format, neg: bool, x: nat, den: nat, y: Float)
    ensures Distance(f, Fraction(Signed(neg, x), den), y) == Apart(y.neg == neg, Times(Magnitude(f, y), den), x)
  {
    TimesNegate(Magnitude(f, y), den);
    TimesGrows(Magnitude(f, y), 0, den);
  }

  /** How far the packed float is from the value, as the count of places says. */
  lemma {:induction false} PackDistance(f: Format, neg: bool, x: nat, den: nat, kept: nat, g: nat)
    requires Wide(f) && OnGrid(f, kept, g) && !Overflows(f, kept, g)
    ensures Shl(den, g) >= 0
    ensures Distance(f, Fraction(Signed(neg, x), den), Pack(f, neg, kept, g)) == Abs(Times(kept, Shl(den, g)) - x)
  {
    PackUnits(f, neg, kept, g);
    DistanceOf(f, neg, x, den, Pack(f, neg, kept, g));
    TimesShl(kept, den, g);
  }

  /** A float on the grid is no closer than kept places; as close only on a tie, or where it is the same number. */
  lemma {:induction false} OnPlacesDistance(f: Format, neg: bool, x: nat, den: nat, kept: nat, g: nat, y: Float, p: nat)
    requires Valid(f, y) && OnPlaces(y, g) && p == Shl(den, g) > 0
    requires 2 * Abs(Times(kept, p) - x) <= p
    ensures Abs(Times(kept, p) - x) <= Distance(f, Fraction(Signed(neg, x), den), y)
    ensures Abs(Times(kept, p) - x) == Distance(f, Fraction(Signed(neg, x), den), y)
            && Units(f, y) != Signed(neg, Shl(kept, g))
        ==> 2 * Abs(Times(kept, p) - x) == p
  {
    var i := GridIndex(f, y, g);
    DistanceOf(f, neg, x, den, y);
    FloatOnGrid(f, y, g);
    TimesShl(i, den, g);
    TimesNegate(i, p);
    TimesGrows(i, 0, p);
    ShlSign(0, g);
    MultipleNearest(x, p, kept, Signed(y.neg != neg, i));
  }

  /** A float off the grid is strictly farther. */
  lemma {:induction false} OffPlacesDistance(f: Format, neg: bool, x: nat, den: nat, kept: nat, g: nat, y: Float,
                                             p: nat)
    requires Valid(f, y) && !OnPlaces(y, g) && p == Shl(den, g) > 0 && den > 0
    requires 2 * Abs(Times(kept, p) - x) <= p && x >= Times(Pow2(f.mantissa), p)
    ensures Abs(Times(kept, p) - x) < Distance(f, Fraction(Signed(neg, x), den), y)
  {
    var h := Pow2(f.mantissa);
    DistanceOf(f, neg, x, den, y);
    FloatOnGrid(f, y, g);
    TimesShl(h, den, g);
    TimesOrder(Magnitude(f, y), Shl(h, g), den);
    TimesGrows(Magnitude(f, y), 0, den);
    MultipleNearest(x, p, kept, h);
  }

  lemma {:induction false} PackAsClose(f: Format, neg: bool, x: nat, den: nat, kept: nat, g: nat, y: Float, p: nat)
    requires Wide(f) && den > 0 && p == Shl(den, g) && RoundsTo(f, x, p, kept, g) && !Overflows(f, kept, g)
    requires Valid(f, y)
    ensures AtLeastAsClose(f, Fraction(Signed(neg, x), den), Pack(f, neg, kept, g), y)
  {
    NeighbourOnGrid(f, x, p, kept, g);
    PackUnits(f, neg, kept, g);
    PackDistance(f, neg, x, den, kept, g);
    if OnPlaces(y, g) {
      OnPlacesDistance(f, neg, x, den, kept, g, y, p);
    } else {
      OffPlacesDistance(f, neg, x, den, kept, g, y, p);
    }
  }

  /** A magnitude is past the overflow threshold exactly where the count it rounds to is past the range. */
  lemma {:induction false} PastThreshold(f: Format, x: nat, den: nat, kept: nat, g: nat, p: nat)
    requires Wide(f) && den > 0 && p == Shl(den, g) && RoundsTo(f, x, p, kept, g)
    ensures x >= Times(OverflowAt(f), den) <==> Overflows(f, kept, g)
  {
    var h, top := Pow2(f.mantissa), f.maxExp - 2;
    var q := Shl(den, f.maxExp - 3);
    NeighbourOnGrid(f, x, p, kept, g);
    TimesShl(4 * h - 1, den, f.maxExp - 3);
    assert Times(OverflowAt(f), den) == Times(4 * h - 1, q);
    if g < top {
      ShlOrder(den, g, top - 1);
    } else if g > top {
      ShlOrder(den, top + 1, g);
    }
    ShlSign(den, f.maxExp - 3);
    ThresholdCases(x, p, q, kept, h, g, top);
  }

  lemma {:induction false} ThresholdCases(x: nat, p: nat, q: nat, kept: nat, h: nat, g: nat, top: nat)
    requires h > 0 && q > 0 && x < Times(2 * h, p) && kept <= 2 * h
    requires g < top ==> p <= q
    requires g == top ==> p == 2 * q
    requires g > top ==> 4 * q <= p && x >= Times(h, p)
    requires 2 * Abs(Times(kept, p) - x) <= p && (2 * Abs(Times(kept, p) - x) == p ==> kept % 2 == 0)
    ensures x >= Times(4 * h - 1, q) <==> g > top || (g == top && kept == 2 * h)
  {
    if g < top {
      TimesGrows(2 * h, p, q);
      TimesOrder(2 * h, 4 * h - 1, q);
    } else if g == top {
      TopBinade(x, p, q, kept, h);
    } else {
      TimesGrows(h, 4 * q, p);
      TimesFour(h, q);
      TimesOrder(4 * h - 1, 4 * h, q);
    }
  }

  lemma {:induction false} TimesFour(h: nat, q: nat)
    ensures Times(h, 4 * q) == Times(4 * h, q)
  {
    TimesSplit(h, 2 * q, 2 * q);
    TimesSplit(h, q, q);
    TimesAdd(2 * h, 2 * h, q);
    TimesAdd(h, h, q);
  }

  /**
   In the last binade the rounding reaches 2h places (one past the largest count) exactly from half a place below it.
   */
  lemma {:induction false} TopBinade(x: nat, p: nat, q: nat, kept: nat, h: nat)
    requires q > 0 && p == 2 * q && h > 0 && kept <= 2 * h
    requires 2 * Abs(Times(kept, p) - x) <= p && (2 * Abs(Times(kept, p) - x) == p ==> kept % 2 == 0)
    ensures kept == 2 * h <==> x >= Times(4 * h - 1, q)
  {
    assert Times(2 * h, p) == Times(4 * h - 1, q) + q by {
      TimesSplit(2 * h, q, q);
      TimesAdd(2 * h, 2 * h, q);
      TimesAdd(4 * h - 1, 1, q);
      TimesOne(q);
    }
    if kept < 2 * h {
      TimesOrder(kept, 2 * h - 1, p);
      TimesOrder(2 * h - 1, 2 * h, p);
      TimesAdd(2 * h - 1, 1, p);
      TimesOne(p);
    }
  }

  /** The centre of the rounding proof: packing the count a magnitude rounds to is IEEE rounding to nearest even. */
  lemma {:induction false} PackNearest(f: Format, neg: bool, x: nat, den: nat, kept: nat, g: nat, p: nat)
    requires Wide(f) && den > 0 && p == Shl(den, g) && RoundsTo(f, x, p, kept, g)
    requires x > 0
    ensures IsNearest(f, Fraction(Signed(neg, x), den), Pack(f, neg, kept, g))
  {
    var v, r := Fraction(Signed(neg, x), den), Pack(f, neg, kept, g);
    NeighbourOnGrid(f, x, p, kept, g);
    PackUnits(f, neg, kept, g);
    PastThreshold(f, x, den, kept, g, p);
    if !Overflows(f, kept, g) {
      forall y | Valid(f, y) && IsFinite(f, y)
        ensures AtLeastAsClose(f, v, r, y)
      {
        PackAsClose(f, neg, x, den, kept, g, y, p);
      }
    }
  }

  // ---- Faithful rounding -------------------------------------------------------

  lemma {:induction false} LargestFinite(f: Format, y: Float)
    requires Wide(f) && Valid(f, y) && IsFinite(f, y)
    ensures Magnitude(f, y) <= Shl(2 * Pow2(f.mantissa) - 1, f.maxExp - 2)
  {
    var h := Pow2(f.mantissa);
    if y.field == 0 {
      ShlSign(2 * h - 1, f.maxExp - 2);
    } else {
      ShlLess(h + y.frac, 2 * h - 1, y.field - 1);
      ShlOrder(2 * h - 1, y.field - 1, f.maxExp - 2);
    }
  }

  lemma {:induction false} OverflowIsFaithful(f: Format, x: nat, den: nat, kept: nat, g: nat, p: nat, y: Float)
    requires Wide(f) && den > 0 && p == Shl(den, g) && NextTo(f, x, p, kept, g) && Overflows(f, kept, g)
    requires Valid(f, y) && IsFinite(f, y)
    ensures Times(Magnitude(f, y), den) < x
  {
    var h, top := Pow2(f.mantissa), f.maxExp - 2;
    LargestFinite(f, y);
    TimesOrder(Magnitude(f, y), Shl(2 * h - 1, top), den);
    TimesShl(2 * h - 1, den, top);
    var q := Shl(den, top);
    assert Times(Magnitude(f, y), den) <= Times(2 * h - 1, q);
    if g == top {
      TimesAdd(2 * h - 1, 1, p);
      TimesOne(p);
    } else {
      ShlOrder(den, top, g);
      TimesGrows(h, 2 * q, p);
      TimesSplit(h, q, q);
      TimesAdd(h, h, q);
      ShlSign(den, top);
      TimesOrder(2 * h - 1, 2 * h, q);
    }
  }

  /** No float lies between x and the packed neighbour. */
  lemma {:induction false} NothingBetween(f: Format, neg: bool, x: nat, den: nat, kept: nat, g: nat, p: nat, y: Float)
    requires Wide(f) && den > 0 && p == Shl(den, g) && NextTo(f, x, p, kept, g) && !Overflows(f, kept, g) && x > 0
    requires Valid(f, y)
    ensures NotBetween(Times(Units(f, Pack(f, neg, kept, g)), den), Times(Units(f, y), den), Signed(neg, x))
  {
    var r, h := Pack(f, neg, kept, g), Pow2(f.mantissa);
    NeighbourOnGrid(f, x, p, kept, g);
    PackUnits(f, neg, kept, g);
    TimesShl(kept, den, g);
    TimesNegate(Magnitude(f, r), den);
    TimesNegate(Magnitude(f, y), den);
    TimesGrows(Magnitude(f, y), 0, den);
    TimesGrows(kept, 0, p);
    var m := Times(Magnitude(f, y), den);
    FloatOnGrid(f, y, g);
    if OnPlaces(y, g) {
      var i := GridIndex(f, y, g);
      TimesShl(i, den, g);
      if i < kept {
        TimesOrder(i, kept, p);
      } else if kept < i {
        TimesOrder(kept, i, p);
      }
    } else {
      TimesShl(h, den, g);
      TimesOrder(Magnitude(f, y), Shl(h, g), den);
      TimesOrder(h, kept, p);
    }
  }

  lemma {:induction false} PackFaithful(f: Format, neg: bool, x: nat, den: nat, kept: nat, g: nat, p: nat)
    requires Wide(f) && den > 0 && p == Shl(den, g) && NextTo(f, x, p, kept, g) && x > 0
    ensures IsFaithful(f, Fraction(Signed(neg, x), den), Pack(f, neg, kept, g))
  {
    var v, r := Fraction(Signed(neg, x), den), Pack(f, neg, kept, g);
    NeighbourOnGrid(f, x, p, kept, g);
    PackUnits(f, neg, kept, g);
    forall y | Valid(f, y) && IsFinite(f, y)
      ensures if IsInf(f, r) then Times(Magnitude(f, y), v.den) < Abs(v.num)
              else NotBetween(Times(Units(f, r), v.den), Times(Units(f, y), v.den), v.num)
    {
      if Overflows(f, kept, g) {
        OverflowIsFaithful(f, x, den, kept, g, p, y);
      } else {
        NothingBetween(f, neg, x, den, kept, g, p, y);
      }
    }
  }
}
