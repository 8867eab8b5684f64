/**
 Shifts, powers of two, products and bit lengths of integers.

 Products of two unknowns are written `Times`, by repeated addition, and shifts by
 repeated doubling, so that every proof about them is linear; TimesIsProduct and
 ShlIsProduct say that they are the ordinary ones.
 */
module Powers {

  /** x shifted left n places: x * 2^n. */
  function Shl(x: int, n: nat): int {
    if n == 0 then x else 2 * Shl(x, n - 1)
  }

  /** x shifted right n places: x / 2^n. */
  function Shr(x: nat, n: nat): nat {
    if n == 0 then x else Shr(x, n - 1) / 2
  }

  function Pow2(n: nat): (r: nat)
    ensures r > 0
  {
    ShlSign(1, n);
    Shl(1, n)
  }

  function Abs(n: int): nat { if n < 0 then -n else n }

  lemma {:induction false} ShlSign(x: int, n: nat)
    ensures x == 0 ==> Shl(x, n) == 0
    ensures x > 0 ==> Shl(x, n) >= x
    ensures x < 0 ==> Shl(x, n) <= x
  {
    if n > 0 {
      ShlSign(x, n - 1);
    }
  }

  lemma {:induction false} ShlIsProduct(x: int, n: nat)
    ensures Shl(x, n) == x * Pow2(n)
  {
    if n > 0 {
      ShlIsProduct(x, n - 1);
      var p := Pow2(n - 1);
      assert 2 * (x * p) == x * (2 * p);
    }
  }

  lemma {:induction false} ShlAdd(x: int, y: int, n: nat)
    ensures Shl(x + y, n) == Shl(x, n) + Shl(y, n)
  {
    if n > 0 {
      ShlAdd(x, y, n - 1);
    }
  }

  lemma {:induction false} ShlNegate(x: int, n: nat)
    ensures Shl(-x, n) == -Shl(x, n)
  {
    if n > 0 {
      ShlNegate(x, n - 1);
    }
  }

  lemma {:induction false} ShlTwice(x: int, n: nat)
    ensures Shl(2 * x, n) == 2 * Shl(x, n)
  {
    ShlAdd(x, x, n);
  }

  lemma {:induction false} ShlShl(x: int, a: nat, b: nat)
    ensures Shl(Shl(x, a), b) == Shl(x, a + b)
  {
    if b > 0 {
      ShlShl(x, a, b - 1);
    }
  }

  lemma {:induction false} ShlLess(x: int, y: int, n: nat)
    ensures x <= y <==> Shl(x, n) <= Shl(y, n)
  {
    if n > 0 {
      ShlLess(x, y, n - 1);
    }
  }

  /** Distinct multiples of 2^n are 2^n apart. */
  lemma {:induction false} ShlApart(x: int, y: int, n: nat)
    requires x < y
    ensures Shl(x, n) + Pow2(n) <= Shl(y, n)
  {
    ShlLess(x + 1, y, n);
    ShlAdd(x, 1, n);
  }

  lemma {:induction false} ShlAbs(x: int, n: nat)
    ensures Shl(Abs(x), n) == Abs(Shl(x, n))
  {
    ShlNegate(x, n);
    ShlSign(x, n);
  }

  lemma {:induction false} ShlOrder(x: nat, a: nat, b: nat)
    requires a <= b
    ensures x <= Shl(x, a) <= Shl(x, b)
    ensures a < b ==> 2 * Shl(x, a) <= Shl(x, b)
  {
    ShlSign(x, a);
    if a < b {
      ShlOrder(x, a, b - 1);
    }
  }

  lemma {:induction false} Pow2Add(a: nat, b: nat)
    ensures Shl(Pow2(a), b) == Pow2(a + b)
  {
    ShlShl(1, a, b);
  }

  lemma {:induction false} Pow2Grows(a: nat, b: nat)
    requires a <= b
    ensures Pow2(a) <= Pow2(b)
    ensures a < b ==> 2 * Pow2(a) <= Pow2(b)
  {
    ShlOrder(1, a, b);
  }

  /** Shifting right and back loses less than one place. */
  lemma {:induction false} ShrBounds(x: nat, n: nat)
    ensures Shl(Shr(x, n), n) <= x < Shl(Shr(x, n), n) + Pow2(n)
  {
    if n > 0 {
      ShrBounds(x, n - 1);
      var h := Shr(x, n - 1);
      ShlAdd(2 * (h / 2), h % 2, n - 1);
      ShlTwice(h / 2, n - 1);
      assert h % 2 == 0 || h % 2 == 1;
      ShlSign(0, n - 1);
    }
  }

  /** n * d, by repeated addition. */
  function Times(n: int, d: nat): int {
    if d == 0 then 0 else Times(n, d - 1) + n
  }

  lemma {:induction false} TimesIsProduct(n: int, d: nat)
    ensures Times(n, d) == n * d
  {
    if d > 0 {
      TimesIsProduct(n, d - 1);
      assert n * d == n * (d - 1) + n;
    }
  }

  lemma {:induction false} TimesAdd(a: int, b: int, d: nat)
    ensures Times(a + b, d) == Times(a, d) + Times(b, d)
  {
    if d > 0 {
      TimesAdd(a, b, d - 1);
    }
  }

  lemma {:induction false} TimesNegate(a: int, d: nat)
    ensures Times(-a, d) == -Times(a, d)
  {
    if d > 0 {
      TimesNegate(a, d - 1);
    }
  }

  lemma {:induction false} TimesZero(d: nat)
    ensures Times(0, d) == 0
  {
    if d > 0 {
      TimesZero(d - 1);
    }
  }

  lemma {:induction false} TimesOne(d: nat)
    ensures Times(1, d) == d
  {
    if d > 0 {
      TimesOne(d - 1);
    }
  }

  lemma {:induction false} TimesOrder(a: int, b: int, d: nat)
    requires a <= b
    ensures Times(a, d) <= Times(b, d)
    ensures a < b ==> Times(a, d) + d <= Times(b, d)
  {
    if d > 0 {
      TimesOrder(a, b, d - 1);
    }
  }

  lemma {:induction false} TimesGrows(a: nat, p: nat, q: nat)
    requires p <= q
    ensures 0 <= Times(a, p) <= Times(a, q)
  {
    if p < q {
      TimesGrows(a, p, q - 1);
    } else if p > 0 {
      TimesGrows(a, p - 1, q - 1);
    }
  }

  lemma {:induction false} TimesSplit(a: int, d: nat, e: nat)
    ensures Times(a, d + e) == Times(a, d) + Times(a, e)
  {
    if e > 0 {
      TimesSplit(a, d, e - 1);
    }
  }

  lemma {:induction false} TimesShl(a: int, d: nat, g: nat)
    ensures Shl(d, g) >= 0
    ensures Times(a, Shl(d, g)) == Shl(Times(a, d), g)
    ensures Times(Shl(a, g), d) == Shl(Times(a, d), g)
  {
    if g > 0 {
      TimesShl(a, d, g - 1);
      TimesSplit(a, Shl(d, g - 1), Shl(d, g - 1));
      TimesAdd(Shl(a, g - 1), Shl(a, g - 1), d);
    }
  }

  /** How many bits x takes. */
  function BitLen(x: nat): (n: nat)
    ensures n == 0 <==> x == 0
  {
    if x == 0 then 0 else 1 + BitLen(x / 2)
  }

  lemma {:induction false} BitLenBounds(x: nat)
    requires x > 0
    ensures Pow2(BitLen(x) - 1) <= x < Pow2(BitLen(x))
  {
    if x > 1 {
      BitLenBounds(x / 2);
    }
  }

  lemma {:induction false} BitLenUnique(x: nat, n: nat)
    requires n > 0 && Pow2(n - 1) <= x < Pow2(n)
    ensures BitLen(x) == n
  {
    BitLenBounds(x);
    var b := BitLen(x);
    if b < n {
      Pow2Grows(b, n - 1);
    } else if b > n {
      Pow2Grows(n, b - 1);
    }
  }

  lemma {:induction false} BitLenAtMost(x: nat, n: nat)
    requires x < Pow2(n)
    ensures BitLen(x) <= n
  {
    if x > 0 {
      BitLenBounds(x);
      if BitLen(x) > n {
        Pow2Grows(n, BitLen(x) - 1);
      }
    }
  }
}
