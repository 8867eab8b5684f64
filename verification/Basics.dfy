/** What several modules share: bytes, options, and the digits of a number in base 256. */
module Basics {
  type Byte = b: int | 0 <= b < 256

  datatype Option<T> = None | Some(value: T)

  function Max(a: nat, b: nat): nat { if a > b then a else b }
  function Min(a: nat, b: nat): nat { if a < b then a else b }

  function Pow256(n: nat): (p: nat)
    ensures p > 0
  {
    if n == 0 then 1 else 256 * Pow256(n - 1)
  }

  /** Byte i of a number, from the lowest: n / 256^i mod 256 (DigitIsQuotient). */
  function Digit(n: nat, i: nat): Byte { if i == 0 then n % 256 else Digit(n / 256, i - 1) }

  lemma {:induction false} DigitIsQuotient(n: nat, i: nat)
    ensures Digit(n, i) == n / Pow256(i) % 256
  {
    if i > 0 {
      DigitIsQuotient(n / 256, i - 1);
      DivideTwice(n, Pow256(i - 1));
    }
  }

  lemma {:induction false} DivideTwice(n: nat, p: nat)
    requires p > 0
    ensures n / (256 * p) == n / 256 / p
  {
    var q, r := n / 256 / p, n / 256 % p;
    assert n / 256 == p * q + r;
    assert n == (256 * p) * q + (256 * r + n % 256);
    QuotientIs(n, 256 * p, q, 256 * r + n % 256);
  }

  /** A quotient and remainder are the ones there are. */
  lemma {:induction false} QuotientIs(n: nat, d: nat, q: nat, r: nat)
    requires n == d * q + r && r < d
    ensures n / d == q && n % d == r
  {
    SameParts(d, n / d, n % d, q, r);
  }

  lemma {:induction false} SameParts(d: nat, p: nat, s: nat, q: nat, r: nat)
    requires d * p + s == d * q + r && s < d && r < d
    ensures p == q && s == r
  {
    if p < q {
      ProductGrows(d, p + 1, q);
    } else if q < p {
      ProductGrows(d, q + 1, p);
    }
  }

  lemma {:induction false} ProductGrows(d: nat, a: nat, b: nat)
    requires a <= b
    ensures d * a <= d * b
  {
    assert d * b == d * a + d * (b - a);
  }

  /** The bytes are the number's digits, the highest first. */
  predicate HighFirst(s: seq<Byte>, n: nat) {
    n < Pow256(|s|) && forall i | 0 <= i < |s| :: s[i] == Digit(n, |s| - 1 - i)
  }

  /** The bytes are the number's digits, the lowest first. */
  predicate LowFirst(s: seq<Byte>, n: nat) { n < Pow256(|s|) && forall i | 0 <= i < |s| :: s[i] == Digit(n, i) }

  /** A number below 256^k is its k digits. */
  lemma {:induction false} DigitsAgree(m: nat, n: nat, k: nat)
    requires m < Pow256(k) && n < Pow256(k) && forall i | 0 <= i < k :: Digit(m, i) == Digit(n, i)
    ensures m == n
  {
    if k > 0 {
      forall i | 0 <= i < k - 1
        ensures Digit(m / 256, i) == Digit(n / 256, i)
      {
        assert Digit(m, i + 1) == Digit(n, i + 1);
      }
      DigitsAgree(m / 256, n / 256, k - 1);
      assert Digit(m, 0) == Digit(n, 0);
    }
  }

  /** Bit j of a number. */
  function Bit(n: nat, j: nat): (b: nat)
    ensures b < 2
  {
    if j == 0 then n % 2 else Bit(n / 2, j - 1)
  }

  lemma {:induction false} LowBits(n: nat)
    ensures Bit(n, 0) == n % 2 && Bit(n, 1) == n / 2 % 2 && Bit(n, 2) == n / 4 % 2
    ensures Bit(n, 3) == n / 8 % 2 && Bit(n, 4) == n / 16 % 2
    ensures forall j | 0 <= j :: Bit(n, j + 5) == Bit(n / 32, j)
  {
    assert n / 2 / 2 == n / 4 && n / 4 / 2 == n / 8 && n / 8 / 2 == n / 16 && n / 16 / 2 == n / 32;
    assert Bit(n, 1) == Bit(n / 2, 0);
    assert Bit(n, 2) == Bit(n / 2, 1) == Bit(n / 4, 0);
    assert Bit(n, 3) == Bit(n / 2, 2) == Bit(n / 4, 1) == Bit(n / 8, 0);
    assert Bit(n, 4) == Bit(n / 2, 3) == Bit(n / 4, 2) == Bit(n / 8, 1) == Bit(n / 16, 0);
    forall j | 0 <= j
      ensures Bit(n, j + 5) == Bit(n / 32, j)
    {
      assert Bit(n, j + 5) == Bit(n / 2, j + 4) == Bit(n / 4, j + 3) == Bit(n / 8, j + 2);
      assert Bit(n / 8, j + 2) == Bit(n / 16, j + 1) == Bit(n / 32, j);
    }
  }
}
