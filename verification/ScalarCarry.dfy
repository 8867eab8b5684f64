/**
 The scalar add and subtract instructions with carry, and the multi-limb sums and differences they are chained into.
 */
module ScalarCarry {
  const BASE := 0x1_0000_0000

  type Limb = x: int | 0 <= x < BASE

  function One(c: bool): (x: int)
    ensures x == 0 || x == 1
  {
    if c then 1 else 0
  }

  // ---- One limb ----------------------------------------------------------------

  /** s_add_u32 and s_addc_u32 compute a 64-bit sum: its low half, and whether its high half is set. */
  function SumLow(a: Limb, b: Limb, c: bool): Limb {
    var sum: int := a + b + One(c); if sum >= BASE then sum - BASE else sum
  }
  function SumCarry(a: Limb, b: Limb, c: bool): bool { a + b + One(c) >= BASE }

  /** s_sub_u32 and s_subb_u32: the difference in 32-bit arithmetic, and whether more is taken than there is. */
  function DifferenceLow(a: Limb, b: Limb, c: bool): Limb {
    var rest: int := a - b - One(c); if rest < 0 then rest + BASE else rest
  }
  function DifferenceBorrow(a: Limb, b: Limb, c: bool): bool { a < b + One(c) }

  lemma {:induction false} SumIsWhole(a: Limb, b: Limb, c: bool)
    ensures SumLow(a, b, c) + BASE * One(SumCarry(a, b, c)) == a + b + One(c)
  {
  }

  lemma {:induction false} DifferenceIsWhole(a: Limb, b: Limb, c: bool)
    ensures DifferenceLow(a, b, c) - BASE * One(DifferenceBorrow(a, b, c)) == a - b - One(c)
  {
  }

  // ---- Numbers of n limbs ------------------------------------------------------

  /** x times 2^(32 k). */
  function Scaled(x: int, k: nat): int { if k == 0 then x else BASE * Scaled(x, k - 1) }

  /** The number of the first n limbs, the low one first. */
  function Number(s: seq<Limb>, n: nat): int
    requires n <= |s|
  {
    if n == 0 then 0 else Number(s, n - 1) + Scaled(s[n - 1], n - 1)
  }

  lemma {:induction false} ScaledAdds(x: int, y: int, k: nat)
    ensures Scaled(x + y, k) == Scaled(x, k) + Scaled(y, k)
  {
    if k > 0 {
      ScaledAdds(x, y, k - 1);
    }
  }

  lemma {:induction false} ScaledSubtracts(x: int, y: int, k: nat)
    ensures Scaled(x - y, k) == Scaled(x, k) - Scaled(y, k)
  {
    if k > 0 {
      ScaledSubtracts(x, y, k - 1);
    }
  }

  lemma {:induction false} ScaledUp(x: int, k: nat)
    ensures Scaled(BASE * x, k) == Scaled(x, k + 1)
  {
    if k > 0 {
      ScaledUp(x, k - 1);
    }
  }

  lemma {:induction false} ScaledOrder(x: int, y: int, k: nat)
    requires x <= y
    ensures Scaled(x, k) <= Scaled(y, k) && (x < y ==> Scaled(x, k) < Scaled(y, k)) && Scaled(0, k) == 0
  {
    if k > 0 {
      ScaledOrder(x, y, k - 1);
    }
  }

  /** A number of n limbs is below 2^(32 n). */
  lemma {:induction false} NumberIsBelow(s: seq<Limb>, n: nat)
    requires n <= |s|
    ensures 0 <= Number(s, n) < Scaled(1, n)
  {
    if n > 0 {
      NumberIsBelow(s, n - 1);
      var top: int := s[n - 1];
      ScaledOrder(0, top, n - 1);
      ScaledOrder(top + 1, BASE, n - 1);
      ScaledAdds(top, 1, n - 1);
      ScaledUp(1, n - 1);
    }
  }

  // ---- Chains ------------------------------------------------------------------

  /** SCC after the first k limbs of a chain that begins with s_add_u32. */
  function CarryAfter(a: seq<Limb>, b: seq<Limb>, k: nat): bool
    requires k <= |a| && k <= |b|
  {
    k > 0 && SumCarry(a[k - 1], b[k - 1], CarryAfter(a, b, k - 1))
  }

  function BorrowAfter(a: seq<Limb>, b: seq<Limb>, k: nat): bool
    requires k <= |a| && k <= |b|
  {
    k > 0 && DifferenceBorrow(a[k - 1], b[k - 1], BorrowAfter(a, b, k - 1))
  }

  /** The limbs of s are those the chain of sums makes. */
  predicate AreSums(s: seq<Limb>, a: seq<Limb>, b: seq<Limb>, n: nat)
    requires n <= |a| && n <= |b| && n <= |s|
  {
    forall k | 0 <= k < n :: s[k] == SumLow(a[k], b[k], CarryAfter(a, b, k))
  }

  predicate AreDifferences(s: seq<Limb>, a: seq<Limb>, b: seq<Limb>, n: nat)
    requires n <= |a| && n <= |b| && n <= |s|
  {
    forall k | 0 <= k < n :: s[k] == DifferenceLow(a[k], b[k], BorrowAfter(a, b, k))
  }

  /** The chain's limbs are the sum's, and SCC the carry out of it. */
  lemma {:induction false} ChainAdds(s: seq<Limb>, a: seq<Limb>, b: seq<Limb>, n: nat)
    requires n <= |a| && n <= |b| && n <= |s| && AreSums(s, a, b, n)
    ensures Number(s, n) + Scaled(One(CarryAfter(a, b, n)), n) == Number(a, n) + Number(b, n)
  {
    if n > 0 {
      var m := n - 1;
      var c := CarryAfter(a, b, m);
      ChainAdds(s, a, b, m);
      SumIsWhole(a[m], b[m], c);
      ScaledAdds(s[m], BASE * One(CarryAfter(a, b, n)), m);
      ScaledUp(One(CarryAfter(a, b, n)), m);
      var p: int, q: int := a[m], b[m];
      ScaledAdds(p + q, One(c), m);
      ScaledAdds(p, q, m);
    }
  }

  lemma {:induction false} ChainSubtracts(s: seq<Limb>, a: seq<Limb>, b: seq<Limb>, n: nat)
    requires n <= |a| && n <= |b| && n <= |s| && AreDifferences(s, a, b, n)
    ensures Number(s, n) - Scaled(One(BorrowAfter(a, b, n)), n) == Number(a, n) - Number(b, n)
  {
    if n > 0 {
      var m := n - 1;
      var c := BorrowAfter(a, b, m);
      ChainSubtracts(s, a, b, m);
      DifferenceIsWhole(a[m], b[m], c);
      ScaledSubtracts(s[m], BASE * One(BorrowAfter(a, b, n)), m);
      ScaledUp(One(BorrowAfter(a, b, n)), m);
      var p: int, q: int := a[m], b[m];
      ScaledSubtracts(p - q, One(c), m);
      ScaledSubtracts(p, q, m);
    }
  }

  /**
   SCC after the chain of sums is set exactly where the sum does not fit n limbs, and the limbs are the sum modulo 2^(32
   n).
   */
  lemma {:induction false} CarryIsOverflow(s: seq<Limb>, a: seq<Limb>, b: seq<Limb>, n: nat)
    requires n <= |a| && n <= |b| && n <= |s| && AreSums(s, a, b, n)
    ensures CarryAfter(a, b, n) <==> Number(a, n) + Number(b, n) >= Scaled(1, n)
    ensures Number(s, n) == Number(a, n) + Number(b, n) - (if CarryAfter(a, b, n) then Scaled(1, n) else 0)
  {
    ChainAdds(s, a, b, n);
    NumberIsBelow(s, n);
    ScaledOrder(0, 1, n);
  }

  /** SCC after the chain of differences is set exactly where the second number is the larger. */
  lemma {:induction false} BorrowIsLess(s: seq<Limb>, a: seq<Limb>, b: seq<Limb>, n: nat)
    requires n <= |a| && n <= |b| && n <= |s| && AreDifferences(s, a, b, n)
    ensures BorrowAfter(a, b, n) <==> Number(a, n) < Number(b, n)
    ensures Number(s, n) == Number(a, n) - Number(b, n) + (if BorrowAfter(a, b, n) then Scaled(1, n) else 0)
  {
    ChainSubtracts(s, a, b, n);
    NumberIsBelow(s, n);
    ScaledOrder(0, 1, n);
  }

  // ---- The registers -----------------------------------------------------------

  class Scalars {
    var scc: bool
    const regs: array<Limb>

    constructor (regs: array<Limb>)
      ensures this.regs == regs
    {
      this.regs, scc := regs, false;
    }

    method AddU32(d: nat, a: nat, b: nat)
      requires d < regs.Length && a < regs.Length && b < regs.Length
      modifies this, regs
      ensures regs[..] == old(regs[..])[d := SumLow(old(regs[a]), old(regs[b]), false)]
              && scc == SumCarry(old(regs[a]), old(regs[b]), false)
    {
      var p: int, q: int := regs[a], regs[b];
      var sum := p + q;
      regs[d] := sum % BASE;
      scc := sum / BASE != 0;
    }

    method AddcU32(d: nat, a: nat, b: nat)
      requires d < regs.Length && a < regs.Length && b < regs.Length
      modifies this, regs
      ensures regs[..] == old(regs[..])[d := SumLow(old(regs[a]), old(regs[b]), old(scc))]
              && scc == SumCarry(old(regs[a]), old(regs[b]), old(scc))
    {
      var p: int, q: int := regs[a], regs[b];
      var sum := p + q + One(scc);
      regs[d] := sum % BASE;
      scc := sum / BASE != 0;
    }

    method SubU32(d: nat, a: nat, b: nat)
      requires d < regs.Length && a < regs.Length && b < regs.Length
      modifies this, regs
      ensures regs[..] == old(regs[..])[d := DifferenceLow(old(regs[a]), old(regs[b]), false)]
              && scc == DifferenceBorrow(old(regs[a]), old(regs[b]), false)
    {
      var from: int, take: int := regs[a], regs[b];
      regs[d] := (from - take) % BASE;
      scc := from < take;
    }

    method SubbU32(d: nat, a: nat, b: nat)
      requires d < regs.Length && a < regs.Length && b < regs.Length
      modifies this, regs
      ensures regs[..] == old(regs[..])[d := DifferenceLow(old(regs[a]), old(regs[b]), old(scc))]
              && scc == DifferenceBorrow(old(regs[a]), old(regs[b]), old(scc))
    {
      var from: int, take: int := regs[a], regs[b];
      take := take + One(scc);
      regs[d] := (from - take) % BASE;
      scc := from < take;
    }
  }

  /**
   No limb is written before a later instruction reads it: the result is apart from each operand, or below it, or is it.
   */
  predicate Readable(d: nat, a: nat, n: nat) { d + n <= a || a + n <= d || d <= a }

  predicate SumAt(regs: seq<Limb>, d: nat, x: seq<Limb>, y: seq<Limb>, k: nat) {
    d + k < |regs| && k < |x| && k < |y| && regs[d + k] == SumLow(x[k], y[k], CarryAfter(x, y, k))
  }

  predicate DifferenceAt(regs: seq<Limb>, d: nat, x: seq<Limb>, y: seq<Limb>, k: nat) {
    d + k < |regs| && k < |x| && k < |y| && regs[d + k] == DifferenceLow(x[k], y[k], BorrowAfter(x, y, k))
  }

  /** Registers other than the first i of the result are what they were. */
  predicate Elsewhere(now: seq<Limb>, was: seq<Limb>, d: nat, i: nat) {
    |now| == |was| && forall q | 0 <= q < |was| && !(d <= q < d + i) :: now[q] == was[q]
  }

  predicate Summed(now: seq<Limb>, scc: bool, was: seq<Limb>, d: nat, x: seq<Limb>, y: seq<Limb>, i: nat) {
    i <= |x| && i <= |y| && scc == CarryAfter(x, y, i) && (forall k | 0 <= k < i :: SumAt(now, d, x, y, k))
      && Elsewhere(now, was, d, i)
  }

  predicate Subtracted(now: seq<Limb>, scc: bool, was: seq<Limb>, d: nat, x: seq<Limb>, y: seq<Limb>, i: nat) {
    i <= |x| && i <= |y| && scc == BorrowAfter(x, y, i) && (forall k | 0 <= k < i :: DifferenceAt(now, d, x, y, k))
      && Elsewhere(now, was, d, i)
  }

  lemma {:induction false} SumsOn(now: seq<Limb>, was: seq<Limb>, d: nat, x: seq<Limb>, y: seq<Limb>, i: nat, c: bool)
    requires Summed(now, c, was, d, x, y, i) && i < |x| && i < |y| && d + i < |now|
    ensures Summed(now[d + i := SumLow(x[i], y[i], c)], SumCarry(x[i], y[i], c), was, d, x, y, i + 1)
  {
    var next := now[d + i := SumLow(x[i], y[i], c)];
    forall k | 0 <= k < i + 1
      ensures SumAt(next, d, x, y, k)
    {
      assert k < i ==> SumAt(now, d, x, y, k);
    }
  }

  lemma {:induction false} DifferencesOn(now: seq<Limb>, was: seq<Limb>, d: nat, x: seq<Limb>, y: seq<Limb>, i: nat,
                                         c: bool)
    requires Subtracted(now, c, was, d, x, y, i) && i < |x| && i < |y| && d + i < |now|
    ensures Subtracted(now[d + i := DifferenceLow(x[i], y[i], c)], DifferenceBorrow(x[i], y[i], c), was, d, x, y, i + 1)
  {
    var next := now[d + i := DifferenceLow(x[i], y[i], c)];
    forall k | 0 <= k < i + 1
      ensures DifferenceAt(next, d, x, y, k)
    {
      assert k < i ==> DifferenceAt(now, d, x, y, k);
    }
  }

  lemma {:induction false} SumsAreSums(now: seq<Limb>, scc: bool, was: seq<Limb>, d: nat, x: seq<Limb>, y: seq<Limb>,
                                       n: nat)
    requires Summed(now, scc, was, d, x, y, n) && d + n <= |now|
    ensures AreSums(now[d..d + n], x, y, n)
  {
    forall k | 0 <= k < n
      ensures now[d..d + n][k] == SumLow(x[k], y[k], CarryAfter(x, y, k))
    {
      assert SumAt(now, d, x, y, k);
    }
  }

  lemma {:induction false} DifferencesAreDifferences(now: seq<Limb>, scc: bool, was: seq<Limb>, d: nat, x: seq<Limb>,
                                                     y: seq<Limb>, n: nat)
    requires Subtracted(now, scc, was, d, x, y, n) && d + n <= |now|
    ensures AreDifferences(now[d..d + n], x, y, n)
  {
    forall k | 0 <= k < n
      ensures now[d..d + n][k] == DifferenceLow(x[k], y[k], BorrowAfter(x, y, k))
    {
      assert DifferenceAt(now, d, x, y, k);
    }
  }

  method AddFirst(m: Scalars, d: nat, a: nat, b: nat, n: nat, ghost x: seq<Limb>, ghost y: seq<Limb>)
    requires n > 0 && d + n <= m.regs.Length && a + n <= m.regs.Length && b + n <= m.regs.Length
    requires x == m.regs[..][a..a + n] && y == m.regs[..][b..b + n]
    modifies m, m.regs
    ensures Summed(m.regs[..], m.scc, old(m.regs[..]), d, x, y, 1)
  {
    SumsOn(m.regs[..], m.regs[..], d, x, y, 0, false);
    m.AddU32(d, a, b);
  }

  method AddNext(m: Scalars, d: nat, a: nat, b: nat, n: nat, i: nat, ghost was: seq<Limb>, ghost x: seq<Limb>,
                 ghost y: seq<Limb>)
    requires i < n && d + n <= m.regs.Length && a + n <= m.regs.Length && b + n <= m.regs.Length && Readable(d, a, n)
             && Readable(d, b, n)
    requires |was| == m.regs.Length && x == was[a..a + n] && y == was[b..b + n]
             && Summed(m.regs[..], m.scc, was, d, x, y, i)
    modifies m, m.regs
    ensures Summed(m.regs[..], m.scc, was, d, x, y, i + 1)
  {
    assert m.regs[..][a + i] == was[a + i] == x[i] && m.regs[..][b + i] == was[b + i] == y[i];
    SumsOn(m.regs[..], was, d, x, y, i, m.scc);
    m.AddcU32(d + i, a + i, b + i);
  }

  /**
   s_add_u32 and then s_addc_u32 up the limbs: the multi-limb sum, the result in either operand's registers or its own.
   */
  method AddChain(m: Scalars, d: nat, a: nat, b: nat, n: nat, ghost x: seq<Limb>, ghost y: seq<Limb>)
    requires n > 0 && d + n <= m.regs.Length && a + n <= m.regs.Length && b + n <= m.regs.Length && Readable(d, a, n)
             && Readable(d, b, n)
    requires x == m.regs[..][a..a + n] && y == m.regs[..][b..b + n]
    modifies m, m.regs
    ensures Elsewhere(m.regs[..], old(m.regs[..]), d, n)
    ensures m.scc <==> Number(x, n) + Number(y, n) >= Scaled(1, n)
    ensures Number(m.regs[..][d..d + n], n) == Number(x, n) + Number(y, n) - (if m.scc then Scaled(1, n) else 0)
  {
    ghost var was := m.regs[..];
    AddFirst(m, d, a, b, n, x, y);
    var i := 1;
    while i < n
      invariant 1 <= i <= n && Summed(m.regs[..], m.scc, was, d, x, y, i)
    {
      AddNext(m, d, a, b, n, i, was, x, y);
      i := i + 1;
    }
    SumsAreSums(m.regs[..], m.scc, was, d, x, y, n);
    CarryIsOverflow(m.regs[..][d..d + n], x, y, n);
  }

  method SubFirst(m: Scalars, d: nat, a: nat, b: nat, n: nat, ghost x: seq<Limb>, ghost y: seq<Limb>)
    requires n > 0 && d + n <= m.regs.Length && a + n <= m.regs.Length && b + n <= m.regs.Length
    requires x == m.regs[..][a..a + n] && y == m.regs[..][b..b + n]
    modifies m, m.regs
    ensures Subtracted(m.regs[..], m.scc, old(m.regs[..]), d, x, y, 1)
  {
    DifferencesOn(m.regs[..], m.regs[..], d, x, y, 0, false);
    m.SubU32(d, a, b);
  }

  method SubNext(m: Scalars, d: nat, a: nat, b: nat, n: nat, i: nat, ghost was: seq<Limb>, ghost x: seq<Limb>,
                 ghost y: seq<Limb>)
    requires i < n && d + n <= m.regs.Length && a + n <= m.regs.Length && b + n <= m.regs.Length && Readable(d, a, n)
             && Readable(d, b, n)
    requires |was| == m.regs.Length && x == was[a..a + n] && y == was[b..b + n]
             && Subtracted(m.regs[..], m.scc, was, d, x, y, i)
    modifies m, m.regs
    ensures Subtracted(m.regs[..], m.scc, was, d, x, y, i + 1)
  {
    assert m.regs[..][a + i] == was[a + i] == x[i] && m.regs[..][b + i] == was[b + i] == y[i];
    DifferencesOn(m.regs[..], was, d, x, y, i, m.scc);
    m.SubbU32(d + i, a + i, b + i);
  }

  /** s_sub_u32 and then s_subb_u32 up the limbs. */
  method SubChain(m: Scalars, d: nat, a: nat, b: nat, n: nat, ghost x: seq<Limb>, ghost y: seq<Limb>)
    requires n > 0 && d + n <= m.regs.Length && a + n <= m.regs.Length && b + n <= m.regs.Length && Readable(d, a, n)
             && Readable(d, b, n)
    requires x == m.regs[..][a..a + n] && y == m.regs[..][b..b + n]
    modifies m, m.regs
    ensures Elsewhere(m.regs[..], old(m.regs[..]), d, n)
    ensures m.scc <==> Number(x, n) < Number(y, n)
    ensures Number(m.regs[..][d..d + n], n) == Number(x, n) - Number(y, n) + (if m.scc then Scaled(1, n) else 0)
  {
    ghost var was := m.regs[..];
    SubFirst(m, d, a, b, n, x, y);
    var i := 1;
    while i < n
      invariant 1 <= i <= n && Subtracted(m.regs[..], m.scc, was, d, x, y, i)
    {
      SubNext(m, d, a, b, n, i, was, x, y);
      i := i + 1;
    }
    DifferencesAreDifferences(m.regs[..], m.scc, was, d, x, y, n);
    BorrowIsLess(m.regs[..][d..d + n], x, y, n);
  }
}
