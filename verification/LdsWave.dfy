/** The whole-wave loops of the wide LDS forms: every lane on, four lanes at a time. */
module LdsWave {
  import opened Basics
  import opened Lds
  import opened LdsMoves

  predicate AllOn(ex: seq<bool>) { forall l | 0 <= l < |ex| :: ex[l] }

  function Four<T>(d: seq<T>, l: nat): (q: seq<T>)
    requires l + 4 <= |d|
    ensures |q| == 4
  {
    [d[l], d[l + 1], d[l + 2], d[l + 3]]
  }

  /** d holds what is at each lane's address. */
  predicate Gathered(m: seq<Byte>, a: seq<nat>, words: nat, d: seq<seq<Word>>) {
    |d| == |a| && forall l | 0 <= l < |a| :: GatheredAt(m, a[l], words, d[l])
  }

  predicate GatheredAt(m: seq<Byte>, a: nat, words: nat, ws: seq<Word>) {
    a + 4 * words <= |m| && ws == WordsAt(m, a, words)
  }

  lemma {:induction false} Gathered4(m: seq<Byte>, a: seq<nat>, words: nat, d: seq<seq<Word>>, l: nat)
    requires Gathered(m, a, words, d) && l + 4 <= |a|
    ensures forall i | 0 <= i < 4 :: Four(a, l)[i] + 4 * words <= |m|
    ensures WordsOf4(m, Four(a, l), words) == Four(d, l)
  {
    assert GatheredAt(m, a[l], words, d[l]) && GatheredAt(m, a[l + 1], words, d[l + 1]);
    assert GatheredAt(m, a[l + 2], words, d[l + 2]) && GatheredAt(m, a[l + 3], words, d[l + 3]);
  }

  /**
   The addresses of four lanes that have not been loaded yet: what they were at first, though the address row may be
   among those being filled.
   */
  method Addresses4(v: array2<Word>, addr: nat, x: nat, l: nat, ghost was: Regs, ghost row: nat, ghost rows: nat,
                    ghost d: seq<seq<Word>>) returns (a: seq<nat>)
    requires addr < v.Length0 && l + 4 <= v.Length1 && Filled(RegsOf(v), was, v.Length1, row, rows, d, 0, l)
    ensures a == Four(Addresses(Values(was[addr]), x), l)
  {
    assert Cell(RegsOf(v), was, row, rows, d, 0, l, addr, l) && Cell(RegsOf(v), was, row, rows, d, 0, l, addr, l + 1);
    assert Cell(RegsOf(v), was, row, rows, d, 0, l, addr, l + 2)
           && Cell(RegsOf(v), was, row, rows, d, 0, l, addr, l + 3);
    a := [Address(Value(v[addr, l]), x), Address(Value(v[addr, l + 1]), x), Address(Value(v[addr, l + 2]), x),
          Address(Value(v[addr, l + 3]), x)];
  }

  lemma {:induction false} NothingFilled(regs: Regs, lanes: nat, row: nat, rows: nat, d: seq<seq<Word>>, at: nat)
    requires Shaped(regs, lanes)
    ensures Filled(regs, regs, lanes, row, rows, d, at, 0)
  {
  }

  /** ds_all_read. */
  method AllRead(v: array2<Word>, lds: array<Byte>, addr: nat, x: nat, row: nat, words: nat, ghost groups: nat,
                 ghost d: seq<seq<Word>>)
    requires v.Length1 == 4 * groups && (words == 2 || words == 4) && addr < v.Length0 && row + words <= v.Length0
    requires Gathered(lds[..], Addresses(Values(RegsOf(v)[addr]), x), words, d)
    modifies v
    ensures Filled(RegsOf(v), old(RegsOf(v)), v.Length1, row, words, d, 0, v.Length1)
  {
    ghost var was, m := RegsOf(v), lds[..];
    ghost var g := 0;
    var l := 0;
    NothingFilled(was, v.Length1, row, words, d, 0);
    while l < v.Length1
      invariant 0 <= g <= groups && l == 4 * g
      invariant lds[..] == m && Filled(RegsOf(v), was, v.Length1, row, words, d, 0, l)
    {
      GroupRead(v, lds, addr, x, row, words, l, was, d);
      g, l := g + 1, l + 4;
    }
  }

  method GroupRead(v: array2<Word>, lds: array<Byte>, addr: nat, x: nat, row: nat, words: nat, l: nat, ghost was: Regs,
                   ghost d: seq<seq<Word>>)
    requires l + 4 <= v.Length1 && (words == 2 || words == 4) && addr < v.Length0 && row + words <= v.Length0
    requires Filled(RegsOf(v), was, v.Length1, row, words, d, 0, l)
             && Gathered(lds[..], Addresses(Values(was[addr]), x), words, d)
    modifies v
    ensures Filled(RegsOf(v), was, v.Length1, row, words, d, 0, l + 4)
  {
    var from := Addresses4(v, addr, x, l, was, row, words, d);
    Gathered4(lds[..], Addresses(Values(was[addr]), x), words, d, l);
    ghost var mid := RegsOf(v);
    LdsToRows(v, lds, row, words, from, l);
    FilledMore(RegsOf(v), mid, was, v.Length1, row, words, d, 0, l, Four(d, l));
  }

  /** The whole-wave path of ds_two_read. */
  method AllRead2(v: array2<Word>, lds: array<Byte>, addr: nat, x0: nat, x1: nat, row: nat, words: nat,
                  ghost groups: nat, ghost p: seq<seq<Word>>, ghost q: seq<seq<Word>>)
    requires v.Length1 == 4 * groups && words == 2 && addr < v.Length0 && row + words + words <= v.Length0
    requires Gathered(lds[..], Addresses(Values(RegsOf(v)[addr]), x0), words, p)
             && Gathered(lds[..], Addresses(Values(RegsOf(v)[addr]), x1), words, q)
    modifies v
    ensures |p| == |q| && Filled(RegsOf(v), old(RegsOf(v)), v.Length1, row, words + words, Both(p, q), 0, v.Length1)
  {
    ghost var was, m := RegsOf(v), lds[..];
    ghost var g := 0;
    var l := 0;
    NothingFilled(was, v.Length1, row, words + words, Both(p, q), 0);
    while l < v.Length1
      invariant 0 <= g <= groups && l == 4 * g
      invariant lds[..] == m && Filled(RegsOf(v), was, v.Length1, row, words + words, Both(p, q), 0, l)
    {
      GroupRead2(v, lds, addr, x0, x1, row, words, l, was, p, q);
      g, l := g + 1, l + 4;
    }
  }

  method GroupRead2(v: array2<Word>, lds: array<Byte>, addr: nat, x0: nat, x1: nat, row: nat, words: nat, l: nat,
                    ghost was: Regs, ghost p: seq<seq<Word>>, ghost q: seq<seq<Word>>)
    requires l + 4 <= v.Length1 && words == 2 && addr < v.Length0 && row + words + words <= v.Length0 && |p| == |q|
    requires Filled(RegsOf(v), was, v.Length1, row, words + words, Both(p, q), 0, l)
    requires Gathered(lds[..], Addresses(Values(was[addr]), x0), words, p)
             && Gathered(lds[..], Addresses(Values(was[addr]), x1), words, q)
    modifies v
    ensures Filled(RegsOf(v), was, v.Length1, row, words + words, Both(p, q), 0, l + 4)
  {
    var a := Addresses4(v, addr, x0, l, was, row, words + words, Both(p, q));
    var b := Addresses4(v, addr, x1, l, was, row, words + words, Both(p, q));
    Gathered4(lds[..], Addresses(Values(was[addr]), x0), words, p, l);
    Gathered4(lds[..], Addresses(Values(was[addr]), x1), words, q, l);
    ghost var mid := RegsOf(v);
    TwoLdsToRows(v, lds, row, words, a, b, l);
    FilledMore(RegsOf(v), mid, was, v.Length1, row, words + words, Both(p, q), 0, l, Both(Four(p, l), Four(q, l)));
  }

  method TwoLdsToRows(v: array2<Word>, lds: array<Byte>, row: nat, words: nat, a: seq<nat>, b: seq<nat>, l: nat)
    requires words == 2 && row + words + words <= v.Length0 && l + 4 <= v.Length1
    requires |a| == |b| == 4 && (forall i | 0 <= i < 4 :: a[i] + 4 * words <= lds.Length)
             && forall i | 0 <= i < 4 :: b[i] + 4 * words <= lds.Length
    modifies v
    ensures Filled(RegsOf(v), old(RegsOf(v)), v.Length1, row, words + words,
                   Both(WordsOf4(old(lds[..]), a, words), WordsOf4(old(lds[..]), b, words)), l, 4)
  {
    ghost var was, m := RegsOf(v), lds[..];
    LdsToRows(v, lds, row, words, a, l);
    ghost var mid := RegsOf(v);
    assert lds[..] == m;
    LdsToRows(v, lds, row + words, words, b, l);
    FilledBoth(RegsOf(v), mid, was, v.Length1, row, words, WordsOf4(m, a, words), WordsOf4(m, b, words), l, 4);
  }

  // ---- Stores ------------------------------------------------------------------

  /** Each lane's words fit at its address. */
  predicate Storable(m: seq<Byte>, ex: seq<bool>, a: seq<nat>, d: seq<seq<Word>>) {
    |a| == |d| == |ex| && forall l | 0 <= l < |ex| && ex[l] :: a[l] + 4 * |d[l]| <= |m|
  }

  lemma {:induction false} StoreAll4(m: seq<Byte>, ex: seq<bool>, a: seq<nat>, d: seq<seq<Word>>, l: nat)
    requires Storable(m, ex, a, d) && AllOn(ex) && l + 4 <= |ex|
    ensures forall i | 0 <= i < 4 :: Four(a, l)[i] + 4 * |Four(d, l)[i]| <= |m|
    ensures StoreAll(m, ex, a, d, l + 4) == Put4(StoreAll(m, ex, a, d, l), Four(a, l), Four(d, l))
  {
    assert StoreAll(m, ex, a, d, l + 1) == Put(StoreAll(m, ex, a, d, l), a[l], BytesOf(d[l]));
    assert StoreAll(m, ex, a, d, l + 2) == Put(StoreAll(m, ex, a, d, l + 1), a[l + 1], BytesOf(d[l + 1]));
    assert StoreAll(m, ex, a, d, l + 3) == Put(StoreAll(m, ex, a, d, l + 2), a[l + 2], BytesOf(d[l + 2]));
    assert StoreAll(m, ex, a, d, l + 4) == Put(StoreAll(m, ex, a, d, l + 3), a[l + 3], BytesOf(d[l + 3]));
  }

  /** Each lane's address and the words it stores. */
  ghost predicate StoresFrom(regs: Regs, addr: nat, x: nat, row: nat, words: nat, lanes: nat, a: seq<nat>,
                             d: seq<seq<Word>>) {
    addr < |regs| && row + words <= |regs| && Shaped(regs, lanes) && a == Addresses(Values(regs[addr]), x)
      && d == Data(regs, row, words, lanes)
  }

  /** What is left in LDS by the first n lanes' stores. */
  ghost predicate StoredTo(now: seq<Byte>, m: seq<Byte>, ex: seq<bool>, a: seq<nat>, d: seq<seq<Word>>, n: nat) {
    Storable(m, ex, a, d) && n <= |ex| && now == StoreAll(m, ex, a, d, n)
  }

  /** ds_all_write. */
  method AllWrite(v: array2<Word>, lds: array<Byte>, addr: nat, x: nat, row: nat, words: nat, ghost ex: seq<bool>,
                  ghost groups: nat, ghost a: seq<nat>, ghost d: seq<seq<Word>>)
    requires |ex| == v.Length1 == 4 * groups && AllOn(ex) && (words == 2 || words == 4) && addr < v.Length0
             && row + words <= v.Length0
    requires StoresFrom(RegsOf(v), addr, x, row, words, |ex|, a, d) && Storable(lds[..], ex, a, d)
    modifies lds
    ensures lds[..] == StoreAll(old(lds[..]), ex, a, d, |ex|)
  {
    ghost var m, regs := lds[..], RegsOf(v);
    ghost var g := 0;
    var l := 0;
    while l < v.Length1
      invariant 0 <= g <= groups && l == 4 * g
      invariant RegsOf(v) == regs && StoredTo(lds[..], m, ex, a, d, l)
    {
      GroupWrite(v, lds, addr, x, row, words, l, ex, m, a, d, regs);
      g, l := g + 1, l + 4;
    }
  }

  lemma {:induction false} FourLanes(regs: Regs, row: nat, words: nat, lanes: nat, l: nat)
    requires Shaped(regs, lanes) && row + words <= |regs| && l + 4 <= lanes
    ensures Words4(regs, row, words, l) == Four(Data(regs, row, words, lanes), l)
  {
  }

  method GroupWrite(v: array2<Word>, lds: array<Byte>, addr: nat, x: nat, row: nat, words: nat, l: nat,
                    ghost ex: seq<bool>, ghost m: seq<Byte>, ghost a: seq<nat>, ghost d: seq<seq<Word>>,
                    ghost regs: Regs)
    requires |ex| == v.Length1 && l + 4 <= |ex| && AllOn(ex) && (words == 2 || words == 4) && addr < v.Length0
             && row + words <= v.Length0
    requires RegsOf(v) == regs && StoresFrom(regs, addr, x, row, words, |ex|, a, d) && StoredTo(lds[..], m, ex, a, d, l)
    modifies lds
    ensures RegsOf(v) == regs && StoredTo(lds[..], m, ex, a, d, l + 4)
  {
    StoreAll4(m, ex, a, d, l);
    var to := [Address(Value(v[addr, l]), x), Address(Value(v[addr, l + 1]), x), Address(Value(v[addr, l + 2]), x),
               Address(Value(v[addr, l + 3]), x)];
    assert to == Four(a, l);
    FourLanes(regs, row, words, |ex|, l);
    RowsToLds(v, lds, row, words, to, l);
  }
}
