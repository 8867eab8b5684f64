/**
 The LDS handlers: which path an instruction takes, and that every path does what its lanes do one after another. A
 handler that returns false has changed nothing.
 */
module LdsHandler {
  import opened Basics
  import opened Powers
  import opened Lds
  import opened LdsMoves
  import opened LdsLanes
  import opened LdsWave
  import opened LdsRun

  // ---- What was filled is what the lanes load ----------------------------------

  /** d holds what the lanes from lane at load. */
  ghost predicate LoadsOf(s: State, op: Op, lanes: nat, d: seq<seq<Word>>, at: nat) {
    Ready(s, op, lanes) && op.Loads() && at + |d| <= lanes
      && forall i | 0 <= i < |d| :: LoadOf(s.lds, op, Value(s.regs[op.addr][at + i]), d[i])
  }

  ghost predicate LoadOf(m: seq<Byte>, op: Op, base: nat, ws: seq<Word>) {
    op.Loads() && !Past(op, base, |m|) && ws == LoadedWords(m, op, base)
  }

  lemma {:induction false} FilledIsLanes(s: State, op: Op, ex: seq<bool>, now: Regs, d: seq<seq<Word>>, at: nat)
    requires LoadsOf(s, op, |ex|, d, at) && OneRun(ex, at, |d|) && !SomePast(s, op, ex)
             && Filled(now, s.regs, |ex|, op.dst, op.Rows(), d, at, |d|)
    ensures State(now, s.lds) == Lanes(s, op, ex, |ex|)
  {
    var t := Lanes(s, op, ex, |ex|);
    LoadsPointwise(s, op, ex, |ex|);
    forall r, c | 0 <= r < |now| && 0 <= c < |now[r]|
      ensures now[r][c] == t.regs[r][c]
    {
      assert Cell(now, s.regs, op.dst, op.Rows(), d, at, |d|, r, c);
      if ex[c] {
        assert LoadOf(s.lds, op, Value(s.regs[op.addr][at + (c - at)]), d[c - at]);
      }
    }
    SameRegs(now, t.regs);
  }

  // ---- Every lane on -----------------------------------------------------------

  function Gather(m: seq<Byte>, a: seq<nat>, words: nat): (d: seq<seq<Word>>)
    requires forall l | 0 <= l < |a| :: a[l] + 4 * words <= |m|
    ensures Gathered(m, a, words, d)
  {
    seq(|a|, l requires 0 <= l < |a| => WordsAt(m, a[l], words))
  }

  lemma {:induction false} AllInside(s: State, op: Op, ex: seq<bool>)
    requires Ready(s, op, |ex|) && AllOn(ex) && !SomePast(s, op, ex) && op.form != Add
    ensures var a, b := Addresses(Values(s.regs[op.addr]), op.x0), Addresses(Values(s.regs[op.addr]), op.x1);
            (forall l | 0 <= l < |a| :: a[l] + 4 * op.words <= |s.lds|)
              && (op.Two() ==> forall l | 0 <= l < |b| :: b[l] + 4 * op.words <= |s.lds|)
  {
    SomePastIsAny(s, op, ex);
  }

  lemma {:induction false} GatheredIsLoaded(s: State, op: Op, ex: seq<bool>, d: seq<seq<Word>>)
    requires Ready(s, op, |ex|) && AllOn(ex) && !SomePast(s, op, ex) && op.form == Read
             && Gathered(s.lds, Addresses(Values(s.regs[op.addr]), op.x0), op.words, d)
    ensures LoadsOf(s, op, |ex|, d, 0)
  {
    forall i | 0 <= i < |d|
      ensures LoadOf(s.lds, op, Value(s.regs[op.addr][0 + i]), d[i])
    {
      NotPast(s, op, ex, i);
      assert GatheredAt(s.lds, Addresses(Values(s.regs[op.addr]), op.x0)[i], op.words, d[i]);
    }
  }

  lemma {:induction false} GatheredIsLoaded2(s: State, op: Op, ex: seq<bool>, p: seq<seq<Word>>, q: seq<seq<Word>>)
    requires Ready(s, op, |ex|) && AllOn(ex) && !SomePast(s, op, ex) && op.form == Read2
    requires Gathered(s.lds, Addresses(Values(s.regs[op.addr]), op.x0), op.words, p)
             && Gathered(s.lds, Addresses(Values(s.regs[op.addr]), op.x1), op.words, q)
    ensures LoadsOf(s, op, |ex|, Both(p, q), 0)
  {
    var d := Both(p, q);
    forall i | 0 <= i < |d|
      ensures LoadOf(s.lds, op, Value(s.regs[op.addr][0 + i]), d[i])
    {
      NotPast(s, op, ex, i);
      assert GatheredAt(s.lds, Addresses(Values(s.regs[op.addr]), op.x0)[i], op.words, p[i]);
      assert GatheredAt(s.lds, Addresses(Values(s.regs[op.addr]), op.x1)[i], op.words, q[i]);
    }
  }

  method WaveRead(v: array2<Word>, lds: array<Byte>, op: Op, ghost ex: seq<bool>, ghost groups: nat)
    requires |ex| == v.Length1 == 4 * groups && Ready(StateOf(v, lds), op, |ex|) && AllOn(ex)
             && !SomePast(StateOf(v, lds), op, ex)
    requires op.form == Read && (op.words == 2 || op.words == 4)
    modifies v
    ensures StateOf(v, lds) == Lanes(old(StateOf(v, lds)), op, ex, |ex|)
  {
    ghost var s := StateOf(v, lds);
    AllInside(s, op, ex);
    ghost var d := Gather(s.lds, Addresses(Values(s.regs[op.addr]), op.x0), op.words);
    GatheredIsLoaded(s, op, ex, d);
    AllRead(v, lds, op.addr, op.x0, op.dst, op.words, groups, d);
    FilledIsLanes(s, op, ex, RegsOf(v), d, 0);
  }

  method WaveRead2(v: array2<Word>, lds: array<Byte>, op: Op, ghost ex: seq<bool>, ghost groups: nat)
    requires |ex| == v.Length1 == 4 * groups && Ready(StateOf(v, lds), op, |ex|) && AllOn(ex)
             && !SomePast(StateOf(v, lds), op, ex)
    requires op.form == Read2 && op.words == 2
    modifies v
    ensures StateOf(v, lds) == Lanes(old(StateOf(v, lds)), op, ex, |ex|)
  {
    ghost var s := StateOf(v, lds);
    AllInside(s, op, ex);
    ghost var p := Gather(s.lds, Addresses(Values(s.regs[op.addr]), op.x0), op.words);
    ghost var q := Gather(s.lds, Addresses(Values(s.regs[op.addr]), op.x1), op.words);
    GatheredIsLoaded2(s, op, ex, p, q);
    AllRead2(v, lds, op.addr, op.x0, op.x1, op.dst, op.words, groups, p, q);
    FilledIsLanes(s, op, ex, RegsOf(v), Both(p, q), 0);
  }

  method WaveWrite(v: array2<Word>, lds: array<Byte>, op: Op, ghost ex: seq<bool>, ghost groups: nat)
    requires |ex| == v.Length1 == 4 * groups && Ready(StateOf(v, lds), op, |ex|) && AllOn(ex)
             && !SomePast(StateOf(v, lds), op, ex)
    requires op.form == Write && (op.words == 2 || op.words == 4)
    modifies lds
    ensures StateOf(v, lds) == Lanes(old(StateOf(v, lds)), op, ex, |ex|)
  {
    ghost var s := StateOf(v, lds);
    LanesStoreAll(s, op, ex, |ex|);
    ghost var a, d := Addresses(Values(s.regs[op.addr]), op.x0), Data(s.regs, op.src, op.words, |ex|);
    AllWrite(v, lds, op.addr, op.x0, op.src, op.words, ex, groups, a, d);
  }

  // ---- One run of lanes --------------------------------------------------------

  /** The words at cnt consecutive places. */
  function RunData(m: seq<Byte>, base: nat, words: nat, cnt: nat): (d: seq<seq<Word>>)
    requires base + Times(4 * words, cnt) <= |m|
    ensures |d| == cnt && forall i | 0 <= i < cnt :: |d[i]| == words
    ensures InRun(m, base, words, d)
  {
    if cnt == 0 then []
    else
      TimesGrows(4 * words, 0, cnt - 1);
      var p := RunData(m, base, words, cnt - 1);
      var d := p + [WordsAt(m, base + Times(4 * words, cnt - 1), words)];
      assert InRun(m, base, words, d) by { RunGrows(m, base, words, p, d); }
      d
  }

  lemma {:induction false} RunGrows(m: seq<Byte>, base: nat, words: nat, p: seq<seq<Word>>, d: seq<seq<Word>>)
    requires InRun(m, base, words, p) && |d| == |p| + 1 && d[..|p|] == p && InRunAt(m, base, words, d, |p|)
    ensures InRun(m, base, words, d)
  {
    forall i | 0 <= i < |d|
      ensures InRunAt(m, base, words, d, i)
    {
      if i < |p| {
        assert InRunAt(m, base, words, p, i);
      }
    }
  }

  lemma {:induction false} RunIsLoaded(s: State, op: Op, ex: seq<bool>, first: nat, base: nat, d: seq<seq<Word>>)
    requires Ready(s, op, |ex|) && op.form == Read && OneRun(ex, first, |d|) && !SomePast(s, op, ex)
             && InRun(s.lds, base, op.words, d)
    requires Clear(Addresses(Values(s.regs[op.addr]), op.x0), first, |d|, base, 4 * op.words)
    ensures LoadsOf(s, op, |ex|, d, first)
  {
    forall i | 0 <= i < |d|
      ensures LoadOf(s.lds, op, Value(s.regs[op.addr][first + i]), d[i])
    {
      NotPast(s, op, ex, first + i);
      assert InRunAt(s.lds, base, op.words, d, i)
             && InClear(Addresses(Values(s.regs[op.addr]), op.x0), first, base, 4 * op.words, i);
    }
  }

  lemma {:induction false} RunIsLoaded2(s: State, op: Op, ex: seq<bool>, first: nat, base: nat, base1: nat,
                                        p: seq<seq<Word>>, q: seq<seq<Word>>)
    requires Ready(s, op, |ex|) && op.form == Read2 && |p| == |q| && OneRun(ex, first, |p|) && !SomePast(s, op, ex)
    requires InRun(s.lds, base, op.words, p) && InRun(s.lds, base1, op.words, q)
    requires Clear(Addresses(Values(s.regs[op.addr]), op.x0), first, |p|, base, 4 * op.words)
             && Clear(Addresses(Values(s.regs[op.addr]), op.x1), first, |p|, base1, 4 * op.words)
    ensures LoadsOf(s, op, |ex|, Both(p, q), first)
  {
    var d := Both(p, q);
    forall i | 0 <= i < |d|
      ensures LoadOf(s.lds, op, Value(s.regs[op.addr][first + i]), d[i])
    {
      NotPast(s, op, ex, first + i);
      assert InRunAt(s.lds, base, op.words, p, i)
             && InClear(Addresses(Values(s.regs[op.addr]), op.x0), first, base, 4 * op.words, i);
      assert InRunAt(s.lds, base1, op.words, q, i)
             && InClear(Addresses(Values(s.regs[op.addr]), op.x1), first, base1, 4 * op.words, i);
    }
  }

  method RunLoad(v: array2<Word>, lds: array<Byte>, op: Op, ghost ex: seq<bool>, first: nat, cnt: nat, base: nat)
    requires |ex| == v.Length1 && Ready(StateOf(v, lds), op, |ex|) && OneRun(ex, first, cnt)
             && !SomePast(StateOf(v, lds), op, ex)
    requires op.form == Read && 0 < op.words <= 4 && base + Times(4 * op.words, cnt) <= lds.Length
    requires Clear(Addresses(Values(RegsOf(v)[op.addr]), op.x0), first, cnt, base, 4 * op.words)
    modifies v
    ensures StateOf(v, lds) == Lanes(old(StateOf(v, lds)), op, ex, |ex|)
  {
    ghost var s := StateOf(v, lds);
    ghost var d := RunData(s.lds, base, op.words, cnt);
    RunIsLoaded(s, op, ex, first, base, d);
    if op.words == 1 {
      CopyToRow(v, lds, op.dst, op.words, first, cnt, base, d);
    } else if op.words == 2 || op.words == 4 {
      RunRead(v, lds, op.dst, op.words, first, cnt, base, d);
    } else {
      RunRead3(v, lds, op.dst, op.words, first, cnt, base, d);
    }
    FilledIsLanes(s, op, ex, RegsOf(v), d, first);
  }

  method RunLoad2(v: array2<Word>, lds: array<Byte>, op: Op, ghost ex: seq<bool>, first: nat, cnt: nat, base: nat,
                  base1: nat)
    requires |ex| == v.Length1 && Ready(StateOf(v, lds), op, |ex|) && OneRun(ex, first, cnt)
             && !SomePast(StateOf(v, lds), op, ex)
    requires op.form == Read2 && op.words == 1 && base + Times(4 * op.words, cnt) <= lds.Length
             && base1 + Times(4 * op.words, cnt) <= lds.Length
    requires Clear(Addresses(Values(RegsOf(v)[op.addr]), op.x0), first, cnt, base, 4 * op.words)
    requires Clear(Addresses(Values(RegsOf(v)[op.addr]), op.x1), first, cnt, base1, 4 * op.words)
    modifies v
    ensures StateOf(v, lds) == Lanes(old(StateOf(v, lds)), op, ex, |ex|)
  {
    ghost var s := StateOf(v, lds);
    ghost var p, q := RunData(s.lds, base, op.words, cnt), RunData(s.lds, base1, op.words, cnt);
    RunIsLoaded2(s, op, ex, first, base, base1, p, q);
    CopyToRow(v, lds, op.dst, op.words, first, cnt, base, p);
    ghost var mid := RegsOf(v);
    CopyToRow(v, lds, op.dst + 1, op.words, first, cnt, base1, q);
    FilledBoth(RegsOf(v), mid, s.regs, |ex|, op.dst, op.words, p, q, first, cnt);
    FilledIsLanes(s, op, ex, RegsOf(v), Both(p, q), first);
  }

  lemma {:induction false} OneRunStored(m: seq<Byte>, ex: seq<bool>, a: seq<nat>, d: seq<seq<Word>>, words: nat,
                                        first: nat, cnt: nat, base: nat)
    requires |a| == |d| == |ex| && (forall l | 0 <= l < |ex| && ex[l] :: a[l] + 4 * |d[l]| <= |m|)
    requires (forall l | 0 <= l < |d| :: |d[l]| == words) && OneRun(ex, first, cnt)
             && base + Times(4 * words, cnt) <= |m| && Clear(a, first, cnt, base, 4 * words)
    ensures base + 4 * |RunWords(d, first, cnt)| <= |m|
    ensures StoreAll(m, ex, a, d, |ex|) == Put(m, base, BytesOf(RunWords(d, first, cnt)))
  {
    TimesGrows(4 * words, 0, cnt);
    RunIsOneStore(m, ex, a, d, words, first, cnt, base, cnt);
    OffLanes(m, ex, a, d, first + cnt, |ex|);
  }

  lemma {:induction false} TwoRunsStored(m: seq<Byte>, ex: seq<bool>, a: seq<nat>, d: seq<seq<Word>>, b: seq<nat>,
                                         e: seq<seq<Word>>,
                                         words: nat, first: nat, cnt: nat, base: nat, base1: nat)
    requires |a| == |d| == |b| == |e| == |ex| && OneRun(ex, first, cnt)
    requires forall l | 0 <= l < |ex| && ex[l] :: a[l] + 4 * |d[l]| <= |m| && b[l] + 4 * |e[l]| <= |m|
    requires forall l | 0 <= l < |ex| :: |d[l]| == |e[l]| == words
    requires Clear(a, first, cnt, base, 4 * words) && Clear(b, first, cnt, base1, 4 * words)
    requires base + Times(4 * words, cnt) <= |m| && base1 + Times(4 * words, cnt) <= |m|
    requires base + Times(4 * words, cnt) <= base1 || base1 + Times(4 * words, cnt) <= base
    ensures base + 4 * |RunWords(d, first, cnt)| <= |m| && base1 + 4 * |RunWords(e, first, cnt)| <= |m|
    ensures StoreAll2(m, ex, a, d, b, e, |ex|)
            == Put(Put(m, base, BytesOf(RunWords(d, first, cnt))), base1, BytesOf(RunWords(e, first, cnt)))
  {
    TwoRunsAreTwoStores(m, ex, a, d, b, e, words, first, cnt, base, base1, cnt);
    OffLanes2(m, ex, a, d, b, e, first + cnt, |ex|);
  }

  /** What a run of stores is to the reference. */
  lemma {:induction false} RunIsStored(s: State, op: Op, ex: seq<bool>, first: nat, cnt: nat, base: nat)
    requires Ready(s, op, |ex|) && op.form == Write && OneRun(ex, first, cnt) && !SomePast(s, op, ex)
             && base + Times(4 * op.words, cnt) <= |s.lds|
    requires Clear(Addresses(Values(s.regs[op.addr]), op.x0), first, cnt, base, 4 * op.words)
    ensures var d := Data(s.regs, op.src, op.words, |ex|);
            base + 4 * |RunWords(d, first, cnt)| <= |s.lds|
              && Lanes(s, op, ex, |ex|) == s.(lds := Put(s.lds, base, BytesOf(RunWords(d, first, cnt))))
  {
    LanesStoreAll(s, op, ex, |ex|);
    var a, d := Addresses(Values(s.regs[op.addr]), op.x0), Data(s.regs, op.src, op.words, |ex|);
    OneRunStored(s.lds, ex, a, d, op.words, first, cnt, base);
  }

  lemma {:induction false} RunIsStored2(s: State, op: Op, ex: seq<bool>, first: nat, cnt: nat, base: nat, base1: nat)
    requires Ready(s, op, |ex|) && op.form == Write2 && OneRun(ex, first, cnt) && !SomePast(s, op, ex)
    requires base + Times(4 * op.words, cnt) <= |s.lds| && base1 + Times(4 * op.words, cnt) <= |s.lds|
    requires base + Times(4 * op.words, cnt) <= base1 || base1 + Times(4 * op.words, cnt) <= base
    requires Clear(Addresses(Values(s.regs[op.addr]), op.x0), first, cnt, base, 4 * op.words)
             && Clear(Addresses(Values(s.regs[op.addr]), op.x1), first, cnt, base1, 4 * op.words)
    ensures var d, e := Data(s.regs, op.src, op.words, |ex|), Data(s.regs, op.src2, op.words, |ex|);
            && base + 4 * |RunWords(d, first, cnt)| <= |s.lds| && base1 + 4 * |RunWords(e, first, cnt)| <= |s.lds|
            && Lanes(s, op, ex, |ex|)
               == s.(lds := Put(Put(s.lds, base, BytesOf(RunWords(d, first, cnt))), base1,
                                BytesOf(RunWords(e, first, cnt))))
  {
    LanesStoreAll2(s, op, ex, |ex|);
    var row := Values(s.regs[op.addr]);
    var a, d, b, e := Addresses(row, op.x0), Data(s.regs, op.src, op.words, |ex|), Addresses(row, op.x1),
        Data(s.regs, op.src2, op.words, |ex|);
    TwoRunsStored(s.lds, ex, a, d, b, e, op.words, first, cnt, base, base1);
  }

  method RunStore(v: array2<Word>, lds: array<Byte>, op: Op, ghost ex: seq<bool>, first: nat, cnt: nat, base: nat)
    requires |ex| == v.Length1 && Ready(StateOf(v, lds), op, |ex|) && OneRun(ex, first, cnt)
             && !SomePast(StateOf(v, lds), op, ex)
    requires op.form == Write && 0 < op.words <= 4 && base + Times(4 * op.words, cnt) <= lds.Length
    requires Clear(Addresses(Values(RegsOf(v)[op.addr]), op.x0), first, cnt, base, 4 * op.words)
    modifies lds
    ensures StateOf(v, lds) == Lanes(old(StateOf(v, lds)), op, ex, |ex|)
  {
    ghost var s := StateOf(v, lds);
    RunIsStored(s, op, ex, first, cnt, base);
    ghost var d := Data(s.regs, op.src, op.words, |ex|);
    if op.words == 1 {
      TimesIsProduct(4 * op.words, cnt);
      CopyFromRow(v, lds, op.src, op.words, first, cnt, base, d);
    } else if op.words == 2 || op.words == 4 {
      RunWrite(v, lds, op.src, op.words, first, cnt, base, d);
    } else {
      RunWrite3(v, lds, op.src, op.words, first, cnt, base, d);
    }
  }

  method RunStore2(v: array2<Word>, lds: array<Byte>, op: Op, ghost ex: seq<bool>, first: nat, cnt: nat, base: nat,
                   base1: nat)
    requires |ex| == v.Length1 && Ready(StateOf(v, lds), op, |ex|) && OneRun(ex, first, cnt)
             && !SomePast(StateOf(v, lds), op, ex)
    requires op.form == Write2 && op.words == 1 && base + Times(4 * op.words, cnt) <= lds.Length
             && base1 + Times(4 * op.words, cnt) <= lds.Length
    requires base + Times(4 * op.words, cnt) <= base1 || base1 + Times(4 * op.words, cnt) <= base
    requires Clear(Addresses(Values(RegsOf(v)[op.addr]), op.x0), first, cnt, base, 4 * op.words)
    requires Clear(Addresses(Values(RegsOf(v)[op.addr]), op.x1), first, cnt, base1, 4 * op.words)
    modifies lds
    ensures StateOf(v, lds) == Lanes(old(StateOf(v, lds)), op, ex, |ex|)
  {
    ghost var s := StateOf(v, lds);
    RunIsStored2(s, op, ex, first, cnt, base, base1);
    TimesIsProduct(4 * op.words, cnt);
    CopyFromRow(v, lds, op.src, op.words, first, cnt, base, Data(s.regs, op.src, op.words, |ex|));
    CopyFromRow(v, lds, op.src2, op.words, first, cnt, base1, Data(s.regs, op.src2, op.words, |ex|));
  }

  // ---- Choosing the path -------------------------------------------------------

  /** Whether EXEC is one run of lanes, and where it starts. */
  method FindRun(ex: seq<bool>) returns (one: bool, first: nat, cnt: nat)
    ensures one ==> OneRun(ex, first, cnt)
    ensures cnt == 0 <==> forall l | 0 <= l < |ex| :: !ex[l]
    ensures !one ==> forall f: nat, c: nat :: !OneRun(ex, f, c)
  {
    first := 0;
    while first < |ex| && !ex[first]
      invariant 0 <= first <= |ex| && forall l | 0 <= l < first :: !ex[l]
    {
      first := first + 1;
    }
    var end := first;
    while end < |ex| && ex[end]
      invariant first <= end <= |ex| && forall l | first <= l < end :: ex[l]
    {
      end := end + 1;
    }
    var last := end;
    while last < |ex| && !ex[last]
      invariant end <= last <= |ex| && forall l | end <= l < last :: !ex[l]
    {
      last := last + 1;
    }
    one, cnt := last == |ex|, end - first;
  }

  lemma {:induction false} NextPlace(base: nat, stride: nat, i: nat)
    ensures Place(base, stride, 0) == base % LIMIT
            && Place(base, stride, i + 1) == (Place(base, stride, i) + stride) % LIMIT
  {
    TimesGrows(stride, 0, i);
    Wrapped(base, Times(stride, i), stride);
  }

  lemma {:induction false} Wrapped(base: nat, far: nat, stride: nat)
    ensures (base + (far + stride)) % LIMIT == ((base + far) % LIMIT + stride) % LIMIT
  {
  }

  /** Whether the lanes of a run address consecutive places. */
  method CheckPlaces(v: array2<Word>, addr: nat, x: nat, first: nat, cnt: nat, base: nat, stride: nat)
    returns (same: bool)
    requires addr < v.Length0 && first + cnt <= v.Length1 && base < LIMIT
    ensures same <==> Consecutive(Addresses(Values(RegsOf(v)[addr]), x), first, cnt, base, stride)
  {
    ghost var a := Addresses(Values(RegsOf(v)[addr]), x);
    same := true;
    var l: nat, o: nat := 0, base;
    NextPlace(base, stride, 0);
    while l < cnt
      invariant 0 <= l <= cnt && o == Place(base, stride, l)
      invariant same <==> forall i | 0 <= i < l :: AtPlace(a, first, base, stride, i)
    {
      assert a[first + l] == Address(Value(v[addr, first + l]), x);
      assert AtPlace(a, first, base, stride, l) <==> Address(Value(v[addr, first + l]), x) == o;
      if Address(Value(v[addr, first + l]), x) != o {
        same := false;
      }
      NextPlace(base, stride, l);
      l, o := l + 1, (o + stride) % LIMIT;
    }
  }

  /** Whether some lane that is on passes the end, at one offset. */
  method CheckEnds(v: array2<Word>, addr: nat, x: nat, ex: seq<bool>, span: nat, size: nat) returns (past: bool)
    requires addr < v.Length0 && |ex| == v.Length1
    ensures past <==> AnyPast(Addresses(Values(RegsOf(v)[addr]), x), ex, span, size)
  {
    ghost var a := Addresses(Values(RegsOf(v)[addr]), x);
    past := false;
    var l := 0;
    while l < |ex|
      invariant 0 <= l <= |ex|
      invariant past <==> exists i | 0 <= i < l :: ex[i] && a[i] + span > size
    {
      assert a[l] == Address(Value(v[addr, l]), x);
      if ex[l] && Address(Value(v[addr, l]), x) + span > size {
        past := true;
      }
      l := l + 1;
    }
  }

  /**
   The run's end is every lane's test, and a run that passes it is in the clear: for the second offset as for the first.
   */
  lemma {:induction false} RunTest(s: State, op: Op, ex: seq<bool>, first: nat, cnt: nat, base: nat, base1: nat)
    requires Ready(s, op, |ex|) && op.form != Add && OneRun(ex, first, cnt) && cnt > 0 && base < LIMIT && op.x0 < LIMIT
    requires base1 == (base + op.x1 + LIMIT - op.x0) % LIMIT
    requires Consecutive(Addresses(Values(s.regs[op.addr]), op.x0), first, cnt, base, 4 * op.words)
    ensures SomePast(s, op, ex)
            <==> base + Times(4 * op.words, cnt) > |s.lds| || (op.Two() && base1 + Times(4 * op.words, cnt) > |s.lds|)
    ensures !SomePast(s, op, ex) ==> Clear(Addresses(Values(s.regs[op.addr]), op.x0), first, cnt, base, 4 * op.words)
    ensures !SomePast(s, op, ex) && op.Two()
            ==> Clear(Addresses(Values(s.regs[op.addr]), op.x1), first, cnt, base1, 4 * op.words)
  {
    var a, b := Addresses(Values(s.regs[op.addr]), op.x0), Addresses(Values(s.regs[op.addr]), op.x1);
    SomePastIsAny(s, op, ex);
    RunPast(a, ex, first, cnt, base, 4 * op.words, |s.lds|);
    SecondRun(Values(s.regs[op.addr]), op.x0, op.x1, first, cnt, base, 4 * op.words);
    RunPast(b, ex, first, cnt, base1, 4 * op.words, |s.lds|);
    if !SomePast(s, op, ex) {
      RunIsClear(a, first, cnt, base, 4 * op.words);
      if op.Two() {
        RunIsClear(b, first, cnt, base1, 4 * op.words);
      }
    }
  }

  /**
   The one-copy path: taken only where the lanes' places are consecutive and, with two offsets, the two runs are apart.
   */
  method TryRun(v: array2<Word>, lds: array<Byte>, op: Op, ghost ex: seq<bool>, first: nat, cnt: nat)
    returns (taken: bool, done: bool)
    requires |ex| == v.Length1 && Ready(StateOf(v, lds), op, |ex|) && OneRun(ex, first, cnt) && cnt > 0
             && op.x0 < LIMIT && op.x1 < LIMIT
    requires op.form != Add && 0 < op.words <= 4 && (op.Two() ==> op.words == 1)
    modifies v, lds
    ensures taken ==> (done <==> !SomePast(old(StateOf(v, lds)), op, ex))
    ensures StateOf(v, lds) == if taken && done then Lanes(old(StateOf(v, lds)), op, ex, |ex|) else old(StateOf(v, lds))
  {
    var base := Address(Value(v[op.addr, first]), op.x0);
    TimesGrows(4 * op.words, 0, cnt);
    var same := CheckPlaces(v, op.addr, op.x0, first, cnt, base, 4 * op.words);
    var base1 := (base + op.x1 + LIMIT - op.x0) % LIMIT;
    var run := Times(4 * op.words, cnt);
    var apart := !op.Two() || (if base1 > base then base1 - base else base - base1) >= run;
    if !same || !apart {
      return false, false;
    }
    RunTest(StateOf(v, lds), op, ex, first, cnt, base, base1);
    if base + run > lds.Length || (op.Two() && base1 + run > lds.Length) {
      return true, false;
    }
    MoveRun(v, lds, op, ex, first, cnt, base, base1, run);
    return true, true;
  }

  method MoveRun(v: array2<Word>, lds: array<Byte>, op: Op, ghost ex: seq<bool>, first: nat, cnt: nat, base: nat,
                 base1: nat, ghost run: nat)
    requires |ex| == v.Length1 && Ready(StateOf(v, lds), op, |ex|) && OneRun(ex, first, cnt)
             && !SomePast(StateOf(v, lds), op, ex)
    requires op.form != Add && 0 < op.words <= 4 && (op.Two() ==> op.words == 1) && run == Times(4 * op.words, cnt)
             && base + run <= lds.Length
    requires Clear(Addresses(Values(RegsOf(v)[op.addr]), op.x0), first, cnt, base, 4 * op.words)
    requires op.Two() ==> base1 + run <= lds.Length && (base + run <= base1 || base1 + run <= base)
    requires op.Two() ==> Clear(Addresses(Values(RegsOf(v)[op.addr]), op.x1), first, cnt, base1, 4 * op.words)
    modifies v, lds
    ensures StateOf(v, lds) == Lanes(old(StateOf(v, lds)), op, ex, |ex|)
  {
    match op.form {
      case Read => RunLoad(v, lds, op, ex, first, cnt, base);
      case Write => RunStore(v, lds, op, ex, first, cnt, base);
      case Read2 => RunLoad2(v, lds, op, ex, first, cnt, base, base1);
      case Write2 => RunStore2(v, lds, op, ex, first, cnt, base, base1);
    }
  }

  method CheckAllEnds(v: array2<Word>, lds: array<Byte>, op: Op, ex: seq<bool>) returns (past: bool)
    requires |ex| == v.Length1 && Ready(StateOf(v, lds), op, |ex|)
    ensures past <==> SomePast(StateOf(v, lds), op, ex)
  {
    SomePastIsAny(StateOf(v, lds), op, ex);
    past := CheckEnds(v, op.addr, op.x0, ex, op.Span(), lds.Length);
    if op.Two() {
      var past1 := CheckEnds(v, op.addr, op.x1, ex, op.Span(), lds.Length);
      past := past || past1;
    }
  }

  /** Every lane on, four at a time, or the lanes that are on, one at a time. */
  method AnyAddresses(v: array2<Word>, lds: array<Byte>, op: Op, ex: seq<bool>, ghost groups: nat)
    requires |ex| == v.Length1 == 4 * groups && Ready(StateOf(v, lds), op, |ex|) && !SomePast(StateOf(v, lds), op, ex)
    modifies v, lds
    ensures StateOf(v, lds) == Lanes(old(StateOf(v, lds)), op, ex, |ex|)
  {
    if AllOn(ex) && (op.words == 2 || op.words == 4) && op.form == Read {
      WaveRead(v, lds, op, ex, groups);
    } else if AllOn(ex) && (op.words == 2 || op.words == 4) && op.form == Write {
      WaveWrite(v, lds, op, ex, groups);
    } else {
      EachLane(v, lds, op, ex);
    }
  }

  lemma {:induction false} NoLanes(s: State, op: Op, ex: seq<bool>, n: nat)
    requires Ready(s, op, |ex|) && n <= |ex| && forall l | 0 <= l < |ex| :: !ex[l]
    ensures Lanes(s, op, ex, n) == s && !SomePast(s, op, ex)
  {
    if n > 0 {
      NoLanes(s, op, ex, n - 1);
    }
  }

  /**
   The LDS accesses of h_ds: the reference, whichever path runs; where a lane passes the end the answer is false and
   nothing has changed.
   */
  method HandleDs(v: array2<Word>, lds: array<Byte>, op: Op, ex: seq<bool>) returns (done: bool)
    requires |ex| == v.Length1 && |ex| % 4 == 0 && Ready(StateOf(v, lds), op, |ex|) && op.x0 < LIMIT && op.x1 < LIMIT
    requires op.words > 0 && (op.Two() ==> op.words == 1)
    modifies v, lds
    ensures (if done then Done(StateOf(v, lds)) else HandedBack) == Reference(old(StateOf(v, lds)), op, ex)
    ensures !done ==> StateOf(v, lds) == old(StateOf(v, lds))
  {
    var one, first, cnt := FindRun(ex);
    if cnt == 0 {
      NoLanes(StateOf(v, lds), op, ex, |ex|);
      return true;
    }
    if one && op.form != Add && op.words <= 4 {
      var taken, ok := TryRun(v, lds, op, ex, first, cnt);
      if taken {
        return ok;
      }
    }
    var past := CheckAllEnds(v, lds, op, ex);
    if past {
      return false;
    }
    AnyAddresses(v, lds, op, ex, |ex| / 4);
    return true;
  }

  /** ds_two_read and ds_two_write: two 64-bit values a lane. */
  method HandleTwo(v: array2<Word>, lds: array<Byte>, op: Op, ex: seq<bool>) returns (done: bool)
    requires |ex| == v.Length1 && |ex| % 4 == 0 && Ready(StateOf(v, lds), op, |ex|) && op.Two() && op.words == 2
    modifies v, lds
    ensures (if done then Done(StateOf(v, lds)) else HandedBack) == Reference(old(StateOf(v, lds)), op, ex)
    ensures !done ==> StateOf(v, lds) == old(StateOf(v, lds))
  {
    var past := CheckAllEnds(v, lds, op, ex);
    if past {
      return false;
    }
    if op.form == Read2 && AllOn(ex) {
      WaveRead2(v, lds, op, ex, |ex| / 4);
    } else {
      EachLane(v, lds, op, ex);
    }
    return true;
  }
}
