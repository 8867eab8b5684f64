/**
 The instructions that go through the LDS hardware without touching the LDS: ds_bpermute_b32, ds_swizzle_b32 and
 ds_permute_b32 move words between lanes, and with the gate on a wave's first store they make up the rest of h_ds.
 */
module LdsCross {
  import opened Basics
  import opened Lds
  import opened LdsMoves
  import opened LdsLanes
  import opened LdsWave
  import opened LdsHandler
  import opened LdsMeaning

  const NONE := WordOf(0)

  // ---- Which lane --------------------------------------------------------------

  /** The lane an address names: its word, by the wave's lanes, which are a power of two. */
  function Named(a: nat, x: nat, lanes: nat): (l: nat)
    requires lanes > 0
    ensures l < lanes
  {
    Address(a, x) / 4 % lanes
  }

  function AllNamed(row: seq<Word>, x: nat): (t: seq<nat>)
    ensures |t| == |row| && forall l | 0 <= l < |t| :: t[l] < |row|
  {
    seq(|row|, l requires 0 <= l < |row| => Named(Value(row[l]), x, |row|))
  }

  /**
   What a swizzle's offset asks for: each of four lanes one of the four, a rotation of the 32, or three masks on the
   lane's number.
   */
  datatype Pattern = Quads(bits: nat) | Rotate(right: bool, steps: nat) | Masks(keep: nat, raised: nat, flip: nat)

  function Decode(pattern: nat): (p: Pattern)
    ensures p.Rotate? ==> p.steps < 32
  {
    if pattern / 0x100 % 0x100 == 0x80 then Quads(pattern)
    else if pattern / 0x2000 % 8 == 6 then Rotate(pattern / 0x400 % 2 == 1, pattern / 0x20 % 32)
    else Masks(pattern % 32, pattern / 0x20 % 32, pattern / 0x400 % 32)
  }

  /** Two bits of a quad's choices. */
  function Choice(bits: nat, k: nat): (c: nat)
    ensures c < 4
  {
    if k == 0 then bits % 4 else Choice(bits / 4, k - 1)
  }

  lemma {:induction false} EightFours(l: nat)
    ensures l / 32 == l / 4 / 8
  {
  }

  /** Lane c of the four that lane l is in. */
  function InFour(l: nat, c: nat): (r: nat)
    requires c < 4
    ensures r / 4 == l / 4 && r / 32 == l / 32
  {
    EightFours(l);
    EightFours(l / 4 * 4 + c);
    l / 4 * 4 + c
  }

  /** Lane m of the 32 that lane l is in. */
  function InGroup(l: nat, m: nat): (r: nat)
    requires m < 32
    ensures r / 32 == l / 32 && r % 32 == m
  {
    l / 32 * 32 + m
  }

  function Turned(l: nat, right: bool, steps: nat): (from: nat)
    ensures from / 32 == l / 32
  {
    InGroup(l, (if right then l - steps else l + steps) % 32)
  }

  /** One bit kept or not, then raised, then flipped. */
  function MaskBit(b: nat, keep: nat, raised: nat, flip: nat): (r: nat)
    requires flip < 2
    ensures r < 2
  {
    if (b == 1 && keep == 1) || raised == 1 then 1 - flip else flip
  }

  /** The low n bits of a number through the masks. */
  function MaskBits(m: nat, keep: nat, raised: nat, flip: nat, n: nat): nat {
    if n == 0 then 0
    else MaskBit(m % 2, keep % 2, raised % 2, flip % 2) + 2 * MaskBits(m / 2, keep / 2, raised / 2, flip / 2, n - 1)
  }

  lemma {:induction false} FiveBits(m: nat, keep: nat, raised: nat, flip: nat)
    ensures MaskBits(m, keep, raised, flip, 5) < 32
  {
    var m1, k1, r1, f1 := m / 2, keep / 2, raised / 2, flip / 2;
    var m2, k2, r2, f2 := m1 / 2, k1 / 2, r1 / 2, f1 / 2;
    var m3, k3, r3, f3 := m2 / 2, k2 / 2, r2 / 2, f2 / 2;
    assert MaskBits(m3 / 2, k3 / 2, r3 / 2, f3 / 2, 1) < 2;
    assert MaskBits(m3, k3, r3, f3, 2) < 4;
    assert MaskBits(m2, k2, r2, f2, 3) < 8;
    assert MaskBits(m1, k1, r1, f1, 4) < 16;
  }

  function Masked32(l: nat, keep: nat, raised: nat, flip: nat): (from: nat)
    ensures from / 32 == l / 32
  {
    FiveBits(l % 32, keep, raised, flip);
    InGroup(l, MaskBits(l % 32, keep, raised, flip, 5))
  }

  /** The lane that lane l reads under a swizzle. */
  function Through(p: Pattern, l: nat): (from: nat)
    ensures from / 32 == l / 32
  {
    match p
    case Quads(bits) => InFour(l, Choice(bits, l % 4))
    case Rotate(right, steps) => Turned(l, right, steps)
    case Masks(keep, raised, flip) => Masked32(l, keep, raised, flip)
  }

  /** A wave is whole groups of 32, so no lane of it reads past it. */
  function AllSwizzled(pattern: nat, lanes: nat): (t: seq<nat>)
    requires lanes % 32 == 0
    ensures |t| == lanes && forall l | 0 <= l < lanes :: t[l] < lanes
  {
    seq(lanes, l requires 0 <= l < lanes => Inside(l, Through(Decode(pattern), l), lanes))
  }

  function Inside(l: nat, from: nat, lanes: nat): (r: nat)
    requires lanes % 32 == 0 && l < lanes && from / 32 == l / 32
    ensures r == from < lanes
  {
    from
  }

  // ---- What the instructions do ------------------------------------------------

  datatype Cross = Fetch(addr: nat, data: nat, dst: nat, x: nat) | Swizzle(data: nat, dst: nat, pattern: nat)
      | Send(addr: nat, data: nat, dst: nat, x: nat)

  predicate CrossFits(s: State, op: Cross, lanes: nat) {
    && lanes > 0 && lanes % 32 == 0 && Shaped(s.regs, lanes) && op.data < |s.regs| && op.dst < |s.regs|
    && (!op.Swizzle? ==> op.addr < |s.regs|)
  }

  /** What each lane reads: the word of the lane it names, or nothing where that one is off. */
  function Fetched(data: seq<Word>, from: seq<nat>, ex: seq<bool>): (r: seq<Word>)
    requires |data| == |from| == |ex| && forall l | 0 <= l < |from| :: from[l] < |data|
    ensures |r| == |data|
  {
    seq(|data|, l requires 0 <= l < |data| => if ex[from[l]] then data[from[l]] else NONE)
  }

  /** What each lane is sent by the first n lanes: the ones that are on, one after another. */
  function Sent(data: seq<Word>, to: seq<nat>, ex: seq<bool>, n: nat): (r: seq<Word>)
    requires |data| == |to| == |ex| && n <= |data| && forall l | 0 <= l < |to| :: to[l] < |data|
    ensures |r| == |data|
  {
    if n == 0 then seq(|data|, _ => NONE)
    else
      var p := Sent(data, to, ex, n - 1);
      if ex[n - 1] then p[to[n - 1] := data[n - 1]] else p
  }

  function Moved(s: State, op: Cross, ex: seq<bool>): (r: seq<Word>)
    requires CrossFits(s, op, |ex|)
    ensures |r| == |ex|
  {
    match op
    case Fetch(addr, data, _, x) => Fetched(s.regs[data], AllNamed(s.regs[addr], x), ex)
    case Swizzle(data, _, pattern) => Fetched(s.regs[data], AllSwizzled(pattern, |ex|), ex)
    case Send(addr, data, _, x) => Sent(s.regs[data], AllNamed(s.regs[addr], x), ex, |ex|)
  }

  /** The row's lanes that are on, replaced. */
  function Masked(row: seq<Word>, now: seq<Word>, ex: seq<bool>): (r: seq<Word>)
    requires |row| == |now| == |ex|
    ensures |r| == |row|
  {
    seq(|row|, l requires 0 <= l < |row| => if ex[l] then now[l] else row[l])
  }

  /** All the data is as it was before the instruction, whatever rows it shares. */
  function Crossed(s: State, op: Cross, ex: seq<bool>): State
    requires CrossFits(s, op, |ex|)
  {
    s.(regs := s.regs[op.dst := Masked(s.regs[op.dst], Moved(s, op, ex), ex)])
  }

  // ---- What it means -----------------------------------------------------------

  /** The last lane that is on and sends to lane l. */
  predicate LastSender(to: seq<nat>, ex: seq<bool>, l: nat, n: nat, from: nat)
    requires |to| == |ex| && n <= |ex|
  {
    from < n && ex[from] && to[from] == l && forall k | from < k < n && ex[k] :: to[k] != l
  }

  /** A lane ends with what the highest-numbered of its senders sent, and with nothing where it has none. */
  lemma {:induction false} HighestSenderWins(data: seq<Word>, to: seq<nat>, ex: seq<bool>, n: nat, l: nat)
    requires |data| == |to| == |ex| && n <= |data| && l < |data| && forall k | 0 <= k < |to| :: to[k] < |data|
    ensures forall from | 0 <= from < n && LastSender(to, ex, l, n, from) :: Sent(data, to, ex, n)[l] == data[from]
    ensures (forall k | 0 <= k < n && ex[k] :: to[k] != l) ==> Sent(data, to, ex, n)[l] == NONE
  {
    if n > 0 {
      HighestSenderWins(data, to, ex, n - 1, l);
      forall from | 0 <= from < n && LastSender(to, ex, l, n, from)
        ensures Sent(data, to, ex, n)[l] == data[from]
      {
        if from < n - 1 {
          assert LastSender(to, ex, l, n - 1, from);
        }
      }
    }
  }

  /** Sending to places of one's own and then fetching from them gives every lane its word back. */
  lemma {:induction false} FetchUndoesSend(data: seq<Word>, to: seq<nat>, ex: seq<bool>)
    requires |data| == |to| == |ex| && AllOn(ex) && (forall l | 0 <= l < |to| :: to[l] < |data|)
    requires forall i, k | 0 <= i < k < |to| :: to[i] != to[k]
    ensures Fetched(Sent(data, to, ex, |data|), to, ex) == data
  {
    var sent := Sent(data, to, ex, |data|);
    forall l | 0 <= l < |data|
      ensures Fetched(sent, to, ex)[l] == data[l]
    {
      HighestSenderWins(data, to, ex, |data|, to[l]);
      assert LastSender(to, ex, to[l], |data|, l);
    }
  }

  /** Of two fetches, the second undoes the first where its lane map does. */
  lemma {:induction false} FetchUndoesFetch(data: seq<Word>, there: seq<nat>, back: seq<nat>, ex: seq<bool>)
    requires |data| == |there| == |back| == |ex| && AllOn(ex)
    requires forall l | 0 <= l < |data| :: there[l] < |data| && back[l] < |data|
    requires forall l | 0 <= l < |data| :: there[back[l]] == l
    ensures Fetched(Fetched(data, there, ex), back, ex) == data
  {
  }

  /** One swizzle undoes another: one that only flips bits itself, and a rotation the one the other way. */
  predicate Undoes(other: Pattern, p: Pattern) {
    (p.Masks? && p.keep == 31 && p.raised == 0 && other == p) || (p.Rotate? && other == Rotate(!p.right, p.steps))
  }

  lemma {:induction false} SwizzleUndone(pattern: nat, other: nat, data: seq<Word>, ex: seq<bool>)
    requires |data| == |ex| && |ex| % 32 == 0 && AllOn(ex) && Undoes(Decode(other), Decode(pattern))
    ensures Fetched(Fetched(data, AllSwizzled(pattern, |ex|), ex), AllSwizzled(other, |ex|), ex) == data
  {
    var there, back := AllSwizzled(pattern, |ex|), AllSwizzled(other, |ex|);
    forall l | 0 <= l < |data|
      ensures there[back[l]] == l
    {
      ThroughAndBack(Decode(pattern), Decode(other), l);
    }
    FetchUndoesFetch(data, there, back, ex);
  }

  lemma {:induction false} ThroughAndBack(p: Pattern, other: Pattern, l: nat)
    requires Undoes(other, p) && (p.Rotate? ==> p.steps < 32)
    ensures Through(p, Through(other, l)) == l
  {
    if p.Masks? {
      FlipTwice(l, p.flip);
    } else {
      TurnBack(l, p.steps, p.right);
    }
  }

  function Ones(n: nat): nat { if n == 0 then 0 else 1 + 2 * Ones(n - 1) }

  /** Bits that are only flipped, flipped again. */
  lemma {:induction false} FlipBitsTwice(m: nat, flip: nat, n: nat)
    requires m <= Ones(n)
    ensures MaskBits(MaskBits(m, Ones(n), 0, flip, n), Ones(n), 0, flip, n) == m
  {
    if n > 0 {
      var once := MaskBits(m, Ones(n), 0, flip, n);
      FlipFirst(m, flip, n);
      FlipFirst(once, flip, n);
      FlipBitsTwice(m / 2, flip / 2, n - 1);
      FlippedTwice(m, once, flip, MaskBits(once, Ones(n), 0, flip, n));
    }
  }

  lemma {:induction false} FlippedTwice(m: nat, once: nat, flip: nat, r: nat)
    requires once % 2 == (m % 2 + flip % 2) % 2 && r % 2 == (once % 2 + flip % 2) % 2 && r / 2 == m / 2
    ensures r == m
  {
  }

  lemma {:induction false} FlipFirst(m: nat, flip: nat, n: nat)
    requires n > 0
    ensures var r := MaskBits(m, Ones(n), 0, flip, n);
            r % 2 == (m % 2 + flip % 2) % 2 && r / 2 == MaskBits(m / 2, Ones(n - 1), 0, flip / 2, n - 1)
  {
    Halves(1, Ones(n - 1));
    FlipBit(m % 2, flip % 2);
    Halves(MaskBit(m % 2, 1, 0, flip % 2), MaskBits(m / 2, Ones(n - 1), 0, flip / 2, n - 1));
  }

  lemma {:induction false} Halves(b: nat, k: nat)
    requires b < 2
    ensures (b + 2 * k) % 2 == b && (b + 2 * k) / 2 == k
  {
  }

  lemma {:induction false} FlipBit(b: nat, flip: nat)
    requires b < 2 && flip < 2
    ensures MaskBit(b, 1, 0, flip) == (b + flip) % 2
  {
  }

  lemma {:induction false} FlipTwice(l: nat, flip: nat)
    ensures Masked32(Masked32(l, 31, 0, flip), 31, 0, flip) == l
  {
    assert Ones(3) == 7 && Ones(4) == 15 && Ones(5) == 31;
    FiveBits(l % 32, 31, 0, flip);
    FlipBitsTwice(l % 32, flip, 5);
  }

  lemma {:induction false} TurnBack(l: nat, steps: nat, right: bool)
    requires steps < 32
    ensures Turned(Turned(l, !right, steps), right, steps) == l
  {
    Steps(l, if right then steps as int else 0 - steps);
    Steps(Turned(l, !right, steps), if right then 0 - steps else steps as int);
  }

  /** Less than 32 steps go round at most once. */
  lemma {:induction false} Steps(l: nat, d: int)
    requires -32 < d < 32
    ensures var r := l % 32 + d; (l + d) % 32 == if r < 0 then r + 32 else if r >= 32 then r - 32 else r
  {
    assert l == 32 * (l / 32) + l % 32;
  }

  // ---- Which lane, from the words ----------------------------------------------

  /** Lane k's four bytes, of a wave's bytes going round, are where the register's number and an offset point. */
  ghost predicate NamesLane(w: Word, x: nat, lanes: nat, k: nat)
    requires lanes > 0
  {
    exists a: nat :: Addressed(w, x, a) && 4 * k <= a % (4 * lanes) < 4 * k + 4
  }

  lemma {:induction false} NamesLaneIs(w: Word, x: nat, lanes: nat, k: nat)
    requires lanes > 0
    ensures NamesLane(w, x, lanes, k) <==> k == Named(Value(w), x, lanes)
  {
    var a := Address(Value(w), x);
    AddressedIs(w, x, a);
    LaneOfByte(a, lanes);
    if NamesLane(w, x, lanes, k) {
      var b: nat :| Addressed(w, x, b) && 4 * k <= b % (4 * lanes) < 4 * k + 4;
      AddressedIs(w, x, b);
    }
  }

  lemma {:induction false} LaneOfByte(a: nat, lanes: nat)
    requires lanes > 0
    ensures 4 * (a / 4 % lanes) <= a % (4 * lanes) < 4 * (a / 4 % lanes) + 4
  {
    var q, k := a / 4 / lanes, a / 4 % lanes;
    assert a / 4 == lanes * q + k;
    assert a == (4 * lanes) * q + (4 * k + a % 4);
    QuotientIs(a, 4 * lanes, q, 4 * k + a % 4);
  }

  /** A fetch gives each lane that is on the word of the lane its address names, or zero where that lane is off. */
  lemma {:induction false} FetchMoves(s: State, op: Cross, ex: seq<bool>, l: nat, k: nat)
    requires op.Fetch? && CrossFits(s, op, |ex|) && l < |ex| && ex[l] && k < |ex|
    requires NamesLane(s.regs[op.addr][l], op.x, |ex|, k)
    ensures Crossed(s, op, ex).regs[op.dst][l].bytes == if ex[k] then s.regs[op.data][k].bytes else [0, 0, 0, 0]
  {
    NamesLaneIs(s.regs[op.addr][l], op.x, |ex|, k);
  }

  /**
   A send gives a lane that is on the word of the last lane that is on and names it, and zero where none does.
   */
  lemma {:induction false} SendMoves(s: State, op: Cross, ex: seq<bool>, l: nat, k: nat)
    requires op.Send? && CrossFits(s, op, |ex|) && l < |ex| && ex[l] && k < |ex| && ex[k]
    requires NamesLane(s.regs[op.addr][l], op.x, |ex|, k)
    requires forall m | l < m < |ex| && ex[m] :: !NamesLane(s.regs[op.addr][m], op.x, |ex|, k)
    ensures Crossed(s, op, ex).regs[op.dst][k] == s.regs[op.data][l]
  {
    var to := AllNamed(s.regs[op.addr], op.x);
    NamesLaneIs(s.regs[op.addr][l], op.x, |ex|, k);
    forall m | l < m < |ex| && ex[m]
      ensures to[m] != k
    {
      NamesLaneIs(s.regs[op.addr][m], op.x, |ex|, k);
    }
    assert LastSender(to, ex, k, |ex|, l);
    HighestSenderWins(s.regs[op.data], to, ex, |ex|, k);
  }

  lemma {:induction false} UnnamedGetsZero(s: State, op: Cross, ex: seq<bool>, k: nat)
    requires op.Send? && CrossFits(s, op, |ex|) && k < |ex| && ex[k]
    requires forall m | 0 <= m < |ex| && ex[m] :: !NamesLane(s.regs[op.addr][m], op.x, |ex|, k)
    ensures Crossed(s, op, ex).regs[op.dst][k].bytes == [0, 0, 0, 0]
  {
    var to := AllNamed(s.regs[op.addr], op.x);
    forall m | 0 <= m < |ex| && ex[m]
      ensures to[m] != k
    {
      NamesLaneIs(s.regs[op.addr][m], op.x, |ex|, k);
    }
    HighestSenderWins(s.regs[op.data], to, ex, |ex|, k);
  }

  /** No other register changes, nor any lane that is off, nor the LDS. */
  lemma {:induction false} CrossesNothingElse(s: State, op: Cross, ex: seq<bool>, r: nat, l: nat)
    requires CrossFits(s, op, |ex|) && r < |s.regs| && l < |ex| && (r != op.dst || !ex[l])
    ensures var t := Crossed(s, op, ex);
            t.lds == s.lds && |t.regs| == |s.regs| && l < |t.regs[r]| && t.regs[r][l] == s.regs[r][l]
  {
  }

  /**
   The lane a swizzle's offset names, by its bits: of four lanes, the one two bits of the offset choose; of 32, the one
   so many on or back; or the one whose number is the lane's with each bit kept or cleared, raised and flipped.
   */
  predicate SwizzleNames(pattern: nat, l: nat, k: nat) {
    if pattern / 0x100 % 0x100 == 0x80 then
      && k / 4 == l / 4
      && k % 4 == match l % 4
                  case 0 => pattern % 4
                  case 1 => pattern / 4 % 4
                  case 2 => pattern / 16 % 4
                  case _ => pattern / 64 % 4
    else if pattern / 0x2000 % 8 == 6 then
      && k / 32 == l / 32
      && if Bit(pattern, 10) == 1 then (k + pattern / 0x20 % 32) % 32 == l % 32
         else (l + pattern / 0x20 % 32) % 32 == k % 32
    else
      && k / 32 == l / 32
      && forall j | 0 <= j < 5 :: MasksBit(pattern, l, k, j)
  }

  /**
   Bit j of lane k is bit j of lane l, kept by the offset's bit j, raised by its bit 5 + j, flipped by its bit 10 + j.
   */
  predicate MasksBit(pattern: nat, l: nat, k: nat, j: nat) {
    var raised := (Bit(l, j) == 1 && Bit(pattern, j) == 1) || Bit(pattern, 5 + j) == 1;
    (Bit(k, j) == 1) == (raised != (Bit(pattern, 10 + j) == 1))
  }

  lemma {:induction false} QuadNames(pattern: nat, l: nat, k: nat)
    requires pattern / 0x100 % 0x100 == 0x80
    ensures SwizzleNames(pattern, l, k) <==> k == Through(Decode(pattern), l)
  {
    Choices(pattern);
    assert k == k / 4 * 4 + k % 4;
  }

  lemma {:induction false} Choices(bits: nat)
    ensures Choice(bits, 0) == bits % 4 && Choice(bits, 1) == bits / 4 % 4
    ensures Choice(bits, 2) == bits / 16 % 4 && Choice(bits, 3) == bits / 64 % 4
  {
    assert bits / 4 / 4 == bits / 16 && bits / 16 / 4 == bits / 64;
    assert Choice(bits, 1) == Choice(bits / 4, 0);
    assert Choice(bits, 2) == Choice(bits / 4, 1) == Choice(bits / 16, 0);
    assert Choice(bits, 3) == Choice(bits / 4, 2) == Choice(bits / 16, 1) == Choice(bits / 64, 0);
  }

  lemma {:induction false} TurnNames(pattern: nat, l: nat, k: nat)
    requires pattern / 0x100 % 0x100 != 0x80 && pattern / 0x2000 % 8 == 6
    ensures SwizzleNames(pattern, l, k) <==> k == Through(Decode(pattern), l)
  {
    var steps := pattern / 0x20 % 32;
    TenthBit(pattern);
    TurnIs(l, k, steps, Bit(pattern, 10) == 1);
  }

  lemma {:induction false} TenthBit(pattern: nat)
    ensures Bit(pattern, 10) == pattern / 0x400 % 2
  {
    LowBits(pattern);
    assert Bit(pattern, 5 + 5) == Bit(pattern / 32, 5);
    LowBits(pattern / 32);
    assert Bit(pattern / 32, 0 + 5) == Bit(pattern / 32 / 32, 0);
    assert pattern / 32 / 32 == pattern / 0x400;
  }

  lemma {:induction false} TurnIs(l: nat, k: nat, steps: nat, right: bool)
    requires steps < 32
    ensures k / 32 == l / 32 && (if right then (k + steps) % 32 == l % 32 else (l + steps) % 32 == k % 32) <==>
              k == Turned(l, right, steps)
  {
    if right {
      Steps(k, steps as int);
      Steps(l, 0 - steps);
    }
    assert k == k / 32 * 32 + k % 32;
  }

  lemma {:induction false} MaskNames(pattern: nat, l: nat, k: nat)
    requires pattern / 0x100 % 0x100 != 0x80 && pattern / 0x2000 % 8 != 6
    ensures SwizzleNames(pattern, l, k) <==> k == Through(Decode(pattern), l)
  {
    var keep, raised, flip := pattern % 32, pattern / 0x20 % 32, pattern / 0x400 % 32;
    var m := MaskBits(l % 32, keep, raised, flip, 5);
    FiveBits(l % 32, keep, raised, flip);
    forall j | 0 <= j < 5
      ensures MasksBit(pattern, l, k, j) <==> Bit(k % 32, j) == Bit(m, j)
    {
      FieldBits(pattern, j);
      BitOf32(l, j);
      BitOf32(k, j);
      BitOf32(pattern, j);
      BitOf32(pattern / 0x20, j);
      BitOf32(pattern / 0x400, j);
      MaskBitsAt(l % 32, keep, raised, flip, 5, j);
    }
    if SwizzleNames(pattern, l, k) {
      assert Ones(3) == 7 && Ones(4) == 15 && Ones(5) == 31;
      SameBits(k % 32, m, 5);
    }
    assert k == k / 32 * 32 + k % 32;
  }

  lemma {:induction false} FieldBits(pattern: nat, j: nat)
    ensures Bit(pattern, 5 + j) == Bit(pattern / 0x20, j) && Bit(pattern, 10 + j) == Bit(pattern / 0x400, j)
  {
    LowBits(pattern);
    LowBits(pattern / 0x20);
    assert Bit(pattern, j + 5) == Bit(pattern / 0x20, j);
    assert Bit(pattern, (j + 5) + 5) == Bit(pattern / 0x20, j + 5) == Bit(pattern / 0x20 / 0x20, j);
    assert pattern / 0x20 / 0x20 == pattern / 0x400;
  }

  lemma {:induction false} BitOf32(n: nat, j: nat)
    requires j < 5
    ensures Bit(n % 32, j) == Bit(n, j)
  {
    BitBelow(n % 32, n / 32, 5, j);
    var q := n / 32;
    assert Doubled(q, 1) == 2 * Doubled(q, 0) && Doubled(q, 2) == 2 * Doubled(q, 1);
    assert Doubled(q, 3) == 2 * Doubled(q, 2) && Doubled(q, 4) == 2 * Doubled(q, 3);
    assert n == n % 32 + Doubled(q, 5);
  }

  function Doubled(q: nat, w: nat): nat { if w == 0 then q else 2 * Doubled(q, w - 1) }

  /** What is above w bits does not change them. */
  lemma {:induction false} BitBelow(m: nat, q: nat, w: nat, j: nat)
    requires j < w
    ensures Bit(m + Doubled(q, w), j) == Bit(m, j)
  {
    if j > 0 {
      BitBelow(m / 2, q, w - 1, j - 1);
      assert (m + Doubled(q, w)) / 2 == m / 2 + Doubled(q, w - 1);
    }
  }

  lemma {:induction false} MaskBitsAt(m: nat, keep: nat, raised: nat, flip: nat, n: nat, j: nat)
    requires j < n
    ensures Bit(MaskBits(m, keep, raised, flip, n), j) == MaskBit(Bit(m, j), Bit(keep, j), Bit(raised, j), Bit(flip, j))
  {
    if j > 0 {
      MaskBitsAt(m / 2, keep / 2, raised / 2, flip / 2, n - 1, j - 1);
    }
  }

  lemma {:induction false} SameBits(m: nat, n: nat, w: nat)
    requires m <= Ones(w) && n <= Ones(w) && forall j | 0 <= j < w :: Bit(m, j) == Bit(n, j)
    ensures m == n
  {
    if w > 0 {
      forall j | 0 <= j < w - 1
        ensures Bit(m / 2, j) == Bit(n / 2, j)
      {
        assert Bit(m, j + 1) == Bit(n, j + 1);
      }
      SameBits(m / 2, n / 2, w - 1);
      assert Bit(m, 0) == Bit(n, 0);
    }
  }

  /** A swizzle gives each lane that is on the word of the lane its offset names, or zero where that lane is off. */
  lemma {:induction false} SwizzleMoves(s: State, op: Cross, ex: seq<bool>, l: nat, k: nat)
    requires op.Swizzle? && CrossFits(s, op, |ex|) && l < |ex| && ex[l] && k < |ex| && SwizzleNames(op.pattern, l, k)
    ensures Crossed(s, op, ex).regs[op.dst][l].bytes == if ex[k] then s.regs[op.data][k].bytes else [0, 0, 0, 0]
  {
    if op.pattern / 0x100 % 0x100 == 0x80 {
      QuadNames(op.pattern, l, k);
    } else if op.pattern / 0x2000 % 8 == 6 {
      TurnNames(op.pattern, l, k);
    } else {
      MaskNames(op.pattern, l, k);
    }
    FetchedAt(s.regs[op.data], AllSwizzled(op.pattern, |ex|), ex, l, k);
  }

  // ---- The handlers ------------------------------------------------------------

  function RowOf(v: array2<Word>, row: nat): (r: seq<Word>)
    requires row < v.Length0
    reads v
    ensures r == RegsOf(v)[row]
  {
    seq(v.Length1, l requires 0 <= l < v.Length1 reads v => v[row, l])
  }

  /** The row as it is once lanes below n are done. */
  ghost predicate DoneTo(now: Regs, was: Regs, dst: nat, words: seq<Word>, ex: seq<bool>, n: nat) {
    && |now| == |was| && Shaped(now, |ex|) && Shaped(was, |ex|) && |words| == |ex|
    && forall r, l | 0 <= r < |now| && 0 <= l < |ex| :: DoneAt(now, was, dst, words, ex, n, r, l)
  }

  ghost predicate DoneAt(now: Regs, was: Regs, dst: nat, words: seq<Word>, ex: seq<bool>, n: nat, r: nat, l: nat)
    requires r < |now| == |was| && l < |ex| == |words| == |now[r]| == |was[r]|
  {
    now[r][l] == if r == dst && l < n && ex[l] then words[l] else was[r][l]
  }

  lemma {:induction false} AllDone(now: Regs, was: Regs, dst: nat, words: seq<Word>, ex: seq<bool>)
    requires dst < |was| && DoneTo(now, was, dst, words, ex, |ex|)
    ensures now == was[dst := Masked(was[dst], words, ex)]
  {
    var full := was[dst := Masked(was[dst], words, ex)];
    forall r, l | 0 <= r < |now| && 0 <= l < |now[r]|
      ensures |now[r]| == |full[r]| && now[r][l] == full[r][l]
    {
      assert DoneAt(now, was, dst, words, ex, |ex|, r, l);
    }
    SameRegs(now, full);
  }

  lemma {:induction false} LaneDone(now: Regs, was: Regs, dst: nat, words: seq<Word>, ex: seq<bool>, l: nat)
    requires dst < |was| && l < |ex| && DoneTo(now, was, dst, words, ex, l)
    ensures DoneTo(if ex[l] then SetLane(now, dst, [words[l]], l) else now, was, dst, words, ex, l + 1)
  {
    var next, n := if ex[l] then SetLane(now, dst, [words[l]], l) else now, l + 1;
    forall r, k | 0 <= r < |next| && 0 <= k < |ex|
      ensures DoneAt(next, was, dst, words, ex, n, r, k)
    {
      assert DoneAt(now, was, dst, words, ex, l, r, k);
    }
  }

  /** One lane of the row written; the lanes after it are as they were, in that row too. */
  method PutLane(v: array2<Word>, dst: nat, l: nat, w: Word, ghost was: Regs, ghost words: seq<Word>,
                 ghost ex: seq<bool>)
    requires dst < v.Length0 && l < v.Length1 == |ex| && DoneTo(RegsOf(v), was, dst, words, ex, l) && ex[l]
             && words[l] == w
    modifies v
    ensures DoneTo(RegsOf(v), was, dst, words, ex, l + 1)
  {
    LaneDone(RegsOf(v), was, dst, words, ex, l);
    SetWords(v, dst, [w], l);
  }

  /** The lanes below n have moved. */
  ghost predicate CrossedTo(now: Regs, s: State, op: Cross, ex: seq<bool>, n: nat) {
    CrossFits(s, op, |ex|) && DoneTo(now, s.regs, op.dst, Moved(s, op, ex), ex, n)
  }

  lemma {:induction false} NoneCrossed(s: State, op: Cross, ex: seq<bool>)
    requires CrossFits(s, op, |ex|)
    ensures CrossedTo(s.regs, s, op, ex, 0)
  {
  }

  lemma {:induction false} OffIsPassed(now: Regs, s: State, op: Cross, ex: seq<bool>, l: nat)
    requires CrossedTo(now, s, op, ex, l) && l < |ex| && !ex[l]
    ensures CrossedTo(now, s, op, ex, l + 1)
  {
    LaneDone(now, s.regs, op.dst, Moved(s, op, ex), ex, l);
  }

  lemma {:induction false} AllCrossed(now: Regs, s: State, op: Cross, ex: seq<bool>)
    requires CrossedTo(now, s, op, ex, |ex|)
    ensures now == Crossed(s, op, ex).regs
  {
    AllDone(now, s.regs, op.dst, Moved(s, op, ex), ex);
  }

  lemma {:induction false} FetchedAt(data: seq<Word>, from: seq<nat>, ex: seq<bool>, l: nat, k: nat)
    requires |data| == |from| == |ex| && l < |data| && from[l] == k && forall i | 0 <= i < |from| :: from[i] < |data|
    ensures Fetched(data, from, ex)[l] == if ex[k] then data[k] else NONE
  {
  }

  /**
   kDsBperm: with every lane on no lane tests its source, and otherwise each does. The address row may be the one
   written.
   */
  method DoFetch(v: array2<Word>, op: Cross, ex: seq<bool>, ghost s: State)
    requires op.Fetch? && |ex| == v.Length1 && RegsOf(v) == s.regs && CrossFits(s, op, |ex|)
    modifies v
    ensures RegsOf(v) == Crossed(s, op, ex).regs
  {
    var before := RowOf(v, op.data);
    NoneCrossed(s, op, ex);
    var all := AllOn(ex);
    for l := 0 to |ex|
      invariant CrossedTo(RegsOf(v), s, op, ex, l)
    {
      if all || ex[l] {
        FetchLane(v, op, l, before, all, ex, s);
      } else {
        OffIsPassed(RegsOf(v), s, op, ex, l);
      }
    }
    AllCrossed(RegsOf(v), s, op, ex);
  }

  method FetchLane(v: array2<Word>, op: Cross, l: nat, before: seq<Word>, all: bool, ex: seq<bool>, ghost s: State)
    requires op.Fetch? && l < |ex| == v.Length1 && CrossedTo(RegsOf(v), s, op, ex, l)
    requires before == s.regs[op.data] && ex[l] && all == AllOn(ex)
    modifies v
    ensures CrossedTo(RegsOf(v), s, op, ex, l + 1)
  {
    assert DoneAt(RegsOf(v), s.regs, op.dst, Moved(s, op, ex), ex, l, op.addr, l);
    var from := Named(Value(v[op.addr, l]), op.x, |ex|);
    FetchedAt(s.regs[op.data], AllNamed(s.regs[op.addr], op.x), ex, l, from);
    PutLane(v, op.dst, l, if all || ex[from] then before[from] else NONE, s.regs, Moved(s, op, ex), ex);
  }

  /** ds_swizzle_run. */
  method DoSwizzle(v: array2<Word>, op: Cross, ex: seq<bool>, ghost s: State)
    requires op.Swizzle? && |ex| == v.Length1 && RegsOf(v) == s.regs && CrossFits(s, op, |ex|)
    modifies v
    ensures RegsOf(v) == Crossed(s, op, ex).regs
  {
    var before := RowOf(v, op.data);
    NoneCrossed(s, op, ex);
    for l := 0 to |ex|
      invariant CrossedTo(RegsOf(v), s, op, ex, l)
    {
      if ex[l] {
        SwizzleLane(v, op, l, before, ex, s);
      } else {
        OffIsPassed(RegsOf(v), s, op, ex, l);
      }
    }
    AllCrossed(RegsOf(v), s, op, ex);
  }

  method SwizzleLane(v: array2<Word>, op: Cross, l: nat, before: seq<Word>, ex: seq<bool>, ghost s: State)
    requires op.Swizzle? && l < |ex| == v.Length1 && CrossedTo(RegsOf(v), s, op, ex, l)
    requires before == s.regs[op.data] && ex[l]
    modifies v
    ensures CrossedTo(RegsOf(v), s, op, ex, l + 1)
  {
    var from := Inside(l, Through(Decode(op.pattern), l), |ex|);
    FetchedAt(s.regs[op.data], AllSwizzled(op.pattern, |ex|), ex, l, from);
    PutLane(v, op.dst, l, if ex[from] then before[from] else NONE, s.regs, Moved(s, op, ex), ex);
  }

  /** ds_permute_run: everything is sent before any lane is written, so the written row may be either of the others. */
  method DoSend(v: array2<Word>, op: Cross, ex: seq<bool>, ghost s: State)
    requires op.Send? && |ex| == v.Length1 && RegsOf(v) == s.regs && CrossFits(s, op, |ex|)
    modifies v
    ensures RegsOf(v) == Crossed(s, op, ex).regs
  {
    var sent := SendAll(v, op, ex, s);
    NoneCrossed(s, op, ex);
    for l := 0 to |ex|
      invariant CrossedTo(RegsOf(v), s, op, ex, l)
    {
      if ex[l] {
        PutLane(v, op.dst, l, sent[l], s.regs, Moved(s, op, ex), ex);
      } else {
        OffIsPassed(RegsOf(v), s, op, ex, l);
      }
    }
    AllCrossed(RegsOf(v), s, op, ex);
  }

  method SendAll(v: array2<Word>, op: Cross, ex: seq<bool>, ghost s: State) returns (words: seq<Word>)
    requires op.Send? && |ex| == v.Length1 && RegsOf(v) == s.regs && CrossFits(s, op, |ex|)
    ensures words == Sent(s.regs[op.data], AllNamed(s.regs[op.addr], op.x), ex, |ex|)
  {
    ghost var data, to := s.regs[op.data], AllNamed(s.regs[op.addr], op.x);
    var sent := new Word[|ex|](_ => NONE);
    for l := 0 to |ex|
      invariant sent[..] == Sent(data, to, ex, l)
    {
      if ex[l] {
        assert v[op.addr, l] == s.regs[op.addr][l];
        sent[Named(Value(v[op.addr, l]), op.x, |ex|)] := v[op.data, l];
      }
    }
    words := sent[..];
  }

  // ---- All of h_ds -------------------------------------------------------------

  datatype Instruction = Access(op: Op) | Between(cross: Cross)

  /** A wave's side of the store gate. */
  class Wave {
    var gate: bool
    var softYield: bool
  }

  /** The stores that take the gate: ds_add_u32 is not one. */
  predicate TakesGate(i: Instruction) { i.Access? && (i.op.form == Write || i.op.form == Write2) }

  predicate InstructionFits(s: State, i: Instruction, lanes: nat) {
    match i
    case Access(op) => lanes % 4 == 0 && Ready(s, op, lanes) && op.x0 < LIMIT && op.x1 < LIMIT && op.words > 0
                       && (op.Two() ==> op.words == 1)
    case Between(cross) => CrossFits(s, cross, lanes)
  }

  /** What an instruction that runs does. */
  function Meaning(s: State, i: Instruction, ex: seq<bool>): Result
    requires InstructionFits(s, i, |ex|)
  {
    match i
    case Access(op) => Reference(s, op, ex)
    case Between(cross) => Done(Crossed(s, cross, ex))
  }

  /**
   h_ds: 3 for a store that waits, with the gate taken and nothing else changed, so that the same store runs when it
   comes again; 0 for one handed back, with nothing changed; and 1 for one that has run, as its meaning says.
   */
  method Handle(v: array2<Word>, lds: array<Byte>, w: Wave, waves: nat, i: Instruction, ex: seq<bool>)
    returns (code: nat)
    requires |ex| == v.Length1 && InstructionFits(StateOf(v, lds), i, |ex|)
    modifies v, lds, w
    ensures code == 3 <==> TakesGate(i) && old(w.gate) && waves > 1 && exists l | 0 <= l < |ex| :: ex[l]
    ensures w.gate == (old(w.gate) && code != 3) && w.softYield == (old(w.softYield) || code == 3)
    ensures code == 0 || code == 1 || code == 3
    ensures code != 1 ==> StateOf(v, lds) == old(StateOf(v, lds))
    ensures code != 3 ==> Meaning(old(StateOf(v, lds)), i, ex) == if code == 1 then Done(StateOf(v, lds))
            else HandedBack
  {
    if TakesGate(i) && w.gate && waves > 1 && (exists l | 0 <= l < |ex| :: ex[l]) {
      w.gate, w.softYield := false, true;
      return 3;
    }
    match i
    case Access(op) =>
      var done := HandleDs(v, lds, op, ex);
      return if done then 1 else 0;
    case Between(cross) =>
      DoCross(v, lds, cross, ex);
      return 1;
  }

  method DoCross(v: array2<Word>, lds: array<Byte>, op: Cross, ex: seq<bool>)
    requires |ex| == v.Length1 && CrossFits(StateOf(v, lds), op, |ex|)
    modifies v
    ensures StateOf(v, lds) == Crossed(old(StateOf(v, lds)), op, ex)
  {
    ghost var s := StateOf(v, lds);
    match op {
      case Fetch(_, _, _, _) => DoFetch(v, op, ex, s);
      case Swizzle(_, _, _) => DoSwizzle(v, op, ex, s);
      case Send(_, _, _, _) => DoSend(v, op, ex, s);
    }
  }
}
