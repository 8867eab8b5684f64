/**
 LDS accesses of a wave: what each instruction form means, lane by lane in lane order. Registers are words of four bytes
 and the LDS is bytes, so lanes' accesses may overlap at any byte; the rows an instruction writes may include the row
 its addresses come from.
 */
module Lds {
  import opened Basics
  import opened Powers

  /** Four bytes, little-endian. */
  datatype RawWord = RawWord(bytes: seq<Byte>)

  type Word = w: RawWord | |w.bytes| == 4 witness RawWord([0, 0, 0, 0])

  function WordFrom(b0: Byte, b1: Byte, b2: Byte, b3: Byte): Word { RawWord([b0, b1, b2, b3]) }

  function Value(w: Word): nat {
    var b0: int, b1: int, b2: int, b3: int := w.bytes[0], w.bytes[1], w.bytes[2], w.bytes[3];
    b0 + 0x100 * b1 + 0x10000 * b2 + 0x1000000 * b3
  }

  const LIMIT := 0x1_0000_0000

  function WordOf(n: nat): Word { WordFrom(n % 0x100, n / 0x100 % 0x100, n / 0x10000 % 0x100, n / 0x1000000 % 0x100) }

  /** A lane's address: 32-bit addition. */
  function Address(base: nat, x: nat): (a: nat)
    ensures a < LIMIT
  {
    (base + x) % LIMIT
  }

  function BytesOf(ws: seq<Word>): (b: seq<Byte>)
    ensures |b| == 4 * |ws|
  {
    if ws == [] then [] else ws[0].bytes + BytesOf(ws[1..])
  }

  function WordAt(m: seq<Byte>, a: nat): Word
    requires a + 4 <= |m|
  {
    WordFrom(m[a], m[a + 1], m[a + 2], m[a + 3])
  }

  /** Bytes b stored from a on, one after another. */
  function Put(m: seq<Byte>, a: nat, b: seq<Byte>): (r: seq<Byte>)
    requires a + |b| <= |m|
    ensures |r| == |m|
    decreases |b|
  {
    if b == [] then m else Put(m[a := b[0]], a + 1, b[1..])
  }

  lemma {:induction false} PutBytes(m: seq<Byte>, a: nat, b: seq<Byte>)
    requires a + |b| <= |m|
    ensures forall i | 0 <= i < |m| :: Put(m, a, b)[i] == if a <= i < a + |b| then b[i - a] else m[i]
    decreases |b|
  {
    if b != [] {
      PutBytes(m[a := b[0]], a + 1, b[1..]);
    }
  }

  type Regs = seq<seq<Word>>

  /** Every row has a word for each lane. */
  predicate Shaped(regs: Regs, lanes: nat) { forall r | 0 <= r < |regs| :: |regs[r]| == lanes }

  /**
   The forms of h_ds and of the two-value handlers: `Read2` and `Write2` move two values of `words` words at two
   offsets.
   */
  datatype Form = Read | Write | Read2 | Write2 | Add

  datatype Op = Op(form: Form, words: nat, addr: nat, dst: nat, src: nat, src2: nat, x0: nat, x1: nat)
  {
    predicate Two() { form == Read2 || form == Write2 }
    predicate Loads() { form == Read || form == Read2 }
    /** The bytes one value takes. */
    function Span(): nat { if form == Add then 4 else 4 * words }
    /** How many rows a load fills. */
    function Rows(): nat { if form == Read2 then 2 * words else words }

    predicate Fits(rows: nat) {
      && addr < rows
      && (form == Read ==> dst + words <= rows)
      && (form == Read2 ==> dst + 2 * words <= rows)
      && (form == Write || form == Write2 ==> src + words <= rows)
      && (form == Write2 ==> src2 + words <= rows)
      && (form == Add ==> src < rows)
    }
  }

  /** A lane's access passes the end of the LDS. */
  predicate Past(op: Op, base: nat, size: nat) {
    Address(base, op.x0) + op.Span() > size || (op.Two() && Address(base, op.x1) + op.Span() > size)
  }

  /** Lane l's words of the rows from row. */
  function LaneWords(regs: Regs, row: nat, words: nat, l: nat): (ws: seq<Word>)
    requires row + words <= |regs| && forall i | 0 <= i < |regs| :: l < |regs[i]|
    ensures |ws| == words
  {
    seq(words, k requires 0 <= k < words => regs[row + k][l])
  }

  /** Lane l's words set in the rows from row. */
  function SetLane(regs: Regs, row: nat, ws: seq<Word>, l: nat): (r: Regs)
    requires row + |ws| <= |regs| && forall i | 0 <= i < |regs| :: l < |regs[i]|
    ensures |r| == |regs| && forall i | 0 <= i < |regs| :: |r[i]| == |regs[i]|
  {
    seq(|regs|, i requires 0 <= i < |regs| => if row <= i < row + |ws| then regs[i][l := ws[i - row]] else regs[i])
  }

  /** The words at an address. */
  function WordsAt(m: seq<Byte>, a: nat, words: nat): (ws: seq<Word>)
    requires a + 4 * words <= |m|
    ensures |ws| == words
  {
    seq(words, k requires 0 <= k < words => WordAt(m, a + 4 * k))
  }

  // ---- The reference: one lane after another -----------------------------------

  datatype State = State(regs: Regs, lds: seq<Byte>)

  predicate Ready(s: State, op: Op, lanes: nat) {
    |s.regs| > 0 && lanes > 0 && Shaped(s.regs, lanes) && op.Fits(|s.regs|) && |s.lds| < LIMIT
  }

  /**
   One lane's access, its address read from the registers as they are by then. A lane past the end does nothing here:
   Reference declines first.
   */
  function LaneStep(s: State, op: Op, lanes: nat, l: nat): (t: State)
    requires Ready(s, op, lanes) && l < lanes
    ensures Ready(t, op, lanes) && |t.lds| == |s.lds| && |t.regs| == |s.regs|
  {
    var base := Value(s.regs[op.addr][l]);
    if Past(op, base, |s.lds|) then s
    else
      var a, b := Address(base, op.x0), Address(base, op.x1);
      match op.form
      case Read => s.(regs := SetLane(s.regs, op.dst, WordsAt(s.lds, a, op.words), l))
      case Read2 => s.(regs := SetLane(s.regs, op.dst, WordsAt(s.lds, a, op.words) + WordsAt(s.lds, b, op.words), l))
      case Write => s.(lds := Put(s.lds, a, BytesOf(LaneWords(s.regs, op.src, op.words, l))))
      case Write2 => s.(lds :=
                        Put(Put(s.lds, a, BytesOf(LaneWords(s.regs, op.src, op.words, l))), b,
                            BytesOf(LaneWords(s.regs, op.src2, op.words, l))))
      case Add => s.(lds := Put(s.lds, a, WordOf((Value(WordAt(s.lds, a)) + Value(s.regs[op.src][l])) % LIMIT).bytes))
  }

  /** The first n lanes, those that are on, in lane order. */
  function Lanes(s: State, op: Op, ex: seq<bool>, n: nat): (t: State)
    requires Ready(s, op, |ex|) && n <= |ex|
    ensures Ready(t, op, |ex|) && |t.lds| == |s.lds| && |t.regs| == |s.regs|
  {
    if n == 0 then s
    else
      var t := Lanes(s, op, ex, n - 1);
      if ex[n - 1] then LaneStep(t, op, |ex|, n - 1) else t
  }

  predicate SomePast(s: State, op: Op, ex: seq<bool>)
    requires Ready(s, op, |ex|)
  {
    exists l | 0 <= l < |ex| :: ex[l] && Past(op, Value(s.regs[op.addr][l]), |s.lds|)
  }

  /**
   What an instruction does: hand back with nothing changed where a lane's access passes the end, or all its lanes in
   order.
   */
  datatype Result = HandedBack | Done(state: State)

  function Reference(s: State, op: Op, ex: seq<bool>): Result
    requires Ready(s, op, |ex|)
  {
    if SomePast(s, op, ex) then HandedBack else Done(Lanes(s, op, ex, |ex|))
  }

  // ---- Loads: every lane by itself ---------------------------------------------

  /** The words a lane loads. */
  function LoadedWords(m: seq<Byte>, op: Op, base: nat): (ws: seq<Word>)
    requires op.Loads() && !Past(op, base, |m|)
    ensures |ws| == op.Rows()
  {
    var first := WordsAt(m, Address(base, op.x0), op.words);
    if op.form == Read then first else first + WordsAt(m, Address(base, op.x1), op.words)
  }

  /**
   A load's result, register by register: lanes do not disturb one another, even where the address row is a destination.
   */
  lemma {:induction false} LoadsPointwise(s: State, op: Op, ex: seq<bool>, n: nat)
    requires Ready(s, op, |ex|) && n <= |ex| && op.Loads() && !SomePast(s, op, ex)
    ensures Lanes(s, op, ex, n).lds == s.lds
    ensures forall r, l | 0 <= r < |s.regs| && 0 <= l < |ex| ::
              Lanes(s, op, ex, n).regs[r][l] ==
                if l < n && ex[l] && op.dst <= r < op.dst + op.Rows()
                  then LoadedWords(s.lds, op, Value(s.regs[op.addr][l]))[r - op.dst] else s.regs[r][l]
  {
    if n > 0 {
      LoadsPointwise(s, op, ex, n - 1);
    }
  }

  /** A store or an add leaves the registers alone. */
  lemma {:induction false} StoresKeepRegisters(s: State, op: Op, ex: seq<bool>, n: nat)
    requires Ready(s, op, |ex|) && n <= |ex| && !op.Loads()
    ensures Lanes(s, op, ex, n).regs == s.regs
  {
    if n > 0 {
      StoresKeepRegisters(s, op, ex, n - 1);
    }
  }

  // ---- Addresses and stores as plain sequences ---------------------------------

  function Values(row: seq<Word>): (v: seq<nat>)
    ensures |v| == |row|
  {
    seq(|row|, l requires 0 <= l < |row| => Value(row[l]))
  }

  /** Every lane's address. */
  function Addresses(values: seq<nat>, x: nat): (a: seq<nat>)
    ensures |a| == |values|
  {
    seq(|values|, l requires 0 <= l < |values| => Address(values[l], x))
  }

  /** Some lane that is on passes the end. */
  predicate AnyPast(a: seq<nat>, ex: seq<bool>, span: nat, size: nat)
    requires |a| == |ex|
  {
    exists l | 0 <= l < |ex| :: ex[l] && a[l] + span > size
  }

  lemma {:induction false} SomePastIsAny(s: State, op: Op, ex: seq<bool>)
    requires Ready(s, op, |ex|)
    ensures SomePast(s, op, ex) <==>
              || AnyPast(Addresses(Values(s.regs[op.addr]), op.x0), ex, op.Span(), |s.lds|)
              || (op.Two() && AnyPast(Addresses(Values(s.regs[op.addr]), op.x1), ex, op.Span(), |s.lds|))
  {
    var a, b := Addresses(Values(s.regs[op.addr]), op.x0), Addresses(Values(s.regs[op.addr]), op.x1);
    if SomePast(s, op, ex) {
      var l :| 0 <= l < |ex| && ex[l] && Past(op, Value(s.regs[op.addr][l]), |s.lds|);
      assert a[l] + op.Span() > |s.lds| || (op.Two() && b[l] + op.Span() > |s.lds|);
    }
    if AnyPast(a, ex, op.Span(), |s.lds|) {
      var l :| 0 <= l < |ex| && ex[l] && a[l] + op.Span() > |s.lds|;
      assert Past(op, Value(s.regs[op.addr][l]), |s.lds|);
    }
    if op.Two() && AnyPast(b, ex, op.Span(), |s.lds|) {
      var l :| 0 <= l < |ex| && ex[l] && b[l] + op.Span() > |s.lds|;
      assert Past(op, Value(s.regs[op.addr][l]), |s.lds|);
    }
  }

  /** Each lane's words to store. */
  function Data(regs: Regs, row: nat, words: nat, lanes: nat): (d: seq<seq<Word>>)
    requires row + words <= |regs| && forall i | 0 <= i < |regs| :: lanes <= |regs[i]|
    ensures |d| == lanes && forall l | 0 <= l < lanes :: |d[l]| == words
  {
    seq(lanes, l requires 0 <= l < lanes => LaneWords(regs, row, words, l))
  }

  /** One value a lane, stored in lane order. */
  function StoreAll(m: seq<Byte>, ex: seq<bool>, a: seq<nat>, d: seq<seq<Word>>, n: nat): (r: seq<Byte>)
    requires |a| == |d| == |ex| && n <= |ex| && forall l | 0 <= l < |ex| && ex[l] :: a[l] + 4 * |d[l]| <= |m|
    ensures |r| == |m|
  {
    if n == 0 then m
    else
      var p := StoreAll(m, ex, a, d, n - 1);
      if ex[n - 1] then Put(p, a[n - 1], BytesOf(d[n - 1])) else p
  }

  /** Two values a lane, the first and then the second, stored in lane order. */
  function StoreAll2(m: seq<Byte>, ex: seq<bool>, a: seq<nat>, d: seq<seq<Word>>, b: seq<nat>, e: seq<seq<Word>>,
                     n: nat): (r: seq<Byte>)
    requires |a| == |d| == |b| == |e| == |ex| && n <= |ex|
    requires forall l | 0 <= l < |ex| && ex[l] :: a[l] + 4 * |d[l]| <= |m| && b[l] + 4 * |e[l]| <= |m|
    ensures |r| == |m|
  {
    if n == 0 then m
    else
      var p := StoreAll2(m, ex, a, d, b, e, n - 1);
      if ex[n - 1] then Put(Put(p, a[n - 1], BytesOf(d[n - 1])), b[n - 1], BytesOf(e[n - 1])) else p
  }

  lemma {:induction false} NotPast(s: State, op: Op, ex: seq<bool>, l: nat)
    requires Ready(s, op, |ex|) && !SomePast(s, op, ex) && l < |ex| && ex[l]
    ensures !Past(op, Value(s.regs[op.addr][l]), |s.lds|)
  {
  }

  lemma {:induction false} LanesStoreAll(s: State, op: Op, ex: seq<bool>, n: nat)
    requires Ready(s, op, |ex|) && op.form == Write && !SomePast(s, op, ex) && n <= |ex|
    ensures var a, d := Addresses(Values(s.regs[op.addr]), op.x0), Data(s.regs, op.src, op.words, |ex|);
            && (forall l | 0 <= l < |ex| && ex[l] :: a[l] + 4 * |d[l]| <= |s.lds|)
            && Lanes(s, op, ex, n) == s.(lds := StoreAll(s.lds, ex, a, d, n))
  {
    forall l | 0 <= l < |ex| && ex[l] { NotPast(s, op, ex, l); }
    if n > 0 {
      LanesStoreAll(s, op, ex, n - 1);
    }
  }

  lemma {:induction false} LanesStoreAll2(s: State, op: Op, ex: seq<bool>, n: nat)
    requires Ready(s, op, |ex|) && op.form == Write2 && !SomePast(s, op, ex) && n <= |ex|
    ensures var row := Values(s.regs[op.addr]);
            var a, d, b, e := Addresses(row, op.x0), Data(s.regs, op.src, op.words, |ex|), Addresses(row, op.x1),
                Data(s.regs, op.src2, op.words, |ex|);
            && (forall l | 0 <= l < |ex| && ex[l] :: a[l] + 4 * |d[l]| <= |s.lds| && b[l] + 4 * |e[l]| <= |s.lds|)
            && Lanes(s, op, ex, n) == s.(lds := StoreAll2(s.lds, ex, a, d, b, e, n))
  {
    forall l | 0 <= l < |ex| && ex[l] { NotPast(s, op, ex, l); }
    if n > 0 {
      LanesStoreAll2(s, op, ex, n - 1);
    }
  }

  // ---- Stores of a run of lanes are one store ----------------------------------

  lemma {:induction false} BytesOfAppends(a: seq<Word>, b: seq<Word>)
    ensures BytesOf(a + b) == BytesOf(a) + BytesOf(b)
  {
    if a == [] {
      assert a + b == b;
    } else {
      assert (a + b)[1..] == a[1..] + b;
      BytesOfAppends(a[1..], b);
    }
  }

  /** Two stores side by side are one. */
  lemma {:induction false} PutAdjacent(m: seq<Byte>, a: nat, b: seq<Byte>, c: seq<Byte>)
    requires a + |b| + |c| <= |m|
    ensures Put(Put(m, a, b), a + |b|, c) == Put(m, a, b + c)
  {
    PutBytes(m, a, b);
    PutBytes(Put(m, a, b), a + |b|, c);
    PutBytes(m, a, b + c);
  }

  /** Stores apart from one another can be made in either order. */
  lemma {:induction false} PutApart(m: seq<Byte>, a: nat, b: seq<Byte>, c: nat, d: seq<Byte>)
    requires a + |b| <= |m| && c + |d| <= |m| && (a + |b| <= c || c + |d| <= a)
    ensures Put(Put(m, a, b), c, d) == Put(Put(m, c, d), a, b)
  {
    PutBytes(m, a, b);
    PutBytes(Put(m, a, b), c, d);
    PutBytes(m, c, d);
    PutBytes(Put(m, c, d), a, b);
  }

  /** Storing one more lane's words beside those of a run. */
  lemma {:induction false} ExtendRun(m: seq<Byte>, base: nat, ws: seq<Word>, lane: seq<Word>)
    requires base + 4 * |ws| + 4 * |lane| <= |m|
    ensures Put(Put(m, base, BytesOf(ws)), base + 4 * |ws|, BytesOf(lane)) == Put(m, base, BytesOf(ws + lane))
  {
    BytesOfAppends(ws, lane);
    PutAdjacent(m, base, BytesOf(ws), BytesOf(lane));
  }

  /** EXEC is one run of cnt lanes from lane first. */
  predicate OneRun(ex: seq<bool>, first: nat, cnt: nat) {
    first + cnt <= |ex| && forall l | 0 <= l < |ex| :: ex[l] <==> first <= l < first + cnt
  }

  /** The words of n lanes from lane first, lane after lane. */
  function RunWords(d: seq<seq<Word>>, first: nat, n: nat): (ws: seq<Word>)
    requires first + n <= |d|
  {
    if n == 0 then [] else RunWords(d, first, n - 1) + d[first + n - 1]
  }

  lemma {:induction false} RunWordsLength(d: seq<seq<Word>>, words: nat, first: nat, n: nat)
    requires first + n <= |d| && forall l | 0 <= l < |d| :: |d[l]| == words
    ensures 4 * |RunWords(d, first, n)| == Times(4 * words, n)
  {
    if n > 0 {
      RunWordsLength(d, words, first, n - 1);
    }
  }

  /** The place of the i'th value of a run, in 32-bit arithmetic. */
  function Place(base: nat, stride: nat, i: nat): (a: nat)
    ensures a < LIMIT
  {
    TimesGrows(stride, 0, i);
    (base + Times(stride, i)) % LIMIT
  }

  /** The lanes of the run address consecutive places from base. */
  predicate Consecutive(a: seq<nat>, first: nat, cnt: nat, base: nat, stride: nat)
    requires first + cnt <= |a|
  {
    forall i | 0 <= i < cnt :: AtPlace(a, first, base, stride, i)
  }

  predicate AtPlace(a: seq<nat>, first: nat, base: nat, stride: nat, i: nat)
    requires first + i < |a|
  {
    a[first + i] == Place(base, stride, i)
  }

  /** A place that lies before the end of a run that does not pass 2^32 is reached without wrapping. */
  lemma {:induction false} PlaceInside(base: nat, stride: nat, i: nat, cnt: nat)
    requires i < cnt && base + Times(stride, cnt) < LIMIT
    ensures 0 <= Times(stride, i) && Times(stride, i) + stride <= Times(stride, cnt)
    ensures Place(base, stride, i) == base + Times(stride, i)
  {
    TimesGrows(stride, 0, i);
    TimesGrows(stride, i + 1, cnt);
  }

  /**
   A run passes the end exactly where one of its lanes does: the one test of the fast path is every lane's, wrapped
   addresses included.
   */
  lemma {:induction false} RunPasses(base: nat, stride: nat, cnt: nat, size: nat)
    requires size < LIMIT && base < LIMIT && cnt > 0
    ensures base + Times(stride, cnt) > size <==> exists i | 0 <= i < cnt :: Place(base, stride, i) + stride > size
  {
    if base + Times(stride, cnt) <= size {
      forall i | 0 <= i < cnt
        ensures Place(base, stride, i) + stride <= size
      {
        PlaceInside(base, stride, i, cnt);
      }
    } else {
      RunPassesSomewhere(base, stride, cnt, size);
    }
  }

  lemma {:induction false} RunPassesSomewhere(base: nat, stride: nat, cnt: nat, size: nat)
    requires size < LIMIT && base < LIMIT && cnt > 0 && base + Times(stride, cnt) > size
    ensures exists i | 0 <= i < cnt :: Place(base, stride, i) + stride > size
  {
    TimesGrows(stride, 0, cnt - 1);
    if cnt > 1 && base + Times(stride, cnt - 1) > size {
      RunPassesSomewhere(base, stride, cnt - 1, size);
      var i :| 0 <= i < cnt - 1 && Place(base, stride, i) + stride > size;
    } else {
      assert Place(base, stride, cnt - 1) + stride > size;
    }
  }

  /** AnyPast of a run, from its end alone. */
  lemma {:induction false} RunPast(a: seq<nat>, ex: seq<bool>, first: nat, cnt: nat, base: nat, stride: nat, size: nat)
    requires |a| == |ex| && OneRun(ex, first, cnt) && cnt > 0 && base < LIMIT && size < LIMIT
             && Consecutive(a, first, cnt, base, stride)
    ensures AnyPast(a, ex, stride, size) <==> base + Times(stride, cnt) > size
  {
    RunPasses(base, stride, cnt, size);
    if AnyPast(a, ex, stride, size) {
      var l :| 0 <= l < |ex| && ex[l] && a[l] + stride > size;
      assert AtPlace(a, first, base, stride, l - first);
    }
    if base + Times(stride, cnt) > size {
      var i :| 0 <= i < cnt && Place(base, stride, i) + stride > size;
      assert ex[first + i] && AtPlace(a, first, base, stride, i);
    }
  }

  /** A run that does not pass the end has its lanes' places in the clear. */
  predicate Clear(a: seq<nat>, first: nat, cnt: nat, base: nat, stride: nat)
    requires first + cnt <= |a|
  {
    forall i | 0 <= i < cnt :: InClear(a, first, base, stride, i)
  }

  predicate InClear(a: seq<nat>, first: nat, base: nat, stride: nat, i: nat)
    requires first + i < |a|
  {
    a[first + i] == base + Times(stride, i)
  }

  lemma {:induction false} RunIsClear(a: seq<nat>, first: nat, cnt: nat, base: nat, stride: nat)
    requires first + cnt <= |a| && Consecutive(a, first, cnt, base, stride) && base + Times(stride, cnt) < LIMIT
    ensures Clear(a, first, cnt, base, stride)
  {
    forall i | 0 <= i < cnt
      ensures InClear(a, first, base, stride, i)
    {
      assert AtPlace(a, first, base, stride, i);
      PlaceInside(base, stride, i, cnt);
    }
  }

  lemma {:induction false} OffLanes(m: seq<Byte>, ex: seq<bool>, a: seq<nat>, d: seq<seq<Word>>, from: nat, to: nat)
    requires |a| == |d| == |ex| && (forall l | 0 <= l < |ex| && ex[l] :: a[l] + 4 * |d[l]| <= |m|)
    requires from <= to <= |ex| && forall l | from <= l < to :: !ex[l]
    ensures StoreAll(m, ex, a, d, to) == StoreAll(m, ex, a, d, from)
  {
    if from < to {
      OffLanes(m, ex, a, d, from, to - 1);
    }
  }

  /** A run of consecutive lanes storing to consecutive places is one store. */
  lemma {:induction false} RunIsOneStore(m: seq<Byte>, ex: seq<bool>, a: seq<nat>, d: seq<seq<Word>>, words: nat,
                                         first: nat, cnt: nat, base: nat, n: nat)
    requires |a| == |d| == |ex| && (forall l | 0 <= l < |ex| && ex[l] :: a[l] + 4 * |d[l]| <= |m|)
    requires (forall l | 0 <= l < |d| :: |d[l]| == words) && OneRun(ex, first, cnt) && n <= cnt && base <= |m|
    requires Clear(a, first, cnt, base, 4 * words)
    ensures base + 4 * |RunWords(d, first, n)| <= |m|
    ensures StoreAll(m, ex, a, d, first + n) == Put(m, base, BytesOf(RunWords(d, first, n)))
  {
    if n == 0 {
      OffLanes(m, ex, a, d, 0, first);
    } else {
      RunIsOneStore(m, ex, a, d, words, first, cnt, base, n - 1);
      RunWordsLength(d, words, first, n - 1);
      assert InClear(a, first, base, 4 * words, n - 1);
      NextOfRun(m, ex, a, d, first + n - 1, base, RunWords(d, first, n - 1));
    }
  }

  lemma {:induction false} NextOfRun(m: seq<Byte>, ex: seq<bool>, a: seq<nat>, d: seq<seq<Word>>, l: nat, base: nat,
                                     ws: seq<Word>)
    requires |a| == |d| == |ex| && (forall l | 0 <= l < |ex| && ex[l] :: a[l] + 4 * |d[l]| <= |m|)
    requires l < |ex| && ex[l] && a[l] == base + 4 * |ws| && StoreAll(m, ex, a, d, l) == Put(m, base, BytesOf(ws))
    ensures StoreAll(m, ex, a, d, l + 1) == Put(m, base, BytesOf(ws + d[l]))
  {
    ExtendRun(m, base, ws, d[l]);
  }

  lemma {:induction false} OffLanes2(m: seq<Byte>, ex: seq<bool>, a: seq<nat>, d: seq<seq<Word>>, b: seq<nat>,
                                     e: seq<seq<Word>>, from: nat, to: nat)
    requires |a| == |d| == |b| == |e| == |ex| && from <= to <= |ex| && forall l | from <= l < to :: !ex[l]
    requires forall l | 0 <= l < |ex| && ex[l] :: a[l] + 4 * |d[l]| <= |m| && b[l] + 4 * |e[l]| <= |m|
    ensures StoreAll2(m, ex, a, d, b, e, to) == StoreAll2(m, ex, a, d, b, e, from)
  {
    if from < to {
      OffLanes2(m, ex, a, d, b, e, from, to - 1);
    }
  }

  /** One lane of a two-offset store, after those before it stored their two runs. */
  lemma {:induction false} TwoRunStep(m: seq<Byte>, base: nat, base1: nat, run: nat, us: seq<Word>, vs: seq<Word>,
                                      u: seq<Word>, v: seq<Word>)
    requires 4 * |us| + 4 * |u| <= run && |us| == |vs| && |u| == |v| && base + run <= |m| && base1 + run <= |m|
    requires base + run <= base1 || base1 + run <= base
    ensures Put(Put(Put(Put(m, base, BytesOf(us)), base1, BytesOf(vs)), base + 4 * |us|, BytesOf(u)), base1 + 4 * |vs|,
                BytesOf(v))
         == Put(Put(m, base, BytesOf(us + u)), base1, BytesOf(vs + v))
  {
    PutApart(Put(m, base, BytesOf(us)), base1, BytesOf(vs), base + 4 * |us|, BytesOf(u));
    ExtendRun(m, base, us, u);
    ExtendRun(Put(m, base, BytesOf(us + u)), base1, vs, v);
  }

  /** Two runs that are apart: all the first values and then all the second are what the lanes do in turn. */
  lemma {:induction false} TwoRunsAreTwoStores(m: seq<Byte>, ex: seq<bool>, a: seq<nat>, d: seq<seq<Word>>,
                                               b: seq<nat>, e: seq<seq<Word>>,
                                               words: nat, first: nat, cnt: nat, base: nat, base1: nat, n: nat)
    requires |a| == |d| == |b| == |e| == |ex| && OneRun(ex, first, cnt) && n <= cnt
    requires forall l | 0 <= l < |ex| && ex[l] :: a[l] + 4 * |d[l]| <= |m| && b[l] + 4 * |e[l]| <= |m|
    requires forall l | 0 <= l < |ex| :: |d[l]| == |e[l]| == words
    requires Clear(a, first, cnt, base, 4 * words) && Clear(b, first, cnt, base1, 4 * words)
    requires base + Times(4 * words, cnt) <= |m| && base1 + Times(4 * words, cnt) <= |m|
    requires base + Times(4 * words, cnt) <= base1 || base1 + Times(4 * words, cnt) <= base
    ensures 4 * |RunWords(d, first, n)| == 4 * |RunWords(e, first, n)| <= Times(4 * words, cnt)
    ensures StoreAll2(m, ex, a, d, b, e, first + n)
            == Put(Put(m, base, BytesOf(RunWords(d, first, n))), base1, BytesOf(RunWords(e, first, n)))
  {
    RunWordsLength(d, words, first, n);
    RunWordsLength(e, words, first, n);
    TimesGrows(4 * words, n, cnt);
    if n == 0 {
      OffLanes2(m, ex, a, d, b, e, 0, first);
    } else {
      TwoRunsAreTwoStores(m, ex, a, d, b, e, words, first, cnt, base, base1, n - 1);
      RunWordsLength(d, words, first, n - 1);
      RunWordsLength(e, words, first, n - 1);
      assert ex[first + (n - 1)] && InClear(a, first, base, 4 * words, n - 1)
             && InClear(b, first, base1, 4 * words, n - 1);
      TwoRunStep(m, base, base1, Times(4 * words, cnt), RunWords(d, first, n - 1), RunWords(e, first, n - 1),
                 d[first + n - 1], e[first + n - 1]);
    }
  }

  /** The offset between the two addresses of a lane is the offset between the two bases, in 32-bit arithmetic. */
  lemma {:induction false} SecondPlace(v: nat, x0: nat, x1: nat, base: nat, stride: nat, i: nat)
    requires Address(v, x0) == Place(base, stride, i) && x0 < LIMIT
    ensures Address(v, x1) == Place((base + x1 + LIMIT - x0) % LIMIT, stride, i)
  {
    TimesGrows(stride, 0, i);
    OffsetAddress(v, x0, x1, base, Times(stride, i));
  }

  lemma {:induction false} OffsetAddress(v: nat, x0: nat, x1: nat, base: nat, far: nat)
    requires (v + x0) % LIMIT == (base + far) % LIMIT && x0 < LIMIT
    ensures (v + x1) % LIMIT == ((base + x1 + LIMIT - x0) % LIMIT + far) % LIMIT
  {
  }

  lemma {:induction false} SecondRun(values: seq<nat>, x0: nat, x1: nat, first: nat, cnt: nat, base: nat, stride: nat)
    requires first + cnt <= |values| && x0 < LIMIT && Consecutive(Addresses(values, x0), first, cnt, base, stride)
    ensures Consecutive(Addresses(values, x1), first, cnt, (base + x1 + LIMIT - x0) % LIMIT, stride)
  {
    var second, base1 := Addresses(values, x1), (base + x1 + LIMIT - x0) % LIMIT;
    forall i | 0 <= i < cnt
      ensures AtPlace(second, first, base1, stride, i)
    {
      assert AtPlace(Addresses(values, x0), first, base, stride, i);
      SecondPlace(values[first + i], x0, x1, base, stride, i);
    }
  }
}
