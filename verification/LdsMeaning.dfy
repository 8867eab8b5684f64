/**
 What the lane-by-lane reference of the LDS accesses means, in bytes: registers and memory hold numbers with their
 lowest byte first, addresses are 32-bit sums, and every byte loaded or stored is named.
 */
module LdsMeaning {
  import opened Basics
  import opened Lds
  import opened LdsLanes

  // ---- Numbers and addresses ---------------------------------------------------

  /** A register's number is the one whose digits its bytes are. */
  lemma {:induction false} ValueReads(w: Word, n: nat)
    ensures LowFirst(w.bytes, n) <==> n == Value(w)
  {
    ValueDigits(w);
    if LowFirst(w.bytes, n) {
      forall i | 0 <= i < 4
        ensures Digit(Value(w), i) == Digit(n, i)
      {
        assert w.bytes[i] == Digit(n, i);
      }
      DigitsAgree(Value(w), n, 4);
    }
  }

  lemma {:induction false} ValueDigits(w: Word)
    ensures LowFirst(w.bytes, Value(w))
  {
    var b0: int, b1: int, b2: int, b3: int := w.bytes[0], w.bytes[1], w.bytes[2], w.bytes[3];
    FourDigits(Value(w));
    assert Value(w) / 256 == b1 + 0x100 * b2 + 0x10000 * b3;
    assert Value(w) / 256 / 256 == b2 + 0x100 * b3;
    assert Value(w) / 256 / 256 / 256 == b3;
  }

  lemma {:induction false} FourDigits(n: nat)
    ensures Digit(n, 0) == n % 256 && Digit(n, 1) == n / 256 % 256
    ensures Digit(n, 2) == n / 256 / 256 % 256 && Digit(n, 3) == n / 256 / 256 / 256 % 256
    ensures Pow256(4) == 0x1_0000_0000
  {
    assert Digit(n, 1) == Digit(n / 256, 0);
    assert Digit(n, 2) == Digit(n / 256, 1) == Digit(n / 256 / 256, 0);
    assert Digit(n, 3) == Digit(n / 256, 2) == Digit(n / 256 / 256, 1) == Digit(n / 256 / 256 / 256, 0);
    assert Pow256(1) == 0x100 && Pow256(2) == 0x1_0000 && Pow256(3) == 0x100_0000;
  }

  /** The word made of a 32-bit number is that number. */
  lemma {:induction false} WordReads(n: nat)
    requires n < 0x1_0000_0000
    ensures LowFirst(WordOf(n).bytes, n) && Value(WordOf(n)) == n
  {
    FourDigits(n);
    assert n / 256 / 256 == n / 0x10000 && n / 0x10000 / 256 == n / 0x1000000;
    ValueReads(WordOf(n), n);
  }

  /** Byte a is where the number in a register and an offset, added in 32 bits, point. */
  ghost predicate Addressed(w: Word, x: nat, a: nat) {
    exists n: nat :: LowFirst(w.bytes, n) && a == (n + x) % 0x1_0000_0000
  }

  lemma {:induction false} AddressedIs(w: Word, x: nat, a: nat)
    ensures Addressed(w, x, a) <==> a == Address(Value(w), x)
  {
    ValueDigits(w);
    if Addressed(w, x, a) {
      var n: nat :| LowFirst(w.bytes, n) && a == (n + x) % 0x1_0000_0000;
      ValueReads(w, n);
    }
  }

  // ---- Where an instruction is handed back -------------------------------------

  /** The bytes of one value. */
  function Bytes(op: Op): nat { if op.form == Add then 4 else 4 * op.words }

  /** Some byte of the lane's access is past the end. */
  ghost predicate RunsPast(w: Word, op: Op, size: nat) {
    exists a: nat :: (Addressed(w, op.x0, a) || ((op.form == Read2 || op.form == Write2) && Addressed(w, op.x1, a)))
                     && a + Bytes(op) > size
  }

  lemma {:induction false} RunsPastIs(w: Word, op: Op, size: nat)
    ensures RunsPast(w, op, size) <==> Past(op, Value(w), size)
  {
    AddressedIs(w, op.x0, Address(Value(w), op.x0));
    AddressedIs(w, op.x1, Address(Value(w), op.x1));
    if RunsPast(w, op, size) {
      var a: nat :| (Addressed(w, op.x0, a) || ((op.form == Read2 || op.form == Write2) && Addressed(w, op.x1, a)))
                    && a + Bytes(op) > size;
      AddressedIs(w, op.x0, a);
      AddressedIs(w, op.x1, a);
    }
  }

  /** An instruction is handed back exactly where a lane that is on runs past the end. */
  lemma {:induction false} HandedBackExactly(s: State, op: Op, ex: seq<bool>)
    requires Ready(s, op, |ex|)
    ensures Reference(s, op, ex) == HandedBack <==>
              exists l | 0 <= l < |ex| :: ex[l] && RunsPast(s.regs[op.addr][l], op, |s.lds|)
  {
    forall l | 0 <= l < |ex|
      ensures RunsPast(s.regs[op.addr][l], op, |s.lds|) <==> Past(op, Value(s.regs[op.addr][l]), |s.lds|)
    {
      RunsPastIs(s.regs[op.addr][l], op, |s.lds|);
    }
  }

  // ---- Loads -------------------------------------------------------------------

  /**
   Row k of what a load fills, of a lane that is on: byte j is the LDS's, k words and j bytes past the lane's address.
   */
  lemma {:induction false} LoadsThatByte(s: State, op: Op, ex: seq<bool>, l: nat, k: nat, j: nat, a: nat)
    requires Ready(s, op, |ex|) && (op.form == Read || op.form == Read2) && Reference(s, op, ex).Done?
    requires l < |ex| && ex[l] && k < op.words && j < 4 && Addressed(s.regs[op.addr][l], op.x0, a)
    ensures var t := Reference(s, op, ex).state;
            && a + 4 * k + j < |s.lds| && op.dst + k < |t.regs| && l < |t.regs[op.dst + k]|
            && t.regs[op.dst + k][l].bytes[j] == s.lds[a + 4 * k + j]
  {
    AddressedIs(s.regs[op.addr][l], op.x0, a);
    NotPast(s, op, ex, l);
    LoadedAt(s, op, ex, k, l);
    LoadedByte(s.lds, op, Value(s.regs[op.addr][l]), k, j);
  }

  /** One register of one lane. */
  lemma {:induction false} LoadedAt(s: State, op: Op, ex: seq<bool>, k: nat, l: nat)
    requires Ready(s, op, |ex|) && op.Loads() && !SomePast(s, op, ex) && l < |ex| && ex[l] && k < op.Rows()
    ensures var t := Lanes(s, op, ex, |ex|);
            && !Past(op, Value(s.regs[op.addr][l]), |s.lds|) && op.dst + k < |t.regs| && l < |t.regs[op.dst + k]|
            && t.regs[op.dst + k][l] == LoadedWords(s.lds, op, Value(s.regs[op.addr][l]))[k]
  {
    NotPast(s, op, ex, l);
    LoadsPointwise(s, op, ex, |ex|);
    assert |Lanes(s, op, ex, |ex|).regs[op.dst + k]| == |ex|;
  }

  lemma {:induction false} LoadedByte(m: seq<Byte>, op: Op, base: nat, k: nat, j: nat)
    requires op.Loads() && !Past(op, base, |m|) && k < op.words && j < 4
    ensures var a := Address(base, op.x0);
            a + 4 * k + j < |m| && LoadedWords(m, op, base)[k].bytes[j] == m[a + 4 * k + j]
    ensures op.form == Read2 ==>
              var b := Address(base, op.x1);
              b + 4 * k + j < |m| && LoadedWords(m, op, base)[op.words + k].bytes[j] == m[b + 4 * k + j]
  {
  }

  /** The second value of a two-value load, in the rows after the first's. */
  lemma {:induction false} LoadsThatByte2(s: State, op: Op, ex: seq<bool>, l: nat, k: nat, j: nat, a: nat)
    requires Ready(s, op, |ex|) && op.form == Read2 && Reference(s, op, ex).Done?
    requires l < |ex| && ex[l] && k < op.words && j < 4 && Addressed(s.regs[op.addr][l], op.x1, a)
    ensures var t := Reference(s, op, ex).state;
            && a + 4 * k + j < |s.lds| && op.dst + op.words + k < |t.regs| && l < |t.regs[op.dst + op.words + k]|
            && t.regs[op.dst + op.words + k][l].bytes[j] == s.lds[a + 4 * k + j]
  {
    AddressedIs(s.regs[op.addr][l], op.x1, a);
    NotPast(s, op, ex, l);
    LoadedAt(s, op, ex, op.words + k, l);
    LoadedByte(s.lds, op, Value(s.regs[op.addr][l]), k, j);
  }

  /** A load changes nothing else. */
  lemma {:induction false} LoadsNothingElse(s: State, op: Op, ex: seq<bool>, r: nat, l: nat)
    requires Ready(s, op, |ex|) && (op.form == Read || op.form == Read2) && Reference(s, op, ex).Done?
    requires r < |s.regs| && l < |ex|
    requires !ex[l] || r < op.dst || r >= op.dst + op.words + (if op.form == Read2 then op.words else 0)
    ensures var t := Reference(s, op, ex).state;
            t.lds == s.lds && |t.regs| == |s.regs| && l < |t.regs[r]| && t.regs[r][l] == s.regs[r][l]
  {
    LoadsPointwise(s, op, ex, |ex|);
    var t := Lanes(s, op, ex, |ex|);
    assert |t.regs[r]| == |ex| && !(ex[l] && op.dst <= r < op.dst + op.Rows());
    assert t.regs[r][l] == s.regs[r][l];
    assert Reference(s, op, ex).state == t;
  }

  // ---- Stores ------------------------------------------------------------------

  lemma {:induction false} BytesOfAt(ws: seq<Word>, k: nat, j: nat)
    requires k < |ws| && j < 4
    ensures BytesOf(ws)[4 * k + j] == ws[k].bytes[j]
  {
    if k > 0 {
      BytesOfAt(ws[1..], k - 1, j);
    }
  }

  /** Byte p lies in the n bytes from a on. */
  predicate In(p: int, a: nat, n: nat) { a <= p < a + n }

  /** Byte i of a lane's words in the rows from row. */
  function ByteOf(regs: Regs, row: nat, l: nat, i: nat): Byte
    requires row + i / 4 < |regs| && l < |regs[row + i / 4]|
  {
    regs[row + i / 4][l].bytes[i % 4]
  }

  lemma {:induction false} PutAt(m: seq<Byte>, regs: Regs, row: nat, words: nat, l: nat, a: nat, p: nat)
    requires row + words <= |regs| && (forall i | 0 <= i < |regs| :: l < |regs[i]|) && a + 4 * words <= |m| && p < |m|
    ensures Put(m, a, BytesOf(LaneWords(regs, row, words, l)))[p] ==
              if In(p, a, 4 * words) then ByteOf(regs, row, l, p - a) else m[p]
  {
    var ws := LaneWords(regs, row, words, l);
    PutBytes(m, a, BytesOf(ws));
    if In(p, a, 4 * words) {
      BytesOfAt(ws, (p - a) / 4, (p - a) % 4);
    }
  }

  /** What one lane's stores leave at byte p. */
  function StoredAt(s: State, op: Op, l: nat, p: nat): Byte
    requires (forall i | 0 <= i < |s.regs| :: l < |s.regs[i]|) && op.Fits(|s.regs|) && p < |s.lds|
    requires op.form == Write || op.form == Write2
  {
    var base := Value(s.regs[op.addr][l]);
    if op.form == Write2 && In(p, Address(base, op.x1), 4 * op.words)
      then ByteOf(s.regs, op.src2, l, p - Address(base, op.x1))
    else if In(p, Address(base, op.x0), 4 * op.words) then ByteOf(s.regs, op.src, l, p - Address(base, op.x0))
    else s.lds[p]
  }

  lemma {:induction false} StepStores(s: State, op: Op, lanes: nat, l: nat, p: nat)
    requires Ready(s, op, lanes) && l < lanes && (op.form == Write || op.form == Write2) && p < |s.lds|
    requires !Past(op, Value(s.regs[op.addr][l]), |s.lds|)
    ensures LaneStep(s, op, lanes, l).lds[p] == StoredAt(s, op, l, p)
  {
    var base := Value(s.regs[op.addr][l]);
    PutAt(s.lds, s.regs, op.src, op.words, l, Address(base, op.x0), p);
    if op.form == Write2 {
      var mid := Put(s.lds, Address(base, op.x0), BytesOf(LaneWords(s.regs, op.src, op.words, l)));
      PutAt(mid, s.regs, op.src2, op.words, l, Address(base, op.x1), p);
    }
  }

  /** Byte p is among those the lane's address row says it stores. */
  ghost predicate Stores(w: Word, op: Op, p: nat) {
    exists a: nat :: (Addressed(w, op.x0, a) || (op.form == Write2 && Addressed(w, op.x1, a))) && In(p, a, 4 * op.words)
  }

  lemma {:induction false} StoresIs(w: Word, op: Op, p: nat)
    ensures Stores(w, op, p) <==>
              || In(p, Address(Value(w), op.x0), 4 * op.words)
              || (op.form == Write2 && In(p, Address(Value(w), op.x1), 4 * op.words))
  {
    AddressedIs(w, op.x0, Address(Value(w), op.x0));
    AddressedIs(w, op.x1, Address(Value(w), op.x1));
    if Stores(w, op, p) {
      var a: nat :| (Addressed(w, op.x0, a) || (op.form == Write2 && Addressed(w, op.x1, a)))
                    && In(p, a, 4 * op.words);
      AddressedIs(w, op.x0, a);
      AddressedIs(w, op.x1, a);
    }
  }

  /** The lanes from one on that are on leave byte p alone. */
  ghost predicate LeftAlone(s: State, op: Op, ex: seq<bool>, from: nat, p: nat)
    requires Ready(s, op, |ex|)
  {
    forall l | from <= l < |ex| && ex[l] :: !Stores(s.regs[op.addr][l], op, p)
  }

  lemma {:induction false} LaterLanes(s: State, op: Op, ex: seq<bool>, from: nat, n: nat, p: nat)
    requires Ready(s, op, |ex|) && (op.form == Write || op.form == Write2) && !SomePast(s, op, ex)
    requires from <= n <= |ex| && p < |s.lds| && LeftAlone(s, op, ex, from, p)
    ensures Lanes(s, op, ex, n).lds[p] == Lanes(s, op, ex, from).lds[p]
  {
    if from < n {
      LaterLanes(s, op, ex, from, n - 1, p);
      if ex[n - 1] {
        NextLane(s, op, ex, n - 1);
        StepStores(Lanes(s, op, ex, n - 1), op, |ex|, n - 1, p);
        StoresIs(s.regs[op.addr][n - 1], op, p);
      }
    }
  }

  /** A byte that no lane that is on stores is what it was, and no register changes. */
  lemma {:induction false} StoresNothingElse(s: State, op: Op, ex: seq<bool>, p: nat)
    requires Ready(s, op, |ex|) && (op.form == Write || op.form == Write2) && Reference(s, op, ex).Done?
    requires p < |s.lds| && LeftAlone(s, op, ex, 0, p)
    ensures var t := Reference(s, op, ex).state; t.regs == s.regs && |t.lds| == |s.lds| && t.lds[p] == s.lds[p]
  {
    LaterLanes(s, op, ex, 0, |ex|, p);
    StoresKeepRegisters(s, op, ex, |ex|);
  }

  lemma {:induction false} LastStore(s: State, op: Op, ex: seq<bool>, l: nat, p: nat)
    requires Ready(s, op, |ex|) && (op.form == Write || op.form == Write2) && !SomePast(s, op, ex)
    requires l < |ex| && ex[l] && p < |s.lds| && Stores(s.regs[op.addr][l], op, p) && LeftAlone(s, op, ex, l + 1, p)
    ensures Lanes(s, op, ex, |ex|).lds[p] == StoredAt(s, op, l, p)
  {
    LaterLanes(s, op, ex, l + 1, |ex|, p);
    StoresKeepRegisters(s, op, ex, l);
    NextLane(s, op, ex, l);
    StepStores(Lanes(s, op, ex, l), op, |ex|, l, p);
    StoredAnyway(s, Lanes(s, op, ex, l), op, l, p);
  }

  lemma {:induction false} StoredAnyway(s: State, t: State, op: Op, l: nat, p: nat)
    requires (forall i | 0 <= i < |s.regs| :: l < |s.regs[i]|) && op.Fits(|s.regs|) && t.regs == s.regs
    requires (op.form == Write || op.form == Write2) && p < |s.lds| == |t.lds| && Stores(s.regs[op.addr][l], op, p)
    ensures StoredAt(t, op, l, p) == StoredAt(s, op, l, p)
  {
    StoresIs(s.regs[op.addr][l], op, p);
  }

  lemma {:induction false} OwnByte(s: State, op: Op, l: nat, k: nat, j: nat)
    requires (forall i | 0 <= i < |s.regs| :: l < |s.regs[i]|) && op.Fits(|s.regs|) && k < op.words && j < 4
    requires (op.form == Write || op.form == Write2) && !Past(op, Value(s.regs[op.addr][l]), |s.lds|)
    ensures var w := s.regs[op.addr][l];
            var p := Address(Value(w), op.x0) + 4 * k + j;
            && p < |s.lds| && Stores(w, op, p)
            && (!(op.form == Write2 && In(p, Address(Value(w), op.x1), 4 * op.words)) ==>
                  StoredAt(s, op, l, p) == s.regs[op.src + k][l].bytes[j])
  {
    var w := s.regs[op.addr][l];
    StoresIs(w, op, Address(Value(w), op.x0) + 4 * k + j);
    assert (4 * k + j) / 4 == k && (4 * k + j) % 4 == j;
  }

  lemma {:induction false} OwnByte2(s: State, op: Op, l: nat, k: nat, j: nat)
    requires (forall i | 0 <= i < |s.regs| :: l < |s.regs[i]|) && op.Fits(|s.regs|) && k < op.words && j < 4
    requires op.form == Write2 && !Past(op, Value(s.regs[op.addr][l]), |s.lds|)
    ensures var w := s.regs[op.addr][l];
            var p := Address(Value(w), op.x1) + 4 * k + j;
            p < |s.lds| && Stores(w, op, p) && StoredAt(s, op, l, p) == s.regs[op.src2 + k][l].bytes[j]
  {
    var w := s.regs[op.addr][l];
    StoresIs(w, op, Address(Value(w), op.x1) + 4 * k + j);
    assert (4 * k + j) / 4 == k && (4 * k + j) % 4 == j;
  }

  /**
   Byte j of word k of a lane's value is stored k words and j bytes past its address, unless a later lane that is on, or
   the lane's own second value, stores there too.
   */
  lemma {:induction false} StoresThatByte(s: State, op: Op, ex: seq<bool>, l: nat, k: nat, j: nat, a: nat)
    requires Ready(s, op, |ex|) && (op.form == Write || op.form == Write2) && Reference(s, op, ex).Done?
    requires l < |ex| && ex[l] && k < op.words && j < 4 && Addressed(s.regs[op.addr][l], op.x0, a)
    requires LeftAlone(s, op, ex, l + 1, a + 4 * k + j)
    requires op.form == Write2 ==>
               forall b: nat | Addressed(s.regs[op.addr][l], op.x1, b) :: !In(a + 4 * k + j, b, 4 * op.words)
    ensures var t := Reference(s, op, ex).state;
            a + 4 * k + j < |t.lds| && t.lds[a + 4 * k + j] == s.regs[op.src + k][l].bytes[j]
  {
    var w, p := s.regs[op.addr][l], a + 4 * k + j;
    AddressedIs(w, op.x0, a);
    AddressedIs(w, op.x1, Address(Value(w), op.x1));
    NotPast(s, op, ex, l);
    OwnByte(s, op, l, k, j);
    LastStore(s, op, ex, l, p);
  }

  /** The second value of a two-value store, from the second row. */
  lemma {:induction false} StoresThatByte2(s: State, op: Op, ex: seq<bool>, l: nat, k: nat, j: nat, a: nat)
    requires Ready(s, op, |ex|) && op.form == Write2 && Reference(s, op, ex).Done?
    requires l < |ex| && ex[l] && k < op.words && j < 4 && Addressed(s.regs[op.addr][l], op.x1, a)
    requires LeftAlone(s, op, ex, l + 1, a + 4 * k + j)
    ensures var t := Reference(s, op, ex).state;
            a + 4 * k + j < |t.lds| && t.lds[a + 4 * k + j] == s.regs[op.src2 + k][l].bytes[j]
  {
    var w, p := s.regs[op.addr][l], a + 4 * k + j;
    AddressedIs(w, op.x1, a);
    NotPast(s, op, ex, l);
    OwnByte2(s, op, l, k, j);
    LastStore(s, op, ex, l, p);
  }

  // ---- Written and read back ---------------------------------------------------

  /**
   A load by the address row of a store gives every lane whose bytes no later lane stored its own words back.
   */
  lemma {:induction false} ReadsBack(s: State, w: Op, r: Op, ex: seq<bool>, l: nat, k: nat, a: nat)
    requires Ready(s, w, |ex|) && Ready(s, r, |ex|) && w.form == Write && r.form == Read
    requires r.addr == w.addr && r.x0 == w.x0 && r.words == w.words && Reference(s, w, ex).Done?
    requires l < |ex| && ex[l] && k < w.words && Addressed(s.regs[w.addr][l], w.x0, a)
    requires forall p: nat | In(p, a, 4 * w.words) :: LeftAlone(s, w, ex, l + 1, p)
    ensures var t := Reference(s, w, ex).state;
            Ready(t, r, |ex|) && Reference(t, r, ex).Done?
              && Reference(t, r, ex).state.regs[r.dst + k][l] == s.regs[w.src + k][l]
  {
    var t := Reference(s, w, ex).state;
    StoresKeepRegisters(s, w, ex, |ex|);
    assert !SomePast(t, r, ex);
    var back, own := Reference(t, r, ex).state.regs[r.dst + k][l], s.regs[w.src + k][l];
    forall j | 0 <= j < 4
      ensures back.bytes[j] == own.bytes[j]
    {
      assert In(a + 4 * k + j, a, 4 * w.words);
      StoresThatByte(s, w, ex, l, k, j, a);
      LoadsThatByte(t, r, ex, l, k, j, a);
    }
    SameWord(back, own);
  }

  lemma {:induction false} SameWord(v: Word, w: Word)
    requires forall j | 0 <= j < 4 :: v.bytes[j] == w.bytes[j]
    ensures v == w
  {
    assert v.bytes == w.bytes;
  }

  // ---- Additions ---------------------------------------------------------------

  /** What the lanes below n that are on and at a add up to. */
  function Total(x: seq<nat>, at: seq<nat>, ex: seq<bool>, a: nat, n: nat): nat
    requires |x| == |at| == |ex| && n <= |ex|
  {
    if n == 0 then 0 else Total(x, at, ex, a, n - 1) + (if ex[n - 1] && at[n - 1] == a then x[n - 1] else 0)
  }

  /** The lanes' addresses and what they add. */
  ghost predicate Addends(s: State, op: Op, ex: seq<bool>, x: seq<nat>, at: seq<nat>)
    requires Ready(s, op, |ex|) && op.form == Add
  {
    && |x| == |at| == |ex|
    && forall l | 0 <= l < |ex| ::
         Addressed(s.regs[op.addr][l], op.x0, at[l]) && LowFirst(s.regs[op.src][l].bytes, x[l])
  }

  /**
   Each word ends with what it held and what every lane at it adds, in 32 bits, lanes that share it included, where no
   lane is at a part of it.
   */
  lemma {:induction false} AddsUp(s: State, op: Op, ex: seq<bool>, x: seq<nat>, at: seq<nat>, a: nat, was: nat)
    requires Ready(s, op, |ex|) && op.form == Add && Reference(s, op, ex).Done? && Addends(s, op, ex, x, at)
    requires a + 4 <= |s.lds| && LowFirst(s.lds[a..a + 4], was)
    requires forall l | 0 <= l < |ex| && ex[l] :: at[l] == a || at[l] + 4 <= a || a + 4 <= at[l]
    ensures var t := Reference(s, op, ex).state;
            t.regs == s.regs && |t.lds| == |s.lds|
            && LowFirst(t.lds[a..a + 4], (was + Total(x, at, ex, a, |ex|)) % 0x1_0000_0000)
  {
    StoresKeepRegisters(s, op, ex, |ex|);
    WordIsThere(s.lds, a, was);
    AddsUpTo(s, op, ex, x, at, a, was, |ex|);
    NumberThere(Lanes(s, op, ex, |ex|).lds, a);
  }

  lemma {:induction false} BytesThere(m: seq<Byte>, a: nat)
    requires a + 4 <= |m|
    ensures WordAt(m, a).bytes == m[a..a + 4]
  {
  }

  lemma {:induction false} NumberThere(m: seq<Byte>, a: nat)
    requires a + 4 <= |m|
    ensures LowFirst(m[a..a + 4], Value(WordAt(m, a)))
  {
    BytesThere(m, a);
    ValueDigits(WordAt(m, a));
  }

  lemma {:induction false} WordIsThere(m: seq<Byte>, a: nat, n: nat)
    requires a + 4 <= |m| && LowFirst(m[a..a + 4], n)
    ensures Value(WordAt(m, a)) == n < 0x1_0000_0000
  {
    BytesThere(m, a);
    ValueReads(WordAt(m, a), n);
    FourDigits(n);
  }

  /** The word at a after the lanes below n. */
  ghost predicate SumTo(s: State, op: Op, ex: seq<bool>, x: seq<nat>, at: seq<nat>, a: nat, was: nat, n: nat)
    requires Ready(s, op, |ex|) && op.form == Add && !SomePast(s, op, ex) && Addends(s, op, ex, x, at) && n <= |ex|
    requires a + 4 <= |s.lds|
  {
    Value(WordAt(Lanes(s, op, ex, n).lds, a)) == (was + Total(x, at, ex, a, n)) % 0x1_0000_0000
  }

  lemma {:induction false} AddsUpTo(s: State, op: Op, ex: seq<bool>, x: seq<nat>, at: seq<nat>, a: nat, was: nat,
                                    n: nat)
    requires Ready(s, op, |ex|) && op.form == Add && !SomePast(s, op, ex) && Addends(s, op, ex, x, at) && n <= |ex|
    requires a + 4 <= |s.lds| && Value(WordAt(s.lds, a)) == was < 0x1_0000_0000
    requires forall l | 0 <= l < |ex| && ex[l] :: at[l] == a || at[l] + 4 <= a || a + 4 <= at[l]
    ensures SumTo(s, op, ex, x, at, a, was, n)
  {
    if n > 0 {
      AddsUpTo(s, op, ex, x, at, a, was, n - 1);
      OneMoreAdds(s, op, ex, x, at, a, was, n - 1);
    }
  }

  lemma {:induction false} OneMoreAdds(s: State, op: Op, ex: seq<bool>, x: seq<nat>, at: seq<nat>, a: nat, was: nat,
                                       l: nat)
    requires Ready(s, op, |ex|) && op.form == Add && !SomePast(s, op, ex) && Addends(s, op, ex, x, at) && l < |ex|
    requires a + 4 <= |s.lds| && (ex[l] ==> at[l] == a || at[l] + 4 <= a || a + 4 <= at[l])
    requires SumTo(s, op, ex, x, at, a, was, l)
    ensures SumTo(s, op, ex, x, at, a, was, l + 1)
  {
    if ex[l] {
      LaneAdds(s, op, ex, x, at, l, a);
      SumWraps(was + Total(x, at, ex, a, l), x[l]);
    }
  }

  lemma {:induction false} LaneAdds(s: State, op: Op, ex: seq<bool>, x: seq<nat>, at: seq<nat>, l: nat, a: nat)
    requires Ready(s, op, |ex|) && op.form == Add && !SomePast(s, op, ex) && Addends(s, op, ex, x, at)
    requires l < |ex| && ex[l] && a + 4 <= |s.lds| && (at[l] == a || at[l] + 4 <= a || a + 4 <= at[l])
    ensures var before := Value(WordAt(Lanes(s, op, ex, l).lds, a));
            Value(WordAt(Lanes(s, op, ex, l + 1).lds, a)) ==
              if at[l] == a then (before + x[l]) % 0x1_0000_0000 else before
  {
    var t := Lanes(s, op, ex, l);
    NextLane(s, op, ex, l);
    StoresKeepRegisters(s, op, ex, l);
    AddressedIs(s.regs[op.addr][l], op.x0, at[l]);
    ValueReads(s.regs[op.src][l], x[l]);
    AddStep(t, op, |ex|, l);
    AddedAt(t.lds, at[l], x[l], a);
  }

  lemma {:induction false} SumWraps(n: nat, x: nat)
    ensures (n % 0x1_0000_0000 + x) % 0x1_0000_0000 == (n + x) % 0x1_0000_0000
  {
  }

  /** A word added to holds the sum; a word apart from it is what it was. */
  lemma {:induction false} AddedAt(m: seq<Byte>, b: nat, x: nat, a: nat)
    requires b + 4 <= |m| && a + 4 <= |m| && (b == a || b + 4 <= a || a + 4 <= b)
    ensures Value(WordAt(Added(m, b, x), a)) ==
              if a == b then (Value(WordAt(m, a)) + x) % 0x1_0000_0000 else Value(WordAt(m, a))
  {
    var sum := (Value(WordAt(m, b)) + x) % LIMIT;
    WordPut(m, b, WordOf(sum), a);
    WordReads(sum);
  }

  lemma {:induction false} WordPut(m: seq<Byte>, b: nat, w: Word, a: nat)
    requires b + 4 <= |m| && a + 4 <= |m| && (b == a || b + 4 <= a || a + 4 <= b)
    ensures WordAt(Put(m, b, w.bytes), a) == if a == b then w else WordAt(m, a)
  {
    PutBytes(m, b, w.bytes);
    SameWord(WordAt(Put(m, b, w.bytes), a), if a == b then w else WordAt(m, a));
  }
}
