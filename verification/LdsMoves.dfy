/** Moves between the register rows and the LDS, in place: byte copies, single lanes, and the four-lane transposes. */
module LdsMoves {
  import opened Basics
  import opened Lds

  /** The register rows as a value. */
  ghost function RegsOf(v: array2<Word>): (r: Regs)
    reads v
    ensures |r| == v.Length0 && forall i | 0 <= i < |r| :: |r[i]| == v.Length1
    ensures forall i, l | 0 <= i < v.Length0 && 0 <= l < v.Length1 :: r[i][l] == v[i, l]
  {
    seq(v.Length0, i requires 0 <= i < v.Length0 reads v =>
      seq(v.Length1, l requires 0 <= l < v.Length1 reads v => v[i, l]))
  }

  lemma {:induction false} SameRegs(a: Regs, b: Regs)
    requires |a| == |b| && forall i | 0 <= i < |a| :: |a[i]| == |b[i]|
    requires forall i, l | 0 <= i < |a| && 0 <= l < |a[i]| :: a[i][l] == b[i][l]
    ensures a == b
  {
    forall i | 0 <= i < |a|
      ensures a[i] == b[i]
    {
    }
  }

  // ---- Moves -------------------------------------------------------------------

  /** memcpy into the LDS. */
  method StoreBytes(lds: array<Byte>, a: nat, b: seq<Byte>)
    requires a + |b| <= lds.Length
    modifies lds
    ensures lds[..] == Put(old(lds[..]), a, b)
  {
    var i := 0;
    while i < |b|
      invariant 0 <= i <= |b|
      invariant Put(lds[..], a + i, b[i..]) == Put(old(lds[..]), a, b)
    {
      ghost var before := lds[..];
      assert b[i..][1..] == b[i + 1..];
      lds[a + i] := b[i];
      assert lds[..] == before[a + i := b[i]];
      i := i + 1;
    }
  }

  method LoadWords(lds: array<Byte>, a: nat, words: nat) returns (ws: seq<Word>)
    requires a + 4 * words <= lds.Length
    ensures ws == WordsAt(lds[..], a, words)
  {
    ws := seq(words, k requires 0 <= k < words reads lds =>
            WordFrom(lds[a + 4 * k], lds[a + 4 * k + 1], lds[a + 4 * k + 2], lds[a + 4 * k + 3]));
  }

  /** One lane's words into its column of the rows from row. */
  method SetWords(v: array2<Word>, row: nat, ws: seq<Word>, l: nat)
    requires row + |ws| <= v.Length0 && l < v.Length1
    modifies v
    ensures RegsOf(v) == SetLane(old(RegsOf(v)), row, ws, l)
  {
    var k := 0;
    while k < |ws|
      invariant 0 <= k <= |ws|
      invariant forall i, j | 0 <= i < v.Length0 && 0 <= j < v.Length1 ::
                  v[i, j] == if row <= i < row + k && j == l then ws[i - row] else old(v[i, j])
    {
      v[row + k, l] := ws[k];
      k := k + 1;
    }
    SameRegs(RegsOf(v), SetLane(old(RegsOf(v)), row, ws, l));
  }

  /** One lane's words out of its column. */
  method GetWords(v: array2<Word>, row: nat, words: nat, l: nat) returns (ws: seq<Word>)
    requires row + words <= v.Length0 && l < v.Length1
    ensures ws == LaneWords(RegsOf(v), row, words, l)
  {
    ws := seq(words, k requires 0 <= k < words reads v => v[row + k, l]);
  }

  // ---- Four lanes at a time ----------------------------------------------------

  /** A vector register of four words, and the shuffles the transposes are made of. */
  datatype Vec = Vec(w0: Word, w1: Word, w2: Word, w3: Word)

  function UnpackLo32(a: Vec, b: Vec): Vec { Vec(a.w0, b.w0, a.w1, b.w1) }
  function UnpackHi32(a: Vec, b: Vec): Vec { Vec(a.w2, b.w2, a.w3, b.w3) }
  function UnpackLo64(a: Vec, b: Vec): Vec { Vec(a.w0, a.w1, b.w0, b.w1) }
  function UnpackHi64(a: Vec, b: Vec): Vec { Vec(a.w2, a.w3, b.w2, b.w3) }
  /** _mm_shuffle_ps with (2, 0, 2, 0) and (3, 1, 3, 1). */
  function EvenWords(x: Vec, y: Vec): Vec { Vec(x.w0, x.w2, y.w0, y.w2) }
  function OddWords(x: Vec, y: Vec): Vec { Vec(x.w1, x.w3, y.w1, y.w3) }

  /** transpose4. */
  function Transpose4(a: Vec, b: Vec, c: Vec, d: Vec): (Vec, Vec, Vec, Vec) {
    var t0, t1, t2, t3 := UnpackLo32(a, b), UnpackLo32(c, d), UnpackHi32(a, b), UnpackHi32(c, d);
    (UnpackLo64(t0, t1), UnpackHi64(t0, t1), UnpackLo64(t2, t3), UnpackHi64(t2, t3))
  }

  /** _mm_loadu_si128 of four words. */
  function Load4(ws: seq<Word>): Vec
    requires |ws| == 4
  {
    Vec(ws[0], ws[1], ws[2], ws[3])
  }

  /** _mm_unpacklo_epi64 of two _mm_loadl_epi64, whose upper halves it drops. */
  function Load2x2(a: seq<Word>, b: seq<Word>): Vec
    requires |a| == |b| == 2
  {
    Vec(a[0], a[1], b[0], b[1])
  }

  /** One register: word c - at of d where the register is among those filled, what it was elsewhere. */
  ghost predicate Cell(now: Regs, was: Regs, row: nat, rows: nat, d: seq<seq<Word>>, at: nat, n: nat, r: int, c: int) {
    && 0 <= r < |was| == |now| && 0 <= c < |was[r]| && c < |now[r]|
    && (row <= r < row + rows && at <= c < at + n
        ==> c - at < |d| && r - row < |d[c - at]| && now[r][c] == d[c - at][r - row])
    && (!(row <= r < row + rows && at <= c < at + n) ==> now[r][c] == was[r][c])
  }

  /** n lanes from lane at hold their words of d in the rows from row, and every other register is what it was. */
  ghost predicate Filled(now: Regs, was: Regs, lanes: nat, row: nat, rows: nat, d: seq<seq<Word>>, at: nat, n: nat) {
    && |now| == |was| && Shaped(now, lanes) && Shaped(was, lanes)
    && forall r, c | 0 <= r < |was| && 0 <= c < lanes :: Cell(now, was, row, rows, d, at, n, r, c)
  }

  /** Some lanes and then those after them. */
  lemma {:induction false} FilledMore(now: Regs, mid: Regs, was: Regs, lanes: nat, row: nat, rows: nat,
                                      d: seq<seq<Word>>, at: nat, n: nat, q: seq<seq<Word>>)
    requires Filled(mid, was, lanes, row, rows, d, at, n) && Filled(now, mid, lanes, row, rows, q, at + n, |q|)
    requires n + |q| <= |d| && forall i | 0 <= i < |q| :: q[i] == d[n + i]
    ensures Filled(now, was, lanes, row, rows, d, at, n + |q|)
  {
    var more := n + |q|;
    forall r, c | 0 <= r < |was| && 0 <= c < lanes
      ensures Cell(now, was, row, rows, d, at, more, r, c)
    {
      assert Cell(mid, was, row, rows, d, at, n, r, c);
      assert Cell(now, mid, row, rows, q, at + n, |q|, r, c);
    }
  }

  /** Each lane's first words and then its second. */
  function Both(p: seq<seq<Word>>, q: seq<seq<Word>>): (r: seq<seq<Word>>)
    requires |p| == |q|
    ensures |r| == |p|
  {
    seq(|p|, i requires 0 <= i < |p| => p[i] + q[i])
  }

  /** Two values a lane: the rows of the first, then those of the second. */
  lemma {:induction false} FilledBoth(now: Regs, mid: Regs, was: Regs, lanes: nat, row: nat, words: nat,
                                      p: seq<seq<Word>>, q: seq<seq<Word>>, at: nat, n: nat)
    requires Filled(mid, was, lanes, row, words, p, at, n) && Filled(now, mid, lanes, row + words, words, q, at, n)
    requires n <= |p| == |q| && forall i | 0 <= i < |p| :: |p[i]| == words
    ensures Filled(now, was, lanes, row, words + words, Both(p, q), at, n)
  {
    var rows, both := words + words, Both(p, q);
    forall r, c | 0 <= r < |was| && 0 <= c < lanes
      ensures Cell(now, was, row, rows, both, at, n, r, c)
    {
      assert Cell(mid, was, row, words, p, at, n, r, c);
      assert Cell(now, mid, row + words, words, q, at, n, r, c);
    }
  }

  /** A vector into four lanes of a row. */
  method StoreVec(v: array2<Word>, row: nat, l: nat, x: Vec)
    requires row < v.Length0 && l + 4 <= v.Length1
    modifies v
    ensures forall i, j | 0 <= i < v.Length0 && 0 <= j < v.Length1 :: v[i, j] == if i == row && l <= j < l + 4
            then Lane(x, j - l) else old(v[i, j])
  {
    v[row, l] := x.w0;
    v[row, l + 1] := x.w1;
    v[row, l + 2] := x.w2;
    v[row, l + 3] := x.w3;
  }

  function Lane(x: Vec, i: int): Word {
    if i == 0 then x.w0 else if i == 1 then x.w1 else if i == 2 then x.w2 else x.w3
  }

  /** The words of four lanes at four addresses. */
  function WordsOf4(m: seq<Byte>, from: seq<nat>, words: nat): (q: seq<seq<Word>>)
    requires |from| == 4 && forall i | 0 <= i < 4 :: from[i] + 4 * words <= |m|
    ensures |q| == 4 && forall i | 0 <= i < 4 :: |q[i]| == words
  {
    [WordsAt(m, from[0], words), WordsAt(m, from[1], words), WordsAt(m, from[2], words), WordsAt(m, from[3], words)]
  }

  /** lds_to_rows: two or four words from each of four addresses into four lanes of as many rows. */
  method LdsToRows(v: array2<Word>, lds: array<Byte>, row: nat, words: nat, from: seq<nat>, l: nat)
    requires (words == 2 || words == 4) && row + words <= v.Length0 && l + 4 <= v.Length1
    requires |from| == 4 && forall i | 0 <= i < 4 :: from[i] + 4 * words <= lds.Length
    modifies v
    ensures Filled(RegsOf(v), old(RegsOf(v)), v.Length1, row, words, WordsOf4(old(lds[..]), from, words), l, 4)
  {
    var w0 := LoadWords(lds, from[0], words);
    var w1 := LoadWords(lds, from[1], words);
    var w2 := LoadWords(lds, from[2], words);
    var w3 := LoadWords(lds, from[3], words);
    if words == 4 {
      StoreTransposed4(v, row, w0, w1, w2, w3, l);
    } else {
      StoreTransposed2(v, row, w0, w1, w2, w3, l);
    }
  }

  method StoreTransposed4(v: array2<Word>, row: nat, w0: seq<Word>, w1: seq<Word>, w2: seq<Word>, w3: seq<Word>, l: nat)
    requires |w0| == |w1| == |w2| == |w3| == 4 && row + 4 <= v.Length0 && l + 4 <= v.Length1
    modifies v
    ensures Filled(RegsOf(v), old(RegsOf(v)), v.Length1, row, 4, [w0, w1, w2, w3], l, 4)
  {
    var t := Transpose4(Load4(w0), Load4(w1), Load4(w2), Load4(w3));
    StoreVec(v, row, l, t.0);
    StoreVec(v, row + 1, l, t.1);
    StoreVec(v, row + 2, l, t.2);
    StoreVec(v, row + 3, l, t.3);
  }

  method StoreTransposed2(v: array2<Word>, row: nat, w0: seq<Word>, w1: seq<Word>, w2: seq<Word>, w3: seq<Word>, l: nat)
    requires |w0| == |w1| == |w2| == |w3| == 2 && row + 2 <= v.Length0 && l + 4 <= v.Length1
    modifies v
    ensures Filled(RegsOf(v), old(RegsOf(v)), v.Length1, row, 2, [w0, w1, w2, w3], l, 4)
  {
    var x, y := Load2x2(w0, w1), Load2x2(w2, w3);
    StoreVec(v, row, l, EvenWords(x, y));
    StoreVec(v, row + 1, l, OddWords(x, y));
  }

  /** Four lanes' words stored one lane after another. */
  function Put4(m: seq<Byte>, to: seq<nat>, q: seq<seq<Word>>): (r: seq<Byte>)
    requires |to| == |q| == 4 && forall i | 0 <= i < 4 :: to[i] + 4 * |q[i]| <= |m|
    ensures |r| == |m|
  {
    Put(Put(Put(Put(m, to[0], BytesOf(q[0])), to[1], BytesOf(q[1])), to[2], BytesOf(q[2])), to[3], BytesOf(q[3]))
  }

  /** Four lanes' words of the rows from row. */
  function Words4(regs: Regs, row: nat, words: nat, l: nat): (q: seq<seq<Word>>)
    requires row + words <= |regs| && forall i | 0 <= i < |regs| :: l + 4 <= |regs[i]|
    ensures |q| == 4 && forall i | 0 <= i < 4 :: |q[i]| == words
  {
    [LaneWords(regs, row, words, l), LaneWords(regs, row, words, l + 1), LaneWords(regs, row, words, l + 2),
     LaneWords(regs, row, words, l + 3)]
  }

  function RowVec(v: array2<Word>, row: nat, l: nat): Vec
    requires row < v.Length0 && l + 4 <= v.Length1
    reads v
  {
    Vec(v[row, l], v[row, l + 1], v[row, l + 2], v[row, l + 3])
  }

  method GatherTransposed4(v: array2<Word>, row: nat, l: nat) returns (q: seq<seq<Word>>)
    requires row + 4 <= v.Length0 && l + 4 <= v.Length1
    ensures q == Words4(RegsOf(v), row, 4, l)
  {
    var t := Transpose4(RowVec(v, row, l), RowVec(v, row + 1, l), RowVec(v, row + 2, l), RowVec(v, row + 3, l));
    q := [[t.0.w0, t.0.w1, t.0.w2, t.0.w3], [t.1.w0, t.1.w1, t.1.w2, t.1.w3], [t.2.w0, t.2.w1, t.2.w2, t.2.w3],
          [t.3.w0, t.3.w1, t.3.w2, t.3.w3]];
    assert q[0] == LaneWords(RegsOf(v), row, 4, l) && q[1] == LaneWords(RegsOf(v), row, 4, l + 1);
    assert q[2] == LaneWords(RegsOf(v), row, 4, l + 2) && q[3] == LaneWords(RegsOf(v), row, 4, l + 3);
  }

  method GatherTransposed2(v: array2<Word>, row: nat, l: nat) returns (q: seq<seq<Word>>)
    requires row + 2 <= v.Length0 && l + 4 <= v.Length1
    ensures q == Words4(RegsOf(v), row, 2, l)
  {
    var x, y := UnpackLo32(RowVec(v, row, l), RowVec(v, row + 1, l)),
        UnpackHi32(RowVec(v, row, l), RowVec(v, row + 1, l));
    var xh, yh := UnpackHi64(x, x), UnpackHi64(y, y);
    q := [[x.w0, x.w1], [xh.w0, xh.w1], [y.w0, y.w1], [yh.w0, yh.w1]];
    assert q[0] == LaneWords(RegsOf(v), row, 2, l) && q[1] == LaneWords(RegsOf(v), row, 2, l + 1);
    assert q[2] == LaneWords(RegsOf(v), row, 2, l + 2) && q[3] == LaneWords(RegsOf(v), row, 2, l + 3);
  }

  /** rows_to_lds: four lanes' words of two or four rows to four addresses, in lane order. */
  method RowsToLds(v: array2<Word>, lds: array<Byte>, row: nat, words: nat, to: seq<nat>, l: nat)
    requires (words == 2 || words == 4) && row + words <= v.Length0 && l + 4 <= v.Length1
    requires |to| == 4 && forall i | 0 <= i < 4 :: to[i] + 4 * words <= lds.Length
    modifies lds
    ensures lds[..] == Put4(old(lds[..]), to, Words4(RegsOf(v), row, words, l))
  {
    var q;
    if words == 4 {
      q := GatherTransposed4(v, row, l);
    } else {
      q := GatherTransposed2(v, row, l);
    }
    StoreBytes(lds, to[0], BytesOf(q[0]));
    StoreBytes(lds, to[1], BytesOf(q[1]));
    StoreBytes(lds, to[2], BytesOf(q[2]));
    StoreBytes(lds, to[3], BytesOf(q[3]));
  }
}
